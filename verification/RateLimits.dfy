// The shared rate limiter: fixed windows over nested buckets, kept in one
// table that every service instance locks row by row.
//
// Stamps are microseconds; window ends are whole seconds. A bucket's key is
// its digest, and hashing is taken to be injective.

module RateLimits {

  import opened Wrappers

  type Key = string

  const MICROS: int := 1_000_000

  /** The whole second a stamp falls in (the microseconds are dropped). */
  function Seconds(stamp: int): int {
    stamp / MICROS
  }

  datatype Bucket = Bucket(attempts: int, expires: int)

  type Rows = map<Key, Bucket>

  /** What consuming does: the new rows and how many leading keys were charged. */
  datatype Consumption = Consumption(rows: Rows, charged: nat)

  ghost predicate Distinct(keys: seq<Key>) {
    forall i, j :: 0 <= i < j < |keys| ==> keys[i] != keys[j]
  }

  /** The bucket as the locked read leaves it: created or reset when its window is over. */
  function Refreshed(rows: Rows, key: Key, window: int, now: int): Bucket {
    if key !in rows || rows[key].expires <= now
    then Bucket(0, now + window)
    else rows[key]
  }

  function Charge(rows: Rows, keys: seq<Key>, limits: seq<int>, window: int, now: int): Consumption
    requires |keys| == |limits|
    decreases |keys|
  {
    if keys == [] then
      Consumption(rows, 0)
    else
      var bucket := Refreshed(rows, keys[0], window, now);
      if bucket.attempts >= limits[0] then
        Consumption(rows[keys[0] := bucket], 0)
      else
        var charged := rows[keys[0] := bucket.(attempts := bucket.attempts + 1)];
        var rest := Charge(charged, keys[1..], limits[1..], window, now);
        Consumption(rest.rows, rest.charged + 1)
  }

  /** The release guard: a whole-second window end against a microsecond stamp. */
  predicate GivesBack(bucket: Bucket, startedAt: int, window: int) {
    bucket.expires * MICROS <= startedAt + window * MICROS
  }

  function GiveBack(rows: Rows, key: Key, startedAt: int, window: int): Rows {
    if key in rows && GivesBack(rows[key], startedAt, window) then
      var left := rows[key].attempts - 1;
      rows[key := rows[key].(attempts := if left < 0 then 0 else left)]
    else
      rows
  }

  function Release(rows: Rows, keys: seq<Key>, startedAt: int, window: int): Rows {
    if keys == [] then rows
    else Release(GiveBack(rows, keys[0], startedAt, window), keys[1..], startedAt, window)
  }

  /** Maintenance drops every bucket whose window is over. */
  function Purge(rows: Rows, now: int): Rows {
    map key | key in rows && rows[key].expires * MICROS > now :: rows[key]
  }

  // ---- What each operation does, key by key ---------------------------------

  /** How many leading keys a call looks at: those it charges and the one that stops it. */
  function Touched(keys: seq<Key>, charged: nat): seq<Key> {
    if charged < |keys| then keys[..charged + 1] else keys
  }

  /** What consuming does to the `i`-th key: an earlier key gains one attempt in
      its current window; the key that stops the call is full and only brought
      up to date. */
  lemma {:induction false} ChargeAtKey(
    rows: Rows, keys: seq<Key>, limits: seq<int>, window: int, now: int, i: nat)
    requires |keys| == |limits| && Distinct(keys) && i < |keys|
    ensures var c := Charge(rows, keys, limits, window, now);
            var bucket := Refreshed(rows, keys[i], window, now);
            && c.charged <= |keys|
            && (i < c.charged ==>
                  && bucket.attempts < limits[i]
                  && keys[i] in c.rows
                  && c.rows[keys[i]] == bucket.(attempts := bucket.attempts + 1))
            && (i == c.charged ==>
                  && bucket.attempts >= limits[i]
                  && keys[i] in c.rows
                  && c.rows[keys[i]] == bucket)
    decreases |keys|
  {
    var bucket := Refreshed(rows, keys[0], window, now);
    if bucket.attempts < limits[0] {
      var next := rows[keys[0] := bucket.(attempts := bucket.attempts + 1)];
      var rest := Charge(next, keys[1..], limits[1..], window, now);
      ChargedAtMostAll(next, keys[1..], limits[1..], window, now);
      if i == 0 {
        assert keys[0] !in keys[1..];
        ChargeElsewhere(next, keys[1..], limits[1..], window, now, keys[0]);
      } else {
        assert keys[1..][i - 1] == keys[i] && limits[1..][i - 1] == limits[i];
        ChargeAtKey(next, keys[1..], limits[1..], window, now, i - 1);
      }
    }
  }

  lemma {:induction false} ChargedAtMostAll(
    rows: Rows, keys: seq<Key>, limits: seq<int>, window: int, now: int)
    requires |keys| == |limits|
    ensures Charge(rows, keys, limits, window, now).charged <= |keys|
    decreases |keys|
  {
    if keys != [] {
      var bucket := Refreshed(rows, keys[0], window, now);
      var next := rows[keys[0] := bucket.(attempts := bucket.attempts + 1)];
      ChargedAtMostAll(next, keys[1..], limits[1..], window, now);
    }
  }

  /** No bucket beyond those the call looks at is created or changed. */
  lemma {:induction false} ChargeElsewhere(
    rows: Rows, keys: seq<Key>, limits: seq<int>, window: int, now: int, key: Key)
    requires |keys| == |limits|
    ensures var c := Charge(rows, keys, limits, window, now);
            key !in Touched(keys, c.charged) ==>
              && (key in c.rows <==> key in rows)
              && (key in rows ==> c.rows[key] == rows[key])
    decreases |keys|
  {
    if keys != [] {
      var bucket := Refreshed(rows, keys[0], window, now);
      if bucket.attempts < limits[0] {
        var next := rows[keys[0] := bucket.(attempts := bucket.attempts + 1)];
        ChargeElsewhere(next, keys[1..], limits[1..], window, now, key);
        var rest := Charge(next, keys[1..], limits[1..], window, now);
        assert Touched(keys, rest.charged + 1) == [keys[0]] + Touched(keys[1..], rest.charged);
      } else {
        assert Touched(keys, 0) == [keys[0]];
      }
    }
  }

  /** A blocked outer bucket stops the call: no other bucket is created or changed. */
  lemma BlockedOuterKeyTouchesNothingElse(
    rows: Rows, keys: seq<Key>, limits: seq<int>, window: int, now: int, other: Key)
    requires |keys| == |limits| && keys != []
    requires Refreshed(rows, keys[0], window, now).attempts >= limits[0]
    requires other != keys[0]
    ensures var c := Charge(rows, keys, limits, window, now);
            && c.charged == 0
            && (other in c.rows <==> other in rows)
            && (other in rows ==> c.rows[other] == rows[other])
  {
  }

  /** Releasing, key by key, for distinct keys. */
  lemma {:induction false} ReleaseIsExact(rows: Rows, keys: seq<Key>, startedAt: int, window: int)
    requires Distinct(keys)
    ensures Release(rows, keys, startedAt, window).Keys == rows.Keys
    ensures forall key :: key in rows ==>
              Release(rows, keys, startedAt, window)[key] ==
              if key in keys then GiveBack(rows, key, startedAt, window)[key] else rows[key]
  {
    if keys != [] {
      ReleaseIsExact(GiveBack(rows, keys[0], startedAt, window), keys[1..], startedAt, window);
      assert keys[0] !in keys[1..];
    }
  }

  /** A permitted call followed at once by its release: each bucket is back to
      what the call found, unless its window was opened by a later stamp (then
      the attempt stays charged). */
  lemma SuccessIsGivenBack(rows: Rows, keys: seq<Key>, limits: seq<int>, window: int, startedAt: int, key: Key)
    requires |keys| == |limits| && Distinct(keys) && key in keys
    requires Charge(rows, keys, limits, window, Seconds(startedAt)).charged == |keys|
    requires Refreshed(rows, key, window, Seconds(startedAt)).attempts >= 0
    ensures var now := Seconds(startedAt);
            var found := Refreshed(rows, key, window, now);
            var after := Release(Charge(rows, keys, limits, window, now).rows, keys, startedAt, window);
            && key in after
            && after[key].expires == found.expires
            && (after[key].attempts == found.attempts <==> found.expires <= now + window)
  {
    var now := Seconds(startedAt);
    var i :| 0 <= i < |keys| && keys[i] == key;
    ChargeAtKey(rows, keys, limits, window, now, i);
    ReleaseIsExact(Charge(rows, keys, limits, window, now).rows, keys, startedAt, window);
    GuardComparesWholeSeconds(Refreshed(rows, key, window, now), startedAt, window);
  }

  /** The guard mixes units but amounts to a comparison of whole seconds. */
  lemma GuardComparesWholeSeconds(bucket: Bucket, startedAt: int, window: int)
    ensures GivesBack(bucket, startedAt, window) <==> bucket.expires <= Seconds(startedAt) + window
  {
  }

  // ---- The table and its transactions ----------------------------------------

  class RateLimitTable {
    var rows: Rows

    constructor ()
      ensures rows == map[]
    {
      rows := map[];
    }

    /** One transaction: charge each bucket from the outermost in, stopping at the first full one. */
    method Consume(keys: seq<Key>, limits: seq<int>, window: int, startedAt: int)
      returns (allowed: Result<bool, string>)
      modifies this
      ensures |keys| != |limits| ==> allowed.Failure? && rows == old(rows)
      ensures |keys| == |limits| ==>
                var c := Charge(old(rows), keys, limits, window, Seconds(startedAt));
                rows == c.rows && allowed == Success(c.charged == |keys|)
    {
      if |keys| != |limits| {
        return Failure("Each rate bucket needs a limit");
      }
      var now := Seconds(startedAt);
      var permitted := true;
      var i := 0;
      while i < |keys|
        invariant 0 <= i <= |keys|
        invariant permitted
        invariant Charge(old(rows), keys, limits, window, now).rows
               == Charge(rows, keys[i..], limits[i..], window, now).rows
        invariant Charge(old(rows), keys, limits, window, now).charged
               == Charge(rows, keys[i..], limits[i..], window, now).charged + i
      {
        var key := keys[i];
        ghost var before := rows;
        assert keys[i..][0] == key && keys[i..][1..] == keys[i + 1..];
        assert limits[i..][0] == limits[i] && limits[i..][1..] == limits[i + 1..];
        if key !in rows {
          rows := rows[key := Bucket(0, now + window)];
        }
        var bucket := rows[key];
        if bucket.expires <= now {
          bucket := Bucket(0, now + window);
          rows := rows[key := bucket];
        }
        assert bucket == Refreshed(before, key, window, now) && rows == before[key := bucket];
        if bucket.attempts >= limits[i] {
          permitted := false;
          break;
        }
        rows := rows[key := bucket.(attempts := bucket.attempts + 1)];
        assert rows == before[key := bucket.(attempts := bucket.attempts + 1)];
        i := i + 1;
      }
      return Success(permitted);
    }

    /** One transaction: give one attempt back in every bucket still in the call's window. */
    method GiveBackAll(keys: seq<Key>, startedAt: int, window: int)
      modifies this
      ensures rows == Release(old(rows), keys, startedAt, window)
    {
      var i := 0;
      while i < |keys|
        invariant 0 <= i <= |keys|
        invariant Release(old(rows), keys, startedAt, window)
               == Release(rows, keys[i..], startedAt, window)
      {
        var key := keys[i];
        assert keys[i..][0] == key && keys[i..][1..] == keys[i + 1..];
        if key in rows && rows[key].expires * MICROS <= startedAt + window * MICROS {
          var bucket := rows[key];
          var left := if bucket.attempts - 1 > 0 then bucket.attempts - 1 else 0;
          rows := rows[key := bucket.(attempts := left)];
        }
        i := i + 1;
      }
    }

    /** The maintenance pass over this table. */
    method DeleteExpired(now: int)
      modifies this
      ensures rows == Purge(old(rows), now)
    {
      rows := map key | key in rows && !(rows[key].expires * MICROS <= now) :: rows[key];
    }
  }
}
