// SMTP authentication on top of the rate limiter: two nested buckets are charged
// before the token is looked at, and given back when it was right.

module Authentication {

  import opened RateLimits
  import opened Wrappers

  const WINDOW: int := 900
  const LIMITS: seq<int> := [20, 5]

  function AddressKey(peer: string): Key {
    "smtp-auth-ip:" + peer
  }

  function PairKey(peer: string, credential: string): Key {
    "smtp-auth-ip-credential:" + peer + ":" + credential
  }

  function Keys(peer: string, credential: string): seq<Key> {
    [AddressKey(peer), PairKey(peer, credential)]
  }

  /** The two buckets of one attempt are never the same bucket. */
  lemma KeysAreDistinct(peer: string, credential: string)
    ensures Distinct(Keys(peer, credential))
  {
    assert AddressKey(peer)[12] == ':';
    assert PairKey(peer, credential) == "smtp-auth-ip-credential:" + (peer + ":" + credential);
    assert PairKey(peer, credential)[12] == '-';
  }

  /** `valid` is the answer of the credential lookup and token comparison, which
      are consulted only when both buckets permit the attempt. */
  method Authenticate(table: RateLimitTable, peer: string, credential: string, valid: bool, startedAt: int)
    returns (authenticated: Result<(), int>)
    modifies table
    ensures var keys := Keys(peer, credential);
            var c := Charge(old(table.rows), keys, LIMITS, WINDOW, Seconds(startedAt));
            if c.charged < 2 then authenticated == Failure(429) && table.rows == c.rows
            else if !valid then authenticated == Failure(401) && table.rows == c.rows
            else authenticated == Success(()) && table.rows == Release(c.rows, keys, startedAt, WINDOW)
  {
    var keys := Keys(peer, credential);
    var permitted := table.Consume(keys, LIMITS, WINDOW, startedAt);
    ChargedAtMostAll(old(table.rows), keys, LIMITS, WINDOW, Seconds(startedAt));
    if permitted.Failure? || !permitted.value {
      return Failure(429);
    }
    if !valid {
      return Failure(401);
    }
    table.GiveBackAll(keys, startedAt, WINDOW);
    return Success(());
  }

  /** A right token costs nothing and a wrong one costs one attempt in each bucket,
      for buckets whose windows were not opened by a later stamp. */
  lemma SuccessCostsNothing(rows: Rows, peer: string, credential: string, startedAt: int, key: Key)
    requires key in Keys(peer, credential)
    requires Charge(rows, Keys(peer, credential), LIMITS, WINDOW, Seconds(startedAt)).charged == 2
    requires Refreshed(rows, key, WINDOW, Seconds(startedAt)).attempts >= 0
    requires Refreshed(rows, key, WINDOW, Seconds(startedAt)).expires <= Seconds(startedAt) + WINDOW
    ensures var keys := Keys(peer, credential);
            var found := Refreshed(rows, key, WINDOW, Seconds(startedAt));
            var charged := Charge(rows, keys, LIMITS, WINDOW, Seconds(startedAt)).rows;
            && key in charged && charged[key] == found.(attempts := found.attempts + 1)
            && key in Release(charged, keys, startedAt, WINDOW)
            && Release(charged, keys, startedAt, WINDOW)[key] == found
  {
    KeysAreDistinct(peer, credential);
    var keys := Keys(peer, credential);
    var i :| 0 <= i < |keys| && keys[i] == key;
    ChargeAtKey(rows, keys, LIMITS, WINDOW, Seconds(startedAt), i);
    SuccessIsGivenBack(rows, keys, LIMITS, WINDOW, startedAt, key);
  }

  /** Which buckets an attempt draws on: one for the peer, one for the peer with the
      credential. */
  lemma KeysTellApart(peer: string, other: string, credential: string, another: string)
    ensures AddressKey(peer) == AddressKey(other) <==> peer == other
    ensures PairKey(peer, credential) == PairKey(peer, another) <==> credential == another
    ensures PairKey(peer, credential) == PairKey(other, credential) <==> peer == other
    ensures Keys(peer, credential) == [AddressKey(peer), PairKey(peer, credential)]
  {
    var a, b := AddressKey(peer), AddressKey(other);
    assert a[|"smtp-auth-ip:"|..] == peer && b[|"smtp-auth-ip:"|..] == other;
    var prefix := "smtp-auth-ip-credential:";
    var p, q, r := PairKey(peer, credential), PairKey(peer, another), PairKey(other, credential);
    assert p[|prefix| + |peer| + 1..] == credential && q[|prefix| + |peer| + 1..] == another;
    assert p[|prefix|..|p| - |credential| - 1] == peer && r[|prefix|..|r| - |credential| - 1] == other;
  }

  /** An attempt is turned away exactly when its peer has twenty attempts or, with this
      credential, five in the current window of fifteen minutes. */
  lemma BlockedExactlyAtTheLimits(rows: Rows, peer: string, credential: string, startedAt: int)
    ensures var now := startedAt / 1_000_000;
            var inForce := (key: Key) => key in rows && rows[key].expires > now;
            Charge(rows, Keys(peer, credential), LIMITS, WINDOW, Seconds(startedAt)).charged < 2 <==>
            || (inForce(AddressKey(peer)) && rows[AddressKey(peer)].attempts >= 20)
            || (inForce(PairKey(peer, credential)) && rows[PairKey(peer, credential)].attempts >= 5)
    ensures AddressKey(peer) !in rows ==>
              var after := Charge(rows, Keys(peer, credential), LIMITS, WINDOW, Seconds(startedAt)).rows;
              AddressKey(peer) in after && after[AddressKey(peer)].expires == startedAt / 1_000_000 + 900
  {
    KeysAreDistinct(peer, credential);
    var keys, now := Keys(peer, credential), Seconds(startedAt);
    ChargedAtMostAll(rows, keys, LIMITS, WINDOW, now);
    ChargeAtKey(rows, keys, LIMITS, WINDOW, now, 0);
    ChargeAtKey(rows, keys, LIMITS, WINDOW, now, 1);
  }
}
