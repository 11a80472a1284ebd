// How much the limiter lets through: per bucket, per interval, and per outer
// bucket, over every run with a fixed limit for each key.

module RateBounds {

  import opened RateLimits
  import opened RateLedger
  import opened RateReleases
  import opened RateRuns
  import opened SetFacts
  import opened Wrappers

  type Limits = Key -> nat

  ghost predicate FixedLimits(e: Event, limit: Limits) {
    e.Consumed? && |e.keys| == |e.limits| ==> forall i :: 0 <= i < |e.keys| ==> e.limits[i] == limit(e.keys[i])
  }

  // ---- With any stamps and any maintenance passes --------------------------------------

  ghost predicate RowsLimited(rows: Rows, limit: Limits) {
    forall key :: key in rows ==> rows[key].attempts <= limit(key)
  }

  lemma StepKeepsRowsLimited(h: History, e: Event, window: int, limit: Limits)
    requires Enabled(h, e) && FixedLimits(e, limit) && RowsLimited(h.rows, limit)
    requires e.Released? ==> Distinct(h.calls[e.id].keys)
    ensures RowsLimited(Apply(h, e, window).rows, limit)
  {
    match e
    case Consumed(id, keys, limits, stamp) =>
      var c := Charge(h.rows, keys, limits, window, Seconds(stamp));
      ChargedAtMostAll(h.rows, keys, limits, window, Seconds(stamp));
      forall key | key in c.rows
        ensures c.rows[key].attempts <= limit(key)
      {
        if key in Touched(keys, c.charged) {
          var i :| 0 <= i < |Touched(keys, c.charged)| && Touched(keys, c.charged)[i] == key;
          ChargeAtKey(h.rows, keys, limits, window, Seconds(stamp), i);
        } else {
          ChargeElsewhere(h.rows, keys, limits, window, Seconds(stamp), key);
        }
      }
    case Released(id) => ReleaseIsExact(h.rows, h.calls[id].keys, h.calls[id].stamp, window);
    case Purged(now) =>
  }

  ghost predicate CallsDistinct(h: History) {
    forall id :: id in h.calls ==> Distinct(h.calls[id].keys)
  }

  lemma {:induction false} RunKeepsRowsLimited(h: History, events: seq<Event>, window: int, limit: Limits)
    requires Possible(h, events, window) && RowsLimited(h.rows, limit) && CallsDistinct(h)
    requires forall i :: 0 <= i < |events| ==> FixedLimits(events[i], limit)
    ensures RowsLimited(Run(h, events, window).rows, limit)
    decreases |events|
  {
    if events != [] {
      assert FixedLimits(events[0], limit);
      StepKeepsRowsLimited(h, events[0], window, limit);
      RunKeepsRowsLimited(Apply(h, events[0], window), events[1..], window, limit);
    }
  }

  /** A bucket never holds more attempts than its limit, whatever the stamps. */
  lemma AttemptsNeverExceedTheLimit(events: seq<Event>, window: int, limit: Limits, key: Key)
    requires Possible(START, events, window)
    requires forall i :: 0 <= i < |events| ==> FixedLimits(events[i], limit)
    ensures key in Run(START, events, window).rows ==> Run(START, events, window).rows[key].attempts <= limit(key)
  {
    RunKeepsRowsLimited(START, events, window, limit);
  }

  /** No window was charged more than the limit beyond what it gave back; the current
      one no more than the table says. */
  ghost predicate WindowsLimited(h: History, key: Key, limit: Limits) {
    key in h.windows ==>
      && (forall i :: 0 <= i < |h.windows[key]| ==>
            |h.windows[key][i].charged| - |h.windows[key][i].returned| <= limit(key))
      && (key in h.rows && h.windows[key] != [] ==>
            |Last(h.windows[key]).charged| - |Last(h.windows[key]).returned| <= h.rows[key].attempts)
  }

  ghost predicate Limited(h: History, limit: Limits) {
    forall key :: WindowsLimited(h, key, limit)
  }

  lemma BookKeepsLimited(h: History, c: Consumption, id: CallId, keys: seq<Key>, stamp: int, window: int,
                         key: Key, limit: Limits)
    requires WindowKnown(h, key) && WindowsLimited(h, key, limit) && c.charged <= |keys|
    requires BucketStep(h.rows, c, key, key in keys[..c.charged], Seconds(stamp), window)
    requires key in keys[..c.charged] ==> c.rows[key].attempts <= limit(key)
    ensures WindowsLimited(Book(h, c, id, keys, stamp), key, limit)
  {
    var h' := Book(h, c, id, keys, stamp);
    var known := if key in h.windows then h.windows[key] else [];
    if key in h'.windows && h'.windows[key] != known && !Opens(h.rows, c.rows, key) {
      UnionSize(Last(known).charged, {id});
      assert Last(h'.windows[key]).charged == Last(known).charged + {id};
    }
  }

  lemma ReleaseKeepsLimited(h: History, id: CallId, window: int, key: Key, limit: Limits)
    requires Recorded(h) && Enabled(h, Released(id)) && WindowsLimited(h, key, limit)
    ensures WindowsLimited(ReleaseCall(h, id, window), key, limit)
  {
    assert ChargesRecorded(h, id) && EntriesRecorded(h, key);
    ReleaseIsExact(h.rows, h.calls[id].keys, h.calls[id].stamp, window);
    if key in h.windows && h.windows[key] != [] {
      var now := Last(h.windows[key]);
      assert EntryRecorded(h.calls, key, |h.windows[key]| - 1, now, id);
      assert id !in now.returned && |now.returned + {id}| == |now.returned| + 1;
    }
  }

  lemma StepKeepsLimited(h: History, e: Event, window: int, limit: Limits)
    requires window >= 1 && Recorded(h) && Enabled(h, e)
    requires Limited(h, limit) && FixedLimits(e, limit)
    ensures Limited(Apply(h, e, window), limit)
  {
    forall key
      ensures WindowsLimited(Apply(h, e, window), key, limit)
    {
      assert WindowsLimited(h, key, limit) && WindowKnown(h, key);
      match e
      case Consumed(id, keys, limits, stamp) =>
        ConsumeAtKey(h.rows, keys, limits, Seconds(stamp), window, key);
        var c := Charge(h.rows, keys, limits, window, Seconds(stamp));
        if key in keys[..c.charged] {
          var i :| 0 <= i < c.charged && keys[..c.charged][i] == key;
          ChargeAtKey(h.rows, keys, limits, window, Seconds(stamp), i);
        }
        BookKeepsLimited(h, c, id, keys, stamp, window, key, limit);
      case Released(id) => ReleaseKeepsLimited(h, id, window, key, limit);
      case Purged(now) =>
    }
  }

  lemma {:induction false} RunKeepsLimited(h: History, events: seq<Event>, window: int, limit: Limits)
    requires window >= 1 && Recorded(h) && Limited(h, limit) && Possible(h, events, window)
    requires forall i :: 0 <= i < |events| ==> FixedLimits(events[i], limit)
    ensures Recorded(Run(h, events, window)) && Limited(Run(h, events, window), limit)
    decreases |events|
  {
    if events != [] {
      assert FixedLimits(events[0], limit);
      EventKeepsRecorded(h, events[0], window);
      StepKeepsLimited(h, events[0], window, limit);
      RunKeepsLimited(Apply(h, events[0], window), events[1..], window, limit);
    }
  }

  // ---- Stamps in transaction order -----------------------------------------------

  function Clock(e: Event): Option<int> {
    match e
    case Consumed(_, _, _, stamp) => Some(Seconds(stamp))
    case Released(_) => None
    case Purged(now) => Some(Seconds(now))
  }

  ghost predicate StampsInOrder(events: seq<Event>) {
    forall i, j :: 0 <= i < j < |events| && Clock(events[i]).Some? && Clock(events[j]).Some? ==>
      Clock(events[i]).value <= Clock(events[j]).value
  }

  ghost predicate NoneBefore(clock: Option<int>, events: seq<Event>) {
    forall i :: 0 <= i < |events| && clock.Some? && Clock(events[i]).Some? ==>
      clock.value <= Clock(events[i]).value
  }

  function Advanced(clock: Option<int>, e: Event): Option<int> {
    if Clock(e).Some? then Clock(e) else clock
  }

  ghost predicate OpenedBy(h: History, key: Key, window: int, clock: Option<int>) {
    key in h.windows ==>
      forall i :: 0 <= i < |h.windows[key]| ==>
        clock.Some? && h.windows[key][i].end - window <= clock.value
  }

  /** Each charge came at or after the opening of its window. */
  ghost predicate ChargedAfterOpening(h: History, id: CallId, window: int) {
    id in h.calls && |h.calls[id].homes| <= |h.calls[id].keys| ==>
      forall i :: 0 <= i < |h.calls[id].homes| ==>
        var key := h.calls[id].keys[i];
        key in h.windows && h.calls[id].homes[i] < |h.windows[key]| ==>
          h.windows[key][h.calls[id].homes[i]].end - window <= Seconds(h.calls[id].stamp)
  }

  ghost predicate Timely(h: History, window: int, clock: Option<int>) {
    && (forall key :: OpenedBy(h, key, window, clock))
    && (forall id :: ChargedAfterOpening(h, id, window))
  }

  lemma OpeningSurvives(h: History, h': History, id: CallId, window: int)
    requires ChargesRecorded(h, id) && ChargedAfterOpening(h, id, window) && LedgerExtends(h, h')
    requires id in h'.calls ==> id in h.calls && h'.calls[id].(released := h.calls[id].released) == h.calls[id]
    ensures ChargedAfterOpening(h', id, window)
  {
    if id in h'.calls {
      var call := h'.calls[id];
      forall i | 0 <= i < |call.homes|
        ensures h'.windows[call.keys[i]][call.homes[i]].end - window <= Seconds(call.stamp)
      {
        assert Extends(h.windows[call.keys[i]], h'.windows[call.keys[i]]);
        assert Grows(h.windows[call.keys[i]][call.homes[i]], h'.windows[call.keys[i]][call.homes[i]]);
      }
    }
  }

  lemma BookIsOpenedBy(h: History, c: Consumption, id: CallId, keys: seq<Key>, stamp: int, window: int,
                       key: Key, clock: Option<int>)
    requires c.charged <= |keys| && OpenedBy(h, key, window, clock)
    requires clock.Some? ==> clock.value <= Seconds(stamp)
    requires BucketStep(h.rows, c, key, key in keys[..c.charged], Seconds(stamp), window)
    ensures OpenedBy(Book(h, c, id, keys, stamp), key, window, Some(Seconds(stamp)))
  {
    var known := if key in h.windows then h.windows[key] else [];
    var h' := Book(h, c, id, keys, stamp);
    if key in h'.windows {
      forall i | 0 <= i < |h'.windows[key]|
        ensures h'.windows[key][i].end - window <= Seconds(stamp)
      {
        if i < |known| {
          assert h'.windows[key][i].end == known[i].end;
        }
      }
    }
  }

  lemma ReleaseIsOpenedBy(h: History, id: CallId, window: int, key: Key, clock: Option<int>)
    requires id in h.calls && OpenedBy(h, key, window, clock)
    ensures OpenedBy(ReleaseCall(h, id, window), key, window, clock)
  {
    if key in h.windows {
      var before, after := h.windows[key], GivenBack(h, id, key, window);
      forall i | 0 <= i < |after|
        ensures clock.Some? && after[i].end - window <= clock.value
      {
        assert after[i].end == before[i].end;
      }
      assert ReleaseCall(h, id, window).windows[key] == after;
    }
  }

  lemma StepIsOpenedBy(h: History, e: Event, window: int, key: Key, clock: Option<int>)
    requires window >= 1 && Enabled(h, e) && OpenedBy(h, key, window, clock)
    requires clock.Some? && Clock(e).Some? ==> clock.value <= Clock(e).value
    ensures OpenedBy(Apply(h, e, window), key, window, Advanced(clock, e))
  {
    if e.Consumed? {
      ConsumeAtKey(h.rows, e.keys, e.limits, Seconds(e.stamp), window, key);
      BookIsOpenedBy(h, Charge(h.rows, e.keys, e.limits, window, Seconds(e.stamp)), e.id, e.keys, e.stamp,
                     window, key, clock);
    } else if e.Released? {
      ReleaseIsOpenedBy(h, e.id, window, key, clock);
    }
  }

  lemma NewCallAfterOpening(h': History, id: CallId, window: int, clock: Option<int>)
    requires id in h'.calls && clock == Some(Seconds(h'.calls[id].stamp))
    requires forall key :: OpenedBy(h', key, window, clock)
    ensures ChargedAfterOpening(h', id, window)
  {
    if |h'.calls[id].homes| <= |h'.calls[id].keys| {
      forall i | 0 <= i < |h'.calls[id].homes|
        ensures var key := h'.calls[id].keys[i];
                key in h'.windows && h'.calls[id].homes[i] < |h'.windows[key]| ==>
                  h'.windows[key][h'.calls[id].homes[i]].end - window <= Seconds(h'.calls[id].stamp)
      {
        assert OpenedBy(h', h'.calls[id].keys[i], window, clock);
      }
    }
  }

  lemma StepKeepsTimely(h: History, e: Event, window: int, clock: Option<int>)
    requires window >= 1 && Sound(h, window) && Enabled(h, e) && Timely(h, window, clock)
    requires clock.Some? && Clock(e).Some? ==> clock.value <= Clock(e).value
    ensures Timely(Apply(h, e, window), window, Advanced(clock, e))
  {
    var h' := Apply(h, e, window);
    forall key
      ensures OpenedBy(h', key, window, Advanced(clock, e))
    {
      assert OpenedBy(h, key, window, clock);
      StepIsOpenedBy(h, e, window, key, clock);
    }
    forall id
      ensures ChargedAfterOpening(h', id, window)
    {
      if e.Consumed? && id == e.id {
        NewCallAfterOpening(h', id, window, Advanced(clock, e));
      } else {
        assert ChargesRecorded(h, id) && ChargedAfterOpening(h, id, window);
        assert LedgerExtends(h, h');
        OpeningSurvives(h, h', id, window);
      }
    }
  }

  lemma {:induction false} RunIsTimely(h: History, events: seq<Event>, window: int, clock: Option<int>)
    requires window >= 1 && Sound(h, window) && Swept(h, clock) && Timely(h, window, clock)
    requires Possible(h, events, window) && StampsInOrder(events) && NoneBefore(clock, events)
    ensures forall id :: ChargedAfterOpening(Run(h, events, window), id, window)
    ensures Sound(Run(h, events, window), window)
    decreases |events|
  {
    if events != [] {
      var e, rest := events[0], events[1..];
      var h' := Apply(h, e, window);
      assert forall i :: 0 <= i < |rest| ==> rest[i] == events[i + 1];
      NotBeforeRevivesNothing(h, e, window, clock);
      EventKeepsSound(h, e, window);
      StepKeepsSwept(h, e, window, clock);
      StepKeepsTimely(h, e, window, clock);
      assert NoneBefore(Advanced(clock, e), rest);
      assert Swept(h', Advanced(clock, e));
      RunIsTimely(h', rest, window, Advanced(clock, e));
    }
  }

  // ---- The bounds ---------------------------------------------------------------------

  ghost predicate ReturnedOn(h: History, id: CallId, key: Key) {
    key in h.windows && exists i :: 0 <= i < |h.windows[key]| && id in h.windows[key][i].returned
  }

  /** The calls of a closed interval of one window length that a bucket charged and never gave back. */
  ghost function Unreturned(h: History, key: Key, from: int, window: int): set<CallId> {
    set id | id in h.calls && h.calls[id].ChargedOn(key) && !ReturnedOn(h, id, key)
             && from <= h.calls[id].stamp <= from + window * MICROS
  }

  ghost function Home(call: Call, key: Key): nat
    requires call.ChargedOn(key)
  {
    var i :| 0 <= i < |call.homes| && call.keys[..|call.homes|][i] == key;
    call.homes[i]
  }

  lemma HomeOfCharge(h: History, id: CallId, key: Key, window: int)
    requires Sound(h, window) && id in h.calls && h.calls[id].ChargedOn(key)
    requires forall id :: ChargedAfterOpening(h, id, window)
    ensures var home := Home(h.calls[id], key);
            && key in h.windows && home < |h.windows[key]|
            && id in h.windows[key][home].charged
            && (!ReturnedOn(h, id, key) ==> id in h.windows[key][home].Net())
            && h.windows[key][home].end - window <= Seconds(h.calls[id].stamp) < h.windows[key][home].end
  {
    assert ChargesRecorded(h, id) && ChargedAfterOpening(h, id, window);
  }

  /** Charges of one interval lie in the same window or in neighbouring ones. */
  lemma IntervalMeetsTwoWindows(h: History, x: CallId, y: CallId, key: Key, from: int, window: int)
    requires window >= 1 && Sound(h, window)
    requires forall id :: ChargedAfterOpening(h, id, window)
    requires x in Unreturned(h, key, from, window) && y in Unreturned(h, key, from, window)
    ensures Home(h.calls[y], key) <= Home(h.calls[x], key) + 1
  {
    HomeOfCharge(h, x, key, window);
    HomeOfCharge(h, y, key, window);
    var a, b := Home(h.calls[x], key), Home(h.calls[y], key);
    assert WindowsAdvance(h, key, window);
    if a + 1 < |h.windows[key]| {
      assert h.windows[key][a].end + window <= h.windows[key][a + 1].end;
    }
  }

  lemma NetIsLimited(h: History, key: Key, i: nat, window: int, limit: Limits)
    requires Sound(h, window) && Limited(h, limit) && key in h.windows && i < |h.windows[key]|
    ensures |h.windows[key][i].Net()| <= limit(key)
  {
    assert WindowsAdvance(h, key, window) && WindowsLimited(h, key, limit);
    assert Accounted(h.windows[key][i], h.calls);
    DifferenceSize(h.windows[key][i].charged, h.windows[key][i].returned);
  }

  lemma UnreturnedWithin(h: History, key: Key, from: int, window: int, limit: Limits, a: nat)
    requires window >= 1 && Sound(h, window) && Limited(h, limit)
    requires forall id :: ChargedAfterOpening(h, id, window)
    requires key in h.windows && a < |h.windows[key]|
    requires forall y :: y in Unreturned(h, key, from, window) ==> a <= Home(h.calls[y], key) <= a + 1
    ensures |Unreturned(h, key, from, window)| <= 2 * limit(key)
  {
    var all := Unreturned(h, key, from, window);
    var near := h.windows[key][a].Net();
    var far := if a + 1 < |h.windows[key]| then h.windows[key][a + 1].Net() else {};
    forall y | y in all
      ensures y in near + far
    {
      HomeOfCharge(h, y, key, window);
    }
    NetIsLimited(h, key, a, window, limit);
    if a + 1 < |h.windows[key]| {
      NetIsLimited(h, key, a + 1, window, limit);
    }
    SubsetSize(all, near + far);
    UnionSize(near, far);
  }

  /** With stamps in order, any interval of one window length holds at most twice
      the limit of attempts that were charged to a bucket and never given back. */
  lemma BurstIsAtMostTwiceTheLimit(events: seq<Event>, window: int, limit: Limits, key: Key, from: int)
    requires window >= 1 && Possible(START, events, window) && StampsInOrder(events)
    requires forall i :: 0 <= i < |events| ==> FixedLimits(events[i], limit)
    ensures |Unreturned(Run(START, events, window), key, from, window)| <= 2 * limit(key)
  {
    RunIsTimely(START, events, window, None);
    RunKeepsLimited(START, events, window, limit);
    var h := Run(START, events, window);
    var all := Unreturned(h, key, from, window);
    if all != {} {
      var x :| x in all;
      HomeOfCharge(h, x, key, window);
      var a := Home(h.calls[x], key);
      forall y | y in all
        ensures a <= Home(h.calls[y], key) + 1 && Home(h.calls[y], key) <= a + 1
      {
        IntervalMeetsTwoWindows(h, x, y, key, from, window);
        IntervalMeetsTwoWindows(h, y, x, key, from, window);
      }
      if y :| y in all && Home(h.calls[y], key) == a - 1 {
        forall z | z in all
          ensures Home(h.calls[z], key) <= a
        {
          IntervalMeetsTwoWindows(h, y, z, key, from, window);
        }
        UnreturnedWithin(h, key, from, window, limit, a - 1);
      } else {
        UnreturnedWithin(h, key, from, window, limit, a);
      }
    }
  }

  // ---- Nested buckets --------------------------------------------------------------------

  /** Both callers pass two keys: the address, then the address with the identity. */
  ghost predicate Nested(e: Event) {
    e.Consumed? ==> |e.keys| == 2
  }

  ghost predicate CallsNested(h: History) {
    forall id :: id in h.calls ==> |h.calls[id].keys| == 2
  }

  lemma {:induction false} RunIsNested(h: History, events: seq<Event>, window: int)
    requires Possible(h, events, window) && CallsNested(h)
    requires forall i :: 0 <= i < |events| ==> Nested(events[i])
    ensures CallsNested(Run(h, events, window))
    decreases |events|
  {
    if events != [] {
      assert Nested(events[0]);
      RunIsNested(Apply(h, events[0], window), events[1..], window);
    }
  }

  /** The inner buckets reached by calls that window `i` of the outer bucket
      charged. A call the outer bucket turned away reaches none. */
  ghost function InnerBuckets(h: History, outer: Key, i: nat): set<Key> {
    set id | id in h.calls && |h.calls[id].keys| == 2 && h.calls[id].keys[0] == outer
             && h.calls[id].homes != [] && h.calls[id].homes[0] == i :: h.calls[id].keys[1]
  }

  ghost function InnerKey(h: History, id: CallId): Key {
    if id in h.calls && |h.calls[id].keys| == 2 then h.calls[id].keys[1] else ""
  }

  ghost function InnerKeys(h: History, ids: set<CallId>): set<Key> {
    set id | id in ids :: InnerKey(h, id)
  }

  lemma {:induction false} InnerKeysSize(h: History, ids: set<CallId>)
    ensures |InnerKeys(h, ids)| <= |ids|
  {
    if ids == {} {
      assert InnerKeys(h, ids) == {};
    } else {
      var y :| y in ids;
      InnerKeysSize(h, ids - {y});
      SubsetSize(InnerKeys(h, ids), InnerKeys(h, ids - {y}) + {InnerKey(h, y)});
    }
  }

  lemma InnerBucketsOfWindow(h: History, outer: Key, i: nat)
    requires Recorded(h) && outer in h.windows && i < |h.windows[outer]|
    ensures |InnerBuckets(h, outer, i)| <= |h.windows[outer][i].charged|
  {
    var home := h.windows[outer][i];
    var reached := InnerKeys(h, home.charged);
    forall key | key in InnerBuckets(h, outer, i)
      ensures key in reached
    {
      var id :| id in h.calls && |h.calls[id].keys| == 2 && h.calls[id].keys[0] == outer
                && h.calls[id].homes != [] && h.calls[id].homes[0] == i && h.calls[id].keys[1] == key;
      assert ChargesRecorded(h, id);
      assert InnerKey(h, id) == key;
    }
    InnerKeysSize(h, home.charged);
    SubsetSize(InnerBuckets(h, outer, i), reached);
  }

  /** Within one window of the outer bucket, the inner buckets ever reached are at
      most the outer limit and the attempts given back to that window, whatever the
      stamps and maintenance passes. */
  lemma InnerBucketsAreChargedFor(events: seq<Event>, window: int, limit: Limits, outer: Key, i: nat)
    requires window >= 1 && Possible(START, events, window)
    requires forall j :: 0 <= j < |events| ==> FixedLimits(events[j], limit) && Nested(events[j])
    requires var h := Run(START, events, window);
             outer in h.windows && i < |h.windows[outer]|
    ensures var h := Run(START, events, window);
            && CallsNested(h)
            && |InnerBuckets(h, outer, i)| <= limit(outer) + |h.windows[outer][i].returned|
  {
    RunKeepsLimited(START, events, window, limit);
    RunIsNested(START, events, window);
    var h := Run(START, events, window);
    assert WindowsLimited(h, outer, limit);
    InnerBucketsOfWindow(h, outer, i);
  }
}
