// Theorems about every run of the rate limiter: charge, release and purge
// transactions in any number, over any keys and stamps.

module RateRuns {

  import opened RateLimits
  import opened RateLedger
  import opened SetFacts
  import opened Wrappers

  ghost predicate Possible(h: History, events: seq<Event>, window: int)
    decreases |events|
  {
    events != [] ==> Enabled(h, events[0]) && Possible(Apply(h, events[0], window), events[1..], window)
  }

  ghost function Run(h: History, events: seq<Event>, window: int): History
    requires Possible(h, events, window)
    decreases |events|
  {
    if events == [] then h else Run(Apply(h, events[0], window), events[1..], window)
  }

  /** A call that follows a maintenance pass carries a stamp no older than the pass. */
  ghost predicate PurgesInOrder(events: seq<Event>) {
    forall i, j :: 0 <= i < j < |events| && events[i].Purged? && events[j].Consumed? ==>
      Seconds(events[i].now) <= Seconds(events[j].stamp)
  }

  ghost predicate NotBefore(clock: Option<int>, events: seq<Event>) {
    forall i :: 0 <= i < |events| && events[i].Consumed? && clock.Some? ==>
      clock.value <= Seconds(events[i].stamp)
  }

  /** Buckets that maintenance deleted had ended by `clock`. */
  ghost predicate Swept(h: History, clock: Option<int>) {
    forall key :: key in h.windows && key !in h.rows && h.windows[key] != [] ==>
      clock.Some? && Last(h.windows[key]).end <= clock.value
  }

  function Later(clock: Option<int>, second: int): Option<int> {
    if clock.Some? && clock.value >= second then clock else Some(second)
  }

  lemma StepKeepsSwept(h: History, e: Event, window: int, clock: Option<int>)
    requires window >= 1 && Sound(h, window) && Enabled(h, e) && Swept(h, clock)
    ensures e.Purged? ==> Swept(Apply(h, e, window), Later(clock, Seconds(e.now)))
    ensures !e.Purged? ==> Swept(Apply(h, e, window), clock)
  {
    var h' := Apply(h, e, window);
    forall key | key in h'.windows && key !in h'.rows && h'.windows[key] != []
      ensures key !in h.rows ==> key in h.windows && h'.windows[key] == h.windows[key]
      ensures key in h.rows ==> e.Purged? && Last(h'.windows[key]).end <= Seconds(e.now)
    {
      assert TableMatches(h, key);
      match e
      case Consumed(id, keys, limits, stamp) =>
        ConsumeAtKey(h.rows, keys, limits, Seconds(stamp), window, key);
      case Released(id) =>
        ReleaseIsExact(h.rows, h.calls[id].keys, h.calls[id].stamp, window) by {
          assert ChargesRecorded(h, id);
        }
      case Purged(now) =>
    }
  }

  // ---- Exactly which runs keep windows apart --------------------------------------------

  /** In every state of the run `attempts` is charges less releases and window ends
      have grown by a window length. */
  ghost predicate SoundThroughout(h: History, events: seq<Event>, window: int)
    requires Possible(h, events, window)
    decreases |events|
  {
    Sound(h, window) && (events != [] ==> SoundThroughout(Apply(h, events[0], window), events[1..], window))
  }

  /** No call of the run brings a deleted bucket back before its last window was over. */
  ghost predicate NothingRevivedEarly(h: History, events: seq<Event>, window: int)
    requires Possible(h, events, window)
    decreases |events|
  {
    events != [] ==>
      NoEarlyRevival(h, events[0], window)
      && NothingRevivedEarly(Apply(h, events[0], window), events[1..], window)
  }

  lemma {:induction false} RunStaysSoundIff(h: History, events: seq<Event>, window: int)
    requires window >= 1 && Sound(h, window) && Possible(h, events, window)
    ensures SoundThroughout(h, events, window) <==> NothingRevivedEarly(h, events, window)
    decreases |events|
  {
    if events != [] {
      EventKeepsSound(h, events[0], window);
      if NoEarlyRevival(h, events[0], window) {
        RunStaysSoundIff(Apply(h, events[0], window), events[1..], window);
      } else if |events| > 1 {
        assert !Sound(Apply(h, events[0], window), window);
      }
    }
  }

  /** Over all runs of an empty table: the account holds and successive windows of a
      bucket are at least a window length apart, in every state of the run, exactly
      when no call brings a deleted bucket back early. */
  lemma WindowsStayApartIffNothingRevivedEarly(events: seq<Event>, window: int)
    requires window >= 1 && Possible(START, events, window)
    ensures SoundThroughout(START, events, window) <==> NothingRevivedEarly(START, events, window)
  {
    RunStaysSoundIff(START, events, window);
  }

  lemma {:induction false} SoundAtTheEnd(h: History, events: seq<Event>, window: int)
    requires Possible(h, events, window) && SoundThroughout(h, events, window)
    ensures Sound(Run(h, events, window), window)
    decreases |events|
  {
    if events != [] {
      SoundAtTheEnd(Apply(h, events[0], window), events[1..], window);
    }
  }

  /** A call after the deletion of its bucket is stamped past the deleted window. */
  lemma NotBeforeRevivesNothing(h: History, e: Event, window: int, clock: Option<int>)
    requires Swept(h, clock) && Enabled(h, e) && (e.Consumed? && clock.Some? ==> clock.value <= Seconds(e.stamp))
    ensures NoEarlyRevival(h, e, window)
  {
  }

  lemma {:induction false} OrderedRunRevivesNothing(h: History, events: seq<Event>, window: int, clock: Option<int>)
    requires window >= 1 && Sound(h, window) && Swept(h, clock)
    requires Possible(h, events, window) && PurgesInOrder(events) && NotBefore(clock, events)
    ensures NothingRevivedEarly(h, events, window)
    decreases |events|
  {
    if events != [] {
      var e, rest := events[0], events[1..];
      assert forall i :: 0 <= i < |rest| ==> rest[i] == events[i + 1];
      NotBeforeRevivesNothing(h, e, window, clock);
      EventKeepsSound(h, e, window);
      StepKeepsSwept(h, e, window, clock);
      OrderedRunRevivesNothing(Apply(h, e, window), rest, window,
                               if e.Purged? then Later(clock, Seconds(e.now)) else clock);
    }
  }

  /** What a caller can see to: calls run after a maintenance pass are stamped no
      earlier than the pass. Without maintenance the stamps may come in any order. */
  lemma PurgesInOrderReviveNothing(events: seq<Event>, window: int)
    requires window >= 1 && Possible(START, events, window) && PurgesInOrder(events)
    ensures NothingRevivedEarly(START, events, window)
  {
    OrderedRunRevivesNothing(START, events, window, None);
  }

  /** A call whose first key is a full bucket, before that bucket's window is over. */
  ghost predicate Blocked(rows: Rows, e: Event, outer: Key) {
    && e.Consumed? && e.keys != [] && |e.limits| == |e.keys| && e.keys[0] == outer
    && outer in rows && rows[outer].attempts >= e.limits[0] && Seconds(e.stamp) < rows[outer].expires
  }

  /** Each call that names one of the two buckets is a blocked one of this address;
      nothing is given back to the address, and its bucket is not swept yet. Calls of
      other addresses, their releases and maintenance passes come in between. */
  ghost predicate StaysBlocked(h: History, events: seq<Event>, window: int, outer: Key, inner: Key)
    requires Possible(h, events, window)
    decreases |events|
  {
    events != [] ==>
      && (match events[0]
          case Consumed(_, keys, _, _) =>
            Blocked(h.rows, events[0], outer) || (outer !in keys && inner !in keys)
          case Released(id) => outer !in h.calls[id].keys
          case Purged(now) => outer in h.rows && now < h.rows[outer].expires * MICROS)
      && StaysBlocked(Apply(h, events[0], window), events[1..], window, outer, inner)
  }

  lemma BlockedStep(h: History, e: Event, window: int, outer: Key, inner: Key)
    requires Enabled(h, e) && e.Consumed? && outer in h.rows && inner != outer
    requires Blocked(h.rows, e, outer) || (outer !in e.keys && inner !in e.keys)
    ensures var next := Apply(h, e, window).rows;
            && outer in next && next[outer] == h.rows[outer]
            && (inner in next <==> inner in h.rows) && (inner in h.rows ==> next[inner] == h.rows[inner])
  {
    var c := Charge(h.rows, e.keys, e.limits, window, Seconds(e.stamp));
    if Blocked(h.rows, e, outer) {
      BlockedOuterKeyTouchesNothingElse(h.rows, e.keys, e.limits, window, Seconds(e.stamp), inner);
    } else {
      ChargedAtMostAll(h.rows, e.keys, e.limits, window, Seconds(e.stamp));
      assert forall i :: 0 <= i < |Touched(e.keys, c.charged)| ==> Touched(e.keys, c.charged)[i] == e.keys[i];
      ChargeElsewhere(h.rows, e.keys, e.limits, window, Seconds(e.stamp), outer);
      ChargeElsewhere(h.rows, e.keys, e.limits, window, Seconds(e.stamp), inner);
    }
  }

  /** While an address is blocked, whatever else goes on, its own bucket stays as it
      is and none of its inner buckets is created, charged or given a new window. */
  lemma {:induction false} BlockedAddressChangesNothing(
    h: History, events: seq<Event>, window: int, outer: Key, inner: Key)
    requires Possible(h, events, window) && StaysBlocked(h, events, window, outer, inner)
    requires outer in h.rows && inner != outer && (inner in h.rows ==> h.rows[inner].attempts >= 0)
    requires forall id :: id in h.calls ==> Distinct(h.calls[id].keys)
    ensures var after := Run(h, events, window).rows;
            && outer in after && after[outer] == h.rows[outer]
            && (inner in after ==>
                  && inner in h.rows && after[inner].expires == h.rows[inner].expires
                  && after[inner].attempts <= h.rows[inner].attempts)
    decreases |events|
  {
    if events != [] {
      var e := events[0];
      if e.Consumed? {
        BlockedStep(h, e, window, outer, inner);
      } else if e.Released? {
        ReleaseIsExact(h.rows, h.calls[e.id].keys, h.calls[e.id].stamp, window);
      }
      BlockedAddressChangesNothing(Apply(h, e, window), events[1..], window, outer, inner);
    }
  }

  /** Charging a bucket that is not there: it opens a window of its own. */
  lemma ChargeAbsentBucket(h: History, id: CallId, stamp: int)
    requires h.rows == map[] && h.windows.Keys <= {"ip"}
    ensures Enabled(h, Consumed(id, ["ip"], [5], stamp)) <==> id !in h.calls
    ensures id !in h.calls ==>
              var known := if "ip" in h.windows then h.windows["ip"] else [];
              var end := Seconds(stamp) + 900;
              Apply(h, Consumed(id, ["ip"], [5], stamp), 900) ==
              History(map["ip" := Bucket(1, end)],
                      map["ip" := known + [Window(end, {id}, {})]],
                      h.calls[id := Call(["ip"], stamp, [|known|], false)])
  {
    if id !in h.calls {
      var known := if "ip" in h.windows then h.windows["ip"] else [];
      var end := Seconds(stamp) + 900;
      assert ["ip"][1..] == [] && [5][1..] == [] && ["ip"][..1] == ["ip"];
      var c := Charge(h.rows, ["ip"], [5], 900, Seconds(stamp));
      assert c == Consumption(map["ip" := Bucket(1, end)], 1);
      var h' := Apply(h, Consumed(id, ["ip"], [5], stamp), 900);
      assert h' == Book(h, c, id, ["ip"], stamp);
      assert h'.windows == map["ip" := known + [Window(end, {id}, {})]];
      assert h'.calls[id].homes == [|known|];
    }
  }

  const EARLY: int := 100 * MICROS

  /** A bucket deleted at second 1000 and charged again with a stamp of second 100. */
  const REVIVED := History(
    map["ip" := Bucket(1, 1000)],
    map["ip" := [Window(1000, {0}, {}), Window(1000, {1}, {})]],
    map[0 := Call(["ip"], EARLY, [0], false), 1 := Call(["ip"], EARLY, [1], false)])

  lemma RevivedIsReached()
    ensures var events := [Consumed(0, ["ip"], [5], EARLY), Purged(1000 * MICROS), Consumed(1, ["ip"], [5], EARLY)];
            forall last :: Enabled(REVIVED, last) ==>
              Possible(START, events + [last], 900) && Run(START, events + [last], 900) == Apply(REVIVED, last, 900)
  {
    var e0, e1, e2 := Consumed(0, ["ip"], [5], EARLY), Purged(1000 * MICROS), Consumed(1, ["ip"], [5], EARLY);
    ChargeAbsentBucket(START, 0, EARLY);
    var h1 := Apply(START, e0, 900);
    assert [] + [Window(1000, {0}, {})] == [Window(1000, {0}, {})];
    var h2 := Apply(h1, e1, 900);
    assert h2 == h1.(rows := map[]);
    ChargeAbsentBucket(h2, 1, EARLY);
    assert [Window(1000, {0}, {})] + [Window(1000, {1}, {})] == [Window(1000, {0}, {}), Window(1000, {1}, {})];
    assert Apply(h2, e2, 900) == REVIVED;
    forall last | Enabled(REVIVED, last)
      ensures Possible(START, [e0, e1, e2] + [last], 900)
      ensures Run(START, [e0, e1, e2] + [last], 900) == Apply(REVIVED, last, 900)
    {
      var h4 := Apply(REVIVED, last, 900);
      assert [last][1..] == [] && Possible(h4, [], 900) && Run(h4, [], 900) == h4;
      assert [e2, last][1..] == [last] && [e1, e2, last][1..] == [e2, last];
      assert Possible(REVIVED, [last], 900) && Run(REVIVED, [last], 900) == h4;
      assert Enabled(h2, e2) && Possible(h2, [e2, last], 900) && Run(h2, [e2, last], 900) == h4;
      assert Enabled(h1, e1) && Possible(h1, [e1, e2, last], 900) && Run(h1, [e1, e2, last], 900) == h4;
      assert [e0, e1, e2] + [last] == [e0, e1, e2, last] && [e0, e1, e2, last][1..] == [e1, e2, last];
    }
  }

  /** The order matters once maintenance deletes buckets. A call stamped before
      the pass but run after it recreates the bucket with an end the first call's
      release still matches, and that release erases the second call's attempt. */
  lemma StaleStampAfterPurgeErasesAnAttempt()
    ensures var events := [Consumed(0, ["ip"], [5], EARLY), Purged(1000 * MICROS),
                           Consumed(1, ["ip"], [5], EARLY)] + [Released(0)];
            && Possible(START, events, 900)
            && var h := Run(START, events, 900);
               && h.rows == map["ip" := Bucket(0, 1000)]
               && "ip" in h.windows && |h.windows["ip"]| == 2
               && Last(h.windows["ip"]) == Window(1000, {1}, {0})
               && 1 in h.calls && !h.calls[1].released
  {
    RevivedIsReached();
    assert Enabled(REVIVED, Released(0));
    assert ["ip"][1..] == [] && {} + {0} == {0};
    assert Release(REVIVED.rows, ["ip"], EARLY, 900) == GiveBack(REVIVED.rows, "ip", EARLY, 900);
  }
}
