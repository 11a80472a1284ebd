// Which releases reach the window that charged them, over every run: with stamps
// in any order, and with maintenance passes at any time.

module RateReleases {

  import opened RateLimits
  import opened RateLedger
  import opened RateRuns
  import opened SetFacts
  import opened Wrappers

  // ---- What the ledger records on every run ------------------------------------------

  /** A window lists only calls at home in it, and gave back only to released ones. */
  predicate EntryRecorded(calls: map<CallId, Call>, key: Key, j: nat, w: Window, id: CallId) {
    && (id in w.charged ==> id in calls && calls[id].HomeAt(key, j))
    && (id in w.returned ==> id in calls && calls[id].released)
  }

  ghost predicate EntriesRecorded(h: History, key: Key) {
    key in h.windows ==>
      forall j, id :: 0 <= j < |h.windows[key]| ==> EntryRecorded(h.calls, key, j, h.windows[key][j], id)
  }

  /** What holds whatever the stamps: the table shows the last window of each bucket,
      and the charges on record are those that were made. */
  ghost predicate Recorded(h: History) {
    && (forall key :: WindowKnown(h, key))
    && (forall key :: EntriesRecorded(h, key))
    && (forall id :: ChargesRecorded(h, id))
  }

  lemma NewCallHasHomes(h: History, c: Consumption, id: CallId, keys: seq<Key>, stamp: int, key: Key)
    requires c.charged <= |keys| && key in keys[..c.charged]
    requires var h' := Book(h, c, id, keys, stamp); key in h'.windows && h'.windows[key] != []
    ensures var h' := Book(h, c, id, keys, stamp); h'.calls[id].HomeAt(key, |h'.windows[key]| - 1)
  {
    var call := Book(h, c, id, keys, stamp).calls[id];
    var i :| 0 <= i < c.charged && keys[..c.charged][i] == key;
    assert call.keys[i] == key;
  }

  lemma BookKeepsRecorded(h: History, c: Consumption, id: CallId, keys: seq<Key>, stamp: int, window: int, key: Key)
    requires WindowKnown(h, key) && EntriesRecorded(h, key)
    requires id !in h.calls && c.charged <= |keys|
    requires BucketStep(h.rows, c, key, key in keys[..c.charged], Seconds(stamp), window)
    ensures WindowKnown(Book(h, c, id, keys, stamp), key)
    ensures EntriesRecorded(Book(h, c, id, keys, stamp), key)
  {
    var h' := Book(h, c, id, keys, stamp);
    var known := if key in h.windows then h.windows[key] else [];
    if key in h'.windows {
      var now := h'.windows[key];
      if key in keys[..c.charged] && now != [] {
        NewCallHasHomes(h, c, id, keys, stamp, key);
      }
      forall j, other | 0 <= j < |now|
        ensures EntryRecorded(h'.calls, key, j, now[j], other)
      {
        assert j < |known| ==> EntryRecorded(h.calls, key, j, known[j], other);
      }
    }
  }

  lemma ConsumeKeepsRecorded(h: History, id: CallId, keys: seq<Key>, limits: seq<int>, stamp: int, window: int)
    requires window >= 1 && Recorded(h) && Enabled(h, Consumed(id, keys, limits, stamp))
    ensures Recorded(Apply(h, Consumed(id, keys, limits, stamp), window))
  {
    var c := Charge(h.rows, keys, limits, window, Seconds(stamp));
    ChargedAtMostAll(h.rows, keys, limits, window, Seconds(stamp));
    var h' := Book(h, c, id, keys, stamp);
    forall key
      ensures BucketStep(h.rows, c, key, key in keys[..c.charged], Seconds(stamp), window)
      ensures WindowKnown(h', key) && EntriesRecorded(h', key)
    {
      ConsumeAtKey(h.rows, keys, limits, Seconds(stamp), window, key);
      assert WindowKnown(h, key) && EntriesRecorded(h, key);
      BookKeepsRecorded(h, c, id, keys, stamp, window, key);
    }
    BookExtends(h, c, id, keys, stamp);
    BookRecordsNewCall(h, c, id, keys, stamp, window);
    forall other
      ensures ChargesRecorded(h', other)
    {
      if other != id {
        assert ChargesRecorded(h, other);
        RecordSurvives(h, h', other);
      }
    }
  }

  lemma ReleaseKeepsRecorded(h: History, id: CallId, window: int)
    requires Recorded(h) && Enabled(h, Released(id))
    ensures Recorded(ReleaseCall(h, id, window))
  {
    var h' := ReleaseCall(h, id, window);
    var call := h.calls[id];
    assert ChargesRecorded(h, id);
    ReleaseIsExact(h.rows, call.keys, call.stamp, window);
    forall key
      ensures WindowKnown(h', key) && EntriesRecorded(h', key)
    {
      assert WindowKnown(h, key) && EntriesRecorded(h, key);
      if key in h.windows {
        forall j, other | 0 <= j < |h'.windows[key]|
          ensures EntryRecorded(h'.calls, key, j, h'.windows[key][j], other)
        {
          assert EntryRecorded(h.calls, key, j, h.windows[key][j], other);
        }
      }
    }
    forall other
      ensures ChargesRecorded(h', other)
    {
      assert ChargesRecorded(h, other);
      assert LedgerExtends(h, h');
      RecordSurvives(h, h', other);
    }
  }

  lemma EventKeepsRecorded(h: History, e: Event, window: int)
    requires window >= 1 && Recorded(h) && Enabled(h, e)
    ensures Recorded(Apply(h, e, window))
  {
    match e
    case Consumed(id, keys, limits, stamp) => ConsumeKeepsRecorded(h, id, keys, limits, stamp, window);
    case Released(id) => ReleaseKeepsRecorded(h, id, window);
    case Purged(now) =>
      var h' := Apply(h, e, window);
      forall key ensures WindowKnown(h', key) && EntriesRecorded(h', key) {
        assert WindowKnown(h, key) && EntriesRecorded(h, key);
      }
      forall id ensures ChargesRecorded(h', id) { assert ChargesRecorded(h, id); }
  }

  // ---- A release that reaches only its own windows --------------------------------------

  /** If the release of this call ran now, each bucket it decremented would be in the
      window that charged the call, and still owe it that attempt. */
  ghost predicate ReleaseHome(h: History, id: CallId, window: int) {
    Enabled(h, Released(id)) ==>
      forall i :: 0 <= i < |h.calls[id].keys| ==>
        var key := h.calls[id].keys[i];
        key in h.rows && GivesBack(h.rows[key], h.calls[id].stamp, window) ==>
          && key in h.windows && h.calls[id].homes[i] == |h.windows[key]| - 1
          && id in Last(h.windows[key]).Net()
  }

  ghost predicate EveryReleaseHome(h: History, window: int) {
    forall id :: ReleaseHome(h, id, window)
  }

  /** The call opens a window of a bucket at a second no later than the stamp of a
      permitted call on that bucket that has not been released yet. */
  ghost predicate OpensOverOwed(h: History, e: Event, window: int, key: Key, id: CallId)
    requires Enabled(h, e)
  {
    && e.Consumed? && Enabled(h, Released(id)) && key in h.calls[id].keys
    && Opens(h.rows, Charge(h.rows, e.keys, e.limits, window, Seconds(e.stamp)).rows, key)
    && Seconds(e.stamp) <= Seconds(h.calls[id].stamp)
  }

  ghost predicate NothingOpensOverOwed(h: History, e: Event, window: int)
    requires Enabled(h, e)
  {
    forall key, id :: !OpensOverOwed(h, e, window, key, id)
  }

  /** Which owed calls a newly opened window lets in: it charged none of them, and the
      release of each passes the guard exactly when the opening stamp is no later. */
  lemma OpenedWindowIsHitIff(h: History, e: Event, window: int, key: Key, id: CallId)
    requires window >= 1 && Enabled(h, e) && e.Consumed? && id in h.calls
    requires Opens(h.rows, Charge(h.rows, e.keys, e.limits, window, Seconds(e.stamp)).rows, key)
    ensures var h' := Apply(h, e, window);
            && key in h'.rows && key in h'.windows && h'.windows[key] != []
            && id !in Last(h'.windows[key]).charged
            && (GivesBack(h'.rows[key], h.calls[id].stamp, window) <==> Seconds(e.stamp) <= Seconds(h.calls[id].stamp))
  {
    ConsumeAtKey(h.rows, e.keys, e.limits, Seconds(e.stamp), window, key);
    GuardComparesWholeSeconds(Apply(h, e, window).rows[key], h.calls[id].stamp, window);
  }

  lemma NewCallIsHome(h: History, e: Event, window: int)
    requires window >= 1 && Recorded(h) && Enabled(h, e) && e.Consumed?
    ensures ReleaseHome(Apply(h, e, window), e.id, window)
  {
    var h' := Apply(h, e, window);
    EventKeepsRecorded(h, e, window);
    assert ChargesRecorded(h', e.id);
    var c := Charge(h.rows, e.keys, e.limits, window, Seconds(e.stamp));
    ChargedAtMostAll(h.rows, e.keys, e.limits, window, Seconds(e.stamp));
    if h'.calls[e.id].Permitted() {
      assert e.keys[..c.charged] == e.keys;
      forall i | 0 <= i < |e.keys|
        ensures e.keys[i] in h'.windows && h'.calls[e.id].homes[i] == |h'.windows[e.keys[i]]| - 1
        ensures e.id in Last(h'.windows[e.keys[i]]).Net()
      {
        NewEntryIsOwed(h, e, window, e.keys[i]);
      }
    }
  }

  lemma NewEntryIsOwed(h: History, e: Event, window: int, key: Key)
    requires window >= 1 && Recorded(h) && Enabled(h, e) && e.Consumed?
    requires var charged := Charge(h.rows, e.keys, e.limits, window, Seconds(e.stamp)).charged;
             charged <= |e.keys| && key in e.keys[..charged]
    ensures var h' := Apply(h, e, window);
            key in h'.windows && h'.windows[key] != [] && e.id in Last(h'.windows[key]).Net()
  {
    var c := Charge(h.rows, e.keys, e.limits, window, Seconds(e.stamp));
    ConsumeAtKey(h.rows, e.keys, e.limits, Seconds(e.stamp), window, key);
    assert WindowKnown(h, key) && EntriesRecorded(h, key);
    if !Opens(h.rows, c.rows, key) {
      assert EntryRecorded(h.calls, key, |h.windows[key]| - 1, Last(h.windows[key]), e.id);
    }
  }

  lemma EarlierCallStaysHome(h: History, e: Event, window: int, id: CallId)
    requires window >= 1 && Recorded(h) && Enabled(h, e) && e.Consumed? && id != e.id
    requires ReleaseHome(h, id, window) && NothingOpensOverOwed(h, e, window)
    ensures ReleaseHome(Apply(h, e, window), id, window)
  {
    var h' := Apply(h, e, window);
    if Enabled(h', Released(id)) {
      var call := h.calls[id];
      var c := Charge(h.rows, e.keys, e.limits, window, Seconds(e.stamp));
      forall i | 0 <= i < |call.keys| && call.keys[i] in h'.rows && GivesBack(h'.rows[call.keys[i]], call.stamp, window)
        ensures call.keys[i] in h'.windows && call.homes[i] == |h'.windows[call.keys[i]]| - 1
        ensures id in Last(h'.windows[call.keys[i]]).Net()
      {
        var key := call.keys[i];
        ConsumeAtKey(h.rows, e.keys, e.limits, Seconds(e.stamp), window, key);
        assert WindowKnown(h, key);
        assert !OpensOverOwed(h, e, window, key, id);
        GuardComparesWholeSeconds(h'.rows[key], call.stamp, window);
      }
    }
  }

  /** Conversely, the owed call would then find the new window, which it is not in. */
  lemma OpeningOverOwedMissesHome(h: History, e: Event, window: int, key: Key, id: CallId)
    requires window >= 1 && Recorded(h) && Enabled(h, e) && OpensOverOwed(h, e, window, key, id)
    ensures !ReleaseHome(Apply(h, e, window), id, window)
  {
    OpenedWindowIsHitIff(h, e, window, key, id);
    assert ChargesRecorded(h, id);
    var i :| 0 <= i < |h.calls[id].keys| && h.calls[id].keys[i] == key;
    var h' := Apply(h, e, window);
    assert h'.calls[id] == h.calls[id] && h'.calls[id].keys[i] == key;
    assert id !in Last(h'.windows[key]).Net();
  }

  lemma OthersStayHome(h: History, e: Event, window: int, id: CallId)
    requires window >= 1 && Recorded(h) && Enabled(h, e) && !e.Consumed? && ReleaseHome(h, id, window)
    ensures ReleaseHome(Apply(h, e, window), id, window)
  {
    if e.Released? {
      assert ChargesRecorded(h, e.id);
      ReleaseIsExact(h.rows, h.calls[e.id].keys, h.calls[e.id].stamp, window);
    }
  }

  /** A transaction keeps every release at home exactly when it opens no window over
      an attempt still owed. */
  lemma EventKeepsReleasesHomeIff(h: History, e: Event, window: int)
    requires window >= 1 && Recorded(h) && Enabled(h, e) && EveryReleaseHome(h, window)
    ensures EveryReleaseHome(Apply(h, e, window), window) <==> NothingOpensOverOwed(h, e, window)
  {
    if key, id :| OpensOverOwed(h, e, window, key, id) {
      OpeningOverOwedMissesHome(h, e, window, key, id);
    } else {
      forall id
        ensures ReleaseHome(Apply(h, e, window), id, window)
      {
        assert ReleaseHome(h, id, window);
        if !e.Consumed? {
          OthersStayHome(h, e, window, id);
        } else if id == e.id {
          NewCallIsHome(h, e, window);
        } else {
          EarlierCallStaysHome(h, e, window, id);
        }
      }
    }
  }

  // ---- The account -----------------------------------------------------------------------

  /** Each bucket's `attempts` is what its current window was charged less what was
      given back to it, and only those charged there were given back. */
  ghost predicate AccountHolds(h: History) {
    forall key :: TableMatches(h, key)
  }

  lemma ConsumeKeepsAccount(h: History, e: Event, window: int)
    requires window >= 1 && Recorded(h) && Enabled(h, e) && e.Consumed? && AccountHolds(h)
    ensures AccountHolds(Apply(h, e, window))
  {
    forall key
      ensures TableMatches(Apply(h, e, window), key)
    {
      ConsumeAtKey(h.rows, e.keys, e.limits, Seconds(e.stamp), window, key);
      assert TableMatches(h, key) && EntriesRecorded(h, key);
      if key in h.windows && h.windows[key] != [] {
        assert EntryRecorded(h.calls, key, |h.windows[key]| - 1, Last(h.windows[key]), e.id);
      }
    }
  }

  lemma HomeReleaseKeepsKey(h: History, id: CallId, window: int, key: Key)
    requires Recorded(h) && Enabled(h, Released(id)) && TableMatches(h, key) && ReleaseHome(h, id, window)
    ensures TableMatches(ReleaseCall(h, id, window), key)
  {
    var call := h.calls[id];
    assert ChargesRecorded(h, id);
    ReleaseIsExact(h.rows, call.keys, call.stamp, window);
    if key in h.rows && key in call.keys && GivesBack(h.rows[key], call.stamp, window) {
      var i :| 0 <= i < |call.keys| && call.keys[i] == key;
      var now := Last(h.windows[key]);
      assert id in now.Net();
      DifferenceSize(now.charged, now.returned);
      SubsetSize({id}, now.charged - now.returned);
    }
  }

  lemma MissedKeyBreaksAccount(h: History, id: CallId, window: int, i: nat)
    requires Recorded(h) && Enabled(h, Released(id)) && i < |h.calls[id].keys|
    requires var key := h.calls[id].keys[i];
             && TableMatches(h, key) && key in h.rows && GivesBack(h.rows[key], h.calls[id].stamp, window)
             && (h.calls[id].homes[i] != |h.windows[key]| - 1 || id !in Last(h.windows[key]).Net())
    ensures !TableMatches(ReleaseCall(h, id, window), h.calls[id].keys[i])
  {
    var call := h.calls[id];
    var key := call.keys[i];
    assert ChargesRecorded(h, id) && EntriesRecorded(h, key);
    var last := |h.windows[key]| - 1;
    assert EntryRecorded(h.calls, key, last, h.windows[key][last], id);
    ReleaseIsExact(h.rows, call.keys, call.stamp, window);
    var now := Last(ReleaseCall(h, id, window).windows[key]);
    assert id in now.returned && id !in now.charged;
  }

  /** A release that misses its window leaves a window that gave back what it never charged. */
  lemma MissingReleaseBreaksAccount(h: History, id: CallId, window: int)
    requires Recorded(h) && AccountHolds(h) && !ReleaseHome(h, id, window) && Enabled(h, Released(id))
    ensures !AccountHolds(ReleaseCall(h, id, window))
  {
    var call := h.calls[id];
    assert forall key :: key in h.rows ==> TableMatches(h, key);
    var i :| 0 <= i < |call.keys| && call.keys[i] in h.rows && GivesBack(h.rows[call.keys[i]], call.stamp, window)
             && (call.homes[i] != |h.windows[call.keys[i]]| - 1 || id !in Last(h.windows[call.keys[i]]).Net());
    MissedKeyBreaksAccount(h, id, window, i);
  }

  /** A release keeps the account exactly when it reaches only its own windows. */
  lemma ReleaseKeepsAccountIff(h: History, id: CallId, window: int)
    requires Recorded(h) && AccountHolds(h) && Enabled(h, Released(id))
    ensures AccountHolds(ReleaseCall(h, id, window)) <==> ReleaseHome(h, id, window)
  {
    if ReleaseHome(h, id, window) {
      forall key
        ensures TableMatches(ReleaseCall(h, id, window), key)
      {
        assert TableMatches(h, key);
        HomeReleaseKeepsKey(h, id, window, key);
      }
    } else {
      MissingReleaseBreaksAccount(h, id, window);
    }
  }

  // ---- Every run -----------------------------------------------------------------------------

  /** The account holds, and whichever call is released next, it will still hold. */
  ghost predicate AccountSafe(h: History, window: int) {
    && AccountHolds(h)
    && forall id :: Enabled(h, Released(id)) ==> AccountHolds(ReleaseCall(h, id, window))
  }

  lemma AccountSafeIffReleasesHome(h: History, window: int)
    requires Recorded(h) && AccountHolds(h)
    ensures AccountSafe(h, window) <==> EveryReleaseHome(h, window)
  {
    forall id
      ensures Enabled(h, Released(id)) ==>
                (AccountHolds(ReleaseCall(h, id, window)) <==> ReleaseHome(h, id, window))
    {
      if Enabled(h, Released(id)) {
        ReleaseKeepsAccountIff(h, id, window);
      }
    }
  }

  /** One transaction from a state with a safe account: the exact condition. */
  lemma EventKeepsAccountSafeIff(h: History, e: Event, window: int)
    requires window >= 1 && Recorded(h) && Enabled(h, e) && AccountSafe(h, window)
    ensures AccountSafe(Apply(h, e, window), window) <==> NothingOpensOverOwed(h, e, window)
  {
    AccountSafeIffReleasesHome(h, window);
    EventKeepsReleasesHomeIff(h, e, window);
    EventKeepsRecorded(h, e, window);
    if e.Consumed? {
      ConsumeKeepsAccount(h, e, window);
    } else if e.Purged? {
      forall key ensures TableMatches(Apply(h, e, window), key) { assert TableMatches(h, key); }
    }
    AccountSafeIffReleasesHome(Apply(h, e, window), window);
  }

  /** In every state of the run the account is safe. */
  ghost predicate AccountSafeThroughout(h: History, events: seq<Event>, window: int)
    requires Possible(h, events, window)
    decreases |events|
  {
    && AccountSafe(h, window)
    && (events != [] ==> AccountSafeThroughout(Apply(h, events[0], window), events[1..], window))
  }

  /** In every state of the run each release would reach only its own windows. */
  ghost predicate ReleasesHomeThroughout(h: History, events: seq<Event>, window: int)
    requires Possible(h, events, window)
    decreases |events|
  {
    && EveryReleaseHome(h, window)
    && (events != [] ==> ReleasesHomeThroughout(Apply(h, events[0], window), events[1..], window))
  }

  /** No call of the run opens a window over an attempt still owed. */
  ghost predicate NeverOpensOverOwed(h: History, events: seq<Event>, window: int)
    requires Possible(h, events, window)
    decreases |events|
  {
    events != [] ==>
      && NothingOpensOverOwed(h, events[0], window)
      && NeverOpensOverOwed(Apply(h, events[0], window), events[1..], window)
  }

  lemma {:induction false} RunKeepsReleasesHomeIff(h: History, events: seq<Event>, window: int)
    requires window >= 1 && Recorded(h) && EveryReleaseHome(h, window) && Possible(h, events, window)
    ensures ReleasesHomeThroughout(h, events, window) <==> NeverOpensOverOwed(h, events, window)
    decreases |events|
  {
    if events != [] {
      var next := Apply(h, events[0], window);
      EventKeepsReleasesHomeIff(h, events[0], window);
      EventKeepsRecorded(h, events[0], window);
      if NothingOpensOverOwed(h, events[0], window) {
        RunKeepsReleasesHomeIff(next, events[1..], window);
      } else {
        assert !ReleasesHomeThroughout(next, events[1..], window);
      }
    }
  }

  lemma {:induction false} RunKeepsAccountSafeIff(h: History, events: seq<Event>, window: int)
    requires window >= 1 && Recorded(h) && AccountSafe(h, window) && Possible(h, events, window)
    ensures AccountSafeThroughout(h, events, window) <==> NeverOpensOverOwed(h, events, window)
    decreases |events|
  {
    if events != [] {
      var next := Apply(h, events[0], window);
      EventKeepsAccountSafeIff(h, events[0], window);
      EventKeepsRecorded(h, events[0], window);
      if NothingOpensOverOwed(h, events[0], window) {
        RunKeepsAccountSafeIff(next, events[1..], window);
      } else {
        assert !AccountSafeThroughout(next, events[1..], window);
      }
    }
  }

  /** In every run, each release, whenever it comes, reaches only windows that charged
      its call and still owe it, exactly when no call opens a window of a bucket at a
      second no later than the stamp of a permitted call on it not yet released. */
  lemma ReleasesReachHomeIff(events: seq<Event>, window: int)
    requires window >= 1 && Possible(START, events, window)
    ensures ReleasesHomeThroughout(START, events, window) <==> NeverOpensOverOwed(START, events, window)
  {
    RunKeepsReleasesHomeIff(START, events, window);
  }

  /** The account itself: in every state of a run it holds and survives whichever
      release comes next, on the same exact condition. */
  lemma AccountIsSafeIff(events: seq<Event>, window: int)
    requires window >= 1 && Possible(START, events, window)
    ensures AccountSafeThroughout(START, events, window) <==> NeverOpensOverOwed(START, events, window)
  {
    RunKeepsAccountSafeIff(START, events, window);
  }

  lemma {:induction false} SafeAtTheEnd(h: History, events: seq<Event>, window: int)
    requires window >= 1 && Recorded(h) && AccountSafe(h, window)
    requires Possible(h, events, window) && NeverOpensOverOwed(h, events, window)
    ensures Recorded(Run(h, events, window)) && AccountSafe(Run(h, events, window), window)
    decreases |events|
  {
    if events != [] {
      EventKeepsAccountSafeIff(h, events[0], window);
      EventKeepsRecorded(h, events[0], window);
      SafeAtTheEnd(Apply(h, events[0], window), events[1..], window);
    }
  }

  /** A bucket's `attempts` is what its current window was charged less what was
      given back to that window, and only those charged there were given back. */
  lemma AttemptsAreChargesLessReleases(events: seq<Event>, window: int, key: Key)
    requires window >= 1 && Possible(START, events, window) && NeverOpensOverOwed(START, events, window)
    ensures var h := Run(START, events, window);
            key in h.rows ==>
              && key in h.windows && h.windows[key] != []
              && var now := Last(h.windows[key]);
                 && now.end == h.rows[key].expires
                 && now.returned <= now.charged
                 && h.rows[key].attempts == |now.charged| - |now.returned|
                 && h.rows[key].attempts >= 0
  {
    SafeAtTheEnd(START, events, window);
    var h := Run(START, events, window);
    assert TableMatches(h, key);
    if key in h.rows {
      SubsetSize(Last(h.windows[key]).returned, Last(h.windows[key]).charged);
    }
  }

  /** However late a release runs, the bucket it decrements is still in the window
      that charged it, still owes it, and loses exactly one attempt. */
  lemma LateReleaseHitsOnlyItsOwnWindow(events: seq<Event>, window: int, id: CallId, i: nat)
    requires window >= 1 && Possible(START, events, window) && NeverOpensOverOwed(START, events, window)
    requires Enabled(Run(START, events, window), Released(id))
    requires i < |Run(START, events, window).calls[id].keys|
    ensures var h := Run(START, events, window);
            var key := h.calls[id].keys[i];
            key in h.rows && GivesBack(h.rows[key], h.calls[id].stamp, window) ==>
              && key in h.windows
              && h.calls[id].homes[i] == |h.windows[key]| - 1
              && id in Last(h.windows[key]).Net()
              && GiveBack(h.rows, key, h.calls[id].stamp, window)[key].attempts == h.rows[key].attempts - 1
  {
    SafeAtTheEnd(START, events, window);
    var h := Run(START, events, window);
    AccountSafeIffReleasesHome(h, window);
    var key := h.calls[id].keys[i];
    assert ReleaseHome(h, id, window);
    if key in h.rows && GivesBack(h.rows[key], h.calls[id].stamp, window) {
      assert TableMatches(h, key);
      DifferenceSize(Last(h.windows[key]).charged, Last(h.windows[key]).returned);
      SubsetSize({id}, Last(h.windows[key]).Net());
    }
  }

  // ---- Conditions that are enough -------------------------------------------------------------

  lemma SoundReleasesHome(h: History, window: int)
    requires window >= 1 && Sound(h, window)
    ensures EveryReleaseHome(h, window)
  {
    forall id
      ensures ReleaseHome(h, id, window)
    {
      if Enabled(h, Released(id)) {
        assert ChargesRecorded(h, id);
        forall i | 0 <= i < |h.calls[id].keys|
          ensures var key := h.calls[id].keys[i];
                  key in h.rows && GivesBack(h.rows[key], h.calls[id].stamp, window) ==>
                    && key in h.windows && h.calls[id].homes[i] == |h.windows[key]| - 1
                    && id in Last(h.windows[key]).Net()
        {
          ReleaseFindsItsOwnWindow(h, id, i, window);
        }
      }
    }
  }

  lemma {:induction false} ApartRunsNeverOpenOverOwed(h: History, events: seq<Event>, window: int)
    requires window >= 1 && Recorded(h) && Sound(h, window) && Possible(h, events, window)
    requires NothingRevivedEarly(h, events, window)
    ensures NeverOpensOverOwed(h, events, window)
    decreases |events|
  {
    SoundReleasesHome(h, window);
    if events != [] {
      var next := Apply(h, events[0], window);
      EventKeepsSound(h, events[0], window);
      EventKeepsRecorded(h, events[0], window);
      SoundReleasesHome(next, window);
      EventKeepsReleasesHomeIff(h, events[0], window);
      ApartRunsNeverOpenOverOwed(next, events[1..], window);
    }
  }

  /** It is enough that no deleted bucket is brought back before its last window was
      over; so it is enough that calls run after a maintenance pass are stamped no
      earlier than the pass. Without maintenance the stamps may come in any order. */
  lemma PurgesInOrderKeepReleasesHome(events: seq<Event>, window: int)
    requires window >= 1 && Possible(START, events, window)
    requires PurgesInOrder(events) || NothingRevivedEarly(START, events, window)
    ensures NeverOpensOverOwed(START, events, window)
  {
    if PurgesInOrder(events) {
      PurgesInOrderReviveNothing(events, window);
    }
    ApartRunsNeverOpenOverOwed(START, events, window);
  }
}
