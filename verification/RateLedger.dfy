// What the rate limiter promises over whole runs.
//
// A ledger beside the table records, bucket by bucket, every window that was
// ever open, who was charged in it, and whose release reached it. The ledger
// is kept from what the table visibly does (a window is new when its end is),
// so the theorems compare the table with an account of its own history.

module RateLedger {

  import opened RateLimits
  import opened SetFacts
  import opened Wrappers

  type CallId = nat

  /** One window of one bucket: who was charged in it and who was given back. */
  datatype Window = Window(end: int, charged: set<CallId>, returned: set<CallId>) {
    /** Attempts of this window that were never given back. */
    function Net(): set<CallId> {
      charged - returned
    }
  }

  /** One authentication attempt: `homes[i]` is the window of `keys[i]` it was charged in. */
  datatype Call = Call(keys: seq<Key>, stamp: int, homes: seq<nat>, released: bool) {
    /** Charged on this bucket, in the window with this number. */
    predicate HomeAt(key: Key, home: nat) {
      |homes| <= |keys| && exists i :: 0 <= i < |homes| && keys[i] == key && homes[i] == home
    }

    predicate ChargedOn(key: Key) {
      |homes| <= |keys| && key in keys[..|homes|]
    }

    /** A call is permitted when every bucket charged it. */
    predicate Permitted() {
      |homes| == |keys|
    }
  }

  datatype Event =
    | Consumed(id: CallId, keys: seq<Key>, limits: seq<int>, stamp: int)
    | Released(id: CallId)
    | Purged(now: int)

  datatype History = History(rows: Rows, windows: map<Key, seq<Window>>, calls: map<CallId, Call>)

  const START := History(map[], map[], map[])

  function Last(windows: seq<Window>): Window
    requires windows != []
  {
    windows[|windows| - 1]
  }

  /** The windows with the current one amended. */
  function Amended(windows: seq<Window>, now: Window): (r: seq<Window>)
    requires windows != []
    ensures |r| == |windows| && Last(r) == now
    ensures forall i :: 0 <= i < |windows| - 1 ==> r[i] == windows[i]
  {
    windows[|windows| - 1 := now]
  }

  // ---- Running the limiter with its ledger -------------------------------------

  /** A window opens when a bucket appears or its end changes. */
  predicate Opens(before: Rows, after: Rows, key: Key) {
    key in after && (key !in before || before[key].expires != after[key].expires)
  }

  function Booked(h: History, after: Rows, key: Key, id: CallId, charged: bool): seq<Window>
    requires key in after || key in h.windows
  {
    var known := if key in h.windows then h.windows[key] else [];
    if Opens(h.rows, after, key) then
      known + [Window(after[key].expires, if charged then {id} else {}, {})]
    else if charged && known != [] then
      Amended(known, Last(known).(charged := Last(known).charged + {id}))
    else
      known
  }

  /** The history after a call that left the table as `c` says. */
  function Book(h: History, c: Consumption, id: CallId, keys: seq<Key>, stamp: int): History
    requires c.charged <= |keys|
  {
    var paid := keys[..c.charged];
    var windows := map key | key in c.rows.Keys + h.windows.Keys :: Booked(h, c.rows, key, id, key in paid);
    var homes := seq(|paid|, i requires 0 <= i < |paid| =>
      if paid[i] in windows && windows[paid[i]] != [] then |windows[paid[i]]| - 1 else 0);
    History(c.rows, windows, h.calls[id := Call(keys, stamp, homes, false)])
  }

  function GivenBack(h: History, id: CallId, key: Key, window: int): seq<Window>
    requires id in h.calls && key in h.windows
  {
    var known := h.windows[key];
    if known != [] && key in h.calls[id].keys && key in h.rows && GivesBack(h.rows[key], h.calls[id].stamp, window)
    then Amended(known, Last(known).(returned := Last(known).returned + {id}))
    else known
  }

  function ReleaseCall(h: History, id: CallId, window: int): History
    requires id in h.calls
  {
    var call := h.calls[id];
    History(Release(h.rows, call.keys, call.stamp, window),
            map key | key in h.windows :: GivenBack(h, id, key, window),
            h.calls[id := call.(released := true)])
  }

  /** What callers keep to: fresh calls over distinct keys, only permitted calls
      released, and each at most once. */
  ghost predicate Enabled(h: History, e: Event) {
    match e
    case Consumed(id, keys, limits, _) => id !in h.calls && |keys| == |limits| && Distinct(keys)
    case Released(id) => id in h.calls && h.calls[id].Permitted() && !h.calls[id].released
    case Purged(_) => true
  }

  /** A call brings back a bucket that maintenance deleted, with a stamp before its old end. */
  ghost predicate RevivesEarly(h: History, e: Event, window: int, key: Key)
    requires Enabled(h, e)
  {
    && e.Consumed?
    && key in Touched(e.keys, Charge(h.rows, e.keys, e.limits, window, Seconds(e.stamp)).charged)
    && key !in h.rows && key in h.windows && h.windows[key] != []
    && Seconds(e.stamp) < Last(h.windows[key]).end
  }

  /** No bucket the call looks at is brought back before its last window was over. */
  ghost predicate NoEarlyRevival(h: History, e: Event, window: int)
    requires Enabled(h, e)
  {
    forall key :: !RevivesEarly(h, e, window, key)
  }

  ghost function Apply(h: History, e: Event, window: int): History
    requires Enabled(h, e)
  {
    match e
    case Consumed(id, keys, limits, stamp) =>
      ChargedAtMostAll(h.rows, keys, limits, window, Seconds(stamp));
      Book(h, Charge(h.rows, keys, limits, window, Seconds(stamp)), id, keys, stamp)
    case Released(id) => ReleaseCall(h, id, window)
    case Purged(now) => h.(rows := Purge(h.rows, now))
  }

  // ---- The ledger agrees with the table ------------------------------------------

  ghost predicate Fits(bucket: Bucket, now: Window) {
    && bucket.expires == now.end
    && now.returned <= now.charged
    && bucket.attempts == |now.charged| - |now.returned|
  }

  ghost predicate TableMatches(h: History, key: Key) {
    key in h.rows ==>
      && key in h.windows && h.windows[key] != []
      && Fits(h.rows[key], Last(h.windows[key]))
  }

  /** A bucket in the table is in the last window the ledger has for it. */
  ghost predicate WindowKnown(h: History, key: Key) {
    key in h.rows ==>
      key in h.windows && h.windows[key] != [] && h.rows[key].expires == Last(h.windows[key]).end
  }

  /** Successive window ends grow by at least one window length. */
  ghost predicate Advancing(windows: seq<Window>, window: int) {
    forall i, j :: 0 <= i < j < |windows| ==> windows[i].end + window <= windows[j].end
  }

  ghost predicate Accounted(w: Window, calls: map<CallId, Call>) {
    && w.returned <= w.charged <= calls.Keys
    && forall id :: id in w.returned && id in calls ==> calls[id].released
  }

  ghost predicate Healthy(windows: seq<Window>, calls: map<CallId, Call>, window: int) {
    && Advancing(windows, window)
    && forall i :: 0 <= i < |windows| ==> Accounted(windows[i], calls)
  }

  ghost predicate WindowsAdvance(h: History, key: Key, window: int) {
    key in h.windows ==> h.windows[key] != [] && Healthy(h.windows[key], h.calls, window)
  }

  /** Each charge is on record in its window, which was still open at its stamp. */
  ghost predicate ChargesRecorded(h: History, id: CallId) {
    id in h.calls ==>
      var call := h.calls[id];
      && Distinct(call.keys)
      && |call.homes| <= |call.keys|
      && forall i :: 0 <= i < |call.homes| ==>
           && call.keys[i] in h.windows
           && call.homes[i] < |h.windows[call.keys[i]]|
           && var home := h.windows[call.keys[i]][call.homes[i]];
              && id in home.charged
              && Seconds(call.stamp) < home.end
  }

  ghost predicate Sound(h: History, window: int) {
    && (forall key :: TableMatches(h, key))
    && (forall key :: WindowsAdvance(h, key, window))
    && (forall id :: ChargesRecorded(h, id))
  }

  /** The central fact: a release that passes the guard finds the very window
      that charged it, still owed that attempt. So `max(0, ...)` never clips
      and nobody else's failure is erased. */
  lemma ReleaseFindsItsOwnWindow(h: History, id: CallId, i: nat, window: int)
    requires window >= 1 && Sound(h, window) && Enabled(h, Released(id))
    requires i < |h.calls[id].keys|
    ensures var key := h.calls[id].keys[i];
            key in h.rows && GivesBack(h.rows[key], h.calls[id].stamp, window) ==>
              && key in h.windows
              && h.calls[id].homes[i] == |h.windows[key]| - 1
              && id in Last(h.windows[key]).Net()
              && h.rows[key].attempts >= 1
  {
    var call := h.calls[id];
    var key := call.keys[i];
    assert ChargesRecorded(h, id);
    if key in h.rows && GivesBack(h.rows[key], call.stamp, window) {
      GuardComparesWholeSeconds(h.rows[key], call.stamp, window);
      assert TableMatches(h, key) && WindowsAdvance(h, key, window);
      var now := Last(h.windows[key]);
      DifferenceSize(now.charged, now.returned);
      SubsetSize({id}, now.charged - now.returned);
    }
  }

  // ---- Every event keeps the agreement ---------------------------------------------

  /** What one consuming call does to one bucket, told from the bucket's side. */
  ghost predicate BucketStep(before: Rows, c: Consumption, key: Key, paid: bool, now: int, window: int) {
    && (key in before || paid ==> key in c.rows)
    && (Opens(before, c.rows, key) ==>
          && c.rows[key] == Bucket(if paid then 1 else 0, now + window)
          && (key in before ==> before[key].expires <= now))
    && (key in before && !Opens(before, c.rows, key) ==>
          && c.rows[key].expires == before[key].expires
          && c.rows[key].attempts == before[key].attempts + (if paid then 1 else 0)
          && (paid ==> now < before[key].expires))
  }

  lemma ConsumeAtKey(rows: Rows, keys: seq<Key>, limits: seq<int>, now: int, window: int, key: Key)
    requires window >= 1 && |keys| == |limits| && Distinct(keys)
    ensures var c := Charge(rows, keys, limits, window, now);
            && c.charged <= |keys|
            && BucketStep(rows, c, key, key in keys[..c.charged], now, window)
            && (Opens(rows, c.rows, key) ==> key in Touched(keys, c.charged))
  {
    var c := Charge(rows, keys, limits, window, now);
    ChargedAtMostAll(rows, keys, limits, window, now);
    if key in Touched(keys, c.charged) {
      var i :| 0 <= i < |Touched(keys, c.charged)| && Touched(keys, c.charged)[i] == key;
      ChargeAtKey(rows, keys, limits, window, now, i);
      if i < c.charged {
        assert keys[..c.charged][i] == key;
      }
    } else {
      ChargeElsewhere(rows, keys, limits, window, now, key);
      assert forall i :: 0 <= i < c.charged ==> keys[..c.charged][i] == Touched(keys, c.charged)[i];
    }
  }

  lemma OpenedWindowIsHealthy(windows: seq<Window>, w: Window, calls: map<CallId, Call>, window: int)
    requires window >= 1 && Healthy(windows, calls, window) && Accounted(w, calls)
    requires windows != [] ==> Last(windows).end + window <= w.end
    ensures Healthy(windows + [w], calls, window)
  {
    var after := windows + [w];
    forall i, j | 0 <= i < j < |after|
      ensures after[i].end + window <= after[j].end
    {
      if j == |windows| && i < |windows| - 1 {
        assert windows[i].end + window <= Last(windows).end;
      }
    }
  }

  lemma AmendedWindowIsHealthy(windows: seq<Window>, w: Window, calls: map<CallId, Call>, window: int)
    requires windows != [] && Healthy(windows, calls, window) && Accounted(w, calls)
    requires w.end == Last(windows).end
    ensures Healthy(Amended(windows, w), calls, window)
  {
  }

  lemma NewCallIsHealthy(windows: seq<Window>, calls: map<CallId, Call>, id: CallId, call: Call, window: int)
    requires Healthy(windows, calls, window)
    requires id in calls ==> call.released
    ensures Healthy(windows, calls[id := call], window)
  {
    var calls' := calls[id := call];
    forall i | 0 <= i < |windows|
      ensures Accounted(windows[i], calls')
    {
      assert Accounted(windows[i], calls);
      assert calls.Keys <= calls'.Keys;
    }
  }

  lemma BookKeepsKey(h: History, c: Consumption, id: CallId, keys: seq<Key>, stamp: int, window: int, key: Key)
    requires window >= 1 && TableMatches(h, key) && WindowsAdvance(h, key, window)
    requires id !in h.calls && c.charged <= |keys|
    requires BucketStep(h.rows, c, key, key in keys[..c.charged], Seconds(stamp), window)
    requires Opens(h.rows, c.rows, key) && key !in h.rows && key in h.windows ==>
               Last(h.windows[key]).end <= Seconds(stamp)
    ensures TableMatches(Book(h, c, id, keys, stamp), key)
    ensures WindowsAdvance(Book(h, c, id, keys, stamp), key, window)
  {
    var h' := Book(h, c, id, keys, stamp);
    var known := if key in h.windows then h.windows[key] else [];
    if key in h'.windows {
      NewCallIsHealthy(known, h.calls, id, h'.calls[id], window);
      if Opens(h.rows, c.rows, key) {
        OpenedWindowIsHealthy(known, Last(h'.windows[key]), h'.calls, window);
      } else if key in keys[..c.charged] {
        assert id !in Last(known).charged;
        AmendedWindowIsHealthy(known, Last(h'.windows[key]), h'.calls, window);
      }
    }
  }

  /** A window keeps its end and only gains entries. */
  ghost predicate Grows(w: Window, w': Window) {
    w.end == w'.end && w.charged <= w'.charged && w.returned <= w'.returned
  }

  ghost predicate Extends(windows: seq<Window>, windows': seq<Window>) {
    && |windows| <= |windows'|
    && forall i :: 0 <= i < |windows| ==> Grows(windows[i], windows'[i])
  }

  ghost predicate LedgerExtends(h: History, h': History) {
    forall key :: key in h.windows ==> key in h'.windows && Extends(h.windows[key], h'.windows[key])
  }

  lemma RecordSurvives(h: History, h': History, id: CallId)
    requires ChargesRecorded(h, id) && LedgerExtends(h, h')
    requires id in h'.calls ==> id in h.calls && h'.calls[id].(released := h.calls[id].released) == h.calls[id]
    ensures ChargesRecorded(h', id)
  {
    if id in h'.calls {
      var call := h'.calls[id];
      forall i | 0 <= i < |call.homes|
        ensures call.keys[i] in h'.windows && call.homes[i] < |h'.windows[call.keys[i]]|
        ensures var home := h'.windows[call.keys[i]][call.homes[i]];
                id in home.charged && Seconds(call.stamp) < home.end
      {
        assert Extends(h.windows[call.keys[i]], h'.windows[call.keys[i]]);
        assert Grows(h.windows[call.keys[i]][call.homes[i]], h'.windows[call.keys[i]][call.homes[i]]);
      }
    }
  }

  lemma BookExtends(h: History, c: Consumption, id: CallId, keys: seq<Key>, stamp: int)
    requires c.charged <= |keys|
    ensures LedgerExtends(h, Book(h, c, id, keys, stamp))
  {
  }

  lemma BookRecordsNewCall(h: History, c: Consumption, id: CallId, keys: seq<Key>, stamp: int, window: int)
    requires window >= 1 && Distinct(keys) && c.charged <= |keys|
    requires forall key :: WindowKnown(h, key)
    requires forall key :: BucketStep(h.rows, c, key, key in keys[..c.charged], Seconds(stamp), window)
    ensures ChargesRecorded(Book(h, c, id, keys, stamp), id)
  {
    var h' := Book(h, c, id, keys, stamp);
    forall i | 0 <= i < c.charged
      ensures keys[i] in h'.windows && h'.windows[keys[i]] != []
      ensures id in Last(h'.windows[keys[i]]).charged && Seconds(stamp) < Last(h'.windows[keys[i]]).end
    {
      var key := keys[i];
      assert key in keys[..c.charged];
      assert BucketStep(h.rows, c, key, true, Seconds(stamp), window);
      assert WindowKnown(h, key);
    }
  }

  lemma ConsumeKeepsSound(h: History, id: CallId, keys: seq<Key>, limits: seq<int>, stamp: int, window: int)
    requires window >= 1 && Sound(h, window)
    requires Enabled(h, Consumed(id, keys, limits, stamp))
    requires NoEarlyRevival(h, Consumed(id, keys, limits, stamp), window)
    ensures Sound(Apply(h, Consumed(id, keys, limits, stamp), window), window)
  {
    var c := Charge(h.rows, keys, limits, window, Seconds(stamp));
    ChargedAtMostAll(h.rows, keys, limits, window, Seconds(stamp));
    var h' := Book(h, c, id, keys, stamp);
    forall key
      ensures BucketStep(h.rows, c, key, key in keys[..c.charged], Seconds(stamp), window)
      ensures TableMatches(h', key) && WindowsAdvance(h', key, window) && WindowKnown(h, key)
    {
      ConsumeAtKey(h.rows, keys, limits, Seconds(stamp), window, key);
      assert TableMatches(h, key) && WindowsAdvance(h, key, window) && WindowKnown(h, key);
      assert !RevivesEarly(h, Consumed(id, keys, limits, stamp), window, key);
      BookKeepsKey(h, c, id, keys, stamp, window, key);
    }
    BookExtends(h, c, id, keys, stamp);
    BookRecordsNewCall(h, c, id, keys, stamp, window);
    forall other
      ensures ChargesRecorded(h', other)
    {
      if other != id {
        assert ChargesRecorded(h, other);
        RecordSurvives(h, h', other);
      }
    }
  }

  lemma ReleaseKeepsKey(h: History, id: CallId, window: int, key: Key)
    requires window >= 1 && Sound(h, window) && Enabled(h, Released(id))
    ensures TableMatches(ReleaseCall(h, id, window), key)
    ensures WindowsAdvance(ReleaseCall(h, id, window), key, window)
  {
    var call := h.calls[id];
    var h' := ReleaseCall(h, id, window);
    assert ChargesRecorded(h, id);
    assert TableMatches(h, key) && WindowsAdvance(h, key, window);
    ReleaseIsExact(h.rows, call.keys, call.stamp, window);
    if key in h.windows {
      NewCallIsHealthy(h.windows[key], h.calls, id, call.(released := true), window);
      if key in call.keys && key in h.rows && GivesBack(h.rows[key], call.stamp, window) {
        var i :| 0 <= i < |call.keys| && call.keys[i] == key;
        ReleaseFindsItsOwnWindow(h, id, i, window);
        AmendedWindowIsHealthy(h.windows[key], Last(h'.windows[key]), h'.calls, window);
      }
    }
  }

  lemma ReleaseKeepsSound(h: History, id: CallId, window: int)
    requires window >= 1 && Sound(h, window) && Enabled(h, Released(id))
    ensures Sound(ReleaseCall(h, id, window), window)
  {
    var h' := ReleaseCall(h, id, window);
    forall key
      ensures TableMatches(h', key) && WindowsAdvance(h', key, window)
    {
      ReleaseKeepsKey(h, id, window, key);
    }
    forall other
      ensures ChargesRecorded(h', other)
    {
      assert ChargesRecorded(h, other);
      assert LedgerExtends(h, h');
      RecordSurvives(h, h', other);
    }
  }

  lemma PurgeKeepsSound(h: History, now: int, window: int)
    requires Sound(h, window)
    ensures Sound(h.(rows := Purge(h.rows, now)), window)
  {
    var h' := h.(rows := Purge(h.rows, now));
    forall key
      ensures TableMatches(h', key) && WindowsAdvance(h', key, window)
    {
      assert TableMatches(h, key) && WindowsAdvance(h, key, window);
    }
    forall other
      ensures ChargesRecorded(h', other)
    {
      assert ChargesRecorded(h, other);
      assert LedgerExtends(h, h');
      RecordSurvives(h, h', other);
    }
  }

  /** Conversely, an early revival opens a window whose end is less than one
      window length after the last. */
  lemma EarlyRevivalBreaksSound(h: History, e: Event, window: int, key: Key)
    requires window >= 1 && Sound(h, window) && Enabled(h, e) && RevivesEarly(h, e, window, key)
    ensures !WindowsAdvance(Apply(h, e, window), key, window)
  {
    var now := Seconds(e.stamp);
    var c := Charge(h.rows, e.keys, e.limits, window, now);
    var i :| 0 <= i < |Touched(e.keys, c.charged)| && Touched(e.keys, c.charged)[i] == key;
    ChargeAtKey(h.rows, e.keys, e.limits, window, now, i);
    var known, after := h.windows[key], Apply(h, e, window).windows[key];
    assert after[|known|].end == now + window && after[|known| - 1] == Last(known);
    assert !Advancing(after, window);
  }

  /** A transaction keeps `attempts` equal to the ledger's balance, and window ends
      growing by a window length, exactly when it brings no deleted bucket back early. */
  lemma EventKeepsSound(h: History, e: Event, window: int)
    requires window >= 1 && Sound(h, window) && Enabled(h, e)
    ensures Sound(Apply(h, e, window), window) <==> NoEarlyRevival(h, e, window)
  {
    if key :| RevivesEarly(h, e, window, key) {
      EarlyRevivalBreaksSound(h, e, window, key);
    } else {
      match e
      case Consumed(id, keys, limits, stamp) => ConsumeKeepsSound(h, id, keys, limits, stamp, window);
      case Released(id) => ReleaseKeepsSound(h, id, window);
      case Purged(now) => PurgeKeepsSound(h, now, window);
    }
  }
}
