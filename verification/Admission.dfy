// Connection admission, draining and DATA slots of the SMTP listeners.

module Admission {

  type ProtocolId = nat

  /** What the server keeps about connections. */
  datatype Core = Core(max: nat, protocols: set<ProtocolId>, drained: bool)

  /** What each protocol object keeps about itself. */
  datatype Flags = Flags(admitted: bool, released: bool)

  const NEW_PROTOCOL := Flags(false, false)

  function Admit(core: Core, p: ProtocolId): (Core, bool) {
    if |core.protocols| >= core.max then (core, false)
    else (core.(protocols := core.protocols + {p}, drained := false), true)
  }

  function Release(core: Core, p: ProtocolId): Core {
    var left := core.protocols - {p};
    core.(protocols := left, drained := left == {} || core.drained)
  }

  /** `connection_made`, called again after STARTTLS on the same object. */
  function Made(core: Core, flags: Flags, p: ProtocolId): (Core, Flags) {
    if flags.admitted then (core, flags)
    else
      var (core', ok) := Admit(core, p);
      (core', flags.(admitted := ok))
  }

  /** `connection_lost`, whatever the base class does in it. */
  function Lost(core: Core, flags: Flags, p: ProtocolId): (Core, Flags) {
    if !flags.admitted || flags.released then (core, flags)
    else (Release(core, p), flags.(released := true))
  }

  // ---- The objects --------------------------------------------------------------

  class SmtpRelayServer {
    const maxConnections: nat
    var protocols: set<ProtocolId>
    var drained: bool
    var freeSlots: nat            // the semaphore's value

    constructor (maxConnections: nat, maxDataConnections: nat)
      ensures View() == Core(maxConnections, {}, true) && freeSlots == maxDataConnections
    {
      this.maxConnections := maxConnections;
      protocols, drained, freeSlots := {}, true, maxDataConnections;
    }

    function View(): Core
      reads this
    {
      Core(maxConnections, protocols, drained)
    }

    method AdmitConnection(p: ProtocolId) returns (ok: bool)
      modifies this
      ensures (View(), ok) == Admit(old(View()), p) && freeSlots == old(freeSlots)
    {
      if |protocols| >= maxConnections {
        return false;
      }
      protocols := protocols + {p};
      drained := false;
      return true;
    }

    method ReleaseConnection(p: ProtocolId)
      modifies this
      ensures View() == Release(old(View()), p) && freeSlots == old(freeSlots)
    {
      protocols := protocols - {p};
      if protocols == {} {
        drained := true;
      }
    }

    /** `acquire()` as it is called here: it would wait without a free slot. */
    method AcquireSlot()
      requires freeSlots > 0
      modifies this
      ensures freeSlots == old(freeSlots) - 1 && View() == old(View())
    {
      freeSlots := freeSlots - 1;
    }

    /** The start of `smtp_DATA`: 452 when every slot is taken, else a slot at once. */
    method BeginData() returns (started: bool)
      modifies this
      ensures started == (old(freeSlots) > 0)
      ensures freeSlots == (if started then old(freeSlots) - 1 else old(freeSlots)) && View() == old(View())
    {
      if freeSlots == 0 {
        return false;
      }
      AcquireSlot();
      return true;
    }

    /** The `finally` of `smtp_DATA`. */
    method EndData()
      modifies this
      ensures freeSlots == old(freeSlots) + 1 && View() == old(View())
    {
      freeSlots := freeSlots + 1;
    }
  }

  class RelayProtocol {
    const server: SmtpRelayServer
    const id: ProtocolId
    var admitted: bool
    var released: bool

    constructor (server: SmtpRelayServer, id: ProtocolId)
      ensures this.server == server && this.id == id && View() == NEW_PROTOCOL
    {
      this.server, this.id := server, id;
      admitted, released := false, false;
    }

    function View(): Flags
      reads this
    {
      Flags(admitted, released)
    }

    method ConnectionMade()
      modifies this, server
      ensures (server.View(), View()) == Made(old(server.View()), old(View()), id)
      ensures server.freeSlots == old(server.freeSlots)
    {
      if !admitted {
        var ok := server.AdmitConnection(id);
        if !ok {
          return;   // 421 and close
        }
        admitted := true;
      }
    }

    method ConnectionLost()
      modifies this, server
      ensures (server.View(), View()) == Lost(old(server.View()), old(View()), id)
      ensures server.freeSlots == old(server.freeSlots)
    {
      if !admitted {
        return;
      }
      if admitted && !released {
        released := true;
        server.ReleaseConnection(id);
      }
    }
  }

  // ---- Every run of connection events --------------------------------------------

  datatype State = State(
    core: Core, flags: map<ProtocolId, Flags>, slots: nat, free: nat, inData: set<ProtocolId>,
    admissions: seq<ProtocolId>, releases: seq<ProtocolId>)   // what happened, in order

  datatype Event = Connects(p: ProtocolId) | Disconnects(p: ProtocolId) | DataBegins(p: ProtocolId) | DataEnds(p: ProtocolId)

  function FlagsOf(s: State, p: ProtocolId): Flags {
    if p in s.flags then s.flags[p] else NEW_PROTOCOL
  }

  /** A protocol runs one command at a time; connection events come in any order. */
  predicate Enabled(s: State, e: Event) {
    match e
    case DataBegins(p) => p !in s.inData
    case DataEnds(p) => p in s.inData
    case _ => true
  }

  function Next(s: State, e: Event): State
    requires Enabled(s, e)
  {
    match e
    case Connects(p) =>
      var (core, flags) := Made(s.core, FlagsOf(s, p), p);
      s.(core := core, flags := s.flags[p := flags],
         admissions := if core != s.core then s.admissions + [p] else s.admissions)
    case Disconnects(p) =>
      var (core, flags) := Lost(s.core, FlagsOf(s, p), p);
      s.(core := core, flags := s.flags[p := flags],
         releases := if core != s.core then s.releases + [p] else s.releases)
    case DataBegins(p) =>
      if s.free == 0 then s else s.(free := s.free - 1, inData := s.inData + {p})
    case DataEnds(p) => s.(free := s.free + 1, inData := s.inData - {p})
  }

  function Started(max: nat, slots: nat): State {
    State(Core(max, {}, true), map[], slots, slots, {}, [], [])
  }

  predicate Registered(s: State, p: ProtocolId) {
    && (p in s.core.protocols <==> FlagsOf(s, p).admitted && !FlagsOf(s, p).released)
    && (FlagsOf(s, p).released ==> FlagsOf(s, p).admitted)
    && (p in s.admissions <==> FlagsOf(s, p).admitted)
    && (p in s.releases <==> FlagsOf(s, p).released)
  }

  predicate NoRepeats(ids: seq<ProtocolId>) {
    forall i, j :: 0 <= i < j < |ids| ==> ids[i] != ids[j]
  }

  ghost predicate Sound(s: State) {
    && |s.core.protocols| <= s.core.max
    && (s.core.drained <==> s.core.protocols == {})
    && (forall p :: Registered(s, p))
    && NoRepeats(s.admissions) && NoRepeats(s.releases)
    && |s.inData| + s.free == s.slots
  }

  lemma NextKeepsSound(s: State, e: Event)
    requires Sound(s) && Enabled(s, e)
    ensures Sound(Next(s, e))
  {
    var s' := Next(s, e);
    forall p
      ensures Registered(s', p)
    {
      assert Registered(s, p);
    }
    assert Registered(s, e.p);
  }

  predicate Possible(s: State, events: seq<Event>)
    decreases |events|
  {
    events != [] ==> Enabled(s, events[0]) && Possible(Next(s, events[0]), events[1..])
  }

  function After(s: State, events: seq<Event>): State
    requires Possible(s, events)
    decreases |events|
  {
    if events == [] then s else After(Next(s, events[0]), events[1..])
  }

  lemma {:induction false} RunKeepsSound(s: State, events: seq<Event>)
    requires Sound(s) && Possible(s, events)
    ensures Sound(After(s, events))
    ensures After(s, events).core.max == s.core.max && After(s, events).slots == s.slots
    decreases |events|
  {
    if events != [] {
      NextKeepsSound(s, events[0]);
      RunKeepsSound(Next(s, events[0]), events[1..]);
    }
  }

  /** Over every run: admitted connections stay within the maximum; each protocol is
      admitted at most once and released at most once, only after its admission, and
      is out of the set from then on; `_drained` is set exactly when the set is
      empty; and DATA in progress stays within the slots. */
  lemma AdmissionIsBounded(max: nat, slots: nat, events: seq<Event>, p: ProtocolId)
    requires Possible(Started(max, slots), events)
    ensures var s := After(Started(max, slots), events);
            && |s.core.protocols| <= max
            && (s.core.drained <==> s.core.protocols == {})
            && NoRepeats(s.admissions) && NoRepeats(s.releases)
            && (p in s.releases ==> p in s.admissions)
            && (p in s.core.protocols <==> p in s.admissions && p !in s.releases)
            && |s.inData| <= slots
            && s.free == slots - |s.inData|
  {
    RunKeepsSound(Started(max, slots), events);
    assert Registered(After(Started(max, slots), events), p);
  }

  // ---- What the events bring about ---------------------------------------------------

  /** A run up to its last event, and that event. */
  lemma {:induction false} RunToTheLast(s: State, events: seq<Event>)
    requires events != [] && Possible(s, events)
    ensures var before := events[..|events| - 1];
            && Possible(s, before) && Enabled(After(s, before), events[|events| - 1])
            && After(s, events) == Next(After(s, before), events[|events| - 1])
    decreases |events|
  {
    var before := events[..|events| - 1];
    if |events| == 1 {
      assert events[1..] == [] && before == [];
    } else {
      var next, rest := Next(s, events[0]), events[1..];
      RunToTheLast(next, rest);
      assert rest[..|rest| - 1] == before[1..] && rest[|rest| - 1] == events[|events| - 1];
    }
  }

  lemma {:induction false} PrefixIsPossible(s: State, events: seq<Event>, i: nat)
    requires Possible(s, events) && i <= |events|
    ensures Possible(s, events[..i])
    decreases |events| - i
  {
    if i == |events| {
      assert events[..i] == events;
    } else {
      PrefixIsPossible(s, events, i + 1);
      RunToTheLast(s, events[..i + 1]);
      assert events[..i + 1][..i] == events[..i];
    }
  }

  /** The state of a run before its event `i`. */
  function Before(s: State, events: seq<Event>, i: nat): State
    requires Possible(s, events) && i <= |events|
  {
    PrefixIsPossible(s, events, i);
    After(s, events[..i])
  }

  /** A connection event that finds room. */
  ghost predicate ConnectsWithRoom(s: State, events: seq<Event>, p: ProtocolId, i: nat)
    requires Possible(s, events)
  {
    i < |events| && events[i] == Connects(p) && |Before(s, events, i).core.protocols| < s.core.max
  }

  /** A loss that comes after the protocol was admitted. */
  ghost predicate LostAfterAdmission(s: State, events: seq<Event>, p: ProtocolId, i: nat)
    requires Possible(s, events)
  {
    i < |events| && events[i] == Disconnects(p)
    && exists j :: 0 <= j < i && ConnectsWithRoom(s, events, p, j)
  }

  ghost predicate EverAdmitted(s: State, events: seq<Event>, p: ProtocolId)
    requires Possible(s, events)
  {
    exists i: nat :: ConnectsWithRoom(s, events, p, i)
  }

  ghost predicate EverLost(s: State, events: seq<Event>, p: ProtocolId)
    requires Possible(s, events)
  {
    exists i: nat :: LostAfterAdmission(s, events, p, i)
  }

  lemma ShorterRun(s: State, events: seq<Event>, p: ProtocolId, i: nat)
    requires events != [] && Possible(s, events) && i < |events|
    ensures Possible(s, events[..|events| - 1])
    ensures Before(s, events, |events| - 1) == After(s, events[..|events| - 1])
    ensures i < |events| - 1 ==>
              (ConnectsWithRoom(s, events, p, i) <==> ConnectsWithRoom(s, events[..|events| - 1], p, i))
  {
    PrefixIsPossible(s, events, |events| - 1);
    assert events[..|events| - 1][..i] == events[..i];
  }

  lemma LastConnects(s: State, events: seq<Event>, p: ProtocolId, shorter: seq<Event>)
    requires events != [] && Possible(s, events) && shorter == events[..|events| - 1] && Possible(s, shorter)
    ensures ConnectsWithRoom(s, events, p, |shorter|) <==>
            events[|shorter|] == Connects(p) && |After(s, shorter).core.protocols| < s.core.max
  {
    ShorterRun(s, events, p, 0);
  }

  lemma AdmittedByTheLast(s: State, events: seq<Event>, p: ProtocolId, shorter: seq<Event>)
    requires events != [] && Possible(s, events) && shorter == events[..|events| - 1] && Possible(s, shorter)
    ensures EverAdmitted(s, events, p) <==>
            || EverAdmitted(s, shorter, p)
            || (events[|events| - 1] == Connects(p) && |After(s, shorter).core.protocols| < s.core.max)
  {
    forall i: nat | i < |shorter|
      ensures ConnectsWithRoom(s, events, p, i) <==> ConnectsWithRoom(s, shorter, p, i)
    {
      ShorterRun(s, events, p, i);
    }
    LastConnects(s, events, p, shorter);
    if i: nat :| ConnectsWithRoom(s, events, p, i) {
      assert i < |shorter| ==> ConnectsWithRoom(s, shorter, p, i);
    }
    if i: nat :| ConnectsWithRoom(s, shorter, p, i) {
      assert ConnectsWithRoom(s, events, p, i);
    }
  }

  lemma LostByTheLast(s: State, events: seq<Event>, p: ProtocolId, shorter: seq<Event>)
    requires events != [] && Possible(s, events) && shorter == events[..|events| - 1] && Possible(s, shorter)
    ensures EverLost(s, events, p) <==>
            || EverLost(s, shorter, p)
            || (events[|events| - 1] == Disconnects(p) && EverAdmitted(s, shorter, p))
  {
    forall i: nat | i < |shorter|
      ensures ConnectsWithRoom(s, events, p, i) <==> ConnectsWithRoom(s, shorter, p, i)
    {
      ShorterRun(s, events, p, i);
    }
    if i: nat :| LostAfterAdmission(s, events, p, i) {
      assert i < |shorter| ==> LostAfterAdmission(s, shorter, p, i);
    }
    if i: nat :| LostAfterAdmission(s, shorter, p, i) {
      assert LostAfterAdmission(s, events, p, i);
    }
    if events[|events| - 1] == Disconnects(p) && EverAdmitted(s, shorter, p) {
      assert LostAfterAdmission(s, events, p, |events| - 1);
    }
  }

  lemma AdmissionStep(s: State, e: Event, p: ProtocolId)
    requires Sound(s) && Enabled(s, e)
    ensures p in Next(s, e).admissions <==>
            p in s.admissions || (e == Connects(p) && |s.core.protocols| < s.core.max)
    ensures p in Next(s, e).releases <==> p in s.releases || (e == Disconnects(p) && p in s.admissions)
  {
    assert Registered(s, p) && Registered(s, e.p);
    assert Next(s, e).core.max == s.core.max;
  }

  /** Over every run from an empty server, from its events alone: a protocol was admitted
      exactly when it connected at a moment with room, and released exactly when it was
      lost after that. */
  lemma {:induction false} AdmittedAndReleasedIff(max: nat, slots: nat, events: seq<Event>, p: ProtocolId)
    requires Possible(Started(max, slots), events)
    ensures var s := After(Started(max, slots), events);
            && (p in s.admissions <==> EverAdmitted(Started(max, slots), events, p))
            && (p in s.releases <==> EverLost(Started(max, slots), events, p))
    decreases |events|
  {
    var start := Started(max, slots);
    if events != [] {
      var shorter := events[..|events| - 1];
      RunToTheLast(start, events);
      RunKeepsSound(start, shorter);
      AdmissionStep(After(start, shorter), events[|events| - 1], p);
      AdmittedAndReleasedIff(max, slots, shorter, p);
      AdmittedByTheLast(start, events, p, shorter);
      LostByTheLast(start, events, p, shorter);
    }
  }

  /** The connections in the set are exactly those admitted and not lost since; so the
      server is drained exactly when every admitted connection has been lost. */
  lemma ConnectedIffAdmittedAndNotLost(max: nat, slots: nat, events: seq<Event>, p: ProtocolId)
    requires Possible(Started(max, slots), events)
    ensures var start := Started(max, slots);
            p in After(start, events).core.protocols <==>
            EverAdmitted(start, events, p) && !EverLost(start, events, p)
  {
    AdmittedAndReleasedIff(max, slots, events, p);
    AdmissionIsBounded(max, slots, events, p);
  }

  /** What one event does at any moment of a run: a lost connection is out, a new one is
      in exactly when there is room, and a DATA command runs exactly when a slot is free. */
  lemma EventTakesEffect(max: nat, slots: nat, events: seq<Event>, e: Event)
    requires Possible(Started(max, slots), events) && Enabled(After(Started(max, slots), events), e)
    ensures var s := After(Started(max, slots), events);
            var s' := Next(s, e);
            match e
            case Connects(p) =>
              p !in s.admissions ==> (p in s'.core.protocols <==> |s.core.protocols| < max)
            case Disconnects(p) => p !in s'.core.protocols && s'.core.protocols == s.core.protocols - {p}
            case DataBegins(p) => s'.inData == if |s.inData| < slots then s.inData + {p} else s.inData
            case DataEnds(p) => s'.inData == s.inData - {p}
  {
    RunKeepsSound(Started(max, slots), events);
    assert Registered(After(Started(max, slots), events), e.p);
  }
}
