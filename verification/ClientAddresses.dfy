// The client address behind trusted proxies: walking the forwarded hops from the
// nearest to the farthest.

module ClientAddresses {

  import opened Wrappers

  /** IP text parsing (to canonical text) and membership in the trusted networks. */
  datatype Proxies = Proxies(parse: string -> Option<string>, trusted: string -> bool) {
    predicate Parses(hop: string) {
      parse(hop).Some?
    }

    /** A hop that parses to an address in a trusted network. */
    predicate Trusts(hop: string) {
      Parses(hop) && trusted(parse(hop).value)
    }
  }

  /** The request: the socket peer, whether the configured networks parse, and the
      forwarded header, if there is a non-empty one, as its non-blank trimmed entries
      left to right. A header of separators only has no entries. */
  datatype Source = Source(peer: string, configured: bool, forwarded: Option<seq<string>>)

  /** The walk over `hops`, the peer last: drop trusted hops from the right while
      more than one is left, then read the last. */
  function Walk(proxies: Proxies, hops: seq<string>, peer: string): string
    requires hops != []
  {
    var last := hops[|hops| - 1];
    if !proxies.Parses(last) then peer
    else if |hops| > 1 && proxies.Trusts(last) then Walk(proxies, hops[..|hops| - 1], peer)
    else proxies.parse(last).value
  }

  /** `client_address`. */
  method ClientAddress(proxies: Proxies, source: Source) returns (address: string)
    ensures address ==
      if proxies.parse(source.peer).None? || !source.configured
         || !proxies.trusted(proxies.parse(source.peer).value) || source.forwarded.None?
      then source.peer
      else Walk(proxies, source.forwarded.value + [source.peer], source.peer)
  {
    var peer := source.peer;
    var parsed := proxies.parse(peer);
    if parsed.None? {
      return peer;
    }
    if !source.configured {
      return peer;
    }
    if !proxies.trusted(parsed.value) {
      return peer;
    }
    if source.forwarded.None? {
      return peer;
    }
    var chain := source.forwarded.value + [peer];
    while |chain| > 1
      invariant chain != []
      invariant Walk(proxies, chain, peer) == Walk(proxies, source.forwarded.value + [peer], peer)
      decreases |chain|
    {
      var candidate := proxies.parse(chain[|chain| - 1]);
      if candidate.None? {
        return peer;
      }
      if !proxies.trusted(candidate.value) {
        break;
      }
      chain := chain[..|chain| - 1];
    }
    var last := proxies.parse(chain[|chain| - 1]);
    return if last.Some? then last.value else peer;
  }

  // ---- What the walk returns ---------------------------------------------------------

  /** Every hop parses to an address in a trusted network. */
  ghost predicate AllTrusted(proxies: Proxies, hops: seq<string>) {
    forall i :: 0 <= i < |hops| ==> proxies.parse(hops[i]).Some? && proxies.trusted(proxies.parse(hops[i]).value)
  }

  /** Hops that parse and are trusted are skipped, as long as something is left of them. */
  lemma {:induction false} TrustedHopsAreSkipped(
    proxies: Proxies, left: seq<string>, right: seq<string>, peer: string)
    requires left != [] && AllTrusted(proxies, right)
    ensures Walk(proxies, left + right, peer) == Walk(proxies, left, peer)
  {
    if right == [] {
      assert left + right == left;
    } else {
      var shorter := right[..|right| - 1];
      TrustedHopsAreSkipped(proxies, left, shorter, peer);
      assert (left + right)[..|left + right| - 1] == left + shorter;
      assert (left + right)[|left + right| - 1] == right[|right| - 1];
    }
  }

  /** The rightmost hop that is not trusted is the client, whatever stands left of it. */
  lemma RightmostUntrustedHopWins(
    proxies: Proxies, left: seq<string>, hop: string, right: seq<string>, peer: string)
    requires AllTrusted(proxies, right) && proxies.parse(hop).Some? && !proxies.trusted(proxies.parse(hop).value)
    ensures Walk(proxies, left + [hop] + right, peer) == proxies.parse(hop).value
  {
    TrustedHopsAreSkipped(proxies, left + [hop], right, peer);
  }

  /** An entry that does not parse, met before any untrusted hop, gives the peer. */
  lemma UnparsableHopGivesThePeer(
    proxies: Proxies, left: seq<string>, hop: string, right: seq<string>, peer: string)
    requires AllTrusted(proxies, right) && proxies.parse(hop).None?
    ensures Walk(proxies, left + [hop] + right, peer) == peer
  {
    TrustedHopsAreSkipped(proxies, left + [hop], right, peer);
  }

  /** When every hop is trusted the leftmost one is the client. */
  lemma AllTrustedGivesTheLeftmost(proxies: Proxies, first: string, right: seq<string>, peer: string)
    requires AllTrusted(proxies, right) && proxies.parse(first).Some? && proxies.trusted(proxies.parse(first).value)
    ensures Walk(proxies, [first] + right, peer) == proxies.parse(first).value
  {
    TrustedHopsAreSkipped(proxies, [first], right, peer);
  }

  /** Every chain is one of the three cases, so these lemmas determine the walk. */
  lemma {:induction false} ChainHasOneOfThreeShapes(proxies: Proxies, hops: seq<string>)
    requires hops != []
    ensures AllTrusted(proxies, hops) ||
            exists i :: 0 <= i < |hops| && AllTrusted(proxies, hops[i + 1..])
                        && (proxies.parse(hops[i]).None? || !proxies.trusted(proxies.parse(hops[i]).value))
  {
    var last := |hops| - 1;
    if !proxies.Trusts(hops[last]) {
      assert hops[last + 1..] == [];
    } else if |hops| > 1 {
      var shorter := hops[..last];
      ChainHasOneOfThreeShapes(proxies, shorter);
      if AllTrusted(proxies, shorter) {
        assert forall i :: 0 <= i < last ==> hops[i] == shorter[i];
      } else {
        var i :| 0 <= i < |shorter| && !proxies.Trusts(shorter[i]) && AllTrusted(proxies, shorter[i + 1..]);
        var tail, known := hops[i + 1..], shorter[i + 1..];
        assert tail == known + [hops[last]];
        assert !proxies.Trusts(hops[i]) && AllTrusted(proxies, tail);
      }
    }
  }
}
