// Upstream host names: IP addresses in canonical text, or lower-case DNS names.

module Hosts {

  import opened Names
  import opened Wrappers

  /** How `ipaddress.ip_address` reads text: an IPv4 address is its own canonical
      text; an IPv6 address, possibly with a scope after `%`, has one. */
  datatype IpText = IpText(v4: string -> bool, v6: string -> Option<string>) {
    function Parse(s: string): Option<string> {
      if v4(s) then Some(s) else v6(s)
    }
  }

  predicate IsHexDigit(c: char) {
    IsDigit(c) || 'a' <= c <= 'f' || 'A' <= c <= 'F'
  }

  predicate Ipv4Text(s: string) {
    && s != "" && s[0] != '.' && s[|s| - 1] != '.'
    && forall i :: 0 <= i < |s| ==> IsDigit(s[i]) || s[i] == '.'
  }

  predicate HasControl(s: string) {
    exists i :: 0 <= i < |s| && (s[i] as int) < 32
  }

  /** Canonical text `t` of the IPv6 address written as `s`: it starts with its first
      group or a colon, and ends with its last group, a colon, or the scope of `s`. */
  predicate Ipv6Canonical(s: string, t: string) {
    && (exists i :: 0 <= i < |s| && s[i] == ':')
    && (exists i :: 0 <= i < |t| && t[i] == ':')
    && (IsHexDigit(t[0]) || t[0] == ':')
    && (IsHexDigit(t[|t| - 1]) || t[|t| - 1] == ':' || t[|t| - 1] == s[|s| - 1])
    && (HasControl(t) ==> HasControl(s))
  }

  /** What the text forms of IP addresses guarantee. */
  ghost predicate Sane(ip: IpText) {
    && (forall s :: ip.v4(s) ==> Ipv4Text(s))
    && (forall s :: ip.v6(s).Some? ==> Ipv6Canonical(s, ip.v6(s).value) && ip.v6(ip.v6(s).value) == ip.v6(s))
  }

  /** The label test of the DNS branch, as written there. */
  predicate DnsLabel(part: string) {
    && part != "" && |part| <= 63
    && part[0] != '-' && part[|part| - 1] != '-'
    && forall i :: 0 <= i < |part| ==> IsLower(part[i]) || IsUpper(part[i]) || IsDigit(part[i]) || part[i] == '-'
  }

  function Unbracketed(candidate: string): string {
    if |candidate| >= 2 && candidate[0] == '[' && candidate[|candidate| - 1] == ']'
    then candidate[1..|candidate| - 1] else candidate
  }

  function NormalizeHost(ip: IpText, idna: Idna, host: string): Option<string> {
    if !Stripped(host) || (|host| >= 2 && host[|host| - 2..] == "..") then None
    else
      var trimmed := TrimDots(host);
      if trimmed == "" || HasControl(trimmed) then None
      else
        var candidate := Unbracketed(trimmed);
        if ip.Parse(candidate).Some? then ip.Parse(candidate)
        else
          var encoded := IdnaEncode(idna, candidate);
          if encoded.None? then None
          else
            var name := Lower(encoded.value);
            if |name| > 253 || exists i :: 0 <= i < |Labels(name)| && !DnsLabel(Labels(name)[i])
            then None else Some(name)
  }

  lemma DnsNameIsHostName(encoded: string)
    requires Ascii(encoded)
    requires var name := Lower(encoded);
             |name| <= 253 && forall i :: 0 <= i < |Labels(name)| ==> DnsLabel(Labels(name)[i])
    ensures HostName(Lower(encoded))
  {
    var name := Lower(encoded);
    LowerLabels(encoded);
    forall i | 0 <= i < |Labels(name)|
      ensures HostLabel(Labels(name)[i])
    {
      assert DnsLabel(Labels(name)[i]);
      assert Labels(name)[i] == Lower(Labels(encoded)[i]);
      forall j | 0 <= j < |Labels(name)[i]|
        ensures IsHostChar(Labels(name)[i][j])
      {
        assert Labels(name)[i][j] == LowerChar(Labels(encoded)[i][j]);
      }
    }
  }

  lemma HostNameIsStable(ip: IpText, idna: Idna, name: string)
    requires Sane(ip) && HostName(name)
    ensures NormalizeHost(ip, idna, name) == Some(name)
  {
    HostNameText(name);
    forall i | 0 <= i < |Labels(name)|
      ensures DnsLabel(Labels(name)[i])
    {
      assert HostLabel(Labels(name)[i]);
    }
  }

  lemma Ipv4IsStable(ip: IpText, idna: Idna, s: string)
    requires Sane(ip) && ip.v4(s)
    ensures NormalizeHost(ip, idna, s) == Some(s)
  {
    assert Ipv4Text(s);
    assert TrimDots(s) == s;
  }

  /** Normal forms are host names, IPv4 text, or canonical IPv6 text. */
  lemma NormalHostForms(ip: IpText, idna: Idna, host: string)
    requires Sane(ip) && NormalizeHost(ip, idna, host).Some?
    ensures var r := NormalizeHost(ip, idna, host).value;
            HostName(r) || ip.v4(r) || (ip.v6(r) == Some(r) && !HasControl(r) && !ip.v4(r))
  {
    var trimmed := TrimDots(host);
    var candidate := Unbracketed(trimmed);
    if ip.v4(candidate) {
    } else if ip.v6(candidate).Some? {
      var t := ip.v6(candidate).value;
      assert Ipv6Canonical(candidate, t);
      if ip.v4(t) {
        assert Ipv4Text(t);
        var i :| 0 <= i < |t| && t[i] == ':';
      }
    } else {
      DnsNameIsHostName(IdnaEncode(idna, candidate).value);
    }
  }

  /** Normalizing a normal form changes nothing exactly when it does not end in a
      dot or a space; only the scope of an IPv6 address can end that way. */
  lemma NormalHostIsStableIff(ip: IpText, idna: Idna, host: string)
    requires Sane(ip) && NormalizeHost(ip, idna, host).Some?
    ensures var r := NormalizeHost(ip, idna, host).value;
            && r != ""
            && (NormalizeHost(ip, idna, r) == Some(r) <==> r[|r| - 1] != '.' && !IsSpace(r[|r| - 1]))
  {
    var r := NormalizeHost(ip, idna, host).value;
    NormalHostForms(ip, idna, host);
    if HostName(r) {
      HostNameIsStable(ip, idna, r);
      HostNameText(r);
    } else if ip.v4(r) {
      Ipv4IsStable(ip, idna, r);
      assert Ipv4Text(r);
    } else {
      ScopedStability(ip, idna, r);
    }
  }

  predicate EndsInTwoDots(s: string) {
    |s| >= 2 && s[|s| - 1] == '.' && s[|s| - 2] == '.'
  }

  lemma TwoDots(s: string)
    requires |s| >= 2
    ensures s[|s| - 2..] == ".." <==> EndsInTwoDots(s)
  {
    assert s[|s| - 2..] == [s[|s| - 2], s[|s| - 1]];
  }

  lemma NameIsTaken(ip: IpText, idna: Idna, host: string, trimmed: string)
    requires Stripped(host) && !EndsInTwoDots(host) && host != "" && host[0] != '['
    requires trimmed == TrimDots(host) && trimmed != "" && !HasControl(trimmed) && ip.Parse(trimmed).None?
    requires IdnaEncode(idna, trimmed) == Some(trimmed) && |trimmed| <= 253
    requires forall i :: 0 <= i < |Labels(Lower(trimmed))| ==> DnsLabel(Labels(Lower(trimmed))[i])
    ensures NormalizeHost(ip, idna, host) == Some(Lower(trimmed))
  {
    if |host| >= 2 {
      TwoDots(host);
    }
    assert Unbracketed(trimmed) == trimmed;
  }

  lemma NamedHostAccepted(ip: IpText, idna: Idna, host: string, trimmed: string)
    requires Ascii(host) && host != "" && host[0] != '[' && trimmed == TrimDots(host) && ip.Parse(trimmed).None?
    requires HostName(Lower(trimmed)) && !EndsInTwoDots(host)
    ensures NormalizeHost(ip, idna, host) == Some(Lower(trimmed))
  {
    FoldedNameIsAccepted(idna, host, trimmed);
    FoldedHostHasDnsLabels(trimmed);
    HostNameText(Lower(trimmed));
    NameIsTaken(ip, idna, host, trimmed);
  }

  lemma AcceptedNameFacts(ip: IpText, idna: Idna, host: string, trimmed: string)
    requires host != "" && host[0] != '[' && trimmed == TrimDots(host) && ip.Parse(trimmed).None?
    requires NormalizeHost(ip, idna, host).Some?
    ensures |host| >= 2 ==> host[|host| - 2..] != ".."
    ensures IdnaEncode(idna, trimmed).Some?
    ensures var name := Lower(IdnaEncode(idna, trimmed).value);
            && NormalizeHost(ip, idna, host) == Some(name) && |name| <= 253
            && forall i :: 0 <= i < |Labels(name)| ==> DnsLabel(Labels(name)[i])
  {
    assert Unbracketed(trimmed) == trimmed;
  }

  lemma AcceptedHostIsNamed(ip: IpText, idna: Idna, host: string, trimmed: string)
    requires Ascii(host) && host != "" && host[0] != '[' && trimmed == TrimDots(host) && ip.Parse(trimmed).None?
    requires NormalizeHost(ip, idna, host).Some?
    ensures HostName(Lower(trimmed)) && !EndsInTwoDots(host) && NormalizeHost(ip, idna, host) == Some(Lower(trimmed))
  {
    AcceptedNameFacts(ip, idna, host, trimmed);
    if |host| >= 2 {
      TwoDots(host);
    }
    assert Ascii(trimmed);
    DnsNameIsHostName(trimmed);
  }

  /** Which ASCII texts that are no IP address are accepted, and as what: at most one
      trailing dot, and a host name in small letters when it is dropped. */
  lemma PlainHostAccepted(ip: IpText, idna: Idna, host: string)
    requires Ascii(host) && (host != "" ==> host[0] != '[') && ip.Parse(TrimDots(host)).None?
    ensures NormalizeHost(ip, idna, host) ==
            if HostName(Lower(TrimDots(host))) && !EndsInTwoDots(host) then Some(Lower(TrimDots(host))) else None
  {
    if NormalizeHost(ip, idna, host).Some? {
      AcceptedHostIsNamed(ip, idna, host, TrimDots(host));
    } else if HostName(Lower(TrimDots(host))) && !EndsInTwoDots(host) {
      HostNameText(Lower(TrimDots(host)));
      NamedHostAccepted(ip, idna, host, TrimDots(host));
    }
  }

  lemma FoldedHostHasDnsLabels(trimmed: string)
    requires HostName(Lower(trimmed))
    ensures !HasControl(trimmed)
    ensures forall i :: 0 <= i < |Labels(Lower(trimmed))| ==> DnsLabel(Labels(Lower(trimmed))[i])
  {
    var name := Lower(trimmed);
    HostNameText(name);
    LowerFolds(trimmed);
    forall i | 0 <= i < |trimmed|
      ensures trimmed[i] as int >= 32
    {
      assert Folds(trimmed[i], name[i]);
    }
    forall i | 0 <= i < |Labels(name)|
      ensures DnsLabel(Labels(name)[i])
    {
      assert HostLabel(Labels(name)[i]);
    }
  }

  /** What is refused whatever it names: surrounding space, two dots at the end, nothing but
      dots, a control character. */
  lemma RefusedHosts(ip: IpText, idna: Idna, host: string)
    requires || (host != "" && (IsSpace(host[0]) || IsSpace(host[|host| - 1])))
             || EndsInTwoDots(host) || (forall i :: 0 <= i < |host| ==> host[i] == '.')
             || (exists i :: 0 <= i < |host| && host[i] as int < 32)
    ensures NormalizeHost(ip, idna, host) == None
  {
    if |host| >= 2 {
      TwoDots(host);
    }
    if i :| 0 <= i < |host| && host[i] as int < 32 {
      TrimmedAreDots(host);
      assert TrimDots(host) == host[..|TrimDots(host)|];
      assert i < |TrimDots(host)|;
      assert TrimDots(host)[i] as int < 32;
    }
  }

  /** An IP address is accepted as its canonical text, with or without brackets. */
  lemma IpHostAccepted(ip: IpText, idna: Idna, text: string)
    requires ip.Parse(text).Some? && text != "" && text[0] != '[' && text[|text| - 1] != '.'
    requires Stripped(text) && !HasControl(text)
    ensures NormalizeHost(ip, idna, text) == ip.Parse(text)
    ensures NormalizeHost(ip, idna, "[" + text + "]") == ip.Parse(text)
  {
    var bracketed := "[" + text + "]";
    assert TrimDots(text) == text && TrimDots(bracketed) == bracketed;
    assert bracketed[1..|bracketed| - 1] == text;
    assert bracketed[|bracketed| - 2..][1] == ']';
    if |text| >= 2 {
      assert text[|text| - 2..][1] == text[|text| - 1];
    }
    assert !IsSpace('[') && !IsSpace(']');
    forall i | 0 <= i < |bracketed|
      ensures bracketed[i] as int >= 32
    {
      assert 0 < i < |bracketed| - 1 ==> bracketed[i] == text[i - 1];
    }
  }

  lemma ScopedStability(ip: IpText, idna: Idna, r: string)
    requires Sane(ip) && ip.v6(r) == Some(r) && !HasControl(r) && !ip.v4(r)
    ensures r != ""
    ensures NormalizeHost(ip, idna, r) == Some(r) <==> r[|r| - 1] != '.' && !IsSpace(r[|r| - 1])
  {
    assert Ipv6Canonical(r, r);
    if r[|r| - 1] == '.' && NormalizeHost(ip, idna, r) == Some(r) {
      TrailingDotIsLost(ip, idna, r, TrimDots(r));
    }
  }

  /** No text that does not end in a dot has a canonical form that does. */
  lemma NoCanonicalEndsInADot(ip: IpText, trimmed: string, r: string)
    requires Sane(ip) && trimmed != "" && trimmed[|trimmed| - 1] != '.' && r != "" && r[|r| - 1] == '.'
    ensures ip.Parse(trimmed) != Some(r)
  {
    assert ip.v6(trimmed).Some? ==> Ipv6Canonical(trimmed, ip.v6(trimmed).value);
  }

  lemma TrailingDotIsLost(ip: IpText, idna: Idna, r: string, trimmed: string)
    requires Sane(ip) && Ipv6Canonical(r, r)
    requires trimmed == TrimDots(r) && r[|r| - 1] == '.'
    ensures NormalizeHost(ip, idna, r) != Some(r)
  {
    assert trimmed != "" ==> trimmed[0] == r[0] != '[';
    assert Unbracketed(trimmed) == trimmed;
    if trimmed != "" {
      NoCanonicalEndsInADot(ip, trimmed, r);
      if ip.Parse(trimmed).None? && NormalizeHost(ip, idna, r) == Some(r) {
        AcceptedNameFacts(ip, idna, r, trimmed);
        DnsNameIsHostName(IdnaEncode(idna, trimmed).value);
        HostNameText(r);
      }
    }
  }

  /** One address, with two scopes, as IP parsing reads it. */
  function ScopedV6(s: string): Option<string> {
    if s == "fe80::1%a." || s == "fe80::1%a" then Some(s) else None
  }

  const SCOPED := IpText((s: string) => false, ScopedV6)

  lemma ScopedIsSane()
    ensures Sane(SCOPED)
  {
    forall s | SCOPED.v6(s).Some?
      ensures Ipv6Canonical(s, s)
    {
      assert s[4] == ':' && s[0] == 'f';
    }
  }

  lemma BracketsGo(idna: Idna)
    ensures NormalizeHost(SCOPED, idna, "[fe80::1%a.]") == Some("fe80::1%a.")
  {
    var bracketed, scoped := "[fe80::1%a.]", "fe80::1%a.";
    assert bracketed[1..|bracketed| - 1] == scoped;
    assert TrimDots(bracketed) == bracketed;
    assert !HasControl(bracketed);
    assert bracketed[|bracketed| - 2..][0] == '.' && bracketed[|bracketed| - 2..][1] == ']';
  }

  lemma TrailingDotGoes(idna: Idna)
    ensures NormalizeHost(SCOPED, idna, "fe80::1%a.") == Some("fe80::1%a")
  {
    var scoped, bare := "fe80::1%a.", "fe80::1%a";
    assert scoped[..|scoped| - 1] == bare && TrimDots(bare) == bare && TrimDots(scoped) == bare;
    assert !HasControl(bare);
    assert scoped[|scoped| - 2..][0] == 'a';
  }

  /** Normalizing is not idempotent: the scope of a bracketed IPv6 address may end
      in a dot, which the next normalization trims. */
  lemma ScopedAddressIsNotStable(idna: Idna)
    ensures Sane(SCOPED)
    ensures NormalizeHost(SCOPED, idna, "[fe80::1%a.]") == Some("fe80::1%a.")
    ensures NormalizeHost(SCOPED, idna, "fe80::1%a.") == Some("fe80::1%a")
  {
    ScopedIsSane();
    BracketsGo(idna);
    TrailingDotGoes(idna);
  }
}
