// Domain names, sender addresses and upstream host names: their one normal form.
//
// The IDNA codec is the identity on ASCII names whose labels fit and an oracle
// on other names. IP address parsing is an oracle too.

module Names {

  import opened Wrappers

  /** ToASCII for names outside ASCII. */
  type Idna = string -> Option<string>

  // ---- Characters ---------------------------------------------------------------

  predicate IsSpace(c: char) {
    var n := c as int;
    || 9 <= n <= 13 || 28 <= n <= 32 || n == 0x85 || n == 0xA0 || n == 0x1680
    || 0x2000 <= n <= 0x200A || n == 0x2028 || n == 0x2029 || n == 0x202F || n == 0x205F || n == 0x3000
  }

  predicate IsLower(c: char) { 'a' <= c <= 'z' }

  predicate IsUpper(c: char) { 'A' <= c <= 'Z' }

  predicate IsDigit(c: char) { '0' <= c <= '9' }

  function LowerChar(c: char): char {
    if IsUpper(c) then ((c as int) + 32) as char else c
  }

  /** The small letter with the capital's place in the alphabet; any other character as it is. */
  predicate Folds(c: char, r: char) {
    if 'A' <= c <= 'Z' then 'a' <= r <= 'z' && r as int - 'a' as int == c as int - 'A' as int else r == c
  }

  function Lower(s: string): (r: string)
    ensures |r| == |s|
    ensures forall i :: 0 <= i < |s| ==> r[i] == LowerChar(s[i])
  {
    seq(|s|, i requires 0 <= i < |s| => LowerChar(s[i]))
  }

  /** Folding keeps every character but the capitals, and those become their own small letter. */
  lemma LowerFolds(s: string)
    ensures |Lower(s)| == |s| && forall i :: 0 <= i < |s| ==> Folds(s[i], Lower(s)[i])
  {
  }

  predicate Ascii(s: string) {
    forall i :: 0 <= i < |s| ==> (s[i] as int) < 128
  }

  /** Unchanged by `strip()`. */
  predicate Stripped(s: string) {
    s == "" || (!IsSpace(s[0]) && !IsSpace(s[|s| - 1]))
  }

  function TrimDots(s: string): (r: string)
    ensures |r| <= |s| && r == s[..|r|]
    ensures r != "" ==> r[|r| - 1] != '.'
  {
    if s != "" && s[|s| - 1] == '.' then TrimDots(s[..|s| - 1]) else s
  }

  /** Only dots are trimmed. */
  lemma {:induction false} TrimmedAreDots(s: string)
    ensures forall i :: |TrimDots(s)| <= i < |s| ==> s[i] == '.'
  {
    if s != "" && s[|s| - 1] == '.' {
      TrimmedAreDots(s[..|s| - 1]);
    }
  }

  // ---- Labels ---------------------------------------------------------------------

  /** The labels between the dots, as `split(".")` gives them. */
  function Labels(s: string): (r: seq<string>)
    ensures r != []
  {
    if s == "" then [""]
    else if s[0] == '.' then [""] + Labels(s[1..])
    else var rest := Labels(s[1..]); [[s[0]] + rest[0]] + rest[1..]
  }

  predicate IsHostChar(c: char) {
    IsLower(c) || IsDigit(c) || c == '-'
  }

  /** A lower-case host name label: letters, digits and inner hyphens (section 2.3.1
      of RFC 1035, with a leading digit allowed by section 2.1 of RFC 1123). */
  predicate HostLabel(part: string) {
    && 1 <= |part| <= 63
    && (forall i :: 0 <= i < |part| ==> IsHostChar(part[i]))
    && part[0] != '-' && part[|part| - 1] != '-'
  }

  predicate HostLabels(labels: seq<string>) {
    forall i :: 0 <= i < |labels| ==> HostLabel(labels[i])
  }

  predicate HostName(s: string) {
    |s| <= 253 && HostLabels(Labels(s))
  }

  lemma {:induction false} CharsFromLabels(s: string, good: char -> bool)
    requires forall i :: 0 <= i < |Labels(s)| ==>
               forall j :: 0 <= j < |Labels(s)[i]| ==> good(Labels(s)[i][j])
    ensures forall i :: 0 <= i < |s| ==> s[i] == '.' || good(s[i])
  {
    if s != "" {
      var rest := Labels(s[1..]);
      if s[0] == '.' {
        assert forall i :: 0 <= i < |rest| ==> Labels(s)[i + 1] == rest[i];
      } else {
        assert Labels(s)[0][0] == s[0];
        forall i, j | 0 <= i < |rest| && 0 <= j < |rest[i]|
          ensures good(rest[i][j])
        {
          if i == 0 {
            assert Labels(s)[0][j + 1] == rest[0][j];
          } else {
            assert Labels(s)[i] == rest[i];
          }
        }
      }
      CharsFromLabels(s[1..], good);
      assert forall i :: 1 <= i < |s| ==> s[i] == s[1..][i - 1];
    }
  }

  /** No dot at the end and no two in a row. */
  predicate DotsApart(s: string) {
    && (s != "" ==> s[|s| - 1] != '.')
    && forall i :: 0 <= i < |s| - 1 ==> s[i] != '.' || s[i + 1] != '.'
  }

  ghost predicate NoEmptyLabel(labels: seq<string>) {
    forall i :: 0 <= i < |labels| ==> labels[i] != ""
  }

  /** No label is empty exactly when dots stand only between other characters. */
  lemma {:induction false} EmptyLabels(s: string)
    ensures NoEmptyLabel(Labels(s)) <==> s != "" && s[0] != '.' && DotsApart(s)
    ensures NoEmptyLabel(Labels(s)[1..]) <==> DotsApart(s)
  {
    if s == "" {
      assert Labels(s)[1..] == [];
    } else {
      EmptyLabels(s[1..]);
      var rest := Labels(s[1..]);
      assert forall i :: 1 <= i < |s| ==> s[i] == s[1..][i - 1];
      DotsApartStep(s);
      if s[0] == '.' {
        assert Labels(s)[1..] == rest && Labels(s)[0] == "";
      } else {
        assert Labels(s)[1..] == rest[1..] && Labels(s)[0] != "";
        assert forall i :: 1 <= i < |Labels(s)| ==> Labels(s)[i] == Labels(s)[1..][i - 1];
      }
    }
  }

  lemma DotsApartStep(s: string)
    requires s != ""
    ensures DotsApart(s) <==>
            DotsApart(s[1..]) && (s[0] == '.' ==> s[1..] != "" && s[1] != '.')
  {
    if DotsApart(s[1..]) {
      assert forall i :: 1 <= i < |s| ==> s[i] == s[1..][i - 1];
    }
    if DotsApart(s) {
      assert forall i :: 0 <= i < |s[1..]| ==> s[1..][i] == s[i + 1];
    }
  }

  predicate LabelwiseLower(labels: seq<string>, lowered: seq<string>) {
    |lowered| == |labels| && forall i :: 0 <= i < |labels| ==> lowered[i] == Lower(labels[i])
  }

  lemma LabelwiseGrows(c: char, labels: seq<string>, lowered: seq<string>)
    requires labels != [] && LabelwiseLower(labels, lowered)
    ensures LabelwiseLower([""] + labels, [""] + lowered)
    ensures LabelwiseLower([[c] + labels[0]] + labels[1..], [[LowerChar(c)] + lowered[0]] + lowered[1..])
  {
    assert Lower("") == "";
    assert Lower([c] + labels[0]) == [LowerChar(c)] + Lower(labels[0]);
  }

  lemma {:induction false} LowerLabels(s: string)
    ensures LabelwiseLower(Labels(s), Labels(Lower(s)))
  {
    if s == "" {
      assert Lower("") == "";
    } else {
      LowerLabels(s[1..]);
      assert Lower(s)[0] == LowerChar(s[0]) && Lower(s)[1..] == Lower(s[1..]);
      LabelwiseGrows(s[0], Labels(s[1..]), Labels(Lower(s[1..])));
    }
  }

  function Joined(labels: seq<string>): string
    requires labels != []
  {
    if |labels| == 1 then labels[0] else labels[0] + "." + Joined(labels[1..])
  }

  lemma JoinedGrows(c: char, labels: seq<string>)
    requires labels != []
    ensures Joined([[c] + labels[0]] + labels[1..]) == [c] + Joined(labels)
  {
    var grown := [[c] + labels[0]] + labels[1..];
    assert grown[1..] == labels[1..];
    if |labels| > 1 {
      assert ([c] + labels[0]) + "." + Joined(labels[1..]) == [c] + (labels[0] + "." + Joined(labels[1..]));
    }
  }

  lemma {:induction false} JoinedIsTheText(s: string)
    ensures Joined(Labels(s)) == s
  {
    if s != "" {
      JoinedIsTheText(s[1..]);
      var rest := Labels(s[1..]);
      assert s == [s[0]] + s[1..];
      if s[0] == '.' {
        assert ([""] + rest)[1..] == rest;
      } else {
        JoinedGrows(s[0], rest);
      }
    }
  }

  /** The labels hold no dot, and with dots between them they are the text. */
  lemma LabelsSplitAtDots(s: string)
    ensures Joined(Labels(s)) == s
    ensures forall i, j :: 0 <= i < |Labels(s)| && 0 <= j < |Labels(s)[i]| ==> Labels(s)[i][j] != '.'
  {
    JoinedIsTheText(s);
    LabelChars(s, c => c != '.');
  }

  // ---- Domains -----------------------------------------------------------------------

  predicate LabelsFit(labels: seq<string>) {
    && labels != []
    && (forall i :: 0 <= i < |labels| - 1 ==> 1 <= |labels[i]| <= 63)
    && |labels[|labels| - 1]| <= 63
  }

  /** `encode("idna").decode("ascii")`. */
  function IdnaEncode(idna: Idna, s: string): (r: Option<string>)
    ensures r.Some? ==> Ascii(r.value)
  {
    if Ascii(s) then
      if s == "" || LabelsFit(Labels(s)) then Some(s) else None
    else
      var encoded := idna(s);
      if encoded.Some? && Ascii(encoded.value) then encoded else None
  }

  predicate Forbidden(c: char) {
    c == '\r' || c == '\n' || c == '\0' || c == '/' || c == '@' || c == ':'
  }

  predicate PlainText(value: string) {
    value != "" && Stripped(value) && forall i :: 0 <= i < |value| ==> !Forbidden(value[i])
  }

  function NormalizeDomain(idna: Idna, value: string): Option<string> {
    if !PlainText(value) then None
    else
      var encoded := IdnaEncode(idna, TrimDots(value));
      if encoded.None? then None
      else
        var domain := Lower(encoded.value);
        if |domain| > 253 || |Labels(domain)| < 2 || !HostLabels(Labels(domain))
        then None else Some(domain)
  }

  predicate HostText(s: string) {
    forall i :: 0 <= i < |s| ==> s[i] == '.' || IsHostChar(s[i])
  }

  lemma HostNameChars(s: string)
    requires HostName(s)
    ensures s != "" && HostText(s)
    ensures s[0] != '.' && s[|s| - 1] != '.'
  {
    var labels := Labels(s);
    assert NoEmptyLabel(labels) by {
      forall i | 0 <= i < |labels| ensures labels[i] != "" { assert HostLabel(labels[i]); }
    }
    EmptyLabels(s);
    forall i, j | 0 <= i < |labels| && 0 <= j < |labels[i]|
      ensures IsHostChar(labels[i][j])
    {
      assert HostLabel(labels[i]);
    }
    CharsFromLabels(s, IsHostChar);
  }

  lemma HostTextIsPlain(s: string)
    requires s != "" && HostText(s) && s[|s| - 1] != '.'
    ensures TrimDots(s) == s && Lower(s) == s && Ascii(s) && PlainText(s)
  {
  }

  /** What a host name is made of. */
  lemma HostNameText(s: string)
    requires HostName(s)
    ensures s != "" && HostText(s) && s[|s| - 1] != '.'
    ensures TrimDots(s) == s && Lower(s) == s && Ascii(s) && PlainText(s)
    ensures LabelsFit(Labels(s))
  {
    HostNameChars(s);
    HostTextIsPlain(s);
    assert forall i :: 0 <= i < |Labels(s)| ==> HostLabel(Labels(s)[i]);
  }

  /** A normal form is a host name of at least two labels, and it is its own
      normal form, whatever the codec does with names outside ASCII. */
  lemma NormalDomainIsStable(idna: Idna, value: string)
    requires NormalizeDomain(idna, value).Some?
    ensures var domain := NormalizeDomain(idna, value).value;
            && HostName(domain) && |Labels(domain)| >= 2
            && NormalizeDomain(idna, domain) == Some(domain)
  {
    HostNameText(NormalizeDomain(idna, value).value);
  }

  /** Which ASCII names are accepted, and as what: trailing dots dropped, each capital
      turned into its small letter, and nothing else that is not a host name of two or
      more labels. */
  lemma AsciiDomainsAccepted(idna: Idna, value: string)
    requires Ascii(value)
    ensures var domain := Lower(TrimDots(value));
            NormalizeDomain(idna, value) ==
            if HostName(domain) && |Labels(domain)| >= 2 then Some(domain) else None
  {
    if HostName(Lower(TrimDots(value))) {
      FoldedNameIsAccepted(idna, value, TrimDots(value));
    }
  }

  lemma FoldedNameIsAccepted(idna: Idna, value: string, trimmed: string)
    requires Ascii(value) && trimmed == TrimDots(value) && HostName(Lower(trimmed))
    ensures PlainText(value) && IdnaEncode(idna, trimmed) == Some(trimmed)
  {
    LowerFits(trimmed);
    HostNameText(Lower(trimmed));
    HostNameChars(Lower(trimmed));
    FoldedTextIsPlain(value);
  }

  lemma FoldedTextIsPlain(value: string)
    requires HostText(Lower(TrimDots(value))) && TrimDots(value) != ""
    requires Lower(TrimDots(value))[0] != '.'
    ensures PlainText(value)
  {
    var trimmed := TrimDots(value);
    LowerFolds(trimmed);
    TrimmedAreDots(value);
    forall i | 0 <= i < |value|
      ensures value[i] == '.' || IsHostChar(value[i]) || IsUpper(value[i])
    {
      if i < |trimmed| {
        assert Folds(trimmed[i], Lower(trimmed)[i]);
      }
    }
  }

  /** Which names outside ASCII are accepted: plain text that the codec spells as a host
      name of two or more labels, up to case. */
  lemma ForeignDomainsAccepted(idna: Idna, value: string, domain: string)
    requires !Ascii(TrimDots(value))
    ensures NormalizeDomain(idna, value) == Some(domain) <==>
            && !IsSpace(value[0]) && !IsSpace(value[|value| - 1])
            && (forall i :: 0 <= i < |value| ==>
                  value[i] != '\r' && value[i] != '\n' && value[i] != '\0'
                  && value[i] != '/' && value[i] != '@' && value[i] != ':')
            && idna(TrimDots(value)).Some? && Ascii(idna(TrimDots(value)).value)
            && Lower(idna(TrimDots(value)).value) == domain
            && HostName(domain) && |Labels(domain)| >= 2
  {
    PlainTextIs(value);
    DomainFromCodec(idna, value, TrimDots(value), domain);
  }

  lemma DomainFromCodec(idna: Idna, value: string, trimmed: string, domain: string)
    requires trimmed == TrimDots(value) && !Ascii(trimmed)
    ensures NormalizeDomain(idna, value) == Some(domain) <==>
            && PlainText(value) && idna(trimmed).Some? && Ascii(idna(trimmed).value)
            && Lower(idna(trimmed).value) == domain && HostName(domain) && |Labels(domain)| >= 2
  {
  }

  lemma PlainTextIs(value: string)
    ensures PlainText(value) <==>
            && value != "" && !IsSpace(value[0]) && !IsSpace(value[|value| - 1])
            && (forall i :: 0 <= i < |value| ==>
                  value[i] != '\r' && value[i] != '\n' && value[i] != '\0'
                  && value[i] != '/' && value[i] != '@' && value[i] != ':')
  {
  }

  lemma LowerFits(s: string)
    requires HostName(Lower(s))
    ensures LabelsFit(Labels(s))
  {
    HostNameText(Lower(s));
    LowerLabels(s);
    assert forall i :: 0 <= i < |Labels(s)| ==> |Labels(s)[i]| == |Labels(Lower(s))[i]|;
  }

  // ---- Sender addresses -----------------------------------------------------------------

  predicate IsAtext(c: char) {
    || IsLower(c) || IsUpper(c) || IsDigit(c)
    || c in "!#$%&'*+/=?^_`{|}~-"
  }

  /** The pattern for local parts: runs of atext joined by single dots. */
  predicate MatchesLocalPattern(s: string) {
    forall i :: 0 <= i < |Labels(s)| ==>
      Labels(s)[i] != "" && forall j :: 0 <= j < |Labels(s)[i]| ==> IsAtext(Labels(s)[i][j])
  }

  /** Dot-atom text as section 3.2.3 of RFC 5322 has it, stated on the characters. */
  predicate DotAtom(s: string) {
    && s != "" && s[0] != '.' && DotsApart(s)
    && forall i :: 0 <= i < |s| ==> s[i] == '.' || IsAtext(s[i])
  }

  lemma {:induction false} LabelChars(s: string, good: char -> bool)
    requires forall i :: 0 <= i < |s| ==> s[i] == '.' || good(s[i])
    ensures forall i, j :: 0 <= i < |Labels(s)| && 0 <= j < |Labels(s)[i]| ==> good(Labels(s)[i][j])
  {
    if s != "" {
      LabelChars(s[1..], good);
      var rest := Labels(s[1..]);
      forall i, j | 0 <= i < |Labels(s)| && 0 <= j < |Labels(s)[i]|
        ensures good(Labels(s)[i][j])
      {
        if s[0] == '.' {
          if i > 0 {
            assert Labels(s)[i] == rest[i - 1];
          }
        } else if i == 0 {
          if j > 0 {
            assert Labels(s)[0][j] == rest[0][j - 1];
          }
        } else {
          assert Labels(s)[i] == rest[i];
        }
      }
    }
  }

  lemma LocalPatternIsDotAtom(s: string)
    ensures MatchesLocalPattern(s) <==> DotAtom(s)
  {
    EmptyLabels(s);
    if MatchesLocalPattern(s) {
      CharsFromLabels(s, IsAtext);
    }
    if DotAtom(s) {
      LabelChars(s, IsAtext);
    }
  }

  /** The characters by code: those of dot-atoms (section 3.2.3 of RFC 5322) and those
      of lower-case host names. */
  lemma CharacterCodes(c: char)
    ensures var n := c as int;
            && (IsAtext(c) <==>
                  || n == 33 || 35 <= n <= 39 || n == 42 || n == 43 || n == 45 || 47 <= n <= 57
                  || n == 61 || n == 63 || 65 <= n <= 90 || 94 <= n <= 126)
            && (IsHostChar(c) <==> n == 45 || 48 <= n <= 57 || 97 <= n <= 122)
  {
  }

  function CountAt(s: string): nat {
    if s == "" then 0 else (if s[0] == '@' then 1 else 0) + CountAt(s[1..])
  }

  function FirstAt(s: string): (r: nat)
    ensures r <= |s|
    ensures forall i :: 0 <= i < r ==> s[i] != '@'
    ensures r < |s| ==> s[r] == '@'
  {
    if s == "" || s[0] == '@' then 0 else FirstAt(s[1..]) + 1
  }

  lemma {:induction false} NoAt(s: string)
    ensures CountAt(s) == 0 <==> forall i :: 0 <= i < |s| ==> s[i] != '@'
  {
    if s != "" {
      NoAt(s[1..]);
      if CountAt(s) == 0 {
        assert forall i :: 1 <= i < |s| ==> s[i] == s[1..][i - 1];
      } else if s[0] != '@' {
        var i :| 0 <= i < |s[1..]| && s[1..][i] == '@';
        assert s[i + 1] == '@';
      }
    }
  }

  lemma {:induction false} SplitAtTheAt(s: string)
    ensures CountAt(s) == 1 <==> FirstAt(s) < |s| && CountAt(s[FirstAt(s) + 1..]) == 0
  {
    if s != "" {
      if s[0] != '@' {
        SplitAtTheAt(s[1..]);
        if FirstAt(s) < |s| {
          assert s[1..][FirstAt(s[1..]) + 1..] == s[FirstAt(s) + 1..];
        }
      }
    }
  }

  function LocalPart(address: string): string {
    address[..FirstAt(address)]
  }

  function DomainPart(address: string): string {
    if FirstAt(address) < |address| then address[FirstAt(address) + 1..] else ""
  }

  function NormalizeAddress(idna: Idna, value: string): Option<string> {
    if CountAt(value) != 1 || |value| > 254 then None
    else
      var local := LocalPart(value);
      if |local| > 64 || !MatchesLocalPattern(local) then None
      else
        var domain := NormalizeDomain(idna, DomainPart(value));
        if domain.None? then None else Some(local + "@" + domain.value)
  }

  lemma JoinedAddress(local: string, domain: string)
    requires CountAt(local) == 0 && CountAt(domain) == 0
    ensures CountAt(local + "@" + domain) == 1
    ensures LocalPart(local + "@" + domain) == local && DomainPart(local + "@" + domain) == domain
  {
    var s := local + "@" + domain;
    NoAt(local);
    NoAt(domain);
    assert s[|local|] == '@' && FirstAt(s) == |local|;
    assert s[|local| + 1..] == domain;
    SplitAtTheAt(s);
  }

  /** The parts of a normal address: the local part as submitted, a dot-atom, and
      the domain's normal form. */
  lemma NormalAddressParts(idna: Idna, value: string)
    requires NormalizeAddress(idna, value).Some?
    ensures var address := NormalizeAddress(idna, value).value;
            && CountAt(address) == 1
            && LocalPart(address) == LocalPart(value) && DotAtom(LocalPart(address)) && |LocalPart(address)| <= 64
            && NormalizeDomain(idna, DomainPart(value)) == Some(DomainPart(address))
            && HostName(DomainPart(address)) && |Labels(DomainPart(address))| >= 2
            && address == LocalPart(address) + "@" + DomainPart(address)
  {
    var local, domain := LocalPart(value), NormalizeDomain(idna, DomainPart(value)).value;
    LocalPatternIsDotAtom(local);
    NormalDomainIsStable(idna, DomainPart(value));
    HostNameText(domain);
    NoAt(local);
    NoAt(domain);
    JoinedAddress(local, domain);
  }

  /** Which addresses are accepted: at most 254 characters with one "@", before it a
      dot-atom of at most 64, after it an accepted domain. */
  lemma AddressAcceptedIff(idna: Idna, value: string)
    ensures NormalizeAddress(idna, value).Some? <==>
            && |value| <= 254
            && exists k ::
                 && 1 <= k <= 64 && k < |value| && value[k] == '@'
                 && (forall i :: 0 <= i < |value| && value[i] == '@' ==> i == k)
                 && DotAtom(value[..k]) && NormalizeDomain(idna, value[k + 1..]).Some?
  {
    var k := FirstAt(value);
    SplitAtTheAt(value);
    LocalPatternIsDotAtom(value[..k]);
    if k < |value| {
      NoAt(value[k + 1..]);
      assert forall i :: k < i < |value| ==> value[i] == value[k + 1..][i - k - 1];
    }
  }

  /** Normalizing again changes nothing, but is refused when the codec made the
      address longer than 254 characters. */
  lemma NormalAddressIsStableIffShort(idna: Idna, value: string)
    requires NormalizeAddress(idna, value).Some?
    ensures var address := NormalizeAddress(idna, value).value;
            && (NormalizeAddress(idna, address) == Some(address) <==> |address| <= 254)
            && (Ascii(value) ==> |address| <= |value| <= 254)
  {
    var address := NormalizeAddress(idna, value).value;
    NormalAddressParts(idna, value);
    NormalDomainIsStable(idna, DomainPart(value));
    LocalPatternIsDotAtom(LocalPart(address));
    if Ascii(value) {
      AsciiDomainsAccepted(idna, DomainPart(value));
    }
  }

  // ---- An address that grows out of bounds ------------------------------------------

  lemma {:induction false} LabelsOfPart(part: string)
    requires forall i :: 0 <= i < |part| ==> part[i] != '.'
    ensures Labels(part) == [part]
  {
    if part != "" {
      LabelsOfPart(part[1..]);
      assert [part[0]] + part[1..] == part;
    }
  }

  lemma {:induction false} LabelsOfJoined(part: string, rest: string)
    requires forall i :: 0 <= i < |part| ==> part[i] != '.'
    ensures Labels(part + "." + rest) == [part] + Labels(rest)
  {
    var joined := part + "." + rest;
    if part == "" {
      assert joined[1..] == rest;
    } else {
      LabelsOfJoined(part[1..], rest);
      assert joined[1..] == part[1..] + "." + rest;
      assert [part[0]] + part[1..] == part;
    }
  }

  /** `n` times the label, with dots between. */
  function Repeated(part: string, n: nat): (r: string)
    requires n >= 1
    ensures |r| == n * |part| + (n - 1)
  {
    if n == 1 then part else part + "." + Repeated(part, n - 1)
  }

  lemma {:induction false} RepeatedHostLabels(part: string, n: nat)
    requires n >= 1 && HostLabel(part)
    ensures HostLabels(Labels(Repeated(part, n))) && |Labels(Repeated(part, n))| == n
  {
    if n == 1 {
      LabelsOfPart(part);
    } else {
      RepeatedHostLabels(part, n - 1);
      LabelsOfJoined(part, Repeated(part, n - 1));
    }
  }

  lemma {:induction false} RepeatedChars(part: string, n: nat)
    requires n >= 1 && part != ""
    ensures var r := Repeated(part, n);
            && r != "" && r[0] == part[0] && r[|r| - 1] == part[|part| - 1]
            && forall i :: 0 <= i < |r| ==> r[i] == '.' || r[i] in part
  {
    if n > 1 {
      RepeatedChars(part, n - 1);
    }
  }

  /** The label "e with acute", and its spelling in ASCII (section 4.1 of RFC 3490). */
  const ACUTE := "\U{E9}"
  const ACUTE_IN_ASCII := "xn--9ca"

  /** The codec's answer for 31 such labels. */
  const ACUTE_CODEC: Idna := (s: string) =>
    if s == Repeated(ACUTE, 31) then Some(Repeated(ACUTE_IN_ASCII, 31)) else None

  function LongLocal(): (r: string)
    ensures |r| == 64 && forall i :: 0 <= i < 64 ==> r[i] == 'a'
  {
    seq(64, _ => 'a')
  }

  lemma AccentedText(s: string, letter: char)
    requires letter as int == 0xE9 && s != "" && s[0] == letter == s[|s| - 1]
    requires forall i :: 0 <= i < |s| ==> s[i] == '.' || s[i] == letter
    ensures !Ascii(s) && PlainText(s) && TrimDots(s) == s && CountAt(s) == 0
  {
    NoAt(s);
    assert !IsSpace(letter) && !Forbidden(letter) && !Forbidden('.');
  }

  lemma AcuteText(foreign: string)
    requires foreign == Repeated(ACUTE, 31)
    ensures !Ascii(foreign) && PlainText(foreign) && TrimDots(foreign) == foreign && CountAt(foreign) == 0
  {
    RepeatedChars(ACUTE, 31);
    assert forall c :: c in ACUTE ==> c == ACUTE[0];
    AccentedText(foreign, ACUTE[0]);
  }

  lemma AcuteDomainBecomes(idna: Idna, foreign: string, name: string)
    requires foreign == Repeated(ACUTE, 31) && idna(foreign) == Some(name)
    requires HostName(name) && |Labels(name)| >= 2
    ensures NormalizeDomain(idna, foreign) == Some(name)
    ensures CountAt(foreign) == 0
  {
    AcuteText(foreign);
    HostNameText(name);
  }

  lemma AcuteNameIsHostName(name: string)
    requires name == Repeated(ACUTE_IN_ASCII, 31)
    ensures HostName(name) && |Labels(name)| == 31
  {
    assert HostLabel(ACUTE_IN_ASCII);
    RepeatedHostLabels(ACUTE_IN_ASCII, 31);
  }

  lemma LongLocalMatches()
    ensures MatchesLocalPattern(LongLocal()) && CountAt(LongLocal()) == 0
  {
    NoAt(LongLocal());
    LabelsOfPart(LongLocal());
  }

  lemma JoinedAddressBecomes(idna: Idna, local: string, domain: string, name: string)
    requires |local| <= 64 && MatchesLocalPattern(local) && CountAt(local) == 0
    requires CountAt(domain) == 0 && NormalizeDomain(idna, domain) == Some(name)
    requires |local| + 1 + |domain| <= 254
    ensures NormalizeAddress(idna, local + "@" + domain) == Some(local + "@" + name)
  {
    JoinedAddress(local, domain);
  }

  /** An address of 126 characters, its domain 31 labels of one accented letter, is
      accepted; its normal form has 312 characters and is not. */
  lemma GrownAddressIsRefused()
    ensures var value := LongLocal() + "@" + Repeated(ACUTE, 31);
            var normal := LongLocal() + "@" + Repeated(ACUTE_IN_ASCII, 31);
            && |value| == 126 && |normal| == 312
            && NormalizeAddress(ACUTE_CODEC, value) == Some(normal)
            && NormalizeAddress(ACUTE_CODEC, normal) == None
  {
    LongLocalMatches();
    GrownFrom(ACUTE_CODEC, LongLocal(), Repeated(ACUTE, 31), Repeated(ACUTE_IN_ASCII, 31));
  }

  lemma GrownFrom(idna: Idna, local: string, foreign: string, name: string)
    requires |local| == 64 && MatchesLocalPattern(local) && CountAt(local) == 0
    requires foreign == Repeated(ACUTE, 31) && name == Repeated(ACUTE_IN_ASCII, 31) && idna(foreign) == Some(name)
    ensures |local + "@" + foreign| == 126 && |local + "@" + name| == 312
    ensures NormalizeAddress(idna, local + "@" + foreign) == Some(local + "@" + name)
    ensures NormalizeAddress(idna, local + "@" + name) == None
  {
    AcuteNameIsHostName(name);
    AcuteDomainBecomes(idna, foreign, name);
    JoinedAddressBecomes(idna, local, foreign, name);
  }

  lemma AsciiAddressBecomes(idna: Idna, value: string)
    requires Ascii(value) && NormalizeAddress(idna, value).Some?
    ensures var address := NormalizeAddress(idna, value).value;
            && LocalPart(address) == LocalPart(value)
            && DomainPart(address) == Lower(TrimDots(DomainPart(value)))
            && address == LocalPart(address) + "@" + DomainPart(address)
  {
    NormalAddressParts(idna, value);
    AsciiDomainsAccepted(idna, DomainPart(value));
  }

  /** Character by character the same, or the two cases of one letter. */
  predicate AgreeUpToCase(a: string, b: string) {
    |a| == |b| && forall i :: 0 <= i < |a| ==>
      || a[i] == b[i]
      || ('A' <= a[i] <= 'Z' && 'a' <= b[i] <= 'z' && a[i] as int - 'A' as int == b[i] as int - 'a' as int)
      || ('a' <= a[i] <= 'z' && 'A' <= b[i] <= 'Z' && a[i] as int - 'a' as int == b[i] as int - 'A' as int)
  }

  lemma FoldsAgreeIff(a: string, b: string)
    ensures Lower(a) == Lower(b) <==> AgreeUpToCase(a, b)
  {
    LowerFolds(a);
    LowerFolds(b);
    if Lower(a) == Lower(b) {
      assert |a| == |Lower(a)| && |b| == |Lower(b)|;
      forall i | 0 <= i < |a|
        ensures Folds(a[i], Lower(a)[i]) && Folds(b[i], Lower(a)[i])
      {
        assert Lower(a)[i] == Lower(b)[i];
      }
    } else if AgreeUpToCase(a, b) {
      forall i | 0 <= i < |a|
        ensures Lower(a)[i] == Lower(b)[i]
      {
        assert Folds(a[i], Lower(a)[i]) && Folds(b[i], Lower(b)[i]);
      }
    }
  }

  /** Two accepted ASCII addresses share a normal form exactly when their local
      parts are equal and their domains agree up to case and trailing dots. */
  lemma SameNormalAddress(idna: Idna, a: string, b: string)
    requires Ascii(a) && Ascii(b)
    requires NormalizeAddress(idna, a).Some? && NormalizeAddress(idna, b).Some?
    ensures NormalizeAddress(idna, a) == NormalizeAddress(idna, b) <==>
            && LocalPart(a) == LocalPart(b)
            && AgreeUpToCase(TrimDots(DomainPart(a)), TrimDots(DomainPart(b)))
  {
    AsciiAddressBecomes(idna, a);
    AsciiAddressBecomes(idna, b);
    FoldsAgreeIff(TrimDots(DomainPart(a)), TrimDots(DomainPart(b)));
  }
}
