/** Token formats: the one-pass scanners of the domain and of the database, against the patterns they stand for. */
module Tokens {
  import opened Prelude

  const MAX_OPAQUE_ID_LENGTH: nat := 64
  const MAX_IDEMPOTENCY_KEY_LENGTH: nat := 128
  const MAX_CAPABILITY_LENGTH: nat := 64
  const MAX_DIAGNOSTIC_CODE_LENGTH: nat := 64
  const MAX_EVIDENCE_KIND_LENGTH: nat := 64
  const MAX_MEDIA_TYPE_LENGTH: nat := 129
  const MAX_REQUIRED_CAPABILITIES: nat := 64

  datatype FormatError = Empty | TooLong | InvalidFormat

  // ---- Pattern semantics: what a regular expression of the schema or of a CHECK constraint means.

  datatype Regex = Chars(member: char -> bool) | Then(left: Regex, right: Regex) | Star(body: Regex)

  ghost predicate Matches(r: Regex, s: string)
    decreases |s|, r
  {
    match r
    case Chars(member) => |s| == 1 && member(s[0])
    case Then(left, right) => exists k | 0 <= k <= |s| :: Matches(left, s[..k]) && Matches(right, s[k..])
    case Star(body) => s == [] || exists k | 0 < k <= |s| :: Matches(body, s[..k]) && Matches(r, s[k..])
  }

  predicate IsLower(c: char) { 'a' <= c <= 'z' }

  predicate IsDigit(c: char) { '0' <= c <= '9' }

  predicate IsAlphanumeric(c: char) { IsLower(c) || IsDigit(c) || 'A' <= c <= 'Z' }

  predicate LowerOrDigit(c: char) { IsLower(c) || IsDigit(c) }

  /** Separators of a domain token; a database capability allows only the first and the last. */
  predicate DomainSeparator(c: char) { c == '.' || c == '_' || c == ':' || c == '-' }

  predicate DatabaseSeparator(c: char) { c == '.' || c == '-' }

  predicate All(p: char -> bool, s: string) { forall i :: 0 <= i < |s| ==> p(s[i]) }

  /** `[a-z0-9]+`, preceded by one separator and repeated: `(sep[a-z0-9]+)*`. */
  ghost function Segments(separator: char -> bool): Regex {
    Star(Then(Chars(separator), Then(Chars(LowerOrDigit), Star(Chars(LowerOrDigit)))))
  }

  /** `[a-z][a-z0-9]*([._:-][a-z0-9]+)*` */
  ghost const LOWER_TOKEN: Regex :=
    Then(Chars(IsLower), Then(Star(Chars(LowerOrDigit)), Segments(DomainSeparator)))

  /** `[a-z0-9]+([.-][a-z0-9]+)*` */
  ghost const DATABASE_CAPABILITY: Regex :=
    Then(Chars(LowerOrDigit), Then(Star(Chars(LowerOrDigit)), Segments(DatabaseSeparator)))

  lemma {:induction false} StarOfChars(p: char -> bool, s: string)
    ensures Matches(Star(Chars(p)), s) <==> All(p, s)
    decreases |s|
  {
    if s != [] {
      StarOfChars(p, s[1..]);
      if All(p, s) {
        assert Matches(Chars(p), s[..1]) && Matches(Star(Chars(p)), s[1..]);
      }
      if Matches(Star(Chars(p)), s) {
        var k :| 0 < k <= |s| && Matches(Chars(p), s[..k]) && Matches(Star(Chars(p)), s[k..]);
        assert k == 1;
        forall i | 0 <= i < |s| ensures p(s[i]) {
          assert i > 0 ==> s[i] == s[1..][i - 1];
        }
      }
    }
  }

  lemma OneSegment(separator: char -> bool, s: string)
    ensures Matches(Then(Chars(separator), Then(Chars(LowerOrDigit), Star(Chars(LowerOrDigit)))), s)
            <==> |s| >= 2 && separator(s[0]) && All(LowerOrDigit, s[1..])
  {
    var run := Then(Chars(LowerOrDigit), Star(Chars(LowerOrDigit)));
    if Matches(Then(Chars(separator), run), s) {
      var k :| 0 <= k <= |s| && Matches(Chars(separator), s[..k]) && Matches(run, s[k..]);
      var t := s[k..];
      var j :| 0 <= j <= |t| && Matches(Chars(LowerOrDigit), t[..j]) && Matches(Star(Chars(LowerOrDigit)), t[j..]);
      StarOfChars(LowerOrDigit, t[j..]);
      forall i | 0 <= i < |t| ensures LowerOrDigit(t[i]) {
        assert i > 0 ==> t[i] == t[j..][i - 1];
      }
    }
    if |s| >= 2 && separator(s[0]) && All(LowerOrDigit, s[1..]) {
      var t := s[1..];
      StarOfChars(LowerOrDigit, t[1..]);
      assert Matches(Chars(LowerOrDigit), t[..1]) && Matches(Star(Chars(LowerOrDigit)), t[1..]);
      assert Matches(run, t);
      assert Matches(Chars(separator), s[..1]) && Matches(run, s[1..]);
    }
  }

  /** The scanner loop: `start` says that the next byte opens a segment. */
  predicate Scan(separator: char -> bool, s: string, start: bool) {
    if s == [] then !start
    else if separator(s[0]) then !start && Scan(separator, s[1..], true)
    else LowerOrDigit(s[0]) && Scan(separator, s[1..], false)
  }

  ghost predicate Disjoint(separator: char -> bool) {
    forall c :: separator(c) ==> !LowerOrDigit(c)
  }

  lemma {:induction false} ScanInsideSegment(separator: char -> bool, s: string)
    requires Disjoint(separator)
    ensures Scan(separator, s, false) <==> Matches(Then(Star(Chars(LowerOrDigit)), Segments(separator)), s)
    decreases |s|, 0
  {
    hide Matches;
    var more := Star(Chars(LowerOrDigit));
    var tail := Segments(separator);
    if s == [] {
      EmptyMatches(more, Then(Chars(separator), Then(Chars(LowerOrDigit), more)));
      StarOfChars(LowerOrDigit, []);
    } else if separator(s[0]) {
      ScanAtSegmentStart(separator, s[1..]);
      if Scan(separator, s, false) {
        TailFromSegment(separator, s);
        StarOfChars(LowerOrDigit, s[..0]);
        assert s[0..] == s;
        ThenFrom(more, tail, s, 0);
      }
      if Matches(Then(more, tail), s) {
        var k := ThenParts(more, tail, s);
        StarOfChars(LowerOrDigit, s[..k]);
        assert k > 0 ==> s[..k][0] == s[0];
        assert s[0..] == s;
        SegmentFromTail(separator, s);
      }
    } else {
      ScanInsideSegment(separator, s[1..]);
      if Scan(separator, s, false) { ExtendRun(more, tail, s); }
      if Matches(Then(more, tail), s) { ShortenRun(separator, s); }
    }
  }

  lemma EmptyMatches(left: Regex, body: Regex)
    requires left.Star?
    ensures Matches(Then(left, Star(body)), [])
  {
    var s: string := [];
    assert s[..0] == [] && s[0..] == [];
    assert Matches(left, s[..0]) && Matches(Star(body), s[0..]);
  }

  /** A letter or digit in front lengthens the run that the pattern starts with. */
  lemma ExtendRun(more: Regex, tail: Regex, s: string)
    requires more == Star(Chars(LowerOrDigit)) && s != [] && LowerOrDigit(s[0])
    requires Matches(Then(more, tail), s[1..])
    ensures Matches(Then(more, tail), s)
  {
    hide Matches;
    var t := s[1..];
    var k := ThenParts(more, tail, t);
    StarOfChars(LowerOrDigit, t[..k]);
    var head := s[..k + 1];
    forall i | 0 <= i < |head| ensures LowerOrDigit(head[i]) {
      assert i > 0 ==> head[i] == t[..k][i - 1];
    }
    StarOfChars(LowerOrDigit, head);
    assert s[k + 1..] == t[k..];
    ThenFrom(more, tail, s, k + 1);
  }

  lemma DropFirst(s: string, k: nat)
    requires 0 < k <= |s|
    ensures s[..k][1..] == s[1..][..k - 1] && s[k..] == s[1..][k - 1..] && s[..k][0] == s[0]
  {
  }

  lemma AllOfRest(p: char -> bool, s: string)
    requires s != [] && All(p, s)
    ensures p(s[0]) && All(p, s[1..])
  {
  }

  /** The first character, if it is no separator, belongs to the run. */
  lemma ShortenRun(separator: char -> bool, s: string)
    requires s != [] && !separator(s[0])
    requires Matches(Then(Star(Chars(LowerOrDigit)), Segments(separator)), s)
    ensures LowerOrDigit(s[0]) && Matches(Then(Star(Chars(LowerOrDigit)), Segments(separator)), s[1..])
  {
    hide Matches, All;
    var more := Star(Chars(LowerOrDigit));
    var k := ThenParts(more, Segments(separator), s);
    if k == 0 {
      NothingDropped(s);
      SegmentFromTail(separator, s);
    } else {
      StarOfChars(LowerOrDigit, s[..k]);
      AllOfRest(LowerOrDigit, s[..k]);
      DropFirst(s, k);
      StarOfChars(LowerOrDigit, s[1..][..k - 1]);
      ThenFrom(more, Segments(separator), s[1..], k - 1);
    }
  }

  lemma NothingDropped(s: string)
    ensures s[0..] == s
  {
  }

  lemma {:induction false} ScanAtSegmentStart(separator: char -> bool, s: string)
    requires Disjoint(separator)
    ensures Scan(separator, s, true) <==>
            Matches(Then(Chars(LowerOrDigit), Then(Star(Chars(LowerOrDigit)), Segments(separator))), s)
    decreases |s|, 1
  {
    var rest := Then(Star(Chars(LowerOrDigit)), Segments(separator));
    if s != [] {
      ScanInsideSegment(separator, s[1..]);
      if Scan(separator, s, true) {
        assert Matches(Chars(LowerOrDigit), s[..1]) && Matches(rest, s[1..]);
      }
      if Matches(Then(Chars(LowerOrDigit), rest), s) {
        var k :| 0 <= k <= |s| && Matches(Chars(LowerOrDigit), s[..k]) && Matches(rest, s[k..]);
        assert k == 1 && s[..1][0] == s[0];
      }
    }
  }

  // Introduction and elimination of one constructor, so that the proofs below need not unfold `Matches`.

  lemma ThenFrom(left: Regex, right: Regex, s: string, k: nat)
    requires k <= |s| && Matches(left, s[..k]) && Matches(right, s[k..])
    ensures Matches(Then(left, right), s)
  {
  }

  lemma StarFrom(body: Regex, s: string, k: nat)
    requires 0 < k <= |s| && Matches(body, s[..k]) && Matches(Star(body), s[k..])
    ensures Matches(Star(body), s)
  {
  }

  lemma ThenParts(left: Regex, right: Regex, s: string) returns (k: nat)
    requires Matches(Then(left, right), s)
    ensures k <= |s| && Matches(left, s[..k]) && Matches(right, s[k..])
  {
    k :| 0 <= k <= |s| && Matches(left, s[..k]) && Matches(right, s[k..]);
  }

  lemma StarParts(body: Regex, s: string) returns (k: nat)
    requires Matches(Star(body), s) && s != []
    ensures 0 < k <= |s| && Matches(body, s[..k]) && Matches(Star(body), s[k..])
  {
    k :| 0 < k <= |s| && Matches(body, s[..k]) && Matches(Star(body), s[k..]);
  }

  lemma CharMatches(p: char -> bool, s: string)
    ensures Matches(Chars(p), s) <==> |s| == 1 && p(s[0])
  {
  }

  /** A separator followed by a segment and a tail is again a tail. */
  lemma TailFromSegment(separator: char -> bool, s: string)
    requires s != [] && separator(s[0])
    requires Matches(Then(Chars(LowerOrDigit), Then(Star(Chars(LowerOrDigit)), Segments(separator))), s[1..])
    ensures Matches(Segments(separator), s)
  {
    hide Matches;
    var more := Star(Chars(LowerOrDigit));
    var tail := Segments(separator);
    var t := s[1..];
    var j := ThenParts(Chars(LowerOrDigit), Then(more, tail), t);
    CharMatches(LowerOrDigit, t[..j]);
    var u := t[1..];
    var k := ThenParts(more, tail, u);
    StarOfChars(LowerOrDigit, u[..k]);
    var run := s[..k + 2][1..];
    forall i | 0 <= i < |run| ensures LowerOrDigit(run[i]) {
      if i == 0 {
        assert run[0] == t[..1][0];
      } else {
        assert run[i] == u[..k][i - 1];
      }
    }
    OneSegment(separator, s[..k + 2]);
    assert s[k + 2..] == u[k..];
    StarFrom(Then(Chars(separator), Then(Chars(LowerOrDigit), more)), s, k + 2);
  }

  lemma SegmentFromTail(separator: char -> bool, s: string)
    requires s != [] && Matches(Segments(separator), s)
    ensures separator(s[0])
    ensures Matches(Then(Chars(LowerOrDigit), Then(Star(Chars(LowerOrDigit)), Segments(separator))), s[1..])
  {
    hide Matches;
    var more := Star(Chars(LowerOrDigit));
    var tail := Segments(separator);
    var k := StarParts(Then(Chars(separator), Then(Chars(LowerOrDigit), more)), s);
    OneSegment(separator, s[..k]);
    assert s[..k][0] == s[0];
    var t := s[1..];
    var u := t[1..];
    var run := u[..k - 2];
    forall i | 0 <= i < |run| ensures LowerOrDigit(run[i]) {
      assert run[i] == s[..k][1..][i + 1];
    }
    StarOfChars(LowerOrDigit, u[..k - 2]);
    assert u[k - 2..] == s[k..];
    ThenFrom(more, tail, u, k - 2);
    assert t[..1][0] == s[..k][1..][0];
    CharMatches(LowerOrDigit, t[..1]);
    ThenFrom(Chars(LowerOrDigit), Then(more, tail), t, 1);
  }

  // ---- The domain scanner.

  /** What `validate_lower_token` accepts once the length is in bounds. */
  predicate LowerToken(s: string) {
    s != [] && !IsDigit(s[0]) && Scan(DomainSeparator, s, true)
  }

  lemma LowerTokenIsGrammar(s: string)
    ensures LowerToken(s) <==> Matches(LOWER_TOKEN, s)
  {
    var rest := Then(Star(Chars(LowerOrDigit)), Segments(DomainSeparator));
    if s != [] {
      ScanInsideSegment(DomainSeparator, s[1..]);
      if LowerToken(s) {
        assert Matches(Chars(IsLower), s[..1]) && Matches(rest, s[1..]);
      }
      if Matches(LOWER_TOKEN, s) {
        var k :| 0 <= k <= |s| && Matches(Chars(IsLower), s[..k]) && Matches(rest, s[k..]);
        assert k == 1 && s[..1][0] == s[0];
      }
    }
  }

  /** The scanner as written: the leading-digit test compares the byte with the first byte of the value. */
  method ValidateLowerToken(value: string, maximum: nat) returns (r: Result<(), FormatError>)
    ensures r.Ok? <==> 1 <= |value| <= maximum && Matches(LOWER_TOKEN, value)
    ensures value == [] ==> r == Err(Empty)
    ensures |value| > maximum && value != [] ==> r == Err(TooLong)
  {
    LowerTokenIsGrammar(value);
    if value == [] {
      return Err(Empty);
    }
    if |value| > maximum {
      return Err(TooLong);
    }
    var segmentStart := true;
    for i := 0 to |value|
      invariant segmentStart <==> i == 0 || DomainSeparator(value[i - 1])
      invariant i > 0 ==> !IsDigit(value[0])
      invariant Scan(DomainSeparator, value, true) == Scan(DomainSeparator, value[i..], segmentStart)
    {
      var byte := value[i];
      assert value[i..][1..] == value[i + 1..];
      if DomainSeparator(byte) {
        if segmentStart {
          return Err(InvalidFormat);
        }
        segmentStart := true;
      } else if LowerOrDigit(byte) {
        if segmentStart && IsDigit(byte) && value[0] == byte {
          return Err(InvalidFormat);
        }
        segmentStart := false;
      } else {
        return Err(InvalidFormat);
      }
    }
    if segmentStart {
      return Err(InvalidFormat);
    }
    return Ok(());
  }

  // ---- The remaining parsers of the domain values.

  predicate OpaqueTail(c: char) { IsAlphanumeric(c) || DomainSeparator(c) }

  predicate ValidOpaque(s: string, maximum: nat) {
    1 <= |s| <= maximum && IsAlphanumeric(s[0]) && All(OpaqueTail, s[1..])
  }

  predicate ValidId(id: Id) { ValidOpaque(id.text, MAX_OPAQUE_ID_LENGTH) }

  predicate ValidKey(key: Id) { ValidOpaque(key.text, MAX_IDEMPOTENCY_KEY_LENGTH) }

  predicate ValidCapability(s: string) { |s| <= MAX_CAPABILITY_LENGTH && LowerToken(s) }

  predicate ValidEvidenceKind(s: string) { |s| <= MAX_EVIDENCE_KIND_LENGTH && LowerToken(s) }

  predicate HexDigit(c: char) { IsDigit(c) || 'a' <= c <= 'f' }

  predicate ValidDigest(s: string) {
    |s| == 71 && s[..7] == "sha256:" && All(HexDigit, s[7..])
  }

  predicate MediaTypeChar(c: char) {
    IsAlphanumeric(c) || c in {'!', '#', '$', '&', '^', '_', '.', '+', '-'}
  }

  /** `split_once('/')`: the first slash divides the value. */
  predicate ValidMediaType(s: string) {
    |s| <= MAX_MEDIA_TYPE_LENGTH &&
    exists k :: 0 <= k < |s| && s[k] == '/' && 1 <= k <= 64 && 1 <= |s| - k - 1 <= 64 &&
      All(MediaTypeChar, s[..k]) && All(MediaTypeChar, s[k + 1..])
  }

  predicate DiagnosticCodeChar(c: char) { 'A' <= c <= 'Z' || IsDigit(c) || c == '_' }

  predicate ValidDiagnosticCode(s: string) {
    1 <= |s| <= MAX_DIAGNOSTIC_CODE_LENGTH && 'A' <= s[0] <= 'Z' && All(DiagnosticCodeChar, s)
  }

  // ---- The capability check of the database.

  /** The condition of `evaluation_tasks_required_capabilities_valid`. */
  ghost predicate DatabaseAccepts(capabilities: seq<string>) {
    1 <= |capabilities| <= MAX_REQUIRED_CAPABILITIES &&
    (forall c :: c in capabilities ==> |c| <= MAX_CAPABILITY_LENGTH && Matches(DATABASE_CAPABILITY, c)) &&
    StrictlyIncreasing(capabilities)
  }

  /** `openoj_valid_required_capabilities`: one pass that remembers the previous entry. */
  method ValidRequiredCapabilities(capabilities: seq<string>) returns (valid: bool)
    ensures valid <==> DatabaseAccepts(capabilities)
  {
    if !(1 <= |capabilities| <= MAX_REQUIRED_CAPABILITIES) {
      return false;
    }
    var previous: Option<string> := None;
    for i := 0 to |capabilities|
      invariant previous == if i == 0 then None else Some(capabilities[i - 1])
      invariant forall k :: 0 <= k < i ==>
        |capabilities[k]| <= MAX_CAPABILITY_LENGTH && Matches(DATABASE_CAPABILITY, capabilities[k])
      invariant forall k :: 0 < k < i ==> LexLess(capabilities[k - 1], capabilities[k])
    {
      var capability := capabilities[i];
      ScanAtSegmentStart(DatabaseSeparator, capability);
      if previous.Some? {
        LexTotal(previous.value, capability);
        if LexLess(previous.value, capability) { LexAsymmetric(previous.value, capability); }
      }
      LexIrreflexive(capability);
      if !Scan(DatabaseSeparator, capability, true) || |capability| > MAX_CAPABILITY_LENGTH
         || (previous.Some? && (capability == previous.value || LexLess(capability, previous.value))) {
        return false;
      }
      previous := Some(capability);
    }
    return true;
  }

  lemma {:induction false} ScanAgrees(s: string, start: bool)
    ensures Scan(DatabaseSeparator, s, start) <==>
            Scan(DomainSeparator, s, start) && '_' !in s && ':' !in s
  {
    if s != [] {
      ScanAgrees(s[1..], true);
      ScanAgrees(s[1..], false);
      assert s == [s[0]] + s[1..];
    }
  }

  /** A capability list that the domain accepts is refused by the database unless it is non-empty, sorted and free
      of the two separators that only the domain knows. */
  lemma DatabaseAcceptsIff(capabilities: seq<string>)
    requires |capabilities| <= 32
    requires forall c :: c in capabilities ==> ValidCapability(c)
    ensures DatabaseAccepts(capabilities) <==>
            capabilities != [] && StrictlyIncreasing(capabilities) &&
            forall c :: c in capabilities ==> '_' !in c && ':' !in c
  {
    forall c | c in capabilities
      ensures Matches(DATABASE_CAPABILITY, c) <==> '_' !in c && ':' !in c
    {
      ScanAtSegmentStart(DatabaseSeparator, c);
      ScanAgrees(c, true);
    }
  }

  /** Three lists of capabilities that the domain accepts and the database refuses. */
  lemma DatabaseRefusesDomainCapabilities()
    ensures ValidCapability("a_b") && !DatabaseAccepts(["a_b"])
    ensures ValidCapability("b") && ValidCapability("a") && !DatabaseAccepts(["b", "a"])
    ensures !DatabaseAccepts([])
  {
    var t := "a_b";
    assert t[1..] == "_b" && t[1..][1..] == "b" && t[1..][1..][1..] == "";
    assert Scan(DomainSeparator, t[1..], false);
    assert Scan(DomainSeparator, t, true);
    DatabaseAcceptsIff([t]);
    assert t in [t] && '_' in t;
    var b := "b";
    var a := "a";
    assert Scan(DomainSeparator, b[1..], false) && Scan(DomainSeparator, a[1..], false);
    assert !LexLess([b, a][0], [b, a][1]);
  }
}
