/** The remaining token parsers against the patterns of the schema, whose character classes are written out. */
module TokenPatterns {
  import opened Prelude
  import opened Tokens

  // ---- The classes `[A-Za-z0-9]`, `[A-Za-z0-9._:-]`, `[A-Z]`, `[A-Z0-9_]`, `[0-9a-f]` and `[A-Za-z0-9!#$&^_.+-]`.

  predicate Alphanumeric(c: char) { 'A' <= c <= 'Z' || 'a' <= c <= 'z' || '0' <= c <= '9' }

  predicate NameChar(c: char) { Alphanumeric(c) || c in {'.', '_', ':', '-'} }

  predicate Upper(c: char) { 'A' <= c <= 'Z' }

  predicate CodeChar(c: char) { 'A' <= c <= 'Z' || '0' <= c <= '9' || c == '_' }

  predicate Hex(c: char) { '0' <= c <= '9' || 'a' <= c <= 'f' }

  predicate MediaChar(c: char) { Alphanumeric(c) || c in {'!', '#', '$', '&', '^', '_', '.', '+', '-'} }

  /** A first character and then any number of others: `[first][rest]*`. */
  ghost function HeadAndRest(first: char -> bool, rest: char -> bool): Regex {
    Then(Chars(first), Star(Chars(rest)))
  }

  lemma HeadAndRestMatches(first: char -> bool, rest: char -> bool, s: string)
    ensures Matches(HeadAndRest(first, rest), s) <==>
            s != [] && first(s[0]) && forall i :: 1 <= i < |s| ==> rest(s[i])
  {
    if s != [] {
      assert forall i :: 1 <= i < |s| ==> s[i] == s[1..][i - 1];
      StarOfChars(rest, s[1..]);
      if first(s[0]) && forall i :: 1 <= i < |s| ==> rest(s[i]) {
        assert Matches(Chars(first), s[..1]) && Matches(Star(Chars(rest)), s[1..]);
      }
      if Matches(HeadAndRest(first, rest), s) {
        var k := ThenParts(Chars(first), Star(Chars(rest)), s);
        assert k == 1 && s[..1][0] == s[0];
      }
    }
  }

  /** Identifiers, keys, nodes and operations: `[A-Za-z0-9][A-Za-z0-9._:-]*` up to 64 or 128 characters. */
  lemma OpaqueIsPattern(s: string)
    ensures ValidId(Id(s)) <==> |s| <= 64 && Matches(HeadAndRest(Alphanumeric, NameChar), s)
    ensures ValidKey(Id(s)) <==> |s| <= 128 && Matches(HeadAndRest(Alphanumeric, NameChar), s)
  {
    hide Matches;
    HeadAndRestMatches(Alphanumeric, NameChar, s);
    if s != [] { assert forall i :: 1 <= i < |s| ==> s[i] == s[1..][i - 1]; }
  }

  /** Diagnostic codes: `[A-Z][A-Z0-9_]*` up to 64 characters. */
  lemma DiagnosticCodeIsPattern(s: string)
    ensures ValidDiagnosticCode(s) <==> |s| <= 64 && Matches(HeadAndRest(Upper, CodeChar), s)
  {
    hide Matches;
    HeadAndRestMatches(Upper, CodeChar, s);
  }

  /** Digests: `sha256:[0-9a-f]{64}`. */
  lemma DigestIsPattern(s: string)
    ensures ValidDigest(s) <==> exists hex :: s == "sha256:" + hex && |hex| == 64 && Matches(Star(Chars(Hex)), hex)
  {
    hide Matches;
    if ValidDigest(s) {
      StarOfChars(Hex, s[7..]);
      assert s == "sha256:" + s[7..];
    }
    if hex :| s == "sha256:" + hex && |hex| == 64 && Matches(Star(Chars(Hex)), hex) {
      StarOfChars(Hex, hex);
      assert s[7..] == hex && s[..7] == "sha256:";
    }
  }

  /** One side of a media type, as the parser takes it. */
  predicate MediaPart(part: string) {
    1 <= |part| <= 64 && forall i :: 0 <= i < |part| ==> MediaChar(part[i])
  }

  /** One side of a media type, as the schema wants it: `[A-Za-z0-9][A-Za-z0-9!#$&^_.+-]{0,63}`. */
  ghost predicate SchemaPart(part: string) {
    |part| <= 64 && Matches(HeadAndRest(Alphanumeric, MediaChar), part)
  }

  /** The parser takes two parts around the first slash. */
  lemma MediaTypeParts(top: string, sub: string)
    requires '/' !in top
    ensures ValidMediaType(top + "/" + sub) <==> MediaPart(top) && MediaPart(sub)
  {
    var s := top + "/" + sub;
    assert s[..|top|] == top && s[|top| + 1..] == sub && s[|top|] == '/';
    assert forall k :: |top| < k < |s| ==> s[..k][|top|] == '/';
  }

  /** Of the media types that the parser takes, the schema accepts exactly those whose parts both begin with a letter or
      digit; so there are values that the domain parses and the schema refuses. */
  lemma MediaTypeBeyondSchema(top: string, sub: string)
    requires '/' !in top && ValidMediaType(top + "/" + sub)
    ensures top != [] && sub != []
    ensures SchemaPart(top) && SchemaPart(sub) <==> Alphanumeric(top[0]) && Alphanumeric(sub[0])
    ensures ValidMediaType("!/plain") && !SchemaPart("!")
  {
    hide Matches, ValidMediaType;
    MediaTypeParts(top, sub);
    HeadAndRestMatches(Alphanumeric, MediaChar, top);
    HeadAndRestMatches(Alphanumeric, MediaChar, sub);
    HeadAndRestMatches(Alphanumeric, MediaChar, "!");
    assert "!" + "/" + "plain" == "!/plain";
    MediaTypeParts("!", "plain");
  }
}
