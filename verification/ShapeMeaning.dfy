/**
 The languages of the line shapes: each recogniser accepts exactly the lines of its pattern, and
 takes them apart as the pattern does.
 */
module ShapeMeaning {
  import opened Arith
  import opened TextLines

  // ---- Stretches of a line ----

  predicate Spaces(s: string, i: nat, j: nat) {
    i <= j <= |s| && forall k | i <= k < j :: IsSpace(s[k])
  }

  predicate NonSpaces(s: string, i: nat, j: nat) {
    i < j <= |s| && forall k | i <= k < j :: !IsSpace(s[k])
  }

  /** A letter, then letters, digits, `_` and `-`. */
  predicate Identifier(s: string, i: nat, j: nat) {
    i < j <= |s| && IsAlpha(s[i]) && forall k | i < k < j :: IsValueChar(s[k])
  }

  /** A lower-case letter, then lower-case letters, digits and `-`. */
  predicate FieldName(s: string, i: nat, j: nat) {
    i < j <= |s| && IsLower(s[i]) && forall k | i < k < j :: IsFieldChar(s[k])
  }

  lemma SpacesEnd(s: string, i: nat, j: nat)
    requires Spaces(s, i, j) && (j < |s| ==> !IsSpace(s[j]))
    ensures SkipSpace(s, i) == j
  {
  }

  lemma {:induction false} WordEnd(s: string, i: nat, j: nat)
    requires NonSpaces(s, i, j) && (j < |s| ==> IsSpace(s[j]))
    ensures SkipWord(s, i) == j
    decreases j - i
  {
    if i + 1 < j { WordEnd(s, i + 1, j); } else { assert SkipWord(s, j) == j; }
  }

  /** The first place of the character from `i` on. */
  lemma {:induction false} ToMeans(s: string, i: nat, c: char)
    requires i <= |s|
    ensures forall k | i <= k < SkipTo(s, i, c) :: s[k] != c
    decreases |s| - i
  {
    if i < |s| && s[i] != c { ToMeans(s, i + 1, c); }
  }

  lemma ToEnd(s: string, i: nat, c: char, e: nat)
    requires i <= e <= |s| && (e < |s| ==> s[e] == c) && forall k | i <= k < e :: s[k] != c
    ensures SkipTo(s, i, c) == e
  {
    ToMeans(s, i, c);
  }

  lemma ValueEnd(s: string, i: nat, j: nat)
    requires Identifier(s, i, j) && (j < |s| ==> !IsValueChar(s[j]))
    ensures SkipValue(s, i + 1) == j
  {
  }

  lemma FieldEnd(s: string, i: nat, j: nat)
    requires FieldName(s, i, j) && (j < |s| ==> !IsFieldChar(s[j]))
    ensures SkipField(s, i + 1) == j
  {
  }

  /** What may follow an identifier to the end of the line. */
  lemma TailEnd(s: string, i: nat)
    requires i <= |s|
    ensures Blank(s, i) <==> Spaces(s, i, |s|)
  {
  }

  // ---- `- id: NAME` ----

  /** Indent up to `a`, the name from `b` to `c`. */
  predicate IdAt(s: string, a: nat, b: nat, c: nat) {
    && Spaces(s, 0, a) && HasAt(s, a, "- id:") && Spaces(s, a + 5, b) && NonSpaces(s, b, c) && Spaces(s, c, |s|)
  }

  ghost predicate IsIdLine(s: string, indent: string) {
    exists a: nat, b: nat, c: nat :: IdAt(s, a, b, c) && indent == s[..a]
  }

  lemma IdMeans(s: string, indent: string)
    ensures MatchId(s) == Some(indent) <==> IsIdLine(s, indent)
  {
    if MatchId(s).Some? {
      var a := SkipSpace(s, 0);
      var b := SkipSpace(s, a + 5);
      assert IdAt(s, a, b, SkipWord(s, b));
    }
    forall a: nat, b: nat, c: nat | IdAt(s, a, b, c) ensures MatchId(s) == Some(s[..a]) {
      HasAtChar(s, a, "- id:", 0);
      SpacesEnd(s, 0, a);
      SpacesEnd(s, a + 5, b);
      WordEnd(s, b, c);
      TailEnd(s, c);
    }
  }

  // ---- `type: NAME` and `links:` ----

  predicate TypeAt(s: string, a: nat, b: nat, c: nat) {
    && 0 < a && Spaces(s, 0, a) && HasAt(s, a, "type:") && Spaces(s, a + 5, b) && NonSpaces(s, b, c) && Spaces(s, c, |s|)
  }

  ghost predicate IsTypeLine(s: string, indent: string, name: string) {
    exists a: nat, b: nat, c: nat :: TypeAt(s, a, b, c) && indent == s[..a] && name == s[b..c]
  }

  lemma TypeMeans(s: string, indent: string, name: string)
    ensures MatchType(s) == Some((indent, name)) <==> IsTypeLine(s, indent, name)
  {
    if MatchType(s).Some? {
      var a := SkipSpace(s, 0);
      var b := SkipSpace(s, a + 5);
      assert TypeAt(s, a, b, SkipWord(s, b));
    }
    forall a: nat, b: nat, c: nat | TypeAt(s, a, b, c) ensures MatchType(s) == Some((s[..a], s[b..c])) {
      HasAtChar(s, a, "type:", 0);
      SpacesEnd(s, 0, a);
      SpacesEnd(s, a + 5, b);
      WordEnd(s, b, c);
      TailEnd(s, c);
    }
  }

  predicate LinksAt(s: string, a: nat) {
    0 < a && Spaces(s, 0, a) && HasAt(s, a, "links:") && Spaces(s, a + 6, |s|)
  }

  ghost predicate IsLinksLine(s: string) {
    exists a: nat :: LinksAt(s, a)
  }

  lemma LinksMeans(s: string)
    ensures MatchLinksHead(s) <==> IsLinksLine(s)
  {
    if MatchLinksHead(s) { assert LinksAt(s, SkipSpace(s, 0)); }
    forall a: nat | LinksAt(s, a) ensures MatchLinksHead(s) {
      HasAtChar(s, a, "links:", 0);
      SpacesEnd(s, 0, a);
      TailEnd(s, a + 6);
    }
  }

  // ---- Fields ----

  /** An indented field: its name from `a` to `k`, what follows from `j` on. */
  predicate FieldAt(s: string, a: nat, k: nat, j: nat) {
    && 0 < a && Spaces(s, 0, a) && FieldName(s, a, k) && k < |s| && s[k] == ':' && Spaces(s, k + 1, j)
    && (j < |s| ==> !IsSpace(s[j]))
  }

  lemma FieldFound(s: string) returns (a: nat, k: nat)
    requires MatchField(s).Some?
    ensures FieldAt(s, a, k, MatchField(s).value.1) && MatchField(s).value.0 == s[a..k]
  {
    a := SkipSpace(s, 0);
    k := SkipField(s, a + 1);
  }

  lemma FieldTaken(s: string, a: nat, k: nat, j: nat)
    requires FieldAt(s, a, k, j)
    ensures MatchField(s) == Some((s[a..k], j))
  {
    SpacesEnd(s, 0, a);
    FieldEnd(s, a, k);
    SpacesEnd(s, k + 1, j);
  }

  lemma FieldMeans(s: string, field: string, j: nat)
    ensures MatchField(s) == Some((field, j)) <==> exists a: nat, k: nat :: FieldAt(s, a, k, j) && field == s[a..k]
  {
    if MatchField(s) == Some((field, j)) {
      var a, k := FieldFound(s);
    }
    forall a: nat, k: nat | FieldAt(s, a, k, j) ensures MatchField(s) == Some((s[a..k], j)) { FieldTaken(s, a, k, j); }
  }

  /** `field: VALUE`, the value an identifier that ends at `e`. */
  predicate ScalarAt(s: string, a: nat, k: nat, j: nat, e: nat) {
    FieldAt(s, a, k, j) && Identifier(s, j, e) && Spaces(s, e, |s|)
  }

  ghost predicate IsScalar(s: string, field: string, value: string) {
    exists a: nat, k: nat, j: nat, e: nat :: ScalarAt(s, a, k, j, e) && field == s[a..k] && value == s[j..e]
  }

  lemma ScalarTaken(s: string, a: nat, k: nat, j: nat, e: nat)
    requires ScalarAt(s, a, k, j, e)
    ensures MatchScalar(s) == Some((s[a..k], s[j..e]))
  {
    FieldTaken(s, a, k, j);
    ValueEnd(s, j, e);
    TailEnd(s, e);
  }

  lemma ScalarFound(s: string)
    requires MatchScalar(s).Some?
    ensures IsScalar(s, MatchScalar(s).value.0, MatchScalar(s).value.1)
  {
    var (field, j) := MatchField(s).value;
    var a, k := FieldFound(s);
    assert ScalarAt(s, a, k, j, SkipValue(s, j + 1));
  }

  lemma ScalarMeans(s: string, field: string, value: string)
    ensures MatchScalar(s) == Some((field, value)) <==> IsScalar(s, field, value)
  {
    if MatchScalar(s).Some? { ScalarFound(s); }
    if IsScalar(s, field, value) {
      var a: nat, k: nat, j: nat, e: nat :| ScalarAt(s, a, k, j, e) && field == s[a..k] && value == s[j..e];
      ScalarTaken(s, a, k, j, e);
    }
  }

  /** `field: [ITEMS]`, with the closing bracket at `e` and none before it. */
  predicate InlineAt(s: string, a: nat, k: nat, j: nat, e: nat) {
    && FieldAt(s, a, k, j) && j < e < |s| && s[j] == '[' && s[e] == ']' && (forall i | j < i < e :: s[i] != ']')
    && Spaces(s, e + 1, |s|)
  }

  ghost predicate IsInline(s: string, field: string, raw: string) {
    exists a: nat, k: nat, j: nat, e: nat :: InlineAt(s, a, k, j, e) && field == s[a..k] && raw == s[j + 1..e]
  }

  lemma InlineTaken(s: string, a: nat, k: nat, j: nat, e: nat)
    requires InlineAt(s, a, k, j, e)
    ensures MatchInline(s) == Some((s[a..k], s[j + 1..e]))
  {
    FieldTaken(s, a, k, j);
    ToEnd(s, j + 1, ']', e);
    TailEnd(s, e + 1);
  }

  lemma InlineFound(s: string)
    requires MatchInline(s).Some?
    ensures IsInline(s, MatchInline(s).value.0, MatchInline(s).value.1)
  {
    var (field, j) := MatchField(s).value;
    var a, k := FieldFound(s);
    ToMeans(s, j + 1, ']');
    assert InlineAt(s, a, k, j, SkipTo(s, j + 1, ']'));
  }

  lemma InlineMeans(s: string, field: string, raw: string)
    ensures MatchInline(s) == Some((field, raw)) <==> IsInline(s, field, raw)
  {
    if MatchInline(s).Some? { InlineFound(s); }
    if IsInline(s, field, raw) {
      var a: nat, k: nat, j: nat, e: nat :| InlineAt(s, a, k, j, e) && field == s[a..k] && raw == s[j + 1..e];
      InlineTaken(s, a, k, j, e);
    }
  }

  /** `field:` alone. */
  ghost predicate IsHead(s: string, field: string) {
    exists a: nat, k: nat :: FieldAt(s, a, k, |s|) && field == s[a..k]
  }

  lemma HeadMeans(s: string, field: string)
    ensures MatchBlockHead(s) == Some(field) <==> IsHead(s, field)
  {
    FieldMeans(s, field, |s|);
  }

  /** `- VALUE`, indented; the value from `j` to `e`. */
  predicate ItemAt(s: string, a: nat, j: nat, e: nat) {
    && 0 < a < |s| && Spaces(s, 0, a) && s[a] == '-' && a + 1 < j && Spaces(s, a + 1, j)
    && Identifier(s, j, e) && Spaces(s, e, |s|)
  }

  ghost predicate IsItem(s: string, value: string) {
    exists a: nat, j: nat, e: nat :: ItemAt(s, a, j, e) && value == s[j..e]
  }

  lemma LetterIsNoSpace(c: char)
    ensures IsValueChar(c) || c == '-' || c == '[' ==> !IsSpace(c)
  {
  }

  lemma ItemTaken(s: string, a: nat, j: nat, e: nat)
    requires ItemAt(s, a, j, e)
    ensures MatchItem(s) == Some(s[j..e])
  {
    SpacesEnd(s, 0, a);
    LetterIsNoSpace(s[j]);
    SpacesEnd(s, a + 1, j);
    ValueEnd(s, j, e);
    TailEnd(s, e);
  }

  lemma ItemFound(s: string)
    requires MatchItem(s).Some?
    ensures IsItem(s, MatchItem(s).value)
  {
    var a := SkipSpace(s, 0);
    var j := SkipSpace(s, a + 1);
    assert ItemAt(s, a, j, SkipValue(s, j + 1));
  }

  lemma ItemMeans(s: string, value: string)
    ensures MatchItem(s) == Some(value) <==> IsItem(s, value)
  {
    if MatchItem(s).Some? { ItemFound(s); }
    if IsItem(s, value) {
      var a: nat, j: nat, e: nat :| ItemAt(s, a, j, e) && value == s[j..e];
      ItemTaken(s, a, j, e);
    }
  }

  // ---- Comma lists ----

  predicate HasNo(s: string, c: char) {
    forall i | 0 <= i < |s| :: s[i] != c
  }

  /** The parts, with a comma between each two. */
  function WithCommas(parts: seq<string>): string
    requires parts != []
  {
    if |parts| == 1 then parts[0] else parts[0] + ("," + WithCommas(parts[1..]))
  }

  /** `inner` is `s` without the white space at its ends. */
  ghost predicate IsStripped(s: string, inner: string) {
    exists i: nat, j: nat :: StrippedAt(s, i, j) && inner == s[i..j]
  }

  predicate StrippedAt(s: string, i: nat, j: nat) {
    && Spaces(s, 0, i) && i <= j && Spaces(s, j, |s|)
    && (i < j ==> !IsSpace(s[i]) && !IsSpace(s[j - 1]))
  }

  lemma {:induction false} StripRightMeans(s: string) returns (j: nat)
    ensures j <= |s| && StripRight(s) == s[..j] && Spaces(s, j, |s|) && (0 < j ==> !IsSpace(s[j - 1]))
    decreases |s|
  {
    if s != [] && IsSpace(s[|s| - 1]) {
      j := StripRightMeans(s[..|s| - 1]);
    } else {
      j := |s|;
    }
  }

  lemma StripMeans(s: string)
    ensures IsStripped(s, Strip(s))
  {
    var i := SkipSpace(s, 0);
    var j := StripRightMeans(s[i..]);
    assert s[i..][..j] == s[i..i + j];
    assert forall k | i + j <= k < |s| :: s[k] == s[i..][k - i];
    assert 0 < j ==> s[i..][j - 1] == s[i + j - 1];
    assert StrippedAt(s, i, i + j);
  }

  /** The stripped parts that are not empty, in order. */
  function Kept(parts: seq<string>): seq<string> {
    if parts == [] then []
    else (if Strip(parts[0]) == [] then [] else [Strip(parts[0])]) + Kept(parts[1..])
  }

  /** The entries of a comma list are its parts, stripped, without the empty ones. */
  lemma {:induction false} ListMeans(parts: seq<string>)
    requires parts != [] && forall i | 0 <= i < |parts| :: HasNo(parts[i], ',')
    ensures ListItems(WithCommas(parts)) == Kept(parts)
  {
    var raw, first := WithCommas(parts), parts[0];
    if |parts| == 1 {
      ToEnd(raw, 0, ',', |raw|);
      assert raw[..|raw|] == raw;
      assert Kept(parts[1..]) == [];
    } else {
      var n := |first|;
      assert raw == first + ("," + WithCommas(parts[1..]));
      assert raw[n] == ',';
      ToEnd(raw, 0, ',', n);
      assert raw[..n] == first;
      assert raw[n + 1..] == WithCommas(parts[1..]);
      ListMeans(parts[1..]);
    }
  }
}
