/** Text as lines that keep their terminators, and the line shapes the migration looks for. */
module TextLines {
  import opened Arith

  // ---- Characters ----

  /** Line boundaries. Text is read with every carriage return already turned into a line feed. */
  predicate IsBreak(c: char) {
    || '\U{000A}' <= c <= '\U{000D}' || '\U{001C}' <= c <= '\U{001E}'
    || c == '\U{0085}' || c == '\U{2028}' || c == '\U{2029}'
  }

  predicate IsSpace(c: char) {
    || IsBreak(c) || c == ' ' || c == '\t' || c == '\U{001F}' || c == '\U{00A0}' || c == '\U{1680}'
    || '\U{2000}' <= c <= '\U{200A}' || c == '\U{202F}' || c == '\U{205F}' || c == '\U{3000}'
  }

  const BREAKS := "\U{000A}\U{000B}\U{000C}\U{000D}\U{001C}\U{001D}\U{001E}"
  const BLANKS := "\U{0009} \U{001F}"

  /** White space and line boundaries among the ASCII characters. */
  lemma AsciiSpaces(c: char)
    requires c <= '\U{007F}'
    ensures IsBreak(c) <==> c in BREAKS
    ensures IsSpace(c) <==> c in BREAKS || c in BLANKS
  {
  }

  predicate IsLower(c: char) {
    'a' <= c <= 'z'
  }

  predicate IsAlpha(c: char) {
    IsLower(c) || 'A' <= c <= 'Z'
  }

  predicate IsFieldChar(c: char) {
    IsLower(c) || '0' <= c <= '9' || c == '-'
  }

  predicate IsValueChar(c: char) {
    IsAlpha(c) || '0' <= c <= '9' || c == '_' || c == '-'
  }

  predicate NoBreaks(s: string) {
    forall i | 0 <= i < |s| :: !IsBreak(s[i])
  }

  // ---- Lines ----

  /** One line: only its last character may be a line boundary. */
  predicate IsLine(s: string) {
    s != [] && NoBreaks(s[..|s| - 1])
  }

  predicate Terminated(s: string) {
    s != [] && IsBreak(s[|s| - 1])
  }

  predicate AreLines(lines: seq<string>) {
    && (forall i | 0 <= i < |lines| :: IsLine(lines[i]))
    && (forall i | 0 <= i < |lines| - 1 :: Terminated(lines[i]))
  }

  function Join(lines: seq<string>): string {
    if lines == [] then [] else lines[0] + Join(lines[1..])
  }

  function FirstBreak(s: string, i: nat): (n: nat)
    requires i <= |s|
    ensures i <= n <= |s| && (forall k | i <= k < n :: !IsBreak(s[k])) && (n < |s| ==> IsBreak(s[n]))
    decreases |s| - i
  {
    if i < |s| && !IsBreak(s[i]) then FirstBreak(s, i + 1) else i
  }

  /** Splits after each line boundary and keeps it. */
  function SplitLines(s: string): (lines: seq<string>)
    decreases |s|
  {
    var n := FirstBreak(s, 0);
    if s == [] then []
    else if n == |s| then [s]
    else [s[..n + 1]] + SplitLines(s[n + 1..])
  }

  /** The line that a boundary at `n` ends. */
  lemma FirstLine(s: string, n: nat)
    requires n < |s| && FirstBreak(s, 0) == n
    ensures IsLine(s[..n + 1]) && Terminated(s[..n + 1]) && s[..n + 1] + s[n + 1..] == s
  {
    assert forall k | 0 <= k < n :: s[..n + 1][..n][k] == s[k];
  }

  lemma PutFirst(line: string, rest: seq<string>)
    requires IsLine(line) && Terminated(line) && AreLines(rest)
    ensures AreLines([line] + rest) && Join([line] + rest) == line + Join(rest)
  {
    assert ([line] + rest)[1..] == rest;
  }

  lemma {:induction false} SplitIsLines(s: string)
    ensures AreLines(SplitLines(s)) && Join(SplitLines(s)) == s
    decreases |s|
  {
    var n := FirstBreak(s, 0);
    if n < |s| {
      SplitIsLines(s[n + 1..]);
      FirstLine(s, n);
      PutFirst(s[..n + 1], SplitLines(s[n + 1..]));
    } else if s != [] {
      assert Join([s]) == s + Join([]);
    }
  }

  lemma SplitAfterLine(line: string, tail: string)
    requires IsLine(line) && Terminated(line)
    ensures SplitLines(line + tail) == [line] + SplitLines(tail)
  {
    var s, n := line + tail, |line| - 1;
    forall k | 0 <= k < n ensures !IsBreak(s[k]) { assert s[k] == line[..n][k]; }
    assert s[n] == line[n];
    assert FirstBreak(s, 0) == n;
    assert s[..n + 1] == line && s[n + 1..] == tail;
  }

  lemma SplitLastLine(line: string)
    requires IsLine(line)
    ensures SplitLines(line) == [line]
  {
    if Terminated(line) {
      SplitAfterLine(line, []);
      assert line + [] == line;
    } else {
      forall k | 0 <= k < |line| ensures !IsBreak(line[k]) {
        if k < |line| - 1 { assert line[k] == line[..|line| - 1][k]; }
      }
    }
  }

  /** Lines written one after the other are read back as the same lines. */
  lemma {:induction false} SplitOfJoin(lines: seq<string>)
    requires AreLines(lines)
    ensures SplitLines(Join(lines)) == lines
  {
    if lines != [] {
      var line, rest := lines[0], lines[1..];
      forall i | 0 <= i < |rest| - 1 ensures Terminated(rest[i]) { assert rest[i] == lines[i + 1]; }
      SplitOfJoin(rest);
      if rest == [] {
        assert line + Join(rest) == line;
        SplitLastLine(line);
      } else {
        SplitAfterLine(line, Join(rest));
      }
    }
  }

  // ---- Scanning within a line ----

  function SkipSpace(s: string, i: nat): (r: nat)
    requires i <= |s|
    ensures i <= r <= |s| && (forall k | i <= k < r :: IsSpace(s[k])) && (r < |s| ==> !IsSpace(s[r]))
    decreases |s| - i
  {
    if i < |s| && IsSpace(s[i]) then SkipSpace(s, i + 1) else i
  }

  function SkipWord(s: string, i: nat): (r: nat)
    requires i <= |s|
    ensures i <= r <= |s| && (forall k | i <= k < r :: !IsSpace(s[k]))
    decreases |s| - i
  {
    if i < |s| && !IsSpace(s[i]) then SkipWord(s, i + 1) else i
  }

  function SkipField(s: string, i: nat): (r: nat)
    requires i <= |s|
    ensures i <= r <= |s| && (forall k | i <= k < r :: IsFieldChar(s[k])) && (r < |s| ==> !IsFieldChar(s[r]))
    decreases |s| - i
  {
    if i < |s| && IsFieldChar(s[i]) then SkipField(s, i + 1) else i
  }

  function SkipValue(s: string, i: nat): (r: nat)
    requires i <= |s|
    ensures i <= r <= |s| && (forall k | i <= k < r :: IsValueChar(s[k])) && (r < |s| ==> !IsValueChar(s[r]))
    decreases |s| - i
  {
    if i < |s| && IsValueChar(s[i]) then SkipValue(s, i + 1) else i
  }

  function SkipTo(s: string, i: nat, c: char): (r: nat)
    requires i <= |s|
    ensures i <= r <= |s| && (r < |s| ==> s[r] == c)
    decreases |s| - i
  {
    if i < |s| && s[i] != c then SkipTo(s, i + 1, c) else i
  }

  predicate HasAt(s: string, i: nat, literal: string) {
    i + |literal| <= |s| && s[i..i + |literal|] == literal
  }

  lemma HasAtChar(s: string, i: nat, literal: string, k: nat)
    requires k < |literal|
    ensures HasAt(s, i, literal) ==> s[i + k] == literal[k]
  {
    if HasAt(s, i, literal) { assert s[i + k] == s[i..i + |literal|][k]; }
  }

  predicate Blank(s: string, i: nat)
    requires i <= |s|
  {
    SkipSpace(s, i) == |s|
  }

  // ---- Line shapes ----

  /** `- id: NAME`, with any indent. The result is the indent. */
  function MatchId(s: string): Option<string> {
    var i := SkipSpace(s, 0);
    if !HasAt(s, i, "- id:") then None
    else
      var j := SkipSpace(s, i + 5);
      var k := SkipWord(s, j);
      if j < k && Blank(s, k) then Some(s[..i]) else None
  }

  /** `type: NAME`, indented. The result is the indent and the name. */
  function MatchType(s: string): Option<(string, string)> {
    var i := SkipSpace(s, 0);
    if i == 0 || !HasAt(s, i, "type:") then None
    else
      var j := SkipSpace(s, i + 5);
      var k := SkipWord(s, j);
      if j < k && Blank(s, k) then Some((s[..i], s[j..k])) else None
  }

  /** `links:` alone, indented. */
  predicate MatchLinksHead(s: string) {
    var i := SkipSpace(s, 0);
    0 < i && HasAt(s, i, "links:") && Blank(s, i + 6)
  }

  /** Where the value of an indented `field:` begins, and the field's name. */
  function MatchField(s: string): Option<(string, nat)>
    ensures MatchField(s).Some? ==> MatchField(s).value.1 <= |s|
  {
    var i := SkipSpace(s, 0);
    if i == 0 || |s| <= i || !IsLower(s[i]) then None
    else
      var k := SkipField(s, i + 1);
      if k < |s| && s[k] == ':' then Some((s[i..k], SkipSpace(s, k + 1))) else None
  }

  /** `field: VALUE` with a single identifier. */
  function MatchScalar(s: string): Option<(string, string)> {
    match MatchField(s)
    case None => None
    case Some((field, j)) =>
      if j < |s| && IsAlpha(s[j]) && Blank(s, SkipValue(s, j + 1))
      then Some((field, s[j..SkipValue(s, j + 1)])) else None
  }

  /** `field: [a, b]`; the result holds the raw text between the brackets. */
  function MatchInline(s: string): Option<(string, string)> {
    match MatchField(s)
    case None => None
    case Some((field, j)) =>
      if j < |s| && s[j] == '[' && SkipTo(s, j + 1, ']') < |s| && Blank(s, SkipTo(s, j + 1, ']') + 1)
      then Some((field, s[j + 1..SkipTo(s, j + 1, ']')])) else None
  }

  /** `field:` alone, the head of a block list. */
  function MatchBlockHead(s: string): Option<string> {
    match MatchField(s)
    case None => None
    case Some((field, j)) => if j == |s| then Some(field) else None
  }

  /** `- VALUE`, indented: an item of a block list. */
  function MatchItem(s: string): Option<string> {
    var i := SkipSpace(s, 0);
    if i == 0 || |s| <= i || s[i] != '-' then None
    else
      var j := SkipSpace(s, i + 1);
      if i + 1 < j < |s| && IsAlpha(s[j]) && Blank(s, SkipValue(s, j + 1))
      then Some(s[j..SkipValue(s, j + 1)]) else None
  }

  /** Text at the left margin that is not a comment. */
  predicate TopLevel(s: string) {
    s != [] && !IsSpace(s[0]) && s[0] != '#'
  }

  /** A line that ends the block of an artifact with the given indent. */
  predicate EndsBlock(s: string, indent: string) {
    MatchId(s) == Some(indent) || TopLevel(s)
  }

  /** `- id:` after the dash there is one space, two letters and a colon, which no item has. */
  lemma IdIsNotItem(s: string, i: nat)
    requires i == SkipSpace(s, 0) && HasAt(s, i, "- id:")
    ensures MatchItem(s) == None
  {
    HasAtChar(s, i, "- id:", 1);
    HasAtChar(s, i, "- id:", 2);
    HasAtChar(s, i, "- id:", 3);
    HasAtChar(s, i, "- id:", 4);
    assert SkipSpace(s, i + 1) == i + 2;
    assert SkipValue(s, i + 3) == i + 4;
    assert !Blank(s, i + 4);
  }

  /** No such line is an item of a block list, so a list never runs past its block. */
  lemma EndIsNotItem(s: string, indent: string)
    requires EndsBlock(s, indent)
    ensures MatchItem(s) == None
  {
    if !TopLevel(s) { IdIsNotItem(s, SkipSpace(s, 0)); }
  }

  // ---- Comma lists ----

  function StripLeft(s: string): string {
    s[SkipSpace(s, 0)..]
  }

  function StripRight(s: string): string {
    if s != [] && IsSpace(s[|s| - 1]) then StripRight(s[..|s| - 1]) else s
  }

  function Strip(s: string): string {
    StripRight(StripLeft(s))
  }

  /** The non-empty entries of a comma-separated list. */
  function ListItems(raw: string): seq<string>
    decreases |raw|
  {
    var n := SkipTo(raw, 0, ',');
    var item := Strip(raw[..n]);
    (if item == [] then [] else [item]) + if n < |raw| then ListItems(raw[n + 1..]) else []
  }

  lemma {:induction false} StripRightNoBreaks(s: string)
    requires NoBreaks(s)
    ensures NoBreaks(StripRight(s))
  {
    if s != [] && IsSpace(s[|s| - 1]) { StripRightNoBreaks(s[..|s| - 1]); }
  }

  lemma StripNoBreaks(s: string)
    requires NoBreaks(s)
    ensures NoBreaks(Strip(s))
  {
    StripRightNoBreaks(StripLeft(s));
  }

  lemma {:induction false} ListItemsNoBreaks(raw: string)
    requires NoBreaks(raw)
    ensures forall i | 0 <= i < |ListItems(raw)| :: NoBreaks(ListItems(raw)[i])
    decreases |raw|
  {
    var n := SkipTo(raw, 0, ',');
    StripNoBreaks(raw[..n]);
    if n < |raw| { ListItemsNoBreaks(raw[n + 1..]); }
  }
}
