/**
 Migration of shorthand fields to `links:` blocks, over the text of a document: each artifact
 that uses mapped shorthand fields and has no `links:` block yet gets one after its `type:` line.
 */
module StpaMigration {
  import opened Arith
  import opened TextLines

  /** Link types by artifact type and shorthand field, and the fields that carry lists. */
  datatype Rules = Rules(links: map<(string, string), string>, lists: set<string>)

  /** Link types are written on lines of their own. */
  predicate Clean(rules: Rules) {
    forall k | k in rules.links :: NoBreaks(rules.links[k])
  }

  /** A link type and the identifier it points to. */
  type Link = (string, string)

  // ---- Collecting links from a block of lines ----

  function Tag(linkType: string, targets: seq<string>): (r: seq<Link>)
    ensures |r| == |targets| && forall i {:trigger r[i]} | 0 <= i < |r| :: r[i] == (linkType, targets[i])
  {
    seq(|targets|, i requires 0 <= i < |targets| => (linkType, targets[i]))
  }

  /** What the scan of an artifact wants to know about a line. */
  datatype Shape = Shape(
    asType: Option<(string, string)>,
    linksHead: bool,
    scalar: Option<(string, string)>,
    inline: Option<(string, seq<string>)>,
    listHead: Option<string>,
    item: Option<string>)

  function InlineItems(line: string): Option<(string, seq<string>)> {
    match MatchInline(line)
    case Some((field, raw)) => Some((field, ListItems(raw)))
    case None => None
  }

  function Classify(line: string): Shape {
    Shape(MatchType(line), MatchLinksHead(line), MatchScalar(line), InlineItems(line), MatchBlockHead(line), MatchItem(line))
  }

  function Shapes(lines: seq<string>): (r: seq<Shape>)
    ensures |r| == |lines| && forall i {:trigger r[i]} | 0 <= i < |r| :: r[i] == Classify(lines[i])
  {
    seq(|lines|, i requires 0 <= i < |lines| => Classify(lines[i]))
  }

  /** The items of a block list that starts at line `j`. */
  function ItemsFrom(shapes: seq<Shape>, j: nat): seq<string>
    decreases |shapes| - j
  {
    if j < |shapes| && shapes[j].item.Some? then [shapes[j].item.value] + ItemsFrom(shapes, j + 1) else []
  }

  function ScalarLinks(rules: Rules, artifact: string, shape: Shape): seq<Link> {
    match shape.scalar
    case Some((field, target)) =>
      if field !in rules.lists && (artifact, field) in rules.links then [(rules.links[(artifact, field)], target)] else []
    case None => []
  }

  function InlineLinks(rules: Rules, artifact: string, shape: Shape): seq<Link> {
    match shape.inline
    case Some((field, items)) =>
      if (artifact, field) in rules.links then Tag(rules.links[(artifact, field)], items) else []
    case None => []
  }

  function BlockLinks(rules: Rules, artifact: string, shape: Shape, items: seq<string>): seq<Link> {
    match shape.listHead
    case Some(field) =>
      if (artifact, field) in rules.links then Tag(rules.links[(artifact, field)], items) else []
    case None => []
  }

  /** The links of one line, given the list items that follow it. */
  function LineLinks(rules: Rules, artifact: string, shape: Shape, items: seq<string>): seq<Link> {
    ScalarLinks(rules, artifact, shape) + InlineLinks(rules, artifact, shape) + BlockLinks(rules, artifact, shape, items)
  }

  /** What has been seen of an artifact: its type line and type, whether it has links, its shorthand. */
  datatype Scan = Scan(typeLine: Option<nat>, artifact: string, hasLinks: bool, collected: seq<Link>)

  /** Line `i`, with the list items that follow it. */
  function ScanLine(rules: Rules, shape: Shape, items: seq<string>, i: nat, scan: Scan): Scan {
    if scan.typeLine == None && shape.asType.Some? then
      scan.(typeLine := Some(i), artifact := shape.asType.value.1)
    else
      scan.(hasLinks := scan.hasLinks || shape.linksHead,
            collected := scan.collected + if scan.typeLine == None then [] else LineLinks(rules, scan.artifact, shape, items))
  }

  /** The scan of the lines `lo .. hi` (exclusive). */
  function ScanLines(rules: Rules, shapes: seq<Shape>, lo: nat, hi: nat): Scan
    requires hi <= |shapes|
    decreases hi
  {
    if hi <= lo then Scan(None, "", false, [])
    else ScanLine(rules, shapes[hi - 1], ItemsFrom(shapes, hi), hi - 1, ScanLines(rules, shapes, lo, hi - 1))
  }

  // ---- Writing a block ----

  /** A line of the output: taken over from the input, or inserted. */
  datatype Piece = Kept(line: string) | New(line: string)

  function Keep(lines: seq<string>): (r: seq<Piece>)
    ensures |r| == |lines| && forall i {:trigger r[i]} | 0 <= i < |r| :: r[i] == Kept(lines[i])
  {
    seq(|lines|, i requires 0 <= i < |lines| => Kept(lines[i]))
  }

  function Fresh(lines: seq<string>): (r: seq<Piece>)
    ensures |r| == |lines| && forall i {:trigger r[i]} | 0 <= i < |r| :: r[i] == New(lines[i])
  {
    seq(|lines|, i requires 0 <= i < |lines| => New(lines[i]))
  }

  function Texts(pieces: seq<Piece>): (r: seq<string>)
    ensures |r| == |pieces| && forall i {:trigger r[i]} | 0 <= i < |r| :: r[i] == pieces[i].line
  {
    seq(|pieces|, i requires 0 <= i < |pieces| => pieces[i].line)
  }

  function LinkLines(indent: string, links: seq<Link>): seq<string> {
    if links == [] then []
    else
      var (linkType, target) := links[|links| - 1];
      LinkLines(indent, links[..|links| - 1]) +
      [indent + "- type: " + linkType + "\n", indent + "  target: " + target + "\n"]
  }

  /** The inserted block, at the indent of the type line. */
  function Built(indent: string, links: seq<Link>): seq<string> {
    [indent + "links:\n"] + LinkLines(indent + "  ", links)
  }

  function BlockScan(rules: Rules, block: seq<string>): Scan {
    ScanLines(rules, Shapes(block), 1, |block|)
  }

  predicate Inserts(scan: Scan) {
    scan.collected != [] && !scan.hasLinks && scan.typeLine.Some?
  }

  /** Every link is collected from a line after the type line. */
  lemma {:induction false} ScanFindsType(rules: Rules, shapes: seq<Shape>, lo: nat, hi: nat)
    requires hi <= |shapes|
    ensures var scan := ScanLines(rules, shapes, lo, hi);
      && (scan.typeLine.Some? ==>
            lo <= scan.typeLine.value < hi && shapes[scan.typeLine.value].asType.Some?
            && scan.artifact == shapes[scan.typeLine.value].asType.value.1)
      && (scan.collected != [] ==> scan.typeLine.Some? && scan.typeLine.value < hi - 1)
    decreases hi
  {
    if lo < hi { ScanFindsType(rules, shapes, lo, hi - 1); }
  }

  lemma {:induction false} ScanMissesType(rules: Rules, shapes: seq<Shape>, lo: nat, hi: nat)
    requires hi <= |shapes| && ScanLines(rules, shapes, lo, hi).typeLine == None
    ensures forall k | lo <= k < hi :: shapes[k].asType == None
    decreases hi
  {
    if lo < hi { ScanMissesType(rules, shapes, lo, hi - 1); }
  }

  lemma {:induction false} ScanFindsLinks(rules: Rules, shapes: seq<Shape>, lo: nat, hi: nat) returns (k: nat)
    requires hi <= |shapes| && ScanLines(rules, shapes, lo, hi).hasLinks
    ensures lo <= k < hi && shapes[k].linksHead
    decreases hi
  {
    if ScanLines(rules, shapes, lo, hi - 1).hasLinks {
      k := ScanFindsLinks(rules, shapes, lo, hi - 1);
    } else {
      k := hi - 1;
    }
  }

  lemma {:induction false} ScanSeesLinks(rules: Rules, shapes: seq<Shape>, lo: nat, hi: nat, k: nat)
    requires lo <= k < hi <= |shapes| && shapes[k].linksHead && shapes[k].asType == None
    ensures ScanLines(rules, shapes, lo, hi).hasLinks
    decreases hi
  {
    if k < hi - 1 { ScanSeesLinks(rules, shapes, lo, hi - 1, k); }
  }

  /** The scan of a block, read back in terms of its lines. */
  lemma BlockScanMeans(rules: Rules, block: seq<string>)
    ensures var scan := BlockScan(rules, block);
      && (scan.typeLine.Some? ==>
            1 <= scan.typeLine.value < |block| && MatchType(block[scan.typeLine.value]).Some?
            && scan.artifact == MatchType(block[scan.typeLine.value]).value.1)
      && (scan.collected != [] ==> scan.typeLine.Some? && scan.typeLine.value < |block| - 1)
      && (scan.typeLine == None ==> forall k | 1 <= k < |block| :: MatchType(block[k]) == None)
      && (scan.hasLinks <==> exists k | 1 <= k < |block| :: MatchLinksHead(block[k]))
  {
    var shapes := Shapes(block);
    ScanFindsType(rules, shapes, 1, |block|);
    if BlockScan(rules, block).typeLine == None {
      ScanMissesType(rules, shapes, 1, |block|);
      forall k | 1 <= k < |block| ensures MatchType(block[k]) == None { assert shapes[k].asType == None; }
    }
    if BlockScan(rules, block).hasLinks {
      var k := ScanFindsLinks(rules, shapes, 1, |block|);
      assert MatchLinksHead(block[k]);
    }
    forall k | 1 <= k < |block| && MatchLinksHead(block[k]) ensures BlockScan(rules, block).hasLinks {
      LinksHeadIsNotType(block[k]);
      ScanSeesLinks(rules, shapes, 1, |block|, k);
    }
  }

  lemma LinksHeadIsNotType(line: string)
    ensures MatchLinksHead(line) ==> MatchType(line) == None
  {
    var i := SkipSpace(line, 0);
    HasAtChar(line, i, "links:", 0);
    HasAtChar(line, i, "type:", 0);
  }

  /** The scan points at a type line of the block. */
  predicate PointsInto(scan: Scan, block: seq<string>) {
    scan.typeLine.Some? ==> scan.typeLine.value < |block| && MatchType(block[scan.typeLine.value]).Some?
  }

  /** A block with `built` put in after line `t`. */
  function Splice(block: seq<string>, t: nat, built: seq<string>): seq<Piece>
    requires t < |block|
  {
    Keep(block[..t + 1]) + Fresh(built) + Keep(block[t + 1..])
  }

  function EmitWith(block: seq<string>, scan: Scan): seq<Piece>
    requires PointsInto(scan, block)
  {
    if !Inserts(scan) then Keep(block)
    else
      var t := scan.typeLine.value;
      Splice(block, t, Built(MatchType(block[t]).value.0, scan.collected))
  }

  function EmitBlock(rules: Rules, block: seq<string>): seq<Piece> {
    BlockScanMeans(rules, block);
    EmitWith(block, BlockScan(rules, block))
  }

  function BlockCount(rules: Rules, block: seq<string>): nat {
    var scan := BlockScan(rules, block);
    if Inserts(scan) then |scan.collected| else 0
  }

  // ---- Documents ----

  /** The number of leading lines that do not end the block. */
  function BlockLength(lines: seq<string>, indent: string): (n: nat)
    ensures n <= |lines| && (forall k | 0 <= k < n :: !EndsBlock(lines[k], indent))
    ensures n < |lines| ==> EndsBlock(lines[n], indent)
  {
    if lines == [] || EndsBlock(lines[0], indent) then 0 else 1 + BlockLength(lines[1..], indent)
  }

  function Pieces(rules: Rules, lines: seq<string>): seq<Piece>
    decreases |lines|
  {
    if lines == [] then []
    else match MatchId(lines[0])
      case None => [Kept(lines[0])] + Pieces(rules, lines[1..])
      case Some(indent) =>
        var n := 1 + BlockLength(lines[1..], indent);
        EmitBlock(rules, lines[..n]) + Pieces(rules, lines[n..])
  }

  function Count(rules: Rules, lines: seq<string>): nat
    decreases |lines|
  {
    if lines == [] then 0
    else match MatchId(lines[0])
      case None => Count(rules, lines[1..])
      case Some(indent) =>
        var n := 1 + BlockLength(lines[1..], indent);
        BlockCount(rules, lines[..n]) + Count(rules, lines[n..])
  }

  /** The lines that are emitted together: a block, or one line outside any block. */
  function HeadLength(lines: seq<string>): (n: nat)
    requires lines != []
    ensures 1 <= n <= |lines|
  {
    match MatchId(lines[0])
    case None => 1
    case Some(indent) => 1 + BlockLength(lines[1..], indent)
  }

  function Head(rules: Rules, lines: seq<string>): seq<Piece>
    requires lines != []
  {
    if MatchId(lines[0]) == None then [Kept(lines[0])] else EmitBlock(rules, lines[..HeadLength(lines)])
  }

  lemma HeadFirst(rules: Rules, lines: seq<string>)
    requires lines != []
    ensures Pieces(rules, lines) == Head(rules, lines) + Pieces(rules, lines[HeadLength(lines)..])
  {
  }

  /** The migrated text and the number of links inserted. */
  function Migrate(rules: Rules, text: string): (string, nat) {
    (Join(Texts(Pieces(rules, SplitLines(text)))), Count(rules, SplitLines(text)))
  }

  // ---- Inserted lines ----

  predicate Indent(s: string) {
    s != [] && NoBreaks(s) && forall i | 0 <= i < |s| :: IsSpace(s[i])
  }

  /** Text that follows an indent, seen by the scanners. */
  lemma SkipIndent(indent: string, rest: string)
    requires (forall i | 0 <= i < |indent| :: IsSpace(indent[i])) && rest != [] && !IsSpace(rest[0])
    ensures SkipSpace(indent + rest, 0) == |indent|
  {
    var s := indent + rest;
    assert s[|indent|] == rest[0];
    assert forall k | 0 <= k < |indent| :: s[k] == indent[k];
  }

  lemma LinksHeadLine(indent: string)
    requires Indent(indent)
    ensures MatchLinksHead(indent + "links:\n")
  {
    var s := indent + "links:\n";
    SkipIndent(indent, "links:\n");
    assert s[|indent|..|indent| + 6] == "links:";
    assert s[|indent| + 6] == '\n';
  }

  /** An indented line that does not read `- id:` after its indent stays inside its block. */
  lemma InsideBlock(indent: string, rest: string, outer: string)
    requires Indent(indent) && 3 <= |rest| && !IsSpace(rest[0]) && (rest[0] != '-' || rest[2] != 'i')
    ensures !EndsBlock(indent + rest, outer)
  {
    var s := indent + rest;
    SkipIndent(indent, rest);
    assert s[0] == indent[0];
    assert s[|indent|] == rest[0] && s[|indent| + 2] == rest[2];
    HasAtChar(s, |indent|, "- id:", 0);
    HasAtChar(s, |indent|, "- id:", 2);
  }

  lemma OneLine(body: string)
    requires NoBreaks(body)
    ensures IsLine(body + "\n") && Terminated(body + "\n")
  {
    assert (body + "\n")[..|body|] == body;
  }

  predicate CleanLinks(links: seq<Link>) {
    forall i | 0 <= i < |links| :: NoBreaks(links[i].0) && NoBreaks(links[i].1)
  }

  /** A line that belongs to an artifact's block wherever it is put, and stands on its own. */
  ghost predicate Insertable(line: string) {
    IsLine(line) && Terminated(line) && forall outer: string :: !EndsBlock(line, outer)
  }

  lemma TypeLine(indent: string, linkType: string)
    requires Indent(indent) && NoBreaks(linkType)
    ensures Insertable(indent + "- type: " + linkType + "\n")
  {
    OneLine(indent + "- type: " + linkType);
    assert indent + ("- type: " + linkType + "\n") == indent + "- type: " + linkType + "\n";
    forall outer: string ensures !EndsBlock(indent + "- type: " + linkType + "\n", outer) {
      InsideBlock(indent, "- type: " + linkType + "\n", outer);
    }
  }

  lemma TargetLine(indent: string, target: string)
    requires Indent(indent) && NoBreaks(target)
    ensures Insertable(indent + "  target: " + target + "\n")
  {
    OneLine(indent + "  target: " + target);
    assert indent + "  " + ("target: " + target + "\n") == indent + "  target: " + target + "\n";
    forall outer: string ensures !EndsBlock(indent + "  target: " + target + "\n", outer) {
      InsideBlock(indent + "  ", "target: " + target + "\n", outer);
    }
  }

  lemma {:induction false} LinkLinesInsertable(indent: string, links: seq<Link>)
    requires Indent(indent) && CleanLinks(links)
    ensures forall k | 0 <= k < |LinkLines(indent, links)| :: Insertable(LinkLines(indent, links)[k])
  {
    if links != [] {
      var n := |links| - 1;
      LinkLinesInsertable(indent, links[..n]);
      TypeLine(indent, links[n].0);
      TargetLine(indent, links[n].1);
    }
  }

  lemma BuiltInsertable(indent: string, links: seq<Link>)
    requires Indent(indent) && CleanLinks(links)
    ensures forall k | 0 <= k < |Built(indent, links)| :: Insertable(Built(indent, links)[k])
    ensures MatchLinksHead(Built(indent, links)[0])
  {
    LinksHeadLine(indent);
    OneLine(indent + "links:");
    assert indent + "links:" + "\n" == indent + "links:\n";
    forall outer: string ensures !EndsBlock(indent + "links:\n", outer) { InsideBlock(indent, "links:\n", outer); }
    LinkLinesInsertable(indent + "  ", links);
  }

  lemma BuiltTerminated(indent: string, links: seq<Link>)
    requires Indent(indent) && CleanLinks(links)
    ensures forall k | 0 <= k < |Built(indent, links)| :: Terminated(Built(indent, links)[k])
  {
    BuiltInsertable(indent, links);
  }

  // ---- What is collected can be written ----

  lemma PartNoBreaks(line: string, i: nat, j: nat)
    requires IsLine(line) && i <= j < |line|
    ensures NoBreaks(line[i..j])
  {
    forall k | 0 <= k < j - i ensures !IsBreak(line[i..j][k]) {
      assert line[i..j][k] == line[..|line| - 1][i + k];
    }
  }

  lemma ValueNoBreaks(line: string, j: nat)
    requires j < |line| && IsAlpha(line[j])
    ensures NoBreaks(line[j..SkipValue(line, j + 1)])
  {
  }

  /** Every value that a line carries can be written on a line. */
  predicate CleanShape(shape: Shape) {
    && (shape.scalar.Some? ==> NoBreaks(shape.scalar.value.1))
    && (shape.inline.Some? ==> forall i | 0 <= i < |shape.inline.value.1| :: NoBreaks(shape.inline.value.1[i]))
    && (shape.item.Some? ==> NoBreaks(shape.item.value))
  }

  lemma ItemIsClean(line: string)
    ensures var item := MatchItem(line); item.Some? ==> NoBreaks(item.value)
  {
    if MatchItem(line).Some? { ValueNoBreaks(line, SkipSpace(line, SkipSpace(line, 0) + 1)); }
  }

  lemma ScalarIsClean(line: string)
    ensures var scalar := MatchScalar(line); scalar.Some? ==> NoBreaks(scalar.value.1)
  {
    if MatchScalar(line).Some? { ValueNoBreaks(line, MatchField(line).value.1); }
  }

  lemma InlineIsClean(line: string)
    requires IsLine(line)
    ensures var inline := InlineItems(line);
      inline.Some? ==> forall i | 0 <= i < |inline.value.1| :: NoBreaks(inline.value.1[i])
  {
    if MatchInline(line).Some? {
      var j := MatchField(line).value.1;
      PartNoBreaks(line, j + 1, SkipTo(line, j + 1, ']'));
      ListItemsNoBreaks(MatchInline(line).value.1);
    }
  }

  lemma ShapesClean(lines: seq<string>)
    requires forall k | 0 <= k < |lines| :: IsLine(lines[k])
    ensures forall k | 0 <= k < |lines| :: CleanShape(Shapes(lines)[k])
  {
    forall k | 0 <= k < |lines| ensures CleanShape(Shapes(lines)[k]) {
      ItemIsClean(lines[k]);
      ScalarIsClean(lines[k]);
      InlineIsClean(lines[k]);
    }
  }

  lemma {:induction false} ItemsClean(shapes: seq<Shape>, j: nat)
    requires forall k | 0 <= k < |shapes| :: CleanShape(shapes[k])
    ensures forall k | 0 <= k < |ItemsFrom(shapes, j)| :: NoBreaks(ItemsFrom(shapes, j)[k])
    decreases |shapes| - j
  {
    if j < |shapes| && shapes[j].item.Some? { ItemsClean(shapes, j + 1); }
  }

  lemma LineLinksClean(rules: Rules, artifact: string, shape: Shape, items: seq<string>)
    requires Clean(rules) && CleanShape(shape) && forall k | 0 <= k < |items| :: NoBreaks(items[k])
    ensures CleanLinks(LineLinks(rules, artifact, shape, items))
  {
    assert CleanLinks(ScalarLinks(rules, artifact, shape));
    assert CleanLinks(InlineLinks(rules, artifact, shape));
    assert CleanLinks(BlockLinks(rules, artifact, shape, items));
    AppendClean(ScalarLinks(rules, artifact, shape), InlineLinks(rules, artifact, shape));
    AppendClean(ScalarLinks(rules, artifact, shape) + InlineLinks(rules, artifact, shape),
                BlockLinks(rules, artifact, shape, items));
  }

  lemma AppendClean(a: seq<Link>, b: seq<Link>)
    requires CleanLinks(a) && CleanLinks(b)
    ensures CleanLinks(a + b)
  {
  }

  lemma ScanLineClean(rules: Rules, shape: Shape, items: seq<string>, i: nat, scan: Scan)
    requires Clean(rules) && CleanShape(shape) && CleanLinks(scan.collected)
    requires forall k | 0 <= k < |items| :: NoBreaks(items[k])
    ensures CleanLinks(ScanLine(rules, shape, items, i, scan).collected)
  {
    LineLinksClean(rules, scan.artifact, shape, items);
    AppendClean(scan.collected, LineLinks(rules, scan.artifact, shape, items));
    AppendClean(scan.collected, []);
  }

  lemma {:induction false} CollectedClean(rules: Rules, shapes: seq<Shape>, lo: nat, hi: nat)
    requires Clean(rules) && hi <= |shapes| && forall k | 0 <= k < |shapes| :: CleanShape(shapes[k])
    ensures CleanLinks(ScanLines(rules, shapes, lo, hi).collected)
    decreases hi
  {
    if lo < hi {
      CollectedClean(rules, shapes, lo, hi - 1);
      ItemsClean(shapes, hi);
      ScanLineClean(rules, shapes[hi - 1], ItemsFrom(shapes, hi), hi - 1, ScanLines(rules, shapes, lo, hi - 1));
    }
  }

  lemma TypeIndent(line: string)
    requires IsLine(line) && MatchType(line).Some?
    ensures Indent(MatchType(line).value.0)
  {
    PartNoBreaks(line, 0, SkipSpace(line, 0));
    assert line[0..SkipSpace(line, 0)] == line[..SkipSpace(line, 0)];
  }

  // ---- A second migration ----

  /** The same decomposition into blocks is found in the output. */
  lemma {:induction false} BlockLengthIs(lines: seq<string>, indent: string, n: nat)
    requires n <= |lines| && (forall k | 0 <= k < n :: !EndsBlock(lines[k], indent))
    requires n < |lines| ==> EndsBlock(lines[n], indent)
    ensures BlockLength(lines, indent) == n
  {
  }

  predicate BlockOf(block: seq<string>, indent: string) {
    block != [] && MatchId(block[0]) == Some(indent) && forall k | 1 <= k < |block| :: !EndsBlock(block[k], indent)
  }

  lemma SpliceTexts(block: seq<string>, t: nat, built: seq<string>)
    requires t < |block|
    ensures Texts(Splice(block, t, built)) == block[..t + 1] + built + block[t + 1..]
  {
  }

  lemma SplicedIsBlock(block: seq<string>, t: nat, built: seq<string>, indent: string)
    requires BlockOf(block, indent) && t < |block|
    requires forall k | 0 <= k < |block| :: IsLine(block[k])
    requires forall k | 0 <= k < |built| :: Insertable(built[k])
    ensures var out := block[..t + 1] + built + block[t + 1..];
      BlockOf(out, indent) && out[0] == block[0] && forall k | 0 <= k < |out| :: IsLine(out[k])
  {
    var out := block[..t + 1] + built + block[t + 1..];
    forall k | 0 <= k < |out| ensures IsLine(out[k]) && (1 <= k ==> !EndsBlock(out[k], indent)) {
      if t + 1 <= k < t + 1 + |built| { assert out[k] == built[k - t - 1]; }
      if t + 1 + |built| <= k { assert out[k] == block[k - |built|]; }
    }
  }

  /** What emitting a block amounts to: nothing, or lines put in after its type line. */
  lemma EmitSplices(rules: Rules, block: seq<string>) returns (t: nat, indent: string, links: seq<Link>)
    requires (forall k | 0 <= k < |block| :: IsLine(block[k])) && Inserts(BlockScan(rules, block))
    ensures 1 <= t < |block| - 1 && MatchType(block[t]).Some? && Indent(indent)
    ensures links == BlockScan(rules, block).collected
    ensures EmitBlock(rules, block) == Splice(block, t, Built(indent, links))
  {
    BlockScanMeans(rules, block);
    var scan := BlockScan(rules, block);
    t, links := scan.typeLine.value, scan.collected;
    indent := MatchType(block[t]).value.0;
    TypeIndent(block[t]);
  }

  lemma EmitKeeps(rules: Rules, block: seq<string>)
    requires !Inserts(BlockScan(rules, block))
    ensures EmitBlock(rules, block) == Keep(block) && Texts(Keep(block)) == block
  {
  }

  lemma BlockLinksClean(rules: Rules, block: seq<string>)
    requires Clean(rules) && forall k | 0 <= k < |block| :: IsLine(block[k])
    ensures CleanLinks(BlockScan(rules, block).collected)
  {
    ShapesClean(block);
    CollectedClean(rules, Shapes(block), 1, |block|);
  }

  /** A block that has a `links:` line is left alone. */
  lemma LinksStop(rules: Rules, block: seq<string>, k: nat)
    requires 1 <= k < |block| && MatchLinksHead(block[k])
    ensures !Inserts(BlockScan(rules, block))
  {
    BlockScanMeans(rules, block);
  }

  lemma EmittedIsBlock(rules: Rules, block: seq<string>, indent: string)
    requires Clean(rules) && (forall k | 0 <= k < |block| :: IsLine(block[k])) && BlockOf(block, indent)
    ensures var out := Texts(EmitBlock(rules, block));
      && BlockOf(out, indent) && out[0] == block[0]
      && (forall k | 0 <= k < |out| :: IsLine(out[k]))
      && !Inserts(BlockScan(rules, out))
  {
    if Inserts(BlockScan(rules, block)) {
      var t, indent', links := EmitSplices(rules, block);
      BlockLinksClean(rules, block);
      var built := Built(indent', links);
      BuiltInsertable(indent', links);
      SplicedIsBlock(block, t, built, indent);
      SpliceTexts(block, t, built);
      LinksStop(rules, block[..t + 1] + built + block[t + 1..], t + 1);
    } else {
      EmitKeeps(rules, block);
    }
  }

  /** Emitting an emitted block changes nothing. */
  lemma EmitAgain(rules: Rules, block: seq<string>, indent: string)
    requires Clean(rules) && (forall k | 0 <= k < |block| :: IsLine(block[k])) && BlockOf(block, indent)
    ensures var out := Texts(EmitBlock(rules, block));
      EmitBlock(rules, out) == Keep(out) && BlockCount(rules, out) == 0
  {
    EmittedIsBlock(rules, block, indent);
  }

  lemma FirstBlock(rules: Rules, block: seq<string>, tail: seq<string>, indent: string)
    requires BlockOf(block, indent) && (tail != [] ==> EndsBlock(tail[0], indent))
    ensures Pieces(rules, block + tail) == EmitBlock(rules, block) + Pieces(rules, tail)
    ensures Count(rules, block + tail) == BlockCount(rules, block) + Count(rules, tail)
  {
    var lines := block + tail;
    assert lines[1..] == block[1..] + tail;
    forall k | 0 <= k < |block| - 1 ensures !EndsBlock(lines[1..][k], indent) { assert lines[1..][k] == block[k + 1]; }
    if tail != [] { assert lines[1..][|block| - 1] == tail[0]; }
    BlockLengthIs(lines[1..], indent, |block| - 1);
    assert lines[..|block|] == block && lines[|block|..] == tail;
  }

  lemma {:induction false} OutputStarts(rules: Rules, lines: seq<string>)
    requires lines != []
    ensures Pieces(rules, lines) != [] && Pieces(rules, lines)[0] == Kept(lines[0])
  {
    if MatchId(lines[0]).Some? {
      var block := lines[..1 + BlockLength(lines[1..], MatchId(lines[0]).value)];
      BlockScanMeans(rules, block);
    }
  }

  lemma TextsAppend(a: seq<Piece>, b: seq<Piece>)
    ensures Texts(a + b) == Texts(a) + Texts(b)
  {
  }

  lemma BlockAt(lines: seq<string>)
    requires lines != [] && MatchId(lines[0]).Some?
    ensures var indent := MatchId(lines[0]).value;
      var n := 1 + BlockLength(lines[1..], indent);
      && BlockOf(lines[..n], indent) && lines == lines[..n] + lines[n..]
      && (lines[n..] != [] ==> EndsBlock(lines[n..][0], indent))
  {
    var indent := MatchId(lines[0]).value;
    BlockReaches(lines, indent, 1 + BlockLength(lines[1..], indent));
  }

  lemma BlockReaches(lines: seq<string>, indent: string, n: nat)
    requires lines != [] && n == 1 + BlockLength(lines[1..], indent)
    ensures n <= |lines| && forall k | 1 <= k < n :: !EndsBlock(lines[..n][k], indent)
    ensures n < |lines| ==> EndsBlock(lines[n..][0], indent)
  {
    forall k | 1 <= k < n ensures !EndsBlock(lines[..n][k], indent) { assert lines[k] == lines[1..][k - 1]; }
    if n < |lines| { assert lines[n] == lines[1..][n - 1]; }
  }

  /** The output of a migration is left alone by the next one. */
  ghost predicate Settled(rules: Rules, out: seq<string>) {
    Texts(Pieces(rules, out)) == out && Count(rules, out) == 0 && forall k | 0 <= k < |out| :: IsLine(out[k])
  }

  lemma {:induction false} PiecesSettle(rules: Rules, lines: seq<string>)
    requires Clean(rules) && forall k | 0 <= k < |lines| :: IsLine(lines[k])
    ensures Settled(rules, Texts(Pieces(rules, lines)))
    decreases |lines|
  {
    if lines != [] {
      var n := HeadLength(lines);
      HeadFirst(rules, lines);
      PiecesSettle(rules, lines[n..]);
      match MatchId(lines[0]) {
        case None =>
          SettleLine(rules, lines[0], lines[n..]);
        case Some(indent) =>
          BlockAt(lines);
          SettleBlock(rules, lines[..n], lines[n..], indent);
      }
    }
  }

  lemma SettleLine(rules: Rules, line: string, tail: seq<string>)
    requires IsLine(line) && MatchId(line) == None && Settled(rules, Texts(Pieces(rules, tail)))
    ensures Settled(rules, Texts([Kept(line)] + Pieces(rules, tail)))
  {
    var rest := Texts(Pieces(rules, tail));
    var out := [line] + rest;
    TextsAppend([Kept(line)], Pieces(rules, tail));
    assert out[1..] == rest;
    TextsAppend([Kept(line)], Pieces(rules, rest));
  }

  lemma SettleBlock(rules: Rules, block: seq<string>, tail: seq<string>, indent: string)
    requires Clean(rules) && BlockOf(block, indent) && (forall k | 0 <= k < |block| :: IsLine(block[k]))
    requires tail != [] ==> EndsBlock(tail[0], indent)
    requires Settled(rules, Texts(Pieces(rules, tail)))
    ensures Settled(rules, Texts(EmitBlock(rules, block) + Pieces(rules, tail)))
  {
    var head, rest := Texts(EmitBlock(rules, block)), Texts(Pieces(rules, tail));
    EmittedIsBlock(rules, block, indent);
    EmitAgain(rules, block, indent);
    if tail != [] { OutputStarts(rules, tail); } else { assert rest == []; }
    FirstBlock(rules, head, rest, indent);
    TextsAppend(EmitBlock(rules, block), Pieces(rules, tail));
    TextsAppend(EmitBlock(rules, head), Pieces(rules, rest));
    assert Texts(Keep(head)) == head;
  }

  // ---- Nothing is lost, and insertions are where they belong ----

  /** The output without the inserted lines. */
  function Originals(pieces: seq<Piece>): seq<string> {
    if pieces == [] then []
    else (if pieces[0].Kept? then [pieces[0].line] else []) + Originals(pieces[1..])
  }

  lemma {:induction false} OriginalsAppend(a: seq<Piece>, b: seq<Piece>)
    ensures Originals(a + b) == Originals(a) + Originals(b)
  {
    if a == [] {
      assert a + b == b;
    } else {
      OriginalsAppend(a[1..], b);
      assert (a + b)[1..] == a[1..] + b;
    }
  }

  lemma {:induction false} OriginalsOfKeep(lines: seq<string>)
    ensures Originals(Keep(lines)) == lines
  {
    if lines != [] {
      OriginalsOfKeep(lines[1..]);
      assert Keep(lines)[1..] == Keep(lines[1..]);
    }
  }

  lemma {:induction false} OriginalsOfFresh(lines: seq<string>)
    ensures Originals(Fresh(lines)) == []
  {
    if lines != [] {
      OriginalsOfFresh(lines[1..]);
      assert Fresh(lines)[1..] == Fresh(lines[1..]);
    }
  }

  lemma SpliceKept(block: seq<string>, t: nat, built: seq<string>)
    requires t < |block|
    ensures Originals(Splice(block, t, built)) == block
  {
    OriginalsAppend(Keep(block[..t + 1]) + Fresh(built), Keep(block[t + 1..]));
    OriginalsAppend(Keep(block[..t + 1]), Fresh(built));
    OriginalsOfKeep(block[..t + 1]);
    OriginalsOfFresh(built);
    OriginalsOfKeep(block[t + 1..]);
  }

  lemma WithKept(block: seq<string>, scan: Scan)
    requires PointsInto(scan, block)
    ensures Originals(EmitWith(block, scan)) == block
  {
    if Inserts(scan) {
      var t := scan.typeLine.value;
      SpliceKept(block, t, Built(MatchType(block[t]).value.0, scan.collected));
    } else {
      OriginalsOfKeep(block);
    }
  }

  lemma BlockKept(rules: Rules, block: seq<string>)
    ensures Originals(EmitBlock(rules, block)) == block
  {
    BlockScanMeans(rules, block);
    WithKept(block, BlockScan(rules, block));
  }

  lemma HeadKept(rules: Rules, lines: seq<string>)
    requires lines != []
    ensures Originals(Head(rules, lines)) == lines[..HeadLength(lines)]
  {
    if MatchId(lines[0]).Some? { BlockKept(rules, lines[..HeadLength(lines)]); }
  }

  lemma OriginalsOfParts(head: seq<Piece>, rest: seq<Piece>, lines: seq<string>, n: nat)
    requires n <= |lines| && Originals(head) == lines[..n] && Originals(rest) == lines[n..]
    ensures Originals(head + rest) == lines
  {
    OriginalsAppend(head, rest);
  }

  /** Deleting the inserted lines gives back the input, line by line. */
  lemma {:induction false} NothingLost(rules: Rules, lines: seq<string>)
    ensures Originals(Pieces(rules, lines)) == lines
    decreases |lines|
  {
    if lines != [] {
      var n := HeadLength(lines);
      HeadFirst(rules, lines);
      NothingLost(rules, lines[n..]);
      HeadKept(rules, lines);
      OriginalsOfParts(Head(rules, lines), Pieces(rules, lines[n..]), lines, n);
    }
  }

  /** An inserted line follows another one, or a type line that ends with a line boundary. */
  predicate PlacedAt(pieces: seq<Piece>, k: nat)
    requires k < |pieces|
  {
    pieces[k].New? ==>
      0 < k && (pieces[k - 1].New? || (MatchType(pieces[k - 1].line).Some? && Terminated(pieces[k - 1].line)))
  }

  predicate Placed(pieces: seq<Piece>) {
    forall k | 0 <= k < |pieces| :: PlacedAt(pieces, k)
  }

  /** All lines but the last end with a line boundary. */
  predicate TerminatedInside(lines: seq<string>) {
    forall k | 0 <= k < |lines| - 1 :: Terminated(lines[k])
  }

  lemma PlacedAppend(a: seq<Piece>, b: seq<Piece>)
    requires Placed(a) && Placed(b)
    ensures Placed(a + b)
  {
    forall k | 0 <= k < |a + b| ensures PlacedAt(a + b, k) {
      if k < |a| { assert PlacedAt(a, k); } else { assert PlacedAt(b, k - |a|); }
    }
  }

  lemma SplicePlaced(block: seq<string>, t: nat, built: seq<string>)
    requires t < |block| && MatchType(block[t]).Some? && Terminated(block[t])
    ensures Placed(Splice(block, t, built))
  {
    var head := Keep(block[..t + 1]) + Fresh(built);
    assert forall k | t + 1 <= k < |head| :: head[k].New?;
    assert head[t] == Kept(block[t]);
    assert Placed(head);
    PlacedAppend(head, Keep(block[t + 1..]));
  }

  lemma TerminatedAppend(a: seq<string>, b: seq<string>)
    requires TerminatedInside(a) && TerminatedInside(b)
    requires a != [] && b != [] ==> Terminated(a[|a| - 1])
    ensures TerminatedInside(a + b)
  {
  }

  lemma SpliceTerminated(block: seq<string>, t: nat, built: seq<string>)
    requires TerminatedInside(block) && t + 1 < |block| && forall k | 0 <= k < |built| :: Terminated(built[k])
    ensures TerminatedInside(block[..t + 1] + built + block[t + 1..])
  {
    var head, tail := block[..t + 1], block[t + 1..];
    forall k | 0 <= k < |tail| - 1 ensures Terminated(tail[k]) { assert tail[k] == block[t + 1 + k]; }
    assert Terminated(block[t]);
    TerminatedAppend(head, built);
    assert forall k | 0 <= k < |head + built| :: Terminated((head + built)[k]);
    TerminatedAppend(head + built, tail);
  }

  lemma SpliceStands(block: seq<string>, t: nat, built: seq<string>)
    requires TerminatedInside(block) && t + 1 < |block| && MatchType(block[t]).Some?
    requires forall k | 0 <= k < |built| :: Terminated(built[k])
    ensures Placed(Splice(block, t, built))
    ensures var out := Texts(Splice(block, t, built));
      TerminatedInside(out) && out != [] && out[|out| - 1] == block[|block| - 1]
  {
    assert Terminated(block[t]);
    SplicePlaced(block, t, built);
    SpliceTerminated(block, t, built);
    SpliceTexts(block, t, built);
  }

  lemma BlockPlaced(rules: Rules, block: seq<string>)
    requires Clean(rules) && (forall k | 0 <= k < |block| :: IsLine(block[k])) && TerminatedInside(block)
    ensures Placed(EmitBlock(rules, block))
    ensures var out := Texts(EmitBlock(rules, block));
      && TerminatedInside(out) && (block != [] ==> out != [] && out[|out| - 1] == block[|block| - 1])
  {
    if Inserts(BlockScan(rules, block)) {
      var t, indent, links := EmitSplices(rules, block);
      BlockLinksClean(rules, block);
      BuiltTerminated(indent, links);
      SpliceStands(block, t, Built(indent, links));
    } else {
      EmitKeeps(rules, block);
    }
  }

  lemma PartsAreLines(lines: seq<string>, n: nat)
    requires AreLines(lines) && n <= |lines|
    ensures AreLines(lines[n..]) && AreLines(lines[..n])
    ensures 0 < n < |lines| ==> Terminated(lines[n - 1])
  {
    forall k | 0 <= k < |lines| - n - 1 ensures Terminated(lines[n..][k]) { assert lines[n..][k] == lines[n + k]; }
  }

  lemma HeadPlaced(rules: Rules, lines: seq<string>)
    requires Clean(rules) && AreLines(lines) && lines != []
    ensures Placed(Head(rules, lines))
    ensures var n, out := HeadLength(lines), Texts(Head(rules, lines));
      TerminatedInside(out) && out != [] && out[|out| - 1] == lines[n - 1]
  {
    var n := HeadLength(lines);
    if MatchId(lines[0]) == None {
      PlainPlaced(lines[0]);
    } else {
      PartsAreLines(lines, n);
      BlockPlaced(rules, lines[..n]);
    }
  }

  lemma PlainPlaced(line: string)
    ensures Placed([Kept(line)]) && Texts([Kept(line)]) == [line] && TerminatedInside([line])
  {
    assert PlacedAt([Kept(line)], 0);
  }

  lemma PartsPlaced(head: seq<Piece>, rest: seq<Piece>)
    requires Placed(head) && Placed(rest) && head != []
    requires TerminatedInside(Texts(head)) && TerminatedInside(Texts(rest))
    requires rest != [] ==> Terminated(Texts(head)[|head| - 1])
    ensures Placed(head + rest) && TerminatedInside(Texts(head + rest))
  {
    PlacedAppend(head, rest);
    TextsAppend(head, rest);
    TerminatedAppend(Texts(head), Texts(rest));
  }

  lemma {:induction false} OutputPlaced(rules: Rules, lines: seq<string>)
    requires Clean(rules) && AreLines(lines)
    ensures Placed(Pieces(rules, lines))
    ensures TerminatedInside(Texts(Pieces(rules, lines)))
    decreases |lines|
  {
    if lines != [] {
      var n := HeadLength(lines);
      PartsAreLines(lines, n);
      HeadFirst(rules, lines);
      OutputPlaced(rules, lines[n..]);
      HeadPlaced(rules, lines);
      var head, rest := Head(rules, lines), Pieces(rules, lines[n..]);
      assert n == |lines| ==> rest == [];
      PartsPlaced(head, rest);
    }
  }

  // ---- The reported count ----

  /** An inserted line that names the target of a link. */
  predicate IsTarget(piece: Piece) {
    piece.New? && MatchField(piece.line).Some? && MatchField(piece.line).value.0 == "target"
  }

  function Targets(pieces: seq<Piece>): nat {
    if pieces == [] then 0 else Targets(pieces[..|pieces| - 1]) + if IsTarget(pieces[|pieces| - 1]) then 1 else 0
  }

  lemma {:induction false} TargetsAppend(a: seq<Piece>, b: seq<Piece>)
    ensures Targets(a + b) == Targets(a) + Targets(b)
  {
    if b == [] {
      assert a + b == a;
    } else {
      assert (a + b)[..|a + b| - 1] == a + b[..|b| - 1];
      TargetsAppend(a, b[..|b| - 1]);
    }
  }

  lemma {:induction false} TargetsOfKeep(lines: seq<string>)
    ensures Targets(Keep(lines)) == 0
  {
    if lines != [] {
      TargetsOfKeep(lines[..|lines| - 1]);
      assert Keep(lines)[..|lines| - 1] == Keep(lines[..|lines| - 1]);
    }
  }

  /** The field that an indented line declares. */
  lemma FieldName(indent: string, name: string, rest: string)
    requires Indent(indent) && name != [] && IsLower(name[0]) && (forall k | 0 <= k < |name| :: IsFieldChar(name[k]))
    requires rest != [] && rest[0] == ':'
    ensures MatchField(indent + (name + rest)).Some? && MatchField(indent + (name + rest)).value.0 == name
  {
    var s, i := indent + (name + rest), |indent|;
    SkipIndent(indent, name + rest);
    assert forall k | 0 <= k < |name| :: s[i + k] == name[k];
    assert s[i + |name|] == ':';
    assert SkipField(s, i + 1) == i + |name|;
    assert s[i..i + |name|] == name;
  }

  lemma NoFieldName(indent: string, rest: string)
    requires Indent(indent) && rest != [] && rest[0] == '-'
    ensures MatchField(indent + rest) == None
  {
    SkipIndent(indent, rest);
    assert (indent + rest)[|indent|] == rest[0];
  }

  lemma TypeIsNoTarget(indent: string, linkType: string)
    requires Indent(indent)
    ensures !IsTarget(New(indent + "- type: " + linkType + "\n"))
  {
    NoFieldName(indent, "- type: " + linkType + "\n");
    assert indent + ("- type: " + linkType + "\n") == indent + "- type: " + linkType + "\n";
  }

  lemma TargetText(indent: string, target: string)
    ensures indent + "  " + ("target" + (": " + target + "\n")) == indent + "  target: " + target + "\n"
  {
  }

  lemma TargetIsTarget(indent: string, target: string)
    requires Indent(indent)
    ensures IsTarget(New(indent + "  target: " + target + "\n"))
  {
    FieldName(indent + "  ", "target", ": " + target + "\n");
    TargetText(indent, target);
  }

  lemma {:induction false} TargetsOfLinks(indent: string, links: seq<Link>)
    requires Indent(indent)
    ensures Targets(Fresh(LinkLines(indent, links))) == |links|
  {
    if links != [] {
      var n := |links| - 1;
      var (linkType, target) := links[n];
      TargetsOfLinks(indent, links[..n]);
      TypeIsNoTarget(indent, linkType);
      TargetIsTarget(indent, target);
      var before := Fresh(LinkLines(indent, links[..n]));
      var first, second := New(indent + "- type: " + linkType + "\n"), New(indent + "  target: " + target + "\n");
      assert Fresh(LinkLines(indent, links)) == before + [first] + [second];
      TargetsAppend(before + [first], [second]);
      TargetsAppend(before, [first]);
    }
  }

  lemma HeadIsNoTarget(indent: string)
    requires Indent(indent)
    ensures !IsTarget(New(indent + "links:\n"))
  {
    FieldName(indent, "links", ":\n");
    assert indent + ("links" + ":\n") == indent + "links:\n";
  }

  lemma TargetsOfBuilt(indent: string, links: seq<Link>)
    requires Indent(indent)
    ensures Targets(Fresh(Built(indent, links))) == |links|
  {
    var head, lines := New(indent + "links:\n"), Fresh(LinkLines(indent + "  ", links));
    TargetsOfLinks(indent + "  ", links);
    HeadIsNoTarget(indent);
    TargetsAppend([head], lines);
    assert Fresh(Built(indent, links)) == [head] + lines;
  }

  lemma TargetsOfSplice(block: seq<string>, t: nat, built: seq<string>)
    requires t < |block|
    ensures Targets(Splice(block, t, built)) == Targets(Fresh(built))
  {
    TargetsAppend(Keep(block[..t + 1]) + Fresh(built), Keep(block[t + 1..]));
    TargetsAppend(Keep(block[..t + 1]), Fresh(built));
    TargetsOfKeep(block[..t + 1]);
    TargetsOfKeep(block[t + 1..]);
  }

  lemma TargetsOfBlock(rules: Rules, block: seq<string>)
    requires forall k | 0 <= k < |block| :: IsLine(block[k])
    ensures Targets(EmitBlock(rules, block)) == BlockCount(rules, block)
  {
    if Inserts(BlockScan(rules, block)) {
      var t, indent, links := EmitSplices(rules, block);
      TargetsOfBuilt(indent, links);
      TargetsOfSplice(block, t, Built(indent, links));
    } else {
      EmitKeeps(rules, block);
      TargetsOfKeep(block);
    }
  }

  /** The reported number is the number of link targets among the inserted lines. */
  lemma {:induction false} CountIsTargets(rules: Rules, lines: seq<string>)
    requires forall k | 0 <= k < |lines| :: IsLine(lines[k])
    ensures Count(rules, lines) == Targets(Pieces(rules, lines))
    decreases |lines|
  {
    if lines != [] {
      var n := HeadLength(lines);
      CountIsTargets(rules, lines[n..]);
      HeadFirst(rules, lines);
      TargetsAppend(Head(rules, lines), Pieces(rules, lines[n..]));
      if MatchId(lines[0]).Some? { TargetsOfBlock(rules, lines[..n]); }
    }
  }

  // ---- The text as a whole ----

  /** Migrating the output of a migration changes nothing and inserts nothing. */
  lemma MigrationIsIdempotent(rules: Rules, text: string)
    requires Clean(rules)
    ensures var once := Migrate(rules, text).0; Migrate(rules, once) == (once, 0)
  {
    var lines := SplitLines(text);
    SplitIsLines(text);
    PiecesSettle(rules, lines);
    OutputPlaced(rules, lines);
    SplitOfJoin(Texts(Pieces(rules, lines)));
  }

  /** The output is the input with whole lines inserted, each run of them after a type line. */
  lemma MigrationIsConservative(rules: Rules, text: string)
    requires Clean(rules)
    ensures var pieces := Pieces(rules, SplitLines(text));
      && SplitLines(Migrate(rules, text).0) == Texts(pieces)
      && Join(Originals(pieces)) == text
      && Placed(pieces)
      && Migrate(rules, text).1 == Targets(pieces)
  {
    SplitIsLines(text);
    CountIsTargets(rules, SplitLines(text));
    NothingLost(rules, SplitLines(text));
    PiecesSettle(rules, SplitLines(text));
    OutputPlaced(rules, SplitLines(text));
    SplitOfJoin(Texts(Pieces(rules, SplitLines(text))));
  }
}
