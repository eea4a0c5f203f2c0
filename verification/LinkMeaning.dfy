/**
 What the migration writes for a document: where artifacts begin and end, which links each line of
 an artifact gives, and how they are written down.
 */
module LinkMeaning {
  import opened Arith
  import opened TextLines
  import opened ShapeMeaning
  import opened StpaMigration

  // ---- The links that a line gives ----

  /** A mapped field that is not a list, with an identifier. */
  ghost predicate GivesScalar(rules: Rules, artifact: string, line: string, link: Link) {
    exists field :: IsScalar(line, field, link.1) && field !in rules.lists
      && (artifact, field) in rules.links && rules.links[(artifact, field)] == link.0
  }

  /** A mapped field with an inline list. */
  ghost predicate GivesInline(rules: Rules, artifact: string, line: string, linkType: string, raw: string) {
    exists field :: IsInline(line, field, raw)
      && (artifact, field) in rules.links && rules.links[(artifact, field)] == linkType
  }

  /** A mapped field that heads a block list. */
  ghost predicate GivesBlock(rules: Rules, artifact: string, line: string, linkType: string) {
    exists field :: IsHead(line, field)
      && (artifact, field) in rules.links && rules.links[(artifact, field)] == linkType
  }

  /** One link of the type for each target, in order. */
  predicate ToEach(links: seq<Link>, linkType: string, targets: seq<string>) {
    |links| == |targets| && forall i | 0 <= i < |links| :: links[i] == (linkType, targets[i])
  }

  /** The targets are the items that follow from line `j` on, up to the first line that is none. */
  ghost predicate ItemsAt(lines: seq<string>, j: nat, targets: seq<string>) {
    && j + |targets| <= |lines|
    && (forall i | 0 <= i < |targets| :: IsItem(lines[j + i], targets[i]))
    && (j + |targets| < |lines| ==> NoItem(lines[j + |targets|]))
  }

  ghost predicate NoItem(line: string) {
    forall value :: !IsItem(line, value)
  }

  lemma NoItemMeans(line: string)
    ensures NoItem(line) <==> MatchItem(line) == None
  {
    forall value ensures MatchItem(line) == Some(value) <==> IsItem(line, value) { ItemMeans(line, value); }
    if MatchItem(line).Some? { assert IsItem(line, MatchItem(line).value); }
  }

  /** Line `j` gives exactly these links, in this order. */
  ghost predicate Gives(rules: Rules, artifact: string, lines: seq<string>, j: nat, links: seq<Link>)
    requires j < |lines|
  {
    && (forall link: Link | GivesScalar(rules, artifact, lines[j], link) :: links == [link])
    && (forall linkType, raw | GivesInline(rules, artifact, lines[j], linkType, raw) ::
          ToEach(links, linkType, ListItems(raw)))
    && (forall linkType | GivesBlock(rules, artifact, lines[j], linkType) ::
          exists targets :: ToEach(links, linkType, targets) && ItemsAt(lines, j + 1, targets))
    && (links != [] ==>
          || (exists link: Link :: GivesScalar(rules, artifact, lines[j], link))
          || (exists linkType, raw :: GivesInline(rules, artifact, lines[j], linkType, raw))
          || (exists linkType :: GivesBlock(rules, artifact, lines[j], linkType)))
  }

  lemma {:induction false} ItemsMean(lines: seq<string>, j: nat)
    requires j <= |lines|
    ensures ItemsAt(lines, j, ItemsFrom(Shapes(lines), j))
    decreases |lines| - j
  {
    if j < |lines| {
      NoItemMeans(lines[j]);
      assert Shapes(lines)[j].item == MatchItem(lines[j]);
      if MatchItem(lines[j]).Some? {
        ItemMeans(lines[j], MatchItem(lines[j]).value);
        ItemsMean(lines, j + 1);
        ItemsPrepend(lines, j, MatchItem(lines[j]).value, ItemsFrom(Shapes(lines), j + 1));
      }
    }
  }

  lemma ItemsPrepend(lines: seq<string>, j: nat, first: string, rest: seq<string>)
    requires j < |lines| && IsItem(lines[j], first) && ItemsAt(lines, j + 1, rest)
    ensures ItemsAt(lines, j, [first] + rest)
  {
    var targets := [first] + rest;
    forall i | 0 <= i < |targets| ensures IsItem(lines[j + i], targets[i]) {
      if 0 < i { assert targets[i] == rest[i - 1] && lines[j + i] == lines[j + 1 + (i - 1)]; }
    }
  }

  /** The three shapes exclude each other: an identifier, a bracket, or nothing follows the colon. */
  lemma OneShape(line: string)
    ensures MatchScalar(line).Some? ==> MatchInline(line) == None && MatchBlockHead(line) == None
    ensures MatchInline(line).Some? ==> MatchBlockHead(line) == None
  {
  }

  function LinksOf(rules: Rules, artifact: string, lines: seq<string>, j: nat): seq<Link>
    requires j < |lines|
  {
    LineLinks(rules, artifact, Classify(lines[j]), ItemsFrom(Shapes(lines), j + 1))
  }

  lemma ScalarGives(rules: Rules, artifact: string, lines: seq<string>, j: nat, link: Link)
    requires j < |lines| && GivesScalar(rules, artifact, lines[j], link)
    ensures LinksOf(rules, artifact, lines, j) == [link]
  {
    var field :| IsScalar(lines[j], field, link.1) && field !in rules.lists
      && (artifact, field) in rules.links && rules.links[(artifact, field)] == link.0;
    ScalarMeans(lines[j], field, link.1);
    OneShape(lines[j]);
  }

  lemma ShapeOfInline(line: string, field: string, raw: string)
    requires MatchInline(line) == Some((field, raw))
    ensures var shape := Classify(line);
      shape.inline == Some((field, ListItems(raw))) && shape.scalar == None && shape.listHead == None
  {
    OneShape(line);
  }

  lemma InlineOnly(rules: Rules, artifact: string, shape: Shape, items: seq<string>, field: string, targets: seq<string>)
    requires shape.inline == Some((field, targets)) && shape.scalar == None && shape.listHead == None
    requires (artifact, field) in rules.links
    ensures ToEach(LineLinks(rules, artifact, shape, items), rules.links[(artifact, field)], targets)
  {
    assert LineLinks(rules, artifact, shape, items) == Tag(rules.links[(artifact, field)], targets);
  }

  lemma InlineGives(rules: Rules, artifact: string, lines: seq<string>, j: nat, linkType: string, raw: string)
    requires j < |lines| && GivesInline(rules, artifact, lines[j], linkType, raw)
    ensures ToEach(LinksOf(rules, artifact, lines, j), linkType, ListItems(raw))
  {
    var field :| IsInline(lines[j], field, raw)
      && (artifact, field) in rules.links && rules.links[(artifact, field)] == linkType;
    InlineMeans(lines[j], field, raw);
    ShapeOfInline(lines[j], field, raw);
    InlineOnly(rules, artifact, Classify(lines[j]), ItemsFrom(Shapes(lines), j + 1), field, ListItems(raw));
  }

  lemma BlockGives(rules: Rules, artifact: string, lines: seq<string>, j: nat, linkType: string)
    requires j < |lines| && GivesBlock(rules, artifact, lines[j], linkType)
    ensures exists targets :: ToEach(LinksOf(rules, artifact, lines, j), linkType, targets) && ItemsAt(lines, j + 1, targets)
  {
    var field :| IsHead(lines[j], field)
      && (artifact, field) in rules.links && rules.links[(artifact, field)] == linkType;
    var items := ItemsFrom(Shapes(lines), j + 1);
    HeadMeans(lines[j], field);
    OneShape(lines[j]);
    ItemsMean(lines, j + 1);
    assert LinksOf(rules, artifact, lines, j) == Tag(linkType, items);
    assert ToEach(LinksOf(rules, artifact, lines, j), linkType, items);
  }

  lemma LineGives(rules: Rules, artifact: string, lines: seq<string>, j: nat)
    requires j < |lines|
    ensures Gives(rules, artifact, lines, j, LinksOf(rules, artifact, lines, j))
  {
    forall link: Link | GivesScalar(rules, artifact, lines[j], link)
      ensures LinksOf(rules, artifact, lines, j) == [link]
    {
      ScalarGives(rules, artifact, lines, j, link);
    }
    forall linkType, raw | GivesInline(rules, artifact, lines[j], linkType, raw)
      ensures ToEach(LinksOf(rules, artifact, lines, j), linkType, ListItems(raw))
    {
      InlineGives(rules, artifact, lines, j, linkType, raw);
    }
    forall linkType | GivesBlock(rules, artifact, lines[j], linkType)
      ensures exists targets :: ToEach(LinksOf(rules, artifact, lines, j), linkType, targets) && ItemsAt(lines, j + 1, targets)
    {
      BlockGives(rules, artifact, lines, j, linkType);
    }
    if LinksOf(rules, artifact, lines, j) != [] { SomethingGives(rules, artifact, lines, j); }
  }

  lemma SomethingGives(rules: Rules, artifact: string, lines: seq<string>, j: nat)
    requires j < |lines| && LinksOf(rules, artifact, lines, j) != []
    ensures (exists link: Link :: GivesScalar(rules, artifact, lines[j], link))
         || (exists linkType, raw :: GivesInline(rules, artifact, lines[j], linkType, raw))
         || (exists linkType :: GivesBlock(rules, artifact, lines[j], linkType))
  {
    var line, shape := lines[j], Classify(lines[j]);
    if ScalarLinks(rules, artifact, shape) != [] {
      var (field, value) := shape.scalar.value;
      ScalarMeans(line, field, value);
      assert GivesScalar(rules, artifact, line, (rules.links[(artifact, field)], value));
    } else if InlineLinks(rules, artifact, shape) != [] {
      var (field, raw) := MatchInline(line).value;
      InlineMeans(line, field, raw);
      assert GivesInline(rules, artifact, line, rules.links[(artifact, field)], raw);
    } else {
      var field := shape.listHead.value;
      HeadMeans(line, field);
      assert GivesBlock(rules, artifact, line, rules.links[(artifact, field)]);
    }
  }

  /** The lines from `j` up to `end` give these links, one line after the other. */
  ghost predicate GivenBy(rules: Rules, artifact: string, lines: seq<string>, j: nat, end: nat, links: seq<Link>)
    requires j <= end <= |lines|
    decreases end
  {
    if j == end then links == []
    else exists before: seq<Link>, last: seq<Link> ::
      links == before + last && GivenBy(rules, artifact, lines, j, end - 1, before)
      && Gives(rules, artifact, lines, end - 1, last)
  }

  // ---- What becomes of an artifact ----

  /** The first type line of the artifact is line `t`. */
  ghost predicate TypeLineIs(block: seq<string>, t: nat, indent: string, artifact: string) {
    && 1 <= t < |block| && IsTypeLine(block[t], indent, artifact)
    && forall k | 1 <= k < t :: NoTypeLine(block[k])
  }

  ghost predicate NoTypeLine(line: string) {
    forall indent, name :: !IsTypeLine(line, indent, name)
  }

  ghost predicate HasLinksBlock(block: seq<string>) {
    exists k :: 1 <= k < |block| && IsLinksLine(block[k])
  }

  lemma TypeLineMeans(line: string)
    ensures NoTypeLine(line) <==> MatchType(line) == None
  {
    if MatchType(line).Some? {
      TypeMeans(line, MatchType(line).value.0, MatchType(line).value.1);
    }
    forall indent, name ensures MatchType(line) == Some((indent, name)) <==> IsTypeLine(line, indent, name) {
      TypeMeans(line, indent, name);
    }
  }

  /** The scan of the lines `1 .. hi`: the first type line, and the links that the lines after it give. */
  ghost predicate ScanIs(rules: Rules, block: seq<string>, hi: nat, scan: Scan)
    requires hi <= |block|
  {
    match scan.typeLine
    case None => scan.collected == [] && forall k | 1 <= k < hi :: NoTypeLine(block[k])
    case Some(t) =>
      && 1 <= t < hi && MatchType(block[t]).Some?
      && TypeLineIs(block, t, MatchType(block[t]).value.0, scan.artifact)
      && GivenBy(rules, scan.artifact, block, t + 1, hi, scan.collected)
  }

  lemma {:induction false} ScanGives(rules: Rules, block: seq<string>, hi: nat)
    requires 1 <= hi <= |block|
    ensures ScanIs(rules, block, hi, ScanLines(rules, Shapes(block), 1, hi))
    decreases hi
  {
    if 1 < hi {
      ScanGives(rules, block, hi - 1);
      ScanNext(rules, block, hi - 1, ScanLines(rules, Shapes(block), 1, hi - 1));
      assert Shapes(block)[hi - 1] == Classify(block[hi - 1]);
    }
  }

  /** A line before the type line is found: it may be the type line. */
  lemma ScanStarts(rules: Rules, block: seq<string>, i: nat, scan: Scan, shape: Shape, items: seq<string>)
    requires 1 <= i < |block| && ScanIs(rules, block, i, scan) && scan.typeLine == None
    requires shape.asType == MatchType(block[i])
    ensures ScanIs(rules, block, i + 1, ScanLine(rules, shape, items, i, scan))
  {
    TypeLineMeans(block[i]);
    if MatchType(block[i]).Some? {
      TypeMeans(block[i], MatchType(block[i]).value.0, MatchType(block[i]).value.1);
    }
  }

  /** A line after it gives its links. */
  lemma ScanGoesOn(rules: Rules, block: seq<string>, i: nat, scan: Scan, shape: Shape, items: seq<string>)
    requires 1 <= i < |block| && ScanIs(rules, block, i, scan) && scan.typeLine.Some?
    requires Gives(rules, scan.artifact, block, i, LineLinks(rules, scan.artifact, shape, items))
    ensures ScanIs(rules, block, i + 1, ScanLine(rules, shape, items, i, scan))
  {
    GivenNext(rules, scan.artifact, block, scan.typeLine.value + 1, i, scan.collected,
              LineLinks(rules, scan.artifact, shape, items));
  }

  lemma ScanNext(rules: Rules, block: seq<string>, i: nat, scan: Scan)
    requires 1 <= i < |block| && ScanIs(rules, block, i, scan)
    ensures ScanIs(rules, block, i + 1, ScanLine(rules, Classify(block[i]), ItemsFrom(Shapes(block), i + 1), i, scan))
  {
    var items := ItemsFrom(Shapes(block), i + 1);
    if scan.typeLine == None {
      ScanStarts(rules, block, i, scan, Classify(block[i]), items);
    } else {
      LineGives(rules, scan.artifact, block, i);
      ScanGoesOn(rules, block, i, scan, Classify(block[i]), items);
    }
  }

  lemma GivenNext(
      rules: Rules, artifact: string, lines: seq<string>, j: nat, end: nat, before: seq<Link>, last: seq<Link>)
    requires j <= end < |lines| && GivenBy(rules, artifact, lines, j, end, before) && Gives(rules, artifact, lines, end, last)
    ensures GivenBy(rules, artifact, lines, j, end + 1, before + last)
  {
  }

  /** The block with the links written after line `t`, two lines each, and nothing else changed. */
  predicate Written(block: seq<string>, t: nat, indent: string, links: seq<Link>, pieces: seq<Piece>) {
    && t < |block| && |pieces| == |block| + 1 + 2 * |links|
    && (forall k | 0 <= k <= t :: pieces[k] == Kept(block[k]))
    && pieces[t + 1] == New(indent + "links:\n")
    && (forall i | 0 <= i < |links| :: LinkAt(pieces, t + 2 + 2 * i, indent, links[i]))
    && (forall k | t < k < |block| :: pieces[k + 1 + 2 * |links|] == Kept(block[k]))
  }

  predicate LinkAt(pieces: seq<Piece>, k: nat, indent: string, link: Link) {
    && k + 1 < |pieces|
    && pieces[k] == New(indent + "  " + "- type: " + link.0 + "\n")
    && pieces[k + 1] == New(indent + "  " + "  target: " + link.1 + "\n")
  }

  predicate Unchanged(block: seq<string>, pieces: seq<Piece>) {
    |pieces| == |block| && forall k | 0 <= k < |block| :: pieces[k] == Kept(block[k])
  }

  /**
   An artifact gets the links that its lines after the first type line give, if they give any and
   there is no links block yet; otherwise it stays as it is.
   */
  ghost predicate ArtifactMigrated(rules: Rules, block: seq<string>, pieces: seq<Piece>) {
    && (HasLinksBlock(block) ==> Unchanged(block, pieces))
    && ((forall k | 1 <= k < |block| :: NoTypeLine(block[k])) ==> Unchanged(block, pieces))
    && (forall t: nat, indent, artifact | TypeLineIs(block, t, indent, artifact) && !HasLinksBlock(block) ::
          GetsLinks(rules, block, t, indent, artifact, pieces))
  }

  ghost predicate GetsLinks(
      rules: Rules, block: seq<string>, t: nat, indent: string, artifact: string, pieces: seq<Piece>)
    requires t < |block|
  {
    exists links :: GivenBy(rules, artifact, block, t + 1, |block|, links) && WrittenIfAny(block, t, indent, links, pieces)
  }

  predicate WrittenIfAny(block: seq<string>, t: nat, indent: string, links: seq<Link>, pieces: seq<Piece>) {
    if links == [] then Unchanged(block, pieces) else Written(block, t, indent, links, pieces)
  }

  lemma {:induction false} LinkLinesAre(indent: string, links: seq<Link>, i: nat)
    requires i < |links|
    ensures |LinkLines(indent, links)| == 2 * |links|
    ensures LinkLines(indent, links)[2 * i] == indent + "- type: " + links[i].0 + "\n"
    ensures LinkLines(indent, links)[2 * i + 1] == indent + "  target: " + links[i].1 + "\n"
  {
    var n := |links| - 1;
    if 0 < n { LinkLinesAre(indent, links[..n], if i < n then i else 0); }
  }

  lemma SpliceIsWritten(block: seq<string>, t: nat, indent: string, links: seq<Link>)
    requires t < |block| && links != []
    ensures Written(block, t, indent, links, Splice(block, t, Built(indent, links)))
  {
    var built, pieces := Built(indent, links), Splice(block, t, Built(indent, links));
    LinkLinesAre(indent + "  ", links, 0);
    forall i | 0 <= i < |links| ensures LinkAt(pieces, t + 2 + 2 * i, indent, links[i]) {
      LinkLinesAre(indent + "  ", links, i);
      var lines := LinkLines(indent + "  ", links);
      assert built[1 + 2 * i] == lines[2 * i] && built[2 + 2 * i] == lines[2 * i + 1];
      assert pieces[t + 1 + (1 + 2 * i)] == New(built[1 + 2 * i]);
      assert pieces[t + 1 + (2 + 2 * i)] == New(built[2 + 2 * i]);
    }
    assert pieces[t + 1] == New(built[0]);
  }

  lemma FirstTypeLine(block: seq<string>, t: nat, indent: string, artifact: string, t': nat, indent': string, artifact': string)
    requires TypeLineIs(block, t, indent, artifact) && TypeLineIs(block, t', indent', artifact')
    ensures t == t' && indent == indent' && artifact == artifact'
  {
    TypeMeans(block[t], indent, artifact);
    TypeMeans(block[t'], indent', artifact');
    TypeLineMeans(block[t]);
    TypeLineMeans(block[t']);
  }

  lemma LinksBlockMeans(rules: Rules, block: seq<string>)
    ensures BlockScan(rules, block).hasLinks <==> HasLinksBlock(block)
  {
    BlockScanMeans(rules, block);
    forall k | 1 <= k < |block| ensures MatchLinksHead(block[k]) <==> IsLinksLine(block[k]) { LinksMeans(block[k]); }
  }

  /** The writing, given what the scan has found. */
  lemma EmitWrites(block: seq<string>, scan: Scan)
    requires PointsInto(scan, block)
    ensures scan.hasLinks || scan.typeLine == None ==> Unchanged(block, EmitWith(block, scan))
    ensures !scan.hasLinks && scan.typeLine.Some? ==>
      var t := scan.typeLine.value;
      WrittenIfAny(block, t, MatchType(block[t]).value.0, scan.collected, EmitWith(block, scan))
  {
    if Inserts(scan) {
      var t := scan.typeLine.value;
      SpliceIsWritten(block, t, MatchType(block[t]).value.0, scan.collected);
    }
  }

  /** What has been found, and what is written for it, is what the artifact is due. */
  lemma FoundIsDue(rules: Rules, block: seq<string>, scan: Scan, pieces: seq<Piece>)
    requires block != [] && ScanIs(rules, block, |block|, scan) && (scan.hasLinks <==> HasLinksBlock(block))
    requires scan.hasLinks || scan.typeLine == None ==> Unchanged(block, pieces)
    requires !scan.hasLinks && scan.typeLine.Some? ==>
      var t := scan.typeLine.value;
      WrittenIfAny(block, t, MatchType(block[t]).value.0, scan.collected, pieces)
    ensures ArtifactMigrated(rules, block, pieces)
  {
    if scan.typeLine.Some? {
      var own := MatchType(block[scan.typeLine.value]).value.0;
      assert !NoTypeLine(block[scan.typeLine.value]);
      forall t: nat, indent, artifact | TypeLineIs(block, t, indent, artifact) && !HasLinksBlock(block)
        ensures GetsLinks(rules, block, t, indent, artifact, pieces)
      {
        FirstTypeLine(block, scan.typeLine.value, own, scan.artifact, t, indent, artifact);
        assert GivenBy(rules, artifact, block, t + 1, |block|, scan.collected);
      }
    } else {
      forall t: nat, indent, artifact ensures !TypeLineIs(block, t, indent, artifact) { }
    }
  }

  lemma EmitIsMigrated(rules: Rules, block: seq<string>)
    requires block != []
    ensures ArtifactMigrated(rules, block, EmitBlock(rules, block))
  {
    var scan := BlockScan(rules, block);
    LinksBlockMeans(rules, block);
    BlockScanMeans(rules, block);
    ScanGives(rules, block, |block|);
    EmitWrites(block, scan);
    FoundIsDue(rules, block, scan, EmitWith(block, scan));
  }

  // ---- What becomes of a document ----

  /** A document is lines that belong to no artifact, and artifacts. */
  datatype Segment = Loose(line: string) | Artifact(indent: string, block: seq<string>)

  /** The line declares an artifact with the indent, or starts at the margin with anything but a comment. */
  ghost predicate Ends(line: string, indent: string) {
    IsIdLine(line, indent) || (line != [] && !IsSpace(line[0]) && line[0] != '#')
  }

  function LinesOf(segment: Segment): seq<string> {
    match segment
    case Loose(line) => [line]
    case Artifact(_, block) => block
  }

  function Flat(segments: seq<Segment>): seq<string> {
    if segments == [] then [] else LinesOf(segments[0]) + Flat(segments[1..])
  }

  /** The block begins with the line that declares it, and no line of it ends it. */
  ghost predicate IsBlock(indent: string, block: seq<string>) {
    block != [] && IsIdLine(block[0], indent) && forall k | 1 <= k < |block| :: !Ends(block[k], indent)
  }

  ghost predicate IsLoose(line: string) {
    forall indent :: !IsIdLine(line, indent)
  }

  /** An artifact reaches from the line that declares it to the first line that ends it. */
  ghost predicate Parsed(segments: seq<Segment>) {
    segments != [] ==>
      && (segments[0].Loose? ==> IsLoose(segments[0].line))
      && (segments[0].Artifact? ==>
            && IsBlock(segments[0].indent, segments[0].block)
            && (Flat(segments[1..]) != [] ==> Ends(Flat(segments[1..])[0], segments[0].indent)))
      && Parsed(segments[1..])
  }

  ghost predicate SegmentMigrated(rules: Rules, segment: Segment, pieces: seq<Piece>) {
    match segment
    case Loose(line) => pieces == [Kept(line)]
    case Artifact(_, block) => ArtifactMigrated(rules, block, pieces)
  }

  ghost predicate Migrated(rules: Rules, segments: seq<Segment>, pieces: seq<Piece>) {
    if segments == [] then pieces == []
    else exists first: seq<Piece>, rest: seq<Piece> ::
      pieces == first + rest && SegmentMigrated(rules, segments[0], first) && Migrated(rules, segments[1..], rest)
  }

  lemma EndsMeans(line: string, indent: string)
    ensures Ends(line, indent) <==> EndsBlock(line, indent)
  {
    IdMeans(line, indent);
  }

  lemma MigratedFirst(rules: Rules, segment: Segment, rest: seq<Segment>, first: seq<Piece>, others: seq<Piece>)
    requires SegmentMigrated(rules, segment, first) && Migrated(rules, rest, others)
    ensures Migrated(rules, [segment] + rest, first + others)
  {
    assert ([segment] + rest)[1..] == rest;
  }

  lemma ParsedFirst(segment: Segment, rest: seq<Segment>)
    requires Parsed(rest)
    requires segment.Loose? ==> IsLoose(segment.line)
    requires segment.Artifact? ==> IsBlock(segment.indent, segment.block) && (Flat(rest) != [] ==> Ends(Flat(rest)[0], segment.indent))
    ensures Parsed([segment] + rest) && Flat([segment] + rest) == LinesOf(segment) + Flat(rest)
  {
    assert ([segment] + rest)[1..] == rest;
  }

  /** Every document is read as its segments, and each is migrated. */
  lemma {:induction false} DocumentIsMigrated(rules: Rules, lines: seq<string>) returns (segments: seq<Segment>)
    ensures Flat(segments) == lines && Parsed(segments) && Migrated(rules, segments, Pieces(rules, lines))
    decreases |lines|
  {
    segments := [];
    if lines != [] {
      var n := HeadLength(lines);
      var rest := DocumentIsMigrated(rules, lines[n..]);
      var first := FirstSegment(rules, lines);
      HeadFirst(rules, lines);
      MigratedFirst(rules, first, rest, Head(rules, lines), Pieces(rules, lines[n..]));
      ParsedFirst(first, rest);
      segments := [first] + rest;
    }
  }

  /** The first line, or the artifact that it declares. */
  lemma FirstSegment(rules: Rules, lines: seq<string>) returns (first: Segment)
    requires lines != []
    ensures var n := HeadLength(lines);
      && LinesOf(first) == lines[..n] && LinesOf(first) + lines[n..] == lines
      && SegmentMigrated(rules, first, Head(rules, lines))
      && (first.Loose? ==> IsLoose(first.line))
      && (first.Artifact? ==> IsBlock(first.indent, first.block) && (lines[n..] != [] ==> Ends(lines[n..][0], first.indent)))
  {
    match MatchId(lines[0]) {
      case None =>
        forall indent ensures !IsIdLine(lines[0], indent) { IdMeans(lines[0], indent); }
        first := Loose(lines[0]);
      case Some(indent) =>
        IdMeans(lines[0], indent);
        first := FirstArtifact(rules, lines, HeadLength(lines), indent);
    }
  }

  lemma FirstArtifact(rules: Rules, lines: seq<string>, n: nat, indent: string) returns (first: Segment)
    requires lines != [] && n == 1 + BlockLength(lines[1..], indent) && IsIdLine(lines[0], indent)
    ensures n <= |lines| && first == Artifact(indent, lines[..n]) && IsBlock(indent, lines[..n])
    ensures SegmentMigrated(rules, first, EmitBlock(rules, lines[..n])) && (lines[n..] != [] ==> Ends(lines[n..][0], indent))
  {
    BlockIsParsed(lines, n, indent);
    EmitIsMigrated(rules, lines[..n]);
    first := Artifact(indent, lines[..n]);
  }

  lemma BlockIsParsed(lines: seq<string>, n: nat, indent: string)
    requires lines != [] && n == 1 + BlockLength(lines[1..], indent)
    ensures n <= |lines| && (forall k | 1 <= k < n :: !Ends(lines[k], indent)) && (n < |lines| ==> Ends(lines[n], indent))
  {
    forall k | 1 <= k < |lines| ensures Ends(lines[k], indent) <==> EndsBlock(lines[1..][k - 1], indent) {
      EndsMeans(lines[k], indent);
    }
  }

  /** The new text is the migrated document of the lines of the old one, and the count is of its links. */
  lemma TextIsMigrated(rules: Rules, text: string) returns (segments: seq<Segment>, pieces: seq<Piece>)
    requires Clean(rules)
    ensures Flat(segments) == SplitLines(text) && Parsed(segments) && Migrated(rules, segments, pieces)
    ensures Migrate(rules, text) == (Join(Texts(pieces)), Targets(pieces))
  {
    var lines := SplitLines(text);
    segments := DocumentIsMigrated(rules, lines);
    pieces := Pieces(rules, lines);
    SplitIsLines(text);
    CountIsTargets(rules, lines);
  }
}
