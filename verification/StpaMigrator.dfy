/** The migration as it is carried out: one pass over the lines with nested loops. */
module StpaMigrator {
  import opened Arith
  import opened Sequences
  import opened TextLines
  import opened StpaMigration

  /** A list that starts inside a block ends inside it. */
  lemma {:induction false} ItemsLocal(shapes: seq<Shape>, start: nat, end: nat, j: nat)
    requires start <= j <= end <= |shapes| && (end < |shapes| ==> shapes[end].item == None)
    ensures ItemsFrom(shapes, j) == ItemsFrom(shapes[start..end], j - start)
    decreases end - j
  {
    if j < end { ItemsLocal(shapes, start, end, j + 1); }
  }

  function Shifted(scan: Scan, offset: nat): Scan {
    scan.(typeLine := match scan.typeLine case Some(t) => Some(t + offset) case None => None)
  }

  lemma ScanLineShifted(rules: Rules, shape: Shape, items: seq<string>, start: nat, i: nat, scan: Scan)
    requires start <= i
    ensures ScanLine(rules, shape, items, i, Shifted(scan, start))
         == Shifted(ScanLine(rules, shape, items, i - start, scan), start)
  {
  }

  lemma SameLine(shapes: seq<Shape>, block: seq<Shape>, start: nat, end: nat, hi: nat)
    requires start < hi <= end <= |shapes| && (end < |shapes| ==> shapes[end].item == None)
    requires block == shapes[start..end]
    ensures |block| == end - start && block[hi - 1 - start] == shapes[hi - 1]
    ensures ItemsFrom(block, hi - start) == ItemsFrom(shapes, hi)
  {
    ItemsLocal(shapes, start, end, hi);
  }

  /** Scanning in place sees what scanning the block by itself sees, `start` lines further on. */
  ghost predicate SeesSame(rules: Rules, shapes: seq<Shape>, block: seq<Shape>, start: nat, hi: nat)
    requires start < hi <= |shapes| && hi - start <= |block|
  {
    ScanLines(rules, shapes, start + 1, hi) == Shifted(ScanLines(rules, block, 1, hi - start), start)
  }

  lemma {:induction false} ScanLocal(rules: Rules, shapes: seq<Shape>, block: seq<Shape>, start: nat, end: nat, hi: nat)
    requires start < hi <= end <= |shapes| && (end < |shapes| ==> shapes[end].item == None)
    requires block == shapes[start..end]
    ensures SeesSame(rules, shapes, block, start, hi)
    decreases hi
  {
    if start + 1 < hi {
      ScanLocal(rules, shapes, block, start, end, hi - 1);
      SameLine(shapes, block, start, end, hi);
      SeesNext(rules, shapes, block, start, hi);
    }
  }

  lemma SeesNext(rules: Rules, shapes: seq<Shape>, block: seq<Shape>, start: nat, hi: nat)
    requires start + 1 < hi <= |shapes| && hi - start <= |block| && SeesSame(rules, shapes, block, start, hi - 1)
    requires block[hi - 1 - start] == shapes[hi - 1] && ItemsFrom(block, hi - start) == ItemsFrom(shapes, hi)
    ensures SeesSame(rules, shapes, block, start, hi)
  {
    var whole, part := ScanLines(rules, shapes, start + 1, hi - 1), ScanLines(rules, block, 1, hi - start - 1);
    var whole' := ScanNext(rules, shapes, start + 1, hi, whole);
    var part' := ScanNext(rules, block, 1, hi - start, part);
    NextShifted(rules, shapes[hi - 1], ItemsFrom(shapes, hi), start, hi - 1, part, whole, part', whole');
  }

  /** `after` is what the line makes of `before`. */
  predicate Follows(rules: Rules, shape: Shape, items: seq<string>, i: nat, before: Scan, after: Scan) {
    after == ScanLine(rules, shape, items, i, before)
  }

  lemma ScanNext(rules: Rules, shapes: seq<Shape>, lo: nat, hi: nat, before: Scan) returns (after: Scan)
    requires lo < hi <= |shapes| && before == ScanLines(rules, shapes, lo, hi - 1)
    ensures after == ScanLines(rules, shapes, lo, hi)
    ensures Follows(rules, shapes[hi - 1], ItemsFrom(shapes, hi), hi - 1, before, after)
  {
    after := ScanLines(rules, shapes, lo, hi);
  }

  lemma NextShifted(
      rules: Rules, shape: Shape, items: seq<string>, start: nat, i: nat, part: Scan, whole: Scan, part': Scan, whole': Scan)
    requires start <= i && whole == Shifted(part, start)
    requires Follows(rules, shape, items, i - start, part, part') && Follows(rules, shape, items, i, whole, whole')
    ensures whole' == Shifted(part', start)
  {
    ScanLineShifted(rules, shape, items, start, i, part);
  }

  /** The links that one line of an artifact contributes. */
  method CollectLinks(rules: Rules, artifact: string, shapes: seq<Shape>, i: nat) returns (found: seq<Link>)
    requires i < |shapes|
    ensures found == LineLinks(rules, artifact, shapes[i], ItemsFrom(shapes, i + 1))
  {
    var cur := shapes[i];
    found := [];
    if cur.scalar.Some? {
      var (field, value) := cur.scalar.value;
      if field !in rules.lists && (artifact, field) in rules.links {
        found := found + [(rules.links[(artifact, field)], value)];
      }
    }
    assert found == ScalarLinks(rules, artifact, cur);
    if cur.inline.Some? {
      var (field, items) := cur.inline.value;
      if (artifact, field) in rules.links {
        found := found + Tag(rules.links[(artifact, field)], items);
      }
    }
    assert found == ScalarLinks(rules, artifact, cur) + InlineLinks(rules, artifact, cur);
    var listed := CollectList(rules, artifact, shapes, i);
    found := found + listed;
  }

  /** The links of a block list, if the line is the head of one. */
  method CollectList(rules: Rules, artifact: string, shapes: seq<Shape>, i: nat) returns (found: seq<Link>)
    requires i < |shapes|
    ensures found == BlockLinks(rules, artifact, shapes[i], ItemsFrom(shapes, i + 1))
  {
    found := [];
    var head := shapes[i].listHead;
    if head.Some? && (artifact, head.value) in rules.links {
      var items := WalkItems(shapes, i + 1);
      found := Tag(rules.links[(artifact, head.value)], items);
    }
  }

  method WalkItems(shapes: seq<Shape>, start: nat) returns (items: seq<string>)
    requires start <= |shapes|
    ensures items == ItemsFrom(shapes, start)
  {
    items := [];
    var j := start;
    while j < |shapes|
      invariant start <= j <= |shapes|
      invariant items + ItemsFrom(shapes, j) == ItemsFrom(shapes, start)
    {
      var item := shapes[j].item;
      if item == None {
        return;
      }
      assert items + [item.value] + ItemsFrom(shapes, j + 1) == items + ItemsFrom(shapes, j);
      items := items + [item.value];
      j := j + 1;
    }
  }

  /** Scans from the line after `start` to the end of the block. */
  method ScanBlock(rules: Rules, lines: seq<string>, shapes: seq<Shape>, start: nat, indent: string)
    returns (end: nat, scan: Scan)
    requires start < |lines| == |shapes|
    ensures end == start + 1 + BlockLength(lines[start + 1..], indent)
    ensures scan == ScanLines(rules, shapes, start + 1, end)
  {
    end := start + 1;
    scan := Scan(None, "", false, []);
    while end < |lines| && !EndsBlock(lines[end], indent)
      invariant start + 1 <= end <= |lines|
      invariant forall k | start + 1 <= k < end :: !EndsBlock(lines[k], indent)
      invariant scan == ScanLines(rules, shapes, start + 1, end)
      decreases |lines| - end
    {
      var cur := shapes[end];
      if cur.asType.Some? && scan.typeLine == None {
        scan := scan.(typeLine := Some(end), artifact := cur.asType.value.1);
      } else {
        if cur.linksHead {
          scan := scan.(hasLinks := true);
        }
        if scan.typeLine.Some? {
          var found := CollectLinks(rules, scan.artifact, shapes, end);
          scan := scan.(collected := scan.collected + found);
        } else {
          assert scan.collected + [] == scan.collected;
        }
      }
      end := end + 1;
    }
    BlockEnds(lines, start, end, indent);
  }

  lemma BlockEnds(lines: seq<string>, start: nat, end: nat, indent: string)
    requires start < end <= |lines| && forall k | start + 1 <= k < end :: !EndsBlock(lines[k], indent)
    requires end < |lines| ==> EndsBlock(lines[end], indent)
    ensures end == start + 1 + BlockLength(lines[start + 1..], indent)
  {
    var rest := lines[start + 1..];
    assert forall k | 0 <= k < end - start - 1 :: rest[k] == lines[start + 1 + k];
    BlockLengthIs(rest, indent, end - start - 1);
  }

  method BuildLinks(indent: string, links: seq<Link>) returns (built: seq<string>)
    ensures built == Built(indent, links)
  {
    built := [indent + "links:\n"];
    for k := 0 to |links|
      invariant built == Built(indent, links[..k])
    {
      var (linkType, target) := links[k];
      assert links[..k + 1][..k] == links[..k];
      built := built + [indent + "  " + "- type: " + linkType + "\n", indent + "  " + "  target: " + target + "\n"];
    }
    assert links[..|links|] == links;
  }

  /** The text of a block that is emitted. */
  lemma EmittedText(rules: Rules, block: seq<string>)
    ensures var scan := BlockScan(rules, block);
      if Inserts(scan) then
        && scan.typeLine.value < |block| && MatchType(block[scan.typeLine.value]).Some?
        && var t := scan.typeLine.value;
           Texts(EmitBlock(rules, block))
           == block[..t + 1] + Built(MatchType(block[t]).value.0, scan.collected) + block[t + 1..]
      else Texts(EmitBlock(rules, block)) == block
  {
    var scan := BlockScan(rules, block);
    BlockScanMeans(rules, block);
    if Inserts(scan) {
      var t := scan.typeLine.value;
      SpliceTexts(block, t, Built(MatchType(block[t]).value.0, scan.collected));
    }
  }

  lemma EndShape(lines: seq<string>, end: nat, indent: string)
    requires end < |lines| && EndsBlock(lines[end], indent)
    ensures Shapes(lines)[end].item == None
  {
    EndIsNotItem(lines[end], indent);
  }

  /** The scan in place, when it is complete, is the scan of the block. */
  lemma ScanInPlace(rules: Rules, shapes: seq<Shape>, block: seq<Shape>, start: nat, end: nat, whole: Scan, part: Scan)
    requires start < end <= |shapes| && (end < |shapes| ==> shapes[end].item == None)
    requires block == shapes[start..end]
    requires whole == ScanLines(rules, shapes, start + 1, end) && part == ScanLines(rules, block, 1, |block|)
    ensures Local(whole, start) == part
  {
    assert |block| == end - start;
    ScanLocal(rules, shapes, block, start, end, end);
    LocalOfShifted(part, start);
  }

  lemma LocalOfShifted(scan: Scan, start: nat)
    ensures Local(Shifted(scan, start), start) == scan
  {
  }

  lemma ShapesSlice(lines: seq<string>, start: nat, end: nat)
    requires start <= end <= |lines|
    ensures Shapes(lines)[start..end] == Shapes(lines[start..end])
  {
  }

  /** A scan with its type line counted from the start of the block. */
  function Local(scan: Scan, start: nat): Scan {
    scan.(typeLine := if scan.typeLine.Some? && start <= scan.typeLine.value
                      then Some(scan.typeLine.value - start) else None)
  }

  /** The lines of one block with its links put in, if it gets any. */
  method RewriteBlock(rules: Rules, block: seq<string>, scan: Scan) returns (out: seq<string>, inserted: nat)
    requires scan == BlockScan(rules, block)
    ensures out == Texts(EmitBlock(rules, block))
    ensures inserted == BlockCount(rules, block)
  {
    out, inserted := block, 0;
    EmittedText(rules, block);
    if scan.collected != [] && !scan.hasLinks && scan.typeLine.Some? {
      var t := scan.typeLine.value;
      var built := BuildLinks(MatchType(block[t]).value.0, scan.collected);
      out := block[..t + 1] + built + block[t + 1..];
      inserted := |scan.collected|;
    }
  }

  /** A line outside any block. */
  lemma PlainStep(rules: Rules, lines: seq<string>, i: nat)
    requires i < |lines| && MatchId(lines[i]) == None
    ensures Texts(Pieces(rules, lines[i..])) == [lines[i]] + Texts(Pieces(rules, lines[i + 1..]))
    ensures Count(rules, lines[i..]) == Count(rules, lines[i + 1..])
  {
    assert lines[i..][1..] == lines[i + 1..];
    TextsAppend([Kept(lines[i])], Pieces(rules, lines[i + 1..]));
  }

  lemma BlockStep(rules: Rules, lines: seq<string>, i: nat, end: nat, indent: string)
    requires i < |lines| && MatchId(lines[i]) == Some(indent)
    requires end == i + 1 + BlockLength(lines[i + 1..], indent)
    ensures end <= |lines| && (end < |lines| ==> EndsBlock(lines[end], indent))
    ensures Texts(Pieces(rules, lines[i..]))
         == Texts(EmitBlock(rules, lines[i..end])) + Texts(Pieces(rules, lines[end..]))
    ensures Count(rules, lines[i..]) == BlockCount(rules, lines[i..end]) + Count(rules, lines[end..])
  {
    var rest, n := lines[i..], end - i;
    assert rest[1..] == lines[i + 1..] && rest[0] == lines[i];
    assert rest[..n] == lines[i..end] && rest[n..] == lines[end..];
    BlockAt(rest);
    if end < |lines| { assert rest[n..][0] == lines[end]; }
    FirstBlock(rules, rest[..n], rest[n..], indent);
    TextsAppend(EmitBlock(rules, lines[i..end]), Pieces(rules, lines[end..]));
  }

  /** One artifact: from the line that declares it to the end of its block. */
  method ProcessBlock(rules: Rules, lines: seq<string>, shapes: seq<Shape>, start: nat, indent: string)
    returns (end: nat, block: seq<string>, inserted: nat)
    requires start < |lines| && shapes == Shapes(lines)
    ensures end == start + 1 + BlockLength(lines[start + 1..], indent) <= |lines|
    ensures block == Texts(EmitBlock(rules, lines[start..end]))
    ensures inserted == BlockCount(rules, lines[start..end])
  {
    var scan;
    end, scan := ScanBlock(rules, lines, shapes, start, indent);
    BlockScanned(rules, lines, shapes, start, end, indent, scan);
    block, inserted := RewriteBlock(rules, lines[start..end], Local(scan, start));
  }

  /** The scan in place is the scan of the block. */
  lemma BlockScanned(
      rules: Rules, lines: seq<string>, shapes: seq<Shape>, start: nat, end: nat, indent: string, scan: Scan)
    requires start < end <= |lines| && shapes == Shapes(lines)
    requires end == start + 1 + BlockLength(lines[start + 1..], indent)
    requires scan == ScanLines(rules, shapes, start + 1, end)
    ensures Local(scan, start) == BlockScan(rules, lines[start..end])
  {
    BlockEndShape(lines, start, end, indent);
    ShapesSlice(lines, start, end);
    var inner := Shapes(lines[start..end]);
    ScanInPlace(rules, shapes, inner, start, end, scan, ScanLines(rules, inner, 1, |inner|));
  }

  lemma BlockEndShape(lines: seq<string>, start: nat, end: nat, indent: string)
    requires start < end <= |lines| && end == start + 1 + BlockLength(lines[start + 1..], indent)
    ensures end < |lines| ==> Shapes(lines)[end].item == None
  {
    if end < |lines| {
      assert lines[end] == lines[start + 1..][end - start - 1];
      EndShape(lines, end, indent);
    }
  }

  method Process(rules: Rules, lines: seq<string>) returns (out: seq<string>, inserted: nat)
    ensures out == Texts(Pieces(rules, lines))
    ensures inserted == Count(rules, lines)
  {
    out, inserted := [], 0;
    var shapes := Shapes(lines);
    var i := 0;
    ghost var all, total := Texts(Pieces(rules, lines)), Count(rules, lines);
    assert lines[0..] == lines;
    while i < |lines|
      invariant i <= |lines|
      invariant out + Texts(Pieces(rules, lines[i..])) == all
      invariant inserted + Count(rules, lines[i..]) == total
    {
      var id := MatchId(lines[i]);
      if id == None {
        PlainStep(rules, lines, i);
        Regroup(out, [lines[i]], Texts(Pieces(rules, lines[i + 1..])));
        out := out + [lines[i]];
        i := i + 1;
      } else {
        var end, block, n := ProcessBlock(rules, lines, shapes, i, id.value);
        BlockStep(rules, lines, i, end, id.value);
        Regroup(out, block, Texts(Pieces(rules, lines[end..])));
        out, inserted := out + block, inserted + n;
        i := end;
      }
    }
    assert lines[i..] == [];
  }

  method ProcessText(rules: Rules, text: string) returns (newText: string, inserted: nat)
    ensures (newText, inserted) == Migrate(rules, text)
  {
    var out;
    out, inserted := Process(rules, SplitLines(text));
    newText := Join(out);
  }

  // ---- The rules in use ----

  const LINK_MAP: map<(string, string), string> := map[
    ("hazard", "losses") := "leads-to-loss",
    ("sub-hazard", "parent") := "refines",
    ("system-constraint", "hazards") := "prevents",
    ("uca", "controller") := "issued-by",
    ("uca", "hazards") := "leads-to-hazard",
    ("controller-constraint", "controller") := "constrains-controller",
    ("controller-constraint", "ucas") := "inverts-uca",
    ("controller-constraint", "hazards") := "prevents",
    ("loss-scenario", "uca") := "caused-by-uca",
    ("loss-scenario", "ucas") := "caused-by-uca",
    ("loss-scenario", "hazards") := "leads-to-hazard",
    ("control-action", "source") := "issued-by",
    ("control-action", "target") := "acts-on"]

  const LIST_FIELDS: set<string> := {"losses", "hazards", "ucas"}

  lemma LinkMapIsClean()
    ensures Clean(Rules(LINK_MAP, LIST_FIELDS))
  {
    forall k | k in LINK_MAP ensures NoBreaks(LINK_MAP[k]) {
      assert LINK_MAP[k] in LINK_TYPES;
      LinkTypesAreClean(LINK_MAP[k]);
    }
  }

  /** How an artifact refers to another through a field, by what the field names. */
  function Refers(constraint: bool, field: string): string {
    if field == "losses" then "leads-to-loss"
    else if field == "hazards" then if constraint then "prevents" else "leads-to-hazard"
    else if field == "uca" || field == "ucas" then if constraint then "inverts-uca" else "caused-by-uca"
    else if field == "controller" then if constraint then "constrains-controller" else "issued-by"
    else if field == "source" then "issued-by"
    else if field == "target" then "acts-on"
    else "refines"
  }

  predicate IsConstraint(artifact: string) {
    artifact == "system-constraint" || artifact == "controller-constraint"
  }

  /** Each entry of the map is what its field refers to; list fields are the plural ones. */
  lemma LinkMapMeans(artifact: string, field: string)
    requires (artifact, field) in LINK_MAP
    ensures LINK_MAP[(artifact, field)] == Refers(IsConstraint(artifact), field)
    ensures field in LIST_FIELDS <==> field[|field| - 1] == 's'
  {
  }

  const LINK_TYPES: set<string> := {
    "leads-to-loss", "refines", "prevents", "issued-by", "leads-to-hazard", "constrains-controller",
    "inverts-uca", "caused-by-uca", "acts-on"}

  lemma LinkTypesAreClean(linkType: string)
    requires linkType in LINK_TYPES
    ensures NoBreaks(linkType)
  {
  }
}
