/** Blanking of nested block comments in Lean source, keeping every line where it is. */
module LeanComments {
  import opened Sequences

  predicate Opens(text: string) {
    2 <= |text| && text[0] == '/' && text[1] == '-'
  }

  predicate Closes(text: string) {
    2 <= |text| && text[0] == '-' && text[1] == '/'
  }

  function BlankChar(c: char): char {
    if c == '\n' then '\n' else ' '
  }

  /** What becomes of the remaining text at nesting depth `depth`. */
  function Blank(text: string, depth: nat): string
    decreases |text|
  {
    if text == [] then []
    else if Opens(text) then "  " + Blank(text[2..], depth + 1)
    else if Closes(text) && 0 < depth then "  " + Blank(text[2..], depth - 1)
    else [if 0 < depth then BlankChar(text[0]) else text[0]] + Blank(text[1..], depth)
  }

  lemma Suffix(text: string, i: nat, n: nat)
    requires i + n <= |text|
    ensures text[i..][n..] == text[i + n..]
  {
  }

  method BlankBlocks(text: string) returns (out: string)
    ensures out == Blank(text, 0)
  {
    out := [];
    var i, depth := 0, 0;
    assert text[0..] == text;
    while i < |text|
      invariant i <= |text|
      invariant out + Blank(text[i..], depth) == Blank(text, 0)
      decreases |text| - i
    {
      var rest := text[i..];
      if Opens(rest) {
        Suffix(text, i, 2);
        Regroup(out, "  ", Blank(rest[2..], depth + 1));
        depth := depth + 1;
        out := out + "  ";
        i := i + 2;
      } else if Closes(rest) && 0 < depth {
        Suffix(text, i, 2);
        Regroup(out, "  ", Blank(rest[2..], depth - 1));
        depth := depth - 1;
        out := out + "  ";
        i := i + 2;
      } else {
        var c := if 0 < depth then BlankChar(text[i]) else text[i];
        Suffix(text, i, 1);
        Regroup(out, [c], Blank(rest[1..], depth));
        out := out + [c];
        i := i + 1;
      }
    }
    assert text[i..] == [];
  }

  /** Nothing moves: the output is as long as the input and has its line breaks in the same places. */
  lemma {:induction false} PositionsKept(text: string, depth: nat)
    ensures |Blank(text, depth)| == |text|
    ensures forall k | 0 <= k < |text| :: Blank(text, depth)[k] == '\n' <==> text[k] == '\n'
    ensures forall k | 0 <= k < |text| :: Blank(text, depth)[k] == text[k] || Blank(text, depth)[k] == ' '
    decreases |text|
  {
    if text != [] {
      if Opens(text) {
        PositionsKept(text[2..], depth + 1);
      } else if Closes(text) && 0 < depth {
        PositionsKept(text[2..], depth - 1);
      } else {
        PositionsKept(text[1..], depth);
      }
    }
  }

  ghost predicate NoOpening(text: string) {
    forall k | 0 <= k < |text| :: !Opens(text[k..])
  }

  /** No comment opens in the output. */
  lemma {:induction false} NothingOpens(text: string, depth: nat, k: nat)
    requires k < |Blank(text, depth)|
    ensures !Opens(Blank(text, depth)[k..])
    decreases |text|
  {
    var out := Blank(text, depth);
    PositionsKept(text, depth);
    if Opens(text) {
      if 2 <= k { NothingOpens(text[2..], depth + 1, k - 2); Suffix(out, 2, k - 2); }
    } else if Closes(text) && 0 < depth {
      if 2 <= k { NothingOpens(text[2..], depth - 1, k - 2); Suffix(out, 2, k - 2); }
    } else if 1 <= k {
      NothingOpens(text[1..], depth, k - 1);
      Suffix(out, 1, k - 1);
    }
  }

  lemma {:induction false} UncommentedKept(text: string)
    requires NoOpening(text)
    ensures Blank(text, 0) == text
    decreases |text|
  {
    if text != [] {
      assert text[0..] == text;
      forall k | 0 <= k < |text[1..]| ensures !Opens(text[1..][k..]) { Suffix(text, 1, k); }
      UncommentedKept(text[1..]);
    }
  }

  /** Blanking twice is blanking once. */
  lemma BlankingIsIdempotent(text: string)
    ensures Blank(Blank(text, 0), 0) == Blank(text, 0)
  {
    var out := Blank(text, 0);
    forall k | 0 <= k < |out| ensures !Opens(out[k..]) { NothingOpens(text, 0, k); }
    UncommentedKept(out);
  }

  // ---- Comments as trees ----

  /** Source text as it is meant: characters, and comments that may hold comments. */
  datatype Item = Plain(c: char) | Comment(body: seq<Item>)

  function Delimited(inner: string): string {
    "/-" + inner + "-/"
  }

  function WrittenItem(item: Item): string {
    match item
    case Plain(c) => [c]
    case Comment(body) => Delimited(Written(body))
  }

  /** What is written down, item by item. */
  function Written(items: seq<Item>): string {
    if items == [] then [] else WrittenItem(items[0]) + Written(items[1..])
  }

  function Spaces(text: string): string {
    if text == [] then [] else [BlankChar(text[0])] + Spaces(text[1..])
  }

  /** Blanked text has its line breaks where they were, and is blank otherwise. */
  lemma {:induction false} SpacesMean(text: string, k: nat)
    requires k < |text|
    ensures |Spaces(text)| == |text| && Spaces(text)[k] == if text[k] == '\n' then '\n' else ' '
  {
    if 1 < |text| { SpacesMean(text[1..], if 0 < k then k - 1 else 0); }
  }

  /** The text with its comments blanked. */
  function Uncommented(items: seq<Item>): string {
    if items == [] then []
    else
      (match items[0]
       case Plain(c) => [c]
       case Comment(body) => Spaces(Delimited(Written(body)))) + Uncommented(items[1..])
  }

  /** A plain character does not make a delimiter with what follows; closing ones count only inside. */
  predicate Innocent(c: char, after: string, inside: bool) {
    !Opens([c] + after) && (inside ==> !Closes([c] + after))
  }

  /** Read before `after`, no delimiter arises by accident. */
  predicate Unambiguous(items: seq<Item>, after: string, inside: bool) {
    items != [] ==>
      && (match items[0]
          case Plain(c) => Innocent(c, Written(items[1..]) + after, inside)
          case Comment(body) => Unambiguous(body, "-/", true))
      && Unambiguous(items[1..], after, inside)
  }

  lemma {:induction false} SpacesAppend(a: string, b: string)
    ensures Spaces(a + b) == Spaces(a) + Spaces(b)
  {
    if a == [] {
      assert a + b == b;
    } else {
      assert (a + b)[1..] == a[1..] + b;
      SpacesAppend(a[1..], b);
    }
  }

  /** Only the first character that follows matters. */
  lemma {:induction false} UnambiguousBefore(items: seq<Item>, after: string, more: string, inside: bool)
    requires Unambiguous(items, after, inside) && after != []
    ensures Unambiguous(items, after + more, inside)
  {
    if items != [] {
      UnambiguousBefore(items[1..], after, more, inside);
      Regroup(Written(items[1..]), after, more);
    }
  }

  lemma PlainStep(c: char, after: string, depth: nat)
    requires Innocent(c, after, 0 < depth)
    ensures Blank([c] + after, depth) == [if 0 < depth then BlankChar(c) else c] + Blank(after, depth)
  {
    assert ([c] + after)[1..] == after;
  }

  lemma OpenStep(after: string, depth: nat)
    ensures Blank("/-" + after, depth) == "  " + Blank(after, depth + 1)
  {
    assert ("/-" + after)[2..] == after;
  }

  lemma CloseStep(after: string, depth: nat)
    ensures Blank("-/" + after, depth + 1) == "  " + Blank(after, depth)
  {
    assert ("-/" + after)[2..] == after;
  }

  /** What an item leaves behind at a depth: blanks inside a comment, itself outside if it is plain. */
  lemma {:induction false} ItemBlanked(item: Item, after: string, depth: nat)
    requires match item
             case Plain(c) => Innocent(c, after, 0 < depth)
             case Comment(body) => Unambiguous(body, "-/", true)
    ensures Blank(WrittenItem(item) + after, depth)
         == (if depth == 0 && item.Plain? then [item.c] else Spaces(WrittenItem(item))) + Blank(after, depth)
    decreases item, 0
  {
    match item {
      case Plain(c) =>
        PlainStep(c, after, depth);
        assert Spaces([c]) == [BlankChar(c)] + Spaces([]);
      case Comment(body) =>
        CommentBlanked(body, after, depth);
    }
  }

  lemma {:induction false} CommentBlanked(body: seq<Item>, after: string, depth: nat)
    requires Unambiguous(body, "-/", true)
    ensures Blank(Delimited(Written(body)) + after, depth) == Spaces(Delimited(Written(body))) + Blank(after, depth)
    decreases body, 1
  {
    var inner := Written(body);
    var rest := inner + ("-/" + after);
    assert Delimited(inner) + after == "/-" + rest;
    OpenStep(rest, depth);
    UnambiguousBefore(body, "-/", after, true);
    InsideBlanked(body, "-/" + after, depth + 1);
    CloseStep(after, depth);
    SpacesDelimited(inner);
    Reassemble(Spaces(inner), Blank(after, depth));
  }

  lemma SpacesDelimited(inner: string)
    ensures Spaces(Delimited(inner)) == "  " + Spaces(inner) + "  "
  {
    SpacesAppend("/-" + inner, "-/");
    SpacesAppend("/-", inner);
    assert Spaces("/-") == "  ";
    assert Spaces("-/") == "  ";
  }

  lemma Reassemble(inner: string, tail: string)
    ensures "  " + (inner + ("  " + tail)) == "  " + inner + "  " + tail
  {
  }

  /** The scanner inside a comment passes over items and comes out at the same depth. */
  lemma {:induction false} InsideBlanked(items: seq<Item>, after: string, depth: nat)
    requires Unambiguous(items, after, true) && 0 < depth
    ensures Blank(Written(items) + after, depth) == Spaces(Written(items)) + Blank(after, depth)
    decreases items, 0
  {
    if items == [] {
      assert Written(items) + after == after;
    } else {
      var head, rest := WrittenItem(items[0]), Written(items[1..]);
      Regroup(head, rest, after);
      ItemBlanked(items[0], rest + after, depth);
      InsideBlanked(items[1..], after, depth);
      SpacesAppend(head, rest);
      Regroup(Spaces(head), Spaces(rest), Blank(after, depth));
    }
  }

  // ---- Every text is such a source, but for comments left open ----

  /** Comments that are never closed, each inside the one before. */
  function WrittenOpen(levels: seq<seq<Item>>): string {
    if levels == [] then [] else "/-" + (Written(levels[0]) + WrittenOpen(levels[1..]))
  }

  predicate OpenUnambiguous(levels: seq<seq<Item>>) {
    levels != [] ==> Unambiguous(levels[0], WrittenOpen(levels[1..]), true) && OpenUnambiguous(levels[1..])
  }

  /** What an unfinished reading of `text` has found: items, and then the end, open levels or a closing delimiter. */
  predicate Reading(text: string, inside: bool, items: seq<Item>, levels: seq<seq<Item>>, closed: bool, rest: string) {
    && (closed ==> inside && levels == [])
    && text == Written(items) + (if closed then "-/" + rest else WrittenOpen(levels))
    && Unambiguous(items, if closed then "-/" else WrittenOpen(levels), inside)
    && OpenUnambiguous(levels)
  }

  /** Reads items up to the closing delimiter of the comment at hand, or to the end. */
  lemma {:induction false} Read(text: string, inside: bool)
    returns (items: seq<Item>, levels: seq<seq<Item>>, closed: bool, rest: string)
    ensures Reading(text, inside, items, levels, closed, rest) && |rest| <= |text|
    decreases |text|
  {
    items, levels, closed, rest := [], [], false, [];
    if text == [] {
    } else if Opens(text) {
      items, levels, closed, rest := ReadComment(text, inside);
    } else if Closes(text) && inside {
      closed, rest := true, text[2..];
      assert text == "-/" + rest;
    } else {
      items, levels, closed, rest := Read(text[1..], inside);
      PlainReading(text, inside, items, levels, closed, rest);
      items := [Plain(text[0])] + items;
    }
  }

  lemma PlainReading(text: string, inside: bool, items: seq<Item>, levels: seq<seq<Item>>, closed: bool, rest: string)
    requires text != [] && !Opens(text) && !(Closes(text) && inside)
    requires Reading(text[1..], inside, items, levels, closed, rest)
    ensures Reading(text, inside, [Plain(text[0])] + items, levels, closed, rest)
  {
    var c, more := text[0], [Plain(text[0])] + items;
    assert more[1..] == items;
    var after := if closed then "-/" else WrittenOpen(levels);
    assert text == [c] + text[1..];
    if closed {
      Regroup([c], Written(items), "-/" + rest);
      Regroup(Written(items), "-/", rest);
      assert text == [c] + ((Written(items) + after) + rest);
      InnocentPrefix(c, Written(items) + after, rest, inside);
    } else {
      Regroup([c], Written(items), after);
    }
  }

  /** Two characters decide, and they are there. */
  lemma InnocentPrefix(c: char, after: string, rest: string, inside: bool)
    requires after != [] && Innocent(c, after + rest, inside)
    ensures Innocent(c, after, inside)
  {
    assert ([c] + (after + rest))[1] == ([c] + after)[1];
  }

  lemma {:induction false} ReadComment(text: string, inside: bool)
    returns (items: seq<Item>, levels: seq<seq<Item>>, closed: bool, rest: string)
    requires Opens(text)
    ensures Reading(text, inside, items, levels, closed, rest) && |rest| <= |text|
    decreases |text|, 0
  {
    assert text == "/-" + text[2..];
    var body, deeper, ended, after := Read(text[2..], true);
    if ended {
      items, levels, closed, rest := Read(after, inside);
      CommentReading(text, inside, body, after, items, levels, closed, rest);
      items := [Comment(body)] + items;
    } else {
      items, levels, closed, rest := [], [body] + deeper, false, [];
      assert levels[1..] == deeper;
      assert Written(items) == [];
      assert text == Written(items) + WrittenOpen(levels);
    }
  }

  lemma CommentReading(
      text: string, inside: bool, body: seq<Item>, after: string,
      items: seq<Item>, levels: seq<seq<Item>>, closed: bool, rest: string)
    requires Opens(text) && Reading(text[2..], true, body, [], true, after)
    requires Reading(after, inside, items, levels, closed, rest)
    ensures Reading(text, inside, [Comment(body)] + items, levels, closed, rest)
  {
    assert text == "/-" + text[2..];
    DelimitedThen(Written(body), after);
    CommentPrefix(body, items);
    Regroup(Delimited(Written(body)), Written(items), if closed then "-/" + rest else WrittenOpen(levels));
  }

  lemma DelimitedThen(inner: string, after: string)
    ensures "/-" + (inner + ("-/" + after)) == Delimited(inner) + after
  {
  }

  lemma CommentPrefix(body: seq<Item>, items: seq<Item>)
    ensures Written([Comment(body)] + items) == Delimited(Written(body)) + Written(items)
    ensures forall after: string, inside: bool | Unambiguous(body, "-/", true) && Unambiguous(items, after, inside) ::
      Unambiguous([Comment(body)] + items, after, inside)
  {
    assert ([Comment(body)] + items)[1..] == items;
  }

  /** Open comments are blanked to the end. */
  lemma {:induction false} OpenBlanked(levels: seq<seq<Item>>, depth: nat)
    requires OpenUnambiguous(levels)
    ensures Blank(WrittenOpen(levels), depth) == Spaces(WrittenOpen(levels))
  {
    if levels != [] {
      var inner, deeper := Written(levels[0]), WrittenOpen(levels[1..]);
      OpenStep(inner + deeper, depth);
      InsideBlanked(levels[0], deeper, depth + 1);
      OpenBlanked(levels[1..], depth + 1);
      SpacesAppend("/-", inner + deeper);
      SpacesAppend(inner, deeper);
      assert Spaces("/-") == "  ";
    }
  }

  lemma {:induction false} OutsideKept(items: seq<Item>, after: string)
    requires Unambiguous(items, after, false)
    ensures Blank(Written(items) + after, 0) == Uncommented(items) + Blank(after, 0)
  {
    if items == [] {
      assert Written(items) + after == after;
    } else {
      var head, rest := WrittenItem(items[0]), Written(items[1..]);
      Regroup(head, rest, after);
      ItemBlanked(items[0], rest + after, 0);
      OutsideKept(items[1..], after);
      Regroup(Uncommented(items[..1]), Uncommented(items[1..]), Blank(after, 0));
    }
  }

  /**
   Every text is characters and closed comments, followed by comments that are never closed; and
   blanking keeps exactly the characters outside comments and blanks all else, nested or open.
   */
  lemma EveryTextBlanked(text: string) returns (items: seq<Item>, levels: seq<seq<Item>>)
    ensures text == Written(items) + WrittenOpen(levels)
    ensures Unambiguous(items, WrittenOpen(levels), false) && OpenUnambiguous(levels)
    ensures Blank(text, 0) == Uncommented(items) + Spaces(WrittenOpen(levels))
  {
    var closed: bool, rest: string;
    items, levels, closed, rest := Read(text, false);
    UnterminatedBlanked(items, levels);
  }

  /** Exactly the comments of a source are blanked, however deep they nest, if all are closed. */
  lemma CommentsBlanked(items: seq<Item>)
    requires Unambiguous(items, [], false)
    ensures Blank(Written(items), 0) == Uncommented(items)
  {
    OutsideKept(items, []);
    assert Written(items) + [] == Written(items);
  }

  /** What follows a comment that is never closed is blanked, whatever precedes it. */
  lemma UnterminatedBlanked(items: seq<Item>, levels: seq<seq<Item>>)
    requires Unambiguous(items, WrittenOpen(levels), false) && OpenUnambiguous(levels)
    ensures Blank(Written(items) + WrittenOpen(levels), 0) == Uncommented(items) + Spaces(WrittenOpen(levels))
  {
    OutsideKept(items, WrittenOpen(levels));
    OpenBlanked(levels, 0);
  }
}
