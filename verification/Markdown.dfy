/** The inline Markdown of a chat line: strong, emphasis and code, parsed by one cursor and printed back. */
module Markdown {

  /** The nodes of the source, with the marker that opened each strong or emphasised span. */
  datatype Node =
    | Text(value: string)
    | Strong(marker: string, children: seq<Node>)
    | Em(marker: string, children: seq<Node>)
    | Code(value: string)

  // ---------- Strings ----------

  predicate StartsWith(s: string, pattern: string, i: nat) {
    i + |pattern| <= |s| && s[i..i + |pattern|] == pattern
  }

  /** The first position from `from` on where the pattern starts, or -1. */
  function IndexOf(s: string, pattern: string, from: nat): (r: int)
    ensures r == -1 || (from <= r <= |s| - |pattern| && StartsWith(s, pattern, r))
    ensures forall i | from <= i && StartsWith(s, pattern, i) :: r != -1 && r <= i
    decreases |s| - from
  {
    if from + |pattern| > |s| then -1
    else if StartsWith(s, pattern, from) then from
    else IndexOf(s, pattern, from + 1)
  }

  ghost predicate Contains(s: string, pattern: string) {
    exists i: nat :: StartsWith(s, pattern, i)
  }

  predicate Special(c: char) {
    c == '`' || c == '*' || c == '_'
  }

  // ---------- Parsing ----------

  /** What the cursor meets: a span closed by its marker at `end`, or text up to `end`. */
  datatype Token = StrongTo(end: nat) | CodeTo(end: nat) | EmTo(end: nat) | TextTo(end: nat)

  function StrongMarker(s: string, i: nat): string {
    if StartsWith(s, "**", i) || StartsWith(s, "__", i) then s[i..i + 2] else ""
  }

  /** The end of the text that starts at the cursor: the next special character after it. */
  function TextEnd(s: string, i: nat): (e: nat)
    requires i <= |s|
    ensures i <= e <= |s|
    ensures forall k :: i <= k < e ==> !Special(s[k])
    ensures e < |s| ==> Special(s[e])
    decreases |s| - i
  {
    if i == |s| || Special(s[i]) then i else TextEnd(s, i + 1)
  }

  function Scan(s: string, i: nat): (t: Token)
    requires i < |s|
    ensures match t
      case StrongTo(end) => i + 2 < end <= |s| - 2
      case CodeTo(end) => i + 1 < end < |s|
      case EmTo(end) => i + 1 < end < |s|
      case TextTo(end) => i < end <= |s|
  {
    var marker := StrongMarker(s, i);
    if marker != "" && IndexOf(s, marker, i + 2) > i + 2 then StrongTo(IndexOf(s, marker, i + 2))
    else if s[i] == '`' && IndexOf(s, "`", i + 1) > i + 1 then CodeTo(IndexOf(s, "`", i + 1))
    else if (s[i] == '*' || s[i] == '_') && IndexOf(s, s[i..i + 1], i + 1) > i + 1 then EmTo(IndexOf(s, s[i..i + 1], i + 1))
    else TextTo(TextEnd(s, i + 1))
  }

  function ParseFrom(s: string, i: nat): seq<Node>
    requires i <= |s|
    decreases |s|, |s| - i
  {
    if i == |s| then [] else
    match Scan(s, i)
    case StrongTo(end) => [Strong(s[i..i + 2], ParseFrom(s[i + 2..end], 0))] + ParseFrom(s, end + 2)
    case CodeTo(end) => [Code(s[i + 1..end])] + ParseFrom(s, end + 1)
    case EmTo(end) => [Em(s[i..i + 1], ParseFrom(s[i + 1..end], 0))] + ParseFrom(s, end + 1)
    case TextTo(end) => [Text(s[i..end])] + ParseFrom(s, end)
  }

  function Parse(s: string): seq<Node> {
    ParseFrom(s, 0)
  }

  // ---------- Printing ----------

  function PrintNode(n: Node): string {
    match n
    case Text(value) => value
    case Strong(marker, children) => marker + Print(children) + marker
    case Em(marker, children) => marker + Print(children) + marker
    case Code(value) => "`" + value + "`"
  }

  function Print(nodes: seq<Node>): string {
    if nodes == [] then "" else PrintNode(nodes[0]) + Print(nodes[1..])
  }

  lemma PrintCons(n: Node, rest: seq<Node>)
    ensures Print([n] + rest) == PrintNode(n) + Print(rest)
  {
    assert ([n] + rest)[1..] == rest;
  }

  /** The first place a marker is found at leaves no earlier one. */
  lemma FirstFound(s: string, m: string, from: nat)
    requires m != "" && IndexOf(s, m, from) >= 0
    ensures var end := IndexOf(s, m, from); from <= end && end + |m| <= |s| && s[end..end + |m|] == m && !Contains(s[from..end], m)
  {
    var end := IndexOf(s, m, from);
    forall k: nat ensures !StartsWith(s[from..end], m, k) { Shift(s, from, end, m, k); }
  }

  lemma Shift(s: string, from: nat, end: nat, m: string, k: nat)
    requires from <= end <= |s|
    ensures StartsWith(s[from..end], m, k) ==> StartsWith(s, m, from + k) && from + k + |m| <= end
  {
    if StartsWith(s[from..end], m, k) {
      Slice(s, from, end, k, k + |m|);
    }
  }

  lemma Slice(s: string, from: nat, end: nat, a: nat, b: nat)
    requires from <= end <= |s| && a <= b <= end - from
    ensures s[from..end][a..b] == s[from + a..from + b]
  {
    var x, y := s[from..end][a..b], s[from + a..from + b];
    forall k | 0 <= k < b - a ensures x[k] == y[k] { assert s[from..end][a + k] == s[from + a + k]; }
  }

  function Width(t: Token): nat {
    match t case StrongTo(_) => 2 case CodeTo(_) => 1 case EmTo(_) => 1 case TextTo(_) => 0
  }

  lemma ScanIs(s: string, i: nat)
    requires i < |s|
    ensures var t := Scan(s, i); var m := s[i..i + Width(t)];
      && (t.StrongTo? ==> m in {"**", "__"}) && (t.CodeTo? ==> m == "`") && (t.EmTo? ==> m in {"*", "_"})
      && (!t.TextTo? ==> IndexOf(s, m, i + Width(t)) == t.end)
  {
    hide IndexOf;
    if s[i] == '`' { assert s[i..i + 1] == "`"; }
    if s[i] == '*' { assert s[i..i + 1] == "*"; }
    if s[i] == '_' { assert s[i..i + 1] == "_"; }
  }

  lemma Cut(s: string, i: nat, a: nat, end: nat, b: nat)
    requires i <= a <= end <= b <= |s|
    ensures s[i..] == s[i..a] + s[a..end] + s[end..b] + s[b..]
  {
  }

  /** A span is its marker, a stretch free of it, and the marker again. */
  lemma ScannedSpan(s: string, i: nat)
    requires i < |s| && !Scan(s, i).TextTo?
    ensures var t := Scan(s, i); var w := Width(t); var m := s[i..i + w];
      && (t.StrongTo? ==> m in {"**", "__"}) && (t.CodeTo? ==> m == "`") && (t.EmTo? ==> m in {"*", "_"})
      && t.end + w <= |s| && s[i..] == m + s[i + w..t.end] + m + s[t.end + w..] && !Contains(s[i + w..t.end], m)
  {
    var t := Scan(s, i);
    ScanIs(s, i);
    hide Scan, IndexOf, Contains;
    FirstFound(s, s[i..i + Width(t)], i + Width(t));
    Cut(s, i, i + Width(t), t.end, t.end + Width(t));
  }

  /** The first node at a cursor, and the cursor after it. */
  function FirstNode(s: string, i: nat): Node
    requires i < |s|
  {
    match Scan(s, i)
    case StrongTo(end) => Strong(s[i..i + 2], Parse(s[i + 2..end]))
    case CodeTo(end) => Code(s[i + 1..end])
    case EmTo(end) => Em(s[i..i + 1], Parse(s[i + 1..end]))
    case TextTo(end) => Text(s[i..end])
  }

  function After(s: string, i: nat): (j: nat)
    requires i < |s|
    ensures i < j <= |s|
  {
    Scan(s, i).end + Width(Scan(s, i))
  }

  lemma ParseStep(s: string, i: nat)
    requires i < |s|
    ensures ParseFrom(s, i) == [FirstNode(s, i)] + ParseFrom(s, After(s, i))
  {
    hide Scan;
  }

  lemma FirstPrints(s: string, i: nat)
    requires i < |s|
    requires var t := Scan(s, i); (t.StrongTo? || t.EmTo?) ==> Print(Parse(s[i + Width(t)..t.end])) == s[i + Width(t)..t.end]
    ensures s[i..] == PrintNode(FirstNode(s, i)) + s[After(s, i)..]
  {
    var t := Scan(s, i);
    if t.TextTo? {
      assert s[i..] == s[i..t.end] + s[t.end..];
    } else {
      ScannedSpan(s, i);
    }
    hide Scan, Print, Parse;
  }

  /** The printed tree is the source again, for every string and cursor. */
  lemma {:induction false} PrintParseFrom(s: string, i: nat)
    requires i <= |s|
    ensures Print(ParseFrom(s, i)) == s[i..]
    decreases |s|, |s| - i
  {
    if i < |s| {
      var t := Scan(s, i);
      if t.StrongTo? || t.EmTo? { PrintParseFrom(s[i + Width(t)..t.end], 0); }
      PrintParseFrom(s, After(s, i));
      ParseStep(s, i);
      FirstPrints(s, i);
      PrintCons(FirstNode(s, i), ParseFrom(s, After(s, i)));
      hide *;
    }
  }

  lemma RoundTrip(s: string)
    ensures Print(Parse(s)) == s
  {
    PrintParseFrom(s, 0);
  }

  // ---------- When a span is one ----------

  lemma FoundExactly(s: string, m: string, from: nat)
    requires m != "" && from <= |s|
    ensures IndexOf(s, m, from) > from <==> Contains(s[from..], m) && !StartsWith(s, m, from)
  {
    assert s[from..|s|] == s[from..];
    if IndexOf(s, m, from) > from {
      var k: nat := IndexOf(s, m, from) - from;
      Slice(s, from, |s|, k, k + |m|);
      assert StartsWith(s[from..], m, k);
    } else if Contains(s[from..], m) {
      var k: nat :| StartsWith(s[from..], m, k);
      Shift(s, from, |s|, m, k);
    }
  }

  /** Two equal stars or underscores, closed by two more that do not follow at once. */
  ghost predicate OpensStrong(s: string, i: nat) {
    && i + 2 <= |s| && s[i..i + 2] in {"**", "__"}
    && Contains(s[i + 2..], s[i..i + 2]) && !StartsWith(s, s[i..i + 2], i + 2)
  }

  /** A special character that occurs again, but not next. */
  ghost predicate OpensSpan(s: string, i: nat) {
    && i < |s| && Special(s[i])
    && Contains(s[i + 1..], s[i..i + 1]) && !StartsWith(s, s[i..i + 1], i + 1)
  }

  /** Which kind of node starts at a cursor: exactly the spans that can be closed are spans, strong before the others. */
  lemma KindExactly(s: string, i: nat)
    requires i < |s|
    ensures FirstNode(s, i).Strong? <==> OpensStrong(s, i)
    ensures FirstNode(s, i).Code? <==> s[i] == '`' && OpensSpan(s, i)
    ensures FirstNode(s, i).Em? <==> s[i] != '`' && OpensSpan(s, i) && !OpensStrong(s, i)
  {
    if i + 2 <= |s| { FoundExactly(s, s[i..i + 2], i + 2); }
    FoundExactly(s, s[i..i + 1], i + 1);
    assert s[i] == '`' ==> s[i..i + 1] == "`";
    assert StrongMarker(s, i) != "" <==> i + 2 <= |s| && s[i..i + 2] in {"**", "__"};
    assert StrongMarker(s, i) != "" ==> s[i] == s[i..i + 2][0];
    hide IndexOf, Contains, StartsWith, StrongMarker, Parse, TextEnd;
  }

  // ---------- What the nodes look like ----------

  /** No node is empty; a span never contains its own marker; special characters in a text only open it. */
  ghost predicate WellFormed(n: Node) {
    match n
    case Text(value) => value != "" && forall k :: 1 <= k < |value| ==> !Special(value[k])
    case Code(value) => value != "" && !Contains(value, "`")
    case Strong(marker, children) => marker in {"**", "__"} && children != [] && !Contains(Print(children), marker) && AllWellFormed(children)
    case Em(marker, children) => marker in {"*", "_"} && children != [] && !Contains(Print(children), marker) && AllWellFormed(children)
  }

  ghost predicate AllWellFormed(nodes: seq<Node>) {
    forall n <- nodes :: WellFormed(n)
  }

  lemma {:induction false} ParsedFromWellFormed(s: string, i: nat)
    requires i <= |s|
    ensures AllWellFormed(ParseFrom(s, i)) && (i < |s| ==> ParseFrom(s, i) != [])
    decreases |s|, |s| - i
  {
    if i < |s| {
      var t := Scan(s, i);
      if t.StrongTo? || t.EmTo? { ParsedFromWellFormed(s[i + Width(t)..t.end], 0); }
      ParsedFromWellFormed(s, After(s, i));
      ParseStep(s, i);
      FirstWellFormed(s, i);
      hide *;
      hide Scan, WellFormed;
      assert forall n <- ParseFrom(s, i) :: n == FirstNode(s, i) || n in ParseFrom(s, After(s, i));
    }
  }

  lemma FirstWellFormed(s: string, i: nat)
    requires i < |s|
    requires var t := Scan(s, i); (t.StrongTo? || t.EmTo?) ==>
      var inner := Parse(s[i + Width(t)..t.end]); AllWellFormed(inner) && inner != []
    ensures WellFormed(FirstNode(s, i))
  {
    var t := Scan(s, i);
    if t.TextTo? {
      assert t.end == TextEnd(s, i + 1);
    } else {
      ScannedSpan(s, i);
      RoundTrip(s[i + Width(t)..t.end]);
    }
    hide Scan, Print, Parse, Contains, AllWellFormed, TextEnd;
  }

  lemma ParsedWellFormed(s: string)
    ensures AllWellFormed(Parse(s)) && (s != "" ==> Parse(s) != [])
  {
    ParsedFromWellFormed(s, 0);
  }

  // ---------- The loop ----------

  /** What the final filter keeps. */
  predicate Shows(n: Node) {
    match n
    case Text(value) => |value| > 0
    case Code(value) => |value| > 0
    case Strong(_, children) => |children| > 0
    case Em(_, children) => |children| > 0
  }

  function Shown(nodes: seq<Node>): seq<Node> {
    if nodes == [] then [] else Shown(nodes[..|nodes| - 1]) + if Shows(nodes[|nodes| - 1]) then [nodes[|nodes| - 1]] else []
  }

  method FilterNodes(nodes: seq<Node>) returns (kept: seq<Node>)
    ensures kept == Shown(nodes)
  {
    kept := [];
    var i := 0;
    while i < |nodes|
      invariant 0 <= i <= |nodes| && kept == Shown(nodes[..i])
    {
      assert nodes[..i + 1][..i] == nodes[..i];
      if Shows(nodes[i]) { kept := kept + [nodes[i]]; }
      i := i + 1;
    }
    assert nodes[..i] == nodes;
  }

  /** The filter removes nothing from well-formed nodes. */
  lemma {:induction false} FilterIdle(nodes: seq<Node>)
    requires AllWellFormed(nodes)
    ensures Shown(nodes) == nodes
  {
    if nodes != [] {
      FilterIdle(nodes[..|nodes| - 1]);
      assert WellFormed(nodes[|nodes| - 1]);
    }
  }

  /** The inner loop over plain text. */
  method FindTextEnd(source: string, cursor: nat) returns (next: nat)
    requires cursor < |source|
    ensures next == TextEnd(source, cursor + 1)
  {
    next := cursor + 1;
    while next < |source|
      invariant cursor + 1 <= next <= |source|
      invariant TextEnd(source, cursor + 1) == TextEnd(source, next)
    {
      if StartsWith(source, "**", next) || StartsWith(source, "__", next) || Special(source[next]) {
        assert StartsWith(source, "**", next) || StartsWith(source, "__", next) ==> source[next] == source[next..next + 2][0];
        break;
      }
      next := next + 1;
    }
  }

  /** `parseInlineMarkdown`: the cursor always advances, the recursion is on shorter strings, and the filter drops nothing. */
  method ParseInlineMarkdown(source: string) returns (nodes: seq<Node>)
    ensures nodes == Parse(source)
    decreases |source|
  {
    hide IndexOf, StrongMarker, TextEnd, StartsWith, ParseFrom, AllWellFormed, Shown;
    nodes := [];
    var cursor := 0;
    ParseDone(source);
    while cursor < |source|
      invariant 0 <= cursor <= |source|
      invariant nodes + ParseFrom(source, cursor) == ParseFrom(source, 0)
      decreases |source| - cursor
    {
      ghost var at := cursor;
      var node;
      var marker := StrongMarker(source, cursor);
      var end := if marker != "" then IndexOf(source, marker, cursor + 2) else -1;
      if end > cursor + 2 {
        StrongIs(source, cursor);
        var children := ParseInlineMarkdown(source[cursor + 2..end]);
        node := Strong(marker, children);
        cursor := end + 2;
      } else {
        end := if source[cursor] == '`' then IndexOf(source, "`", cursor + 1) else -1;
        if end > cursor + 1 {
          node := Code(source[cursor + 1..end]);
          cursor := end + 1;
        } else {
          end := if source[cursor] == '*' || source[cursor] == '_' then IndexOf(source, source[cursor..cursor + 1], cursor + 1) else -1;
          if end > cursor + 1 {
            var children := ParseInlineMarkdown(source[cursor + 1..end]);
            node := Em(source[cursor..cursor + 1], children);
            cursor := end + 1;
          } else {
            var next := FindTextEnd(source, cursor);
            node := Text(source[cursor..next]);
            cursor := next;
          }
        }
      }
      assert node == FirstNode(source, at) && cursor == After(source, at) by { hide Parse; }
      nodes := nodes + [node];
      hide Scan, FirstNode, After;
      Advance(nodes[..|nodes| - 1], source, at);
    }
    ParseDone(source);
    ParsedWellFormed(source);
    FilterIdle(nodes);
    nodes := FilterNodes(nodes);
  }

  lemma StrongIs(s: string, i: nat)
    requires i < |s| && StrongMarker(s, i) != ""
    ensures i + 2 <= |s| && StrongMarker(s, i) == s[i..i + 2]
  {
  }

  lemma ParseDone(s: string)
    ensures ParseFrom(s, |s|) == [] && Parse(s) == ParseFrom(s, 0)
  {
  }

  lemma Advance(before: seq<Node>, s: string, i: nat)
    requires i < |s| && before + ParseFrom(s, i) == ParseFrom(s, 0)
    ensures before + [FirstNode(s, i)] + ParseFrom(s, After(s, i)) == ParseFrom(s, 0)
  {
    ParseStep(s, i);
    hide ParseFrom, FirstNode, After;
  }
}
