/**
 * Properties of the emitted DOT text: brackets balance, every dependency
 * yields exactly one edge statement, cluster hints appear exactly when an
 * endpoint is a group, and the document is framed by the preamble and the
 * closing brace.
 */
module DotProperties {

  import opened Wrappers
  import opened Text
  import opened Issues
  import opened Forest
  import opened Emitter

  // ---------------------------------------------------------------------
  // Counting characters
  // ---------------------------------------------------------------------

  /** How often `c` occurs in `s`. */
  function Count(c: char, s: string): nat
    decreases |s|
  {
    if s == [] then 0 else Count(c, s[..|s| - 1]) + (if s[|s| - 1] == c then 1 else 0)
  }

  lemma {:induction false} CountAppend(c: char, a: string, b: string)
    ensures Count(c, a + b) == Count(c, a) + Count(c, b)
    decreases |b|
  {
    if b == [] {
      assert a + b == a;
    } else {
      assert (a + b)[..|a + b| - 1] == a + b[..|b| - 1];
      CountAppend(c, a, b[..|b| - 1]);
    }
  }

  lemma {:induction false} CountAbsent(c: char, s: string)
    requires c !in s
    ensures Count(c, s) == 0
    decreases |s|
  {
    if s != [] {
      assert s[..|s| - 1] + [s[|s| - 1]] == s;
      CountAbsent(c, s[..|s| - 1]);
    }
  }

  /** Appending text without `c` leaves the count of `c` unchanged. */
  lemma CountAppendAbsent(c: char, a: string, b: string)
    requires c !in b
    ensures Count(c, a + b) == Count(c, a)
  {
    CountAppend(c, a, b);
    CountAbsent(c, b);
  }

  /** 1 when `c` is `d`, else 0: what one occurrence of `d` adds to the count of `c`. */
  function Delta(c: char, d: char): nat { if c == d then 1 else 0 }

  /** Appending one `d` between texts without `c`. */
  lemma CountAppendOne(c: char, a: string, before: string, d: char, after: string)
    requires IsBracket(c) && BracketFree(before) && BracketFree(after)
    ensures Count(c, a + (before + [d] + after)) == Count(c, a) + Delta(c, d)
  {
    CountAppend(c, a, before + [d] + after);
    CountAppend(c, before + [d], after);
    CountAppend(c, before, [d]);
    assert c !in before && c !in after;
    CountAbsent(c, before);
    CountAbsent(c, after);
    assert [d][..0] == [];
  }

  /** The four bracket characters of DOT blocks. */
  predicate IsBracket(c: char) { c == '{' || c == '}' || c == '[' || c == ']' }

  predicate BracketFree(s: string) { forall i | 0 <= i < |s| :: !IsBracket(s[i]) }

  /** Appending bracket-free text leaves every bracket count unchanged. */
  lemma CountAppendFree(c: char, a: string, b: string)
    requires IsBracket(c) && BracketFree(b)
    ensures Count(c, a + b) == Count(c, a)
  {
    CountAppendAbsent(c, a, b);
  }

  /** The fixed pieces of a node's attribute lines hold no bracket. */
  lemma AttributeLiteralsBracketFree()
    ensures BracketFree("  label = <") && BracketFree("<s>") && BracketFree("</s>") && BracketFree("") && BracketFree(": ")
    ensures BracketFree("<br/><font point-size=\"12\">") && BracketFree("</font>")
    ensures BracketFree(">;\n") && BracketFree("  href = \"") && BracketFree("issue/") && BracketFree("\";\n")
    ensures BracketFree("  fillcolor = \"") && BracketFree("  fontcolor = \"") && BracketFree("  color = \"")
    ensures BracketFree("subgraph cluster_") && BracketFree(" ") && BracketFree("\n")
  {
  }

  lemma IndentBracketFree(level: nat)
    ensures BracketFree(Indent(level))
  {
  }

  lemma SixDigitColorBracketFree(s: string)
    requires IsSixDigitColor(s)
    ensures BracketFree(s)
  {
    forall i | 0 <= i < |s| ensures !IsBracket(s[i]) {
      if i > 0 {
        assert s[i] == s[1..][i - 1];
      }
    }
  }

  // ---------------------------------------------------------------------
  // Brackets per node
  // ---------------------------------------------------------------------

  /** The free-text parts of an issue hold no brace and no square bracket. */
  predicate TextBracketFree(gi: GraphvizIssue) {
    BracketFree(gi.id) && BracketFree(gi.escapedSummary)
    && (gi.assignee.Some? ==> BracketFree(gi.assignee.value.fullName))
  }

  /** The bracket that opens the block of a group (`{`) or of a leaf (`[`). */
  function OpenBracket(isGroup: bool): char { if isGroup then '{' else '[' }

  /** The bracket that closes it. */
  function CloseBracket(isGroup: bool): char { if isGroup then '}' else ']' }

  /** A group opens one brace, a leaf one square bracket. */
  lemma WriteOpenerCount(c: char, dot: string, currentIndent: string, gi: GraphvizIssue, isSubgraph: bool)
    requires IsBracket(c) && BracketFree(currentIndent) && IsIdentifier(gi.nodeLabel)
    ensures Count(c, WriteOpener(dot, currentIndent, gi, isSubgraph)) == Count(c, dot) + Delta(c, OpenBracket(isSubgraph))
  {
    AttributeLiteralsBracketFree();
    CountAppendFree(c, dot, currentIndent);
    var indented := dot + currentIndent;
    if isSubgraph {
      CountAppendFree(c, indented, "subgraph cluster_");
      CountAppendFree(c, indented + "subgraph cluster_", gi.nodeLabel);
      CountAppendOne(c, indented + "subgraph cluster_" + gi.nodeLabel, " ", '{', "\n");
      assert " " + ['{'] + "\n" == " {\n";
    } else {
      CountAppendFree(c, indented, gi.nodeLabel);
      CountAppendOne(c, indented + gi.nodeLabel, " ", '[', "\n");
      assert " " + ['['] + "\n" == " [\n";
    }
  }

  /** The label attribute holds no bracket of its own. */
  lemma WriteLabelCount(c: char, dot: string, currentIndent: string, gi: GraphvizIssue)
    requires IsBracket(c) && BracketFree(currentIndent) && TextBracketFree(gi)
    ensures Count(c, WriteLabel(dot, currentIndent, gi)) == Count(c, dot)
  {
    AttributeLiteralsBracketFree();
    var t0 := dot + currentIndent;
    CountAppendFree(c, dot, currentIndent);
    var t1 := t0 + "  label = <";
    CountAppendFree(c, t0, "  label = <");
    var t2 := t1 + BeginLabel(gi);
    CountAppendFree(c, t1, BeginLabel(gi));
    var t3 := t2 + gi.id;
    CountAppendFree(c, t2, gi.id);
    var t4 := t3 + ": ";
    CountAppendFree(c, t3, ": ");
    var t5 := t4 + gi.escapedSummary;
    CountAppendFree(c, t4, gi.escapedSummary);
    var text := t5 + EndLabel(gi);
    CountAppendFree(c, t5, EndLabel(gi));
    if gi.assignee.Some? {
      var name := gi.assignee.value.fullName;
      var u0 := text + "<br/><font point-size=\"12\">";
      CountAppendFree(c, text, "<br/><font point-size=\"12\">");
      CountAppendFree(c, u0, name);
      CountAppendFree(c, u0 + name, "</font>");
    }
  }

  /** Nor do the href and colour lines. */
  lemma WriteLinkAndColoursCount(c: char, dot: string, currentIndent: string, gi: GraphvizIssue, baseUrl: string)
    requires ColoursValid(gi)
    requires IsBracket(c) && BracketFree(currentIndent) && BracketFree(gi.id) && BracketFree(baseUrl)
    ensures Count(c, WriteLinkAndColours(dot, currentIndent, gi, baseUrl)) == Count(c, dot)
  {
    AttributeLiteralsBracketFree();
    var fg, bg := FgColor(gi).value, BgColor(gi).value;
    SixDigitColorBracketFree(fg);
    SixDigitColorBracketFree(bg);
    var t := dot + ">;\n";
    CountAppendFree(c, dot, ">;\n");
    CountAppendFree(c, t, currentIndent);
    t := t + currentIndent;
    CountAppendFree(c, t, "  href = \"");
    t := t + "  href = \"";
    CountAppendFree(c, t, baseUrl);
    t := t + baseUrl;
    CountAppendFree(c, t, "issue/");
    t := t + "issue/";
    CountAppendFree(c, t, gi.id);
    t := t + gi.id;
    CountAppendFree(c, t, "\";\n");
    t := t + "\";\n";
    CountAppendFree(c, t, currentIndent);
    t := t + currentIndent;
    CountAppendFree(c, t, "  fillcolor = \"");
    t := t + "  fillcolor = \"";
    CountAppendFree(c, t, bg);
    t := t + bg;
    CountAppendFree(c, t, "\";\n");
    t := t + "\";\n";
    CountAppendFree(c, t, currentIndent);
    t := t + currentIndent;
    CountAppendFree(c, t, "  fontcolor = \"");
    t := t + "  fontcolor = \"";
    CountAppendFree(c, t, fg);
    t := t + fg;
    CountAppendFree(c, t, "\";\n");
    t := t + "\";\n";
    CountAppendFree(c, t, currentIndent);
    t := t + currentIndent;
    CountAppendFree(c, t, "  color = \"");
    t := t + "  color = \"";
    CountAppendFree(c, t, fg);
    t := t + fg;
    CountAppendFree(c, t, "\";\n");
    t := t + "\";\n";
    assert t == WriteLinkAndColours(dot, currentIndent, gi, baseUrl);
  }

  /** A group closes one brace, a leaf one square bracket. */
  lemma WriteLeaveCount(c: char, dot: string, currentIndent: string, isParent: bool)
    requires IsBracket(c) && BracketFree(currentIndent)
    ensures Count(c, WriteLeave(dot, currentIndent, isParent)) == Count(c, dot) + Delta(c, CloseBracket(isParent))
  {
    AttributeLiteralsBracketFree();
    CountAppendFree(c, dot, currentIndent);
    if isParent {
      CountAppendOne(c, dot + currentIndent, "", '}', "\n");
      assert "" + ['}'] + "\n" == "}\n";
    } else {
      CountAppendOne(c, dot + currentIndent, "", ']', "\n");
      assert "" + [']'] + "\n" == "]\n";
    }
  }

  /** Entering a node opens exactly one block: a brace for a group, a square bracket for a leaf. */
  lemma WriteEnterCount(c: char, dot: string, currentIndent: string, node: Node, baseUrl: string)
    requires ColoursValid(node.issue.graphvizIssue)
    requires IsBracket(c) && BracketFree(currentIndent) && BracketFree(baseUrl)
    requires IsIdentifier(node.Label()) && TextBracketFree(node.issue.graphvizIssue)
    ensures Count(c, WriteEnter(dot, currentIndent, node, baseUrl)) == Count(c, dot) + Delta(c, OpenBracket(node.IsGroup()))
  {
    var gi := node.issue.graphvizIssue;
    var withOpener := WriteOpener(dot, currentIndent, gi, node.IsGroup());
    WriteOpenerCount(c, dot, currentIndent, gi, node.IsGroup());
    var labelled := WriteLabel(withOpener, currentIndent, gi);
    WriteLabelCount(c, withOpener, currentIndent, gi);
    var attributes := WriteLinkAndColours(labelled, currentIndent, gi, baseUrl);
    WriteLinkAndColoursCount(c, labelled, currentIndent, gi, baseUrl);
    AttributeLiteralsBracketFree();
    CountAppendFree(c, attributes, "\n");
  }

  // ---------------------------------------------------------------------
  // Brackets over a forest
  // ---------------------------------------------------------------------

  /** Every label in the forest is an identifier and no issue text holds a bracket. */
  predicate ForestTextsClean(ns: seq<Node>)
    decreases ns
  {
    forall i | 0 <= i < |ns| ::
      IsIdentifier(ns[i].Label()) && TextBracketFree(ns[i].issue.graphvizIssue) && ForestTextsClean(ns[i].children)
  }

  /** The number of groups (when `groups`) or of leaves in the forest. */
  function Blocks(ns: seq<Node>, groups: bool): nat
    decreases ns
  {
    if ns == [] then 0
    else
      var n := ns[|ns| - 1];
      Blocks(ns[..|ns| - 1], groups) + (if n.IsGroup() == groups then 1 else 0) + Blocks(n.children, groups)
  }

  /** Whether `c` belongs to the blocks of groups (a brace) or of leaves (a square bracket). */
  predicate IsBrace(c: char) { c == '{' || c == '}' }

  /** The hypotheses on a forest hold for all but its last tree, and for that tree. */
  lemma LastOfForest(ns: seq<Node>)
    requires ns != [] && ForestColoursValid(ns) && ForestTextsClean(ns)
    ensures ForestColoursValid(ns[..|ns| - 1]) && ForestTextsClean(ns[..|ns| - 1])
    ensures ColoursValid(ns[|ns| - 1].issue.graphvizIssue) && ForestColoursValid(ns[|ns| - 1].children)
    ensures IsIdentifier(ns[|ns| - 1].Label()) && TextBracketFree(ns[|ns| - 1].issue.graphvizIssue)
    ensures ForestTextsClean(ns[|ns| - 1].children)
  {
    var init := ns[..|ns| - 1];
    assert forall i | 0 <= i < |init| :: init[i] == ns[i];
  }

  /** A block's opening and closing bracket together count once for `c` when `c` is of its kind. */
  lemma BlockBrackets(c: char, isGroup: bool)
    requires IsBracket(c)
    ensures Delta(c, OpenBracket(isGroup)) + Delta(c, CloseBracket(isGroup)) == if isGroup == IsBrace(c) then 1 else 0
  {
  }

  /** One tree of the walk: its block's two brackets and whatever its children contribute. */
  lemma NodeBlockCount(c: char, before: string, n: Node, level: nat, baseUrl: string)
    requires IsBracket(c) && BracketFree(baseUrl)
    requires ColoursValid(n.issue.graphvizIssue) && ForestColoursValid(n.children)
    requires IsIdentifier(n.Label()) && TextBracketFree(n.issue.graphvizIssue)
    requires var entered := WriteEnter(before, Indent(level + 1), n, baseUrl);
             Count(c, ForestDot(entered, n.children, level + 1, baseUrl)) == Count(c, entered) + Blocks(n.children, IsBrace(c))
    ensures Count(c, WriteLeave(ForestDot(WriteEnter(before, Indent(level + 1), n, baseUrl), n.children, level + 1, baseUrl),
                                Indent(level + 1), n.IsGroup()))
            == Count(c, before) + (if n.IsGroup() == IsBrace(c) then 1 else 0) + Blocks(n.children, IsBrace(c))
  {
    IndentBracketFree(level + 1);
    var entered := WriteEnter(before, Indent(level + 1), n, baseUrl);
    WriteEnterCount(c, before, Indent(level + 1), n, baseUrl);
    var walked := ForestDot(entered, n.children, level + 1, baseUrl);
    WriteLeaveCount(c, walked, Indent(level + 1), n.IsGroup());
    BlockBrackets(c, n.IsGroup());
  }

  /**
   * The walk opens and closes one brace per group and one square bracket per
   * leaf.
   */
  lemma {:induction false} ForestDotCount(c: char, dot: string, ns: seq<Node>, level: nat, baseUrl: string)
    requires IsBracket(c) && BracketFree(baseUrl)
    requires ForestColoursValid(ns) && ForestTextsClean(ns)
    ensures Count(c, ForestDot(dot, ns, level, baseUrl)) == Count(c, dot) + Blocks(ns, IsBrace(c))
    decreases ns
  {
    if ns != [] {
      var n := ns[|ns| - 1];
      var init := ns[..|ns| - 1];
      LastOfForest(ns);
      var before := ForestDot(dot, init, level, baseUrl);
      ForestDotCount(c, dot, init, level, baseUrl);
      var entered := WriteEnter(before, Indent(level + 1), n, baseUrl);
      ForestDotCount(c, entered, n.children, level + 1, baseUrl);
      NodeBlockCount(c, before, n, level, baseUrl);
    }
  }

  // ---------------------------------------------------------------------
  // Edge statements
  // ---------------------------------------------------------------------

  /** The characters that give an edge statement its structure. */
  predicate IsEdgeMark(c: char) { IsBracket(c) || c == '>' || c == ';' }

  predicate EdgeMarkFree(s: string) { forall i | 0 <= i < |s| :: !IsEdgeMark(s[i]) }

  lemma CountAppendMarkFree(c: char, a: string, b: string)
    requires IsEdgeMark(c) && EdgeMarkFree(b)
    ensures Count(c, a + b) == Count(c, a)
  {
    CountAppendAbsent(c, a, b);
  }

  lemma CountAppendMark(c: char, a: string, before: string, d: char, after: string)
    requires IsEdgeMark(c) && EdgeMarkFree(before) && EdgeMarkFree(after)
    ensures Count(c, a + (before + [d] + after)) == Count(c, a) + Delta(c, d)
  {
    CountAppend(c, a, before + [d] + after);
    CountAppend(c, before + [d], after);
    CountAppend(c, before, [d]);
    assert c !in before && c !in after;
    CountAbsent(c, before);
    CountAbsent(c, after);
    assert [d][..0] == [];
  }

  lemma EdgeLiteralsMarkFree()
    ensures EdgeMarkFree("  ") && EdgeMarkFree(" -") && EdgeMarkFree(" ") && EdgeMarkFree("\n") && EdgeMarkFree("")
    ensures EdgeMarkFree("    ltail = cluster_") && EdgeMarkFree("    lhead = cluster_")
  {
  }

  /** All four labels an edge statement prints are identifiers. */
  predicate EdgeLabelled(e: Edge) {
    IsIdentifier(e.tail) && IsIdentifier(e.head)
    && (e.ltail.Some? ==> IsIdentifier(e.ltail.value)) && (e.lhead.Some? ==> IsIdentifier(e.lhead.value))
  }

  /** An edge has an attribute block when it carries a cluster hint. */
  predicate HasHints(e: Edge) { e.ltail.Some? || e.lhead.Some? }

  /**
   * What one edge statement adds to the count of `c`: one `>` (the arrow),
   * one `[` and one `]` when it has hints, and one `;` per hint line.
   */
  function EdgeMarks(c: char, e: Edge): nat {
    Delta(c, '>')
    + (if HasHints(e) then Delta(c, '[') + Delta(c, ']') else 0)
    + (if e.ltail.Some? then Delta(c, ';') else 0)
    + (if e.lhead.Some? then Delta(c, ';') else 0)
  }

  /** A hint line, `ltail = cluster_X;` or `lhead = cluster_X;`, holds one `;`. */
  lemma HintLineCount(c: char, t: string, key: string, name: string)
    requires IsEdgeMark(c) && EdgeMarkFree(key) && IsIdentifier(name)
    ensures Count(c, t + key + name + ";\n") == Count(c, t) + Delta(c, ';')
  {
    EdgeLiteralsMarkFree();
    CountAppendMarkFree(c, t, key);
    CountAppendMarkFree(c, t + key, name);
    CountAppendMark(c, t + key + name, "", ';', "\n");
    assert "" + [';'] + "\n" == ";\n";
  }

  lemma WriteEdgeCount(c: char, dependenciesDot: string, e: Edge)
    requires IsEdgeMark(c) && EdgeLabelled(e)
    ensures Count(c, WriteEdge(dependenciesDot, e)) == Count(c, dependenciesDot) + EdgeMarks(c, e)
  {
    EdgeLiteralsMarkFree();
    var t := dependenciesDot + "  ";
    CountAppendMarkFree(c, dependenciesDot, "  ");
    CountAppendMarkFree(c, t, e.tail);
    t := t + e.tail;
    CountAppendMark(c, t, " -", '>', " ");
    assert " -" + ['>'] + " " == " -> ";
    t := t + " -> ";
    CountAppendMarkFree(c, t, e.head);
    t := t + e.head;
    var arrow := t;
    if HasHints(e) {
      CountAppendMark(c, t, " ", '[', "\n");
      assert " " + ['['] + "\n" == " [\n";
      t := t + " [\n";
      if e.ltail.Some? {
        HintLineCount(c, t, "    ltail = cluster_", e.ltail.value);
        t := t + "    ltail = cluster_" + e.ltail.value + ";\n";
      }
      if e.lhead.Some? {
        HintLineCount(c, t, "    lhead = cluster_", e.lhead.value);
        t := t + "    lhead = cluster_" + e.lhead.value + ";\n";
      }
      CountAppendMark(c, t, "  ", ']', "");
      assert "  " + [']'] + "" == "  ]";
      t := t + "  ]";
    }
    CountAppendMarkFree(c, t, "\n");
    assert WriteEdge(dependenciesDot, e) == t + "\n";
  }

  /** Every label in a tree, in its subtrees and in the trees it depends on is an identifier. */
  predicate TreeLabelled(n: Node)
    decreases n
  {
    IsIdentifier(n.Label())
    && (forall i | 0 <= i < |n.children| :: TreeLabelled(n.children[i]))
    && (forall i | 0 <= i < |n.dependencies| :: TreeLabelled(n.dependencies[i]))
  }

  predicate ForestLabelled(ns: seq<Node>) { forall i | 0 <= i < |ns| :: TreeLabelled(ns[i]) }

  lemma {:induction false} AnchorLabelled(n: Node)
    requires TreeLabelled(n)
    ensures IsIdentifier(Anchor(n).Label())
    decreases n
  {
    if n.IsGroup() {
      AnchorLabelled(n.children[0]);
    }
  }

  lemma EdgeOfLabelled(dependency: Node, node: Node)
    requires TreeLabelled(dependency) && TreeLabelled(node)
    ensures EdgeLabelled(EdgeOf(dependency, node))
  {
    AnchorLabelled(dependency);
    AnchorLabelled(node);
  }

  /** What the edge statements of `node` add to the count of `c`. */
  function EdgesMarks(c: char, dependencies: seq<Node>, node: Node): nat
    decreases |dependencies|
  {
    if dependencies == [] then 0
    else EdgesMarks(c, dependencies[..|dependencies| - 1], node) + EdgeMarks(c, EdgeOf(dependencies[|dependencies| - 1], node))
  }

  lemma {:induction false} WriteEdgesCount(c: char, dependenciesDot: string, dependencies: seq<Node>, node: Node)
    requires IsEdgeMark(c) && TreeLabelled(node) && ForestLabelled(dependencies)
    ensures Count(c, WriteEdges(dependenciesDot, dependencies, node)) == Count(c, dependenciesDot) + EdgesMarks(c, dependencies, node)
    decreases |dependencies|
  {
    if dependencies != [] {
      var init := dependencies[..|dependencies| - 1];
      var last := dependencies[|dependencies| - 1];
      assert forall i | 0 <= i < |init| :: init[i] == dependencies[i];
      WriteEdgesCount(c, dependenciesDot, init, node);
      EdgeOfLabelled(last, node);
      WriteEdgeCount(c, WriteEdges(dependenciesDot, init, node), EdgeOf(last, node));
    }
  }

  /** What the edge statements of a whole forest add to the count of `c`. */
  function ForestEdgeMarks(c: char, ns: seq<Node>): nat
    decreases ns
  {
    if ns == [] then 0
    else
      var n := ns[|ns| - 1];
      ForestEdgeMarks(c, ns[..|ns| - 1]) + EdgesMarks(c, n.dependencies, n) + ForestEdgeMarks(c, n.children)
  }

  lemma LastLabelled(ns: seq<Node>)
    requires ns != [] && ForestLabelled(ns)
    ensures ForestLabelled(ns[..|ns| - 1]) && TreeLabelled(ns[|ns| - 1])
    ensures ForestLabelled(ns[|ns| - 1].children) && ForestLabelled(ns[|ns| - 1].dependencies)
  {
    var init := ns[..|ns| - 1];
    assert forall i | 0 <= i < |init| :: init[i] == ns[i];
    assert TreeLabelled(ns[|ns| - 1]);
  }

  lemma {:induction false} ForestEdgesCount(c: char, dependenciesDot: string, ns: seq<Node>)
    requires IsEdgeMark(c) && ForestLabelled(ns)
    ensures Count(c, ForestEdges(dependenciesDot, ns)) == Count(c, dependenciesDot) + ForestEdgeMarks(c, ns)
    decreases ns
  {
    if ns != [] {
      var n := ns[|ns| - 1];
      var init := ns[..|ns| - 1];
      LastLabelled(ns);
      ForestEdgesCount(c, dependenciesDot, init);
      var before := ForestEdges(dependenciesDot, init);
      WriteEdgesCount(c, before, n.dependencies, n);
      ForestEdgesCount(c, WriteEdges(before, n.dependencies, n), n.children);
    }
  }

  /** The number of dependencies over the whole forest. */
  function Dependencies(ns: seq<Node>): nat
    decreases ns
  {
    if ns == [] then 0
    else
      var n := ns[|ns| - 1];
      Dependencies(ns[..|ns| - 1]) + |n.dependencies| + Dependencies(n.children)
  }

  lemma {:induction false} EdgesMarksOfDependencies(dependencies: seq<Node>, node: Node)
    ensures EdgesMarks('>', dependencies, node) == |dependencies|
    ensures EdgesMarks('{', dependencies, node) == 0 && EdgesMarks('}', dependencies, node) == 0
    ensures EdgesMarks('[', dependencies, node) == EdgesMarks(']', dependencies, node)
    decreases |dependencies|
  {
    if dependencies != [] {
      EdgesMarksOfDependencies(dependencies[..|dependencies| - 1], node);
    }
  }

  lemma {:induction false} ForestEdgeMarksOfDependencies(ns: seq<Node>)
    ensures ForestEdgeMarks('>', ns) == Dependencies(ns)
    ensures ForestEdgeMarks('{', ns) == 0 && ForestEdgeMarks('}', ns) == 0
    ensures ForestEdgeMarks('[', ns) == ForestEdgeMarks(']', ns)
    decreases ns
  {
    if ns != [] {
      var n := ns[|ns| - 1];
      ForestEdgeMarksOfDependencies(ns[..|ns| - 1]);
      EdgesMarksOfDependencies(n.dependencies, n);
      ForestEdgeMarksOfDependencies(n.children);
    }
  }

  /**
   * The deferred edge block holds exactly one arrow per dependency, no brace,
   * and as many `]` as `[`.
   */
  lemma EdgeBlockShape(ns: seq<Node>)
    requires ForestLabelled(ns)
    ensures Count('>', ForestEdges("", ns)) == Dependencies(ns)
    ensures Count('{', ForestEdges("", ns)) == 0 && Count('}', ForestEdges("", ns)) == 0
    ensures Count('[', ForestEdges("", ns)) == Count(']', ForestEdges("", ns))
  {
    ForestEdgesCount('>', "", ns);
    ForestEdgesCount('{', "", ns);
    ForestEdgesCount('}', "", ns);
    ForestEdgesCount('[', "", ns);
    ForestEdgesCount(']', "", ns);
    ForestEdgeMarksOfDependencies(ns);
  }

  /** The edge block grows by at least one character per dependency, and not at all without dependencies. */
  lemma {:induction false} ForestEdgesLength(dependenciesDot: string, ns: seq<Node>)
    ensures |ForestEdges(dependenciesDot, ns)| >= |dependenciesDot| + Dependencies(ns)
    ensures Dependencies(ns) == 0 ==> ForestEdges(dependenciesDot, ns) == dependenciesDot
    decreases ns
  {
    if ns != [] {
      var n := ns[|ns| - 1];
      ForestEdgesLength(dependenciesDot, ns[..|ns| - 1]);
      var before := ForestEdges(dependenciesDot, ns[..|ns| - 1]);
      WriteEdgesLength(before, n.dependencies, n);
      ForestEdgesLength(WriteEdges(before, n.dependencies, n), n.children);
    }
  }

  lemma {:induction false} WriteEdgesLength(dependenciesDot: string, dependencies: seq<Node>, node: Node)
    ensures |WriteEdges(dependenciesDot, dependencies, node)| >= |dependenciesDot| + |dependencies|
    decreases |dependencies|
  {
    if dependencies != [] {
      WriteEdgesLength(dependenciesDot, dependencies[..|dependencies| - 1], node);
    }
  }

  // ---------------------------------------------------------------------
  // Cluster hints
  // ---------------------------------------------------------------------

  /** No node further down the first-child chain of `n` has `n`'s label. */
  ghost predicate ChainLabelsDistinct(n: Node) {
    forall a | OnFirstChildChain(n, a) && a != n :: a.Label() != n.Label()
  }

  /**
   * An edge runs between two leaves; it names the dependency's cluster in
   * `ltail` exactly when the dependency is a group, and the node's cluster in
   * `lhead` exactly when the node is a group.
   */
  lemma EdgeHints(dependency: Node, node: Node)
    requires ChainLabelsDistinct(dependency)
    ensures var e := EdgeOf(dependency, node);
            && e.tail == Anchor(dependency).Label() && !Anchor(dependency).IsGroup()
            && e.head == Anchor(node).Label() && !Anchor(node).IsGroup()
            && (e.ltail.Some? <==> dependency.IsGroup())
            && (e.ltail.Some? ==> e.ltail.value == dependency.Label())
            && (e.lhead.Some? <==> node.IsGroup())
            && (e.lhead.Some? ==> e.lhead.value == node.Label())
            && (HasHints(e) <==> dependency.IsGroup() || node.IsGroup())
  {
    var a := Anchor(dependency);
    if dependency.IsGroup() {
      assert OnFirstChildChain(dependency, a) && a != dependency;
    }
  }

  predicate EndsWith(s: string, suffix: string) { |suffix| <= |s| && s[|s| - |suffix|..] == suffix }

  /** An edge without hints is the bare arrow statement. */
  lemma EdgeTextPlain(dependenciesDot: string, e: Edge)
    ensures !HasHints(e) ==> WriteEdge(dependenciesDot, e) == dependenciesDot + "  " + e.tail + " -> " + e.head + "\n"
  {
  }

  /**
   * An `ltail` hint is the first line of the attribute list and names the
   * edge's tail cluster; without an `lhead` it is also the last.
   */
  lemma EdgeTextTail(dependenciesDot: string, e: Edge)
    ensures e.ltail.Some? ==>
              dependenciesDot + "  " + e.tail + " -> " + e.head + " [\n" + "    ltail = cluster_" + e.ltail.value + ";\n"
              <= WriteEdge(dependenciesDot, e)
    ensures e.ltail.Some? && e.lhead.None? ==>
              EndsWith(WriteEdge(dependenciesDot, e), "    ltail = cluster_" + e.ltail.value + ";\n" + "  ]\n")
  {
    if e.ltail.Some? {
      var withTail := dependenciesDot + "  " + e.tail + " -> " + e.head + " [\n" + "    ltail = cluster_" + e.ltail.value + ";\n";
      var headLine := if e.lhead.Some? then "    lhead = cluster_" + e.lhead.value + ";\n" else "";
      var r := WriteEdge(dependenciesDot, e);
      if e.lhead.Some? {
        assert r == withTail + headLine + "  ]" + "\n";
        HintBlockFrame(withTail, headLine);
      } else {
        assert r == withTail + "  ]" + "\n";
        HintBlockFrame(dependenciesDot + "  " + e.tail + " -> " + e.head + " [\n", "    ltail = cluster_" + e.ltail.value + ";\n");
      }
    }
  }

  /**
   * An `lhead` hint is the last line of the attribute list and names the
   * edge's head cluster; without an `ltail` it is also the first.
   */
  lemma EdgeTextHead(dependenciesDot: string, e: Edge)
    ensures e.lhead.Some? ==>
              EndsWith(WriteEdge(dependenciesDot, e), "    lhead = cluster_" + e.lhead.value + ";\n" + "  ]\n")
    ensures e.lhead.Some? && e.ltail.None? ==>
              dependenciesDot + "  " + e.tail + " -> " + e.head + " [\n" + "    lhead = cluster_" + e.lhead.value + ";\n"
              <= WriteEdge(dependenciesDot, e)
  {
    if e.lhead.Some? {
      var bracket := dependenciesDot + "  " + e.tail + " -> " + e.head + " [\n";
      var withTail := if e.ltail.Some? then bracket + "    ltail = cluster_" + e.ltail.value + ";\n" else bracket;
      var headLine := "    lhead = cluster_" + e.lhead.value + ";\n";
      assert WriteEdge(dependenciesDot, e) == withTail + headLine + "  ]" + "\n";
      HintBlockFrame(withTail, headLine);
    }
  }

  /** A hint block closed after its last line `b` begins with `a + b` and ends with `b` and the closer. */
  lemma HintBlockFrame(a: string, b: string)
    ensures a + b <= a + b + "  ]" + "\n"
    ensures EndsWith(a + b + "  ]" + "\n", b + "  ]\n")
  {
    assert a + b + "  ]" + "\n" == a + (b + "  ]\n");
  }

  /**
   * After the label comes the link to the issue under the base URL, then the
   * fill colour from the background and the font and line colours from the
   * foreground.
   */
  lemma LinkAndColourLines(dot: string, currentIndent: string, gi: GraphvizIssue, baseUrl: string)
    requires ColoursValid(gi)
    ensures dot + ">;\n" + currentIndent + "  href = \"" + baseUrl + "issue/" + gi.id + "\";\n"
            <= WriteLinkAndColours(dot, currentIndent, gi, baseUrl)
    ensures EndsWith(WriteLinkAndColours(dot, currentIndent, gi, baseUrl),
                     currentIndent + "  fillcolor = \"" + BgColor(gi).value + "\";\n"
                     + currentIndent + "  fontcolor = \"" + FgColor(gi).value + "\";\n"
                     + currentIndent + "  color = \"" + FgColor(gi).value + "\";\n")
  {
    var fg, bg := FgColor(gi).value, BgColor(gi).value;
    var link := dot + ">;\n" + currentIndent + "  href = \"" + baseUrl + "issue/" + gi.id + "\";\n";
    var t, suffix := link + currentIndent, currentIndent;
    assert EndsWith(t, suffix);
    AppendKeepsFrame(link, t, suffix, "  fillcolor = \"");
    t, suffix := t + "  fillcolor = \"", suffix + "  fillcolor = \"";
    AppendKeepsFrame(link, t, suffix, bg);
    t, suffix := t + bg, suffix + bg;
    AppendKeepsFrame(link, t, suffix, "\";\n");
    t, suffix := t + "\";\n", suffix + "\";\n";
    AppendKeepsFrame(link, t, suffix, currentIndent);
    t, suffix := t + currentIndent, suffix + currentIndent;
    AppendKeepsFrame(link, t, suffix, "  fontcolor = \"");
    t, suffix := t + "  fontcolor = \"", suffix + "  fontcolor = \"";
    AppendKeepsFrame(link, t, suffix, fg);
    t, suffix := t + fg, suffix + fg;
    AppendKeepsFrame(link, t, suffix, "\";\n");
    t, suffix := t + "\";\n", suffix + "\";\n";
    AppendKeepsFrame(link, t, suffix, currentIndent);
    t, suffix := t + currentIndent, suffix + currentIndent;
    AppendKeepsFrame(link, t, suffix, "  color = \"");
    t, suffix := t + "  color = \"", suffix + "  color = \"";
    AppendKeepsFrame(link, t, suffix, fg);
    t, suffix := t + fg, suffix + fg;
    AppendKeepsFrame(link, t, suffix, "\";\n");
    t, suffix := t + "\";\n", suffix + "\";\n";
    assert t == WriteLinkAndColours(dot, currentIndent, gi, baseUrl);
  }

  /** Appending to a text keeps its prefix and extends its suffix. */
  lemma AppendKeepsFrame(prefix: string, t: string, suffix: string, x: string)
    requires prefix <= t && EndsWith(t, suffix)
    ensures prefix <= t + x && EndsWith(t + x, suffix + x)
  {
    assert (t + x)[|t + x| - |suffix + x|..] == t[|t| - |suffix|..] + x;
  }

  /** Without a type colour, a node is filled white with black text and outline. */
  lemma DefaultColourLines(dot: string, currentIndent: string, gi: GraphvizIssue, baseUrl: string)
    requires gi.issueType.None? || gi.issueType.value.color.None?
    ensures ColoursValid(gi)
    ensures EndsWith(WriteLinkAndColours(dot, currentIndent, gi, baseUrl),
                     currentIndent + "  fillcolor = \"" + "#ffffff" + "\";\n"
                     + currentIndent + "  fontcolor = \"" + "#000000" + "\";\n"
                     + currentIndent + "  color = \"" + "#000000" + "\";\n")
  {
    DefaultColours(gi);
    LinkAndColourLines(dot, currentIndent, gi, baseUrl);
  }

  // ---------------------------------------------------------------------
  // The label attribute
  // ---------------------------------------------------------------------

  /**
   * The label text is wrapped in `<s>` and `</s>` exactly when the issue is
   * resolved; otherwise the id and summary stand without them.
   */
  lemma StrikeThroughIffResolved(dot: string, currentIndent: string, gi: GraphvizIssue)
    requires HasNoMarkup(gi.id)
    ensures dot + currentIndent + "  label = <<s>" <= WriteLabel(dot, currentIndent, gi) <==> gi.isResolved
    ensures gi.isResolved ==>
              dot + currentIndent + "  label = <<s>" + gi.id + ": " + gi.escapedSummary + "</s>" <= WriteLabel(dot, currentIndent, gi)
    ensures !gi.isResolved ==>
              dot + currentIndent + "  label = <" + gi.id + ": " + gi.escapedSummary <= WriteLabel(dot, currentIndent, gi)
  {
    var p := dot + currentIndent + "  label = <";
    var r := WriteLabel(dot, currentIndent, gi);
    var text := p + BeginLabel(gi) + gi.id + ": " + gi.escapedSummary + EndLabel(gi);
    assert text <= r;
    if gi.isResolved {
      assert text == dot + currentIndent + "  label = <<s>" + gi.id + ": " + gi.escapedSummary + "</s>";
    } else {
      var rest := gi.id + ": " + gi.escapedSummary;
      assert text == p + rest;
      assert r[|p|] == rest[0];
      if |gi.id| > 0 {
        assert rest[0] == gi.id[0];
      } else {
        assert rest[0] == ':';
      }
      assert (p + "<s>")[|p|] == '<';
      assert p + "<s>" == dot + currentIndent + "  label = <<s>";
    }
  }


  /** The label ends in the assignee's name, in a smaller font, exactly when there is an assignee. */
  lemma AssigneeFontIffAssignee(dot: string, currentIndent: string, gi: GraphvizIssue)
    requires HasNoMarkup(gi.escapedSummary)
    ensures EndsWith(WriteLabel(dot, currentIndent, gi), "</font>") <==> gi.assignee.Some?
    ensures gi.assignee.Some? ==>
              EndsWith(WriteLabel(dot, currentIndent, gi), "<br/><font point-size=\"12\">" + gi.assignee.value.fullName + "</font>")
  {
    var beforeSummary := dot + currentIndent + "  label = <" + BeginLabel(gi) + gi.id + ": ";
    var text := beforeSummary + gi.escapedSummary + EndLabel(gi);
    var r := WriteLabel(dot, currentIndent, gi);
    if gi.assignee.Some? {
      var font := "<br/><font point-size=\"12\">" + gi.assignee.value.fullName + "</font>";
      assert r == text + "<br/><font point-size=\"12\">" + gi.assignee.value.fullName + "</font>";
      assert r == text + font;
      assert r[|r| - |font|..] == font;
      assert font[|font| - 7..] == "</font>";
      assert r[|r| - 7..] == font[|font| - 7..];
    } else {
      assert r == text;
      if gi.isResolved {
        assert r == (beforeSummary + gi.escapedSummary) + "</s>";
        assert r[|r| - 2] == 's';
      } else {
        assert r == beforeSummary + gi.escapedSummary;
        if |gi.escapedSummary| > 0 {
          assert r[|r| - 1] == gi.escapedSummary[|gi.escapedSummary| - 1];
        } else {
          assert r[|r| - 1] == ' ';
        }
      }
    }
  }

  // ---------------------------------------------------------------------
  // The whole document
  // ---------------------------------------------------------------------
  /** A line with one bracket counts that bracket once. */
  lemma CountLine(c: char, before: string, d: char, after: string)
    requires IsBracket(c) && BracketFree(before) && BracketFree(after)
    ensures Count(c, before + [d] + after) == Delta(c, d)
  {
    CountAppend(c, before + [d], after);
    CountAppend(c, before, [d]);
    CountAbsent(c, before);
    CountAbsent(c, after);
    assert [d][..0] == [];
  }

  /** The pieces around the brackets of an attribute statement hold none. */
  lemma StatementLiteralsBracketFree()
    ensures BracketFree("  graph ") && BracketFree("  node ") && BracketFree("  edge ")
    ensures BracketFree("\n") && BracketFree("  ") && BracketFree(";\n")
  {
  }

  lemma AttributeLinesBracketFree1()
    ensures BracketFree("    fontname = \"helvetica\";\n") && BracketFree("    fontname = \"helvetica\",\n")
    ensures BracketFree("    shape = box;\n")
  {
  }

  lemma AttributeLinesBracketFree2()
    ensures BracketFree("    style = \"rounded,filled\";\n") && BracketFree("    target = \"_blank\";\n")
  {
  }

  /** The `graph` attribute statement is one pair of square brackets. */
  lemma GraphStatementCount(c: char)
    requires IsBracket(c)
    ensures Count(c, GraphStatement) == Delta(c, '[') + Delta(c, ']')
  {
    StatementLiteralsBracketFree();
    AttributeLinesBracketFree1();
    AttributeLinesBracketFree2();
    var t0 := "  graph [\n";
    assert t0 == "  graph " + ['['] + "\n";
    CountLine(c, "  graph ", '[', "\n");
    CountAppendFree(c, t0, "    fontname = \"helvetica\";\n");
    var t1 := t0 + "    fontname = \"helvetica\";\n";
    CountAppendFree(c, t1, "    style = \"rounded,filled\";\n");
    var t2 := t1 + "    style = \"rounded,filled\";\n";
    CountAppendFree(c, t2, "    target = \"_blank\";\n");
    var t3 := t2 + "    target = \"_blank\";\n";
    assert "  ];\n" == "  " + [']'] + ";\n";
    CountLine(c, "  ", ']', ";\n");
    CountAppend(c, t3, "  ];\n");
    assert t3 + "  ];\n" == GraphStatement;
  }

  /** The `node` attribute statement is one pair of square brackets. */
  lemma NodeStatementCount(c: char)
    requires IsBracket(c)
    ensures Count(c, NodeStatement) == Delta(c, '[') + Delta(c, ']')
  {
    StatementLiteralsBracketFree();
    AttributeLinesBracketFree1();
    AttributeLinesBracketFree2();
    var t0 := "  node [\n";
    assert t0 == "  node " + ['['] + "\n";
    CountLine(c, "  node ", '[', "\n");
    CountAppendFree(c, t0, "    fontname = \"helvetica\",\n");
    var t1 := t0 + "    fontname = \"helvetica\",\n";
    CountAppendFree(c, t1, "    shape = box;\n");
    var t2 := t1 + "    shape = box;\n";
    CountAppendFree(c, t2, "    style = \"rounded,filled\";\n");
    var t3 := t2 + "    style = \"rounded,filled\";\n";
    CountAppendFree(c, t3, "    target = \"_blank\";\n");
    var t4 := t3 + "    target = \"_blank\";\n";
    assert "  ];\n" == "  " + [']'] + ";\n";
    CountLine(c, "  ", ']', ";\n");
    CountAppend(c, t4, "  ];\n");
    assert t4 + "  ];\n" == NodeStatement;
  }

  /** The `edge` attribute statement is one pair of square brackets. */
  lemma EdgeStatementCount(c: char)
    requires IsBracket(c)
    ensures Count(c, EdgeStatement) == Delta(c, '[') + Delta(c, ']')
  {
    StatementLiteralsBracketFree();
    AttributeLinesBracketFree1();
    AttributeLinesBracketFree2();
    var t0 := "  edge [\n";
    assert t0 == "  edge " + ['['] + "\n";
    CountLine(c, "  edge ", '[', "\n");
    CountAppendFree(c, t0, "    fontname = \"helvetica\";\n");
    var t1 := t0 + "    fontname = \"helvetica\";\n";
    assert "  ];\n" == "  " + [']'] + ";\n";
    CountLine(c, "  ", ']', ";\n");
    CountAppend(c, t1, "  ];\n");
    assert t1 + "  ];\n" == EdgeStatement;
  }

  lemma LayoutLiteralsBracketFree()
    ensures BracketFree("\n")
    ensures BracketFree("  rankdir = LR;\n")
    ensures BracketFree("  compound = true;\n")
    ensures BracketFree("  newrank = true;\n")
    ensures BracketFree("  ranksep = 1;\n")
  {
  }

  /** The layout settings hold no bracket. */
  lemma LayoutCount(c: char)
    requires IsBracket(c)
    ensures Count(c, Layout) == 0
  {
    LayoutLiteralsBracketFree();
    CountAbsent(c, "\n");
    var t0 := "\n";
    CountAppendFree(c, t0, "  rankdir = LR;\n");
    var t1 := t0 + "  rankdir = LR;\n";
    CountAppendFree(c, t1, "  compound = true;\n");
    var t2 := t1 + "  compound = true;\n";
    CountAppendFree(c, t2, "  newrank = true;\n");
    var t3 := t2 + "  newrank = true;\n";
    CountAppendFree(c, t3, "  ranksep = 1;\n");
    var t4 := t3 + "  ranksep = 1;\n";
    CountAppendFree(c, t4, "\n");
    var t5 := t4 + "\n";
    assert t5 == Layout;
  }

  /**
   * The fixed preamble opens the digraph's brace and holds the three
   * attribute statements `graph`, `node` and `edge`, each in square brackets.
   */
  lemma PreambleCount(c: char)
    requires IsBracket(c)
    ensures Count(c, Preamble()) == Delta(c, '{') + 3 * Delta(c, '[') + 3 * Delta(c, ']')
  {
    assert "digraph ProjectPlan {\n" == "digraph ProjectPlan " + ['{'] + "\n";
    assert BracketFree("digraph ProjectPlan ") && BracketFree("\n");
    CountLine(c, "digraph ProjectPlan ", '{', "\n");
    var t0 := "digraph ProjectPlan {\n";
    GraphStatementCount(c);
    CountAppend(c, t0, GraphStatement);
    NodeStatementCount(c);
    CountAppend(c, t0 + GraphStatement, NodeStatement);
    EdgeStatementCount(c);
    CountAppend(c, t0 + GraphStatement + NodeStatement, EdgeStatement);
    LayoutCount(c);
    CountAppend(c, t0 + GraphStatement + NodeStatement + EdgeStatement, Layout);
  }

  /** Closing the document: the blank line and the edge block when there is one, then the digraph's brace. */
  lemma FinishCount(c: char, dot: string, dependenciesDot: string)
    requires IsBracket(c)
    ensures Count(c, Finish(dot, dependenciesDot)) == Count(c, dot) + Count(c, dependenciesDot) + Delta(c, '}')
  {
    var withEdges := if |dependenciesDot| > 0 then dot + "\n" + dependenciesDot else dot;
    assert BracketFree("\n") && BracketFree("");
    if |dependenciesDot| > 0 {
      CountAppendFree(c, dot, "\n");
      CountAppend(c, dot + "\n", dependenciesDot);
    } else {
      assert dependenciesDot == [];
    }
    assert "}\n" == "" + ['}'] + "\n";
    CountAppendOne(c, withEdges, "", '}', "\n");
  }

  /**
   * Every brace and every square bracket of the document is closed: one brace
   * pair for the digraph and one per group, and three square pairs for the
   * attribute statements, one per leaf and one per edge with cluster hints.
   */
  lemma DocumentBalanced(forest: seq<Node>, baseUrl: string)
    requires ForestColoursValid(forest) && ForestTextsClean(forest) && ForestLabelled(forest)
    requires BracketFree(baseUrl)
    ensures DotDocument(forest, baseUrl).Some?
    ensures var doc := DotDocument(forest, baseUrl).value;
            && Count('{', doc) == Count('}', doc) == 1 + Blocks(forest, true)
            && Count('[', doc) == Count(']', doc) == 3 + Blocks(forest, false) + ForestEdgeMarks('[', forest)
  {
    BracketCount('{', forest, baseUrl);
    BracketCount('}', forest, baseUrl);
    BracketCount('[', forest, baseUrl);
    BracketCount(']', forest, baseUrl);
    PreambleCount('{');
    PreambleCount('}');
    PreambleCount('[');
    PreambleCount(']');
    ForestEdgeMarksOfDependencies(forest);
  }

  /** The count of one bracket kind in the document, part by part. */
  lemma BracketCount(c: char, forest: seq<Node>, baseUrl: string)
    requires IsBracket(c)
    requires ForestColoursValid(forest) && ForestTextsClean(forest) && ForestLabelled(forest)
    requires BracketFree(baseUrl)
    ensures DotDocument(forest, baseUrl).Some?
    ensures Count(c, DotDocument(forest, baseUrl).value)
            == Count(c, Preamble()) + Blocks(forest, IsBrace(c)) + ForestEdgeMarks(c, forest) + Delta(c, '}')
  {
    ForestDotCount(c, Preamble(), forest, 0, baseUrl);
    ForestEdgesCount(c, "", forest);
    assert Count(c, "") == 0;
    FinishCount(c, ForestDot(Preamble(), forest, 0, baseUrl), ForestEdges("", forest));
  }

  lemma PrefixTransitive(a: string, b: string, c: string)
    requires a <= b && b <= c
    ensures a <= c
  {
  }

  lemma WriteOpenerExtends(dot: string, currentIndent: string, gi: GraphvizIssue, isSubgraph: bool)
    ensures dot <= WriteOpener(dot, currentIndent, gi, isSubgraph)
  {
  }

  lemma WriteLinkAndColoursExtends(dot: string, currentIndent: string, gi: GraphvizIssue, baseUrl: string)
    requires ColoursValid(gi)
    ensures dot <= WriteLinkAndColours(dot, currentIndent, gi, baseUrl)
  {
  }

  lemma WriteLeaveExtends(dot: string, currentIndent: string, isParent: bool)
    ensures dot <= WriteLeave(dot, currentIndent, isParent)
  {
  }

  /** Entering a node only appends to the document. */
  lemma WriteEnterExtends(dot: string, currentIndent: string, node: Node, baseUrl: string)
    requires ColoursValid(node.issue.graphvizIssue)
    ensures dot <= WriteEnter(dot, currentIndent, node, baseUrl)
  {
    var withOpener := WriteOpener(dot, currentIndent, node.issue.graphvizIssue, node.IsGroup());
    WriteOpenerExtends(dot, currentIndent, node.issue.graphvizIssue, node.IsGroup());
    WriteEnterOpens(dot, currentIndent, node, baseUrl);
    PrefixTransitive(dot, withOpener, WriteEnter(dot, currentIndent, node, baseUrl));
  }

  /** The walk only appends to the document. */
  lemma {:induction false} ForestDotExtends(dot: string, ns: seq<Node>, level: nat, baseUrl: string)
    requires ForestColoursValid(ns)
    ensures dot <= ForestDot(dot, ns, level, baseUrl)
    decreases ns
  {
    if ns != [] {
      var n := ns[|ns| - 1];
      var init := ns[..|ns| - 1];
      assert ns == init + [n];
      ForestColoursValidSnoc(init, n);
      var before := ForestDot(dot, init, level, baseUrl);
      ForestDotExtends(dot, init, level, baseUrl);
      var entered := WriteEnter(before, Indent(level + 1), n, baseUrl);
      WriteEnterExtends(before, Indent(level + 1), n, baseUrl);
      var walked := ForestDot(entered, n.children, level + 1, baseUrl);
      ForestDotExtends(entered, n.children, level + 1, baseUrl);
      WriteLeaveExtends(walked, Indent(level + 1), n.IsGroup());
      PrefixTransitive(dot, before, entered);
      PrefixTransitive(dot, entered, walked);
      PrefixTransitive(dot, walked, ForestDot(dot, ns, level, baseUrl));
    }
  }

  /**
   * One tree of the walk at `level` is a block at indent `level + 1`: it
   * starts with the group's `subgraph cluster_` line or the leaf's attribute
   * list, its children's blocks come one level deeper, and it ends with the
   * matching `}` or `]` at the same indent.
   */
  lemma TreeBlockShape(dot: string, n: Node, level: nat, baseUrl: string)
    requires ColoursValid(n.issue.graphvizIssue) && ForestColoursValid(n.children)
    ensures ForestColoursValid([n])
    ensures var currentIndent := Indent(level + 1);
            var entered := WriteEnter(dot, currentIndent, n, baseUrl);
            var out := ForestDot(dot, [n], level, baseUrl);
            && out == WriteLeave(ForestDot(entered, n.children, level + 1, baseUrl), currentIndent, n.IsGroup())
            && (if n.IsGroup() then dot + currentIndent + "subgraph cluster_" + n.Label() + " {\n"
                else dot + currentIndent + n.Label() + " [\n") <= out
            && EndsWith(out, currentIndent + (if n.IsGroup() then "}\n" else "]\n"))
  {
    var currentIndent := Indent(level + 1);
    SingleTree(dot, n, level, baseUrl);
    var opener := WriteOpener(dot, currentIndent, n.issue.graphvizIssue, n.IsGroup());
    var entered := WriteEnter(dot, currentIndent, n, baseUrl);
    var walked := ForestDot(entered, n.children, level + 1, baseUrl);
    WriteEnterOpens(dot, currentIndent, n, baseUrl);
    ForestDotExtends(entered, n.children, level + 1, baseUrl);
    PrefixTransitive(opener, entered, walked);
    BlockFrame(opener, walked, currentIndent, n.IsGroup());
  }

  /** The walk of a one-tree forest. */
  lemma SingleTree(dot: string, n: Node, level: nat, baseUrl: string)
    requires ColoursValid(n.issue.graphvizIssue) && ForestColoursValid(n.children)
    ensures ForestColoursValid([n])
    ensures ForestDot(dot, [n], level, baseUrl)
            == WriteLeave(ForestDot(WriteEnter(dot, Indent(level + 1), n, baseUrl), n.children, level + 1, baseUrl),
                          Indent(level + 1), n.IsGroup())
  {
    assert [n] == [] + [n];
    ForestDotSnoc(dot, [], n, level, baseUrl);
  }

  /**
   * Leaving a node keeps the text written since its opener and ends it with
   * the closing bracket at the node's indent.
   */
  lemma BlockFrame(opener: string, walked: string, currentIndent: string, isParent: bool)
    requires opener <= walked
    ensures opener <= WriteLeave(walked, currentIndent, isParent)
    ensures EndsWith(WriteLeave(walked, currentIndent, isParent), currentIndent + (if isParent then "}\n" else "]\n"))
  {
    var closer := if isParent then "}\n" else "]\n";
    assert WriteLeave(walked, currentIndent, isParent) == walked + (currentIndent + closer);
    PrefixTransitive(opener, walked, WriteLeave(walked, currentIndent, isParent));
  }

  /** Entering a node starts with its opener. */
  lemma WriteEnterOpens(dot: string, currentIndent: string, node: Node, baseUrl: string)
    requires ColoursValid(node.issue.graphvizIssue)
    ensures WriteOpener(dot, currentIndent, node.issue.graphvizIssue, node.IsGroup()) <= WriteEnter(dot, currentIndent, node, baseUrl)
  {
    var gi := node.issue.graphvizIssue;
    var withOpener := WriteOpener(dot, currentIndent, gi, node.IsGroup());
    var labelled := WriteLabel(withOpener, currentIndent, gi);
    var attributes := WriteLinkAndColours(labelled, currentIndent, gi, baseUrl);
    WriteLinkAndColoursExtends(labelled, currentIndent, gi, baseUrl);
    PrefixTransitive(withOpener, labelled, attributes);
    PrefixTransitive(withOpener, attributes, WriteEnter(dot, currentIndent, node, baseUrl));
  }

  /**
   * The document begins with the preamble and ends with the digraph's closing
   * brace; the edge block, after a blank line, is there exactly when some
   * issue has a dependency.
   */
  lemma DocumentFramed(forest: seq<Node>, baseUrl: string)
    requires ForestColoursValid(forest)
    ensures DotDocument(forest, baseUrl).Some?
    ensures var doc := DotDocument(forest, baseUrl).value;
            var body := ForestDot(Preamble(), forest, 0, baseUrl);
            && Preamble() <= body
            && EndsWith(doc, "}\n")
            && (Dependencies(forest) == 0 ==> doc == body + "}\n")
            && (Dependencies(forest) > 0 ==> doc == body + "\n" + ForestEdges("", forest) + "}\n")
  {
    ForestDotExtends(Preamble(), forest, 0, baseUrl);
    ForestEdgesLength("", forest);
  }
}
