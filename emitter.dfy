/**
 * The DOT emitter: enterNode, leaveNode and computeDotFromIssues, with the
 * pure functions that say what text each of them appends.
 */
module Emitter {

  import opened Wrappers
  import opened Text
  import opened Helpers
  import opened Issues
  import opened Forest

  /** The two accumulators of one compilation. */
  class DotBuilder {
    var dot: string
    var dependenciesDot: string

    constructor (dot: string, dependenciesDot: string)
      ensures this.dot == dot && this.dependenciesDot == dependenciesDot
    {
      this.dot := dot;
      this.dependenciesDot := dependenciesDot;
    }
  }

  // ---------------------------------------------------------------------
  // What one node contributes
  // ---------------------------------------------------------------------

  /** Two spaces per level of nesting. */
  function Indent(level: nat): (r: string)
    ensures |r| == 2 * level
    ensures forall i | 0 <= i < |r| :: r[i] == ' '
  {
    if level == 0 then "" else "  " + Indent(level - 1)
  }

  /**
   * The type's foreground colour, black by default, expanded to six digits;
   * `None` when it is malformed, which only a type's own colour can be.
   */
  function FgColor(gi: GraphvizIssue): (r: Option<string>)
    ensures r.Some? ==> IsSixDigitColor(r.value)
    ensures r.None? ==> gi.issueType.Some? && gi.issueType.value.color.Some?
    ensures gi.issueType.Some? && gi.issueType.value.color.Some? ==>
              r == SixDigitColor(gi.issueType.value.color.value.foreground)
  {
    assert AllHex("#000000"[1..]);
    SixDigitColor(Coalesce(Opt2(gi.issueType, ColorOf, Foreground), "#000000"))
  }

  /**
   * The type's background colour, white by default, expanded to six digits;
   * `None` when it is malformed, which only a type's own colour can be.
   */
  function BgColor(gi: GraphvizIssue): (r: Option<string>)
    ensures r.Some? ==> IsSixDigitColor(r.value)
    ensures r.None? ==> gi.issueType.Some? && gi.issueType.value.color.Some?
    ensures gi.issueType.Some? && gi.issueType.value.color.Some? ==>
              r == SixDigitColor(gi.issueType.value.color.value.background)
  {
    assert AllHex("#ffffff"[1..]);
    SixDigitColor(Coalesce(Opt2(gi.issueType, ColorOf, Background), "#ffffff"))
  }

  /** Neither colour assertion of enterNode fails. */
  predicate ColoursValid(gi: GraphvizIssue) {
    FgColor(gi).Some? && BgColor(gi).Some?
  }

  /** Without a type, or a type without colours, text is black on white. */
  lemma DefaultColours(gi: GraphvizIssue)
    requires gi.issueType.None? || gi.issueType.value.color.None?
    ensures FgColor(gi) == Some("#000000") && BgColor(gi) == Some("#ffffff")
  {
    assert IsColorLiteral("#000000") by { assert AllHex("#000000"[1..]); }
    assert IsColorLiteral("#ffffff") by { assert AllHex("#ffffff"[1..]); }
  }

  /** With a colour pair, each colour must be a literal of the accepted form. */
  lemma TypedColours(gi: GraphvizIssue)
    requires gi.issueType.Some? && gi.issueType.value.color.Some?
    ensures ColoursValid(gi) <==>
              IsColorLiteral(gi.issueType.value.color.value.foreground)
              && IsColorLiteral(gi.issueType.value.color.value.background)
  {
  }

  // Each function below takes the text written so far and returns it with
  // what the source appends, in the order the source appends it.

  /** The line that opens a node: a cluster for a group, a node block for a leaf. */
  function WriteOpener(dot: string, currentIndent: string, gi: GraphvizIssue, isSubgraph: bool): (r: string)
    ensures |r| >= |dot| + |currentIndent| + 2 && r[|r| - 2] == (if isSubgraph then '{' else '[') && r[|r| - 1] == '\n'
  {
    if isSubgraph then dot + currentIndent + "subgraph cluster_" + gi.nodeLabel + " {\n"
    else dot + currentIndent + gi.nodeLabel + " [\n"
  }

  function BeginLabel(gi: GraphvizIssue): string { if gi.isResolved then "<s>" else "" }

  function EndLabel(gi: GraphvizIssue): string { if gi.isResolved then "</s>" else "" }

  /**
   * The label attribute up to its closing `>`: id and escaped summary,
   * struck through when resolved, then the assignee's name in a smaller font
   * when there is an assignee.
   */
  function WriteLabel(dot: string, currentIndent: string, gi: GraphvizIssue): (r: string)
    ensures dot <= r && dot + currentIndent + "  label = <" <= r
  {
    var text := dot + currentIndent + "  label = <" + BeginLabel(gi) + gi.id + ": " + gi.escapedSummary + EndLabel(gi);
    var assignee := Opt(gi.assignee, FullName);
    if assignee.Some? then text + "<br/><font point-size=\"12\">" + assignee.value + "</font>" else text
  }

  /** The rest of the label line, the href line and the three colour lines. */
  function WriteLinkAndColours(dot: string, currentIndent: string, gi: GraphvizIssue, baseUrl: string): (r: string)
    requires ColoursValid(gi)
    ensures |r| > |dot| + 3 && r[|dot|..|dot| + 3] == ">;\n" && r[|r| - 2] == ';' && r[|r| - 1] == '\n'
  {
    dot + ">;\n"
    + currentIndent + "  href = \"" + baseUrl + "issue/" + gi.id + "\";\n"
    + currentIndent + "  fillcolor = \"" + BgColor(gi).value + "\";\n"
    + currentIndent + "  fontcolor = \"" + FgColor(gi).value + "\";\n"
    + currentIndent + "  color = \"" + FgColor(gi).value + "\";\n"
  }

  /**
   * Everything enterNode appends to `dot`: the attribute lines end with `;`,
   * and a group's are followed by a blank line.
   */
  function WriteEnter(dot: string, currentIndent: string, node: Node, baseUrl: string): (r: string)
    requires ColoursValid(node.issue.graphvizIssue)
    ensures |r| >= 2 && r[|r| - 2] == (if node.IsGroup() then '\n' else ';') && r[|r| - 1] == '\n'
  {
    var gi := node.issue.graphvizIssue;
    var attributes := WriteLinkAndColours(WriteLabel(WriteOpener(dot, currentIndent, gi, node.IsGroup()),
                                                     currentIndent, gi), currentIndent, gi, baseUrl);
    if node.IsGroup() then attributes + "\n" else attributes
  }

  /** What leaveNode appends: `}` closes a cluster, `]` a node block. */
  function WriteLeave(dot: string, currentIndent: string, isParent: bool): (r: string)
    ensures |r| == |dot| + |currentIndent| + 2
    ensures r[|r| - 2] == (if isParent then '}' else ']') && r[|r| - 1] == '\n'
  {
    if isParent then dot + currentIndent + "}\n" else dot + currentIndent + "]\n"
  }

  /**
   * One edge statement, `tail -> head`; `ltail` and `lhead` hold the label
   * of the cluster the edge leaves or enters, when there is one.
   */
  datatype Edge = Edge(tail: string, head: string, ltail: Option<string>, lhead: Option<string>)

  /**
   * The edge for "node depends on dependency": it runs between the anchors;
   * `ltail` names the dependency's cluster when its anchor label is not its
   * own label, `lhead` names the node's cluster when the node is a group.
   */
  function EdgeOf(dependency: Node, node: Node): (r: Edge)
    ensures r.tail == Anchor(dependency).Label() && r.head == Anchor(node).Label()
    ensures r.ltail.Some? ==> dependency.IsGroup() && r.ltail.value == dependency.Label()
    ensures r.lhead.Some? <==> node.IsGroup()
    ensures r.lhead.Some? ==> r.lhead.value == node.Label()
  {
    var dependencyLabel := Anchor(dependency).Label();
    Edge(dependencyLabel, Anchor(node).Label(),
         if dependencyLabel != dependency.Label() then Some(dependency.Label()) else None,
         if node.IsGroup() then Some(node.Label()) else None)
  }

  /** The text of one edge statement in the deferred block. */
  function WriteEdge(dependenciesDot: string, e: Edge): (r: string)
    ensures dependenciesDot <= r && dependenciesDot + "  " + e.tail + " -> " + e.head <= r
    ensures r[|r| - 1] == '\n'
    ensures e.ltail.Some? || e.lhead.Some? ==> r[|r| - 4..] == "  ]\n"
  {
    var arrow := dependenciesDot + "  " + e.tail + " -> " + e.head;
    var statement :=
      if e.ltail.Some? || e.lhead.Some? then
        var bracket := arrow + " [\n";
        var withTail := if e.ltail.Some? then bracket + "    ltail = cluster_" + e.ltail.value + ";\n" else bracket;
        var withHead := if e.lhead.Some? then withTail + "    lhead = cluster_" + e.lhead.value + ";\n" else withTail;
        withHead + "  ]"
      else arrow;
    statement + "\n"
  }

  /** The edge statements of `node`, one per dependency, in order. */
  function WriteEdges(dependenciesDot: string, dependencies: seq<Node>, node: Node): (r: string)
    ensures dependencies != [] ==> |r| > 0 && r[|r| - 1] == '\n'
    decreases |dependencies|
  {
    if dependencies == [] then dependenciesDot
    else WriteEdge(WriteEdges(dependenciesDot, dependencies[..|dependencies| - 1], node),
                   EdgeOf(dependencies[|dependencies| - 1], node))
  }

  lemma WriteEdgesSnoc(dependenciesDot: string, dependencies: seq<Node>, dependency: Node, node: Node)
    ensures WriteEdges(dependenciesDot, dependencies + [dependency], node) ==
              WriteEdge(WriteEdges(dependenciesDot, dependencies, node), EdgeOf(dependency, node))
  {
    assert (dependencies + [dependency])[..|dependencies|] == dependencies;
  }

  // ---------------------------------------------------------------------
  // What a walk over a forest contributes
  // ---------------------------------------------------------------------

  /** No colour assertion fails anywhere in the forest. */
  predicate ForestColoursValid(ns: seq<Node>)
    decreases ns
  {
    forall i | 0 <= i < |ns| :: ColoursValid(ns[i].issue.graphvizIssue) && ForestColoursValid(ns[i].children)
  }

  /** The colours of `ns + [n]` are valid when those of `ns`, of `n` and of its subtree are. */
  lemma ForestColoursValidSnoc(ns: seq<Node>, n: Node)
    ensures ForestColoursValid(ns + [n]) <==>
              ForestColoursValid(ns) && ColoursValid(n.issue.graphvizIssue) && ForestColoursValid(n.children)
  {
    var s := ns + [n];
    assert forall i | 0 <= i < |ns| :: s[i] == ns[i];
    assert s[|ns|] == n;
  }

  /** The edges of the first `k + 1` dependencies: those of the first `k`, then the next one. */
  lemma WriteEdgesStep(dependenciesDot: string, dependencies: seq<Node>, k: nat, node: Node)
    requires k < |dependencies|
    ensures WriteEdges(dependenciesDot, dependencies[..k + 1], node) ==
              WriteEdge(WriteEdges(dependenciesDot, dependencies[..k], node), EdgeOf(dependencies[k], node))
  {
    TakeSnoc(dependencies, k);
    WriteEdgesSnoc(dependenciesDot, dependencies[..k], dependencies[k], node);
  }

  lemma TakeSnoc<T>(s: seq<T>, i: nat)
    requires i < |s|
    ensures s[..i + 1] == s[..i] + [s[i]]
  {
  }

  /** A node whose colours, or whose subtree's colours, are invalid makes the whole forest invalid. */
  lemma NotValidAt(ns: seq<Node>, i: nat)
    requires i < |ns|
    requires !ColoursValid(ns[i].issue.graphvizIssue) || !ForestColoursValid(ns[i].children)
    ensures !ForestColoursValid(ns)
  {
  }

  /**
   * The `dot` text after a pre-order walk over `ns` at `level`: each node is
   * entered and left at indent `level + 1`, its children walked in between.
   */
  function ForestDot(dot: string, ns: seq<Node>, level: nat, baseUrl: string): (r: string)
    requires ForestColoursValid(ns)
    ensures ns != [] ==> |r| >= 2 && r[|r| - 2] == (if ns[|ns| - 1].IsGroup() then '}' else ']') && r[|r| - 1] == '\n'
    decreases ns
  {
    if ns == [] then dot
    else
      var n := ns[|ns| - 1];
      var entered := WriteEnter(ForestDot(dot, ns[..|ns| - 1], level, baseUrl), Indent(level + 1), n, baseUrl);
      WriteLeave(ForestDot(entered, n.children, level + 1, baseUrl), Indent(level + 1), n.IsGroup())
  }

  /** The `dependenciesDot` text after the same walk. */
  function ForestEdges(dependenciesDot: string, ns: seq<Node>): (r: string)
    ensures r != dependenciesDot ==> |r| > 0 && r[|r| - 1] == '\n'
    decreases ns
  {
    if ns == [] then dependenciesDot
    else
      var n := ns[|ns| - 1];
      ForestEdges(WriteEdges(ForestEdges(dependenciesDot, ns[..|ns| - 1]), n.dependencies, n), n.children)
  }

  /** Walking `ns + [n]` is walking `ns`, then entering, walking and leaving `n`. */
  lemma ForestDotSnoc(dot: string, ns: seq<Node>, n: Node, level: nat, baseUrl: string)
    requires ForestColoursValid(ns) && ColoursValid(n.issue.graphvizIssue) && ForestColoursValid(n.children)
    ensures ForestColoursValid(ns + [n])
    ensures ForestDot(dot, ns + [n], level, baseUrl) ==
              WriteLeave(ForestDot(WriteEnter(ForestDot(dot, ns, level, baseUrl), Indent(level + 1), n, baseUrl),
                                   n.children, level + 1, baseUrl), Indent(level + 1), n.IsGroup())
  {
    ForestColoursValidSnoc(ns, n);
    assert (ns + [n])[..|ns|] == ns;
  }

  /** The edges of `ns + [n]`: those of `ns`, then those of `n`, then those of its subtree. */
  lemma ForestEdgesSnoc(dependenciesDot: string, ns: seq<Node>, n: Node)
    ensures ForestEdges(dependenciesDot, ns + [n]) ==
              ForestEdges(WriteEdges(ForestEdges(dependenciesDot, ns), n.dependencies, n), n.children)
  {
    assert (ns + [n])[..|ns|] == ns;
  }

  /** The attributes every cluster gets. */
  const GraphStatement: string :=
    "  graph [\n"
    + "    fontname = \"helvetica\";\n"
    + "    style = \"rounded,filled\";\n"
    + "    target = \"_blank\";\n"
    + "  ];\n"

  /** The attributes every node gets. */
  const NodeStatement: string :=
    "  node [\n"
    + "    fontname = \"helvetica\",\n"
    + "    shape = box;\n"
    + "    style = \"rounded,filled\";\n"
    + "    target = \"_blank\";\n"
    + "  ];\n"

  /** The attributes every edge gets. */
  const EdgeStatement: string :=
    "  edge [\n"
    + "    fontname = \"helvetica\";\n"
    + "  ];\n"

  /** Left-to-right layout, with edges allowed to end at cluster borders. */
  const Layout: string :=
    "\n"
    + "  rankdir = LR;\n"
    + "  compound = true;\n"
    + "  newrank = true;\n"
    + "  ranksep = 1;\n"
    + "\n"

  /** The fixed start of every document: the initial `dot` of the builder that computeDotFromIssues creates. */
  function Preamble(): (r: string)
    ensures "digraph ProjectPlan {\n" <= r
    ensures r[|r| - 2..] == "\n\n"
  {
    "digraph ProjectPlan {\n" + GraphStatement + NodeStatement + EdgeStatement + Layout
  }

  /** The edge block, after a blank line, only when there are edges; then the closing brace. */
  function Finish(dot: string, dependenciesDot: string): (r: string)
    ensures dot <= r
    ensures |r| >= 2 && r[|r| - 2..] == "}\n"
    ensures |dependenciesDot| > 0 ==> dot + "\n" + dependenciesDot <= r
    ensures |dependenciesDot| == 0 ==> |r| == |dot| + 2
  {
    var withEdges := if |dependenciesDot| > 0 then dot + "\n" + dependenciesDot else dot;
    withEdges + "}\n"
  }

  /** The whole document, or `None` when a colour assertion fails. */
  function DotDocument(forest: seq<Node>, baseUrl: string): (r: Option<string>)
    ensures r.Some? <==> ForestColoursValid(forest)
    ensures r.Some? ==> |r.value| >= 2 && r.value[|r.value| - 2..] == "}\n"
  {
    if ForestColoursValid(forest) then
      Some(Finish(ForestDot(Preamble(), forest, 0, baseUrl), ForestEdges("", forest)))
    else None
  }

  // ---------------------------------------------------------------------
  // The imperative emitter
  // ---------------------------------------------------------------------

  /**
   * enterNode. The opener is written before the colours are checked, so a
   * failed colour assertion leaves it behind; the caller then discards the
   * builder.
   */
  method EnterNode(dotBuilder: DotBuilder, currentIndent: string, node: Node, baseUrl: string)
    returns (ok: bool)
    modifies dotBuilder
    ensures ok == ColoursValid(node.issue.graphvizIssue)
    ensures ok ==> dotBuilder.dot == WriteEnter(old(dotBuilder.dot), currentIndent, node, baseUrl)
    ensures ok ==> dotBuilder.dependenciesDot == WriteEdges(old(dotBuilder.dependenciesDot), node.dependencies, node)
    ensures !ok ==> dotBuilder.dot == WriteOpener(old(dotBuilder.dot), currentIndent, node.issue.graphvizIssue, node.IsGroup())
    ensures !ok ==> dotBuilder.dependenciesDot == old(dotBuilder.dependenciesDot)
  {
    var graphvizIssue := node.issue.graphvizIssue;
    var isSubgraph := |node.children| > 0;
    dotBuilder.dot := dotBuilder.dot + currentIndent;
    if isSubgraph {
      dotBuilder.dot := dotBuilder.dot + "subgraph cluster_" + graphvizIssue.nodeLabel + " {\n";
    } else {
      dotBuilder.dot := dotBuilder.dot + graphvizIssue.nodeLabel + " [\n";
    }
    assert dotBuilder.dot == WriteOpener(old(dotBuilder.dot), currentIndent, graphvizIssue, isSubgraph);
    var fgColor := FgColor(graphvizIssue);
    if fgColor.None? {
      return false;
    }
    var bgColor := BgColor(graphvizIssue);
    if bgColor.None? {
      return false;
    }
    AppendLabelAndColours(dotBuilder, currentIndent, graphvizIssue, fgColor.value, bgColor.value, baseUrl);
    AppendDependencyEdges(dotBuilder, node, isSubgraph);
    if |node.children| > 0 {
      dotBuilder.dot := dotBuilder.dot + "\n";
    }
    ok := true;
  }

  /** The label, href and colour lines of enterNode, once both colours are known. */
  method AppendLabelAndColours(dotBuilder: DotBuilder, currentIndent: string, graphvizIssue: GraphvizIssue,
                               fgColor: string, bgColor: string, baseUrl: string)
    requires ColoursValid(graphvizIssue)
    requires fgColor == FgColor(graphvizIssue).value && bgColor == BgColor(graphvizIssue).value
    modifies dotBuilder
    ensures dotBuilder.dot ==
              WriteLinkAndColours(WriteLabel(old(dotBuilder.dot), currentIndent, graphvizIssue),
                                  currentIndent, graphvizIssue, baseUrl)
    ensures dotBuilder.dependenciesDot == old(dotBuilder.dependenciesDot)
  {
    var beginLabel := "";
    var endLabel := "";
    if graphvizIssue.isResolved {
      beginLabel := "<s>";
      endLabel := "</s>";
    }
    var assignee := Opt(graphvizIssue.assignee, FullName);
    dotBuilder.dot := dotBuilder.dot
      + currentIndent + "  label = <" + beginLabel + graphvizIssue.id + ": " + graphvizIssue.escapedSummary + endLabel;
    if assignee.Some? {
      dotBuilder.dot := dotBuilder.dot + "<br/><font point-size=\"12\">" + assignee.value + "</font>";
    }
    assert dotBuilder.dot == WriteLabel(old(dotBuilder.dot), currentIndent, graphvizIssue);
    dotBuilder.dot := dotBuilder.dot + ">;\n"
      + currentIndent + "  href = \"" + baseUrl + "issue/" + graphvizIssue.id + "\";\n"
      + currentIndent + "  fillcolor = \"" + bgColor + "\";\n"
      + currentIndent + "  fontcolor = \"" + fgColor + "\";\n"
      + currentIndent + "  color = \"" + fgColor + "\";\n";
  }

  /** enterNode's loop: one edge statement per dependency, in order. */
  method AppendDependencyEdges(dotBuilder: DotBuilder, node: Node, isSubgraph: bool)
    requires isSubgraph == node.IsGroup()
    modifies dotBuilder
    ensures dotBuilder.dependenciesDot == WriteEdges(old(dotBuilder.dependenciesDot), node.dependencies, node)
    ensures dotBuilder.dot == old(dotBuilder.dot)
  {
    var nodeAnchor := LinkLabelForIssueNode(node);
    ghost var start := dotBuilder.dependenciesDot;
    for k := 0 to |node.dependencies|
      invariant dotBuilder.dot == old(dotBuilder.dot)
      invariant dotBuilder.dependenciesDot == WriteEdges(start, node.dependencies[..k], node)
    {
      WriteEdgesStep(start, node.dependencies, k, node);
      AppendDependencyEdge(dotBuilder, node.dependencies[k], node, nodeAnchor, isSubgraph);
    }
    assert node.dependencies[..|node.dependencies|] == node.dependencies;
  }

  /** One iteration of enterNode's loop over the dependencies. */
  method AppendDependencyEdge(dotBuilder: DotBuilder, dependencyNode: Node, node: Node,
                              nodeAnchor: string, isSubgraph: bool)
    requires nodeAnchor == Anchor(node).Label() && isSubgraph == node.IsGroup()
    modifies dotBuilder
    ensures dotBuilder.dependenciesDot == WriteEdge(old(dotBuilder.dependenciesDot), EdgeOf(dependencyNode, node))
    ensures dotBuilder.dot == old(dotBuilder.dot)
  {
    var dependency := dependencyNode.issue.graphvizIssue;
    var dependencyLabel := LinkLabelForIssueNode(dependencyNode);
    var isDependencySubgraph := dependencyLabel != dependency.nodeLabel;
    ghost var e := EdgeOf(dependencyNode, node);
    assert e.tail == dependencyLabel && e.head == nodeAnchor;
    assert e.ltail.Some? <==> isDependencySubgraph;
    assert isDependencySubgraph ==> e.ltail.value == dependency.nodeLabel;
    assert e.lhead.Some? <==> isSubgraph;
    assert isSubgraph ==> e.lhead.value == node.issue.graphvizIssue.nodeLabel;
    dotBuilder.dependenciesDot := dotBuilder.dependenciesDot + "  " + dependencyLabel + " -> " + nodeAnchor;
    if isSubgraph || isDependencySubgraph {
      dotBuilder.dependenciesDot := dotBuilder.dependenciesDot + " [\n";
      if isDependencySubgraph {
        dotBuilder.dependenciesDot := dotBuilder.dependenciesDot + "    ltail = cluster_" + dependency.nodeLabel + ";\n";
      }
      if isSubgraph {
        dotBuilder.dependenciesDot := dotBuilder.dependenciesDot + "    lhead = cluster_" + node.issue.graphvizIssue.nodeLabel + ";\n";
      }
      dotBuilder.dependenciesDot := dotBuilder.dependenciesDot + "  ]";
    }
    dotBuilder.dependenciesDot := dotBuilder.dependenciesDot + "\n";
  }

  /** leaveNode: closes the cluster of a group or the block of a leaf. */
  method LeaveNode(dotBuilder: DotBuilder, currentIndent: string, isParent: bool)
    modifies dotBuilder
    ensures dotBuilder.dot == WriteLeave(old(dotBuilder.dot), currentIndent, isParent)
    ensures dotBuilder.dependenciesDot == old(dotBuilder.dependenciesDot)
  {
    if isParent {
      dotBuilder.dot := dotBuilder.dot + currentIndent + "}\n";
    } else {
      dotBuilder.dot := dotBuilder.dot + currentIndent + "]\n";
    }
  }

  /** The number of nodes in a forest, counting every subtree; it bounds the walk. */
  ghost function ForestSize(ns: seq<Node>): nat
    decreases ns
  {
    if ns == [] then 0 else ForestSize(ns[..|ns| - 1]) + 1 + ForestSize(ns[|ns| - 1].children)
  }

  /** A tree of a forest is no larger than the forest. */
  lemma {:induction false} TreeWithinForest(ns: seq<Node>, i: nat)
    requires i < |ns|
    ensures 1 + ForestSize(ns[i].children) <= ForestSize(ns)
    decreases ns
  {
    if i < |ns| - 1 {
      var init := ns[..|ns| - 1];
      assert init[i] == ns[i];
      TreeWithinForest(init, i);
    }
  }

  /**
   * One tree of the walk of traverseIssueForest with the two callbacks of
   * computeDotFromIssues: the indent level is incremented before enterNode
   * and decremented after leaveNode, so the node is written one level
   * deeper than `indentLevel` and its children one level deeper still.
   */
  method WalkTree(dotBuilder: DotBuilder, node: Node, indentLevel: nat, baseUrl: string) returns (ok: bool)
    modifies dotBuilder
    ensures ok == (ColoursValid(node.issue.graphvizIssue) && ForestColoursValid(node.children))
    ensures ok ==> dotBuilder.dot ==
                     WriteLeave(ForestDot(WriteEnter(old(dotBuilder.dot), Indent(indentLevel + 1), node, baseUrl),
                                          node.children, indentLevel + 1, baseUrl),
                                Indent(indentLevel + 1), node.IsGroup())
    ensures ok ==> dotBuilder.dependenciesDot ==
                     ForestEdges(WriteEdges(old(dotBuilder.dependenciesDot), node.dependencies, node), node.children)
    decreases 1 + ForestSize(node.children), 0
  {
    var level := indentLevel + 1;
    ok := EnterNode(dotBuilder, Indent(level), node, baseUrl);
    if !ok {
      return;
    }
    ok := TraverseIssueForest(dotBuilder, node.children, level, baseUrl);
    if !ok {
      return;
    }
    LeaveNode(dotBuilder, Indent(level), |node.children| > 0);
  }

  /**
   * The pre-order walk of traverseIssueForest over a forest: the trees in
   * order. A failed colour assertion ends the walk.
   */
  method TraverseIssueForest(dotBuilder: DotBuilder, nodes: seq<Node>, indentLevel: nat, baseUrl: string)
    returns (ok: bool)
    modifies dotBuilder
    ensures ok == ForestColoursValid(nodes)
    ensures ok ==> dotBuilder.dot == ForestDot(old(dotBuilder.dot), nodes, indentLevel, baseUrl)
    ensures ok ==> dotBuilder.dependenciesDot == ForestEdges(old(dotBuilder.dependenciesDot), nodes)
    decreases ForestSize(nodes), 1
  {
    for i := 0 to |nodes|
      invariant ForestColoursValid(nodes[..i])
      invariant dotBuilder.dot == ForestDot(old(dotBuilder.dot), nodes[..i], indentLevel, baseUrl)
      invariant dotBuilder.dependenciesDot == ForestEdges(old(dotBuilder.dependenciesDot), nodes[..i])
    {
      var node := nodes[i];
      TakeSnoc(nodes, i);
      TreeWithinForest(nodes, i);
      ok := WalkTree(dotBuilder, node, indentLevel, baseUrl);
      if !ok {
        NotValidAt(nodes, i);
        return;
      }
      ForestDotSnoc(old(dotBuilder.dot), nodes[..i], node, indentLevel, baseUrl);
      ForestEdgesSnoc(old(dotBuilder.dependenciesDot), nodes[..i], node);
    }
    assert nodes[..|nodes|] == nodes;
    ok := true;
  }

  /**
   * computeDotFromIssues. `makeForest` (an external library function) is a
   * parameter: it turns the extended issues into the forest that is walked.
   */
  method ComputeDotFromIssues(issues: seq<YouTrackIssue>, baseUrl: string, userMap: map<string, User>,
                              typeFieldId: string, typeMap: map<string, EnumBundleElement>,
                              makeForest: seq<ExtendedIssue> -> seq<Node>)
    returns (r: Option<string>)
    ensures r == DotDocument(makeForest(ExtendIssues(issues, userMap, typeFieldId, typeMap)), baseUrl)
  {
    var dotBuilder := new DotBuilder(Preamble(), "");
    var extendedIssues := ExtendIssues(issues, userMap, typeFieldId, typeMap);
    var ok := TraverseIssueForest(dotBuilder, makeForest(extendedIssues), 0, baseUrl);
    if !ok {
      return None;
    }
    if |dotBuilder.dependenciesDot| > 0 {
      dotBuilder.dot := dotBuilder.dot + "\n" + dotBuilder.dependenciesDot;
    }
    dotBuilder.dot := dotBuilder.dot + "}\n";
    return Some(dotBuilder.dot);
  }
}
