/**
 * The issue forest and the boundary resolver (linkLabelForIssueNode).
 * The forest itself comes from an external library; here it is a value.
 */
module Forest {

  import opened Issues

  /**
   * IssueNode<ExtendedIssue>: an issue, its children in order, and the nodes
   * it depends on (each held with its own subtree).
   */
  datatype Node = Node(issue: ExtendedIssue, children: seq<Node>, dependencies: seq<Node>) {

    /** The DOT identifier of this node's issue. */
    function Label(): string { issue.graphvizIssue.nodeLabel }

    /** A group (a Graphviz cluster) is a node with children. */
    predicate IsGroup() { |children| > 0 }
  }

  /** `a` is reached from `n` by taking `children[0]` zero or more times. */
  predicate OnFirstChildChain(n: Node, a: Node)
    decreases n
  {
    n == a || (n.IsGroup() && OnFirstChildChain(n.children[0], a))
  }

  /** The leaf that stands in for `n` at the end of an edge. */
  function Anchor(n: Node): (a: Node)
    ensures !a.IsGroup()
    ensures OnFirstChildChain(n, a)
    ensures !n.IsGroup() ==> a == n
    ensures n.IsGroup() ==> a != n
    decreases n
  {
    if n.IsGroup() then Anchor(n.children[0]) else n
  }

  /** The anchor is the only leaf on the first-child chain. */
  lemma {:induction false} AnchorUnique(n: Node, a: Node)
    requires OnFirstChildChain(n, a) && !a.IsGroup()
    ensures a == Anchor(n)
    decreases n
  {
    if n != a {
      AnchorUnique(n.children[0], a);
    }
  }

  /**
   * linkLabelForIssueNode: follows `children[0]` until a node without
   * children and returns that node's label.
   */
  method LinkLabelForIssueNode(node: Node) returns (r: string)
    ensures r == Anchor(node).Label()
  {
    var currentNode := node;
    while |currentNode.children| > 0
      invariant Anchor(currentNode) == Anchor(node)
      decreases currentNode
    {
      currentNode := currentNode.children[0];
    }
    r := currentNode.issue.graphvizIssue.nodeLabel;
  }
}
