/**
 * The nodes handed to the force simulation and the `ticked` handler that both charts install: on every tick each
 * circle's centre is pulled back inside the container, x first for every circle, then y, then the labels follow.
 */
module Layout {
  import opened Snapshot

  /** A simulation node `{ name, proportion, r, x, y }`; the simulation and `ticked` rewrite x and y in place. */
  class Node {
    var name: string
    var proportion: real
    var r: real
    var x: real
    var y: real

    /** The node's current fields as a value. */
    function Value(): NodeInit
      reads this
    {
      NodeInit(name, proportion, r, x, y)
    }

    /** One element of the `nodes` array built by `rescaledData.map(...)`. */
    constructor (init: NodeInit)
      ensures Value() == init
    {
      name := init.name;
      proportion := init.proportion;
      r := init.r;
      x := init.x;
      y := init.y;
    }
  }

  /**
   * `Math.max(r, Math.min(extent - r, v))`: a centre coordinate pulled back so that a circle of radius r lies in
   * [0, extent]. When the circle does not fit (2r > extent), the lower bound r wins.
   */
  function Clamp(v: real, r: real, extent: real): (c: real)
    ensures r <= c
    ensures 2.0 * r <= extent ==> c <= extent - r
    ensures r <= v <= extent - r ==> c == v
    ensures extent < 2.0 * r ==> c == r
    ensures c == v || c == r || c == extent - r
  {
    var upper := if v < extent - r then v else extent - r;
    if upper < r then r else upper
  }

  /** Clamping a clamped coordinate changes nothing. */
  lemma ClampIdempotent(v: real, r: real, extent: real)
    ensures Clamp(Clamp(v, r, extent), r, extent) == Clamp(v, r, extent)
  {
  }

  /** When the circle fits, the clamped coordinate is the point of [r, extent - r] nearest to v. */
  lemma ClampIsNearest(v: real, r: real, extent: real, w: real)
    requires 2.0 * r <= extent && r <= w <= extent - r
    ensures Dist(Clamp(v, r, extent), v) <= Dist(w, v)
  {
  }

  /** Clamping keeps the order of two coordinates. */
  lemma ClampMonotone(v: real, u: real, r: real, extent: real)
    requires v <= u
    ensures Clamp(v, r, extent) <= Clamp(u, r, extent)
  {
  }

  /** The distance between two coordinates. */
  function Dist(a: real, b: real): real
  {
    if a < b then b - a else a - b
  }

  /** One tick's effect on one node: x clamped to the width, y to the height, everything else kept. */
  function ClampNode(n: NodeInit, width: real, height: real): (c: NodeInit)
    ensures c.name == n.name && c.proportion == n.proportion && c.r == n.r
    ensures n.r <= c.x && n.r <= c.y
    ensures 2.0 * n.r <= width ==> c.x <= width - n.r
    ensures 2.0 * n.r <= height ==> c.y <= height - n.r
    ensures Inside(n, width, height) ==> c == n
  {
    n.(x := Clamp(n.x, n.r, width), y := Clamp(n.y, n.r, height))
  }

  /** The circle of node n lies within the width × height container. */
  ghost predicate Inside(n: NodeInit, width: real, height: real)
  {
    n.r <= n.x <= width - n.r && n.r <= n.y <= height - n.r
  }

  /** A second tick without forces in between leaves the nodes where the first put them. */
  lemma ClampNodeIdempotent(n: NodeInit, width: real, height: real)
    ensures ClampNode(ClampNode(n, width, height), width, height) == ClampNode(n, width, height)
  {
  }

  /** A node whose circle fits the container is inside it after a tick. */
  lemma ClampNodeInside(n: NodeInit, width: real, height: real)
    requires 2.0 * n.r <= width && 2.0 * n.r <= height
    ensures Inside(ClampNode(n, width, height), width, height)
  {
  }

  /** The nodes are pairwise different objects, as the objects made by `map` are. */
  ghost predicate Distinct(nodes: array<Node>)
    reads nodes
  {
    forall i, j :: 0 <= i < j < nodes.Length ==> nodes[i] != nodes[j]
  }

  /** The current fields of every node, in array order. */
  ghost function Values(nodes: array<Node>): (vs: seq<NodeInit>)
    reads nodes, set i | 0 <= i < nodes.Length :: nodes[i]
    ensures |vs| == nodes.Length
    ensures forall i :: 0 <= i < nodes.Length ==> vs[i] == nodes[i].Value()
  {
    seq(nodes.Length, i reads nodes, nodes[..] requires 0 <= i < nodes.Length => nodes[i].Value())
  }

  /** Allocates one node per initial value, in order. */
  method CreateNodes(inits: seq<NodeInit>) returns (nodes: array<Node>)
    ensures fresh(nodes) && nodes.Length == |inits|
    ensures Distinct(nodes)
    ensures forall i :: 0 <= i < nodes.Length ==> fresh(nodes[i]) && nodes[i].Value() == inits[i]
    ensures Values(nodes) == inits
  {
    var made: seq<Node> := [];
    while |made| < |inits|
      invariant |made| <= |inits|
      invariant forall j :: 0 <= j < |made| ==> fresh(made[j]) && made[j].Value() == inits[j]
      invariant forall j, k :: 0 <= j < k < |made| ==> made[j] != made[k]
    {
      var n := new Node(inits[|made|]);
      made := made + [n];
    }
    nodes := new Node[|inits|](i requires 0 <= i < |inits| => made[i]);
    assert Values(nodes) == inits;
  }

  /**
   * The `ticked` handler: `circles.attr("cx", d => d.x = …)` rewrites every node's x, `.attr("cy", …)` every
   * node's y, and the labels are then placed at (x, y + 4). Returns the label positions.
   */
  method Ticked(nodes: array<Node>, width: real, height: real) returns (labels: seq<(real, real)>)
    requires Distinct(nodes)
    modifies set i | 0 <= i < nodes.Length :: nodes[i]
    ensures forall i :: 0 <= i < nodes.Length ==>
      nodes[i].Value() == ClampNode(old(nodes[i].Value()), width, height)
    ensures |labels| == nodes.Length
    ensures forall i :: 0 <= i < nodes.Length ==> labels[i] == (nodes[i].x, nodes[i].y + 4.0)
  {
    ClampAll(nodes, width, true);
    ClampAll(nodes, height, false);
    labels := LabelPositions(nodes);
  }

  /** One `.attr("cx", …)` (horizontal) or `.attr("cy", …)` pass: every node's x, or every node's y, clamped. */
  method ClampAll(nodes: array<Node>, extent: real, horizontal: bool)
    requires Distinct(nodes)
    modifies set i | 0 <= i < nodes.Length :: nodes[i]
    ensures forall i :: 0 <= i < nodes.Length ==>
      nodes[i].name == old(nodes[i].name) && nodes[i].proportion == old(nodes[i].proportion) &&
      nodes[i].r == old(nodes[i].r)
    ensures forall i :: 0 <= i < nodes.Length ==>
      if horizontal then nodes[i].x == Clamp(old(nodes[i].x), old(nodes[i].r), extent) && nodes[i].y == old(nodes[i].y)
      else nodes[i].y == Clamp(old(nodes[i].y), old(nodes[i].r), extent) && nodes[i].x == old(nodes[i].x)
  {
    var i := 0;
    while i < nodes.Length
      invariant 0 <= i <= nodes.Length
      invariant forall j :: 0 <= j < nodes.Length ==>
        nodes[j].name == old(nodes[j].name) && nodes[j].proportion == old(nodes[j].proportion) &&
        nodes[j].r == old(nodes[j].r)
      invariant forall j :: 0 <= j < i ==>
        if horizontal then nodes[j].x == Clamp(old(nodes[j].x), old(nodes[j].r), extent) && nodes[j].y == old(nodes[j].y)
        else nodes[j].y == Clamp(old(nodes[j].y), old(nodes[j].r), extent) && nodes[j].x == old(nodes[j].x)
      invariant forall j :: i <= j < nodes.Length ==> nodes[j].x == old(nodes[j].x) && nodes[j].y == old(nodes[j].y)
    {
      var n := nodes[i];
      if horizontal {
        n.x := Clamp(n.x, n.r, extent);
      } else {
        n.y := Clamp(n.y, n.r, extent);
      }
      i := i + 1;
    }
  }

  /** `labels.attr("x", d => d.x).attr("y", d => d.y + 4)`: each label sits 4 pixels below its node's centre. */
  method LabelPositions(nodes: array<Node>) returns (labels: seq<(real, real)>)
    ensures |labels| == nodes.Length
    ensures forall i :: 0 <= i < nodes.Length ==> labels[i] == (nodes[i].x, nodes[i].y + 4.0)
  {
    labels := [];
    while |labels| < nodes.Length
      invariant |labels| <= nodes.Length
      invariant forall j :: 0 <= j < |labels| ==> labels[j] == (nodes[j].x, nodes[j].y + 4.0)
    {
      var n := nodes[|labels|];
      labels := labels + [(n.x, n.y + 4.0)];
    }
  }
}
