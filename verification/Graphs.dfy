/** Finite directed multigraphs with identified edges, as the graph store keeps them, and walks over them. */
module Graphs {
  import opened Common

  datatype Arc = Arc(start: int, end: int)

  /** Edge id to end points. */
  type Arcs = map<int, Arc>

  datatype Direction = Outbound | Inbound | Either

  datatype Walk = Walk(vertices: seq<int>, edges: seq<int>)

  /** Edge e leads from u to v when crossed in the given direction. */
  predicate Crosses(g: Arcs, dir: Direction, e: int, u: int, v: int) {
    e in g && ((dir != Inbound && g[e] == Arc(u, v)) || (dir != Outbound && g[e] == Arc(v, u)))
  }

  ghost predicate IsWalk(g: Arcs, dir: Direction, w: Walk) {
    && |w.vertices| == |w.edges| + 1
    && forall i | 0 <= i < |w.edges| :: Crosses(g, dir, w.edges[i], w.vertices[i], w.vertices[i + 1])
  }

  ghost predicate Connects(g: Arcs, dir: Direction, w: Walk, u: int, v: int) {
    IsWalk(g, dir, w) && w.vertices[0] == u && w.vertices[|w.edges|] == v
  }

  ghost predicate Reaches(g: Arcs, u: int, v: int) {
    exists w :: Connects(g, Outbound, w, u, v)
  }

  /** A cycle through v: a walk of at least one edge from v back to v. */
  ghost predicate CyclicAt(g: Arcs, v: int) {
    exists w :: Connects(g, Outbound, w, v, v) && |w.edges| > 0
  }

  ghost predicate Acyclic(g: Arcs) {
    forall v :: !CyclicAt(g, v)
  }

  ghost predicate AtMostOneParent(g: Arcs) {
    forall e, f | e in g && f in g && g[e].end == g[f].end :: e == f
  }

  ghost predicate Forest(g: Arcs) {
    AtMostOneParent(g) && Acyclic(g)
  }

  ghost function Prefix(w: Walk, k: nat): Walk
    requires k < |w.vertices| && k <= |w.edges|
  {
    Walk(w.vertices[..k + 1], w.edges[..k])
  }

  ghost function Suffix(w: Walk, k: nat): Walk
    requires k < |w.vertices| && k <= |w.edges|
  {
    Walk(w.vertices[k..], w.edges[k..])
  }

  ghost function Join(a: Walk, b: Walk): Walk
    requires |b.vertices| > 0
  {
    Walk(a.vertices + b.vertices[1..], a.edges + b.edges)
  }

  function Extend(w: Walk, e: int, next: int): Walk {
    Walk(w.vertices + [next], w.edges + [e])
  }

  lemma ExtendConnects(g: Arcs, dir: Direction, w: Walk, e: int, next: int)
    requires IsWalk(g, dir, w) && Crosses(g, dir, e, w.vertices[|w.edges|], next)
    ensures Connects(g, dir, Extend(w, e, next), w.vertices[0], next)
  {
    var x := Extend(w, e, next);
    forall i | 0 <= i < |x.edges|
      ensures Crosses(g, dir, x.edges[i], x.vertices[i], x.vertices[i + 1])
    {
      if i < |w.edges| {
        assert Crosses(g, dir, w.edges[i], w.vertices[i], w.vertices[i + 1]);
      }
    }
  }

  lemma PrefixConnects(g: Arcs, dir: Direction, w: Walk, k: nat)
    requires IsWalk(g, dir, w) && k <= |w.edges|
    ensures Connects(g, dir, Prefix(w, k), w.vertices[0], w.vertices[k])
  {
  }

  lemma SuffixConnects(g: Arcs, dir: Direction, w: Walk, k: nat)
    requires IsWalk(g, dir, w) && k <= |w.edges|
    ensures Connects(g, dir, Suffix(w, k), w.vertices[k], w.vertices[|w.edges|])
  {
    var s := Suffix(w, k);
    forall i | 0 <= i < |s.edges|
      ensures Crosses(g, dir, s.edges[i], s.vertices[i], s.vertices[i + 1])
    {
      assert Crosses(g, dir, w.edges[k + i], w.vertices[k + i], w.vertices[k + i + 1]);
    }
  }

  lemma JoinConnects(g: Arcs, dir: Direction, a: Walk, b: Walk, u: int, v: int, x: int)
    requires Connects(g, dir, a, u, v) && Connects(g, dir, b, v, x)
    ensures Connects(g, dir, Join(a, b), u, x)
  {
    var j := Join(a, b);
    forall i | 0 <= i < |j.edges|
      ensures Crosses(g, dir, j.edges[i], j.vertices[i], j.vertices[i + 1])
    {
      if i < |a.edges| {
        assert Crosses(g, dir, a.edges[i], a.vertices[i], a.vertices[i + 1]);
      } else {
        var k := i - |a.edges|;
        assert Crosses(g, dir, b.edges[k], b.vertices[k], b.vertices[k + 1]);
      }
    }
  }

  ghost function Reverse(w: Walk): Walk {
    Walk(seq(|w.vertices|, i requires 0 <= i < |w.vertices| => w.vertices[|w.vertices| - 1 - i]),
         seq(|w.edges|, i requires 0 <= i < |w.edges| => w.edges[|w.edges| - 1 - i]))
  }

  lemma ReverseConnects(g: Arcs, w: Walk, u: int, v: int)
    requires Connects(g, Inbound, w, u, v)
    ensures Connects(g, Outbound, Reverse(w), v, u)
  {
    var r := Reverse(w);
    forall i | 0 <= i < |r.edges|
      ensures Crosses(g, Outbound, r.edges[i], r.vertices[i], r.vertices[i + 1])
    {
      var k := |w.edges| - 1 - i;
      assert Crosses(g, Inbound, w.edges[k], w.vertices[k], w.vertices[k + 1]);
    }
  }

  /** A walk inside a smaller graph is a walk of the larger one. */
  lemma WalkMonotone(g: Arcs, h: Arcs, dir: Direction, w: Walk)
    requires IsWalk(g, dir, w)
    requires forall i | 0 <= i < |w.edges| :: w.edges[i] in g && w.edges[i] in h && h[w.edges[i]] == g[w.edges[i]]
    ensures IsWalk(h, dir, w)
  {
    forall i | 0 <= i < |w.edges|
      ensures Crosses(h, dir, w.edges[i], w.vertices[i], w.vertices[i + 1])
    {
      assert Crosses(g, dir, w.edges[i], w.vertices[i], w.vertices[i + 1]);
    }
  }

  /**
   Cutting out loops: some walk with the same ends, no longer, over vertices of the old one only, repeats no vertex.
   */
  lemma {:induction false} Straighten(g: Arcs, dir: Direction, w: Walk) returns (s: Walk)
    requires IsWalk(g, dir, w)
    ensures Connects(g, dir, s, w.vertices[0], w.vertices[|w.edges|])
    ensures NoRepeats(s.vertices) && |s.edges| <= |w.edges|
    ensures forall x | x in s.vertices :: x in w.vertices
    decreases |w.edges|
  {
    if NoRepeats(w.vertices) {
      s := w;
    } else {
      var i, j :| 0 <= i < j < |w.vertices| && w.vertices[i] == w.vertices[j];
      PrefixConnects(g, dir, w, i);
      SuffixConnects(g, dir, w, j);
      JoinConnects(g, dir, Prefix(w, i), Suffix(w, j), w.vertices[0], w.vertices[i], w.vertices[|w.edges|]);
      s := Straighten(g, dir, Join(Prefix(w, i), Suffix(w, j)));
    }
  }

  /** A walk that repeats no vertex repeats no edge, whichever way edges are crossed. */
  lemma SimpleWalkUsesEdgesOnce(g: Arcs, dir: Direction, w: Walk)
    requires IsWalk(g, dir, w) && NoRepeats(w.vertices)
    ensures NoRepeats(w.edges)
  {
    forall i, j | 0 <= i < j < |w.edges|
      ensures w.edges[i] != w.edges[j]
    {
      assert Crosses(g, dir, w.edges[i], w.vertices[i], w.vertices[i + 1]);
      assert Crosses(g, dir, w.edges[j], w.vertices[j], w.vertices[j + 1]);
      assert w.vertices[i] != w.vertices[j] && w.vertices[i] != w.vertices[j + 1];
    }
  }

  /** A set that contains u and is closed under outgoing edges contains everything u reaches. */
  lemma {:induction false} ClosedContains(g: Arcs, closed: set<int>, w: Walk)
    requires IsWalk(g, Outbound, w) && w.vertices[0] in closed
    requires forall e | e in g && g[e].start in closed :: g[e].end in closed
    ensures w.vertices[|w.edges|] in closed
    decreases |w.edges|
  {
    if |w.edges| > 0 {
      assert Crosses(g, Outbound, w.edges[0], w.vertices[0], w.vertices[1]);
      SuffixConnects(g, Outbound, w, 1);
      ClosedContains(g, closed, Suffix(w, 1));
    }
  }
}
