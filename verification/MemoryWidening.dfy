/**
 Widening from a set of memories over the link graph: the store enumerates bounded paths that cross
 no edge twice, drops whole every path that touches a hidden memory, and returns the memories on the rest.
 */
module MemoryWidening {
  import opened Common
  import opened Graphs

  /** Links between memory vertices, and the scope dimension of each stored memory's group. */
  datatype Tables = Tables(links: Arcs, dimension: map<int, string>)

  datatype Query = Query(sources: set<int>, direction: Direction, hidden: set<string>, maxDepth: nat)

  /** The join finds a stored memory whose group is in a hidden dimension. */
  predicate IsHidden(t: Tables, hidden: set<string>, v: int) {
    v in t.dimension && t.dimension[v] in hidden
  }

  /** A path the pattern yields: 1 to maxDepth edges, none crossed twice, starting at a source. */
  ghost predicate Walked(t: Tables, q: Query, w: Walk) {
    && IsWalk(t.links, q.direction, w) && NoRepeats(w.edges)
    && 1 <= |w.edges| <= q.maxDepth && w.vertices[0] in q.sources
  }

  ghost predicate CrossesHidden(t: Tables, q: Query, w: Walk) {
    exists v :: v in w.vertices && IsHidden(t, q.hidden, v)
  }

  ghost predicate Surviving(t: Tables, q: Query, w: Walk) {
    Walked(t, q, w) && !CrossesHidden(t, q, w)
  }

  /** A stored memory, not itself a source, on some surviving path. */
  ghost predicate Reached(t: Tables, q: Query, v: int) {
    v !in q.sources && v in t.dimension && exists w :: Surviving(t, q, w) && v in w.vertices
  }

  ghost predicate DepthLimitReached(t: Tables, q: Query) {
    exists w :: Walked(t, q, w) && |w.edges| >= q.maxDepth
  }

  ghost predicate HiddenPathDropped(t: Tables, q: Query) {
    exists w :: Walked(t, q, w) && CrossesHidden(t, q, w)
  }

  // ----- the reference: breadth-first search where hidden memories do not exist

  ghost function VisibleLinks(t: Tables, hidden: set<string>): Arcs {
    map e | e in t.links && !IsHidden(t, hidden, t.links[e].start) && !IsHidden(t, hidden, t.links[e].end) :: t.links[e]
  }

  ghost function Neighbours(g: Arcs, dir: Direction, from: set<int>): set<int> {
    (if dir == Inbound then {} else set e | e in g && g[e].start in from :: g[e].end)
    + (if dir == Outbound then {} else set e | e in g && g[e].end in from :: g[e].start)
  }

  ghost function Ball(t: Tables, q: Query, k: nat): set<int> {
    if k == 0 then set s | s in q.sources && !IsHidden(t, q.hidden, s)
    else Ball(t, q, k - 1) + Neighbours(VisibleLinks(t, q.hidden), q.direction, Ball(t, q, k - 1))
  }

  lemma NeighbourByEdge(g: Arcs, dir: Direction, from: set<int>, v: int)
    ensures v in Neighbours(g, dir, from) <==> exists e, u :: u in from && Crosses(g, dir, e, u, v)
  {
    if v in Neighbours(g, dir, from) {
      if dir != Inbound && v in set e | e in g && g[e].start in from :: g[e].end {
        var e :| e in g && g[e].start in from && g[e].end == v;
        assert Crosses(g, dir, e, g[e].start, v);
      } else {
        var e :| e in g && g[e].end in from && g[e].start == v;
        assert Crosses(g, dir, e, g[e].end, v);
      }
    }
  }

  lemma {:induction false} BallGrows(t: Tables, q: Query, j: nat, k: nat)
    requires j <= k
    ensures Ball(t, q, j) <= Ball(t, q, k)
    decreases k
  {
    if j < k { BallGrows(t, q, j, k - 1); }
  }

  lemma LastHop(t: Tables, q: Query, k: nat, v: int) returns (e: int, u: int)
    requires k > 0 && v in Ball(t, q, k) && v !in Ball(t, q, k - 1)
    ensures u in Ball(t, q, k - 1) && Crosses(VisibleLinks(t, q.hidden), q.direction, e, u, v)
  {
    var g, inner := VisibleLinks(t, q.hidden), Ball(t, q, k - 1);
    NeighbourByEdge(g, q.direction, inner, v);
    e, u :| u in inner && Crosses(g, q.direction, e, u, v);
  }

  /** Every memory in the ball has a visible walk to it, no longer than the radius. */
  lemma {:induction false} BallHasWalk(t: Tables, q: Query, k: nat, v: int) returns (w: Walk)
    requires v in Ball(t, q, k)
    ensures IsWalk(VisibleLinks(t, q.hidden), q.direction, w) && |w.edges| <= k
    ensures w.vertices[0] in q.sources && !IsHidden(t, q.hidden, w.vertices[0]) && w.vertices[|w.edges|] == v
  {
    if k == 0 {
      w := Walk([v], []);
    } else if v in Ball(t, q, k - 1) {
      w := BallHasWalk(t, q, k - 1, v);
    } else {
      var e, u := LastHop(t, q, k, v);
      var w0 := BallHasWalk(t, q, k - 1, u);
      ExtendConnects(VisibleLinks(t, q.hidden), q.direction, w0, e, v);
      w := Extend(w0, e, v);
    }
  }

  lemma {:induction false} SurvivingStaysInBall(t: Tables, q: Query, w: Walk, i: nat)
    requires Surviving(t, q, w) && i <= |w.edges|
    ensures w.vertices[i] in Ball(t, q, i)
    decreases i
  {
    if i > 0 {
      SurvivingStaysInBall(t, q, w, i - 1);
      assert Crosses(t.links, q.direction, w.edges[i - 1], w.vertices[i - 1], w.vertices[i]);
      assert w.vertices[i - 1] in w.vertices && w.vertices[i] in w.vertices;
      assert Crosses(VisibleLinks(t, q.hidden), q.direction, w.edges[i - 1], w.vertices[i - 1], w.vertices[i]);
      NeighbourByEdge(VisibleLinks(t, q.hidden), q.direction, Ball(t, q, i - 1), w.vertices[i]);
    } else {
      assert w.vertices[0] in w.vertices;
    }
  }

  /** A walk over visible links, from a visible source to elsewhere, yields a surviving path to the same end. */
  lemma VisibleWalkSurvives(t: Tables, q: Query, w: Walk) returns (s: Walk)
    requires IsWalk(VisibleLinks(t, q.hidden), q.direction, w) && |w.edges| <= q.maxDepth
    requires w.vertices[0] in q.sources && !IsHidden(t, q.hidden, w.vertices[0])
    requires w.vertices[|w.edges|] != w.vertices[0]
    ensures Surviving(t, q, s) && w.vertices[|w.edges|] in s.vertices
    ensures |s.edges| <= |w.edges| && NoRepeats(s.vertices) && s.vertices[|s.edges|] == w.vertices[|w.edges|]
  {
    var g := VisibleLinks(t, q.hidden);
    s := Straighten(g, q.direction, w);
    SimpleWalkUsesEdgesOnce(g, q.direction, s);
    forall i | 0 <= i < |s.edges|
      ensures s.edges[i] in g && s.edges[i] in t.links
    {
      assert Crosses(g, q.direction, s.edges[i], s.vertices[i], s.vertices[i + 1]);
    }
    WalkMonotone(g, t.links, q.direction, s);
    forall i | 0 <= i < |s.vertices|
      ensures !IsHidden(t, q.hidden, s.vertices[i])
    {
      if i > 0 {
        assert Crosses(g, q.direction, s.edges[i - 1], s.vertices[i - 1], s.vertices[i]);
      }
    }
  }

  /** Dropping whole paths agrees with searching the visible subgraph breadth first, to the same depth. */
  lemma ReachedIsBreadthFirst(t: Tables, q: Query, v: int)
    ensures Reached(t, q, v) <==> v !in q.sources && v in t.dimension && v in Ball(t, q, q.maxDepth)
  {
    if Reached(t, q, v) {
      var w :| Surviving(t, q, w) && v in w.vertices;
      var i :| 0 <= i < |w.vertices| && w.vertices[i] == v;
      SurvivingStaysInBall(t, q, w, i);
      BallGrows(t, q, i, q.maxDepth);
    }
    if v !in q.sources && v in Ball(t, q, q.maxDepth) {
      var w := BallHasWalk(t, q, q.maxDepth, v);
      var s := VisibleWalkSurvives(t, q, w);
    }
  }

  // ----- what the flags are worth

  /** With the depth flag down, the bound cut nothing: everything reachable at any depth was returned. */
  lemma NoDepthFlagMeansClosed(t: Tables, q: Query, k: nat, v: int)
    requires q.maxDepth >= 1 && !DepthLimitReached(t, q)
    requires v in Ball(t, q, k) && v !in q.sources && v in t.dimension
    ensures Reached(t, q, v)
  {
    var w := BallHasWalk(t, q, k, v);
    var unbounded := q.(maxDepth := if k < q.maxDepth then q.maxDepth else k);
    var s := VisibleWalkSurvives(t, unbounded, w);
    if |s.edges| >= q.maxDepth {
      var cut := Prefix(s, q.maxDepth);
      PrefixConnects(t.links, q.direction, s, q.maxDepth);
      assert Walked(t, q, cut) && |cut.edges| >= q.maxDepth;
    } else {
      assert !CrossesHidden(t, q, s);
      assert Surviving(t, q, s);
    }
  }

  /**
   The hidden flag is raised exactly when some walk within the bound, edge-distinct or not, touches a hidden memory.
   */
  lemma HiddenFlagExact(t: Tables, q: Query)
    ensures HiddenPathDropped(t, q) <==>
            exists w :: IsWalk(t.links, q.direction, w) && 1 <= |w.edges| <= q.maxDepth
                        && w.vertices[0] in q.sources && CrossesHidden(t, q, w)
  {
    if w :| IsWalk(t.links, q.direction, w) && 1 <= |w.edges| <= q.maxDepth
            && w.vertices[0] in q.sources && CrossesHidden(t, q, w)
    {
      var v :| v in w.vertices && IsHidden(t, q.hidden, v);
      var i :| 0 <= i < |w.vertices| && w.vertices[i] == v;
      var s: Walk;
      if v == w.vertices[0] {
        PrefixConnects(t.links, q.direction, w, 1);
        s := Prefix(w, 1);
      } else {
        PrefixConnects(t.links, q.direction, w, i);
        s := Straighten(t.links, q.direction, Prefix(w, i));
        SimpleWalkUsesEdgesOnce(t.links, q.direction, s);
      }
      assert v in s.vertices;
      assert Walked(t, q, s) && CrossesHidden(t, q, s);
    }
  }

  /** With the hidden flag down, hiding changed nothing: the same memories are reached with no dimension hidden. */
  lemma NoHiddenFlagMeansNothingLost(t: Tables, q: Query, v: int)
    requires !HiddenPathDropped(t, q)
    ensures Reached(t, q, v) <==> Reached(t, q.(hidden := {}), v)
  {
    var open := q.(hidden := {});
    forall w
      ensures Surviving(t, q, w) <==> Surviving(t, open, w)
    {
      assert Walked(t, q, w) <==> Walked(t, open, w);
    }
  }

  // ----- on the stored scopes

  /** The stored scope of the memory is one of the hidden dimensions. */
  ghost predicate StoredHidden(t: Tables, hidden: set<string>, v: int) {
    exists d :: (v, d) in t.dimension.Items && d in hidden
  }

  lemma HiddenAsStored(t: Tables, hidden: set<string>, v: int)
    ensures IsHidden(t, hidden, v) <==> StoredHidden(t, hidden, v)
  {
    if v in t.dimension { assert (v, t.dimension[v]) in t.dimension.Items; }
  }

  /**
   On the stored links and scopes: a memory is returned exactly when it is stored, is no source, and some walk of 1 to
   maxDepth links from a source, crossing none twice, goes through it and through no memory stored in a hidden
   dimension.
   */
  lemma ReachedOnStoredScopes(t: Tables, q: Query, v: int)
    ensures Reached(t, q, v) <==>
            && v !in q.sources && v in t.dimension.Keys
            && exists w :: IsWalk(t.links, q.direction, w) && 1 <= |w.edges| <= q.maxDepth && w.vertices[0] in q.sources
                           && (forall i, j | 0 <= i < j < |w.edges| :: w.edges[i] != w.edges[j])
                           && v in w.vertices && forall u | u in w.vertices :: !StoredHidden(t, q.hidden, u)
  {
    hide IsHidden, StoredHidden;
    forall u ensures IsHidden(t, q.hidden, u) <==> StoredHidden(t, q.hidden, u) { HiddenAsStored(t, q.hidden, u); }
    if w :| IsWalk(t.links, q.direction, w) && 1 <= |w.edges| <= q.maxDepth && w.vertices[0] in q.sources
            && (forall i, j | 0 <= i < j < |w.edges| :: w.edges[i] != w.edges[j])
            && v in w.vertices && forall u | u in w.vertices :: !StoredHidden(t, q.hidden, u)
    {
      assert Walked(t, q, w) && !CrossesHidden(t, q, w);
    }
  }

  /**
   The two flags: a walk as long as the bound, and a walk within it that touches a memory stored in a hidden
   dimension.
   */
  lemma FlagsOnStoredScopes(t: Tables, q: Query)
    ensures DepthLimitReached(t, q) <==>
            exists w :: IsWalk(t.links, q.direction, w) && |w.edges| == q.maxDepth >= 1 && w.vertices[0] in q.sources
                        && forall i, j | 0 <= i < j < |w.edges| :: w.edges[i] != w.edges[j]
    ensures HiddenPathDropped(t, q) <==>
            exists w, u :: Walked(t, q, w) && u in w.vertices && StoredHidden(t, q.hidden, u)
  {
    hide IsHidden, StoredHidden;
    forall u ensures IsHidden(t, q.hidden, u) <==> StoredHidden(t, q.hidden, u) { HiddenAsStored(t, q.hidden, u); }
    if DepthLimitReached(t, q) {
      var w :| Walked(t, q, w) && |w.edges| >= q.maxDepth;
    }
    if w :| IsWalk(t.links, q.direction, w) && |w.edges| == q.maxDepth >= 1 && w.vertices[0] in q.sources
            && forall i, j | 0 <= i < j < |w.edges| :: w.edges[i] != w.edges[j]
    {
      assert Walked(t, q, w) && |w.edges| >= q.maxDepth;
    }
    if w, u :| Walked(t, q, w) && u in w.vertices && StoredHidden(t, q.hidden, u) {
      assert CrossesHidden(t, q, w);
    }
  }
}
