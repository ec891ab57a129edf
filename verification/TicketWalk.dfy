/**
 The bounded ticket traversal: one recursive query over the parent edges that only ever steps onto
 tickets with exactly one, visible, owning group, then orders and cuts what it found.
 */
module TicketWalk {
  import opened Common
  import opened Graphs
  import Sorting
  import TicketHierarchy

  /** Ownership of one ticket vertex: the owning groups' scope dimensions by group id. */
  datatype Tables = Tables(arcs: Arcs, owners: map<int, map<int, string>>)

  datatype Query = Query(anchors: set<int>, direction: Direction, hidden: set<string>, maxDepth: nat, pathLimit: nat)

  /** The owners join: exactly one owning group, in a dimension that is not hidden. */
  predicate Eligible(t: Tables, hidden: set<string>, v: int) {
    && v in t.owners && |t.owners[v]| == 1
    && forall g | g in t.owners[v] :: t.owners[v][g] !in hidden
  }

  /** The non-recursive arm: an eligible anchor vertex, at depth 0. */
  ghost predicate IsRoot(t: Tables, q: Query, w: Walk) {
    |w.vertices| == 1 && w.edges == [] && w.vertices[0] in q.anchors && Eligible(t, q.hidden, w.vertices[0])
  }

  /** The recursive arm: w1 extends the row w by one edge onto an eligible vertex not yet on it. */
  ghost predicate StepsTo(t: Tables, q: Query, w: Walk, w1: Walk) {
    exists e, next ::
      && |w.vertices| > 0
      && Crosses(t.arcs, q.direction, e, w.vertices[|w.vertices| - 1], next)
      && next !in w.vertices && Eligible(t, q.hidden, next)
      && w1 == Extend(w, e, next)
  }

  /** The rows produced by round k of the recursion; it runs maxDepth + 1 rounds. */
  ghost predicate AtRound(t: Tables, q: Query, k: nat, w: Walk) {
    if k == 0 then IsRoot(t, q, w) else exists w0 :: AtRound(t, q, k - 1, w0) && StepsTo(t, q, w0, w)
  }

  ghost predicate ByRound(t: Tables, q: Query, k: nat, w: Walk) {
    exists n: nat :: n <= k && AtRound(t, q, n, w)
  }

  ghost predicate InWalk(t: Tables, q: Query, w: Walk) {
    ByRound(t, q, q.maxDepth + 1, w)
  }

  ghost predicate Admitted(t: Tables, q: Query, w: Walk) {
    InWalk(t, q, w) && 1 <= |w.edges| <= q.maxDepth
  }

  ghost predicate DepthLimitReached(t: Tables, q: Query) {
    exists w :: InWalk(t, q, w) && |w.edges| > q.maxDepth
  }

  // ----- the rows, as often as UNION ALL produces them

  /** The anchor vertices and the edges, each once, in the order the tables are read. */
  datatype Scan = Scan(anchors: seq<int>, edges: seq<int>)

  ghost predicate Scans(t: Tables, q: Query, scan: Scan) {
    NoRepeats(scan.anchors) && Elements(scan.anchors) == q.anchors && NoRepeats(scan.edges)
      && Elements(scan.edges) == t.arcs.Keys
  }

  function Near(arc: Arc, outward: bool): int {
    if outward then arc.start else arc.end
  }

  /** Edge e takes the row w onto an eligible ticket not yet on it, in the given sense. */
  predicate Carries(t: Tables, q: Query, outward: bool, w: Walk, e: int) {
    && e in t.arcs && |w.vertices| > 0 && Near(t.arcs[e], outward) == w.vertices[|w.vertices| - 1]
    && Near(t.arcs[e], !outward) !in w.vertices && Eligible(t, q.hidden, Near(t.arcs[e], !outward))
  }

  /** One half of the expansion of a row. */
  function GrowAlong(t: Tables, q: Query, outward: bool, edges: seq<int>, w: Walk): seq<Walk> {
    if edges == [] then []
    else
      var before, e := GrowAlong(t, q, outward, edges[..|edges| - 1], w), edges[|edges| - 1];
      if Carries(t, q, outward, w, e) then before + [Extend(w, e, Near(t.arcs[e], !outward))] else before
  }

  /** The rows one row produces; both ways, the two halves are put together without removing duplicates. */
  function Grow(t: Tables, q: Query, edges: seq<int>, w: Walk): seq<Walk> {
    match q.direction
    case Outbound => GrowAlong(t, q, true, edges, w)
    case Inbound => GrowAlong(t, q, false, edges, w)
    case Either => GrowAlong(t, q, true, edges, w) + GrowAlong(t, q, false, edges, w)
  }

  function Roots(t: Tables, q: Query, anchors: seq<int>): seq<Walk> {
    if anchors == [] then []
    else
      var before, v := Roots(t, q, anchors[..|anchors| - 1]), anchors[|anchors| - 1];
      if Eligible(t, q.hidden, v) then before + [Walk([v], [])] else before
  }

  function NextRound(t: Tables, q: Query, edges: seq<int>, rows: seq<Walk>): seq<Walk> {
    if rows == [] then []
    else NextRound(t, q, edges, rows[..|rows| - 1]) + Grow(t, q, edges, rows[|rows| - 1])
  }

  function Round(t: Tables, q: Query, scan: Scan, k: nat): seq<Walk> {
    if k == 0 then Roots(t, q, scan.anchors) else NextRound(t, q, scan.edges, Round(t, q, scan, k - 1))
  }

  /** Rounds 0 to k together. */
  function Rows(t: Tables, q: Query, scan: Scan, k: nat): seq<Walk> {
    if k == 0 then Round(t, q, scan, 0) else Rows(t, q, scan, k - 1) + Round(t, q, scan, k)
  }

  lemma NoRepeatsJoin(a: seq<Walk>, b: seq<Walk>)
    requires NoRepeats(a) && NoRepeats(b) && forall w | w in a :: w !in b
    ensures NoRepeats(a + b)
  {
    var all := a + b;
    forall i, j | 0 <= i < j < |all|
      ensures all[i] != all[j]
    {
      if i < |a| <= j { assert all[i] in a && all[j] in b; }
    }
  }

  ghost predicate GrownBy(t: Tables, q: Query, outward: bool, w: Walk, e: int, x: Walk) {
    Carries(t, q, outward, w, e) && x == Extend(w, e, Near(t.arcs[e], !outward))
  }

  lemma {:induction false} GrowAlongIs(t: Tables, q: Query, outward: bool, edges: seq<int>, w: Walk)
    requires NoRepeats(edges)
    ensures NoRepeats(GrowAlong(t, q, outward, edges, w))
    ensures forall x ::
              x in GrowAlong(t, q, outward, edges, w) <==> exists e :: e in edges && GrownBy(t, q, outward, w, e, x)
  {
    if edges != [] {
      var init, e := edges[..|edges| - 1], edges[|edges| - 1];
      GrowAlongIs(t, q, outward, init, w);
      var before := GrowAlong(t, q, outward, init, w);
      assert edges == init + [e] && e !in init;
      if Carries(t, q, outward, w, e) {
        var x := Extend(w, e, Near(t.arcs[e], !outward));
        if x in before {
          var f :| f in init && GrownBy(t, q, outward, w, f, x);
          SameExtension(w, e, Near(t.arcs[e], !outward), f, Near(t.arcs[f], !outward));
        }
        assert GrownBy(t, q, outward, w, e, x);
      }
    }
  }

  lemma SameExtension(w: Walk, e: int, next: int, f: int, last: int)
    requires Extend(w, e, next) == Extend(w, f, last)
    ensures e == f && next == last
  {
    assert (w.edges + [e])[|w.edges|] == (w.edges + [f])[|w.edges|];
    assert (w.vertices + [next])[|w.vertices|] == (w.vertices + [last])[|w.vertices|];
  }

  /** Only a self-loop is crossed both ways at once, and it leads back onto the row. */
  lemma GrowIs(t: Tables, q: Query, scan: Scan, w: Walk)
    requires Scans(t, q, scan)
    ensures NoRepeats(Grow(t, q, scan.edges, w))
    ensures forall x :: x in Grow(t, q, scan.edges, w) <==> StepsTo(t, q, w, x)
  {
    GrowAlongIs(t, q, true, scan.edges, w);
    GrowAlongIs(t, q, false, scan.edges, w);
    var out, back := GrowAlong(t, q, true, scan.edges, w), GrowAlong(t, q, false, scan.edges, w);
    forall x | x in out && x in back
      ensures false
    {
      var e :| e in scan.edges && GrownBy(t, q, true, w, e, x);
      var f :| f in scan.edges && GrownBy(t, q, false, w, f, x);
      SameExtension(w, e, t.arcs[e].end, f, t.arcs[f].start);
    }
    NoRepeatsJoin(out, back);
    forall x ensures x in Grow(t, q, scan.edges, w) <==> StepsTo(t, q, w, x) { GrownRows(t, q, scan, w, x); }
  }

  lemma GrownRows(t: Tables, q: Query, scan: Scan, w: Walk, x: Walk)
    requires Scans(t, q, scan)
    ensures x in Grow(t, q, scan.edges, w) <==> StepsTo(t, q, w, x)
  {
    GrowAlongIs(t, q, true, scan.edges, w);
    GrowAlongIs(t, q, false, scan.edges, w);
    if StepsTo(t, q, w, x) {
      var e, next :| |w.vertices| > 0 && Crosses(t.arcs, q.direction, e, w.vertices[|w.vertices| - 1], next)
                     && next !in w.vertices && Eligible(t, q.hidden, next) && x == Extend(w, e, next);
      assert e in Elements(scan.edges);
      var last := w.vertices[|w.vertices| - 1];
      assert if q.direction != Inbound && t.arcs[e] == Arc(last, next) then GrownBy(t, q, true, w, e, x)
             else GrownBy(t, q, false, w, e, x);
    }
    if x in Grow(t, q, scan.edges, w) {
      var outward :| x in GrowAlong(t, q, outward, scan.edges, w)
          && q.direction != (if outward then Inbound else Outbound);
      var e :| e in scan.edges && GrownBy(t, q, outward, w, e, x);
      assert Crosses(t.arcs, q.direction, e, w.vertices[|w.vertices| - 1], Near(t.arcs[e], !outward));
    }
  }

  lemma {:induction false} RootsAre(t: Tables, q: Query, anchors: seq<int>)
    requires NoRepeats(anchors)
    ensures NoRepeats(Roots(t, q, anchors))
    ensures forall w :: w in Roots(t, q, anchors) <==>
                          |w.vertices| == 1 && w.edges == [] && w.vertices[0] in anchors
                            && Eligible(t, q.hidden, w.vertices[0])
  {
    if anchors != [] {
      var init, v := anchors[..|anchors| - 1], anchors[|anchors| - 1];
      RootsAre(t, q, init);
      assert anchors == init + [v] && v !in init;
      assert forall w: Walk | |w.vertices| == 1 && w.edges == [] && w.vertices[0] == v :: w == Walk([v], []);
    }
  }

  /** Two rows never produce the same row. */
  lemma OneProducer(t: Tables, q: Query, w: Walk, v: Walk, x: Walk)
    requires StepsTo(t, q, w, x) && StepsTo(t, q, v, x)
    ensures w == v
  {
    assert w.vertices == x.vertices[..|x.vertices| - 1] == v.vertices;
    assert w.edges == x.edges[..|x.edges| - 1] == v.edges;
  }

  ghost predicate ProducedBy(t: Tables, q: Query, rows: seq<Walk>, x: Walk) {
    exists w :: w in rows && StepsTo(t, q, w, x)
  }

  lemma {:induction false} NextRoundIs(t: Tables, q: Query, scan: Scan, rows: seq<Walk>)
    requires Scans(t, q, scan) && NoRepeats(rows)
    ensures NoRepeats(NextRound(t, q, scan.edges, rows))
    ensures forall x :: x in NextRound(t, q, scan.edges, rows) <==> ProducedBy(t, q, rows, x)
  {
    hide StepsTo, Grow, Scans;
    if rows != [] {
      var init, last := rows[..|rows| - 1], rows[|rows| - 1];
      NextRoundIs(t, q, scan, init);
      GrowIs(t, q, scan, last);
      var before, grown := NextRound(t, q, scan.edges, init), Grow(t, q, scan.edges, last);
      assert rows == init + [last] && last !in init;
      forall x | x in before
        ensures x !in grown
      {
        var w :| w in init && StepsTo(t, q, w, x);
        if x in grown { OneProducer(t, q, w, last, x); }
      }
      NoRepeatsJoin(before, grown);
    }
  }

  lemma {:induction false} RoundIs(t: Tables, q: Query, scan: Scan, k: nat)
    requires Scans(t, q, scan)
    ensures NoRepeats(Round(t, q, scan, k))
    ensures forall w :: w in Round(t, q, scan, k) <==> AtRound(t, q, k, w)
  {
    hide StepsTo, NextRound;
    if k == 0 {
      RootsAre(t, q, scan.anchors);
    } else {
      RoundIs(t, q, scan, k - 1);
      NextRoundIs(t, q, scan, Round(t, q, scan, k - 1));
    }
  }

  lemma {:induction false} RowsAre(t: Tables, q: Query, scan: Scan, k: nat)
    requires Scans(t, q, scan)
    ensures NoRepeats(Rows(t, q, scan, k))
    ensures forall w :: w in Rows(t, q, scan, k) <==> ByRound(t, q, k, w)
  {
    hide AtRound, Round, Scans;
    RoundIs(t, q, scan, k);
    if k > 0 {
      RowsAre(t, q, scan, k - 1);
      var before, last := Rows(t, q, scan, k - 1), Round(t, q, scan, k);
      forall w | w in before
        ensures w !in last
      {
        var n: nat :| n <= k - 1 && AtRound(t, q, n, w);
        RowsAreVisiblePaths(t, q, n, w);
        RowsAreVisiblePaths(t, q, k, w);
      }
      NoRepeatsJoin(before, last);
      forall w
        ensures ByRound(t, q, k, w) <==> ByRound(t, q, k - 1, w) || AtRound(t, q, k, w)
      {
        OneRoundMore(t, q, k, w);
      }
    } else {
      forall w ensures ByRound(t, q, 0, w) <==> AtRound(t, q, 0, w) { OneRoundMore(t, q, 0, w); }
    }
  }

  lemma OneRoundMore(t: Tables, q: Query, k: nat, w: Walk)
    ensures ByRound(t, q, k, w) <==> AtRound(t, q, k, w) || (k > 0 && ByRound(t, q, k - 1, w))
  {
    hide AtRound;
    if ByRound(t, q, k, w) {
      var n: nat :| n <= k && AtRound(t, q, n, w);
      assert n == k || n <= k - 1;
    }
  }

  /**
   UNION ALL keeps duplicates, but whatever order the tables are read in it produces each row of the walk exactly
   once.
   */
  lemma EachRowOnce(t: Tables, q: Query, scan: Scan, w: Walk)
    requires Scans(t, q, scan)
    ensures multiset(Rows(t, q, scan, q.maxDepth + 1))[w] == if InWalk(t, q, w) then 1 else 0
  {
    RowsAre(t, q, scan, q.maxDepth + 1);
    OccursOnce(Rows(t, q, scan, q.maxDepth + 1), w);
  }

  // ----- what it is meant to return

  /** A path from an anchor that repeats no ticket and touches only uniquely owned, visible ones. */
  ghost predicate VisiblePath(t: Tables, q: Query, w: Walk) {
    && IsWalk(t.arcs, q.direction, w) && w.vertices[0] in q.anchors && NoRepeats(w.vertices)
    && forall i | 0 <= i < |w.vertices| :: Eligible(t, q.hidden, w.vertices[i])
  }

  lemma ExtendedPathIsVisible(t: Tables, q: Query, w0: Walk, w: Walk)
    requires VisiblePath(t, q, w0) && StepsTo(t, q, w0, w)
    ensures VisiblePath(t, q, w) && |w.edges| == |w0.edges| + 1
  {
    var e, next :| |w0.vertices| > 0 && Crosses(t.arcs, q.direction, e, w0.vertices[|w0.vertices| - 1], next)
                   && next !in w0.vertices && Eligible(t, q.hidden, next) && w == Extend(w0, e, next);
    ExtendConnects(t.arcs, q.direction, w0, e, next);
  }

  lemma ShortenedPathIsVisible(t: Tables, q: Query, w: Walk)
    requires VisiblePath(t, q, w) && |w.edges| > 0
    ensures VisiblePath(t, q, Prefix(w, |w.edges| - 1)) && StepsTo(t, q, Prefix(w, |w.edges| - 1), w)
  {
    var k := |w.edges|;
    var w0 := Prefix(w, k - 1);
    PrefixConnects(t.arcs, q.direction, w, k - 1);
    assert Crosses(t.arcs, q.direction, w.edges[k - 1], w.vertices[k - 1], w.vertices[k]);
    assert w == Extend(w0, w.edges[k - 1], w.vertices[k]);
  }

  lemma {:induction false} RowsAreVisiblePaths(t: Tables, q: Query, k: nat, w: Walk)
    ensures AtRound(t, q, k, w) <==> VisiblePath(t, q, w) && |w.edges| == k
  {
    if k > 0 {
      if AtRound(t, q, k, w) {
        var w0 :| AtRound(t, q, k - 1, w0) && StepsTo(t, q, w0, w);
        RowsAreVisiblePaths(t, q, k - 1, w0);
        ExtendedPathIsVisible(t, q, w0, w);
      }
      if VisiblePath(t, q, w) && |w.edges| == k {
        ShortenedPathIsVisible(t, q, w);
        RowsAreVisiblePaths(t, q, k - 1, Prefix(w, k - 1));
      }
    }
  }

  /** The walk admits exactly the simple visible paths of 1 to maxDepth edges. */
  lemma AdmittedExactly(t: Tables, q: Query, w: Walk)
    ensures Admitted(t, q, w) <==> VisiblePath(t, q, w) && 1 <= |w.edges| <= q.maxDepth
  {
    if InWalk(t, q, w) {
      var k: nat :| k <= q.maxDepth + 1 && AtRound(t, q, k, w);
      RowsAreVisiblePaths(t, q, k, w);
    }
    RowsAreVisiblePaths(t, q, |w.edges|, w);
  }

  /** The stored owners of v: one group, in a dimension that is not hidden. */
  ghost predicate OwnedInSight(t: Tables, hidden: set<string>, v: int) {
    exists g, d :: v in t.owners && t.owners[v] == map[g := d] && d !in hidden
  }

  lemma EligibleIsOwnedInSight(t: Tables, hidden: set<string>, v: int)
    ensures Eligible(t, hidden, v) <==> OwnedInSight(t, hidden, v)
  {
    if Eligible(t, hidden, v) {
      var owners := t.owners[v];
      assert |owners.Keys| == |owners|;
      var g := Inhabited(owners.Keys);
      SizeOneIsSingleton(owners.Keys, g);
      assert owners == map[g := owners[g]];
    }
    if OwnedInSight(t, hidden, v) {
      var g, d :| t.owners[v] == map[g := d] && d !in hidden;
      assert t.owners[v].Keys == {g} && |t.owners[v]| == |t.owners[v].Keys|;
    }
  }

  /**
   On the stored edges and owners: admitted are exactly the walks of 1 to maxDepth edges from an anchor that repeat no
   ticket and have at every ticket one owning group, in a dimension that is not hidden.
   */
  lemma AdmittedOnStoredOwners(t: Tables, q: Query, w: Walk)
    ensures Admitted(t, q, w) <==>
            && 1 <= |w.edges| <= q.maxDepth && |w.vertices| == |w.edges| + 1 && w.vertices[0] in q.anchors
            && NoRepeats(w.vertices)
            && (forall i | 0 <= i < |w.edges| ::
                  Crosses(t.arcs, q.direction, w.edges[i], w.vertices[i], w.vertices[i + 1]))
            && forall i | 0 <= i < |w.vertices| :: OwnedInSight(t, q.hidden, w.vertices[i])
  {
    hide Eligible, OwnedInSight;
    AdmittedExactly(t, q, w);
    forall v
      ensures Eligible(t, q.hidden, v) <==> OwnedInSight(t, q.hidden, v)
    {
      EligibleIsOwnedInSight(t, q.hidden, v);
    }
  }

  /** The depth flag is raised exactly when a simple visible path of maxDepth + 1 edges exists. */
  lemma DepthFlagExact(t: Tables, q: Query)
    ensures DepthLimitReached(t, q) <==> exists w :: VisiblePath(t, q, w) && |w.edges| == q.maxDepth + 1
  {
    if DepthLimitReached(t, q) {
      var w :| InWalk(t, q, w) && |w.edges| > q.maxDepth;
      var k: nat :| k <= q.maxDepth + 1 && AtRound(t, q, k, w);
      RowsAreVisiblePaths(t, q, k, w);
    }
    if w :| VisiblePath(t, q, w) && |w.edges| == q.maxDepth + 1 {
      RowsAreVisiblePaths(t, q, q.maxDepth + 1, w);
      assert InWalk(t, q, w);
    }
  }

  /** With the depth flag down nothing is missing: every visible path, of whatever length, was admitted. */
  lemma NoDepthFlagMeansComplete(t: Tables, q: Query, w: Walk)
    requires !DepthLimitReached(t, q) && VisiblePath(t, q, w) && |w.edges| >= 1
    ensures Admitted(t, q, w)
  {
    AdmittedExactly(t, q, w);
    if |w.edges| > q.maxDepth {
      var cut := Prefix(w, q.maxDepth + 1);
      PrefixConnects(t.arcs, q.direction, w, q.maxDepth + 1);
      assert VisiblePath(t, q, cut);
      DepthFlagExact(t, q);
    }
  }

  // ----- the path limit

  /** The rows of 1 to maxDepth edges. */
  function WithinDepth(q: Query, rows: seq<Walk>): seq<Walk> {
    if rows == [] then []
    else
      var before, last := WithinDepth(q, rows[..|rows| - 1]), rows[|rows| - 1];
      if 1 <= |last.edges| <= q.maxDepth then before + [last] else before
  }

  /** The admitted rows, each as often as produced, in the query's order: by depth first, whatever breaks ties. */
  ghost predicate Listing(t: Tables, q: Query, scan: Scan, rows: seq<Walk>) {
    && multiset(rows) == multiset(WithinDepth(q, Rows(t, q, scan, q.maxDepth + 1)))
    && forall i, j | 0 <= i < j < |rows| :: |rows[i].edges| <= |rows[j].edges|
  }

  lemma {:induction false} WithinDepthIs(q: Query, rows: seq<Walk>)
    requires NoRepeats(rows)
    ensures NoRepeats(WithinDepth(q, rows))
    ensures forall w :: w in WithinDepth(q, rows) <==> w in rows && 1 <= |w.edges| <= q.maxDepth
  {
    if rows != [] {
      var init, last := rows[..|rows| - 1], rows[|rows| - 1];
      WithinDepthIs(q, init);
      assert rows == init + [last] && last !in init;
    }
  }

  /** Every admitted path is listed, once. */
  lemma ListedOnce(t: Tables, q: Query, scan: Scan, rows: seq<Walk>)
    requires Scans(t, q, scan) && Listing(t, q, scan, rows)
    ensures NoRepeats(rows) && forall w :: w in rows <==> Admitted(t, q, w)
  {
    var all := Rows(t, q, scan, q.maxDepth + 1);
    RowsAre(t, q, scan, q.maxDepth + 1);
    WithinDepthIs(q, all);
    Sorting.SameElements(rows, WithinDepth(q, all));
    NoRepeatsPermutes(WithinDepth(q, all), rows);
  }

  lemma NoRepeatsPermutes(a: seq<Walk>, b: seq<Walk>)
    requires NoRepeats(a) && multiset(a) == multiset(b)
    ensures NoRepeats(b)
  {
    forall i, j | 0 <= i < j < |b|
      ensures b[i] != b[j]
    {
      OccursOnce(a, b[i]);
      if b[i] == b[j] { Sorting.TwiceCounted(b, i, j); }
    }
  }

  ghost function Selected(q: Query, rows: seq<Walk>): seq<Walk> {
    if |rows| <= q.pathLimit then rows else rows[..q.pathLimit]
  }

  ghost predicate PathLimitReached(q: Query, rows: seq<Walk>) {
    |rows| > q.pathLimit
  }

  /** Cutting at the path limit never keeps a path without every shorter path it grew from. */
  lemma SelectionIsPrefixClosed(t: Tables, q: Query, scan: Scan, rows: seq<Walk>, w: Walk, k: nat)
    requires Scans(t, q, scan) && Listing(t, q, scan, rows) && w in Selected(q, rows) && 1 <= k <= |w.edges|
    ensures |w.vertices| == |w.edges| + 1 && Prefix(w, k) in Selected(q, rows)
  {
    hide Scans, Admitted;
    ListedOnce(t, q, scan, rows);
    assert w in rows;
    AdmittedExactly(t, q, w);
    if k < |w.edges| {
      var shorter := Prefix(w, k);
      PrefixConnects(t.arcs, q.direction, w, k);
      AdmittedExactly(t, q, shorter);
      ShorterIsSelected(t, q, scan, rows, w, shorter);
    } else {
      assert Prefix(w, k) == w;
    }
  }

  lemma ShorterIsSelected(t: Tables, q: Query, scan: Scan, rows: seq<Walk>, w: Walk, shorter: Walk)
    requires Listing(t, q, scan, rows) && w in Selected(q, rows) && shorter in rows && |shorter.edges| < |w.edges|
    ensures shorter in Selected(q, rows)
  {
    var i :| 0 <= i < |rows| && rows[i] == shorter;
    var j :| 0 <= j < |Selected(q, rows)| && Selected(q, rows)[j] == w;
    assert rows[j] == w && i < j;
    assert Selected(q, rows)[i] == shorter;
  }

  /** The path flag is raised exactly when an admitted path was left out. */
  lemma PathFlagExact(t: Tables, q: Query, scan: Scan, rows: seq<Walk>)
    requires Scans(t, q, scan) && Listing(t, q, scan, rows)
    ensures PathLimitReached(q, rows) <==> exists w :: Admitted(t, q, w) && w !in Selected(q, rows)
  {
    ListedOnce(t, q, scan, rows);
    if PathLimitReached(q, rows) {
      var w := rows[q.pathLimit];
      assert w in rows;
      assert w !in Selected(q, rows);
    }
  }

  // ----- one path per ticket in a forest

  predicate Rises(g: Arcs, w: Walk, i: nat)
    requires i < |w.edges| && i + 1 < |w.vertices|
  {
    w.edges[i] in g && g[w.edges[i]] == Arc(w.vertices[i + 1], w.vertices[i])
  }

  /** Once a simple path has stepped down to a child it cannot step up again. */
  lemma DownStaysDown(g: Arcs, dir: Direction, w: Walk, i: nat)
    requires Forest(g) && IsWalk(g, dir, w) && NoRepeats(w.vertices)
    requires i + 1 < |w.edges| && !Rises(g, w, i)
    ensures !Rises(g, w, i + 1)
  {
    assert Crosses(g, dir, w.edges[i], w.vertices[i], w.vertices[i + 1]);
    assert w.vertices[i] != w.vertices[i + 2];
  }

  lemma {:induction false} UpToTheEnd(g: Arcs, dir: Direction, w: Walk, i: nat)
    requires Forest(g) && IsWalk(g, dir, w) && NoRepeats(w.vertices)
    requires i < |w.edges| && Rises(g, w, |w.edges| - 1)
    ensures Rises(g, w, i)
    decreases |w.edges| - i
  {
    if i + 1 < |w.edges| {
      UpToTheEnd(g, dir, w, i + 1);
      if !Rises(g, w, i) { DownStaysDown(g, dir, w, i); }
    }
  }

  /** Two climbing paths from one ticket agree as far as both go. */
  lemma {:induction false} ClimbsAgree(g: Arcs, a: Walk, b: Walk, k: nat)
    requires Forest(g) && |a.vertices| == |a.edges| + 1 && |b.vertices| == |b.edges| + 1
    requires k <= |a.edges| && k <= |b.edges| && a.vertices[0] == b.vertices[0]
    requires forall i | 0 <= i < k :: Rises(g, a, i) && Rises(g, b, i)
    ensures a.vertices[..k + 1] == b.vertices[..k + 1] && a.edges[..k] == b.edges[..k]
  {
    if k > 0 {
      ClimbsAgree(g, a, b, k - 1);
      assert Rises(g, a, k - 1) && Rises(g, b, k - 1);
      assert a.vertices[k - 1] == a.vertices[..k][k - 1] == b.vertices[..k][k - 1] == b.vertices[k - 1];
      assert g[a.edges[k - 1]].end == g[b.edges[k - 1]].end;
      assert a.edges[k - 1] == b.edges[k - 1] && a.vertices[k] == b.vertices[k];
      assert a.vertices[..k + 1] == a.vertices[..k] + [a.vertices[k]];
      assert b.vertices[..k + 1] == b.vertices[..k] + [b.vertices[k]];
      assert a.edges[..k] == a.edges[..k - 1] + [a.edges[k - 1]];
      assert b.edges[..k] == b.edges[..k - 1] + [b.edges[k - 1]];
    }
  }

  /** From the first step down on, every step goes down. */
  lemma {:induction false} DescentFrom(g: Arcs, dir: Direction, w: Walk, i: nat, m: nat)
    requires Forest(g) && IsWalk(g, dir, w) && NoRepeats(w.vertices) && i <= m < |w.edges|
    requires !Rises(g, w, i)
    ensures !Rises(g, w, m) && Crosses(g, Outbound, w.edges[m], w.vertices[m], w.vertices[m + 1])
    decreases m
  {
    if i < m {
      DescentFrom(g, dir, w, i, m - 1);
      DownStaysDown(g, dir, w, m - 1);
    }
    assert Crosses(g, dir, w.edges[m], w.vertices[m], w.vertices[m + 1]);
  }

  /** Climbing to a ticket by one path and coming down to it by another from the same place would close a cycle. */
  lemma ClimbAndDescentMakeCycle(g: Arcs, dir: Direction, up: Walk, down: Walk, j: nat)
    requires Forest(g) && IsWalk(g, dir, up) && IsWalk(g, dir, down) && NoRepeats(down.vertices)
    requires j < |up.edges| && j < |down.edges| && up.vertices[j] == down.vertices[j]
    requires up.vertices[|up.edges|] == down.vertices[|down.edges|]
    requires forall i | j <= i < |up.edges| :: Rises(g, up, i)
    requires !Rises(g, down, j)
    ensures CyclicAt(g, up.vertices[j])
  {
    var x, y := up.vertices[j], up.vertices[|up.edges|];
    var u, d := Suffix(up, j), Suffix(down, j);
    forall i | 0 <= i < |d.edges|
      ensures Crosses(g, Outbound, d.edges[i], d.vertices[i], d.vertices[i + 1])
    {
      DescentFrom(g, dir, down, j, j + i);
    }
    forall i | 0 <= i < |u.edges|
      ensures Crosses(g, Inbound, u.edges[i], u.vertices[i], u.vertices[i + 1])
    {
      assert Rises(g, up, j + i);
    }
    ReverseConnects(g, u, x, y);
    JoinConnects(g, Outbound, d, Reverse(u), x, y, x);
  }

  /** A climbing path and one that ends going down never meet at their ends. */
  lemma ClimbMeetsDescent(g: Arcs, dir: Direction, up: Walk, down: Walk) returns (x: int)
    requires Forest(g) && IsWalk(g, dir, up) && IsWalk(g, dir, down)
    requires NoRepeats(up.vertices) && NoRepeats(down.vertices)
    requires up.vertices[0] == down.vertices[0] && up.vertices[|up.edges|] == down.vertices[|down.edges|]
    requires |up.edges| > 0 && |down.edges| > 0
    requires Rises(g, up, |up.edges| - 1) && !Rises(g, down, |down.edges| - 1)
    ensures CyclicAt(g, x)
  {
    forall i | 0 <= i < |up.edges|
      ensures Rises(g, up, i)
    {
      UpToTheEnd(g, dir, up, i);
    }
    var j := 0;
    while Rises(g, down, j)
      invariant 0 <= j < |down.edges|
      invariant forall i | 0 <= i < j :: Rises(g, down, i)
      decreases |down.edges| - j
    {
      j := j + 1;
    }
    var k := if j < |up.edges| then j else |up.edges|;
    ClimbsAgree(g, up, down, k);
    assert up.vertices[k] == up.vertices[..k + 1][k] == down.vertices[..k + 1][k] == down.vertices[k];
    ClimbAndDescentMakeCycle(g, dir, up, down, j);
    x := up.vertices[j];
  }

  lemma SameClimb(g: Arcs, dir: Direction, a: Walk, b: Walk)
    requires Forest(g) && IsWalk(g, dir, a) && IsWalk(g, dir, b)
    requires NoRepeats(a.vertices) && NoRepeats(b.vertices)
    requires a.vertices[0] == b.vertices[0] && a.vertices[|a.edges|] == b.vertices[|b.edges|]
    requires |a.edges| > 0 && |b.edges| > 0 && Rises(g, a, |a.edges| - 1) && Rises(g, b, |b.edges| - 1)
    ensures a == b
  {
    var m, n := |a.edges|, |b.edges|;
    forall i | 0 <= i < m ensures Rises(g, a, i) { UpToTheEnd(g, dir, a, i); }
    forall i | 0 <= i < n ensures Rises(g, b, i) { UpToTheEnd(g, dir, b, i); }
    var k := if m < n then m else n;
    ClimbsAgree(g, a, b, k);
    assert a.vertices[k] == a.vertices[..k + 1][k] == b.vertices[..k + 1][k] == b.vertices[k];
    assert m == n;
    assert a.vertices == a.vertices[..k + 1] && b.vertices == b.vertices[..k + 1];
    assert a.edges == a.edges[..k] && b.edges == b.edges[..k];
  }

  lemma SameLastDescent(g: Arcs, dir: Direction, w: Walk)
    requires Forest(g) && IsWalk(g, dir, w) && NoRepeats(w.vertices) && |w.edges| > 0 && !Rises(g, w, |w.edges| - 1)
    ensures w.edges[|w.edges| - 1] in g
            && g[w.edges[|w.edges| - 1]] == Arc(w.vertices[|w.edges| - 1], w.vertices[|w.edges|])
    ensures w == Extend(Prefix(w, |w.edges| - 1), w.edges[|w.edges| - 1], w.vertices[|w.edges|])
  {
    DescentFrom(g, dir, w, |w.edges| - 1, |w.edges| - 1);
  }

  /** In a forest, whichever way edges may be crossed, two simple paths with the same ends are the same path. */
  lemma {:induction false} OneSimplePath(g: Arcs, dir: Direction, a: Walk, b: Walk)
    requires Forest(g) && IsWalk(g, dir, a) && IsWalk(g, dir, b)
    requires NoRepeats(a.vertices) && NoRepeats(b.vertices)
    requires a.vertices[0] == b.vertices[0] && a.vertices[|a.edges|] == b.vertices[|b.edges|]
    ensures a == b
    decreases |a.edges|
  {
    var m, n := |a.edges|, |b.edges|;
    if m == 0 || n == 0 {
      assert a.vertices == b.vertices;
    } else if Rises(g, a, m - 1) && Rises(g, b, n - 1) {
      SameClimb(g, dir, a, b);
    } else if !Rises(g, a, m - 1) && !Rises(g, b, n - 1) {
      SameLastDescent(g, dir, a);
      SameLastDescent(g, dir, b);
      PrefixConnects(g, dir, a, m - 1);
      PrefixConnects(g, dir, b, n - 1);
      OneSimplePath(g, dir, Prefix(a, m - 1), Prefix(b, n - 1));
    } else if Rises(g, a, m - 1) {
      var x := ClimbMeetsDescent(g, dir, a, b);
    } else {
      var x := ClimbMeetsDescent(g, dir, b, a);
    }
  }

  // ----- admission is reachability

  ghost predicate VisibleWalk(t: Tables, q: Query, w: Walk) {
    && IsWalk(t.arcs, q.direction, w) && w.vertices[0] in q.anchors
    && forall i | 0 <= i < |w.vertices| :: Eligible(t, q.hidden, w.vertices[i])
  }

  ghost predicate Leads(w: Walk, anchor: int, ticket: int) {
    w.vertices != [] && w.vertices[0] == anchor && w.vertices[|w.vertices| - 1] == ticket
  }

  /** Some walk of at most maxDepth edges over eligible tickets, loops allowed, leads to the ticket. */
  ghost predicate ReachedWithin(t: Tables, q: Query, anchor: int, ticket: int) {
    exists w :: VisibleWalk(t, q, w) && |w.edges| <= q.maxDepth && Leads(w, anchor, ticket)
  }

  ghost predicate AdmittedPath(t: Tables, q: Query, a: Walk, anchor: int, ticket: int) {
    Admitted(t, q, a) && Leads(a, anchor, ticket)
  }

  ghost predicate OneAdmittedPath(t: Tables, q: Query, anchor: int, ticket: int) {
    exists a :: AdmittedPath(t, q, a, anchor, ticket) && forall b | AdmittedPath(t, q, b, anchor, ticket) :: b == a
  }

  /** Cutting the loops out of a walk over eligible tickets leaves a visible path with the same ends. */
  lemma VisiblePathOf(t: Tables, q: Query, w: Walk) returns (a: Walk)
    requires VisibleWalk(t, q, w)
    ensures VisiblePath(t, q, a) && Leads(a, w.vertices[0], w.vertices[|w.edges|]) && |a.edges| <= |w.edges|
    ensures w.vertices[0] != w.vertices[|w.edges|] ==> |a.edges| >= 1
  {
    a := Straighten(t.arcs, q.direction, w);
    assert forall i | 0 <= i < |a.vertices| :: a.vertices[i] in a.vertices;
  }

  /** A ticket other than the anchor is admitted exactly when an ordinary walk reaches it, in any graph. */
  lemma AdmittedWhenReached(t: Tables, q: Query, anchor: int, ticket: int)
    requires anchor != ticket
    ensures ReachedWithin(t, q, anchor, ticket) <==> exists a :: AdmittedPath(t, q, a, anchor, ticket)
  {
    if ReachedWithin(t, q, anchor, ticket) {
      var w :| VisibleWalk(t, q, w) && |w.edges| <= q.maxDepth && Leads(w, anchor, ticket);
      var a := VisiblePathOf(t, q, w);
      AdmittedExactly(t, q, a);
      assert AdmittedPath(t, q, a, anchor, ticket);
    }
    if a :| AdmittedPath(t, q, a, anchor, ticket) {
      AdmittedExactly(t, q, a);
      assert VisibleWalk(t, q, a);
    }
  }

  lemma AtMostOnePath(t: Tables, q: Query, a: Walk, b: Walk, anchor: int, ticket: int)
    requires Forest(t.arcs) && AdmittedPath(t, q, a, anchor, ticket) && AdmittedPath(t, q, b, anchor, ticket)
    ensures a == b
  {
    AdmittedExactly(t, q, a);
    AdmittedExactly(t, q, b);
    OneSimplePath(t.arcs, q.direction, a, b);
  }

  /**
   Where the parent links form a forest, a ticket other than the anchor is reached exactly when one path to it is
   admitted, and no second.
   */
  lemma OnePathPerTicket(t: Tables, q: Query, anchor: int, ticket: int)
    requires Forest(t.arcs) && anchor != ticket
    ensures ReachedWithin(t, q, anchor, ticket) <==> OneAdmittedPath(t, q, anchor, ticket)
  {
    hide Forest, ReachedWithin, AdmittedPath;
    AdmittedWhenReached(t, q, anchor, ticket);
    if a :| AdmittedPath(t, q, a, anchor, ticket) {
      forall b | AdmittedPath(t, q, b, anchor, ticket) ensures b == a { AtMostOnePath(t, q, a, b, anchor, ticket); }
    }
  }

  /**
   Whatever was declared and refused before, over any run from an empty hierarchy, each reached ticket is admitted
   by exactly one path.
   */
  lemma OnePathAfterAnyRun(groups: map<int, set<TicketHierarchy.Ticket>>, vertices: map<int, TicketHierarchy.Ticket>,
                           steps: seq<TicketHierarchy.Step>, t: Tables, q: Query, anchor: int, ticket: int)
    requires t.arcs
             == TicketHierarchy.ArcsOf(TicketHierarchy.Run(TicketHierarchy.State(groups, vertices, map[]), steps).edges)
    requires anchor != ticket
    ensures ReachedWithin(t, q, anchor, ticket) <==> OneAdmittedPath(t, q, anchor, ticket)
  {
    hide ReachedWithin, OneAdmittedPath;
    TicketHierarchy.EmptyHierarchyIsForest(groups, vertices);
    TicketHierarchy.RunsKeepForest(TicketHierarchy.State(groups, vertices, map[]), steps);
    OnePathPerTicket(t, q, anchor, ticket);
  }
}
