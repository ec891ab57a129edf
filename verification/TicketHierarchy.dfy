/**
 The declared parent relation between tickets: a compare-and-set re-parenting operation, refused
 when it would close a cycle. Tickets are graph vertices with an identity; ownership lives in the
 groups. Everything read and written here happens under one advisory lock, hence in one step.
 */
module TicketHierarchy {
  import opened Common
  import opened Graphs

  datatype Ticket = Ticket(provider: string, key: string)

  /** A stored TICKET_PARENT edge, from the parent's vertex to the child's. */
  datatype Declaration = Declaration(arc: Arc, reason: string, source: string, observedAt: Option<int>, recordedAt: int)

  datatype Change = Change(child: Ticket, parent: Option<Ticket>, expectedParent: Option<Ticket>,
                           reason: string, source: string, observedAt: Option<int>)

  datatype Outcome = Malformed | OwnerMissing | Conflict | Unchanged | Changed

  datatype State = State(groups: map<int, set<Ticket>>, vertices: map<int, Ticket>, edges: map<int, Declaration>)

  ghost function ArcsOf(edges: map<int, Declaration>): Arcs {
    map e | e in edges :: edges[e].arc
  }

  /** The graph store keeps no dangling edge. */
  ghost predicate Sound(s: State) {
    forall e | e in s.edges :: s.edges[e].arc.start in s.vertices && s.edges[e].arc.end in s.vertices
  }

  // ----- the request

  predicate ValidIdentity(t: Ticket) {
    && !Blank(t.provider) && !Blank(t.key) && |t.provider| <= 512 && |t.key| <= 512
    && '\0' !in t.provider && '\0' !in t.key
  }

  predicate ValidChange(ch: Change) {
    && ValidIdentity(ch.child)
    && (ch.parent.Some? ==> ValidIdentity(ch.parent.value))
    && (ch.expectedParent.Some? ==> ValidIdentity(ch.expectedParent.value))
    && !Blank(ch.reason) && !Blank(ch.source) && |ch.reason| <= 4000 && |ch.source| <= 4000
    && '\0' !in ch.reason && '\0' !in ch.source
  }

  // ----- what the operation is for

  ghost predicate Owns(s: State, g: int, t: Ticket) {
    g in s.groups && t in s.groups[g]
  }

  ghost predicate Owned(s: State, t: Ticket) {
    exists g :: Owns(s, g, t)
  }

  ghost predicate OwnedOnce(s: State, t: Ticket) {
    Owned(s, t) && forall g, h | Owns(s, g, t) && Owns(s, h, t) :: g == h
  }

  ghost predicate Names(s: State, v: int, t: Ticket) {
    v in s.vertices && s.vertices[v] == t
  }

  ghost predicate OneVertex(s: State, t: Ticket) {
    && (exists v :: Names(s, v, t))
    && forall v, w | Names(s, v, t) && Names(s, w, t) :: v == w
  }

  ghost predicate Resolved(s: State, t: Ticket) {
    OwnedOnce(s, t) && OneVertex(s, t)
  }

  ghost function VertexOf(s: State, t: Ticket): (v: int)
    requires OneVertex(s, t)
    ensures Names(s, v, t)
  {
    var v :| Names(s, v, t);
    v
  }

  ghost function Gate(s: State, t: Ticket): Option<Outcome> {
    if !Owned(s, t) then Some(OwnerMissing) else if Resolved(s, t) then None else Some(Conflict)
  }

  /** The first refusal of the ownership checks: child, then parent, then expected parent. */
  ghost function Gates(s: State, ch: Change): Option<Outcome> {
    if Gate(s, ch.child).Some? then Gate(s, ch.child)
    else if ch.parent.Some? && Gate(s, ch.parent.value).Some? then Gate(s, ch.parent.value)
    else if ch.expectedParent.Some? then Gate(s, ch.expectedParent.value)
    else None
  }

  ghost predicate Into(s: State, e: int, t: Ticket) {
    e in s.edges && s.edges[e].arc.start in s.vertices && Names(s, s.edges[e].arc.end, t)
  }

  ghost predicate OnlyDeclaration(s: State, e: int, t: Ticket) {
    Into(s, e, t) && forall f | Into(s, f, t) :: f == e
  }

  /** The stored parent of a ticket is exactly the given one (None: no declaration is stored). */
  ghost predicate ParentIs(s: State, t: Ticket, parent: Option<Ticket>) {
    match parent
    case None => forall e :: !Into(s, e, t)
    case Some(p) => exists e :: OnlyDeclaration(s, e, t) && s.vertices[s.edges[e].arc.start] == p
  }

  ghost predicate SameDeclaration(s: State, e: int, ch: Change)
    requires e in s.edges && s.edges[e].arc.start in s.vertices
  {
    var d := s.edges[e];
    && Some(s.vertices[d.arc.start]) == ch.parent
    && d.reason == ch.reason && d.source == ch.source && d.observedAt == ch.observedAt
  }

  /** The change restates what is stored. */
  ghost predicate Restates(s: State, ch: Change) {
    match ch.parent
    case None => forall e :: !Into(s, e, ch.child)
    case Some(p) => exists e :: OnlyDeclaration(s, e, ch.child) && SameDeclaration(s, e, ch)
  }

  ghost function WithoutParent(edges: map<int, Declaration>, child: int): map<int, Declaration> {
    map e | e in edges && edges[e].arc.end != child :: edges[e]
  }

  /** The edges once the change is carried out: the child's declaration is replaced, or dropped. */
  ghost function Redeclared(s: State, ch: Change, edgeId: int, now: int): map<int, Declaration>
    requires OneVertex(s, ch.child) && (ch.parent.Some? ==> OneVertex(s, ch.parent.value))
  {
    var c := VertexOf(s, ch.child);
    var kept := WithoutParent(s.edges, c);
    match ch.parent
    case None => kept
    case Some(p) => kept[edgeId := Declaration(Arc(VertexOf(s, p), c), ch.reason, ch.source, ch.observedAt, now)]
  }

  ghost function Verdict(s: State, ch: Change, edgeId: int, now: int): Outcome {
    if !ValidChange(ch) then Malformed
    else if Gates(s, ch).Some? then Gates(s, ch).value
    else if !ParentIs(s, ch.child, ch.expectedParent) then Conflict
    else if Restates(s, ch) then Unchanged
    else if CyclicAt(ArcsOf(Redeclared(s, ch, edgeId, now)), VertexOf(s, ch.child)) then Conflict
    else Changed
  }

  ghost function Apply(s: State, ch: Change, edgeId: int, now: int): State {
    if Verdict(s, ch, edgeId, now) == Changed then s.(edges := Redeclared(s, ch, edgeId, now)) else s
  }

  // ----- the reachability probe ignores the edge that is about to go

  ghost function ArcsWithout(g: Arcs, c: int): Arcs {
    map e | e in g && g[e].end != c :: g[e]
  }

  lemma LeavesForGood(g: Arcs, w: Walk, c: int) returns (s: Walk)
    requires IsWalk(g, Outbound, w) && w.vertices[0] == c
    ensures Connects(ArcsWithout(g, c), Outbound, s, c, w.vertices[|w.edges|])
  {
    s := Straighten(g, Outbound, w);
    forall i | 0 <= i < |s.edges|
      ensures s.edges[i] in g && s.edges[i] in ArcsWithout(g, c)
    {
      assert Crosses(g, Outbound, s.edges[i], s.vertices[i], s.vertices[i + 1]);
      assert s.vertices[i + 1] != s.vertices[0];
    }
    WalkMonotone(g, ArcsWithout(g, c), Outbound, s);
  }

  /** From c, the edges that end in c add nothing: reachability may be computed with the old edge still there. */
  lemma ReachIgnoresOwnParents(g: Arcs, c: int, p: int)
    ensures Reaches(g, c, p) <==> Reaches(ArcsWithout(g, c), c, p)
  {
    if Reaches(g, c, p) {
      var w :| Connects(g, Outbound, w, c, p);
      var s := LeavesForGood(g, w, c);
    }
    if Reaches(ArcsWithout(g, c), c, p) {
      var w :| Connects(ArcsWithout(g, c), Outbound, w, c, p);
      forall i | 0 <= i < |w.edges|
        ensures w.edges[i] in ArcsWithout(g, c) && w.edges[i] in g
      {
        assert Crosses(ArcsWithout(g, c), Outbound, w.edges[i], w.vertices[i], w.vertices[i + 1]);
      }
      WalkMonotone(ArcsWithout(g, c), g, Outbound, w);
      assert Connects(g, Outbound, w, c, p);
    }
  }

  /** The relation with every edge into c replaced by one edge from p. */
  ghost function Reparent(g: Arcs, c: int, p: int, e: int): Arcs {
    ArcsWithout(g, c)[e := Arc(p, c)]
  }

  lemma CycleMustUse(g: Arcs, w: Walk, c: int, p: int, e: int)
    requires e !in g && IsWalk(Reparent(g, c, p, e), Outbound, w)
    requires w.vertices[|w.edges|] == c && |w.edges| > 0
    ensures w.vertices[|w.edges| - 1] == p
  {
    var k := |w.edges| - 1;
    assert Crosses(Reparent(g, c, p, e), Outbound, w.edges[k], w.vertices[k], w.vertices[k + 1]);
  }

  /** The probe's answer is exactly whether the new relation is cyclic through the child, on any stored data. */
  lemma ProbeIsExact(g: Arcs, c: int, p: int, e: int)
    requires e !in g
    ensures (p == c || Reaches(g, c, p)) <==> CyclicAt(Reparent(g, c, p, e), c)
  {
    var h := Reparent(g, c, p, e);
    ReachIgnoresOwnParents(g, c, p);
    if Reaches(ArcsWithout(g, c), c, p) {
      var w :| Connects(ArcsWithout(g, c), Outbound, w, c, p);
      forall i | 0 <= i < |w.edges|
        ensures w.edges[i] in ArcsWithout(g, c) && w.edges[i] in h && h[w.edges[i]] == ArcsWithout(g, c)[w.edges[i]]
      {
        assert Crosses(ArcsWithout(g, c), Outbound, w.edges[i], w.vertices[i], w.vertices[i + 1]);
      }
      WalkMonotone(ArcsWithout(g, c), h, Outbound, w);
      JoinConnects(h, Outbound, w, Walk([p, c], [e]), c, p, c);
      assert Connects(h, Outbound, Join(w, Walk([p, c], [e])), c, c);
    }
    if p == c {
      assert Connects(h, Outbound, Walk([c, c], [e]), c, c);
    }
    if CyclicAt(h, c) {
      var w :| Connects(h, Outbound, w, c, c) && |w.edges| > 0;
      CycleMustUse(g, w, c, p, e);
      PrefixConnects(h, Outbound, w, |w.edges| - 1);
      var s := LeavesForGood(h, Prefix(w, |w.edges| - 1), c);
      forall i | 0 <= i < |s.edges|
        ensures s.edges[i] in ArcsWithout(h, c) && s.edges[i] in ArcsWithout(g, c)
      {
        assert Crosses(ArcsWithout(h, c), Outbound, s.edges[i], s.vertices[i], s.vertices[i + 1]);
      }
      WalkMonotone(ArcsWithout(h, c), ArcsWithout(g, c), Outbound, s);
      assert Connects(ArcsWithout(g, c), Outbound, s, c, p);
    }
  }

  lemma CycleMonotone(g: Arcs, h: Arcs, w: Walk, v: int)
    requires Connects(g, Outbound, w, v, v) && |w.edges| > 0
    requires forall i | 0 <= i < |w.edges| :: w.edges[i] in g && w.edges[i] in h && h[w.edges[i]] == g[w.edges[i]]
    ensures CyclicAt(h, v)
  {
    WalkMonotone(g, h, Outbound, w);
    assert Connects(h, Outbound, w, v, v);
  }

  /** A cycle of the new relation passes through the child, or was there before. */
  lemma CycleIsOldOrThroughChild(g: Arcs, c: int, p: int, e: int, v: int)
    requires e !in g && CyclicAt(Reparent(g, c, p, e), v)
    ensures CyclicAt(g, v) || CyclicAt(Reparent(g, c, p, e), c)
  {
    var h := Reparent(g, c, p, e);
    var w :| Connects(h, Outbound, w, v, v) && |w.edges| > 0;
    if c in w.vertices {
      var k :| 0 <= k < |w.vertices| && w.vertices[k] == c;
      PrefixConnects(h, Outbound, w, k);
      SuffixConnects(h, Outbound, w, k);
      JoinConnects(h, Outbound, Suffix(w, k), Prefix(w, k), c, v, c);
      assert CyclicAt(h, c);
    } else {
      forall i | 0 <= i < |w.edges|
        ensures w.edges[i] in h && w.edges[i] in g && g[w.edges[i]] == h[w.edges[i]]
      {
        assert Crosses(h, Outbound, w.edges[i], w.vertices[i], w.vertices[i + 1]);
        assert w.vertices[i + 1] in w.vertices;
      }
      CycleMonotone(h, g, w, v);
    }
  }

  lemma NewCyclesPassThroughChild(g: Arcs, c: int, p: int, e: int)
    requires e !in g && Acyclic(g)
    ensures CyclicAt(Reparent(g, c, p, e), c) <==> !Acyclic(Reparent(g, c, p, e))
  {
    if !Acyclic(Reparent(g, c, p, e)) {
      var v :| CyclicAt(Reparent(g, c, p, e), v);
      CycleIsOldOrThroughChild(g, c, p, e, v);
    }
  }

  lemma CycleOfFewerEdges(g: Arcs, h: Arcs, v: int)
    requires forall e | e in h :: e in g && g[e] == h[e]
    ensures CyclicAt(h, v) ==> CyclicAt(g, v)
  {
    if CyclicAt(h, v) {
      var w :| Connects(h, Outbound, w, v, v) && |w.edges| > 0;
      forall i | 0 <= i < |w.edges|
        ensures w.edges[i] in h && w.edges[i] in g && g[w.edges[i]] == h[w.edges[i]]
      {
        assert Crosses(h, Outbound, w.edges[i], w.vertices[i], w.vertices[i + 1]);
      }
      CycleMonotone(h, g, w, v);
    }
  }

  lemma FewerEdgesStayForest(g: Arcs, h: Arcs)
    requires Forest(g)
    requires forall e | e in h :: e in g && g[e] == h[e]
    ensures Forest(h)
  {
    forall v
      ensures !CyclicAt(h, v)
    {
      CycleOfFewerEdges(g, h, v);
    }
  }

  // ----- whole runs

  datatype Step =
    | Declare(change: Change, edgeId: int, now: int)
    | Membership(groups: map<int, set<Ticket>>, vertices: map<int, Ticket>)

  /**
   One step: a parent change, or any change of groups and vertices made elsewhere; a vertex takes its edges with it.
   */
  ghost function Next(s: State, step: Step): State {
    match step
    case Declare(ch, id, now) => if id in s.edges then s else Apply(s, ch, id, now)
    case Membership(groups, vertices) =>
      State(groups, vertices,
            map e | e in s.edges && s.edges[e].arc.start in vertices && s.edges[e].arc.end in vertices :: s.edges[e])
  }

  ghost function Run(s: State, steps: seq<Step>): State
    decreases |steps|
  {
    if steps == [] then s else Run(Next(s, steps[0]), steps[1..])
  }

  /** A run takes each step in turn; a change of membership drops exactly the edges whose vertices went. */
  lemma RunTakesEach(s: State, step: Step, steps: seq<Step>)
    ensures Run(s, []) == s && Run(s, [step] + steps) == Run(Next(s, step), steps)
    ensures step.Declare? && step.edgeId !in s.edges ==> Next(s, step) == Apply(s, step.change, step.edgeId, step.now)
    ensures step.Membership? ==>
              var t := Next(s, step);
              && t.groups == step.groups && t.vertices == step.vertices
              && forall e ::
                   e in t.edges <==>
                     e in s.edges && s.edges[e].arc.start in t.vertices && s.edges[e].arc.end in t.vertices
  {
    assert ([step] + steps)[1..] == steps;
  }

  ghost predicate Invariant(s: State) {
    Sound(s) && Forest(ArcsOf(s.edges))
  }

  lemma RedeclaredArcs(s: State, ch: Change, edgeId: int, now: int)
    requires OneVertex(s, ch.child) && (ch.parent.Some? ==> OneVertex(s, ch.parent.value)) && edgeId !in s.edges
    ensures var c := VertexOf(s, ch.child);
            var h := ArcsOf(Redeclared(s, ch, edgeId, now));
            match ch.parent
            case None => h == ArcsWithout(ArcsOf(s.edges), c)
            case Some(p) => h == Reparent(ArcsOf(s.edges), c, VertexOf(s, p), edgeId)
  {
  }

  lemma ApplyKeepsInvariant(s: State, ch: Change, edgeId: int, now: int)
    requires Invariant(s) && edgeId !in s.edges
    ensures Invariant(Apply(s, ch, edgeId, now))
  {
    if Verdict(s, ch, edgeId, now) == Changed {
      var g := ArcsOf(s.edges);
      RedeclaredArcs(s, ch, edgeId, now);
      var c := VertexOf(s, ch.child);
      match ch.parent {
        case None => FewerEdgesStayForest(g, ArcsWithout(g, c));
        case Some(p) => NewCyclesPassThroughChild(g, c, VertexOf(s, p), edgeId);
      }
    }
  }

  /** Over any run that starts with no declarations, every ticket has at most one parent and there is no cycle. */
  lemma {:induction false} RunsKeepForest(s: State, steps: seq<Step>)
    requires Invariant(s)
    ensures Invariant(Run(s, steps))
    decreases |steps|
  {
    if steps != [] {
      match steps[0] {
        case Declare(ch, id, now) =>
          if id !in s.edges { ApplyKeepsInvariant(s, ch, id, now); }
        case Membership(groups, vertices) =>
          FewerEdgesStayForest(ArcsOf(s.edges), ArcsOf(Next(s, steps[0]).edges));
      }
      RunsKeepForest(Next(s, steps[0]), steps[1..]);
    }
  }

  lemma CycleEntersThroughAnEdge(g: Arcs, v: int) returns (e: int)
    requires CyclicAt(g, v)
    ensures e in g && g[e].end == v
  {
    var w :| Connects(g, Outbound, w, v, v) && |w.edges| > 0;
    var k := |w.edges| - 1;
    assert Crosses(g, Outbound, w.edges[k], w.vertices[k], w.vertices[k + 1]);
    e := w.edges[k];
  }

  lemma EmptyHierarchyIsForest(groups: map<int, set<Ticket>>, vertices: map<int, Ticket>)
    ensures Invariant(State(groups, vertices, map[]))
  {
    forall v
      ensures !CyclicAt(ArcsOf(map[]), v)
    {
      if CyclicAt(ArcsOf(map[]), v) {
        var e := CycleEntersThroughAnEdge(ArcsOf(map[]), v);
      }
    }
  }

  /** Past every other check, a new parent is refused exactly when the whole resulting relation would have a cycle. */
  lemma RefusedExactlyWhenCyclic(s: State, ch: Change, edgeId: int, now: int)
    requires Invariant(s) && edgeId !in s.edges
    requires ValidChange(ch) && Gates(s, ch).None? && ParentIs(s, ch.child, ch.expectedParent) && !Restates(s, ch)
    requires ch.parent.Some?
    ensures Verdict(s, ch, edgeId, now) == Conflict <==> !Acyclic(ArcsOf(Redeclared(s, ch, edgeId, now)))
    ensures Verdict(s, ch, edgeId, now) == Conflict || Verdict(s, ch, edgeId, now) == Changed
  {
    RedeclaredArcs(s, ch, edgeId, now);
    NewCyclesPassThroughChild(ArcsOf(s.edges), VertexOf(s, ch.child), VertexOf(s, ch.parent.value), edgeId);
  }

  /** Once carried out, repeating the change with the parent now expected is recognised as already stored. */
  lemma RepeatIsUnchanged(s: State, ch: Change, edgeId: int, now: int, id2: int, now2: int)
    requires Invariant(s) && edgeId !in s.edges && Verdict(s, ch, edgeId, now) == Changed
    ensures Verdict(Apply(s, ch, edgeId, now), ch.(expectedParent := ch.parent), id2, now2) == Unchanged
  {
    var t := Apply(s, ch, edgeId, now);
    var again := ch.(expectedParent := ch.parent);
    assert forall x :: Gate(t, x) == Gate(s, x) by {
      forall x
        ensures Gate(t, x) == Gate(s, x)
      {
        assert forall g :: Owns(t, g, x) == Owns(s, g, x);
        assert forall v :: Names(t, v, x) == Names(s, v, x);
      }
    }
    assert forall v :: Names(t, v, ch.child) == Names(s, v, ch.child);
    if ch.parent.Some? {
      assert OnlyDeclaration(t, edgeId, ch.child);
      assert SameDeclaration(t, edgeId, again);
    }
  }

  // ----- the stored fields, before and after

  /** Edge e is the one stored edge that ends at a vertex of the ticket. */
  ghost predicate OneEdgeInto(s: State, e: int, t: Ticket) {
    && e in s.edges && s.edges[e].arc.start in s.vertices && s.edges[e].arc.end in s.vertices
    && s.vertices[s.edges[e].arc.end] == t
    && forall f | f in s.edges && s.edges[f].arc.end in s.vertices && s.vertices[s.edges[f].arc.end] == t :: f == e
  }

  /**
   An accepted change is what is stored afterwards: the one edge into the child comes from the parent asked for and
   carries the reason, source and observation sent, with the time of recording when it is new; or there is no edge.
   The edges into other tickets are as they were.
   */
  lemma AcceptedIsStored(s: State, ch: Change, edgeId: int, now: int)
    requires Sound(s) && edgeId !in s.edges && Verdict(s, ch, edgeId, now) in {Changed, Unchanged}
    ensures var t := Apply(s, ch, edgeId, now);
            && t.groups == s.groups && t.vertices == s.vertices
            && (ch.parent.Some? ==>
                  exists e :: OneEdgeInto(t, e, ch.child) && t.vertices[t.edges[e].arc.start] == ch.parent.value
                              && t.edges[e].reason == ch.reason && t.edges[e].source == ch.source
                              && t.edges[e].observedAt == ch.observedAt
                              && (Verdict(s, ch, edgeId, now) == Changed ==>
                                  e == edgeId && t.edges[e].recordedAt == now))
            && (ch.parent.None? ==> forall e | e in t.edges :: t.vertices[t.edges[e].arc.end] != ch.child)
            && (forall e | e in s.edges && s.vertices[s.edges[e].arc.end] != ch.child ::
                  e in t.edges && t.edges[e] == s.edges[e])
            && (forall e | e in t.edges && t.vertices[t.edges[e].arc.end] != ch.child :: e in s.edges)
  {
    hide CyclicAt;
    var t := Apply(s, ch, edgeId, now);
    if Verdict(s, ch, edgeId, now) == Changed {
      var c := VertexOf(s, ch.child);
      assert Names(s, c, ch.child);
      assert forall v | v in s.vertices && s.vertices[v] == ch.child :: v == c by {
        forall v | v in s.vertices && s.vertices[v] == ch.child ensures v == c { assert Names(s, v, ch.child); }
      }
      if ch.parent.Some? { assert OneEdgeInto(t, edgeId, ch.child); }
    } else if ch.parent.Some? {
      var e :| OnlyDeclaration(s, e, ch.child) && SameDeclaration(s, e, ch);
      forall f | f in s.edges && s.vertices[s.edges[f].arc.end] == ch.child
        ensures f == e
      {
        assert Into(s, f, ch.child);
      }
      assert OneEdgeInto(t, e, ch.child);
    } else {
      forall e | e in t.edges ensures t.vertices[t.edges[e].arc.end] != ch.child { assert !Into(s, e, ch.child); }
    }
  }

  /**
   A request that differs from the stored edge in the parent, the reason, the source or the observation is never
   taken for a repeat.
   */
  lemma NewContentIsNotARepeat(s: State, ch: Change, edgeId: int, now: int, e: int)
    requires Sound(s) && OneEdgeInto(s, e, ch.child)
    requires var d := s.edges[e];
             Some(s.vertices[d.arc.start]) != ch.parent || d.reason != ch.reason || d.source != ch.source
               || d.observedAt != ch.observedAt
    ensures Verdict(s, ch, edgeId, now) != Unchanged
  {
    hide CyclicAt;
    assert Into(s, e, ch.child);
  }

  /** The tickets a change names. */
  function Named(ch: Change): set<Ticket> {
    {ch.child} + (if ch.parent.Some? then {ch.parent.value} else {})
    + (if ch.expectedParent.Some? then {ch.expectedParent.value} else {})
  }

  /** One group lists the ticket and one vertex stands for it. */
  ghost predicate HeldOnce(s: State, t: Ticket) {
    ListedOnce(s, t) && StandsOnce(s, t)
  }

  /** The stored parent of the child: none when no edge ends there. */
  ghost predicate ParentStored(s: State, child: Ticket, parent: Option<Ticket>) {
    match parent
    case None => forall e | e in s.edges && s.edges[e].arc.end in s.vertices :: s.vertices[s.edges[e].arc.end] != child
    case Some(p) => exists e :: OneEdgeInto(s, e, child) && s.vertices[s.edges[e].arc.start] == p
  }

  /** A request text: not blank, within its bound, no null character. */
  predicate Sendable(text: string, bound: nat) {
    (exists i :: 0 <= i < |text| && !IsSpace(text[i])) && |text| <= bound
      && forall i | 0 <= i < |text| :: text[i] != '\0'
  }

  /** What is sent is what is stored, with the same reason, source and observation. */
  ghost predicate Repeats(s: State, ch: Change) {
    match ch.parent
    case None => ParentStored(s, ch.child, None)
    case Some(p) =>
      exists e :: OneEdgeInto(s, e, ch.child) && s.vertices[s.edges[e].arc.start] == p && s.edges[e].reason == ch.reason
                  && s.edges[e].source == ch.source && s.edges[e].observedAt == ch.observedAt
  }

  /** From a vertex of one ticket the stored edges lead to a vertex of the other. */
  ghost predicate LeadsTo(s: State, from: Ticket, to: Ticket) {
    exists c, p :: (c, from) in s.vertices.Items && (p, to) in s.vertices.Items && Reaches(ArcsOf(s.edges), c, p)
  }

  ghost predicate ListedOnce(s: State, t: Ticket) {
    exists g :: g in s.groups && t in s.groups[g] && forall h | h in s.groups && t in s.groups[h] :: h == g
  }

  ghost predicate StandsOnce(s: State, t: Ticket) {
    exists v :: v in s.vertices && s.vertices[v] == t && forall w | w in s.vertices && s.vertices[w] == t :: w == v
  }

  lemma ListedOnceIsOwnedOnce(s: State, t: Ticket)
    ensures ListedOnce(s, t) <==> OwnedOnce(s, t)
    ensures Owned(s, t) <==> exists g :: g in s.groups && t in s.groups[g]
  {
    assert forall g :: Owns(s, g, t) <==> g in s.groups && t in s.groups[g];
    if OwnedOnce(s, t) {
      var g :| Owns(s, g, t);
      forall h | h in s.groups && t in s.groups[h] ensures h == g { assert Owns(s, h, t); }
    }
    if ListedOnce(s, t) {
      var g :| g in s.groups && t in s.groups[g] && forall h | h in s.groups && t in s.groups[h] :: h == g;
      assert Owns(s, g, t);
    }
  }

  lemma StandsOnceIsOneVertex(s: State, t: Ticket)
    ensures StandsOnce(s, t) <==> OneVertex(s, t)
  {
    assert forall v :: Names(s, v, t) <==> v in s.vertices && s.vertices[v] == t;
    if OneVertex(s, t) {
      var v :| Names(s, v, t);
      forall w | w in s.vertices && s.vertices[w] == t ensures w == v { assert Names(s, w, t); }
    }
    if StandsOnce(s, t) {
      var v :| v in s.vertices && s.vertices[v] == t && forall w | w in s.vertices && s.vertices[w] == t :: w == v;
      assert Names(s, v, t);
    }
  }

  lemma HeldOnceIsGateOpen(s: State, t: Ticket)
    ensures HeldOnce(s, t) <==> Gate(s, t).None?
    ensures Gate(s, t) == Some(OwnerMissing) <==> forall g | g in s.groups :: t !in s.groups[g]
    ensures Gate(s, t) != Some(Malformed) && Gate(s, t) != Some(Changed) && Gate(s, t) != Some(Unchanged)
  {
    hide ListedOnce, StandsOnce, OwnedOnce, OneVertex, Owned;
    ListedOnceIsOwnedOnce(s, t);
    StandsOnceIsOneVertex(s, t);
    OwnedOnceIsOwned(s, t);
  }

  lemma OwnedOnceIsOwned(s: State, t: Ticket)
    ensures OwnedOnce(s, t) ==> Owned(s, t)
  {
  }

  lemma StoredAsSeen(s: State, t: Ticket, p: Option<Ticket>)
    requires Sound(s)
    ensures ParentIs(s, t, p) <==> ParentStored(s, t, p)
    ensures forall e :: OnlyDeclaration(s, e, t) <==> OneEdgeInto(s, e, t)
  {
    assert forall e :: Into(s, e, t) <==> e in s.edges && s.vertices[s.edges[e].arc.end] == t;
    forall e ensures OnlyDeclaration(s, e, t) <==> OneEdgeInto(s, e, t) {
      if OneEdgeInto(s, e, t) {
        assert forall f | Into(s, f, t) :: f in s.edges && s.vertices[s.edges[f].arc.end] == t;
      }
      if OnlyDeclaration(s, e, t) {
        forall f | f in s.edges && s.vertices[s.edges[f].arc.end] == t ensures f == e { assert Into(s, f, t); }
      }
    }
  }

  lemma RepeatsAsSeen(s: State, ch: Change)
    requires Sound(s)
    ensures Restates(s, ch) <==> Repeats(s, ch)
  {
    StoredAsSeen(s, ch.child, ch.parent);
    assert forall e :: Into(s, e, ch.child) <==> e in s.edges && s.vertices[s.edges[e].arc.end] == ch.child;
  }

  lemma GatesOpen(s: State, ch: Change)
    ensures Gates(s, ch).None? <==> forall t | t in Named(ch) :: HeldOnce(s, t)
    ensures Gates(s, ch) in {None, Some(OwnerMissing), Some(Conflict)}
    ensures Gates(s, ch) == Some(OwnerMissing) ==>
            exists t :: t in Named(ch) && forall g | g in s.groups :: t !in s.groups[g]
    ensures (forall g | g in s.groups :: ch.child !in s.groups[g]) ==> Gates(s, ch) == Some(OwnerMissing)
  {
    HeldOnceIsGateOpen(s, ch.child);
    if ch.parent.Some? { HeldOnceIsGateOpen(s, ch.parent.value); }
    if ch.expectedParent.Some? { HeldOnceIsGateOpen(s, ch.expectedParent.value); }
  }

  lemma CyclicWhenParentIsBelow(s: State, ch: Change, edgeId: int, now: int)
    requires Sound(s) && edgeId !in s.edges && ch.parent.Some? && HeldOnce(s, ch.child) && HeldOnce(s, ch.parent.value)
    requires OneVertex(s, ch.child) && OneVertex(s, ch.parent.value)
    ensures CyclicAt(ArcsOf(Redeclared(s, ch, edgeId, now)), VertexOf(s, ch.child)) <==>
            LeadsTo(s, ch.child, ch.parent.value)
  {
    hide HeldOnce, CyclicAt, Reaches;
    var c, p := VertexOf(s, ch.child), VertexOf(s, ch.parent.value);
    RedeclaredArcs(s, ch, edgeId, now);
    ProbeIsExact(ArcsOf(s.edges), c, p, edgeId);
    ReachesItself(ArcsOf(s.edges), c);
    assert (c, ch.child) in s.vertices.Items && (p, ch.parent.value) in s.vertices.Items;
    forall c1, p1 | (c1, ch.child) in s.vertices.Items && (p1, ch.parent.value) in s.vertices.Items
      ensures c1 == c && p1 == p {
      assert Names(s, c1, ch.child) && Names(s, p1, ch.parent.value);
    }
  }

  lemma ReachesItself(g: Arcs, v: int)
    ensures Reaches(g, v, v)
  {
    assert Connects(g, Outbound, Walk([v], []), v, v);
  }

  lemma ClearedIsNoCycle(s: State, ch: Change, edgeId: int, now: int)
    requires OneVertex(s, ch.child) && ch.parent.None? && edgeId !in s.edges
    ensures !CyclicAt(ArcsOf(Redeclared(s, ch, edgeId, now)), VertexOf(s, ch.child))
  {
    RedeclaredArcs(s, ch, edgeId, now);
    NoParentNoCycle(ArcsOf(s.edges), VertexOf(s, ch.child));
  }

  ghost predicate Acceptable(s: State, ch: Change) {
    && (forall t | t in Named(ch) :: HeldOnce(s, t))
    && ParentStored(s, ch.child, ch.expectedParent)
    && (Repeats(s, ch) || ch.parent.None? || !LeadsTo(s, ch.child, ch.parent.value))
  }

  lemma TextSendable(text: string, bound: nat)
    ensures Sendable(text, bound) <==> !Blank(text) && |text| <= bound && '\0' !in text
  {
  }

  lemma IdentitySendable(t: Ticket)
    ensures ValidIdentity(t) <==> Sendable(t.provider, 512) && Sendable(t.key, 512)
  {
    hide Sendable;
    TextSendable(t.provider, 512);
    TextSendable(t.key, 512);
  }

  lemma ValidOnTexts(ch: Change)
    ensures ValidChange(ch) <==>
            && (forall t | t in Named(ch) :: Sendable(t.provider, 512) && Sendable(t.key, 512))
            && Sendable(ch.reason, 4000) && Sendable(ch.source, 4000)
  {
    hide Sendable, ValidIdentity;
    TextSendable(ch.reason, 4000);
    TextSendable(ch.source, 4000);
    IdentitySendable(ch.child);
    if ch.parent.Some? { IdentitySendable(ch.parent.value); }
    if ch.expectedParent.Some? { IdentitySendable(ch.expectedParent.value); }
  }

  /** A change is turned away as malformed exactly when an identity or one of its two texts cannot be sent. */
  lemma MalformedExactly(s: State, ch: Change, edgeId: int, now: int)
    ensures Verdict(s, ch, edgeId, now) != Malformed <==>
            && (forall t | t in Named(ch) :: Sendable(t.provider, 512) && Sendable(t.key, 512))
            && Sendable(ch.reason, 4000) && Sendable(ch.source, 4000)
  {
    hide CyclicAt, Gates, ParentIs, Restates, Redeclared, Sendable, ValidChange, Named;
    GatesOpen(s, ch);
    ValidOnTexts(ch);
  }

  /**
   The whole verdict on the stored fields. A well-formed change is accepted exactly when each ticket it names is held
   once, the stored parent is the expected one, and it either repeats what is stored or puts no ticket below itself;
   accepted, it is a repeat exactly when nothing stored differs. A refusal is for a missing owner only when some ticket
   named has none.
   */
  lemma VerdictExactly(s: State, ch: Change, edgeId: int, now: int)
    requires Sound(s) && edgeId !in s.edges && Verdict(s, ch, edgeId, now) != Malformed
    ensures Verdict(s, ch, edgeId, now) in {Changed, Unchanged} <==> Acceptable(s, ch)
    ensures Acceptable(s, ch) ==> (Verdict(s, ch, edgeId, now) == Unchanged <==> Repeats(s, ch))
    ensures Verdict(s, ch, edgeId, now) == OwnerMissing ==>
              exists t :: t in Named(ch) && forall g | g in s.groups :: t !in s.groups[g]
    ensures (forall g | g in s.groups :: ch.child !in s.groups[g]) ==> Verdict(s, ch, edgeId, now) == OwnerMissing
  {
    hide CyclicAt, HeldOnce, LeadsTo, Restates, Repeats, ParentIs, ParentStored, Redeclared, ValidChange;
    GatesOpen(s, ch);
    RepeatsAsSeen(s, ch);
    StoredAsSeen(s, ch.child, ch.expectedParent);
    if Gates(s, ch).None? {
      assert Gate(s, ch.child).None?;
      if ch.parent.Some? {
        assert ch.child in Named(ch) && ch.parent.value in Named(ch);
        CyclicWhenParentIsBelow(s, ch, edgeId, now);
      } else {
        ClearedIsNoCycle(s, ch, edgeId, now);
      }
    }
  }

  // ----- the store that carries it out

  lemma GateByCounting(s: State, t: Ticket, owners: set<int>, found: set<int>)
    requires forall g :: g in owners <==> Owns(s, g, t)
    requires forall v :: v in found <==> Names(s, v, t)
    ensures Gate(s, t)
            == if owners == {} then Some(OwnerMissing)
              else if |owners| == 1 && |found| == 1 then None else Some(Conflict)
  {
    if owners != {} {
      var g := Inhabited(owners);
      SizeOneIsSingleton(owners, g);
      assert Owned(s, t);
      if OwnedOnce(s, t) {
        forall h | h in owners
          ensures h == g
        {
          assert Owns(s, g, t) && Owns(s, h, t);
        }
        assert owners == {g};
      }
      if found != {} {
        var v := Inhabited(found);
        SizeOneIsSingleton(found, v);
        if OneVertex(s, t) {
          forall w | w in found
            ensures w == v
          {
            assert Names(s, v, t) && Names(s, w, t);
          }
          assert found == {v};
        }
      }
    }
  }

  /** What the probe knows: everything reached is reachable, and only the frontier is still to be expanded. */
  ghost predicate Explored(g: Arcs, child: int, reached: set<int>, frontier: set<int>) {
    && child in reached && frontier <= reached
    && (forall v | v in reached :: Reaches(g, child, v))
    && (forall e | e in g && g[e].start in reached && g[e].start !in frontier :: g[e].end in reached)
  }

  lemma Spread(g: Arcs, child: int, reached: set<int>, frontier: set<int>, added: set<int>)
    requires Explored(g, child, reached, frontier)
    requires forall v | v in added :: exists e :: e in g && g[e].start in frontier && g[e].end == v
    requires forall e | e in g && g[e].start in frontier && g[e].end !in reached :: g[e].end in added
    ensures Explored(g, child, reached + added, added)
  {
    forall v | v in added
      ensures Reaches(g, child, v)
    {
      var e :| e in g && g[e].start in frontier && g[e].end == v;
      var w :| Connects(g, Outbound, w, child, g[e].start);
      var hop := Walk([g[e].start, v], [e]);
      assert Connects(g, Outbound, hop, g[e].start, v);
      JoinConnects(g, Outbound, w, hop, child, g[e].start, v);
    }
  }

  class TicketGraph {
    var groups: map<int, set<Ticket>>
    var vertices: map<int, Ticket>
    var edges: map<int, Declaration>

    ghost function Stored(): State
      reads this
    {
      State(groups, vertices, edges)
    }

    /** The ownership check made for each ticket a change names. */
    method RequireOwner(t: Ticket) returns (refusal: Option<Outcome>)
      ensures refusal == Gate(Stored(), t)
    {
      var owners := set g | g in groups && t in groups[g];
      var found := set v | v in vertices && vertices[v] == t;
      assert forall g :: g in owners <==> Owns(Stored(), g, t);
      assert forall v :: v in found <==> Names(Stored(), v, t);
      GateByCounting(Stored(), t, owners, found);
      if |owners| == 0 {
        return Some(OwnerMissing);
      }
      if |owners| != 1 || |found| != 1 {
        return Some(Conflict);
      }
      return None;
    }

    /** The recursive query: grow the set reached from the child until nothing new appears. */
    method WouldCycle(child: int, parent: int) returns (found: bool)
      ensures found <==> Reaches(ArcsOf(edges), child, parent)
    {
      ghost var everything := (set e | e in edges :: edges[e].arc.end) + {child};
      var reached, frontier := {child}, {child};
      assert Connects(ArcsOf(edges), Outbound, Walk([child], []), child, child);
      while frontier != {}
        invariant Explored(ArcsOf(edges), child, reached, frontier) && reached <= everything
        decreases |everything - reached|, |frontier|
      {
        var added := set e | e in edges && edges[e].arc.start in frontier && edges[e].arc.end !in reached
                     :: edges[e].arc.end;
        ghost var g := ArcsOf(edges);
        forall v | v in added
          ensures exists e :: e in g && g[e].start in frontier && g[e].end == v
        {
          var e :| e in edges && edges[e].arc.start in frontier && edges[e].arc.end == v;
          assert e in g && g[e].start in frontier && g[e].end == v;
        }
        Spread(g, child, reached, frontier, added);
        if added != {} {
          ghost var _ := Inhabited(added);
          ProperSubsetIsSmaller(everything - (reached + added), everything - reached);
        } else {
          ProperSubsetIsSmaller(added, frontier);
        }
        reached, frontier := reached + added, added;
      }
      found := parent in reached;
      if Reaches(ArcsOf(edges), child, parent) {
        ghost var w :| Connects(ArcsOf(edges), Outbound, w, child, parent);
        ClosedContains(ArcsOf(edges), reached, w);
      }
    }

    /** The single stored declaration of a ticket, or a refusal when there are several. */
    method Current(child: Ticket) returns (r: Option<Option<int>>)
      requires Sound(Stored())
      ensures r.None? <==> exists e, f :: Into(Stored(), e, child) && Into(Stored(), f, child) && e != f
      ensures r.Some? && r.value.None? ==> forall e :: !Into(Stored(), e, child)
      ensures r.Some? && r.value.Some? ==> OnlyDeclaration(Stored(), r.value.value, child)
    {
      var rows := set e | e in edges && edges[e].arc.start in vertices && edges[e].arc.end in vertices
                       && vertices[edges[e].arc.end] == child;
      assert forall e :: e in rows <==> Into(Stored(), e, child);
      if rows == {} {
        return Some(None);
      }
      ghost var _ := Inhabited(rows);
      var e :| e in rows;
      if rows != {e} {
        ghost var other := Inhabited(rows - {e});
        var f :| f in rows && f != e;
        assert Into(Stored(), e, child) && Into(Stored(), f, child);
        return None;
      }
      return Some(Some(e));
    }

    method ChangeParent(ch: Change, edgeId: int, now: int) returns (outcome: Outcome)
      requires Sound(Stored()) && edgeId !in edges
      modifies this`edges
      ensures outcome == old(Verdict(Stored(), ch, edgeId, now))
      ensures Stored() == old(Apply(Stored(), ch, edgeId, now))
    {
      ghost var s := Stored();
      if !ValidChange(ch) {
        return Malformed;
      }
      var refusal := RequireOwner(ch.child);
      if refusal.None? && ch.parent.Some? {
        refusal := RequireOwner(ch.parent.value);
      }
      if refusal.None? && ch.expectedParent.Some? {
        refusal := RequireOwner(ch.expectedParent.value);
      }
      assert refusal == Gates(s, ch);
      if refusal.Some? {
        return refusal.value;
      }
      var current := Current(ch.child);
      if current.None? {
        return Conflict;
      }
      var stored := current.value;
      var storedParent := if stored.None? then None else Some(vertices[edges[stored.value].arc.start]);
      assert ParentIs(s, ch.child, storedParent) by {
        assert Stored() == s;
        if stored.None? {
          forall e
            ensures !Into(s, e, ch.child)
          {
            assert !Into(Stored(), e, ch.child);
          }
        }
      }
      if storedParent != ch.expectedParent {
        return Conflict;
      }
      var identical :=
        if stored.None? then ch.parent.None?
        else (var d := edges[stored.value];
              storedParent == ch.parent && d.reason == ch.reason && d.source == ch.source
                && d.observedAt == ch.observedAt);
      assert identical <==> Restates(s, ch);
      if identical {
        return Unchanged;
      }
      var c :| c in vertices && vertices[c] == ch.child;
      assert c == VertexOf(s, ch.child) by { assert Names(s, c, ch.child); }
      match ch.parent {
        case None =>
          edges := map e | e in edges && e != stored.value :: edges[e];
          ClearedBelow(s, stored.value, ch.child, c);
          RedeclaredArcs(s, ch, edgeId, now);
          NoParentNoCycle(ArcsOf(s.edges), c);
        case Some(parent) =>
          var p :| p in vertices && vertices[p] == parent;
          assert p == VertexOf(s, parent) by { assert Names(s, p, parent); }
          RedeclaredArcs(s, ch, edgeId, now);
          ProbeIsExact(ArcsOf(edges), c, p, edgeId);
          if parent == ch.child {
            assert p == c;
            return Conflict;
          }
          var cycle := WouldCycle(c, p);
          if cycle {
            return Conflict;
          }
          var kept := if stored.None? then edges else map e | e in edges && e != stored.value :: edges[e];
          assert kept == WithoutParent(s.edges, c) by {
            if stored.Some? { ClearedBelow(s, stored.value, ch.child, c); } else { NothingBelow(s, ch.child, c); }
          }
          edges := kept[edgeId := Declaration(Arc(p, c), ch.reason, ch.source, ch.observedAt, now)];
      }
      return Changed;
    }
  }

  lemma ClearedBelow(s: State, e: int, child: Ticket, c: int)
    requires Sound(s) && OneVertex(s, child) && Names(s, c, child) && OnlyDeclaration(s, e, child)
    ensures (map f | f in s.edges && f != e :: s.edges[f]) == WithoutParent(s.edges, c)
  {
    assert forall f | f in s.edges :: s.edges[f].arc.end == c <==> Into(s, f, child);
  }

  lemma NothingBelow(s: State, child: Ticket, c: int)
    requires Sound(s) && OneVertex(s, child) && Names(s, c, child) && forall e :: !Into(s, e, child)
    ensures s.edges == WithoutParent(s.edges, c)
  {
    forall f | f in s.edges
      ensures s.edges[f].arc.end != c
    {
      assert s.edges[f].arc.end == c <==> Into(s, f, child);
    }
  }

  lemma NoParentNoCycle(g: Arcs, c: int)
    ensures !CyclicAt(ArcsWithout(g, c), c)
  {
    if CyclicAt(ArcsWithout(g, c), c) {
      var e := CycleEntersThroughAnEdge(ArcsWithout(g, c), c);
    }
  }
}
