/**
 What a resolved dossier promises: its memories are eligible, a ticket only narrows it, and when it discloses
 no limit it holds exactly what was asked for.
 */
module DossierCompleteness {
  import opened Common
  import opened Sorting
  import Graphs
  import TicketHierarchy
  import TicketWalk
  import Widening = MemoryWidening
  import opened DossierSelections

  /** Nothing hidden is ever reached: every memory on a surviving path is outside the hidden dimensions. */
  lemma ReachedIsVisible(s: Store, q: WidenQuery, c: Claim)
    requires Consistent(s) && c in s.rows && Widening.Reached(WideningOf(s), WideningQuery(q), c.uuid)
    ensures c.scope !in q.hidden
  {
    var t, w := WideningOf(s), WideningQuery(q);
    var path :| Widening.Surviving(t, w, path) && c.uuid in path.vertices;
    assert !Widening.IsHidden(t, w.hidden, c.uuid);
  }

  /** Every selected memory satisfies the one rule, whichever stage found it. */
  lemma SelectedAreEligible(s: Store, v: Services, a: Anchor, c: Claim)
    requires Consistent(s) && Answers(s, v) && (c in Anchors(v, a) || c in Reaches(v, a))
    ensures c in s.rows && Eligible(a, c)
  {
    var uuids, sources := TicketUuids(v, a), Uuids(Matched(v, a));
    var q := AnchorSearch(FilterFrom(a), NotBlank(a.repo), NotBlank(a.initiative), a.tags, uuids);
    var w := WidenFrom(FilterFrom(a), sources, a.widenDepth);
    assert SearchReturns(s, q, v.search(q)) && WidenReturns(s, w, v.widen(w));
    StagesAgree(a, TicketHierarchy.Ticket("", ""), uuids, sources, c);
    if c in Reaches(v, a) { ReachedIsVisible(s, w, c); }
  }

  /** Given, and not blank. */
  ghost predicate Asked(wanted: Option<string>) {
    wanted.Some? && exists i :: 0 <= i < |wanted.value| && !IsSpace(wanted.value[i])
  }

  /**
   The rule on the columns: the current row; of the kind asked for; of the status asked for, or else not proposed;
   in the dimension asked for, or else outside the programme; from its start and before its end at the time asked for.
   */
  lemma EligibleOnColumns(a: Anchor, c: Claim)
    ensures Eligible(a, c) <==>
            && c.current
            && (Asked(a.kind) ==> c.kind == a.kind.value)
            && (if Asked(a.status) then c.status == a.status.value else c.status != "proposed")
            && (if Asked(a.scope) then c.scope == a.scope.value else c.scope != "program")
            && forall t | a.asOf == Some(t) :: c.validFrom <= t && forall end | c.validUntil == Some(end) :: t < end
    ensures Anchored(a, c) <==>
            && (Asked(a.repo) ==> c.repo == a.repo.value)
               && (Asked(a.initiative) ==> c.initiative == a.initiative.value)
            && (a.tags == [] || exists i :: 0 <= i < |a.tags| && a.tags[i] in c.tags)
  {
    if t :| t in a.tags && t in c.tags {
      var i :| 0 <= i < |a.tags| && a.tags[i] == t;
    }
  }

  /**
   The three queries: the dimension asked for, the dimensions not to be crossed, the limits, and the page of current
   rows.
   */
  lemma QueriesOnAnchor(a: Anchor, ticket: Ticket, uuids: Option<set<int>>, sources: set<int>)
    ensures var f := FilterFrom(a);
            && (forall d :: d in f.hidden <==> d == "program" && a.scope != Some("program"))
            && (Asked(a.scope) ==> f.required == a.scope && f.excluded == [])
            && (!Asked(a.scope) ==> f.required == None && f.excluded == ["program"])
    ensures var f, q := FilterFrom(a), TicketTraversal(FilterFrom(a), ticket, a.widenDepth);
            && q.ticket == ticket && q.maxDepth == a.widenDepth && q.hidden == f.hidden && q.required == f.required
            && q.pathLimit == 200 && q.memoryLimit == 200
    ensures var q := AnchorSearch(FilterFrom(a), a.repo, a.initiative, a.tags, uuids);
            q.currentOnly && q.limit == 200 && q.uuids == uuids && q.asOf == a.asOf
    ensures var q := WidenFrom(FilterFrom(a), sources, a.widenDepth);
            && q.sources == sources && q.maxDepth == a.widenDepth && q.limit == 200 && q.asOf == a.asOf
            && q.hidden == FilterFrom(a).hidden
  {
    assert Asked(a.scope) <==> NotBlank(a.scope).Some?;
    assert !IsSpace(PROGRAM[0]);
  }

  /** A status asked for is the only one; otherwise proposed rows are left out when that is asked. */
  lemma StatusOnColumns(status: Option<string>, excludeProposed: bool, c: Claim)
    ensures StatusAllowed(status, excludeProposed, c) <==>
            status == Some(c.status) || (status == None && (excludeProposed ==> c.status != "proposed"))
  {
  }

  /**
   What the traversals see of the store: links from source to target, and for each ticket vertex the groups listing
   its ticket.
   */
  lemma ViewsOfTheStore(s: Store, i: int, u: int, v: int, g: int, ticket: Ticket)
    ensures Graphs.Crosses(LinkArcs(s.links), Graphs.Outbound, i, u, v) <==>
            0 <= i < |s.links| && s.links[i].source == u && s.links[i].target == v
    ensures WideningOf(s).links == LinkArcs(s.links) && WideningOf(s).dimension == s.scopes
    ensures v in VerticesOf(s, ticket) <==> v in s.hierarchy.vertices && s.hierarchy.vertices[v] == ticket
    ensures v in TicketTables(s).owners <==> v in s.hierarchy.vertices
    ensures v in s.hierarchy.vertices ==>
              (g in TicketTables(s).owners[v] <==>
                 g in s.groupScopes && g in s.hierarchy.groups && s.hierarchy.vertices[v] in s.hierarchy.groups[g])
    ensures v in s.hierarchy.vertices && g in TicketTables(s).owners[v] ==>
            TicketTables(s).owners[v][g] == s.groupScopes[g]
    ensures Graphs.Crosses(TicketTables(s).arcs, Graphs.Outbound, i, u, v) <==>
            i in s.hierarchy.edges && s.hierarchy.edges[i].arc.start == u && s.hierarchy.edges[i].arc.end == v
    ensures forall q :: WideningQuery(q).direction == Graphs.Outbound
  {
  }

  // ----- tickets

  function QueryOf(a: Anchor, ticket: Ticket): TicketQuery {
    TicketTraversal(FilterFrom(a), ticket, a.widenDepth)
  }

  /** From the supplied ticket a walk over singly owned, visible tickets leads to one of the memory's own group's. */
  ghost predicate OwnerReached(s: Store, a: Anchor, ticket: Ticket, c: Claim, w: Graphs.Walk) {
    TicketWalk.VisibleWalk(TicketTables(s), WalkQuery(s, QueryOf(a, ticket)), w) && EndsAt(s, w, c.group)
  }

  /**
   A memory belongs to a supplied ticket when it refers to it, or some such walk of at most so many edges leads to
   its group.
   */
  ghost predicate BelongsWithin(s: Store, a: Anchor, c: Claim, depth: nat) {
    a.ticket.Some? ==>
      || (c.uuid, a.ticket.value) in s.about
      || exists w :: OwnerReached(s, a, a.ticket.value, c, w) && |w.edges| <= depth
  }

  ghost predicate Belongs(s: Store, a: Anchor, c: Claim) {
    exists depth: nat :: BelongsWithin(s, a, c, depth)
  }

  /** Only groups at the end of some visible walk within the depth are read. */
  lemma ReadGroupsAreReached(s: Store, q: TicketQuery, scan: TicketWalk.Scan, paths: seq<Graphs.Walk>, g: int)
    returns (w: Graphs.Walk)
    requires WalkLists(s, q, scan, paths) && GroupRead(s, q, paths, g)
    ensures TicketWalk.VisibleWalk(TicketTables(s), WalkQuery(s, q), w) && EndsAt(s, w, g) && |w.edges| <= q.maxDepth
  {
    var t, k := TicketTables(s), WalkQuery(s, q);
    if v :| v in k.anchors && TicketWalk.Eligible(t, k.hidden, v) && Lists(s, g, v) {
      w := Graphs.Walk([v], []);
    } else {
      w :| w in TicketWalk.Selected(k, paths) && EndsAt(s, w, g);
      TicketWalk.ListedOnce(t, k, scan, paths);
      assert w in paths;
      TicketWalk.AdmittedExactly(t, k, w);
    }
  }

  /** Every group read is the only one listing some ticket, and its stored scope is not hidden. */
  lemma ReadGroupsAreInSight(s: Store, q: TicketQuery, scan: TicketWalk.Scan, paths: seq<Graphs.Walk>, g: int)
    requires WalkLists(s, q, scan, paths) && GroupRead(s, q, paths, g)
    ensures g in s.groupScopes && s.groupScopes[g] !in q.hidden
    ensures exists t :: t in s.hierarchy.vertices.Values && g in s.hierarchy.groups && t in s.hierarchy.groups[g]
                        && forall h | h in s.groupScopes && h in s.hierarchy.groups
                           && t in s.hierarchy.groups[h] :: h == g
  {
    hide WalkLists;
    var w := ReadGroupsAreReached(s, q, scan, paths, g);
    var v := w.vertices[|w.vertices| - 1];
    TicketWalk.EligibleIsOwnedInSight(TicketTables(s), WalkQuery(s, q).hidden, v);
    var h, d :| Owners(s, v) == map[h := d] && d !in WalkQuery(s, q).hidden;
    assert g in Owners(s, v) && forall x :: x in Owners(s, v) ==> x == h;
    var t := s.hierarchy.vertices[v];
    forall x | x in s.groupScopes && x in s.hierarchy.groups && t in s.hierarchy.groups[x] ensures x == g {
      assert x in Owners(s, v);
    }
  }

  /** With no path cut and none too deep, every group at the end of a visible walk of any length is read. */
  lemma ReachedGroupsAreRead(s: Store, q: TicketQuery, scan: TicketWalk.Scan, paths: seq<Graphs.Walk>,
                             w: Graphs.Walk, g: int)
    requires WalkLists(s, q, scan, paths) && TicketWalk.VisibleWalk(TicketTables(s), WalkQuery(s, q), w)
             && EndsAt(s, w, g)
    requires !TicketWalk.DepthLimitReached(TicketTables(s), WalkQuery(s, q))
             && !TicketWalk.PathLimitReached(WalkQuery(s, q), paths)
    ensures GroupRead(s, q, paths, g)
  {
    var t, k := TicketTables(s), WalkQuery(s, q);
    if w.vertices[0] != w.vertices[|w.edges|] {
      var a := TicketWalk.VisiblePathOf(t, k, w);
      TicketWalk.NoDepthFlagMeansComplete(t, k, a);
      TicketWalk.ListedOnce(t, k, scan, paths);
      assert a in TicketWalk.Selected(k, paths) && EndsAt(s, a, g);
    }
  }

  lemma TicketAnswers(s: Store, v: Services, a: Anchor)
    requires Answers(s, v) && a.ticket.Some?
    ensures TicketsReturn(s, QueryOf(a, a.ticket.value), TicketAnswer(v, a))
    ensures forall u :: u in v.listAbout(a.ticket.value) <==> (u, a.ticket.value) in s.about
  {
  }

  /** What a ticket allows belongs to it. */
  lemma AllowedBelongs(s: Store, v: Services, a: Anchor, c: Claim)
    requires Consistent(s) && Answers(s, v) && a.ticket.Some? && c in s.rows && c.current
             && c.uuid in TicketUuids(v, a).value
    ensures BelongsWithin(s, a, c, a.widenDepth)
  {
    hide Answers, GroupRead, OfGroupsRead;
    TicketAnswers(s, v, a);
    if (c.uuid, a.ticket.value) !in s.about {
      var q, r := QueryOf(a, a.ticket.value), TicketAnswer(v, a);
      var scan, paths :| WalkLists(s, q, scan, paths) && ReadsFrom(s, q, paths, r);
      var d: Claim :| d.uuid == c.uuid && OfGroupsRead(s, q, paths, d);
      OneCurrentRow(s, q, paths, c, d);
      var w := ReadGroupsAreReached(s, q, scan, paths, c.group);
      assert OwnerReached(s, a, a.ticket.value, c, w);
    }
  }

  lemma OneCurrentRow(s: Store, q: TicketQuery, paths: seq<Graphs.Walk>, c: Claim, d: Claim)
    requires Consistent(s) && c in s.rows && c.current && OfGroupsRead(s, q, paths, d) && d.uuid == c.uuid
    ensures c == d && GroupRead(s, q, paths, c.group)
  {
  }

  /** With none of its flags up, a ticket allows every eligible memory that belongs to it at whatever depth. */
  lemma BelongingIsAllowed(s: Store, v: Services, a: Anchor, c: Claim)
    requires Consistent(s) && Answers(s, v) && a.ticket.Some? && !TicketCut(v, a) && !TicketDeep(v, a)
    requires c in s.rows && Eligible(a, c) && Belongs(s, a, c)
    ensures c.uuid in TicketUuids(v, a).value
  {
    hide Answers, GroupRead, Consistent;
    TicketAnswers(s, v, a);
    if (c.uuid, a.ticket.value) !in s.about {
      var q, r := QueryOf(a, a.ticket.value), TicketAnswer(v, a);
      var depth: nat :| BelongsWithin(s, a, c, depth);
      var w :| OwnerReached(s, a, a.ticket.value, c, w);
      var scan, paths :| WalkLists(s, q, scan, paths) && ReadsFrom(s, q, paths, r);
      ReachedGroupsAreRead(s, q, scan, paths, w, c.group);
      StagesAgree(a, a.ticket.value, None, {}, c);
      assert OfGroupsRead(s, q, paths, c);
    }
  }

  // ----- anchors and reached memories

  /**
   A supplied ticket never broadens the search: each anchor refers to it, or its group owns a ticket visibly reached
   within the depth.
   */
  lemma TicketNarrows(s: Store, v: Services, a: Anchor, c: Claim)
    requires Consistent(s) && Answers(s, v) && c in Anchors(v, a)
    ensures Anchored(a, c) && BelongsWithin(s, a, c, a.widenDepth)
  {
    var uuids := TicketUuids(v, a);
    var q := AnchorSearch(FilterFrom(a), NotBlank(a.repo), NotBlank(a.initiative), a.tags, uuids);
    assert SearchReturns(s, q, v.search(q));
    StagesAgree(a, TicketHierarchy.Ticket("", ""), uuids, {}, c);
    if a.ticket.Some? { AllowedBelongs(s, v, a, c); }
  }

  /** With no ceiling hit and no ticket path cut, every eligible match is an anchor. */
  lemma NoAnchorMissing(s: Store, v: Services, a: Anchor, c: Claim)
    requires Consistent(s) && Answers(s, v) && c in s.rows && Eligible(a, c) && Anchored(a, c) && Belongs(s, a, c)
    requires |Anchors(v, a)| < MAX_LIMIT && !TicketCut(v, a) && !TicketDeep(v, a)
    ensures c in Anchors(v, a)
  {
    if a.ticket.Some? { BelongingIsAllowed(s, v, a, c); }
    var uuids := TicketUuids(v, a);
    var q := AnchorSearch(FilterFrom(a), NotBlank(a.repo), NotBlank(a.initiative), a.tags, uuids);
    assert SearchReturns(s, q, v.search(q));
    StagesAgree(a, TicketHierarchy.Ticket("", ""), uuids, {}, c);
  }

  ghost function WideningFrom(s: Store, a: Anchor, sources: set<int>): Widening.Query {
    WideningQuery(WidenFrom(FilterFrom(a), sources, a.widenDepth))
  }

  /** With no ceiling hit, no eligible memory within the depth of an anchor is missing. */
  lemma NothingMissing(s: Store, v: Services, a: Anchor, c: Claim)
    requires Consistent(s) && Answers(s, v) && c in s.rows && Eligible(a, c)
    requires Anchors(v, a) != [] && !Widened(v, a).limitReached && c.uuid !in Uuids(Anchors(v, a))
    ensures c.uuid in Widening.Ball(WideningOf(s), WideningFrom(s, a, Uuids(Anchors(v, a))), a.widenDepth) <==>
            c in Reaches(v, a)
  {
    var sources := Uuids(Matched(v, a));
    var w := WidenFrom(FilterFrom(a), sources, a.widenDepth);
    assert WidenReturns(s, w, v.widen(w));
    StagesAgree(a, TicketHierarchy.Ticket("", ""), None, sources, c);
    HiddenIsNotEligible(a, c);
    Widening.ReachedIsBreadthFirst(WideningOf(s), WideningQuery(w), c.uuid);
  }

  // ----- what the disclosed limits are worth

  datatype LimitHit = DepthReached(bound: nat) | CapReached(bound: nat)

  method BuildLimitsHit(selection: Selection, a: Anchor) returns (hits: seq<LimitHit>)
    ensures DepthReached(a.widenDepth) in hits <==> selection.depthLimitReached
    ensures CapReached(a.itemLimit) in hits <==> selection.limitReached || |selection.selected| >= a.itemLimit
    ensures hits == [] <==> Unlimited(selection, a)
  {
    hits := [];
    if selection.depthLimitReached {
      hits := hits + [DepthReached(a.widenDepth)];
    }
    if selection.limitReached || |selection.selected| >= a.itemLimit {
      hits := hits + [CapReached(a.itemLimit)];
    }
  }

  predicate Unlimited(selection: Selection, a: Anchor) {
    !selection.depthLimitReached && !selection.limitReached && |selection.selected| < a.itemLimit
  }

  /** The memories a dossier is asked for: eligible, matching, and belonging to the ticket if one is supplied. */
  ghost predicate Matches(s: Store, a: Anchor, c: Claim) {
    c in s.rows && Eligible(a, c) && Anchored(a, c) && Belongs(s, a, c)
  }

  ghost function MatchUuids(s: Store, a: Anchor): set<int> {
    set c | c in s.rows && Matches(s, a, c) :: c.uuid
  }

  /** Within some number of visible hops of a source, however many. */
  ghost predicate LinkedFrom(s: Store, a: Anchor, sources: set<int>, uuid: int) {
    exists k: nat :: uuid in Widening.Ball(WideningOf(s), WideningFrom(s, a, sources), k)
  }

  lemma AnchorsMatch(s: Store, v: Services, a: Anchor, c: Claim)
    requires Consistent(s) && Answers(s, v) && c in Anchors(v, a)
    ensures Matches(s, a, c)
  {
    SelectedAreEligible(s, v, a, c);
    TicketNarrows(s, v, a, c);
  }

  /** With no limit disclosed the anchors are exactly the matches. */
  lemma AnchorsAreMatches(s: Store, v: Services, a: Anchor)
    requires Consistent(s) && Answers(s, v) && |Anchors(v, a)| < MAX_LIMIT && !TicketCut(v, a) && !TicketDeep(v, a)
    ensures forall c :: c in Anchors(v, a) <==> Matches(s, a, c)
    ensures Uuids(Anchors(v, a)) == MatchUuids(s, a)
  {
    hide Matches, Answers, Consistent;
    forall c ensures c in Anchors(v, a) <==> Matches(s, a, c) {
      if c in Anchors(v, a) { AnchorsMatch(s, v, a, c); }
      if Matches(s, a, c) { MatchesAreAnchors(s, v, a, c); }
    }
    MatchesAreRows(s, a);
  }

  lemma MatchesAreAnchors(s: Store, v: Services, a: Anchor, c: Claim)
    requires Consistent(s) && Answers(s, v) && Matches(s, a, c)
    requires |Anchors(v, a)| < MAX_LIMIT && !TicketCut(v, a) && !TicketDeep(v, a)
    ensures c in Anchors(v, a)
  {
    NoAnchorMissing(s, v, a, c);
  }

  lemma MatchesAreRows(s: Store, a: Anchor)
    ensures forall c | Matches(s, a, c) :: c in s.rows
  {
  }

  lemma {:induction false} NoSourceReachesNothing(t: Widening.Tables, q: Widening.Query, k: nat)
    requires q.sources == {}
    ensures Widening.Ball(t, q, k) == {}
  {
    if k > 0 {
      NoSourceReachesNothing(t, q, k - 1);
      forall u ensures u !in Widening.Ball(t, q, k) {
        Widening.NeighbourByEdge(Widening.VisibleLinks(t, q.hidden), q.direction, {}, u);
      }
    }
  }

  /** With the widening's flags down, what it reached is every eligible memory at any distance that is not an anchor. */
  lemma ReachedAtAnyDistance(s: Store, v: Services, a: Anchor, c: Claim)
    requires Consistent(s) && Answers(s, v) && c in s.rows && Eligible(a, c) && a.widenDepth >= 1
    requires Anchors(v, a) != [] && !Widened(v, a).limitReached && !Widened(v, a).depthLimitReached
             && c.uuid !in Uuids(Anchors(v, a))
    ensures c in Reaches(v, a) <==> LinkedFrom(s, a, Uuids(Anchors(v, a)), c.uuid)
  {
    var w := WidenFrom(FilterFrom(a), Uuids(Matched(v, a)), a.widenDepth);
    assert WidenReturns(s, w, v.widen(w));
    var t, q := WideningOf(s), WideningQuery(w);
    NothingMissing(s, v, a, c);
    if k: nat :| c.uuid in Widening.Ball(t, q, k) {
      Widening.NoDepthFlagMeansClosed(t, q, k, c.uuid);
      Widening.ReachedIsBreadthFirst(t, q, c.uuid);
    }
  }

  /**
   A dossier that discloses no limit, empty or not, is exactly the eligible memories that match, or are linked at any
   distance to one that does; with a ticket, those of every group whose ticket is visibly reached at any depth are
   among the matches.
   */
  lemma UndisclosedIsComplete(s: Store, v: Services, a: Anchor, r: Selection, c: Claim)
    requires Consistent(s) && Answers(s, v) && a.itemLimit == MAX_LIMIT && a.widenDepth >= 1
    requires Resolved(s, v, a, r) && Unlimited(r, a)
    ensures c in Memories(r.selected) <==>
            c in s.rows && Eligible(a, c) && (Matches(s, a, c) || LinkedFrom(s, a, MatchUuids(s, a), c.uuid))
  {
    hide Answers, Consistent, Eligible, Matches, Memories, MatchUuids, Uuids, TicketCut, TicketDeep, LinkedFrom;
    AnchorsAreMatches(s, v, a);
    if c in Anchors(v, a) || c in Reaches(v, a) { SelectedAreEligible(s, v, a, c); }
    if c in s.rows && Eligible(a, c) && c !in Anchors(v, a) {
      if Anchors(v, a) == [] {
        NoMatchNoLink(s, v, a, c.uuid);
      } else {
        OnlyRowOfItsMemory(s, v, a, c);
        ReachedAtAnyDistance(s, v, a, c);
      }
    }
  }

  /**
   A widened memory was reached from an anchor over stored links within the depth, past no programme memory unless
   the programme was asked for.
   */
  lemma ReachedPastNoProgram(s: Store, v: Services, a: Anchor, c: Claim) returns (w: Graphs.Walk)
    requires Answers(s, v) && c in Reaches(v, a)
    ensures Graphs.IsWalk(LinkArcs(s.links), Graphs.Outbound, w) && 1 <= |w.edges| <= a.widenDepth
    ensures w.vertices[0] in Uuids(Anchors(v, a)) && c.uuid in w.vertices
    ensures forall u | u in w.vertices && u in s.scopes && s.scopes[u] == "program" :: a.scope == Some("program")
  {
    var q := WidenFrom(FilterFrom(a), Uuids(Matched(v, a)), a.widenDepth);
    assert WidenReturns(s, q, v.widen(q));
    var t, k := WideningOf(s), WideningQuery(q);
    w :| Widening.Surviving(t, k, w) && c.uuid in w.vertices;
    QueriesOnAnchor(a, TicketHierarchy.Ticket("", ""), None, {});
    forall u | u in w.vertices && u in s.scopes && s.scopes[u] == "program" ensures a.scope == Some("program") {
      assert !Widening.IsHidden(t, k.hidden, u);
      assert "program" in k.hidden <==> "program" in FilterFrom(a).hidden;
    }
  }

  /** One stored link on from a match: an eligible memory at its target is in a dossier that discloses no limit. */
  lemma NextLinkIsSelected(s: Store, v: Services, a: Anchor, r: Selection, m: Claim, c: Claim, link: Relationship)
    requires Consistent(s) && Answers(s, v) && a.itemLimit == MAX_LIMIT && a.widenDepth >= 1
    requires Resolved(s, v, a, r) && Unlimited(r, a)
    requires Matches(s, a, m) && link in s.links && link.source == m.uuid && link.target == c.uuid && c in s.rows
             && Eligible(a, c)
    ensures c in Memories(r.selected)
  {
    hide Resolved, Unlimited, Eligible, Matches, Memories;
    UndisclosedIsComplete(s, v, a, r, c);
    var t, q := WideningOf(s), WideningFrom(s, a, MatchUuids(s, a));
    MatchesAreRows(s, a);
    MatchIsEligible(s, a, m);
    SeenByAll(s, a, m);
    SeenByAll(s, a, c);
    var i :| 0 <= i < |s.links| && s.links[i] == link;
    assert m.uuid in Widening.Ball(t, q, 0);
    ViewsOfTheStore(s, i, m.uuid, c.uuid, 0, TicketHierarchy.Ticket("", ""));
    assert Graphs.Crosses(Widening.VisibleLinks(t, q.hidden), q.direction, i, m.uuid, c.uuid);
    Widening.NeighbourByEdge(Widening.VisibleLinks(t, q.hidden), q.direction, Widening.Ball(t, q, 0), c.uuid);
    assert c.uuid in Widening.Ball(t, q, 1);
  }

  lemma MatchIsEligible(s: Store, a: Anchor, m: Claim)
    requires Matches(s, a, m)
    ensures m in s.rows && Eligible(a, m)
  {
  }

  lemma SeenByAll(s: Store, a: Anchor, c: Claim)
    requires Consistent(s) && c in s.rows && Eligible(a, c)
    ensures !Widening.IsHidden(WideningOf(s), WideningFrom(s, a, MatchUuids(s, a)).hidden, c.uuid)
  {
    HiddenIsNotEligible(a, c);
  }

  lemma NoMatchNoLink(s: Store, v: Services, a: Anchor, uuid: int)
    requires Anchors(v, a) == [] && Uuids(Anchors(v, a)) == MatchUuids(s, a)
    ensures !LinkedFrom(s, a, MatchUuids(s, a), uuid)
  {
    forall k: nat
      ensures uuid !in Widening.Ball(WideningOf(s), WideningFrom(s, a, MatchUuids(s, a)), k)
    {
      NoSourceReachesNothing(WideningOf(s), WideningFrom(s, a, MatchUuids(s, a)), k);
    }
  }

  lemma OnlyRowOfItsMemory(s: Store, v: Services, a: Anchor, c: Claim)
    requires Consistent(s) && Answers(s, v) && c in s.rows && Eligible(a, c) && c !in Anchors(v, a)
    ensures c.uuid !in Uuids(Anchors(v, a))
  {
    AnchorsAreDistinct(s, v, a);
  }
}
