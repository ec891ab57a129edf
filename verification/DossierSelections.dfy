/**
 Selecting the memories of a dossier: anchors found by search, possibly narrowed by a ticket, then widened over
 the link graph. Three queries are built from one filter; the result is ordered by provenance.
 */
module DossierSelections {
  import opened Common
  import opened Sorting
  import Graphs
  import TicketHierarchy
  import TicketWalk
  import Widening = MemoryWidening

  type Ticket = TicketHierarchy.Ticket

  const PROGRAM := "program"
  const PROPOSED := "proposed"
  const MAX_LIMIT: nat := 200

  /** A version row joined with its memory and group. */
  datatype Claim = Claim(uuid: int, group: int, scope: string, repo: string, initiative: string, tags: set<string>,
                         kind: string, status: string, current: bool, version: int, validFrom: int,
                         validUntil: Option<int>, createdOn: int)

  datatype Relationship = Relationship(source: int, target: int, relation: string, reason: string)

  datatype Anchor = Anchor(repo: Option<string>, initiative: Option<string>, ticket: Option<Ticket>, tags: seq<string>,
                           kind: Option<string>, status: Option<string>, scope: Option<string>, asOf: Option<int>,
                           widenDepth: nat, itemLimit: nat)

  // ----- the scope rule

  /** At most one required dimension, and dimensions to exclude. */
  datatype ScopePlan = ScopePlan(required: Option<string>, excluded: seq<string>)

  function NotBlank(s: Option<string>): Option<string> {
    if s.Some? && !Blank(s.value) then s else None
  }

  function Plan(requested: Option<string>, hasGroupContext: bool): ScopePlan {
    if hasGroupContext then ScopePlan(None, [])
    else if NotBlank(requested).Some? then ScopePlan(requested, [])
    else ScopePlan(None, [PROGRAM])
  }

  /** Dimensions not to be disclosed even as a hop of a path. */
  function HiddenDimensions(requested: Option<string>, hasGroupContext: bool): seq<string> {
    if hasGroupContext || requested == Some(PROGRAM) then [] else [PROGRAM]
  }

  predicate IncludeGroup(dimension: string, requested: Option<string>, hasGroupContext: bool) {
    var plan := Plan(requested, hasGroupContext);
    if plan.required.Some? then dimension == plan.required.value else dimension !in plan.excluded
  }

  // ----- one filter, three queries

  datatype Filter = Filter(kind: Option<string>, status: Option<string>, excludeProposed: bool,
                           required: Option<string>, excluded: seq<string>, hidden: seq<string>, asOf: Option<int>)

  datatype TicketQuery = TicketQuery(ticket: Ticket, maxDepth: nat, required: Option<string>, hidden: seq<string>,
                                     kind: Option<string>, status: Option<string>, excludeProposed: bool,
                                     pathLimit: nat, memoryLimit: nat)

  datatype SearchCriteria = SearchCriteria(repo: Option<string>, initiative: Option<string>, tags: seq<string>,
                                           kind: Option<string>, status: Option<string>, excludeProposed: bool,
                                           required: Option<string>, excluded: seq<string>, currentOnly: bool,
                                           asOf: Option<int>, limit: nat, uuids: Option<set<int>>)

  datatype WidenQuery = WidenQuery(sources: set<int>, maxDepth: nat, required: Option<string>, hidden: seq<string>,
                                   kind: Option<string>, status: Option<string>, excludeProposed: bool,
                                   asOf: Option<int>, limit: nat)

  function FilterFrom(a: Anchor): Filter {
    var plan := Plan(a.scope, false);
    Filter(NotBlank(a.kind), NotBlank(a.status), true, plan.required, plan.excluded,
           HiddenDimensions(a.scope, false), a.asOf)
  }

  function TicketTraversal(f: Filter, ticket: Ticket, maxDepth: nat): TicketQuery {
    TicketQuery(ticket, maxDepth, f.required, f.hidden, f.kind, f.status, f.excludeProposed, MAX_LIMIT, MAX_LIMIT)
  }

  function AnchorSearch(f: Filter, repo: Option<string>, initiative: Option<string>, tags: seq<string>,
                        uuids: Option<set<int>>): SearchCriteria {
    SearchCriteria(repo, initiative, tags, f.kind, f.status, f.excludeProposed, f.required, f.excluded, true, f.asOf,
                   MAX_LIMIT, uuids)
  }

  function WidenFrom(f: Filter, sources: set<int>, maxDepth: nat): WidenQuery {
    WidenQuery(sources, maxDepth, f.required, f.hidden, f.kind, f.status, f.excludeProposed, f.asOf, MAX_LIMIT)
  }

  predicate StatusAllowed(status: Option<string>, excludeProposed: bool, c: Claim) {
    if status.Some? then c.status == status.value else !excludeProposed || c.status != PROPOSED
  }

  predicate ValidAt(asOf: Option<int>, c: Claim) {
    asOf.Some? ==> c.validFrom <= asOf.value && (c.validUntil.Some? ==> c.validUntil.value > asOf.value)
  }

  predicate Is(wanted: Option<string>, value: string) {
    wanted.Some? ==> value == wanted.value
  }

  /** What the search statement's WHERE clauses admit. An empty uuid list narrows nothing. */
  predicate SearchAdmits(q: SearchCriteria, c: Claim) {
    && (q.currentOnly ==> c.current)
    && Is(q.kind, c.kind) && StatusAllowed(q.status, q.excludeProposed, c) && ValidAt(q.asOf, c)
    && Is(q.required, c.scope) && c.scope !in q.excluded
    && (q.uuids.Some? && q.uuids.value != {} ==> c.uuid in q.uuids.value)
    && Is(q.repo, c.repo) && Is(q.initiative, c.initiative)
    && (q.tags != [] ==> exists t :: t in q.tags && t in c.tags)
  }

  /** What the widening statement admits of a memory on some surviving path. */
  predicate WidenAdmits(q: WidenQuery, c: Claim) {
    c.current && c.uuid !in q.sources && Is(q.required, c.scope) && Is(q.kind, c.kind)
    && StatusAllowed(q.status, q.excludeProposed, c) && ValidAt(q.asOf, c)
  }

  /** What the ticket traversal admits of a memory of a selected group. */
  predicate TicketAdmits(q: TicketQuery, c: Claim) {
    c.current && StatusAllowed(q.status, q.excludeProposed, c) && Is(q.kind, c.kind) && Is(q.required, c.scope)
      && c.scope !in q.hidden
  }

  /**
   The rule a dossier promises: current, of the kind and status asked for or at least not proposed, in scope, valid
   at the time.
   */
  predicate Eligible(a: Anchor, c: Claim) {
    && c.current
    && Is(NotBlank(a.kind), c.kind)
    && (if NotBlank(a.status).Some? then c.status == a.status.value else c.status != PROPOSED)
    && (if NotBlank(a.scope).Some? then c.scope == a.scope.value else c.scope != PROGRAM)
    && ValidAt(a.asOf, c)
  }

  predicate Anchored(a: Anchor, c: Claim) {
    Is(NotBlank(a.repo), c.repo) && Is(NotBlank(a.initiative), c.initiative)
      && (a.tags != [] ==> exists t :: t in a.tags && t in c.tags)
  }

  lemma HiddenIsNotEligible(a: Anchor, c: Claim)
    requires Eligible(a, c)
    ensures c.scope !in FilterFrom(a).hidden
  {
    assert Blank(PROGRAM) ==> IsSpace(PROGRAM[0]);
  }

  /**
   Whichever stage finds a memory, it answers for the same rule: the three statements admit exactly the eligible
   ones.
   */
  lemma StagesAgree(a: Anchor, ticket: Ticket, uuids: Option<set<int>>, sources: set<int>, c: Claim)
    ensures var f := FilterFrom(a);
            && (SearchAdmits(AnchorSearch(f, NotBlank(a.repo), NotBlank(a.initiative), a.tags, uuids), c)
                <==> Eligible(a, c) && Anchored(a, c) && (uuids.Some? && uuids.value != {} ==> c.uuid in uuids.value))
            && (c.scope !in f.hidden ==>
                  (WidenAdmits(WidenFrom(f, sources, a.widenDepth), c) <==> Eligible(a, c) && c.uuid !in sources))
            && (ValidAt(a.asOf, c) ==>
                  (TicketAdmits(TicketTraversal(f, ticket, a.widenDepth), c) <==> Eligible(a, c)))
  {
    assert Blank(PROGRAM) ==> IsSpace(PROGRAM[0]);
    if Eligible(a, c) { HiddenIsNotEligible(a, c); }
  }

  /** The readable form of the scope rule, an open read and an explicit one. */
  lemma ScopeRule(requested: Option<string>, dimension: string)
    ensures IncludeGroup(dimension, requested, false) <==>
            if NotBlank(requested).Some? then dimension == requested.value else dimension != PROGRAM
    ensures IncludeGroup(dimension, requested, true)
    ensures dimension in HiddenDimensions(requested, false) <==> dimension == "program" && requested != Some("program")
    ensures HiddenDimensions(requested, true) == []
    ensures IncludeGroup(dimension, requested, false) ==> dimension !in HiddenDimensions(requested, false)
  {
    assert Blank(PROGRAM) ==> IsSpace(PROGRAM[0]);
  }

  // ----- the stores and the services over them

  /**
   Memories with their groups' scopes, all version rows, the link edges, the groups' own scopes, the tickets with
   their owning groups and parent edges, and which memory refers to which ticket.
   */
  datatype Store = Store(scopes: map<int, string>, rows: seq<Claim>, links: seq<Relationship>,
                         groupScopes: map<int, string>, hierarchy: TicketHierarchy.State, about: set<(int, Ticket)>)

  /** Rows carry their memory's and their group's scope, and a memory has one current row. */
  ghost predicate Consistent(s: Store) {
    && (forall c | c in s.rows :: c.uuid in s.scopes && s.scopes[c.uuid] == c.scope)
    && (forall c | c in s.rows :: c.group in s.groupScopes && s.groupScopes[c.group] == c.scope)
    && (forall c, d | c in s.rows && d in s.rows && c.current && d.current && c.uuid == d.uuid :: c == d)
  }

  /** A page of the rows the criteria admit, and all of them when the page is not full. */
  ghost predicate SearchReturns(s: Store, q: SearchCriteria, page: seq<Claim>) {
    && NoRepeats(page) && |page| <= q.limit
    && (forall c | c in page :: c in s.rows && SearchAdmits(q, c))
    && (|page| < q.limit ==> forall c | c in s.rows && SearchAdmits(q, c) :: c in page)
  }

  ghost function LinkArcs(links: seq<Relationship>): Graphs.Arcs {
    map i | 0 <= i < |links| :: Graphs.Arc(links[i].source, links[i].target)
  }

  ghost function WideningOf(s: Store): Widening.Tables {
    Widening.Tables(LinkArcs(s.links), s.scopes)
  }

  ghost function WideningQuery(q: WidenQuery): Widening.Query {
    Widening.Query(q.sources, Graphs.Outbound, Elements(q.hidden), q.maxDepth)
  }

  datatype WidenResult = WidenResult(memories: seq<Claim>, depthLimitReached: bool, hiddenPathDropped: bool,
                                     limitReached: bool)

  datatype TicketResult = TicketResult(items: seq<int>, depthLimitReached: bool, memoryLimitReached: bool,
                                       pathLimitReached: bool)

  /** The abstractions the selection reads through. */
  datatype Services = Services(search: SearchCriteria -> seq<Claim>, widen: WidenQuery -> WidenResult,
                               traverseTickets: TicketQuery -> TicketResult, listAbout: Ticket -> seq<int>,
                               listTouching: int -> seq<Relationship>)

  ghost predicate WidenReturns(s: Store, q: WidenQuery, r: WidenResult) {
    && NoRepeats(r.memories) && |r.memories| <= q.limit
    && (forall c | c in r.memories ::
          c in s.rows && WidenAdmits(q, c) && Widening.Reached(WideningOf(s), WideningQuery(q), c.uuid))
    && (r.depthLimitReached <==> Widening.DepthLimitReached(WideningOf(s), WideningQuery(q)))
    && (r.hiddenPathDropped <==> Widening.HiddenPathDropped(WideningOf(s), WideningQuery(q)))
    && (!r.limitReached ==>
        forall c | c in s.rows && WidenAdmits(q, c) && Widening.Reached(WideningOf(s), WideningQuery(q), c.uuid) ::
          c in r.memories)
  }

  // ----- the ticket traversal over the store

  /** Group g lists the ticket of vertex v among its own. */
  predicate Lists(s: Store, g: int, v: int) {
    v in s.hierarchy.vertices && g in s.groupScopes && g in s.hierarchy.groups
      && s.hierarchy.vertices[v] in s.hierarchy.groups[g]
  }

  function Owners(s: Store, v: int): map<int, string> {
    map g | g in s.groupScopes && Lists(s, g, v) :: s.groupScopes[g]
  }

  ghost function TicketTables(s: Store): TicketWalk.Tables {
    TicketWalk.Tables(TicketHierarchy.ArcsOf(s.hierarchy.edges), map v | v in s.hierarchy.vertices :: Owners(s, v))
  }

  function VerticesOf(s: Store, ticket: Ticket): set<int> {
    set v | v in s.hierarchy.vertices && s.hierarchy.vertices[v] == ticket
  }

  ghost function WalkQuery(s: Store, q: TicketQuery): TicketWalk.Query {
    TicketWalk.Query(VerticesOf(s, q.ticket), Graphs.Outbound, Elements(q.hidden), q.maxDepth, q.pathLimit)
  }

  /** The walk ends at a ticket of group g. */
  ghost predicate EndsAt(s: Store, w: Graphs.Walk, g: int) {
    w.vertices != [] && Lists(s, g, w.vertices[|w.vertices| - 1])
  }

  /** The groups read: the owner of an eligible anchor ticket, and the owners at the ends of the selected paths. */
  ghost predicate GroupRead(s: Store, q: TicketQuery, paths: seq<Graphs.Walk>, g: int) {
    || (exists v ::
          v in WalkQuery(s, q).anchors && TicketWalk.Eligible(TicketTables(s), WalkQuery(s, q).hidden, v)
            && Lists(s, g, v))
    || exists w :: w in TicketWalk.Selected(WalkQuery(s, q), paths) && EndsAt(s, w, g)
  }

  ghost predicate OfGroupsRead(s: Store, q: TicketQuery, paths: seq<Graphs.Walk>, c: Claim) {
    c in s.rows && TicketAdmits(q, c) && GroupRead(s, q, paths, c.group)
  }

  /** From the paths the walk lists: the admitted memories of the groups read, up to the limit, and the three flags. */
  ghost predicate ReadsFrom(s: Store, q: TicketQuery, paths: seq<Graphs.Walk>, r: TicketResult) {
    && |r.items| <= q.memoryLimit
    && (forall u | u in r.items :: exists c: Claim :: c.uuid == u && OfGroupsRead(s, q, paths, c))
    && (r.memoryLimitReached <==> exists c: Claim :: OfGroupsRead(s, q, paths, c) && c.uuid !in r.items)
    && (r.depthLimitReached <==> TicketWalk.DepthLimitReached(TicketTables(s), WalkQuery(s, q)))
    && (r.pathLimitReached <==> TicketWalk.PathLimitReached(WalkQuery(s, q), paths))
  }

  ghost predicate WalkLists(s: Store, q: TicketQuery, scan: TicketWalk.Scan, paths: seq<Graphs.Walk>) {
    TicketWalk.Scans(TicketTables(s), WalkQuery(s, q), scan)
      && TicketWalk.Listing(TicketTables(s), WalkQuery(s, q), scan, paths)
  }

  ghost predicate TicketsReturn(s: Store, q: TicketQuery, r: TicketResult) {
    exists scan, paths :: WalkLists(s, q, scan, paths) && ReadsFrom(s, q, paths, r)
  }

  /**
   The services answer from the store: searching, the two traversals as proved of them, the references to a ticket
   and the edges at a memory.
   */
  ghost predicate Answers(s: Store, v: Services) {
    && (forall q :: SearchReturns(s, q, v.search(q)))
    && (forall q :: WidenReturns(s, q, v.widen(q)))
    && (forall q :: TicketsReturn(s, q, v.traverseTickets(q)))
    && (forall t, u :: u in v.listAbout(t) <==> (u, t) in s.about)
    && (forall u, r :: r in v.listTouching(u) <==> r in s.links && (r.source == u || r.target == u))
  }

  // ----- the edges among the selected

  predicate SameTriple(a: Relationship, b: Relationship) {
    a.source == b.source && a.target == b.target && a.relation == b.relation
  }

  predicate HasTriple(values: seq<Relationship>, r: Relationship) {
    exists x :: x in values && SameTriple(x, r)
  }

  function Selected(values: seq<Relationship>, uuids: set<int>): seq<Relationship> {
    if values == [] then []
    else
      var last := values[|values| - 1];
      Selected(values[..|values| - 1], uuids) + if last.source in uuids && last.target in uuids then [last] else []
  }

  ghost predicate DistinctTriples(values: seq<Relationship>) {
    forall i, j | 0 <= i < j < |values| :: !SameTriple(values[i], values[j])
  }

  lemma TripleStays(values: seq<Relationship>, more: seq<Relationship>, r: Relationship)
    requires HasTriple(values, r) && forall x | x in values :: x in more
    ensures HasTriple(more, r)
  {
    var x :| x in values && SameTriple(x, r);
    assert x in more;
  }

  lemma OneWithTriple(values: seq<Relationship>, x: Relationship, r: Relationship)
    requires DistinctTriples(values) && x in values && r in values && SameTriple(x, r)
    ensures x == r
  {
  }

  lemma {:induction false} SelectedHolds(values: seq<Relationship>, uuids: set<int>)
    ensures forall r :: r in Selected(values, uuids) <==> r in values && r.source in uuids && r.target in uuids
    ensures DistinctTriples(values) ==> DistinctTriples(Selected(values, uuids))
  {
    if values != [] {
      var init, last := values[..|values| - 1], values[|values| - 1];
      SelectedHolds(init, uuids);
      assert forall r :: r in values <==> r in init || r == last;
      if DistinctTriples(values) {
        forall i | 0 <= i < |Selected(init, uuids)| ensures !SameTriple(Selected(init, uuids)[i], last) {
          assert Selected(init, uuids)[i] in init;
        }
      }
    }
  }

  /** The rows touching one memory, each added unless its triple is already kept. */
  method AddTouching(byTriple: seq<Relationship>, touching: seq<Relationship>) returns (values: seq<Relationship>)
    requires DistinctTriples(byTriple)
    ensures DistinctTriples(values)
    ensures forall r | r in values :: r in byTriple || r in touching
    ensures forall r | r in byTriple :: r in values
    ensures forall r | r in touching :: HasTriple(values, r)
  {
    values := byTriple;
    for i := 0 to |touching|
      invariant DistinctTriples(values)
      invariant forall r | r in values :: r in byTriple || r in touching
      invariant forall r | r in byTriple :: r in values
      invariant forall j | 0 <= j < i :: HasTriple(values, touching[j])
    {
      var before := values;
      if !HasTriple(values, touching[i]) {
        values := values + [touching[i]];
      }
      forall j | 0 <= j < i ensures HasTriple(values, touching[j]) { TripleStays(before, values, touching[j]); }
      assert HasTriple(before, touching[i]) || touching[i] in values;
    }
  }

  /** Every stored edge with both ends among the uuids, once, however many rows show it. */
  method ListEdges(v: Services, ghost s: Store, uuids: set<int>) returns (edges: seq<Relationship>)
    requires Answers(s, v)
    ensures DistinctTriples(edges)
    ensures forall r | r in edges :: r in s.links && r.source in uuids && r.target in uuids
    ensures forall r | r in s.links && r.source in uuids && r.target in uuids :: HasTriple(edges, r)
    ensures forall i, j | 0 <= i < j < |edges| ::
              edges[i].source != edges[j].source || edges[i].target != edges[j].target
                || edges[i].relation != edges[j].relation
    ensures forall r | r in s.links && r.source in uuids && r.target in uuids ::
              exists x :: x in edges && x.source == r.source && x.target == r.target && x.relation == r.relation
  {
    var byTriple: seq<Relationship> := [];
    var rest := uuids;
    while rest != {}
      invariant rest <= uuids && DistinctTriples(byTriple)
      invariant forall r | r in byTriple :: r in s.links
      invariant forall r | r in s.links && r.source in uuids && r.source !in rest :: HasTriple(byTriple, r)
    {
      ghost var _ := Inhabited(rest);
      var u :| u in rest;
      var touching := v.listTouching(u);
      var before := byTriple;
      byTriple := AddTouching(byTriple, touching);
      rest := rest - {u};
      forall r | r in s.links && r.source in uuids && r.source !in rest ensures HasTriple(byTriple, r) {
        if r.source == u {
          assert r in touching;
        } else {
          TripleStays(before, byTriple, r);
        }
      }
    }
    edges := Selected(byTriple, uuids);
    SelectedHolds(byTriple, uuids);
    forall r | r in s.links && r.source in uuids && r.target in uuids ensures HasTriple(edges, r) {
      var x :| x in byTriple && SameTriple(x, r);
      assert x in edges;
    }
  }

  /** Where a link is identified by its triple, the listed edges are exactly the stored ones with both ends selected. */
  lemma ListedExactly(links: seq<Relationship>, edges: seq<Relationship>, uuids: set<int>)
    requires DistinctTriples(links)
    requires forall r | r in edges :: r in links && r.source in uuids && r.target in uuids
    requires forall r | r in links && r.source in uuids && r.target in uuids :: HasTriple(edges, r)
    ensures forall r :: r in edges <==> r in links && r.source in uuids && r.target in uuids
  {
    forall r | r in links && r.source in uuids && r.target in uuids ensures r in edges {
      hide DistinctTriples;
      var x :| x in edges && SameTriple(x, r);
      OneWithTriple(links, x, r);
    }
  }

  // ----- resolving a selection

  datatype SelectedClaim = SelectedClaim(memory: Claim, reachedVia: seq<string>)

  datatype Selection = Selection(selected: seq<SelectedClaim>, anchorCount: nat, widenedCount: nat,
                                 edges: seq<Relationship>, depthLimitReached: bool, hiddenPathDropped: bool,
                                 limitReached: bool, referencedAnchors: nat)

  /** Business-time validity, then capture time, then identity. */
  predicate ProvenanceBefore(a: Claim, b: Claim) {
    a.validFrom < b.validFrom
    || (a.validFrom == b.validFrom
        && (a.createdOn < b.createdOn || (a.createdOn == b.createdOn && a.uuid < b.uuid)))
  }

  function Uuid(c: Claim): int {
    c.uuid
  }

  function Memories(selected: seq<SelectedClaim>): seq<Claim> {
    seq(|selected|, i requires 0 <= i < |selected| => selected[i].memory)
  }

  function Uuids(claims: seq<Claim>): set<int> {
    set c | c in claims :: c.uuid
  }

  /** The identities a supplied ticket allows: those of its owned and hierarchy groups, and those referring to it. */
  function TicketUuids(v: Services, a: Anchor): Option<set<int>> {
    match a.ticket
    case None => None
    case Some(t) =>
      Some(Elements(v.traverseTickets(TicketTraversal(FilterFrom(a), t, a.widenDepth)).items)
           + Elements(v.listAbout(t)))
  }

  ghost function Matched(v: Services, a: Anchor): seq<Claim> {
    v.search(AnchorSearch(FilterFrom(a), NotBlank(a.repo), NotBlank(a.initiative), a.tags, TicketUuids(v, a)))
  }

  ghost function Widened(v: Services, a: Anchor): WidenResult {
    v.widen(WidenFrom(FilterFrom(a), Uuids(Matched(v, a)), a.widenDepth))
  }

  lemma CurrentRowsAreDistinct(s: Store, claims: seq<Claim>)
    requires Consistent(s) && NoRepeats(claims) && forall c | c in claims :: c in s.rows && c.current
    ensures DistinctBy(Uuid, claims)
  {
    forall i, j | 0 <= i < j < |claims| ensures Uuid(claims[i]) != Uuid(claims[j]) {
      assert claims[i] in claims && claims[j] in claims;
    }
  }

  lemma ProvenanceSeparates(claims: seq<Claim>)
    requires DistinctBy(Uuid, claims)
    ensures Separates(ProvenanceBefore, claims)
  {
    forall a, b | a in claims && b in claims && a != b ensures ProvenanceBefore(a, b) || ProvenanceBefore(b, a) {
      assert Uuid(a) != Uuid(b);
    }
  }

  /** What a dossier's anchors are: nothing when a supplied ticket allows no identity, else what the search matched. */
  ghost function Anchors(v: Services, a: Anchor): seq<Claim> {
    if TicketUuids(v, a) == Some({}) then [] else Matched(v, a)
  }

  ghost function Reaches(v: Services, a: Anchor): seq<Claim> {
    if Anchors(v, a) == [] then [] else Widened(v, a).memories
  }

  lemma {:induction false} UuidsCount(claims: seq<Claim>)
    requires DistinctBy(Uuid, claims)
    ensures |Uuids(claims)| == |claims|
  {
    if claims != [] {
      var init, last := claims[..|claims| - 1], claims[|claims| - 1];
      UuidsCount(init);
      assert claims == init + [last];
      assert Uuids(claims) == Uuids(init) + {last.uuid};
      assert forall i | 0 <= i < |init| :: Uuid(claims[i]) != Uuid(claims[|claims| - 1]);
    }
  }

  /** A dictionary's values, in whatever order it gives them. */
  method Values(byUuid: map<int, Claim>) returns (values: seq<Claim>)
    requires forall u | u in byUuid :: byUuid[u].uuid == u
    ensures DistinctBy(Uuid, values) && |values| == |byUuid|
    ensures forall c :: c in values <==> c.uuid in byUuid && byUuid[c.uuid] == c
  {
    values := [];
    var rest := byUuid.Keys;
    while rest != {}
      invariant rest <= byUuid.Keys && |values| + |rest| == |byUuid.Keys|
      invariant forall c :: c in values <==> c.uuid in byUuid && c.uuid !in rest && byUuid[c.uuid] == c
      invariant DistinctBy(Uuid, values)
    {
      ghost var _ := Inhabited(rest);
      var u :| u in rest;
      assert forall i | 0 <= i < |values| :: values[i] in values;
      values := values + [byUuid[u]];
      rest := rest - {u};
    }
    assert |byUuid.Keys| == |byUuid|;
  }

  lemma UuidsHold(claims: seq<Claim>)
    ensures forall c | c in claims :: c.uuid in Uuids(claims)
  {
  }

  lemma OneMoreUuid(claims: seq<Claim>, i: nat)
    requires i < |claims| && DistinctBy(Uuid, claims)
    ensures claims[i].uuid !in Uuids(claims[..i])
    ensures Uuids(claims[..i + 1]) == Uuids(claims[..i]) + {claims[i].uuid}
  {
    assert claims[..i + 1] == claims[..i] + [claims[i]];
    assert forall j | 0 <= j < i :: Uuid(claims[j]) != Uuid(claims[i]);
  }

  lemma NoUuids(claims: seq<Claim>)
    ensures Uuids(claims[..0]) == {} && claims[..|claims|] == claims
  {
  }

  method ByUuid(matched: seq<Claim>) returns (byUuid: map<int, Claim>)
    requires DistinctBy(Uuid, matched)
    ensures byUuid.Keys == Uuids(matched) && forall u | u in byUuid :: byUuid[u].uuid == u
    ensures forall i | 0 <= i < |matched| :: matched[i].uuid in byUuid && byUuid[matched[i].uuid] == matched[i]
  {
    hide Uuids, DistinctBy;
    byUuid := map[];
    NoUuids(matched);
    for i := 0 to |matched|
      invariant byUuid.Keys == Uuids(matched[..i]) && forall u | u in byUuid :: byUuid[u].uuid == u
      invariant forall j | 0 <= j < i :: matched[j].uuid in byUuid && byUuid[matched[j].uuid] == matched[j]
    {
      OneMoreUuid(matched, i);
      byUuid := byUuid[matched[i].uuid := matched[i]];
    }
  }

  /** The widened memories not already there. */
  method TryAddAll(anchors: map<int, Claim>, widened: seq<Claim>) returns (byUuid: map<int, Claim>)
    requires DistinctBy(Uuid, widened) && forall u | u in anchors :: anchors[u].uuid == u
    ensures byUuid.Keys == anchors.Keys + Uuids(widened) && forall u | u in byUuid :: byUuid[u].uuid == u
    ensures forall u | u in anchors :: byUuid[u] == anchors[u]
    ensures forall i | 0 <= i < |widened| && widened[i].uuid !in anchors :: byUuid[widened[i].uuid] == widened[i]
  {
    hide Uuids, DistinctBy;
    byUuid := anchors;
    NoUuids(widened);
    for i := 0 to |widened|
      invariant byUuid.Keys == anchors.Keys + Uuids(widened[..i]) && forall u | u in byUuid :: byUuid[u].uuid == u
      invariant forall u | u in anchors :: byUuid[u] == anchors[u]
      invariant forall j | 0 <= j < i && widened[j].uuid !in anchors ::
                  widened[j].uuid in byUuid && byUuid[widened[j].uuid] == widened[j]
    {
      OneMoreUuid(widened, i);
      if widened[i].uuid !in byUuid {
        byUuid := byUuid[widened[i].uuid := widened[i]];
      }
    }
  }

  /** Why each memory was added: the anchors. */
  method MarkAnchors(matched: seq<Claim>) returns (via: map<int, seq<string>>)
    requires DistinctBy(Uuid, matched)
    ensures via.Keys == Uuids(matched) && forall u | u in via :: via[u] == ["anchor"]
  {
    hide Uuids, DistinctBy;
    via := map[];
    NoUuids(matched);
    for i := 0 to |matched|
      invariant via.Keys == Uuids(matched[..i]) && forall u | u in via :: via[u] == ["anchor"]
    {
      OneMoreUuid(matched, i);
      via := via[matched[i].uuid := ["anchor"]];
    }
  }

  /** Why each memory was added: one more reason for those the widening reached. */
  method MarkWidened(anchors: map<int, seq<string>>, widened: seq<Claim>) returns (via: map<int, seq<string>>)
    requires DistinctBy(Uuid, widened)
    ensures via.Keys == anchors.Keys + Uuids(widened)
    ensures forall u | u in anchors && u !in Uuids(widened) :: via[u] == anchors[u]
    ensures forall u | u in Uuids(widened) :: via[u] == (if u in anchors then anchors[u] else []) + ["widen"]
  {
    hide Uuids, DistinctBy;
    via := anchors;
    NoUuids(widened);
    for i := 0 to |widened|
      invariant via.Keys == anchors.Keys + Uuids(widened[..i])
      invariant forall u | u in anchors && u !in Uuids(widened[..i]) :: via[u] == anchors[u]
      invariant forall u | u in Uuids(widened[..i]) :: via[u] == (if u in anchors then anchors[u] else []) + ["widen"]
    {
      OneMoreUuid(widened, i);
      var u := widened[i].uuid;
      if u !in via {
        via := via[u := []];
      }
      via := via[u := via[u] + ["widen"]];
    }
  }

  /** Every anchor and every widened memory once, in order of provenance, marked with how it was found. */
  ghost predicate Selects(selected: seq<SelectedClaim>, anchors: seq<Claim>, reached: seq<Claim>) {
    && DistinctBy(Uuid, Memories(selected)) && Ordered(ProvenanceBefore, Memories(selected))
    && (forall c :: c in Memories(selected) <==> c in anchors || c in reached)
    && (forall x | x in selected :: x.reachedVia == if x.memory in anchors then ["anchor"] else ["widen"])
    && |selected| == |anchors| + |reached|
  }

  lemma CollapsedAreUnion(byUuid: map<int, Claim>, matched: seq<Claim>, widened: seq<Claim>)
    requires Uuids(matched) !! Uuids(widened) && byUuid.Keys == Uuids(matched) + Uuids(widened)
    requires forall c | c in matched || c in widened :: c.uuid in byUuid && byUuid[c.uuid] == c
    requires DistinctBy(Uuid, matched) && DistinctBy(Uuid, widened)
    ensures forall c: Claim :: c.uuid in byUuid && byUuid[c.uuid] == c <==> c in matched || c in widened
    ensures |byUuid| == |matched| + |widened|
  {
    forall c: Claim | c.uuid in byUuid && byUuid[c.uuid] == c ensures c in matched || c in widened {
      if c.uuid in Uuids(matched) {
        var m :| m in matched && m.uuid == c.uuid;
        assert byUuid[m.uuid] == m;
      } else {
        var m :| m in widened && m.uuid == c.uuid;
        assert byUuid[m.uuid] == m;
      }
    }
    UuidsCount(matched);
    UuidsCount(widened);
    assert |byUuid.Keys| == |byUuid|;
  }

  /** The values in order of provenance, each with what the dictionary says of it. */
  method OrderClaims(values: seq<Claim>, via: map<int, seq<string>>) returns (selected: seq<SelectedClaim>)
    requires DistinctBy(Uuid, values) && forall c | c in values :: c.uuid in via
    ensures |selected| == |values|
    ensures DistinctBy(Uuid, Memories(selected)) && Ordered(ProvenanceBefore, Memories(selected))
    ensures forall c :: c in Memories(selected) <==> c in values
    ensures forall x | x in selected :: x.memory in values && x.reachedVia == via[x.memory.uuid]
  {
    var ordered := Sort(ProvenanceBefore, values);
    ProvenanceSeparates(values);
    SortIsOrdered(ProvenanceBefore, values);
    PermutationKeepsDistinct(Uuid, values, ordered);
    SameElements(values, ordered);
    assert forall i | 0 <= i < |ordered| :: ordered[i] in ordered;
    selected := seq(|ordered|, i requires 0 <= i < |ordered| && ordered[i].uuid in via =>
      SelectedClaim(ordered[i], via[ordered[i].uuid]));
    assert Memories(selected) == ordered;
  }

  lemma MarksTell(matched: seq<Claim>, widened: seq<Claim>, anchors: map<int, seq<string>>, via: map<int, seq<string>>)
    requires Uuids(matched) !! Uuids(widened) && anchors.Keys == Uuids(matched)
             && via.Keys == anchors.Keys + Uuids(widened)
    requires forall u | u in anchors :: anchors[u] == ["anchor"]
    requires forall u | u in anchors && u !in Uuids(widened) :: via[u] == anchors[u]
    requires forall u | u in Uuids(widened) :: via[u] == ["widen"]
    ensures forall c | c in matched || c in widened ::
              c.uuid in via && via[c.uuid] == if c in matched then ["anchor"] else ["widen"]
  {
    UuidsHold(matched);
    UuidsHold(widened);
  }

  method Select(matched: seq<Claim>, widened: seq<Claim>) returns (selected: seq<SelectedClaim>)
    requires DistinctBy(Uuid, matched) && DistinctBy(Uuid, widened) && Uuids(matched) !! Uuids(widened)
    ensures Selects(selected, matched, widened)
  {
    hide DistinctBy, Ordered, Memories, Uuids;
    var values, via := Collected(matched, widened);
    selected := OrderClaims(values, via);
  }

  /** The dictionary's values and the reasons, before ordering. */
  method Collected(matched: seq<Claim>, widened: seq<Claim>) returns (values: seq<Claim>, via: map<int, seq<string>>)
    requires DistinctBy(Uuid, matched) && DistinctBy(Uuid, widened) && Uuids(matched) !! Uuids(widened)
    ensures DistinctBy(Uuid, values) && |values| == |matched| + |widened|
    ensures forall c :: c in values <==> c in matched || c in widened
    ensures forall c | c in values :: c.uuid in via && via[c.uuid] == if c in matched then ["anchor"] else ["widen"]
  {
    hide DistinctBy, Uuids;
    var anchors := MarkAnchors(matched);
    via := MarkWidened(anchors, widened);
    MarksTell(matched, widened, anchors, via);
    var byUuid := ByUuid(matched);
    byUuid := TryAddAll(byUuid, widened);
    UuidsHold(matched);
    UuidsHold(widened);
    CollapsedAreUnion(byUuid, matched, widened);
    values := Values(byUuid);
  }

  lemma AnchorsAreDistinct(s: Store, v: Services, a: Anchor)
    requires Consistent(s) && Answers(s, v)
    ensures DistinctBy(Uuid, Matched(v, a)) && forall c | c in Matched(v, a) :: c in s.rows && c.current
  {
    var q := AnchorSearch(FilterFrom(a), NotBlank(a.repo), NotBlank(a.initiative), a.tags, TicketUuids(v, a));
    assert SearchReturns(s, q, v.search(q));
    CurrentRowsAreDistinct(s, Matched(v, a));
  }

  lemma WidenedAreDistinct(s: Store, v: Services, a: Anchor)
    requires Consistent(s) && Answers(s, v)
    ensures DistinctBy(Uuid, Widened(v, a).memories) && Uuids(Matched(v, a)) !! Uuids(Widened(v, a).memories)
  {
    var q := WidenFrom(FilterFrom(a), Uuids(Matched(v, a)), a.widenDepth);
    assert WidenReturns(s, q, v.widen(q));
    CurrentRowsAreDistinct(s, Widened(v, a).memories);
  }

  function TicketAnswer(v: Services, a: Anchor): TicketResult {
    match a.ticket
    case None => TicketResult([], false, false, false)
    case Some(t) => v.traverseTickets(TicketTraversal(FilterFrom(a), t, a.widenDepth))
  }

  ghost predicate TicketCut(v: Services, a: Anchor) {
    TicketAnswer(v, a).memoryLimitReached || TicketAnswer(v, a).pathLimitReached
  }

  ghost predicate TicketDeep(v: Services, a: Anchor) {
    TicketAnswer(v, a).depthLimitReached
  }

  /** Anchors that refer to the ticket without belonging to one of its groups. */
  ghost function ReferringOnly(v: Services, a: Anchor): set<int> {
    if a.ticket == None then {}
    else ReferencedOf(Anchors(v, a), Elements(v.listAbout(a.ticket.value)), Elements(TicketAnswer(v, a).items))
  }

  lemma NothingSelected()
    ensures Selects([], [], []) && DistinctTriples([]) && Uuids(Memories([])) == {}
  {
  }

  /** Anchors found through the reference edges alone. */
  function ReferencedOf(matched: seq<Claim>, referring: set<int>, owned: set<int>): set<int> {
    set c | c in matched && c.uuid in referring && c.uuid !in owned :: c.uuid
  }

  lemma SelectionSize(selected: seq<SelectedClaim>, anchors: seq<Claim>, reached: seq<Claim>)
    requires Selects(selected, anchors, reached)
    ensures |selected| == |anchors| + |reached|
  {
  }

  /**
   Counted as referenced: the anchors whose reference to the ticket is stored and which the traversal did not bring.
   */
  lemma ReferringOnStoredReferences(s: Store, v: Services, a: Anchor, u: int)
    requires Answers(s, v) && a.ticket.Some?
    ensures u in ReferringOnly(v, a) <==>
            && (exists c :: c in Anchors(v, a) && c.uuid == u) && (u, a.ticket.value) in s.about
            && u !in v.traverseTickets(TicketTraversal(FilterFrom(a), a.ticket.value, a.widenDepth)).items
  {
    assert u in Elements(v.listAbout(a.ticket.value)) <==> (u, a.ticket.value) in s.about;
  }

  lemma NobodyReferred(matched: seq<Claim>, referring: set<int>, owned: set<int>)
    requires matched == [] || referring == {}
    ensures ReferencedOf(matched, referring, owned) == {}
  {
  }

  /** What is selected, how it was found, its edges, its counts and its limits. */
  ghost predicate Resolved(s: Store, v: Services, a: Anchor, r: Selection) {
    && Selects(r.selected, Anchors(v, a), Reaches(v, a))
    && r.anchorCount == |Anchors(v, a)| && r.widenedCount == |Reaches(v, a)|
       && |r.selected| == r.anchorCount + r.widenedCount
    && DistinctTriples(r.edges)
    && (forall e | e in r.edges ::
          e in s.links && e.source in Uuids(Memories(r.selected)) && e.target in Uuids(Memories(r.selected)))
    && (forall e | e in s.links && e.source in Uuids(Memories(r.selected)) && e.target in Uuids(Memories(r.selected)) ::
          HasTriple(r.edges, e))
    && (r.limitReached <==> TicketCut(v, a) || (Anchors(v, a) != [] && Widened(v, a).limitReached))
    && (r.depthLimitReached <==> TicketDeep(v, a) || (Anchors(v, a) != [] && Widened(v, a).depthLimitReached))
    && (r.hiddenPathDropped <==> Anchors(v, a) != [] && Widened(v, a).hiddenPathDropped)
    && r.referencedAnchors == |ReferringOnly(v, a)|
  }

  /** The whole selection of an anchor set. */
  method Resolve(v: Services, ghost s: Store, a: Anchor) returns (r: Selection)
    requires Consistent(s) && Answers(s, v)
    ensures Resolved(s, v, a, r)
  {
    hide Answers, Consistent, Selects, FilterFrom, NotBlank, Elements, Uuids, Memories, DistinctTriples, DistinctBy;
    NothingSelected();
    NobodyReferred([], {}, {});
    if a.ticket.Some? { NobodyReferred([], Elements(v.listAbout(a.ticket.value)), Elements(TicketAnswer(v, a).items)); }
    var filter := FilterFrom(a);
    var ticketUuids: Option<set<int>> := None;
    var owned: set<int>, referring: set<int> := {}, {};
    var ticketDepth, ticketLimit := false, false;
    if a.ticket.Some? {
      var result := v.traverseTickets(TicketTraversal(filter, a.ticket.value, a.widenDepth));
      owned := Elements(result.items);
      referring := Elements(v.listAbout(a.ticket.value));
      ticketUuids := Some(owned + referring);
      ticketDepth := result.depthLimitReached;
      ticketLimit := result.memoryLimitReached || result.pathLimitReached;
    }
    if ticketUuids == Some({}) {
      return Selection([], 0, 0, [], ticketDepth, false, ticketLimit, 0);
    }
    AnchorsAreDistinct(s, v, a);
    WidenedAreDistinct(s, v, a);
    var matched := v.search(AnchorSearch(filter, NotBlank(a.repo), NotBlank(a.initiative), a.tags, ticketUuids));
    assert matched == Matched(v, a);
    var referenced := |ReferencedOf(matched, referring, owned)|;
    if a.ticket == None || matched == [] { NobodyReferred(matched, referring, owned); }
    if matched == [] {
      return Selection([], 0, 0, [], ticketDepth, false, ticketLimit, 0);
    }
    var widened := v.widen(WidenFrom(filter, Uuids(matched), a.widenDepth));
    assert widened == Widened(v, a);
    var selected := Select(matched, widened.memories);
    SelectionSize(selected, matched, widened.memories);
    var edges := ListEdges(v, s, Uuids(Memories(selected)));
    r := Selection(selected, |matched|, |widened.memories|, edges, widened.depthLimitReached || ticketDepth,
                   widened.hiddenPathDropped, widened.limitReached || ticketLimit, referenced);
  }

  // ----- the order

  /** Earlier validity first; then earlier capture; then the smaller identity. */
  lemma SelectionByProvenance(selected: seq<SelectedClaim>, anchors: seq<Claim>, reached: seq<Claim>, i: nat, j: nat)
    requires Selects(selected, anchors, reached) && i < j < |selected|
    ensures var a, b := selected[i].memory, selected[j].memory;
            && a.validFrom <= b.validFrom && (a.validFrom == b.validFrom ==> a.createdOn <= b.createdOn)
            && (a.validFrom == b.validFrom && a.createdOn == b.createdOn ==> a.uuid < b.uuid)
  {
    var claims := Memories(selected);
    assert !ProvenanceBefore(claims[j], claims[i]) && Uuid(claims[i]) != Uuid(claims[j]);
  }

  /**
   The selection does not depend on the order in which anything arrived: there is one way to list the same memories.
   */
  lemma SelectionIsDetermined(one: seq<SelectedClaim>, other: seq<SelectedClaim>, anchors: seq<Claim>,
                              reached: seq<Claim>, anchors1: seq<Claim>, reached1: seq<Claim>)
    requires Selects(one, anchors, reached) && Selects(other, anchors1, reached1)
    requires multiset(anchors) == multiset(anchors1) && multiset(reached) == multiset(reached1)
    ensures one == other
  {
    var a, b := Memories(one), Memories(other);
    SameElements(anchors, anchors1);
    SameElements(reached, reached1);
    ProvenanceSeparates(a);
    DistinctHaveNoRepeats(a);
    DistinctHaveNoRepeats(b);
    assert Elements(a) == Elements(b);
    SameDistinctElements(a, b);
    OrderedIsUnique(ProvenanceBefore, a, b);
    forall i | 0 <= i < |one| ensures one[i] == other[i] {
      assert one[i].memory == a[i] == b[i] == other[i].memory;
      assert one[i] in one && other[i] in other;
    }
  }

  lemma DistinctHaveNoRepeats(claims: seq<Claim>)
    requires DistinctBy(Uuid, claims)
    ensures NoRepeats(claims)
  {
    forall i, j | 0 <= i < j < |claims| ensures claims[i] != claims[j] { assert Uuid(claims[i]) != Uuid(claims[j]); }
  }
}
