/**
 Restoring a captured store. The stores are cleared, filled again row by row, counted, and the transaction is
 committed only when every count read back equals the expected one. An edge is created once for every pair of
 vertices its endpoints match, so a missing endpoint drops it silently and a doubled one multiplies it.
 */
module SnapshotRestore {
  import opened Common
  import ProductRegistry
  import TicketHierarchy

  type Ticket = TicketHierarchy.Ticket

  type Product = ProductRegistry.Product

  datatype Row = Row(id: int, name: string)

  datatype GroupRow = GroupRow(id: int, tickets: seq<Ticket>)

  datatype Relational = Relational(initiatives: seq<Row>, labels: seq<Row>, groups: seq<GroupRow>,
                                   descriptions: seq<Row>, memories: seq<Row>, versions: seq<Row>)

  /** A captured edge names its endpoints by their keys. */
  datatype Edge<S, T> = Edge(source: S, target: T, properties: string)

  /** A stored edge joins two vertices by their places. */
  datatype Stored = Stored(source: nat, target: nat, properties: string)

  datatype Capture = Capture(
    relational: Relational,
    memories: seq<int>, links: seq<Edge<int, int>>,
    tickets: seq<Ticket>, parents: seq<Edge<Ticket, Ticket>>, about: seq<Edge<int, Ticket>>,
    products: seq<Product>, initiatives: seq<string>, repos: seq<string>,
    hasInitiative: seq<Edge<string, string>>, hasRepo: seq<Edge<string, string>>)

  datatype Graph = Graph(
    memories: seq<int>, links: seq<Stored>,
    tickets: seq<Ticket>, parents: seq<Stored>, about: seq<Stored>,
    products: seq<Product>, initiatives: seq<string>, repos: seq<string>,
    hasInitiative: seq<Stored>, hasRepo: seq<Stored>)

  datatype Counts = Counts(memories: nat, versions: nat, vertices: nat, edges: nat, ticketVertices: nat,
                           ticketEdges: nat, aboutEdges: nat, productVertices: nat, initiativeVertices: nat,
                           repoVertices: nat, productInitiativeEdges: nat, productRepoEdges: nat)

  datatype RestoreResult = Refused | SaveFailed | RolledBack(readBack: Counts) | Committed(readBack: Counts)

  // ----- vertices: MERGE

  function Merge<K(==)>(table: seq<K>, key: K): seq<K> {
    if key in table then table else table + [key]
  }

  function MergeAll<K(==)>(table: seq<K>, keys: seq<K>): seq<K> {
    if keys == [] then table else Merge(MergeAll(table, keys[..|keys| - 1]), keys[|keys| - 1])
  }

  method RestoreKeys<K(==)>(before: seq<K>, keys: seq<K>) returns (table: seq<K>)
    ensures table == MergeAll(before, keys)
  {
    table := before;
    for i := 0 to |keys|
      invariant table == MergeAll(before, keys[..i])
    {
      assert keys[..i + 1][..i] == keys[..i];
      table := Merge(table, keys[i]);
    }
    assert keys[..|keys|] == keys;
  }

  lemma {:induction false} MergedHoldsEachOnce<K(!new)>(table: seq<K>, keys: seq<K>)
    requires NoRepeats(table)
    ensures NoRepeats(MergeAll(table, keys))
    ensures forall k :: k in MergeAll(table, keys) <==> k in table || k in keys
  {
    if keys != [] {
      var init, last := keys[..|keys| - 1], keys[|keys| - 1];
      MergedHoldsEachOnce(table, init);
      assert forall k :: k in keys <==> k in init || k == last;
    }
  }

  /** Merging keys into a table whose own keys are among them gives their number exactly when they are distinct. */
  lemma MergedCount<K(!new)>(table: seq<K>, keys: seq<K>)
    requires NoRepeats(table) && forall k | k in table :: k in keys
    ensures var merged := MergeAll(table, keys);
            (|merged| == |keys| <==> NoRepeats(keys)) && (NoRepeats(keys) ==> multiset(merged) == multiset(keys))
  {
    var merged := MergeAll(table, keys);
    MergedHoldsEachOnce(table, keys);
    NoRepeatsSize(merged);
    assert Elements(merged) == Elements(keys);
    ElementsNoMore(keys);
    if NoRepeats(keys) {
      NoRepeatsSize(keys);
      SameDistinctElements(merged, keys);
    }
  }

  lemma {:induction false} ElementsNoMore<K(!new)>(s: seq<K>)
    ensures |Elements(s)| <= |s|
    ensures |Elements(s)| == |s| ==> NoRepeats(s)
  {
    if s != [] {
      var init, last := s[..|s| - 1], s[|s| - 1];
      ElementsNoMore(init);
      assert s == init + [last];
      assert Elements(s) == Elements(init) + {last};
      assert last in Elements(init) <==> last in init;
    }
  }

  lemma {:induction false} MergedFromNothing<K(!new)>(keys: seq<K>)
    requires NoRepeats(keys)
    ensures MergeAll([], keys) == keys
  {
    if keys != [] {
      var init, last := keys[..|keys| - 1], keys[|keys| - 1];
      MergedFromNothing(init);
      assert keys == init + [last] && last !in init;
    }
  }

  // ----- edges: MATCH and CREATE

  function EdgesTo<T(==)>(source: nat, targets: seq<T>, target: T, properties: string, upTo: nat): seq<Stored>
    requires upTo <= |targets|
  {
    if upTo == 0 then []
    else EdgesTo(source, targets, target, properties, upTo - 1)
         + if targets[upTo - 1] == target then [Stored(source, upTo - 1, properties)] else []
  }

  /** One edge from every matching source to every matching target. */
  function Matching<S(==), T(==)>(sources: seq<S>, targets: seq<T>, e: Edge<S, T>, upTo: nat): seq<Stored>
    requires upTo <= |sources|
  {
    if upTo == 0 then []
    else Matching(sources, targets, e, upTo - 1)
         + if sources[upTo - 1] == e.source then EdgesTo(upTo - 1, targets, e.target, e.properties, |targets|) else []
  }

  function CreateAll<S(==), T(==)>(sources: seq<S>, targets: seq<T>, edges: seq<Edge<S, T>>): seq<Stored> {
    if edges == [] then []
    else CreateAll(sources, targets, edges[..|edges| - 1]) + Matching(sources, targets, edges[|edges| - 1], |sources|)
  }

  method RestoreEdgeTable<S(==), T(==)>(sources: seq<S>, targets: seq<T>, edges: seq<Edge<S, T>>)
    returns (table: seq<Stored>)
    ensures table == CreateAll(sources, targets, edges)
  {
    table := [];
    for i := 0 to |edges|
      invariant table == CreateAll(sources, targets, edges[..i])
    {
      assert edges[..i + 1][..i] == edges[..i];
      table := table + Matching(sources, targets, edges[i], |sources|);
    }
    assert edges[..|edges|] == edges;
  }

  /** What a capture reads from a table of stored edges. */
  function ReadEdges<S, T>(sources: seq<S>, targets: seq<T>, table: seq<Stored>): seq<Edge<S, T>>
    requires Grounded(sources, targets, table)
  {
    seq(|table|,
        i requires 0 <= i < |table| => Edge(sources[table[i].source], targets[table[i].target], table[i].properties))
  }

  ghost predicate Grounded<S, T>(sources: seq<S>, targets: seq<T>, table: seq<Stored>) {
    forall i | 0 <= i < |table| :: table[i].source < |sources| && table[i].target < |targets|
  }

  predicate HasEnds<S(==), T(==)>(sources: seq<S>, targets: seq<T>, e: Edge<S, T>) {
    e.source in sources && e.target in targets
  }

  lemma {:induction false} RowIsGrounded<T>(source: nat, targets: seq<T>, target: T, properties: string, upTo: nat)
    requires upTo <= |targets|
    ensures var row := EdgesTo(source, targets, target, properties, upTo);
            forall i | 0 <= i < |row| ::
              row[i].source == source && row[i].target < upTo && targets[row[i].target] == target
                && row[i].properties == properties
    ensures EdgesTo(source, targets, target, properties, upTo) == [] <==> target !in targets[..upTo]
  {
    if upTo > 0 {
      RowIsGrounded(source, targets, target, properties, upTo - 1);
      assert targets[..upTo] == targets[..upTo - 1] + [targets[upTo - 1]];
    }
  }

  /**
   Every edge created reads back as the edge it was made for, and none is made exactly when an endpoint is missing.
   */
  lemma {:induction false} MatchingReadsBack<S, T>(sources: seq<S>, targets: seq<T>, e: Edge<S, T>, upTo: nat)
    requires upTo <= |sources|
    ensures var made := Matching(sources, targets, e, upTo);
            Grounded(sources, targets, made) && forall i | 0 <= i < |made| :: ReadEdges(sources, targets, made)[i] == e
    ensures Matching(sources, targets, e, upTo) == [] <==> !HasEnds(sources[..upTo], targets, e)
  {
    if upTo > 0 {
      MatchingReadsBack(sources, targets, e, upTo - 1);
      RowIsGrounded(upTo - 1, targets, e.target, e.properties, |targets|);
      assert targets[..|targets|] == targets;
      assert sources[..upTo] == sources[..upTo - 1] + [sources[upTo - 1]];
      var before, row := Matching(sources, targets, e, upTo - 1),
          EdgesTo(upTo - 1, targets, e.target, e.properties, |targets|);
      var made := Matching(sources, targets, e, upTo);
      forall i | 0 <= i < |made|
        ensures made[i].source < |sources| && made[i].target < |targets|
                && Edge(sources[made[i].source], targets[made[i].target], made[i].properties) == e
      {
        if i < |before| {
          assert made[i] == before[i] && ReadEdges(sources, targets, before)[i] == e;
        } else {
          assert made[i] == row[i - |before|];
        }
      }
    }
  }

  lemma {:induction false} RowHasOne<T(!new)>(source: nat, targets: seq<T>, target: T, properties: string, upTo: nat)
    requires upTo <= |targets| && NoRepeats(targets)
    ensures |EdgesTo(source, targets, target, properties, upTo)| <= 1
  {
    if upTo > 0 {
      RowHasOne(source, targets, target, properties, upTo - 1);
      RowIsGrounded(source, targets, target, properties, upTo - 1);
    }
  }

  lemma {:induction false} MatchingHasOne<S(!new), T(!new)>(sources: seq<S>, targets: seq<T>, e: Edge<S, T>, upTo: nat)
    requires upTo <= |sources| && NoRepeats(sources) && NoRepeats(targets)
    ensures |Matching(sources, targets, e, upTo)| <= 1
  {
    if upTo > 0 {
      hide EdgesTo, ReadEdges, Grounded;
      MatchingHasOne(sources, targets, e, upTo - 1);
      if sources[upTo - 1] == e.source {
        MatchingReadsBack(sources, targets, e, upTo - 1);
        assert e.source !in sources[..upTo - 1];
        RowHasOne(upTo - 1, targets, e.target, e.properties, |targets|);
      }
    }
  }

  ghost predicate AllHaveEnds<S, T>(sources: seq<S>, targets: seq<T>, edges: seq<Edge<S, T>>) {
    forall i | 0 <= i < |edges| :: HasEnds(sources, targets, edges[i])
  }

  lemma ReadEdgesAppend<S, T>(sources: seq<S>, targets: seq<T>, a: seq<Stored>, b: seq<Stored>)
    requires Grounded(sources, targets, a) && Grounded(sources, targets, b)
    ensures Grounded(sources, targets, a + b) && |ReadEdges(sources, targets, b)| == |b|
    ensures ReadEdges(sources, targets, a + b) == ReadEdges(sources, targets, a) + ReadEdges(sources, targets, b)
  {
  }

  /**
   Among distinct vertices as many edges come out as go in exactly when every endpoint exists, and then they read
   back the same.
   */
  lemma {:induction false} EdgeCount<S(!new), T(!new)>(sources: seq<S>, targets: seq<T>, edges: seq<Edge<S, T>>)
    requires NoRepeats(sources) && NoRepeats(targets)
    ensures var made := CreateAll(sources, targets, edges);
            && |made| <= |edges| && Grounded(sources, targets, made)
            && (|made| == |edges| <==> AllHaveEnds(sources, targets, edges))
            && (|made| == |edges| ==> ReadEdges(sources, targets, made) == edges)
  {
    if edges != [] {
      var init, e := edges[..|edges| - 1], edges[|edges| - 1];
      hide Matching, NoRepeats, HasEnds, ReadEdges, Grounded;
      EdgeCount(sources, targets, init);
      MatchingReadsBack(sources, targets, e, |sources|);
      MatchingHasOne(sources, targets, e, |sources|);
      assert sources[..|sources|] == sources;
      var before, last := CreateAll(sources, targets, init), Matching(sources, targets, e, |sources|);
      assert CreateAll(sources, targets, edges) == before + last;
      ReadEdgesAppend(sources, targets, before, last);
      if AllHaveEnds(sources, targets, edges) { assert AllHaveEnds(sources, targets, init); }
      if |before| == |init| && |last| == 1 {
        assert ReadEdges(sources, targets, last)[0] == e && edges == init + [e];
      }
    }
  }

  // ----- the whole store

  function Names(products: seq<Product>): seq<string> {
    seq(|products|, i requires 0 <= i < |products| => products[i].name)
  }

  function TicketsOf(groups: seq<GroupRow>): seq<Ticket> {
    if groups == [] then [] else TicketsOf(groups[..|groups| - 1]) + groups[|groups| - 1].tickets
  }

  predicate DistinctIds(rows: seq<Row>) {
    forall i, j | 0 <= i < j < |rows| :: rows[i].id != rows[j].id
  }

  /** Rows are saved when no table repeats an id and the database's other constraints, given as a function, hold. */
  predicate Accepts(constraints: Relational -> bool, r: Relational) {
    && DistinctIds(r.initiatives) && DistinctIds(r.labels) && DistinctIds(r.descriptions)
    && DistinctIds(r.memories) && DistinctIds(r.versions)
    && (forall i, j | 0 <= i < j < |r.groups| :: r.groups[i].id != r.groups[j].id)
    && constraints(r)
  }

  const EMPTY_GRAPH := Graph([], [], [], [], [], [], [], [], [], [])

  const EMPTY_TABLES := Relational([], [], [], [], [], [])

  /** Inserting a group makes a vertex for each of its tickets; the captured ticket vertices are merged after them. */
  function RestoredTickets(c: Capture): seq<Ticket> {
    MergeAll(MergeAll([], TicketsOf(c.relational.groups)), c.tickets)
  }

  function Restored(c: Capture): Graph {
    var memories, tickets := MergeAll([], c.memories), RestoredTickets(c);
    var initiatives, repos := MergeAll([], c.initiatives), MergeAll([], c.repos);
    Graph(memories, CreateAll(memories, memories, c.links),
          tickets, CreateAll(tickets, tickets, c.parents), CreateAll(memories, tickets, c.about),
          c.products, initiatives, repos,
          CreateAll(Names(c.products), initiatives, c.hasInitiative), CreateAll(Names(c.products), repos, c.hasRepo))
  }

  function CountsOf(r: Relational, g: Graph): Counts {
    Counts(|r.memories|, |r.versions|, |g.memories|, |g.links|, |g.tickets|, |g.parents|, |g.about|,
           |g.products|, |g.initiatives|, |g.repos|, |g.hasInitiative|, |g.hasRepo|)
  }

  function CapturedCounts(c: Capture): Counts {
    Counts(|c.relational.memories|, |c.relational.versions|, |c.memories|, |c.links|, |c.tickets|, |c.parents|,
           |c.about|, |c.products|, |c.initiatives|, |c.repos|, |c.hasInitiative|, |c.hasRepo|)
  }

  predicate Closes(readBack: Counts, traversed: nat, expected: Counts) {
    readBack == expected && traversed == expected.edges
  }

  /** The verdict of a restore. */
  function Answer(constraints: Relational -> bool, empty: bool, c: Capture, expected: Counts,
                  overrideNonEmpty: bool): RestoreResult {
    if !empty && !overrideNonEmpty then Refused
    else if !Accepts(constraints, c.relational) then SaveFailed
    else
      var readBack := CountsOf(c.relational, Restored(c));
      if readBack == expected then Committed(readBack) else RolledBack(readBack)
  }

  /** Nothing of an operator's would be lost: no row or vertex but the seeded labels and the default initiative. */
  ghost predicate NothingToLose(r: Relational, g: Graph, seedFacets: set<string>, defaultInitiative: string) {
    && |r.memories| + |r.versions| + |r.descriptions| + |r.groups| == 0
    && (forall x | x in r.labels :: x.name in seedFacets)
       && (forall x | x in r.initiatives :: x.name == defaultInitiative)
    && |g.memories| + |g.links| + |g.tickets| + |g.parents| + |g.about| == 0
    && |g.products| + |g.initiatives| + |g.repos| + |g.hasInitiative| + |g.hasRepo| == 0
  }

  /** Some table repeats an id. */
  ghost predicate RepeatsAnId(r: Relational) {
    || (exists t: seq<Row>, i, j ::
          t in {r.initiatives, r.labels, r.descriptions, r.memories, r.versions} && 0 <= i < j < |t|
            && t[i].id == t[j].id)
    || exists i, j :: 0 <= i < j < |r.groups| && r.groups[i].id == r.groups[j].id
  }

  lemma AcceptsOnRows(constraints: Relational -> bool, r: Relational)
    ensures Accepts(constraints, r) <==> !RepeatsAnId(r) && constraints(r)
  {
    forall t: seq<Row> | t in {r.initiatives, r.labels, r.descriptions, r.memories, r.versions} && !DistinctIds(t)
      ensures RepeatsAnId(r)
    {
      var i, j :| 0 <= i < j < |t| && t[i].id == t[j].id;
    }
  }

  class SnapshotStore {
    const constraints: Relational -> bool
    const seedFacets: set<string>
    const defaultInitiative: string
    var relational: Relational
    var graph: Graph
    var feedback: seq<int>

    /** Nothing beyond what a fresh database is seeded with; recall feedback does not count. */
    predicate IsEmpty()
      reads this
    {
      && relational.memories == [] && relational.versions == [] && relational.descriptions == []
         && relational.groups == []
      && (forall i | 0 <= i < |relational.labels| :: relational.labels[i].name in seedFacets)
      && (forall i | 0 <= i < |relational.initiatives| :: relational.initiatives[i].name == defaultInitiative)
      && graph == EMPTY_GRAPH
    }

    method ClearStores()
      modifies this
      ensures relational == EMPTY_TABLES && graph == EMPTY_GRAPH && feedback == []
    {
      relational, graph, feedback := EMPTY_TABLES, EMPTY_GRAPH, [];
    }

    method RestoreRelational(c: Capture) returns (ok: bool)
      requires relational == EMPTY_TABLES && graph == EMPTY_GRAPH
      modifies this`relational, this`graph
      ensures ok <==> Accepts(constraints, c.relational)
      ensures ok ==>
              relational == c.relational
                && graph == EMPTY_GRAPH.(tickets := MergeAll([], TicketsOf(c.relational.groups)))
    {
      ok := Accepts(constraints, c.relational);
      if ok {
        relational := c.relational;
        graph := graph.(tickets := MergeAll([], TicketsOf(c.relational.groups)));
      }
    }

    method RestoreMemories(c: Capture)
      modifies this`graph
      ensures var memories := MergeAll(old(graph.memories), c.memories);
              graph == old(graph).(memories := memories, links := CreateAll(memories, memories, c.links))
    {
      var memories := RestoreKeys(graph.memories, c.memories);
      graph := graph.(memories := memories);
      var links := RestoreEdgeTable(graph.memories, graph.memories, c.links);
      graph := graph.(links := links);
    }

    method RestoreTickets(c: Capture)
      modifies this`graph
      ensures var tickets := MergeAll(old(graph.tickets), c.tickets);
              graph == old(graph).(tickets := tickets, parents := CreateAll(tickets, tickets, c.parents),
                                   about := CreateAll(old(graph.memories), tickets, c.about))
    {
      var tickets := RestoreKeys(graph.tickets, c.tickets);
      graph := graph.(tickets := tickets);
      var parents := RestoreEdgeTable(graph.tickets, graph.tickets, c.parents);
      graph := graph.(parents := parents);
      var about := RestoreEdgeTable(graph.memories, graph.tickets, c.about);
      graph := graph.(about := about);
    }

    method RestoreProducts(c: Capture)
      requires graph.products == [] && graph.initiatives == [] && graph.repos == []
      modifies this`graph
      ensures var initiatives, repos := MergeAll([], c.initiatives), MergeAll([], c.repos);
              graph == old(graph).(products := c.products, initiatives := initiatives, repos := repos,
                                   hasInitiative := CreateAll(Names(c.products), initiatives, c.hasInitiative),
                                   hasRepo := CreateAll(Names(c.products), repos, c.hasRepo))
    {
      for i := 0 to |c.products|
        invariant graph == old(graph).(products := c.products[..i])
      {
        graph := graph.(products := graph.products + [c.products[i]]);
      }
      assert c.products[..|c.products|] == c.products;
      var initiatives := RestoreKeys([], c.initiatives);
      var repos := RestoreKeys([], c.repos);
      graph := graph.(initiatives := initiatives, repos := repos);
      var hasInitiative := RestoreEdgeTable(Names(graph.products), graph.initiatives, c.hasInitiative);
      var hasRepo := RestoreEdgeTable(Names(graph.products), graph.repos, c.hasRepo);
      graph := graph.(hasInitiative := hasInitiative, hasRepo := hasRepo);
    }

    /** Either the stores hold what the restore made and the counts are the expected ones, or nothing has changed. */
    method Restore(c: Capture, expected: Counts, overrideNonEmpty: bool) returns (r: RestoreResult)
      modifies this
      ensures r == Answer(constraints, old(IsEmpty()), c, expected, overrideNonEmpty)
      ensures r == Refused <==> !old(IsEmpty()) && !overrideNonEmpty
      ensures r == SaveFailed <==> r != Refused && !Accepts(constraints, c.relational)
      ensures r == Refused <==>
              !overrideNonEmpty && !NothingToLose(old(relational), old(graph), seedFacets, defaultInitiative)
      ensures r == SaveFailed <==> r != Refused && (RepeatsAnId(c.relational) || !constraints(c.relational))
      ensures (r.Committed? || r.RolledBack?) ==> r.readBack == CountsOf(c.relational, Restored(c))
      ensures r.Committed? <==> r != Refused && r != SaveFailed && CountsOf(c.relational, Restored(c)) == expected
      ensures r.Committed? ==> relational == c.relational && graph == Restored(c) && feedback == []
      ensures !r.Committed? ==> relational == old(relational) && graph == old(graph) && feedback == old(feedback)
    {
      AcceptsOnRows(constraints, c.relational);
      if !IsEmpty() && !overrideNonEmpty {
        return Refused;
      }
      var relationalBefore, graphBefore, feedbackBefore := relational, graph, feedback;
      ClearStores();
      var saved := RestoreRelational(c);
      if !saved {
        relational, graph, feedback := relationalBefore, graphBefore, feedbackBefore;
        return SaveFailed;
      }
      RestoreMemories(c);
      RestoreTickets(c);
      RestoreProducts(c);
      assert graph == Restored(c);
      var readBack := CountsOf(relational, graph);
      if !Closes(readBack, |graph.links|, expected) {
        relational, graph, feedback := relationalBefore, graphBefore, feedbackBefore;
        return RolledBack(readBack);
      }
      r := Committed(readBack);
    }
  }

  // ----- matching counts force matching content

  /** No captured vertex would be merged away and no captured edge lacks an endpoint. */
  ghost predicate Complete(c: Capture) {
    && NoRepeats(c.memories) && NoRepeats(c.tickets) && NoRepeats(c.initiatives) && NoRepeats(c.repos)
    && AllHaveEnds(c.memories, c.memories, c.links)
    && AllHaveEnds(c.tickets, c.tickets, c.parents)
    && AllHaveEnds(c.memories, c.tickets, c.about)
    && AllHaveEnds(Names(c.products), c.initiatives, c.hasInitiative)
    && AllHaveEnds(Names(c.products), c.repos, c.hasRepo)
  }

  ghost predicate AllGrounded(g: Graph) {
    && Grounded(g.memories, g.memories, g.links)
    && Grounded(g.tickets, g.tickets, g.parents)
    && Grounded(g.memories, g.tickets, g.about)
    && Grounded(Names(g.products), g.initiatives, g.hasInitiative)
    && Grounded(Names(g.products), g.repos, g.hasRepo)
  }

  /** The graph holds exactly the captured vertices and, read back, exactly the captured edges. */
  ghost predicate Faithful(g: Graph, c: Capture) {
    && AllGrounded(g)
    && g.memories == c.memories && multiset(g.tickets) == multiset(c.tickets)
    && g.products == c.products && g.initiatives == c.initiatives && g.repos == c.repos
    && ReadEdges(g.memories, g.memories, g.links) == c.links
    && ReadEdges(g.tickets, g.tickets, g.parents) == c.parents
    && ReadEdges(g.memories, g.tickets, g.about) == c.about
    && ReadEdges(Names(g.products), g.initiatives, g.hasInitiative) == c.hasInitiative
    && ReadEdges(Names(g.products), g.repos, g.hasRepo) == c.hasRepo
  }

  /** Every ticket a captured group lists is among the captured ticket vertices. */
  ghost predicate TicketsMirrored(c: Capture) {
    forall t | t in TicketsOf(c.relational.groups) :: t in c.tickets
  }

  lemma SameEnds<S(!new), T(!new)>(sources: seq<S>, targets: seq<T>, otherSources: seq<S>, otherTargets: seq<T>,
                                   edges: seq<Edge<S, T>>)
    requires (forall k :: k in sources <==> k in otherSources) && forall k :: k in targets <==> k in otherTargets
    ensures AllHaveEnds(sources, targets, edges) <==> AllHaveEnds(otherSources, otherTargets, edges)
  {
  }

  lemma KeysRestored<K(!new)>(keys: seq<K>)
    ensures NoRepeats(MergeAll([], keys)) && forall k :: k in MergeAll([], keys) <==> k in keys
    ensures |MergeAll([], keys)| == |keys| <==> NoRepeats(keys)
    ensures NoRepeats(keys) ==> MergeAll([], keys) == keys
  {
    MergedHoldsEachOnce([], keys);
    MergedCount([], keys);
    if NoRepeats(keys) { MergedFromNothing(keys); }
  }

  lemma TicketsRestored(c: Capture)
    requires TicketsMirrored(c)
    ensures NoRepeats(RestoredTickets(c)) && forall t :: t in RestoredTickets(c) <==> t in c.tickets
    ensures |RestoredTickets(c)| == |c.tickets| <==> NoRepeats(c.tickets)
    ensures NoRepeats(c.tickets) ==> multiset(RestoredTickets(c)) == multiset(c.tickets)
  {
    var mirrored := MergeAll([], TicketsOf(c.relational.groups));
    MergedHoldsEachOnce([], TicketsOf(c.relational.groups));
    MergedHoldsEachOnce(mirrored, c.tickets);
    MergedCount(mirrored, c.tickets);
  }

  lemma {:induction false} TicketsOfGroups(groups: seq<GroupRow>, t: Ticket)
    ensures t in TicketsOf(groups) <==> exists g :: g in groups && t in g.tickets
  {
    if groups != [] {
      TicketsOfGroups(groups[..|groups| - 1], t);
      assert groups == groups[..|groups| - 1] + [groups[|groups| - 1]];
    }
  }

  /** The ticket vertices after a restore: those captured, and those the restored groups list. */
  lemma RestoredTicketsAre(c: Capture, t: Ticket)
    ensures t in Restored(c).tickets <==> t in c.tickets || exists g :: g in c.relational.groups && t in g.tickets
  {
    TicketsOfGroups(c.relational.groups, t);
    MergedHoldsEachOnce([], TicketsOf(c.relational.groups));
    MergedHoldsEachOnce(MergeAll([], TicketsOf(c.relational.groups)), c.tickets);
  }

  lemma EdgesRestored<S(!new), T(!new)>(sources: seq<S>, targets: seq<T>, captured: seq<S>, capturedTargets: seq<T>,
                                        edges: seq<Edge<S, T>>)
    requires NoRepeats(sources) && NoRepeats(targets)
    requires (forall k :: k in sources <==> k in captured) && forall k :: k in targets <==> k in capturedTargets
    ensures var made := CreateAll(sources, targets, edges);
            Grounded(sources, targets, made) && (|made| == |edges| <==> AllHaveEnds(captured, capturedTargets, edges))
            && (|made| == |edges| ==> ReadEdges(sources, targets, made) == edges)
  {
    EdgeCount(sources, targets, edges);
    SameEnds(sources, targets, captured, capturedTargets, edges);
  }

  /**
   With distinct product names, all read-back counts equal the captured ones exactly when the capture is complete,
   and a graph restored with matching counts holds exactly what was captured.
   */
  lemma CountsMatchExactlyWhenFaithful(c: Capture)
    requires NoRepeats(Names(c.products)) && TicketsMirrored(c)
    ensures CountsOf(c.relational, Restored(c)) == CapturedCounts(c) <==> Complete(c)
    ensures CountsOf(c.relational, Restored(c)) == CapturedCounts(c) <==> Faithful(Restored(c), c)
  {
    hide CreateAll, MergeAll, AllHaveEnds, Grounded, NoRepeats, Names, RestoredTickets;
    var g := Restored(c);
    KeysRestored(c.memories);
    KeysRestored(c.initiatives);
    KeysRestored(c.repos);
    TicketsRestored(c);
    EdgesRestored(g.memories, g.memories, c.memories, c.memories, c.links);
    EdgesRestored(g.tickets, g.tickets, c.tickets, c.tickets, c.parents);
    EdgesRestored(g.memories, g.tickets, c.memories, c.tickets, c.about);
    EdgesRestored(Names(g.products), g.initiatives, Names(c.products), c.initiatives, c.hasInitiative);
    EdgesRestored(Names(g.products), g.repos, Names(c.products), c.repos, c.hasRepo);
    if Faithful(g, c) { FaithfulHasCounts(c); }
  }

  /**
   The registry's own operations keep product names distinct, so for any registry they produce the counts can be
   trusted.
   */
  lemma CountsMatchForRegisteredProducts(c: Capture, fold: string -> string, operations: seq<ProductRegistry.Operation>)
    requires c.products == ProductRegistry.Run(fold, operations).products && TicketsMirrored(c)
    ensures CountsOf(c.relational, Restored(c)) == CapturedCounts(c) <==> Faithful(Restored(c), c)
  {
    hide Faithful, CountsOf, CapturedCounts, TicketsMirrored, Restored;
    ProductRegistry.OneOfEach(fold, operations);
    assert NoRepeats(Names(c.products));
    CountsMatchExactlyWhenFaithful(c);
  }

  lemma FaithfulHasCounts(c: Capture)
    requires Faithful(Restored(c), c)
    ensures CountsOf(c.relational, Restored(c)) == CapturedCounts(c)
  {
    assert |multiset(c.tickets)| == |c.tickets|;
  }

  // ----- capturing and restoring again

  function CaptureOf(r: Relational, g: Graph): Capture
    requires AllGrounded(g)
  {
    Capture(r, g.memories, ReadEdges(g.memories, g.memories, g.links),
            g.tickets, ReadEdges(g.tickets, g.tickets, g.parents), ReadEdges(g.memories, g.tickets, g.about),
            g.products, g.initiatives, g.repos,
            ReadEdges(Names(g.products), g.initiatives, g.hasInitiative),
            ReadEdges(Names(g.products), g.repos, g.hasRepo))
  }

  /**
   What the writers of the graph keep: vertices are unique by key, edges join vertices, group tickets are mirrored.
   */
  ghost predicate SoundStore(r: Relational, g: Graph) {
    && AllGrounded(g)
    && NoRepeats(g.memories) && NoRepeats(g.tickets) && NoRepeats(g.initiatives) && NoRepeats(g.repos)
       && NoRepeats(Names(g.products))
    && forall t | t in TicketsOf(r.groups) :: t in g.tickets
  }

  lemma ReadEdgesHaveEnds<S(!new), T(!new)>(sources: seq<S>, targets: seq<T>, table: seq<Stored>)
    requires Grounded(sources, targets, table)
    ensures AllHaveEnds(sources, targets, ReadEdges(sources, targets, table))
            && |ReadEdges(sources, targets, table)| == |table|
  {
  }

  /**
   A sound store, captured and restored with its own counts, commits wherever the restore is let in and its rows are
   accepted, and comes back as it was.
   */
  lemma CaptureThenRestore(r: Relational, g: Graph, constraints: Relational -> bool, empty: bool,
                           overrideNonEmpty: bool)
    requires SoundStore(r, g)
    ensures var c := CaptureOf(r, g);
            Answer(constraints, empty, c, CapturedCounts(c), overrideNonEmpty) == Committed(CapturedCounts(c)) <==>
            (empty || overrideNonEmpty) && Accepts(constraints, r)
    ensures var c := CaptureOf(r, g);
            && CapturedCounts(c) == CountsOf(r, g) == CountsOf(r, Restored(c))
            && Faithful(Restored(c), c)
            && Restored(c).memories == g.memories && Restored(c).products == g.products
  {
    hide CreateAll, MergeAll, AllHaveEnds, NoRepeats, Names, RestoredTickets;
    var c := CaptureOf(r, g);
    ReadEdgesHaveEnds(g.memories, g.memories, g.links);
    ReadEdgesHaveEnds(g.tickets, g.tickets, g.parents);
    ReadEdgesHaveEnds(g.memories, g.tickets, g.about);
    ReadEdgesHaveEnds(Names(g.products), g.initiatives, g.hasInitiative);
    ReadEdgesHaveEnds(Names(g.products), g.repos, g.hasRepo);
    CountsMatchExactlyWhenFaithful(c);
  }

  // ----- product vertices are created, not merged

  /** Matching counts imply matching content for these captured edges. */
  ghost predicate CountsSuffice(names: seq<string>, targets: seq<string>, edges: seq<Edge<string, string>>) {
    var made := CreateAll(names, targets, edges);
    |made| == |edges| ==> Grounded(names, targets, made) && ReadEdges(names, targets, made) == edges
  }

  lemma {:induction false} RepeatedNameMatchesTwice(names: seq<string>, targets: seq<string>, e: Edge<string, string>,
                                                    i: nat, j: nat, upTo: nat)
    requires i < j < upTo <= |names| && names[i] == names[j] == e.source && e.target in targets
    ensures |Matching(names, targets, e, upTo)| >= 2
  {
    if upTo > j + 1 {
      RepeatedNameMatchesTwice(names, targets, e, i, j, upTo - 1);
    } else {
      MatchingReadsBack(names, targets, e, j);
      assert names[..j][i] == e.source;
      RowIsGrounded(j, targets, e.target, e.properties, |targets|);
      assert targets[..|targets|] == targets;
    }
  }

  lemma {:induction false} DanglingEdgesVanish(names: seq<string>, targets: seq<string>, e: Edge<string, string>,
                                               edges: seq<Edge<string, string>>)
    requires e.source !in names && forall i | 0 <= i < |edges| :: edges[i] == e
    ensures CreateAll(names, targets, edges) == []
  {
    if edges != [] {
      DanglingEdgesVanish(names, targets, e, edges[..|edges| - 1]);
      MatchingReadsBack(names, targets, e, |names|);
      assert names[..|names|] == names;
    }
  }

  lemma {:induction false} UnusedName(names: seq<string>) returns (q: string)
    ensures q !in names && forall i | 0 <= i < |names| :: |names[i]| < |q|
  {
    if names == [] {
      q := "q";
    } else {
      var last := names[|names| - 1];
      q := UnusedName(names[..|names| - 1]);
      q := q + last + "q";
      assert forall i | 0 <= i < |names| - 1 :: names[..|names| - 1][i] == names[i];
    }
  }

  /**
   A doubled product name lets a multiplied edge make up for dropped ones: the counts agree and the content does
   not.
   */
  lemma DoubledNameHidesLoss(names: seq<string>, targets: seq<string>, i: nat, j: nat)
    returns (edges: seq<Edge<string, string>>)
    requires i < j < |names| && names[i] == names[j] && targets != []
    ensures |CreateAll(names, targets, edges)| == |edges| && !CountsSuffice(names, targets, edges)
  {
    var q := UnusedName(names);
    var e, lost := Edge(names[i], targets[0], ""), Edge(q, targets[0], "");
    RepeatedNameMatchesTwice(names, targets, e, i, j, |names|);
    var made := Matching(names, targets, e, |names|);
    var missing := seq(|made| - 1, _ => lost);
    DanglingEdgesVanish(names, targets, lost, missing);
    edges := missing + [e];
    assert edges[..|edges| - 1] == missing;
    assert CreateAll(names, targets, edges) == made;
    MatchingReadsBack(names, targets, e, |names|);
    assert names[i] in names;
    assert ReadEdges(names, targets, made)[0] == e && edges[0] == lost;
  }

  /** With two products of one name some capture of these products restores unfaithfully though every count agrees. */
  lemma LossyCapture(products: seq<Product>) returns (c: Capture)
    requires !NoRepeats(Names(products))
    ensures c.products == products && TicketsMirrored(c)
    ensures CountsOf(c.relational, Restored(c)) == CapturedCounts(c) && !Faithful(Restored(c), c)
  {
    var names := Names(products);
    var i, j :| 0 <= i < j < |names| && names[i] == names[j];
    var edges := DoubledNameHidesLoss(names, ["x"], i, j);
    c := Capture(EMPTY_TABLES, [], [], [], [], [], products, ["x"], [], edges, []);
    KeysRestored(["x"]);
  }

  /** Counts agree for this capture, so its content does. */
  ghost predicate CountsTell(c: Capture) {
    TicketsMirrored(c) && CountsOf(c.relational, Restored(c)) == CapturedCounts(c) ==> Faithful(Restored(c), c)
  }

  /**
   For every list of products: matching counts prove every capture of them faithful exactly when no two products
   share a name.
   */
  lemma CountsSufficeExactlyWhenNamesDistinct(products: seq<Product>)
    ensures (forall c: Capture | c.products == products :: CountsTell(c)) <==> NoRepeats(Names(products))
  {
    if NoRepeats(Names(products)) {
      forall c: Capture | c.products == products ensures CountsTell(c) {
        if TicketsMirrored(c) { CountsMatchExactlyWhenFaithful(c); }
      }
    } else {
      var c := LossyCapture(products);
      assert !CountsTell(c);
    }
  }
}
