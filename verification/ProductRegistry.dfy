/**
 The product registry: named products, the initiatives each one carries, and the repositories it owns. The graph
 itself allows duplicate vertices and edges; each operation guards against them while holding one lock.
 */
module ProductRegistry {
  import opened Common

  datatype Product = Product(name: string, description: Option<string>, status: string)

  /** An edge from a product vertex, by its place, to an initiative or repository, by its name. */
  datatype Edge = Edge(product: nat, target: string)

  datatype Registry = Registry(products: seq<Product>, initiatives: seq<Edge>, repos: seq<Edge>)

  datatype Operation =
    | Upsert(name: string, description: Option<string>, status: Option<string>)
    | LinkInitiative(product: string, initiative: string)
    | UnlinkInitiative(product: string, initiative: string)
    | LinkRepo(product: string, repo: string)

  /** Changed and unchanged are the flag the call returns; a repository can also be another product's. */
  datatype Outcome = Changed | Unchanged | OwnedBy(product: string) | NameTaken | NoSuchProduct

  datatype Result = Result(registry: Registry, outcome: Outcome)

  predicate IsNamed(products: seq<Product>, k: int, name: string) {
    0 <= k < |products| && products[k].name == name
  }

  predicate Exists(products: seq<Product>, name: string) {
    exists k | 0 <= k < |products| :: IsNamed(products, k, name)
  }

  /** Another spelling of the name, equal up to case. */
  predicate HasCaseFoldedDuplicate(fold: string -> string, products: seq<Product>, name: string) {
    exists k | 0 <= k < |products| :: products[k].name != name && fold(products[k].name) == fold(name)
  }

  predicate Linked(products: seq<Product>, edges: seq<Edge>, product: string, target: string) {
    exists e | e in edges :: e.target == target && IsNamed(products, e.product, product)
  }

  /** Matching a product by name matches every vertex of that name: an edge is made from each. */
  function EdgesFrom(products: seq<Product>, name: string, target: string, upTo: nat): seq<Edge>
    requires upTo <= |products|
  {
    if upTo == 0 then []
    else EdgesFrom(products, name, target, upTo - 1)
         + if products[upTo - 1].name == name then [Edge(upTo - 1, target)] else []
  }

  function Without(products: seq<Product>, edges: seq<Edge>, product: string, target: string): seq<Edge> {
    if edges == [] then []
    else
      var n := |edges| - 1;
      var kept := Without(products, edges[..n], product, target);
      if edges[n].target == target && IsNamed(products, edges[n].product, product) then kept else kept + [edges[n]]
  }

  function Updated(products: seq<Product>, name: string, description: Option<string>,
                   status: Option<string>): seq<Product> {
    seq(|products|, k requires 0 <= k < |products| =>
      if products[k].name != name then products[k]
      else Product(name, if description.Some? then description else products[k].description,
                   if status.Some? then status.value else products[k].status))
  }

  function FirstOwner(edges: seq<Edge>, repo: string): Option<nat> {
    if edges == [] then None
    else if edges[0].target == repo then Some(edges[0].product)
    else FirstOwner(edges[1..], repo)
  }

  function Apply(fold: string -> string, r: Registry, op: Operation): Result {
    match op
    case Upsert(name, description, status) =>
      if HasCaseFoldedDuplicate(fold, r.products, name) then Result(r, NameTaken)
      else if Exists(r.products, name)
        then Result(r.(products := Updated(r.products, name, description, status)), Unchanged)
      else
        var product := Product(name, description, if status.Some? then status.value else "active");
        Result(r.(products := r.products + [product]), Changed)
    case LinkInitiative(product, initiative) =>
      if Linked(r.products, r.initiatives, product, initiative) then Result(r, Unchanged)
      else if !Exists(r.products, product) then Result(r, NoSuchProduct)
      else Result(r.(initiatives := r.initiatives + EdgesFrom(r.products, product, initiative, |r.products|)), Changed)
    case UnlinkInitiative(product, initiative) =>
      Result(r.(initiatives := Without(r.products, r.initiatives, product, initiative)),
             if Linked(r.products, r.initiatives, product, initiative) then Changed else Unchanged)
    case LinkRepo(product, repo) =>
      match FirstOwner(r.repos, repo)
      case Some(owner) =>
        if IsNamed(r.products, owner, product) then Result(r, Unchanged)
        else Result(r, OwnedBy(if owner < |r.products| then r.products[owner].name else ""))
      case None =>
        if !Exists(r.products, product) then Result(r, NoSuchProduct)
        else Result(r.(repos := r.repos + EdgesFrom(r.products, product, repo, |r.products|)), Changed)
  }

  class RegistryStore {
    const fold: string -> string
    var products: seq<Product>
    var initiatives: seq<Edge>
    var repos: seq<Edge>

    ghost function State(): Registry
      reads this
    {
      Registry(products, initiatives, repos)
    }

    method HasDuplicate(name: string) returns (r: bool)
      ensures r == HasCaseFoldedDuplicate(fold, products, name)
    {
      for k := 0 to |products|
        invariant forall j | 0 <= j < k :: products[j].name == name || fold(products[j].name) != fold(name)
      {
        if products[k].name != name && fold(products[k].name) == fold(name) {
          return true;
        }
      }
      r := false;
    }

    method UpsertProduct(name: string, description: Option<string>, status: Option<string>) returns (r: Outcome)
      modifies this`products
      ensures Result(State(), r) == Apply(fold, old(State()), Upsert(name, description, status))
    {
      var duplicate := HasDuplicate(name);
      if duplicate {
        return NameTaken;
      }
      if Exists(products, name) {
        if description.Some? || status.Some? {
          products := Updated(products, name, description, status);
        } else {
          assert Updated(products, name, description, status) == products;
        }
        return Unchanged;
      }
      products := products + [Product(name, description, if status.Some? then status.value else "active")];
      r := Changed;
    }

    method CreateEdges(product: string, target: string) returns (edges: seq<Edge>)
      ensures edges == EdgesFrom(products, product, target, |products|)
    {
      edges := [];
      for k := 0 to |products|
        invariant edges == EdgesFrom(products, product, target, k)
      {
        if products[k].name == product {
          edges := edges + [Edge(k, target)];
        }
      }
    }

    method LinkToInitiative(product: string, initiative: string) returns (r: Outcome)
      modifies this`initiatives
      ensures Result(State(), r) == Apply(fold, old(State()), LinkInitiative(product, initiative))
    {
      if Linked(products, initiatives, product, initiative) {
        return Unchanged;
      }
      var written := CreateEdges(product, initiative);
      NoEdgesExactlyWhenUnnamed(products, product, initiative, |products|);
      if written == [] {
        return NoSuchProduct;
      }
      initiatives := initiatives + written;
      r := Changed;
    }

    method UnlinkFromInitiative(product: string, initiative: string) returns (r: Outcome)
      modifies this`initiatives
      ensures Result(State(), r) == Apply(fold, old(State()), UnlinkInitiative(product, initiative))
    {
      var kept: seq<Edge>, count := [], 0;
      for k := 0 to |initiatives|
        invariant kept == Without(products, initiatives[..k], product, initiative)
        invariant count > 0 <==> Linked(products, initiatives[..k], product, initiative)
        invariant count >= 0
      {
        var e := initiatives[k];
        assert initiatives[..k + 1][..k] == initiatives[..k];
        assert forall x :: x in initiatives[..k + 1] <==> x in initiatives[..k] || x == e;
        if e.target == initiative && IsNamed(products, e.product, product) {
          count := count + 1;
        } else {
          kept := kept + [e];
        }
      }
      assert initiatives[..|initiatives|] == initiatives;
      initiatives := kept;
      r := if count > 0 then Changed else Unchanged;
    }

    method LinkToRepo(product: string, repo: string) returns (r: Outcome)
      modifies this`repos
      ensures Result(State(), r) == Apply(fold, old(State()), LinkRepo(product, repo))
    {
      var existing := FirstOwner(repos, repo);
      if existing.Some? {
        if IsNamed(products, existing.value, product) {
          return Unchanged;
        }
        return OwnedBy(if existing.value < |products| then products[existing.value].name else "");
      }
      var written := CreateEdges(product, repo);
      NoEdgesExactlyWhenUnnamed(products, product, repo, |products|);
      if written == [] {
        return NoSuchProduct;
      }
      repos := repos + written;
      r := Changed;
    }
  }

  lemma {:induction false} NoEdgesExactlyWhenUnnamed(products: seq<Product>, name: string, target: string, upTo: nat)
    requires upTo <= |products|
    ensures EdgesFrom(products, name, target, upTo) == [] <==> forall k | 0 <= k < upTo :: !IsNamed(products, k, name)
    ensures forall e | e in EdgesFrom(products, name, target, upTo) ::
              e.target == target && e.product < upTo && IsNamed(products, e.product, name)
  {
    if upTo > 0 {
      NoEdgesExactlyWhenUnnamed(products, name, target, upTo - 1);
      assert products[upTo - 1].name == name <==> IsNamed(products, upTo - 1, name);
    }
  }

  /**
   After an accepted upsert the name is stored, with the fields given, and active when it is new and no status was.
   */
  lemma UpsertIsSo(fold: string -> string, r: Registry, name: string, description: Option<string>,
                   status: Option<string>)
    ensures var a := Apply(fold, r, Upsert(name, description, status));
            a.outcome != NameTaken ==>
              && (exists k :: IsNamed(a.registry.products, k, name))
              && forall k | IsNamed(a.registry.products, k, name) ::
                   && (description.Some? ==> a.registry.products[k].description == description)
                   && (status.Some? ==> a.registry.products[k].status == status.value)
                   && (a.outcome == Changed && status.None? ==> a.registry.products[k].status == "active")
  {
    var a := Apply(fold, r, Upsert(name, description, status));
    if a.outcome != NameTaken {
      if k :| 0 <= k < |r.products| && IsNamed(r.products, k, name) {
        assert IsNamed(a.registry.products, k, name);
      } else {
        assert IsNamed(a.registry.products, |r.products|, name);
        assert !Exists(r.products, name);
        assert forall k | IsNamed(a.registry.products, k, name) :: k == |r.products| || IsNamed(r.products, k, name);
      }
    }
  }

  /** After an accepted link the pair is linked, nothing is lost, and products and repositories stay. */
  lemma LinkIsSo(fold: string -> string, r: Registry, name: string, target: string)
    ensures var a := Apply(fold, r, LinkInitiative(name, target));
            && a.registry.products == r.products && a.registry.repos == r.repos
               && r.initiatives <= a.registry.initiatives
            && (a.outcome != NoSuchProduct ==> exists e :: e in a.registry.initiatives && e.target == target
                                                           && IsNamed(r.products, e.product, name))
  {
    SomeEdgeMade(r.products, name, target);
  }

  /** After an unlink the pair is not linked, and products and repositories stay. */
  lemma UnlinkIsSo(fold: string -> string, r: Registry, name: string, target: string)
    ensures var a := Apply(fold, r, UnlinkInitiative(name, target));
            && a.registry.products == r.products && a.registry.repos == r.repos
            && forall e | e in a.registry.initiatives && e.target == target :: !IsNamed(r.products, e.product, name)
  {
    WithoutKeepsOrder(r.products, r.initiatives, name, target);
  }

  /**
   After an accepted repository link the product has the repository, nothing is lost, and products and initiatives
   stay.
   */
  lemma RepoIsSo(fold: string -> string, r: Registry, name: string, target: string)
    ensures var a := Apply(fold, r, LinkRepo(name, target));
            && a.registry.products == r.products && a.registry.initiatives == r.initiatives
               && r.repos <= a.registry.repos
            && (a.outcome in {Changed, Unchanged} ==> exists e :: e in a.registry.repos && e.target == target
                                                                 && IsNamed(r.products, e.product, name))
  {
    SomeEdgeMade(r.products, name, target);
    FirstOwnerExact(r.repos, target);
    if FirstOwner(r.repos, target).Some? { assert Edge(FirstOwner(r.repos, target).value, target) in r.repos; }
  }

  lemma SomeEdgeMade(products: seq<Product>, name: string, target: string)
    ensures Exists(products, name) ==>
              exists e ::
                e in EdgesFrom(products, name, target, |products|) && e.target == target
                  && IsNamed(products, e.product, name)
  {
    NoEdgesExactlyWhenUnnamed(products, name, target, |products|);
    if Exists(products, name) {
      assert EdgesFrom(products, name, target, |products|)[0] in EdgesFrom(products, name, target, |products|);
    }
  }

  /** A run takes each operation in turn, from the empty registry. */
  lemma RunTakesEach(fold: string -> string, ops: seq<Operation>, op: Operation)
    ensures Run(fold, []) == Registry([], [], []) && Run(fold, ops + [op]) == Apply(fold, Run(fold, ops), op).registry
  {
    assert (ops + [op])[..|ops|] == ops;
  }

  /** When each operation is refused, and what the refusal names, on the stored names and edges. */
  lemma AnswersOnStoredNames(fold: string -> string, r: Registry, name: string, target: string,
                             description: Option<string>, status: Option<string>)
    ensures Apply(fold, r, Upsert(name, description, status)).outcome == NameTaken <==>
            exists p :: p in r.products && p.name != name && fold(p.name) == fold(name)
    ensures Apply(fold, r, LinkInitiative(name, target)).outcome == NoSuchProduct ==>
            forall p | p in r.products :: p.name != name
    ensures Apply(fold, r, LinkInitiative(name, target)).outcome == Unchanged <==>
            exists e ::
              e in r.initiatives && e.target == target && e.product < |r.products| && r.products[e.product].name == name
    ensures Apply(fold, r, LinkRepo(name, target)).outcome.OwnedBy? ==>
              exists e :: e in r.repos && e.target == target && (e.product < |r.products| ==>
                r.products[e.product].name == Apply(fold, r, LinkRepo(name, target)).outcome.product != name)
    ensures Apply(fold, r, LinkRepo(name, target)).outcome == NoSuchProduct ==>
              (forall p | p in r.products :: p.name != name) && forall e | e in r.repos :: e.target != target
  {
    FirstOwnerExact(r.repos, target);
    forall p | p in r.products && p.name == name ensures Exists(r.products, name) {
      var k :| 0 <= k < |r.products| && r.products[k] == p;
      assert IsNamed(r.products, k, name);
    }
    forall p | p in r.products && p.name != name && fold(p.name) == fold(name)
      ensures HasCaseFoldedDuplicate(fold, r.products, name)
    {
      var k :| 0 <= k < |r.products| && r.products[k] == p;
    }
  }

  // ----- what every run keeps

  /**
   No two products share a folded name; every edge has its product; no edge is doubled; a repository has one
   product.
   */
  ghost predicate Sound(fold: string -> string, r: Registry) {
    && DistinctNames(fold, r.products)
    && EdgesGrounded(r.products, r.initiatives) && EdgesGrounded(r.products, r.repos)
    && NoRepeats(r.initiatives)
    && OneProductEach(r.repos)
  }

  ghost predicate DistinctNames(fold: string -> string, products: seq<Product>) {
    forall j, k | 0 <= j < k < |products| :: fold(products[j].name) != fold(products[k].name)
  }

  ghost predicate EdgesGrounded(products: seq<Product>, edges: seq<Edge>) {
    forall e | e in edges :: e.product < |products|
  }

  ghost predicate OneProductEach(repos: seq<Edge>) {
    forall i, j | 0 <= i < j < |repos| :: repos[i].target != repos[j].target
  }

  lemma {:induction false} OneEdgePerName(fold: string -> string, products: seq<Product>, name: string, target: string,
                                          upTo: nat)
    requires DistinctNames(fold, products) && upTo <= |products|
    ensures |EdgesFrom(products, name, target, upTo)| <= 1
  {
    if upTo > 0 {
      OneEdgePerName(fold, products, name, target, upTo - 1);
      NoEdgesExactlyWhenUnnamed(products, name, target, upTo - 1);
    }
  }

  lemma {:induction false} WithoutKeepsOrder(products: seq<Product>, edges: seq<Edge>, product: string, target: string)
    ensures forall e ::
              e in Without(products, edges, product, target) <==>
                e in edges && !(e.target == target && IsNamed(products, e.product, product))
    ensures NoRepeats(edges) ==> NoRepeats(Without(products, edges, product, target))
  {
    if edges != [] {
      var n := |edges| - 1;
      WithoutKeepsOrder(products, edges[..n], product, target);
      assert forall e :: e in edges <==> e in edges[..n] || e == edges[n];
    }
  }

  lemma {:induction false} FirstOwnerExact(edges: seq<Edge>, repo: string)
    ensures FirstOwner(edges, repo) == None <==> forall e | e in edges :: e.target != repo
    ensures FirstOwner(edges, repo).Some? ==> Edge(FirstOwner(edges, repo).value, repo) in edges
  {
    if edges != [] && edges[0].target != repo { FirstOwnerExact(edges[1..], repo); }
  }

  lemma StepKeepsSound(fold: string -> string, r: Registry, op: Operation)
    requires Sound(fold, r)
    ensures Sound(fold, Apply(fold, r, op).registry)
  {
    match op {
      case Upsert(name, description, status) =>
        assert forall k | 0 <= k < |r.products| ::
                 fold(r.products[k].name) == fold(name) ==>
                   HasCaseFoldedDuplicate(fold, r.products, name) || IsNamed(r.products, k, name);
      case LinkInitiative(product, initiative) =>
        OneEdgePerName(fold, r.products, product, initiative, |r.products|);
        NoEdgesExactlyWhenUnnamed(r.products, product, initiative, |r.products|);
      case UnlinkInitiative(product, initiative) =>
        WithoutKeepsOrder(r.products, r.initiatives, product, initiative);
      case LinkRepo(product, repo) =>
        OneEdgePerName(fold, r.products, product, repo, |r.products|);
        NoEdgesExactlyWhenUnnamed(r.products, product, repo, |r.products|);
        FirstOwnerExact(r.repos, repo);
    }
  }

  function Run(fold: string -> string, ops: seq<Operation>): Registry {
    if ops == [] then Registry([], [], []) else Apply(fold, Run(fold, ops[..|ops| - 1]), ops[|ops| - 1]).registry
  }

  lemma {:induction false} RunsStaySound(fold: string -> string, ops: seq<Operation>)
    ensures Sound(fold, Run(fold, ops))
  {
    if ops != [] {
      RunsStaySound(fold, ops[..|ops| - 1]);
      StepKeepsSound(fold, Run(fold, ops[..|ops| - 1]), ops[|ops| - 1]);
    }
  }

  // ----- what the returned flag says

  ghost function Names(r: Registry): set<string> {
    set k | 0 <= k < |r.products| :: r.products[k].name
  }

  ghost function Pairs(r: Registry, edges: seq<Edge>): set<(string, string)> {
    set e | e in edges && e.product < |r.products| :: (r.products[e.product].name, e.target)
  }

  /**
   In every reachable registry a folded name is one product, a pair is one edge, and a repository is one product's.
   */
  lemma OneOfEach(fold: string -> string, ops: seq<Operation>)
    ensures var r := Run(fold, ops);
            && (forall j, k | 0 <= j < |r.products| && 0 <= k < |r.products| ::
                  fold(r.products[j].name) == fold(r.products[k].name) ==> j == k)
            && (forall i, j | 0 <= i < |r.initiatives| && 0 <= j < |r.initiatives| ::
                  PairAt(r, r.initiatives[i]) == PairAt(r, r.initiatives[j]) ==> i == j)
            && (forall i, j | 0 <= i < |r.repos| && 0 <= j < |r.repos| ::
                  r.repos[i].target == r.repos[j].target ==> i == j)
  {
    RunsStaySound(fold, ops);
    var r := Run(fold, ops);
    forall i, j | 0 <= i < |r.initiatives| && 0 <= j < |r.initiatives|
           && PairAt(r, r.initiatives[i]) == PairAt(r, r.initiatives[j])
      ensures i == j
    {
      assert r.initiatives[i] in r.initiatives && r.initiatives[j] in r.initiatives;
      assert r.initiatives[i].product == r.initiatives[j].product;
    }
  }

  ghost function PairAt(r: Registry, e: Edge): (Option<string>, string) {
    (if e.product < |r.products| then Some(r.products[e.product].name) else None, e.target)
  }

  lemma NamesExist(r: Registry, name: string)
    ensures Exists(r.products, name) <==> name in Names(r)
  {
    if Exists(r.products, name) {
      var k :| 0 <= k < |r.products| && IsNamed(r.products, k, name);
      assert r.products[k].name in Names(r);
    }
    if name in Names(r) {
      var k :| 0 <= k < |r.products| && r.products[k].name == name;
      assert IsNamed(r.products, k, name);
    }
  }

  lemma PairsAreLinks(r: Registry, edges: seq<Edge>, product: string, target: string)
    ensures (product, target) in Pairs(r, edges) <==> Linked(r.products, edges, product, target)
  {
  }

  /** An upsert reports a creation exactly when the name was not registered and now is; no other name comes or goes. */
  lemma UpsertFlagIsExact(fold: string -> string, r: Registry, name: string, description: Option<string>,
                          status: Option<string>)
    ensures var s := Apply(fold, r, Upsert(name, description, status));
            && (s.outcome == Changed <==> name !in Names(r) && name in Names(s.registry))
            && Names(s.registry) == (if s.outcome == Changed then Names(r) + {name} else Names(r))
            && s.registry.initiatives == r.initiatives && s.registry.repos == r.repos
            && (s.outcome == NameTaken ==> s.registry == r)
  {
    var s := Apply(fold, r, Upsert(name, description, status)).registry;
    NamesExist(r, name);
    if |s.products| == |r.products| {
      assert forall k | 0 <= k < |r.products| :: s.products[k].name == r.products[k].name;
      SameNames(r, s);
    } else {
      var last := s.products[|r.products|];
      assert last.name == name;
      assert forall k | 0 <= k < |r.products| :: s.products[k] == r.products[k];
    }
  }

  lemma SameNames(r: Registry, s: Registry)
    requires |s.products| == |r.products|
             && forall k | 0 <= k < |r.products| :: s.products[k].name == r.products[k].name
    ensures Names(s) == Names(r)
  {
    forall n | n in Names(r) ensures n in Names(s) {
      var k :| 0 <= k < |r.products| && r.products[k].name == n;
      assert s.products[k].name == n;
    }
    forall n | n in Names(s) ensures n in Names(r) {
      var k :| 0 <= k < |s.products| && s.products[k].name == n;
      assert r.products[k].name == n;
    }
  }

  /**
   An accepted upsert leaves every other product alone; of the named one it sets what was given and keeps or
   defaults the rest.
   */
  lemma UpsertSetsOnlyGiven(fold: string -> string, r: Registry, name: string, description: Option<string>,
                            status: Option<string>, k: nat)
    requires !HasCaseFoldedDuplicate(fold, r.products, name)
             && k < |Apply(fold, r, Upsert(name, description, status)).registry.products|
    ensures var p := Apply(fold, r, Upsert(name, description, status)).registry.products[k];
            if k == |r.products| then
              p.name == name && p.description == description
                && p.status == (if status.Some? then status.value else "active") && name !in Names(r)
            else if r.products[k].name != name then p == r.products[k]
            else
              p.name == name && p.description == (if description.Some? then description else r.products[k].description)
              && p.status == (if status.Some? then status.value else r.products[k].status)
  {
    NamesExist(r, name);
  }

  lemma NewEdgesAddOnePair(r: Registry, edges: seq<Edge>, product: string, target: string)
    requires Exists(r.products, product)
    ensures Pairs(r, edges + EdgesFrom(r.products, product, target, |r.products|)) == Pairs(r, edges)
            + {(product, target)}
  {
    var more := EdgesFrom(r.products, product, target, |r.products|);
    NoEdgesExactlyWhenUnnamed(r.products, product, target, |r.products|);
    assert more[0] in more;
    assert more[0] in edges + more;
    assert forall e :: e in edges + more <==> e in edges || e in more;
  }

  /** Linking an initiative adds that one pair or nothing, and says which. */
  lemma LinkFlagIsExact(fold: string -> string, r: Registry, p: string, i: string)
    ensures var s := Apply(fold, r, LinkInitiative(p, i));
            && (s.outcome == Changed <==>
                (p, i) !in Pairs(r, r.initiatives) && (p, i) in Pairs(s.registry, s.registry.initiatives))
            && Pairs(s.registry, s.registry.initiatives) == Pairs(r, r.initiatives)
               + (if s.outcome == Changed then {(p, i)} else {})
            && (s.outcome == NoSuchProduct <==> p !in Names(r) && (p, i) !in Pairs(r, r.initiatives))
            && s.registry.products == r.products && s.registry.repos == r.repos
  {
    PairsAreLinks(r, r.initiatives, p, i);
    NamesExist(r, p);
    if Exists(r.products, p) { NewEdgesAddOnePair(r, r.initiatives, p, i); }
    var s := Apply(fold, r, LinkInitiative(p, i)).registry;
    assert Pairs(s, s.initiatives) == Pairs(r, s.initiatives);
  }

  /** Unlinking removes that one pair, and says whether it was there. */
  lemma UnlinkFlagIsExact(fold: string -> string, r: Registry, p: string, i: string)
    ensures var s := Apply(fold, r, UnlinkInitiative(p, i));
            && (s.outcome == Changed <==> (p, i) in Pairs(r, r.initiatives))
            && Pairs(s.registry, s.registry.initiatives) == Pairs(r, r.initiatives) - {(p, i)}
            && s.registry.products == r.products && s.registry.repos == r.repos
  {
    PairsAreLinks(r, r.initiatives, p, i);
    WithoutKeepsOrder(r.products, r.initiatives, p, i);
    var kept := Without(r.products, r.initiatives, p, i);
    forall x ensures x in Pairs(r, kept) <==> x in Pairs(r, r.initiatives) && x != (p, i) {
      PairsAreLinks(r, kept, x.0, x.1);
      PairsAreLinks(r, r.initiatives, x.0, x.1);
      assert x == (x.0, x.1);
      if x != (p, i) && Linked(r.products, r.initiatives, x.0, x.1) {
        var e :| e in r.initiatives && e.target == x.1 && IsNamed(r.products, e.product, x.0);
        assert e in kept;
      }
    }
    var s := Apply(fold, r, UnlinkInitiative(p, i)).registry;
    assert Pairs(s, s.initiatives) == Pairs(r, kept);
  }

  /** Linking a repository adds that one pair exactly when no product has it, and otherwise names its one owner. */
  lemma RepoFlagIsExact(fold: string -> string, r: Registry, p: string, repo: string)
    requires Sound(fold, r)
    ensures var s := Apply(fold, r, LinkRepo(p, repo));
            && (s.outcome == Changed <==> p in Names(r) && forall q :: (q, repo) !in Pairs(r, r.repos))
            && Pairs(s.registry, s.registry.repos) == Pairs(r, r.repos)
               + (if s.outcome == Changed then {(p, repo)} else {})
            && (s.outcome == Unchanged <==> (p, repo) in Pairs(r, r.repos))
            && (forall q :: s.outcome == OwnedBy(q) <==> q != p && (q, repo) in Pairs(r, r.repos))
            && s.registry.products == r.products && s.registry.initiatives == r.initiatives
  {
    FirstOwnerExact(r.repos, repo);
    NamesExist(r, p);
    if Exists(r.products, p) { NewEdgesAddOnePair(r, r.repos, p, repo); }
    var s := Apply(fold, r, LinkRepo(p, repo)).registry;
    assert Pairs(s, s.repos) == Pairs(r, s.repos);
    var owner := FirstOwner(r.repos, repo);
    if owner.Some? {
      var e := Edge(owner.value, repo);
      assert e in r.repos;
      forall q ensures (q, repo) in Pairs(r, r.repos) <==> q == r.products[e.product].name {
        forall f | f in r.repos && f.target == repo ensures f == e {
          assert forall i, j | 0 <= i < |r.repos| && 0 <= j < |r.repos| && r.repos[i] == e && r.repos[j] == f :: i == j;
        }
      }
    } else {
      forall q ensures (q, repo) !in Pairs(r, r.repos) { PairsAreLinks(r, r.repos, q, repo); }
    }
  }
}
