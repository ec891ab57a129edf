/**
 The one transactional memory write. A plan is predicted (dry run) or persisted; persisting saves
 intermediate states inside a transaction and either commits whole or leaves the tables as they were.
 */
module MemoryStore {
  import opened Common
  import opened MemoryClaims
  import opened MemoryPlans
  import opened MemoryUnits
  import opened MemoryProgress
  import opened MemoryRequests
  import opened MemoryEffects
  import opened MemoryRuns
  import opened MemoryCounts
  import TicketOwnership

  // ----- persisting

  class MemoryDb {
    var rows: Store
    var labels: set<string>
    var links: map<Link, string>
    var about: map<(int, Ticket), string>
    var productLinks: set<(string, string)>

    var unit: Unit
    var newLabels: set<string>
    var saves: nat
    /** The version rows as each successful save left them. */
    ghost var trace: seq<Store>

    function Now(): Tables
      reads this
    {
      Tables(rows, labels, links, about, productLinks)
    }

    /** Everything pending reaches the tables, or the save is refused and changes nothing. */
    method Save(faults: set<nat>) returns (ok: bool)
      modifies this`rows, this`labels, this`unit, this`newLabels, this`saves, this`trace
      ensures ok <==> Saveable(old(rows), old(unit)) && old(newLabels) !! old(labels) && old(saves) !in faults
      ensures ok ==> rows == Saved(old(rows), old(unit)) && labels == old(labels) + old(newLabels)
      ensures ok ==> unit == NOTHING_PENDING && newLabels == {} && trace == old(trace) + [rows]
      ensures !ok ==> unchanged(`rows, `labels, `unit, `newLabels, `trace)
      ensures saves == old(saves) + 1
    {
      ok := Saveable(rows, unit) && newLabels !! labels && saves !in faults;
      saves := saves + 1;
      if ok {
        rows, labels := Saved(rows, unit), labels + newLabels;
        unit, newLabels := NOTHING_PENDING, {};
        trace := trace + [rows];
      }
    }

    /** A create: the memory and its first version become pending. */
    method CreateNew(env: Env, group: int, items: seq<Planned>, mint: seq<int>, clock: seq<Instant>, k: nat,
                     ghost s: Store, ghost added: map<int, nat>, ghost fits: bool)
      returns (result: ItemResult)
      requires k < |items| == |clock| && WellPlanned(items, mint) && items[k].mode == Create
      requires Underway(env, s, group, items, mint, clock, k, rows, unit, added, fits)
      modifies this`unit
      ensures Underway(env, s, group, items, mint, clock, k + 1, rows, unit, added, fits)
      ensures result
              == ItemResult(Some(NewUuid(items[k], mint[k])), BlobAddress(env.address, items[k].write.content),
                            false, false)
    {
      var uuid := NewUuid(items[k], mint[k]);
      var version := StoredVersion(env.address, 1, items[k].write, clock[k]);
      UnderwayCreate(env, s, group, items, mint, clock, k, rows, unit, added, fits);
      unit := Unit(unit.memories[uuid := RowOf(group, items[k])], unit.versions[uuid := version], {});
      return ItemResult(Some(uuid), BlobAddress(env.address, items[k].write.content), false, false);
    }

    /** A version: the current row is retired and saved before its successor becomes pending. */
    method VersionExisting(env: Env, group: int, items: seq<Planned>, mint: seq<int>, clock: seq<Instant>, k: nat,
                           added: map<int, nat>, faults: set<nat>, ghost s: Store, ghost fits: bool, ghost from: nat)
      returns (result: Option<ItemResult>)
      requires k < |items| == |clock| && WellPlanned(items, mint) && items[k].mode == NewVersion && newLabels == {}
      requires Underway(env, s, group, items, mint, clock, k, rows, unit, added, fits) && SafeTrace(s, from, trace)
      modifies this`rows, this`labels, this`unit, this`newLabels, this`saves, this`trace
      ensures labels == old(labels) && newLabels == {} && SafeTrace(s, from, trace)
      ensures result.None? ==> rows == old(rows)
      ensures result.Some? ==>
                items[k].uuid.Some?
                && Underway(env, s, group, items, mint, clock, k + 1, rows, unit,
                            added[items[k].uuid.value := items[k].next], fits)
      ensures result.Some? ==>
              result.value == ItemResult(items[k].uuid, BlobAddress(env.address, items[k].write.content), true, false)
      ensures fits && faults == {} ==> result.Some?
    {
      hide Underway, SafeTrace;
      var item := items[k];
      var uuid, number := item.uuid.value, Retiree(items[k], added);
      var version := StoredVersion(env.address, item.next, item.write, clock[k]);
      ghost var db, u := rows, unit;
      UnderwayVersion(env, s, group, items, mint, clock, k, db, u, added, fits);
      unit := Retire(unit, uuid, number);
      var ok := Save(faults);
      if !ok {
        return None;
      }
      TraceExtends(s, from, old(trace), rows);
      unit := Unit(map[], map[uuid := version], {});
      return Some(ItemResult(item.uuid, BlobAddress(env.address, item.write.content), true, false));
    }

    /** The items of a plan, in order; creates stay pending, each version item saves before it adds. */
    method PersistItems(env: Env, group: int, items: seq<Planned>, mint: seq<int>, clock: seq<Instant>,
                        faults: set<nat>)
      returns (results: Option<seq<ItemResult>>)
      requires Invariant(rows) && unit == NOTHING_PENDING && newLabels == {}
      requires WellPlanned(items, mint) && |clock| == |items| == |mint|
      requires forall i | 0 <= i < |items| && items[i].mode == Unchanged :: items[i].uuid.Some?
      modifies this`rows, this`labels, this`unit, this`newLabels, this`saves, this`trace
      ensures labels == old(labels) && newLabels == {} && SafeTrace(old(rows), |old(trace)|, trace)
      ensures results.Some? ==>
                unit.retired == {} && OneCurrentEach(rows) && AppendOnly(old(rows), rows)
                && (Insertable(rows, unit) ==> StandsFor(rows, unit, Commit(env, old(rows), group, items, mint, clock)))
      ensures results.Some? ==> Reported(env, items, mint, |items|, results.value)
      ensures AllFit(old(rows), group, items, mint) && faults == {} ==> results.Some? && Insertable(rows, unit)
    {
      hide Underway, SafeTrace, WellPlanned, Invariant, AllFit;
      TraceStarts(rows, trace);
      ghost var s, fits, from := rows, AllFit(rows, group, items, mint), |trace|;
      var added: map<int, nat> := map[];
      var done: seq<ItemResult> := [];
      UnderwayAtStart(env, s, group, items, mint, clock, fits);
      for k := 0 to |items|
        invariant labels == old(labels) && newLabels == {} && SafeTrace(s, from, trace)
        invariant Underway(env, s, group, items, mint, clock, k, rows, unit, added, fits)
        invariant Reported(env, items, mint, k, done)
      {
        if items[k].mode == Create {
          var result := CreateNew(env, group, items, mint, clock, k, s, added, fits);
          ReportOne(env, items, mint, k, done, result);
          done := done + [result];
        } else if items[k].mode == NewVersion {
          var result := VersionExisting(env, group, items, mint, clock, k, added, faults, s, fits, from);
          if result.None? {
            return None;
          }
          added := added[items[k].uuid.value := items[k].next];
          ReportOne(env, items, mint, k, done, result.value);
          done := done + [result.value];
        } else {
          UnderwaySkip(env, s, group, items, mint, clock, k, rows, unit, added, fits);
          var result := ItemResult(items[k].uuid, items[k].matched, false, true);
          ReportOne(env, items, mint, k, done, result);
          done := done + [result];
        }
      }
      UnderwayAtEnd(env, s, group, items, mint, clock, rows, unit, added, fits);
      return Some(done);
    }

    /** One link, unless the same source, target and relation are stored. */
    method CreateLink(w: LinkWrite) returns (created: bool)
      modifies this`links
      ensures created <==> w.link !in old(links)
      ensures links == if created then old(links)[w.link := w.reason] else old(links)
    {
      created := w.link !in links;
      if created {
        links := links[w.link := w.reason];
      }
    }

    /** The planned links that are not skipped, one by one. */
    method PersistLinks(planned: seq<PlannedLink>) returns (linked: nat, skipped: nat)
      modifies this`links
      ensures linked + skipped == |planned|
      ensures links == LinksAfter(old(links), planned, |planned|)
      ensures LinksAccurate(planned, old(links.Keys)) ==>
                linked == CountSkipped(planned, false) && skipped == CountSkipped(planned, true)
    {
      ghost var stored := links.Keys;
      linked, skipped := 0, 0;
      for k := 0 to |planned|
        invariant linked + skipped == k
        invariant links == LinksAfter(old(links), planned, k)
        invariant LinksAccurate(planned, stored) ==>
                    linked == CountSkipped(planned[..k], false) && skipped == CountSkipped(planned[..k], true)
      {
        LinksAfterAdds(old(links), planned, k);
        CountSkippedAppend(planned, k, false);
        CountSkippedAppend(planned, k, true);
        if LinksAccurate(planned, stored) { AccurateMeansNew(planned, stored, k); }
        if planned[k].skip {
          skipped := skipped + 1;
        } else {
          var created := CreateLink(planned[k].write);
          if created { linked := linked + 1; } else { skipped := skipped + 1; }
        }
      }
      assert planned[..|planned|] == planned;
    }

    /** One reference, unless the memory already carries one to that ticket; refused when the ticket has no vertex. */
    method CreateAbout(memory: int, t: Ticket, reason: string, vertices: set<Ticket>) returns (created: Option<bool>)
      modifies this`about
      ensures created.None? <==> (memory, t) !in old(about) && t !in vertices
      ensures created.Some? ==> created.value == ((memory, t) !in old(about))
      ensures about == if created == Some(true) then old(about)[(memory, t) := reason] else old(about)
    {
      if (memory, t) in about {
        return Some(false);
      }
      if t !in vertices {
        return None;
      }
      about := about[(memory, t) := reason];
      return Some(true);
    }

    /** Every written memory gets every reference; refused when one is neither stored nor to a ticket with a vertex. */
    method PersistReferences(results: seq<ItemResult>, references: seq<Reference>, vertices: set<Ticket>)
      returns (ok: bool, created: nat, present: nat)
      requires forall i | 0 <= i < |results| :: results[i].uuid.Some?
      modifies this`about
      ensures ok <==> Referable(old(about.Keys), UuidsOf(results), references, vertices)
      ensures ok ==> created + present == Grid(references, |results|) && |about| == |old(about)| + created
      ensures ok ==> about == AboutAfter(old(about), UuidsOf(results), references, |results|)
    {
      ok, created, present := true, 0, 0;
      hide Grid, ReferableOne, ReferencesAfter;
      ghost var uuids := UuidsOf(results);
      OneRowMoreInGrid(references, 0);
      for i := 0 to |results|
        invariant created + present == Grid(references, i) && |about| == |old(about)| + created
        invariant about == AboutAfter(old(about), uuids, references, i)
        invariant forall n | 0 <= n < i :: ReferableOne(old(about.Keys), uuids[n], references, |references|, vertices)
      {
        StillReferable(old(about), uuids, references, i, vertices);
        OneRowMoreInGrid(references, i);
        var done, c, p := ReferenceMemory(results[i].uuid.value, references, vertices);
        if !done {
          return false, created, present;
        }
        created, present := created + c, present + p;
      }
    }

    method ReferenceMemory(memory: int, references: seq<Reference>, vertices: set<Ticket>)
      returns (ok: bool, created: nat, present: nat)
      modifies this`about
      ensures ok <==> ReferableOne(old(about.Keys), memory, references, |references|, vertices)
      ensures ok ==> created + present == |references| && |about| == |old(about)| + created
      ensures ok ==> about == ReferencesAfter(old(about), memory, references, |references|)
    {
      ok, created, present := true, 0, 0;
      for j := 0 to |references|
        invariant created + present == j && |about| == |old(about)| + created
        invariant about == ReferencesAfter(old(about), memory, references, j)
        invariant ReferableOne(old(about.Keys), memory, references, j, vertices)
      {
        OneMoreReferable(old(about), memory, references, j, vertices);
        MapGrows(about, (memory, references[j].ticket), ReasonOf(references[j]));
        var edge := CreateAbout(memory, references[j].ticket, ReasonOf(references[j]), vertices);
        if edge.None? {
          return false, created, present;
        }
        if edge.value { created := created + 1; } else { present := present + 1; }
      }
    }

    /** The rows and labels of a plan, saved; None when a save is refused. */
    method PersistRows(env: Env, plan: WritePlan, mint: seq<int>, clock: seq<Instant>, faults: set<nat>)
      returns (results: Option<seq<ItemResult>>)
      requires Invariant(rows) && unit == NOTHING_PENDING && newLabels == {}
      requires WellPlanned(plan.items, mint) && |clock| == |plan.items| == |mint|
      requires forall i | 0 <= i < |plan.items| && plan.items[i].mode == Unchanged :: plan.items[i].uuid.Some?
      modifies this`rows, this`labels, this`unit, this`newLabels, this`saves, this`trace
      ensures SafeTrace(old(rows), |old(trace)|, trace)
      ensures results.Some? ==>
                && rows == Commit(env, old(rows), plan.group, plan.items, mint, clock)
                && labels == old(labels) + Members(plan.labels) && unit == NOTHING_PENDING && newLabels == {}
                && Invariant(rows) && AppendOnly(old(rows), rows)
                && Reported(env, plan.items, mint, |plan.items|, results.value)
      ensures AllFit(old(rows), plan.group, plan.items, mint) && faults == {} && Members(plan.labels) !! old(labels) ==>
                results.Some?
    {
      hide StandsFor, Invariant, WellPlanned, AllFit, SafeTrace, AppendOnly, OneCurrentEach, Reported, Saved, Saveable,
        Insertable;
      ghost var rows0 := rows;
      StartsClean(rows);
      results := PersistItems(env, plan.group, plan.items, mint, clock, faults);
      if results.Some? {
        newLabels := Members(plan.labels);
        ghost var db, u, t := rows, unit, Commit(env, rows0, plan.group, plan.items, mint, clock);
        FinalSave(rows0, db, u, t);
        var ok := Save(faults);
        if !ok {
          return None;
        }
        TraceExtends(rows0, |old(trace)|, trace[..|trace| - 1], rows);
        assert trace == trace[..|trace| - 1] + [rows];
      }
    }

    /** The graph part of a write: links, references and the product link, in that order. */
    method PersistGraph(plan: WritePlan, results: seq<ItemResult>, world: World)
      returns (ok: bool, linked: nat, skipped: nat, created: nat, present: nat, productCount: nat)
      requires forall i | 0 <= i < |results| :: results[i].uuid.Some?
      modifies this`links, this`about, this`productLinks
      ensures ok <==> Referable(old(about.Keys), UuidsOf(results), plan.references, world.ticketVertices)
                      && ProductBindable(old(productLinks), world.products, plan)
      ensures ok ==> links == LinksAfter(old(links), plan.links, |plan.links|)
      ensures ok ==> about == AboutAfter(old(about), UuidsOf(results), plan.references, |results|)
      ensures ok ==> productLinks == old(productLinks) + Declared(plan.productName, plan.initiative)
      ensures ok ==> linked + skipped == |plan.links| && created + present == Grid(plan.references, |results|)
      ensures ok ==> |about| == |old(about)| + created
      ensures ok ==> LinksAccurate(plan.links, old(links.Keys)) ==>
                linked == CountSkipped(plan.links, false) && skipped == CountSkipped(plan.links, true)
      ensures ok ==> productCount == if plan.productName.Some? && plan.initiative.Some?
                                        && (plan.productName.value, plan.initiative.value) !in old(productLinks)
                                          then 1 else 0
    {
      hide LinksAfter, AboutAfter, Referable, LinksAccurate, Grid;
      linked, skipped := PersistLinks(plan.links);
      ok, created, present := PersistReferences(results, plan.references, world.ticketVertices);
      var bound: bool;
      bound, productCount := PersistProduct(plan, world.products);
      ok := ok && bound;
    }

    /**
     The write transaction. Whatever fails, the tables are left as they were; what commits is the plan,
     and every intermediate save has at most one current row per memory and only adds to the rows.
     */
    method Persist(env: Env, world: World, plan: WritePlan, mint: seq<int>, clock: seq<Instant>)
      returns (response: Option<Response>)
      requires Invariant(rows) && unit == NOTHING_PENDING && newLabels == {}
      requires WellPlanned(plan.items, mint) && |clock| == |plan.items| == |mint|
      requires forall i | 0 <= i < |plan.items| && plan.items[i].mode == Unchanged :: plan.items[i].uuid.Some?
      modifies this
      ensures unit == NOTHING_PENDING && newLabels == {}
      ensures Now() == if response.None? then old(Now()) else After(env, old(Now()), plan, mint, clock)
      ensures Invariant(rows) && AppendOnly(old(rows), rows)
      ensures SafeTrace(old(rows), |old(trace)|, trace)
      ensures response.Some? ==> Reported(env, plan.items, mint, |plan.items|, response.value.items)
      ensures response.Some? ==> PlanStillTrue(plan, old(links.Keys), old(productLinks)) ==>
              Agrees(Predict(plan), response.value)
      ensures response.Some? ==> response.value.linked + response.value.skipped == |plan.links|
      ensures response.Some? ==> |about| == |old(about)| + response.value.referencesCreated
      ensures response.Some? ==> Writable(old(Now()), world, plan, mint)
      ensures Writable(old(Now()), world, plan, mint) && AllFit(old(rows), plan.group, plan.items, mint)
              && world.faults == {}
              && Members(plan.labels) !! old(labels)
              ==> response.Some?
    {
      hide StandsFor, Invariant, WellPlanned, AllFit, SafeTrace, AppendOnly, OneCurrentEach, LinksAccurate,
        PlanStillTrue, Agrees, Predict, Reported, LinksAfter, AboutAfter, Referable, Saved, Saveable, Insertable,
        ProductBindable, Grid, Writable, After, Commit, Members, Declared;
      var rows0, labels0, links0, about0, productLinks0 := rows, labels, links, about, productLinks;
      NothingChanged(rows);
      var results := PersistRows(env, plan, mint, clock, world.faults);
      if results.Some? {
        ReportedUuids(env, plan.items, mint, results.value);
        var ok, linked, skipped, created, present, productCount := PersistGraph(plan, results.value, world);
        TablesAfter(env, Tables(rows0, labels0, links0, about0, productLinks0), plan, mint, clock, world);
        if ok {
          var creates, versions := CountMode(plan.items, Create), CountMode(plan.items, NewVersion);
          var unchangedCount, diverged := CountMode(plan.items, Unchanged), CountDiverged(plan.items);
          response := Some(Response(creates, versions, unchangedCount, linked, diverged, skipped, |plan.labels|,
                                    created, present, results.value, productCount));
          ResponseAgrees(env, plan, mint, links0.Keys, productLinks0, linked, skipped, created, present,
                         results.value, productCount);
          return;
        }
      }
      rows, labels, links, about, productLinks := rows0, labels0, links0, about0, productLinks0;
      unit, newLabels := NOTHING_PENDING, {};
      return None;
    }

    /** Every decision of a write, taken against the tables and changing nothing; None when the request is refused. */
    method BuildPlan(env: Env, fold: string -> string, world: World, request: Request) returns (plan: Option<WritePlan>)
      requires request.group in world.groups
      ensures plan == PlanOf(env, fold, Now(), world, request)
    {
      var verdict := BuildItems(env, rows, request.group, request.items);
      if verdict.Refused? {
        return None;
      }
      var planned := PlanLinks(request.links, verdict.plan.items, rows.memories.Keys, links.Keys);
      if planned.None? {
        return None;
      }
      var toInsert := PlanLabels(fold, request.labels, labels);
      var references := PlanReferences(request.references, request.group, world.groups);
      if references.None? {
        return None;
      }
      var product := ProductNamed(request);
      var initiative := InitiativeOf(world, request.group, product);
      if product.Some? && product.value !in world.products {
        return None;
      }
      var wouldLink := product.Some? && initiative.Some? && (product.value, initiative.value) !in productLinks;
      return Some(WritePlan(request.group, verdict.plan.items, planned.value, toInsert, references.value, product,
                            initiative, wouldLink));
    }

    /**
     The endpoint: a dry run answers with the prediction; a write persists the plan whole, or fails and leaves the
     tables as they were.
     */
    method Handle(env: Env, fold: string -> string, world: World, request: Request, dryRun: bool, mint: seq<int>,
                  clock: seq<Instant>, ghost others: map<int, TicketOwnership.Process>, ghost p: int)
      returns (response: Option<Response>)
      requires p !in others
      requires Invariant(rows) && unit == NOTHING_PENDING && newLabels == {}
      requires MintedFresh(rows, request.items, mint) && |clock| == |request.items|
      modifies this
      ensures unit == NOTHING_PENDING && newLabels == {} && Invariant(rows) && AppendOnly(old(rows), rows)
      ensures OneItemEach(env, fold, old(Now()), world, request, mint)
      ensures if dryRun then Foretold(env, fold, old(Now()), world, request, response) && Now() == old(Now())
              else Answered(env, fold, old(Now()), world, request, mint, clock, response, Now())
      ensures forall x | x in about && x !in old(about) ::
                && x.0 in rows.memories && rows.memories[x.0].group == request.group && request.group in world.groups
                && x.1 !in world.groups[request.group] && exists g :: g in world.groups && x.1 in world.groups[g]
      ensures !dryRun && response.Some? ==> CountsGrowth(old(Now()), Now(), request, response.value)
      ensures !dryRun && response.Some? ==>
                TicketOwnership.Leads(AsSeen(world.groups, old(Now()), others),
                                      AsSeen(world.groups, Now(), others[p := TicketOwnership.Idle]))
    {
      hide StandsFor, WellPlanned, AllFit, LinksAccurate, PlanStillTrue, Agrees, Predict, SafeTrace, PlanOf,
        After, AsSeen;
      StartsClean(rows);
      if request.group !in world.groups {
        NoGroupNoPlan(env, fold, Now(), world, request);
        return None;
      }
      ghost var before := Now();
      var plan := BuildPlan(env, fold, world, request);
      if plan.None? {
        return None;
      }
      PlanIsSound(env, fold, Now(), world, request);
      PlanIsReady(env, rows, request, plan.value, mint);
      if dryRun {
        return Some(Predict(plan.value));
      }
      WritingIsARun(env, fold, before, world, request, mint, clock, others, p);
      forall x | x in After(env, before, plan.value, mint, clock).about && x !in before.about
        ensures WrittenAbroad(world, request.group, After(env, before, plan.value, mint, clock), x)
      {
        NewReferencesAreForeign(env, fold, before, world, request, mint, clock, x);
      }
      response := Persist(env, world, plan.value, mint, clock);
      if response.Some? {
        CountsAreGrowth(env, fold, before, world, request, mint, clock, response.value);
        forall x | x in about && x !in old(about) ensures WrittenAbroad(world, request.group, Now(), x) {
        }
      }
    }

    /**
     A dry run, then the same request as a write. What the dry run refuses the write refuses too, and the answers
     agree. With no fault of the store, the write is refused only by the dry run, or for a
     reference the graph cannot make.
     */
    method DryRunThenWrite(env: Env, fold: string -> string, world: World, request: Request, mint: seq<int>,
                           clock: seq<Instant>, ghost others: map<int, TicketOwnership.Process>, ghost p: int)
      returns (foretold: Option<Response>, response: Option<Response>)
      requires p !in others
      requires Invariant(rows) && unit == NOTHING_PENDING && newLabels == {}
      requires MintedFresh(rows, request.items, mint) && |clock| == |request.items|
      modifies this
      ensures OneItemEach(env, fold, old(Now()), world, request, mint)
      ensures response.Some? ==> foretold.Some? && Agrees(foretold.value, response.value)
      ensures foretold.Some? <==> old(PlanOf(env, fold, Now(), world, request)).Some?
      ensures world.faults == {} ==>
                (response.Some? <==> foretold.Some? && GraphAccepts(env, fold, old(Now()), world, request, mint))
      ensures response.None? ==> Now() == old(Now())
      ensures response.Some? ==>
              Now() == After(env, old(Now()), old(PlanOf(env, fold, Now(), world, request)).value, mint, clock)
    {
      foretold := Handle(env, fold, world, request, true, mint, clock, others, p);
      response := Handle(env, fold, world, request, false, mint, clock, others, p);
    }

    /** The product link, when a product was named and the group has an initiative. */
    method PersistProduct(plan: WritePlan, products: set<string>) returns (ok: bool, count: nat)
      modifies this`productLinks
      ensures ok ==> productLinks == old(productLinks) + Declared(plan.productName, plan.initiative)
      ensures ok <==> ProductBindable(old(productLinks), products, plan)
      ensures ok ==> count == if plan.productName.Some? && plan.initiative.Some?
                                 && (plan.productName.value, plan.initiative.value) !in old(productLinks) then 1 else 0
    {
      ok, count := true, 0;
      if plan.productName.Some? && plan.initiative.Some? {
        var link := (plan.productName.value, plan.initiative.value);
        if link !in productLinks {
          if link.0 !in products {
            return false, 0;
          }
          productLinks, count := productLinks + {link}, 1;
        }
      }
    }
  }

  /** The plan's items are the planner's answer to the request against these tables. */
  ghost predicate PlannedFrom(env: Env, s: Store, request: Request, plan: WritePlan) {
    && plan.group == request.group
    && PlanAll(env, s, request.group, request.items).Accepted?
    && plan.items == PlanAll(env, s, request.group, request.items).plan.items
    && |plan.links| == |request.links| && forall k | 0 <= k < |request.links| :: plan.links[k].write == request.links[k]
  }

  // ----- the endpoint's answers

  /** A reference from a memory of the group to a ticket some other group lists and it does not. */
  ghost predicate WrittenAbroad(world: World, group: int, t: Tables, x: (int, Ticket)) {
    && x.0 in t.rows.memories && t.rows.memories[x.0].group == group && group in world.groups
    && x.1 !in world.groups[group] && exists g :: g in world.groups && x.1 in world.groups[g]
  }

  /** The counts of a response that agrees with the plan's prediction are the growth of the tables. */
  lemma CountsAreGrowth(env: Env, fold: string -> string, t: Tables, world: World, request: Request, mint: seq<int>,
                        clock: seq<Instant>, r: Response)
    requires Invariant(t.rows) && MintedFresh(t.rows, request.items, mint) && |clock| == |mint|
    requires OneItemEach(env, fold, t, world, request, mint) && PlanOf(env, fold, t, world, request).Some?
    requires var plan := PlanOf(env, fold, t, world, request).value;
             Agrees(Predict(plan), r) && |After(env, t, plan, mint, clock).about| == |t.about| + r.referencesCreated
    ensures CountsGrowth(t, After(env, t, PlanOf(env, fold, t, world, request).value, mint, clock), request, r)
  {
    hide *;
    var plan := PlanOf(env, fold, t, world, request).value;
    PlanHasOneItemEach(env, fold, t, world, request, mint);
    AgreedCounts(plan, r);
    CountsOfTables(env, t, plan, mint, clock, request, r);
    PlanIsSound(env, fold, t, world, request);
    PlanIsReady(env, t.rows, request, plan, mint);
    PlannedRowsGrow(env, t.rows, request.group, plan.items, mint, clock);
    StillTrue(plan, t.links.Keys, t.productLinks);
    PlannedLinksGrow(t.links, plan.links);
    PlannedLabels(env, fold, t, world, request);
    LabelsGrow(fold, request.labels, t.labels);
    OneProductLink(t.productLinks, plan);
  }

  lemma AgreedCounts(plan: WritePlan, r: Response)
    requires Agrees(Predict(plan), r)
    ensures r.created == CountMode(plan.items, Create) && r.versioned == CountMode(plan.items, NewVersion)
    ensures r.noChange == CountMode(plan.items, Unchanged) && r.labels == |plan.labels|
    ensures r.linked == CountSkipped(plan.links, false) && r.skipped == CountSkipped(plan.links, true)
    ensures r.productLinks == if plan.wouldLinkProduct then 1 else 0
  {
  }

  lemma PlanHasOneItemEach(env: Env, fold: string -> string, t: Tables, world: World, request: Request, mint: seq<int>)
    requires OneItemEach(env, fold, t, world, request, mint) && PlanOf(env, fold, t, world, request).Some?
    ensures |PlanOf(env, fold, t, world, request).value.items| == |mint| == |request.items|
    ensures PlanOf(env, fold, t, world, request).value.group == request.group
  {
  }

  /** The growth of the tables, table by table. */
  lemma CountsOfTables(env: Env, t: Tables, plan: WritePlan, mint: seq<int>, clock: seq<Instant>, request: Request,
                       r: Response)
    requires |plan.items| == |mint| == |clock|
    ensures CountsGrowth(t, After(env, t, plan, mint, clock), request, r) <==>
            && |Commit(env, t.rows, plan.group, plan.items, mint, clock).memories| == |t.rows.memories| + r.created
            && |VersionKeys(Commit(env, t.rows, plan.group, plan.items, mint, clock))|
               == |VersionKeys(t.rows)| + r.created + r.versioned
            && |t.labels + Members(plan.labels)| == |t.labels| + r.labels
            && |LinksAfter(t.links, plan.links, |plan.links|)| == |t.links| + r.linked
            && |After(env, t, plan, mint, clock).about| == |t.about| + r.referencesCreated
            && |t.productLinks + Declared(plan.productName, plan.initiative)| == |t.productLinks| + r.productLinks
            && r.created + r.versioned + r.noChange == |request.items| && r.linked + r.skipped == |request.links|
  {
    hide Commit, VersionKeys, Members, LinksAfter, AboutAfter, Declared;
  }

  lemma StillTrue(plan: WritePlan, links: set<Link>, productLinks: set<(string, string)>)
    requires PlanStillTrue(plan, links, productLinks)
    ensures LinksAccurate(plan.links, links)
    ensures plan.wouldLinkProduct <==> !(Declared(plan.productName, plan.initiative) <= productLinks)
  {
  }

  lemma PlannedRowsGrow(env: Env, s: Store, group: int, items: seq<Planned>, mint: seq<int>, clock: seq<Instant>)
    requires Invariant(s) && WellPlanned(items, mint) && AllFit(s, group, items, mint) && |items| == |clock|
    ensures |Commit(env, s, group, items, mint, clock).memories| == |s.memories| + CountMode(items, Create)
    ensures |VersionKeys(Commit(env, s, group, items, mint, clock))|
            == |VersionKeys(s)| + CountMode(items, Create) + CountMode(items, NewVersion)
    ensures CountMode(items, Create) + CountMode(items, NewVersion) + CountMode(items, Unchanged) == |items|
  {
    hide WellPlanned, AllFit, CommitFirst, VersionKeys, CountMode;
    RowsGrow(env, s, group, items, mint, clock, |items|);
    assert items[..|items|] == items;
    ModesAddUp(items);
  }

  lemma PlannedLinksGrow(links: map<Link, string>, planned: seq<PlannedLink>)
    requires LinksAccurate(planned, links.Keys)
    ensures |LinksAfter(links, planned, |planned|)| == |links| + CountSkipped(planned, false)
    ensures CountSkipped(planned, false) + CountSkipped(planned, true) == |planned|
  {
    LinksGrow(links, planned, |planned|);
    assert planned[..|planned|] == planned;
    SkippedPlusLinked(planned);
  }

  lemma PlannedLabels(env: Env, fold: string -> string, t: Tables, world: World, request: Request)
    requires PlanOf(env, fold, t, world, request).Some?
    ensures PlanOf(env, fold, t, world, request).value.labels == LabelsPlanned(fold, request.labels, t.labels)
    ensures |PlanOf(env, fold, t, world, request).value.links| == |request.links|
  {
  }

  lemma OneProductLink(stored: set<(string, string)>, plan: WritePlan)
    ensures var declared := Declared(plan.productName, plan.initiative);
            |stored + declared| == |stored| + if declared <= stored then 0 else 1
  {
    var declared := Declared(plan.productName, plan.initiative);
    if declared <= stored {
      assert stored + declared == stored;
    }
  }

  lemma NoGroupNoPlan(env: Env, fold: string -> string, t: Tables, world: World, request: Request)
    requires request.group !in world.groups
    ensures PlanOf(env, fold, t, world, request).None?
  {
  }

  /** The plan of a request has one item per write. */
  ghost predicate OneItemEach(env: Env, fold: string -> string, t: Tables, world: World, request: Request,
                              mint: seq<int>) {
    var plan := PlanOf(env, fold, t, world, request);
    |mint| == |request.items| && (plan.Some? ==> |plan.value.items| == |mint|)
  }

  /** Every planned reference is stored already, or is to a ticket that has a vertex. */
  ghost predicate GraphAccepts(env: Env, fold: string -> string, t: Tables, world: World, request: Request,
                               mint: seq<int>)
    requires OneItemEach(env, fold, t, world, request, mint)
  {
    var plan := PlanOf(env, fold, t, world, request);
    plan.Some? ==> Referable(t.about.Keys, Uuids(plan.value.items, mint), plan.value.references, world.ticketVertices)
  }

  /** A dry run's answer against the tables. */
  ghost predicate Foretold(env: Env, fold: string -> string, t: Tables, world: World, request: Request,
                           response: Option<Response>) {
    var plan := PlanOf(env, fold, t, world, request);
    response == if plan.Some? then Some(Predict(plan.value)) else None
  }

  /** A write's answer against the tables, and the tables it leaves. */
  ghost predicate Answered(env: Env, fold: string -> string, t: Tables, world: World, request: Request, mint: seq<int>,
                           clock: seq<Instant>, response: Option<Response>, after: Tables)
    requires OneItemEach(env, fold, t, world, request, mint) && |clock| == |mint|
  {
    var plan := PlanOf(env, fold, t, world, request);
    && (response.None? ==> after == t)
    && (response.Some? ==>
        plan.Some? && after == After(env, t, plan.value, mint, clock) && Agrees(Predict(plan.value), response.value))
    && (response.Some? || world.faults == {} ==>
          (response.Some? <==> plan.Some? && GraphAccepts(env, fold, t, world, request, mint)))
  }

  /** What a plan made against the tables says of them. */
  lemma PlanIsSound(env: Env, fold: string -> string, t: Tables, world: World, request: Request)
    requires PlanOf(env, fold, t, world, request).Some?
    ensures var plan := PlanOf(env, fold, t, world, request).value;
            && PlannedFrom(env, t.rows, request, plan) && PlanStillTrue(plan, t.links.Keys, t.productLinks)
            && Members(plan.labels) !! t.labels && AllOwnedElsewhere(world.groups, plan.references, request.group)
            && (plan.productName.Some? ==> plan.productName.value in world.products)
  {
    MarkedAreAccurate(request.links, t.links.Keys);
    NotStoredIsNew(DistinctFolded(fold, request.labels), t.labels);
    KeptAreOwned(world.groups, request.references, request.group);
  }

  lemma PlanIsReady(env: Env, s: Store, request: Request, plan: WritePlan, mint: seq<int>)
    requires Invariant(s) && MintedFresh(s, request.items, mint) && PlannedFrom(env, s, request, plan)
    ensures |plan.items| == |request.items| == |mint| && WellPlanned(plan.items, mint)
            && AllFit(s, request.group, plan.items, mint)
    ensures forall i | 0 <= i < |plan.items| && plan.items[i].mode == Unchanged :: plan.items[i].uuid.Some?
  {
    PlansAreWell(env, s, request.group, request.items, mint, |mint|);
    assert mint[..|mint|] == mint;
    UnchangedHasUuid(env, s, request.group, request.items, |mint|);
  }

  lemma {:induction false} UnchangedHasUuid(env: Env, s: Store, group: int, writes: seq<MemoryWrite>, k: nat)
    requires k <= |writes| && PlanFirst(env, s, group, writes, k).Accepted?
    ensures var items := PlanFirst(env, s, group, writes, k).plan.items;
            forall i | 0 <= i < |items| && items[i].mode == Unchanged :: items[i].uuid.Some?
  {
    if k > 0 { UnchangedHasUuid(env, s, group, writes, k - 1); }
  }

  /** Nothing came between planning and persisting that the counts depend on. */
  ghost predicate PlanStillTrue(plan: WritePlan, links: set<Link>, productLinks: set<(string, string)>) {
    && LinksAccurate(plan.links, links)
    && plan.wouldLinkProduct == (plan.productName.Some? && plan.initiative.Some?
                                 && (plan.productName.value, plan.initiative.value) !in productLinks)
  }

  lemma ResponseAgrees(env: Env, plan: WritePlan, mint: seq<int>, links: set<Link>,
                       productLinks: set<(string, string)>, linked: nat, skipped: nat, created: nat, present: nat,
                       results: seq<ItemResult>, productCount: nat)
    requires LinksAccurate(plan.links, links) ==>
             linked == CountSkipped(plan.links, false) && skipped == CountSkipped(plan.links, true)
    requires created + present == Grid(plan.references, |results|)
             && Reported(env, plan.items, mint, |plan.items|, results)
    requires productCount == if plan.productName.Some? && plan.initiative.Some?
                                && (plan.productName.value, plan.initiative.value) !in productLinks then 1 else 0
    ensures PlanStillTrue(plan, links, productLinks) ==>
              Agrees(Predict(plan),
                     Response(CountMode(plan.items, Create), CountMode(plan.items, NewVersion),
                              CountMode(plan.items, Unchanged), linked, CountDiverged(plan.items), skipped,
                              |plan.labels|, created, present, results, productCount))
  {
    forall i | 0 <= i < |plan.items|
      ensures ReportedItem(env, plan.items[i], mint[i], results[i])
    {
    }
  }

  function UuidsOf(results: seq<ItemResult>): (uuids: seq<int>)
    requires forall i | 0 <= i < |results| :: results[i].uuid.Some?
    ensures |uuids| == |results| && forall i | 0 <= i < |results| :: uuids[i] == results[i].uuid.value
  {
    seq(|results|, i requires 0 <= i < |results| => results[i].uuid.value)
  }

  /** The declared product link is stored, or its product is registered. */
  predicate ProductBindable(stored: set<(string, string)>, products: set<string>, plan: WritePlan) {
    Declared(plan.productName, plan.initiative) <= stored
      || (plan.productName.Some? && plan.productName.value in products)
  }

  /** The graph accepts everything the plan asks of it. */
  predicate Writable(t: Tables, world: World, plan: WritePlan, mint: seq<int>)
    requires |plan.items| == |mint|
  {
    && Referable(t.about.Keys, Uuids(plan.items, mint), plan.references, world.ticketVertices)
    && ProductBindable(t.productLinks, world.products, plan)
  }

  lemma NothingChanged(s: Store)
    requires Invariant(s)
    ensures AppendOnly(s, s)
  {
    StartsClean(s);
  }

  lemma TablesAfter(env: Env, t: Tables, plan: WritePlan, mint: seq<int>, clock: seq<Instant>, world: World)
    requires |plan.items| == |mint| == |clock|
    ensures After(env, t, plan, mint, clock)
            == Tables(Commit(env, t.rows, plan.group, plan.items, mint, clock), t.labels + Members(plan.labels),
                      LinksAfter(t.links, plan.links, |plan.links|),
                      AboutAfter(t.about, Uuids(plan.items, mint), plan.references, |plan.items|),
                      t.productLinks + Declared(plan.productName, plan.initiative))
    ensures Writable(t, world, plan, mint) <==>
            && Referable(t.about.Keys, Uuids(plan.items, mint), plan.references, world.ticketVertices)
            && ProductBindable(t.productLinks, world.products, plan)
  {
  }

  lemma StartsClean(s: Store)
    requires Invariant(s)
    ensures AppendOnly(s, s) && OneCurrentEach(s)
  {
    forall m | m in s.history
      ensures AtMostOneCurrent(s.history[m])
    {
      assert Chain(s.history[m]);
    }
  }

  /** The last save: whatever is accepted is the specified store, and a fitting plan is accepted. */
  lemma FinalSave(s: Store, db: Store, u: Unit, t: Store)
    requires u.retired == {} && OneCurrentEach(db) && AppendOnly(s, db) && (Insertable(db, u) ==> StandsFor(db, u, t))
    ensures Insertable(db, u) ==> Saveable(db, u)
    ensures Saveable(db, u) ==> Saved(db, u) == t && Invariant(t) && OneCurrentEach(t) && AppendOnly(s, t)
  {
    if Insertable(db, u) {
      PendingIsSaveable(db, u, t);
      SavedIs(db, u, t);
      SaveAppends(db, u);
      AppendOnlyJoins(s, db, t);
    }
  }

  ghost predicate ReportedItem(env: Env, it: Planned, minted: int, r: ItemResult) {
    r.versioned == (it.mode == NewVersion) && r.noChange == (it.mode == Unchanged)
      && r.uuid == Some(NewUuid(it, minted))
      && r.blobAddress == (if it.mode == Unchanged then it.matched
                           else if it.write.content == "" then None else Some(env.address(it.write.content)))
  }

  /** The results of the first k items. */
  ghost predicate Reported(env: Env, items: seq<Planned>, mint: seq<int>, k: nat, results: seq<ItemResult>) {
    |results| == k <= |items| == |mint| && forall i | 0 <= i < k :: ReportedItem(env, items[i], mint[i], results[i])
  }

  lemma ReportedUuids(env: Env, items: seq<Planned>, mint: seq<int>, results: seq<ItemResult>)
    requires Reported(env, items, mint, |items|, results)
    ensures |results| == |items| && forall i | 0 <= i < |results| :: results[i].uuid.Some?
    ensures UuidsOf(results) == Uuids(items, mint)
  {
    forall i | 0 <= i < |results|
      ensures results[i].uuid == Some(NewUuid(items[i], mint[i]))
    {
      assert ReportedItem(env, items[i], mint[i], results[i]);
    }
  }

  lemma ReportOne(env: Env, items: seq<Planned>, mint: seq<int>, k: nat, results: seq<ItemResult>, r: ItemResult)
    requires Reported(env, items, mint, k, results) && k < |items| && ReportedItem(env, items[k], mint[k], r)
    ensures Reported(env, items, mint, k + 1, results + [r])
  {
  }

  /** Every save from the given one on left at most one current row per memory, and only ever added to the rows in s. */
  ghost predicate SafeTrace(s: Store, from: nat, trace: seq<Store>) {
    from <= |trace| && forall n | from <= n < |trace| :: OneCurrentEach(trace[n]) && AppendOnly(s, trace[n])
  }

  lemma TraceStarts(s: Store, trace: seq<Store>)
    ensures SafeTrace(s, |trace|, trace)
  {
  }

  lemma TraceExtends(s: Store, from: nat, trace: seq<Store>, last: Store)
    requires SafeTrace(s, from, trace) && OneCurrentEach(last) && AppendOnly(s, last)
    ensures SafeTrace(s, from, trace + [last])
  {
  }

  // ----- what the persist loop keeps

  /** k items into a plan, over tables that started as s: fits says the plan was made against s itself. */
  ghost predicate Underway(env: Env, s: Store, group: int, items: seq<Planned>, mint: seq<int>,
                           clock: seq<Instant>, k: nat, db: Store, u: Unit, added: map<int, nat>, fits: bool)
    requires k <= |items| == |mint| == |clock|
  {
    var t := CommitFirst(env, s, group, items, mint, clock, k);
    && s.history.Keys == s.memories.Keys
    && Tracked(items, mint, group, k, u, added) && OnCourse(db, u, t, added)
    && OneCurrentEach(db) && AppendOnly(s, db)
    && (fits ==> AllFit(s, group, items, mint) && Insertable(db, u) && GrownFrom(s, group, items, mint, k, t))
  }

  lemma UnderwayAtStart(env: Env, s: Store, group: int, items: seq<Planned>, mint: seq<int>, clock: seq<Instant>,
                        fits: bool)
    requires Invariant(s) && |items| == |mint| == |clock| && (fits ==> AllFit(s, group, items, mint))
    ensures Underway(env, s, group, items, mint, clock, 0, s, NOTHING_PENDING, map[], fits)
  {
    StandsForStored(s);
  }

  lemma UnderwayAtEnd(env: Env, s: Store, group: int, items: seq<Planned>, mint: seq<int>, clock: seq<Instant>,
                      db: Store, u: Unit, added: map<int, nat>, fits: bool)
    requires |items| == |mint| == |clock| && Underway(env, s, group, items, mint, clock, |items|, db, u, added, fits)
    ensures u.retired == {} && OneCurrentEach(db) && AppendOnly(s, db) && (fits ==> Insertable(db, u))
    ensures Insertable(db, u) ==> StandsFor(db, u, Commit(env, s, group, items, mint, clock))
  {
  }

  lemma UnderwaySkip(env: Env, s: Store, group: int, items: seq<Planned>, mint: seq<int>, clock: seq<Instant>, k: nat,
                     db: Store, u: Unit, added: map<int, nat>, fits: bool)
    requires k < |items| == |clock| && WellPlanned(items, mint) && items[k].mode == Unchanged
    requires Underway(env, s, group, items, mint, clock, k, db, u, added, fits)
    ensures Underway(env, s, group, items, mint, clock, k + 1, db, u, added, fits)
  {
    TrackedSkip(items, mint, group, k, u, added);
    if fits { GrowsFrom(env, s, group, items, mint, k, CommitFirst(env, s, group, items, mint, clock, k), clock[k]); }
  }

  lemma UnderwayCreate(env: Env, s: Store, group: int, items: seq<Planned>, mint: seq<int>, clock: seq<Instant>, k: nat,
                       db: Store, u: Unit, added: map<int, nat>, fits: bool)
    requires k < |items| == |clock| && WellPlanned(items, mint) && items[k].mode == Create
    requires Underway(env, s, group, items, mint, clock, k, db, u, added, fits)
    ensures var uuid := NewUuid(items[k], mint[k]);
            var version := StoredVersion(env.address, 1, items[k].write, clock[k]);
            Underway(env, s, group, items, mint, clock, k + 1, db,
                     Unit(u.memories[uuid := RowOf(group, items[k])], u.versions[uuid := version], {}), added, fits)
  {
    var t := CommitFirst(env, s, group, items, mint, clock, k);
    var uuid, version := NewUuid(items[k], mint[k]), StoredVersion(env.address, 1, items[k].write, clock[k]);
    TrackedCreate(items, mint, group, k, u, added, version);
    CourseOfCreate(env, items, mint, group, k, db, u, t, added, clock[k]);
    if fits {
      GrowsFrom(env, s, group, items, mint, k, t, clock[k]);
      CreateStillFits(s, group, items, mint, k, t);
      StillInsertable(db, u, t, uuid, RowOf(group, items[k]), u.versions[uuid := version]);
    }
  }

  lemma StillInsertable(db: Store, u: Unit, t: Store, m: int, row: MemoryRow, versions: map<int, Version>)
    requires Insertable(db, u) && StandsFor(db, u, t) && m !in t.memories
             && !SubjectTakenIn(t.memories, row.group, row.slug)
    ensures Insertable(db, Unit(u.memories[m := row], versions, {}))
  {
    assert forall x | x in db.memories :: x in t.memories && t.memories[x] == db.memories[x];
  }

  /** With the plan made against s itself, the save that retires a row is accepted. */
  lemma FittingRetirement(env: Env, s: Store, group: int, items: seq<Planned>, mint: seq<int>,
                          clock: seq<Instant>, k: nat, db: Store, u: Unit, added: map<int, nat>)
    requires k < |items| == |clock| && WellPlanned(items, mint) && items[k].mode == NewVersion
    requires Underway(env, s, group, items, mint, clock, k, db, u, added, true)
    ensures Saveable(db, Retire(u, items[k].uuid.value, Retiree(items[k], added)))
  {
    var t, m := CommitFirst(env, s, group, items, mint, clock, k), items[k].uuid.value;
    assert Fits(s, group, items[k], mint[k]);
    assert Retiree(items[k], added) == |t.history[m]|;
    RetireIsSaveable(db, u, t, m);
  }

  lemma UnderwayVersion(env: Env, s: Store, group: int, items: seq<Planned>, mint: seq<int>,
                        clock: seq<Instant>, k: nat, db: Store, u: Unit, added: map<int, nat>, fits: bool)
    requires k < |items| == |clock| && WellPlanned(items, mint) && items[k].mode == NewVersion
    requires Underway(env, s, group, items, mint, clock, k, db, u, added, fits)
    ensures var m := items[k].uuid.value;
            var retiring := Retire(u, m, Retiree(items[k], added));
            var db1 := Saved(db, retiring);
            && (fits ==> Saveable(db, retiring))
            && (Saveable(db, retiring) ==>
                  && OneCurrentEach(db1) && AppendOnly(s, db1)
                  && Underway(env, s, group, items, mint, clock, k + 1, db1,
                              Unit(map[],
                                   map[m := StoredVersion(env.address, items[k].next, items[k].write, clock[k])], {}),
                              added[m := items[k].next], fits))
  {
    var t, m := CommitFirst(env, s, group, items, mint, clock, k), items[k].uuid.value;
    var retiring := Retire(u, m, Retiree(items[k], added));
    if fits { FittingRetirement(env, s, group, items, mint, clock, k, db, u, added); }
    if Saveable(db, retiring) {
      AcceptedRetirement(items, mint, group, k, db, u, t, added);
      SaveAppends(db, retiring);
      AppendOnlyJoins(s, db, Saved(db, retiring));
      SavedIs(db, u, t);
      RetirementSaved(db, u, t, m);
      CourseOfVersion(env, group, t, items[k], mint[k], added, clock[k]);
      TrackedVersion(env, items, mint, group, k, u, added,
                     StoredVersion(env.address, items[k].next, items[k].write, clock[k]));
      if fits { GrowsFrom(env, s, group, items, mint, k, t, clock[k]); }
    }
  }
}
