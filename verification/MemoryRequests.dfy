/** What a memory write is asked for, how its links, labels and references are planned, and the dry-run verdict. */
module MemoryRequests {
  import opened Common
  import opened MemoryPlans
  import TicketHierarchy
  import TicketOwnership
  import opened MemoryClaims

  type Ticket = TicketHierarchy.Ticket

  datatype Link = Link(source: int, target: int, relation: string)

  datatype LinkWrite = LinkWrite(link: Link, reason: string)

  datatype PlannedLink = PlannedLink(write: LinkWrite, skip: bool)

  datatype Reference = Reference(ticket: Ticket, reason: Option<string>)

  datatype Request = Request(group: int, items: seq<MemoryWrite>, links: seq<LinkWrite>, labels: seq<string>,
                             references: seq<Reference>, productName: Option<string>)

  datatype WritePlan = WritePlan(group: int, items: seq<Planned>, links: seq<PlannedLink>, labels: seq<string>,
                                 references: seq<Reference>, productName: Option<string>, initiative: Option<string>,
                                 wouldLinkProduct: bool)

  datatype ItemResult = ItemResult(uuid: Option<int>, blobAddress: Option<string>, versioned: bool, noChange: bool)

  datatype Response = Response(created: nat, versioned: nat, noChange: nat, linked: nat, diverged: nat, skipped: nat,
                               labels: nat, referencesCreated: nat, referencesPresent: nat, items: seq<ItemResult>,
                               productLinks: nat)

  /** What a memory write reads and never writes; saves listed in faults fail. */
  datatype World = World(groups: TicketOwnership.Groups, ticketVertices: set<Ticket>, products: set<string>,
                         initiatives: map<int, string>, faults: set<nat>)

  const DEFAULT_ABOUT_REASON := "captured under referenced ticket"
  const DIVERGENCE := "divergence"

  // ----- counting

  function CountMode(items: seq<Planned>, mode: Mode): nat {
    if items == [] then 0
    else CountMode(items[..|items| - 1], mode) + if items[|items| - 1].mode == mode then 1 else 0
  }

  function CountDiverged(items: seq<Planned>): nat {
    if items == [] then 0
    else
      var last := items[|items| - 1];
      CountDiverged(items[..|items| - 1]) + if last.mode == Create && last.write.kind == DIVERGENCE then 1 else 0
  }

  function CountSkipped(links: seq<PlannedLink>, skip: bool): nat {
    if links == [] then 0 else (if links[0].skip == skip then 1 else 0) + CountSkipped(links[1..], skip)
  }

  function Predicted(it: Planned): ItemResult {
    ItemResult(it.uuid, None, it.mode == NewVersion, it.mode == Unchanged)
  }

  /** The dry-run verdict. */
  function Predict(plan: WritePlan): Response {
    Response(CountMode(plan.items, Create), CountMode(plan.items, NewVersion), CountMode(plan.items, Unchanged),
             CountSkipped(plan.links, false), CountDiverged(plan.items), CountSkipped(plan.links, true), |plan.labels|,
             |plan.references| * |plan.items|, 0,
             seq(|plan.items|, i requires 0 <= i < |plan.items| => Predicted(plan.items[i])),
             if plan.wouldLinkProduct then 1 else 0)
  }

  lemma {:induction false} SkippedPlusLinked(links: seq<PlannedLink>)
    ensures CountSkipped(links, false) + CountSkipped(links, true) == |links|
  {
    if links != [] { SkippedPlusLinked(links[1..]); }
  }

  lemma {:induction false} CountSkippedAppend(links: seq<PlannedLink>, k: nat, skip: bool)
    requires k < |links|
    ensures CountSkipped(links[..k + 1], skip) == CountSkipped(links[..k], skip)
            + (if links[k].skip == skip then 1 else 0)
  {
    if k == 0 {
      assert links[..1] == [links[0]] && links[..0] == [];
      assert links[..1][1..] == [];
    } else {
      CountSkippedAppend(links[1..], k - 1, skip);
      assert links[..k + 1][1..] == links[1..][..k] && links[..k][1..] == links[1..][..k - 1];
    }
  }

  /**
   The prediction agrees with the response in every count the two share, and item by item but for minted uuids and
   bodies.
   */
  ghost predicate Agrees(p: Response, r: Response) {
    && p.created == r.created && p.versioned == r.versioned && p.noChange == r.noChange && p.linked == r.linked
    && p.diverged == r.diverged && p.skipped == r.skipped && p.labels == r.labels && p.productLinks == r.productLinks
    && p.referencesCreated == r.referencesCreated + r.referencesPresent
    && |p.items| == |r.items|
    && forall i | 0 <= i < |p.items| ::
         p.items[i].versioned == r.items[i].versioned && p.items[i].noChange == r.items[i].noChange
         && (p.items[i].uuid.Some? ==> r.items[i].uuid == p.items[i].uuid) && r.items[i].uuid.Some?
  }

  // ----- links

  predicate Known(link: Link, uuids: set<int>) {
    link.source in uuids && link.target in uuids
  }

  function BatchUuids(items: seq<Planned>): set<int> {
    set i | 0 <= i < |items| && items[i].uuid.Some? :: items[i].uuid.value
  }

  ghost predicate SentBefore(planned: seq<PlannedLink>, k: nat)
    requires k < |planned|
  {
    exists j :: 0 <= j < k && planned[j].write.link == planned[k].write.link
  }

  /** A planned link is skipped exactly when it is stored, or was already sent in the batch. */
  ghost predicate LinksAccurate(planned: seq<PlannedLink>, stored: set<Link>) {
    forall k | 0 <= k < |planned| :: planned[k].skip <==> planned[k].write.link in stored || SentBefore(planned, k)
  }

  lemma AccurateAppend(planned: seq<PlannedLink>, stored: set<Link>, w: LinkWrite, repeated: bool)
    requires LinksAccurate(planned, stored)
    requires repeated <==> exists j :: 0 <= j < |planned| && planned[j].write.link == w.link
    ensures LinksAccurate(planned + [PlannedLink(w, repeated || w.link in stored)], stored)
  {
    var all := planned + [PlannedLink(w, repeated || w.link in stored)];
    forall k | 0 <= k < |planned|
      ensures SentBefore(all, k) <==> SentBefore(planned, k)
    {
      assert forall j | 0 <= j < k :: all[j] == planned[j];
      if SentBefore(planned, k) {
        var j :| 0 <= j < k && planned[j].write.link == planned[k].write.link;
        assert all[j].write.link == all[k].write.link;
      }
    }
    if repeated {
      var j :| 0 <= j < |planned| && planned[j].write.link == w.link;
      assert all[j].write.link == all[|planned|].write.link;
    }
  }

  predicate SentIn(links: seq<LinkWrite>, link: Link) {
    exists j :: 0 <= j < |links| && links[j].link == link
  }

  /** The links with what is to be skipped: those stored, and those sent before. */
  function MarkedLinks(links: seq<LinkWrite>, stored: set<Link>): (planned: seq<PlannedLink>)
    ensures |planned| == |links| && forall k | 0 <= k < |links| :: planned[k].write == links[k]
  {
    if links == [] then []
    else
      var before, last := links[..|links| - 1], links[|links| - 1];
      MarkedLinks(before, stored) + [PlannedLink(last, SentIn(before, last.link) || last.link in stored)]
  }

  predicate AllKnown(links: seq<LinkWrite>, uuids: set<int>) {
    forall k | 0 <= k < |links| :: Known(links[k].link, uuids)
  }

  /** The links planned; None when an endpoint is neither in the batch nor stored. */
  function LinksPlanned(links: seq<LinkWrite>, items: seq<Planned>, memories: set<int>,
                        stored: set<Link>): Option<seq<PlannedLink>> {
    if AllKnown(links, BatchUuids(items) + memories) then Some(MarkedLinks(links, stored)) else None
  }

  /** The marks are exact. */
  lemma {:induction false} MarkedAreAccurate(links: seq<LinkWrite>, stored: set<Link>)
    ensures LinksAccurate(MarkedLinks(links, stored), stored)
  {
    if links != [] {
      var before, last := links[..|links| - 1], links[|links| - 1];
      var planned := MarkedLinks(before, stored);
      MarkedAreAccurate(before, stored);
      assert SentIn(before, last.link) <==> exists j :: 0 <= j < |planned| && planned[j].write.link == last.link;
      AccurateAppend(planned, stored, last, SentIn(before, last.link));
    }
  }

  /** Links: every endpoint is in the batch or stored, and repeats are marked to skip. */
  method PlanLinks(links: seq<LinkWrite>, items: seq<Planned>, memories: set<int>, stored: set<Link>)
    returns (r: Option<seq<PlannedLink>>)
    ensures r == LinksPlanned(links, items, memories, stored)
  {
    var batch := BatchUuids(items);
    var planned: seq<PlannedLink>, seen: set<Link> := [], {};
    for index := 0 to |links|
      invariant planned == MarkedLinks(links[..index], stored)
      invariant AllKnown(links[..index], batch + memories)
      invariant forall x :: x in seen <==> SentIn(links[..index], x)
    {
      var link := links[index].link;
      assert links[..index + 1][..index] == links[..index];
      if (link.source !in batch && link.source !in memories) || (link.target !in batch && link.target !in memories) {
        assert !Known(links[index].link, batch + memories);
        return None;
      }
      planned := planned + [PlannedLink(links[index], link in seen || link in stored)];
      SentInOneMore(links, index);
      seen := seen + {link};
    }
    assert links[..|links|] == links;
    return Some(planned);
  }

  lemma SentInOneMore(links: seq<LinkWrite>, k: nat)
    requires k < |links|
    ensures forall x :: SentIn(links[..k + 1], x) <==> SentIn(links[..k], x) || x == links[k].link
  {
    var before, after := links[..k], links[..k + 1];
    forall x ensures SentIn(after, x) <==> SentIn(before, x) || x == links[k].link {
      if SentIn(before, x) {
        var j :| 0 <= j < k && before[j].link == x;
        assert after[j].link == x;
      }
      if SentIn(after, x) {
        var j :| 0 <= j < k + 1 && after[j].link == x;
        assert j < k ==> before[j].link == x;
      }
      assert after[k].link == links[k].link;
    }
  }

  // ----- labels

  predicate Spelled(fold: string -> string, names: seq<string>, x: string) {
    exists i :: 0 <= i < |names| && fold(names[i]) == fold(x)
  }

  /** The first spelling of each label, up to letter case. */
  function DistinctFolded(fold: string -> string, names: seq<string>): seq<string> {
    if names == [] then []
    else
      var before := DistinctFolded(fold, names[..|names| - 1]);
      var last := names[|names| - 1];
      if Spelled(fold, before, last) then before else before + [last]
  }

  ghost predicate PairwiseUnlike(fold: string -> string, names: seq<string>) {
    forall i, j | 0 <= i < j < |names| :: fold(names[i]) != fold(names[j])
  }

  lemma {:induction false} DistinctFoldedIs(fold: string -> string, names: seq<string>)
    ensures PairwiseUnlike(fold, DistinctFolded(fold, names))
    ensures forall i | 0 <= i < |names| :: Spelled(fold, DistinctFolded(fold, names), names[i])
  {
    if names != [] {
      var n := |names| - 1;
      DistinctFoldedIs(fold, names[..n]);
      var before, after := DistinctFolded(fold, names[..n]), DistinctFolded(fold, names);
      forall i | 0 <= i < |names|
        ensures Spelled(fold, after, names[i])
      {
        if i < n {
          assert names[..n][i] == names[i] && Spelled(fold, before, names[i]);
          var j :| 0 <= j < |before| && fold(before[j]) == fold(names[i]);
          assert after[j] == before[j];
        } else if !Spelled(fold, before, names[n]) {
          assert after[|before|] == names[n];
        }
      }
    }
  }

  function NotStored(names: seq<string>, stored: set<string>): seq<string> {
    if names == [] then []
    else
      var before, last := NotStored(names[..|names| - 1], stored), names[|names| - 1];
      if last in stored then before else before + [last]
  }

  /** The labels a write inserts. */
  function LabelsPlanned(fold: string -> string, names: seq<string>, stored: set<string>): seq<string> {
    NotStored(DistinctFolded(fold, names), stored)
  }

  /** The i-th name is the first of its spelling up to letter case. */
  ghost predicate FirstSpelling(fold: string -> string, names: seq<string>, i: nat)
    requires i < |names|
  {
    forall j | 0 <= j < i :: fold(names[j]) != fold(names[i])
  }

  lemma {:induction false} DistinctAreFirstSpellings(fold: string -> string, names: seq<string>, x: string)
    ensures x in DistinctFolded(fold, names) <==>
            exists i :: 0 <= i < |names| && names[i] == x && FirstSpelling(fold, names, i)
    ensures Spelled(fold, DistinctFolded(fold, names), x) <==> Spelled(fold, names, x)
  {
    if names != [] {
      var n := |names| - 1;
      var init, last := names[..n], names[n];
      DistinctAreFirstSpellings(fold, init, x);
      DistinctAreFirstSpellings(fold, init, last);
      assert forall i | 0 <= i < n :: FirstSpelling(fold, init, i) <==> FirstSpelling(fold, names, i);
      assert FirstSpelling(fold, names, n) <==> !Spelled(fold, init, last) by {
        assert forall j | 0 <= j < n :: init[j] == names[j];
      }
      SpelledOneMore(fold, init, last, x);
      SpelledOneMore(fold, DistinctFolded(fold, init), last, x);
      assert names == init + [last];
      if fold(last) == fold(x) {
        assert Spelled(fold, DistinctFolded(fold, init), last) ==> Spelled(fold, DistinctFolded(fold, init), x);
      }
    }
  }

  lemma SpelledOneMore(fold: string -> string, names: seq<string>, last: string, x: string)
    ensures Spelled(fold, names + [last], x) <==> Spelled(fold, names, x) || fold(last) == fold(x)
  {
    var all := names + [last];
    assert all[|names|] == last;
    assert forall j | 0 <= j < |names| :: all[j] == names[j];
  }

  lemma {:induction false} NotStoredExactly(names: seq<string>, stored: set<string>)
    ensures forall x :: x in NotStored(names, stored) <==> x in names && x !in stored
  {
    if names != [] {
      var n := |names| - 1;
      NotStoredExactly(names[..n], stored);
      assert names == names[..n] + [names[n]];
    }
  }

  /** Inserted are exactly the names that are the first of their spelling up to case and not stored as they are. */
  lemma LabelsAreFirstSpellings(fold: string -> string, names: seq<string>, stored: set<string>, x: string)
    ensures x in LabelsPlanned(fold, names, stored) <==>
            x !in stored && exists i :: 0 <= i < |names| && names[i] == x && FirstSpelling(fold, names, i)
  {
    NotStoredExactly(DistinctFolded(fold, names), stored);
    DistinctAreFirstSpellings(fold, names, x);
  }

  lemma {:induction false} NotStoredAreNames(names: seq<string>, stored: set<string>)
    ensures forall x | x in NotStored(names, stored) :: x in names
  {
    if names != [] { NotStoredAreNames(names[..|names| - 1], stored); }
  }

  lemma LastIsUnlike(fold: string -> string, names: seq<string>, x: string)
    requires names != [] && PairwiseUnlike(fold, names) && x in names[..|names| - 1]
    ensures fold(x) != fold(names[|names| - 1])
  {
  }

  lemma UnlikeWithLast(fold: string -> string, names: seq<string>, last: string)
    requires PairwiseUnlike(fold, names) && forall x | x in names :: fold(x) != fold(last)
    ensures PairwiseUnlike(fold, names + [last])
  {
  }

  lemma {:induction false} StillUnlike(fold: string -> string, names: seq<string>, stored: set<string>)
    requires PairwiseUnlike(fold, names)
    ensures PairwiseUnlike(fold, NotStored(names, stored))
  {
    if names != [] {
      var init, last := names[..|names| - 1], names[|names| - 1];
      assert PairwiseUnlike(fold, init);
      hide PairwiseUnlike;
      StillUnlike(fold, init, stored);
      NotStoredAreNames(init, stored);
      forall x | x in NotStored(init, stored) ensures fold(x) != fold(last) { LastIsUnlike(fold, names, x); }
      UnlikeWithLast(fold, NotStored(init, stored), last);
    }
  }

  /** Labels to insert: of each spelling the first proposed one, unless exactly it is stored. */
  method PlanLabels(fold: string -> string, names: seq<string>, stored: set<string>) returns (toInsert: seq<string>)
    ensures toInsert == LabelsPlanned(fold, names, stored)
    ensures forall x :: x in toInsert <==> x in DistinctFolded(fold, names) && x !in stored
    ensures PairwiseUnlike(fold, toInsert)
  {
    hide DistinctFolded, PairwiseUnlike;
    var distinct := DistinctFolded(fold, names);
    toInsert := [];
    for index := 0 to |distinct|
      invariant toInsert == NotStored(distinct[..index], stored)
    {
      assert distinct[..index + 1][..index] == distinct[..index];
      if distinct[index] !in stored {
        toInsert := toInsert + [distinct[index]];
      }
    }
    assert distinct[..|distinct|] == distinct;
    DistinctFoldedIs(fold, names);
    NotStoredExactly(distinct, stored);
    StillUnlike(fold, distinct, stored);
  }

  // ----- references

  /** The lookup finds one owning group, and it is not the writing one. */
  predicate OwnedElsewhere(groups: TicketOwnership.Groups, t: Ticket, group: int) {
    |TicketOwnership.Owners(groups, t)| == 1 && group !in TicketOwnership.Owners(groups, t)
  }

  /** On the stored lists: another group lists the ticket, and no third one does. */
  lemma OwnedElsewhereOnStoredLists(groups: TicketOwnership.Groups, t: Ticket, group: int)
    ensures OwnedElsewhere(groups, t, group) <==> exists g :: g != group && TicketOwnership.ListedOnlyBy(groups, t, g)
  {
    var owners := TicketOwnership.Owners(groups, t);
    TicketOwnership.OwnersOnStoredLists(groups, t);
    if OwnedElsewhere(groups, t, group) {
      var g := Inhabited(owners);
      SizeOneIsSingleton(owners, g);
    }
  }

  predicate NamesTicket(references: seq<Reference>, t: Ticket) {
    exists j :: 0 <= j < |references| && references[j].ticket == t
  }

  /** Of each ticket the first reference sent, in the order sent. */
  function FirstPerTicket(references: seq<Reference>): seq<Reference> {
    if references == [] then []
    else
      var before, last := FirstPerTicket(references[..|references| - 1]), references[|references| - 1];
      if NamesTicket(before, last.ticket) then before else before + [last]
  }

  predicate AllOwnedElsewhere(groups: TicketOwnership.Groups, references: seq<Reference>, group: int) {
    forall i | 0 <= i < |references| :: OwnedElsewhere(groups, references[i].ticket, group)
  }

  /** The references planned; None when some ticket has no single owner, or the writing group is it. */
  function ReferencesPlanned(references: seq<Reference>, group: int,
                             groups: TicketOwnership.Groups): Option<seq<Reference>> {
    if AllOwnedElsewhere(groups, references, group) then Some(FirstPerTicket(references)) else None
  }

  ghost predicate OnePerTicket(references: seq<Reference>) {
    forall i, j | 0 <= i < j < |references| :: references[i].ticket != references[j].ticket
  }

  /** The first of the references sent for its ticket. */
  predicate IsFirst(references: seq<Reference>, r: Reference) {
    exists i :: 0 <= i < |references| && references[i] == r && !NamesTicket(references[..i], r.ticket)
  }

  /** One reference per ticket sent, the first one, and none for another ticket. */
  lemma {:induction false} FirstPerTicketIs(references: seq<Reference>)
    ensures OnePerTicket(FirstPerTicket(references))
    ensures forall t :: NamesTicket(references, t) <==> NamesTicket(FirstPerTicket(references), t)
    ensures forall r | r in FirstPerTicket(references) :: IsFirst(references, r)
  {
    if references != [] {
      var init, last := references[..|references| - 1], references[|references| - 1];
      FirstPerTicketIs(init);
      NamesAppend(init, last);
      var before := FirstPerTicket(init);
      NamesAppend(before, last);
      assert references == init + [last];
      assert !NamesTicket(before, last.ticket) ==> OnePerTicket(before + [last]);
      forall r | r in FirstPerTicket(references)
        ensures IsFirst(references, r)
      {
        if r in before {
          var i :| 0 <= i < |init| && init[i] == r && !NamesTicket(init[..i], r.ticket);
          assert references[..i] == init[..i] && references[i] == r;
        } else {
          assert references[|init|] == r && references[..|init|] == init;
        }
      }
    }
  }

  lemma KeptAreOwned(groups: TicketOwnership.Groups, references: seq<Reference>, group: int)
    requires AllOwnedElsewhere(groups, references, group)
    ensures AllOwnedElsewhere(groups, FirstPerTicket(references), group)
  {
    FirstPerTicketIs(references);
    var kept := FirstPerTicket(references);
    forall i | 0 <= i < |kept| ensures OwnedElsewhere(groups, kept[i].ticket, group) {
      assert kept[i] in kept && IsFirst(references, kept[i]);
    }
  }

  /** References: one per ticket, each with exactly one owner that is not the writing group; otherwise refused. */
  method PlanReferences(references: seq<Reference>, group: int, groups: TicketOwnership.Groups)
    returns (r: Option<seq<Reference>>)
    ensures r == ReferencesPlanned(references, group, groups)
  {
    var validated: seq<Reference> := [];
    for index := 0 to |references|
      invariant validated == FirstPerTicket(references[..index])
      invariant AllOwnedElsewhere(groups, references[..index], group)
    {
      var reference := references[index];
      assert references[..index + 1] == references[..index] + [reference];
      assert references[..index + 1][..index] == references[..index];
      if NamesTicket(validated, reference.ticket) {
        FirstPerTicketIs(references[..index]);
        var i :| 0 <= i < |validated| && validated[i].ticket == reference.ticket;
        assert validated[i] in validated && IsFirst(references[..index], validated[i]);
      } else {
        if !OwnedElsewhere(groups, reference.ticket, group) {
          return None;
        }
        validated := validated + [reference];
      }
    }
    assert references[..|references|] == references;
    return Some(validated);
  }

  lemma NamesAppend(references: seq<Reference>, r: Reference)
    ensures forall t :: NamesTicket(references + [r], t) <==> NamesTicket(references, t) || t == r.ticket
  {
    var all := references + [r];
    assert all[|references|] == r;
    assert forall j | 0 <= j < |references| :: all[j] == references[j];
  }

  // ----- the plan of a request

  /** What a memory write reads and changes. */
  datatype Tables = Tables(rows: Store, labels: set<string>, links: map<Link, string>,
                           about: map<(int, Ticket), string>, productLinks: set<(string, string)>)

  function ProductNamed(request: Request): Option<string> {
    if request.productName.Some? && !Blank(request.productName.value) then request.productName else None
  }

  /** The initiative the product is linked to; looked up only for a named product. */
  function InitiativeOf(world: World, group: int, product: Option<string>): Option<string> {
    if product.Some? && group in world.initiatives then Some(world.initiatives[group]) else None
  }

  /** The product link a write of this group declares. */
  function Declared(product: Option<string>, initiative: Option<string>): set<(string, string)> {
    if product.Some? && initiative.Some? then {(product.value, initiative.value)} else {}
  }

  /** The plan of a request against the tables: a function of both, and None exactly when the request is refused. */
  function PlanOf(env: Env, fold: string -> string, t: Tables, world: World, request: Request): Option<WritePlan> {
    var items := PlanAll(env, t.rows, request.group, request.items);
    if request.group !in world.groups || items.Refused? then None
    else
      var links := LinksPlanned(request.links, items.plan.items, t.rows.memories.Keys, t.links.Keys);
      var references := ReferencesPlanned(request.references, request.group, world.groups);
      var product := ProductNamed(request);
      var initiative := InitiativeOf(world, request.group, product);
      if links.None? || references.None? || (product.Some? && product.value !in world.products) then None
      else Some(WritePlan(request.group, items.plan.items, links.value, LabelsPlanned(fold, request.labels, t.labels),
                          references.value, product, initiative, !(Declared(product, initiative) <= t.productLinks)))
  }

  /**
   A request is refused exactly when its group is unknown, an item is refused, a link has an end that is neither in the
   batch nor stored, some ticket is not listed by exactly one group that is another one, or the product is not
   registered.
   */
  lemma RefusedExactly(env: Env, fold: string -> string, t: Tables, world: World, request: Request)
    ensures var items := PlanAll(env, t.rows, request.group, request.items);
            PlanOf(env, fold, t, world, request).None? <==>
            || request.group !in world.groups
            || items.Refused?
            || (exists k, u ::
                  0 <= k < |request.links| && u in {request.links[k].link.source, request.links[k].link.target}
                               && u !in t.rows.memories && forall it | it in items.plan.items :: it.uuid != Some(u))
            || (exists r :: r in request.references
                            && forall g ::
                                 TicketOwnership.ListedOnlyBy(world.groups, r.ticket, g) ==> g == request.group)
            || (request.productName.Some?
                && (exists i :: 0 <= i < |request.productName.value| && !IsSpace(request.productName.value[i]))
                && request.productName.value !in world.products)
  {
    forall r | r in request.references
      ensures !OwnedElsewhere(world.groups, r.ticket, request.group) <==>
              forall g :: TicketOwnership.ListedOnlyBy(world.groups, r.ticket, g) ==> g == request.group
    {
      OwnedElsewhereOnStoredLists(world.groups, r.ticket, request.group);
    }
    var items := PlanAll(env, t.rows, request.group, request.items);
    if items.Accepted? {
      forall u
        ensures u in BatchUuids(items.plan.items) <==> exists it :: it in items.plan.items && it.uuid == Some(u) {
        if it :| it in items.plan.items && it.uuid == Some(u) {
          var i :| 0 <= i < |items.plan.items| && items.plan.items[i] == it;
        }
      }
    }
    assert !AllOwnedElsewhere(world.groups, request.references, request.group) <==>
           exists r :: r in request.references && !OwnedElsewhere(world.groups, r.ticket, request.group) by {
      if r :| r in request.references && !OwnedElsewhere(world.groups, r.ticket, request.group) {
        var i :| 0 <= i < |request.references| && request.references[i] == r;
      }
    }
  }
}
