/** A written plan, seen by the ownership machine: one run of begin, look-ups and commit. */
module MemoryRuns {
  import opened Common
  import opened MemoryClaims
  import opened MemoryPlans
  import opened MemoryProgress
  import opened MemoryRequests
  import opened MemoryEffects
  import TicketOwnership

  /** The tables as the ownership machine sees them, with the requests in flight. */
  ghost function AsSeen(groups: TicketOwnership.Groups, t: Tables,
                        processes: map<int, TicketOwnership.Process>): TicketOwnership.World {
    TicketOwnership.World(groups, GroupOf(t.rows.memories), t.about.Keys, processes)
  }

  ghost function GroupOf(memories: map<int, MemoryRow>): map<int, int> {
    map m | m in memories :: memories[m].group
  }

  /** The memories the first k items write without creating them. */
  ghost function Targets(items: seq<Planned>, mint: seq<int>, k: nat): set<int>
    requires k <= |items| == |mint|
  {
    set i | 0 <= i < k && items[i].mode != Create :: NewUuid(items[i], mint[i])
  }

  /** The memories the first k items create. */
  ghost function Births(items: seq<Planned>, mint: seq<int>, k: nat): set<int>
    requires k <= |items| == |mint|
  {
    set i | 0 <= i < k && items[i].mode == Create :: NewUuid(items[i], mint[i])
  }

  lemma UuidsAreBoth(items: seq<Planned>, mint: seq<int>)
    requires |items| == |mint|
    ensures Elements(Uuids(items, mint)) == Targets(items, mint, |items|) + Births(items, mint, |items|)
  {
    var uuids := Uuids(items, mint);
    forall u | u in Elements(uuids) ensures u in Targets(items, mint, |items|) + Births(items, mint, |items|) {
      var i :| 0 <= i < |uuids| && uuids[i] == u;
      assert items[i].mode != Create ==> u in Targets(items, mint, |items|);
      assert items[i].mode == Create ==> u in Births(items, mint, |items|);
    }
    forall u | u in Targets(items, mint, |items|) + Births(items, mint, |items|) ensures u in uuids {
      var i :| 0 <= i < |items| && NewUuid(items[i], mint[i]) == u;
      assert uuids[i] == u;
    }
  }

  /** What is written but not created is stored, in the writing group. */
  lemma {:induction false} TargetsAreTheGroups(env: Env, s: Store, group: int, writes: seq<MemoryWrite>, k: nat)
    requires k <= |writes| && PlanFirst(env, s, group, writes, k).Accepted?
    ensures var p := PlanFirst(env, s, group, writes, k).plan;
            && (forall m | m in p.targets :: m in s.memories && s.memories[m].group == group)
            && forall it | it in p.items && it.mode != Create ::
                 it.uuid.Some? && it.uuid.value in s.memories && s.memories[it.uuid.value].group == group
  {
    if k > 0 {
      TargetsAreTheGroups(env, s, group, writes, k - 1);
      var p, q := PlanFirst(env, s, group, writes, k - 1).plan, PlanFirst(env, s, group, writes, k).plan;
      var last := q.items[|q.items| - 1];
      assert q.items == p.items + [last];
    }
  }

  lemma OneMoreBirth(items: seq<Planned>, mint: seq<int>, k: nat)
    requires k < |items| == |mint|
    ensures Births(items, mint, k + 1)
            == if items[k].mode == Create then Births(items, mint, k) + {NewUuid(items[k], mint[k])}
              else Births(items, mint, k)
  {
  }

  lemma CommittedGroups(env: Env, s: Store, group: int, it: Planned, minted: int, now: Instant)
    ensures GroupOf(CommitItem(env, s, group, it, minted, now).memories)
            == if it.mode == Create then GroupOf(s.memories)[NewUuid(it, minted) := group] else GroupOf(s.memories)
  {
  }

  lemma OneMoreInGroup(a: map<int, int>, created: set<int>, u: int, group: int)
    ensures (a + TicketOwnership.InGroup(created, group))[u := group] == a
            + TicketOwnership.InGroup(created + {u}, group)
    ensures a + TicketOwnership.InGroup({}, group) == a
  {
  }

  lemma CommitFirstStep(env: Env, s: Store, group: int, items: seq<Planned>, mint: seq<int>,
                        clock: seq<Instant>, k: nat)
    requires k < |items| == |mint| == |clock|
    ensures CommitFirst(env, s, group, items, mint, clock, k + 1)
            == CommitItem(env, CommitFirst(env, s, group, items, mint, clock, k), group, items[k], mint[k], clock[k])
  {
  }

  /** Committing adds the created memories, in the writing group, and moves no other. */
  lemma {:induction false} CommitAddsBirths(env: Env, s: Store, group: int, items: seq<Planned>, mint: seq<int>,
                                            clock: seq<Instant>, k: nat)
    requires k <= |items| == |mint| == |clock|
    ensures GroupOf(CommitFirst(env, s, group, items, mint, clock, k).memories)
            == GroupOf(s.memories) + TicketOwnership.InGroup(Births(items, mint, k), group)
  {
    if k > 0 {
      hide *;
      CommitAddsBirths(env, s, group, items, mint, clock, k - 1);
      OneMoreBirth(items, mint, k - 1);
      var u := NewUuid(items[k - 1], mint[k - 1]);
      CommittedGroups(env, CommitFirst(env, s, group, items, mint, clock, k - 1), group, items[k - 1], mint[k - 1],
                      clock[k - 1]);
      OneMoreInGroup(GroupOf(s.memories), Births(items, mint, k - 1), u, group);
      CommitFirstStep(env, s, group, items, mint, clock, k - 1);
    } else {
      OneMoreInGroup(GroupOf(s.memories), {}, 0, group);
      assert Births(items, mint, 0) == {};
    }
  }

  lemma BirthsAreNew(s: Store, group: int, items: seq<Planned>, mint: seq<int>)
    requires AllFit(s, group, items, mint)
    ensures Births(items, mint, |items|) !! s.memories.Keys
  {
    forall i | 0 <= i < |items| && items[i].mode == Create ensures NewUuid(items[i], mint[i]) !in s.memories {
      assert Fits(s, group, items[i], mint[i]);
    }
  }

  lemma ReferencesAreCross(about: map<(int, Ticket), string>, uuids: seq<int>, references: seq<Reference>,
                           tickets: seq<Ticket>)
    requires |tickets| == |references| && forall i | 0 <= i < |tickets| :: tickets[i] == references[i].ticket
    ensures AboutAfter(about, uuids, references, |uuids|).Keys
            == about.Keys + TicketOwnership.Cross(Elements(uuids), Elements(tickets))
  {
    AboutAfterIs(about, uuids, references, |uuids|);
    assert uuids[..|uuids|] == uuids;
    forall t ensures NamesTicket(references, t) <==> t in Elements(tickets) {
      if t in tickets {
        var i :| 0 <= i < |tickets| && tickets[i] == t;
        assert references[i].ticket == t;
      }
      if NamesTicket(references, t) {
        var i :| 0 <= i < |references| && references[i].ticket == t;
        assert tickets[i] == t;
      }
    }
    forall x ensures x in AboutAfter(about, uuids, references, |uuids|) <==>
                     x in about.Keys + TicketOwnership.Cross(Elements(uuids), Elements(tickets)) {
      assert Pairs(uuids, |uuids|, references, x) <==> x.0 in Elements(uuids) && x.1 in Elements(tickets);
    }
  }

  function TicketsNamed(references: seq<Reference>): (tickets: seq<Ticket>)
    ensures |tickets| == |references| && forall i | 0 <= i < |tickets| :: tickets[i] == references[i].ticket
  {
    seq(|references|, i requires 0 <= i < |references| => references[i].ticket)
  }

  /** The plan's references, each to a ticket another group alone lists. */
  lemma ReferencesAreForeign(env: Env, fold: string -> string, t: Tables, world: World, request: Request)
    requires PlanOf(env, fold, t, world, request).Some?
    ensures forall x | x in TicketsNamed(PlanOf(env, fold, t, world, request).value.references) ::
              exists g :: TicketOwnership.Owners(world.groups, x) == {g} && g != request.group
  {
    var kept := PlanOf(env, fold, t, world, request).value.references;
    KeptAreOwned(world.groups, request.references, request.group);
    forall x | x in TicketsNamed(kept)
      ensures exists g :: TicketOwnership.Owners(world.groups, x) == {g} && g != request.group {
      var i :| 0 <= i < |kept| && kept[i].ticket == x;
      assert OwnedElsewhere(world.groups, kept[i].ticket, request.group);
      OwnedElsewhereOnStoredLists(world.groups, x, request.group);
      TicketOwnership.OwnersOnStoredLists(world.groups, x);
    }
  }

  /** Writing a plan is a run of the ownership machine. */
  lemma WritingIsARun(env: Env, fold: string -> string, t: Tables, world: World, request: Request, mint: seq<int>,
                      clock: seq<Instant>, others: map<int, TicketOwnership.Process>, p: int)
    requires PlanOf(env, fold, t, world, request).Some? && p !in others
    requires var plan := PlanOf(env, fold, t, world, request).value;
             |plan.items| == |mint| == |clock| && AllFit(t.rows, request.group, plan.items, mint)
    ensures TicketOwnership.Leads(AsSeen(world.groups, t, others),
                                  AsSeen(world.groups,
                                         After(env, t, PlanOf(env, fold, t, world, request).value, mint, clock),
                                         others[p := TicketOwnership.Idle]))
  {
    hide AllFit, LinksAfter, TicketOwnership.Leads;
    var plan := PlanOf(env, fold, t, world, request).value;
    var w := AsSeen(world.groups, t, others);
    var targets, created := Targets(plan.items, mint, |mint|), Births(plan.items, mint, |mint|);
    var tickets, uuids := TicketsNamed(plan.references), Uuids(plan.items, mint);
    TargetsAreTheGroups(env, t.rows, request.group, request.items, |request.items|);
    forall m | m in targets ensures m in w.memories && w.memories[m] == request.group {
      var i :| 0 <= i < |mint| && plan.items[i].mode != Create && NewUuid(plan.items[i], mint[i]) == m;
      assert plan.items[i] in plan.items;
    }
    CommitAddsBirths(env, t.rows, request.group, plan.items, mint, clock, |mint|);
    BirthsAreNew(t.rows, request.group, plan.items, mint);
    ReferencesAreForeign(env, fold, t, world, request);
    TicketOwnership.WriteIsARun(w, p, request.group, targets, created, tickets);
    ReferencesAreCross(t.about, uuids, plan.references, tickets);
    UuidsAreBoth(plan.items, mint);
  }

  /**
   What a written plan adds: references of memories of the writing group, to tickets it does not list and one other
   group does.
   */
  lemma NewReferencesAreForeign(env: Env, fold: string -> string, t: Tables, world: World, request: Request,
                                mint: seq<int>, clock: seq<Instant>, x: (int, Ticket))
    requires PlanOf(env, fold, t, world, request).Some?
    requires var plan := PlanOf(env, fold, t, world, request).value;
             |plan.items| == |mint| == |clock| && AllFit(t.rows, request.group, plan.items, mint)
    requires x in After(env, t, PlanOf(env, fold, t, world, request).value, mint, clock).about && x !in t.about
    ensures var after := After(env, t, PlanOf(env, fold, t, world, request).value, mint, clock);
            && x.0 in after.rows.memories && after.rows.memories[x.0].group == request.group
            && x.1 !in world.groups[request.group] && exists g :: g in world.groups && x.1 in world.groups[g]
  {
    hide AllFit, LinksAfter;
    var plan := PlanOf(env, fold, t, world, request).value;
    var tickets, uuids := TicketsNamed(plan.references), Uuids(plan.items, mint);
    var targets, created := Targets(plan.items, mint, |mint|), Births(plan.items, mint, |mint|);
    ReferencesAreCross(t.about, uuids, plan.references, tickets);
    UuidsAreBoth(plan.items, mint);
    assert x.0 in targets + created && x.1 in tickets;
    CommitAddsBirths(env, t.rows, request.group, plan.items, mint, clock, |mint|);
    TargetsAreTheGroups(env, t.rows, request.group, request.items, |request.items|);
    var after := After(env, t, plan, mint, clock);
    assert x.0 in GroupOf(after.rows.memories) && GroupOf(after.rows.memories)[x.0] == request.group by {
      if x.0 !in created {
        var i :| 0 <= i < |mint| && plan.items[i].mode != Create && NewUuid(plan.items[i], mint[i]) == x.0;
        assert plan.items[i] in plan.items;
      }
    }
    ReferencesAreForeign(env, fold, t, world, request);
    var g :| TicketOwnership.Owners(world.groups, x.1) == {g} && g != request.group;
    TicketOwnership.OwnersOnStoredLists(world.groups, x.1);
    assert TicketOwnership.ListedOnlyBy(world.groups, x.1, g);
  }
}
