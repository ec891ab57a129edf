/**
 Who owns a ticket, and which memories refer to tickets they do not own. Groups are resolved and
 extended under a lock; references are checked outside it and written later, by several processes at once.
 */
module TicketOwnership {
  import opened Common
  import TicketHierarchy

  type Ticket = TicketHierarchy.Ticket

  /** Group id to its list of tickets. */
  type Groups = map<int, seq<Ticket>>

  datatype Lookup = Nobody | OwnedBy(group: int) | Ambiguous

  datatype ResolveResult = Existing(group: int) | Created(group: int) | Refused | NoSuchInitiative

  datatype AddResult = Added(created: nat, alreadyPresent: nat) | Rejected

  function Owners(groups: Groups, t: Ticket): set<int> {
    set g | g in groups && t in groups[g]
  }

  ghost predicate SingleOwner(groups: Groups) {
    forall g, h, t | g in groups && h in groups && t in groups[g] && t in groups[h] :: g == h
  }

  /** The lookup never finds two owners where ownership is single. */
  lemma OwnersOfOne(groups: Groups, t: Ticket, g: int)
    requires SingleOwner(groups) && g in Owners(groups, t)
    ensures Owners(groups, t) == {g}
  {
    forall h | h in Owners(groups, t) ensures h == g { assert t in groups[h] && t in groups[g]; }
  }

  /** The group that lists the ticket, and no other does. */
  ghost predicate ListedOnlyBy(groups: Groups, t: Ticket, g: int) {
    forall h :: (h in groups && t in groups[h]) <==> h == g
  }

  /** On the stored lists: nobody, and exactly one. */
  lemma OwnersOnStoredLists(groups: Groups, t: Ticket)
    ensures Owners(groups, t) == {} <==> forall h | h in groups :: t !in groups[h]
    ensures forall g :: Owners(groups, t) == {g} <==> ListedOnlyBy(groups, t, g)
  {
    if Owners(groups, t) != {} {
      var h := Inhabited(Owners(groups, t));
      assert h in groups && t in groups[h];
    }
    assert forall h :: h in Owners(groups, t) <==> h in groups && t in groups[h];
    forall g ensures Owners(groups, t) == {g} <==> ListedOnlyBy(groups, t, g) {
      if Owners(groups, t) == {g} {
        forall h ensures (h in groups && t in groups[h]) <==> h == g { assert h in Owners(groups, t) <==> h == g; }
      } else {
        if ListedOnlyBy(groups, t, g) {
          assert forall h :: h in Owners(groups, t) <==> h == g;
        }
      }
    }
  }

  // ----- the store and its operations

  class OwnershipStore {
    var groups: Groups
    /** Memory uuid to its group. */
    var memories: map<int, int>
    var about: set<(int, Ticket)>
    /** The tickets that have a vertex in the graph. */
    var vertices: set<Ticket>

    /** The store among the requests in flight. */
    ghost function Seen(processes: map<int, Process>): World
      reads this
    {
      World(groups, memories, about, processes)
    }

    method FindGroupByTicket(t: Ticket) returns (r: Lookup)
      ensures r == Nobody <==> Owners(groups, t) == {}
      ensures forall g :: r == OwnedBy(g) <==> Owners(groups, t) == {g}
      ensures SingleOwner(groups) ==> r != Ambiguous
      ensures forall g :: r == OwnedBy(g) <==> ListedOnlyBy(groups, t, g)
      ensures r == Nobody <==> forall h | h in groups :: t !in groups[h]
    {
      OwnersOnStoredLists(groups, t);
      var owners := Owners(groups, t);
      if owners == {} {
        return Nobody;
      }
      ghost var _ := Inhabited(owners);
      var g :| g in owners;
      if SingleOwner(groups) { OwnersOfOne(groups, t, g); }
      return if owners == {g} then OwnedBy(g) else Ambiguous;
    }

    /** The one group the tickets belong to, or a new group holding them (a minted ticket when none is given). */
    method ResolveGroup(tickets: seq<Ticket>, initiativeKnown: bool, newGroup: int, minted: Ticket,
                        ghost others: map<int, Process>)
      returns (r: ResolveResult)
      requires SingleOwner(groups) && newGroup !in groups && Owners(groups, minted) == {}
      modifies this`groups
      ensures SingleOwner(groups)
      ensures forall g :: r == Existing(g) <==> OwnersOfAll(old(groups), tickets) == {g}
      ensures r.Refused? <==>
              exists g, h :: g in OwnersOfAll(old(groups), tickets) && h in OwnersOfAll(old(groups), tickets) && g != h
      ensures r == Created(newGroup) <==> OwnersOfAll(old(groups), tickets) == {} && initiativeKnown
      ensures r == NoSuchInitiative <==> OwnersOfAll(old(groups), tickets) == {} && !initiativeKnown
      ensures groups == if r.Created? then old(groups)[newGroup := if tickets == [] then [minted] else tickets]
                        else old(groups)
      ensures r.Created? ==>
              r.group == newGroup && initiativeKnown
                && forall t, h | t in tickets && h in old(groups) :: t !in old(groups)[h]
      ensures r.Existing? ==> r.group in groups && (exists t :: t in tickets && t in groups[r.group])
                              && forall t, h | t in tickets && h in groups && t in groups[h] :: h == r.group
      ensures Next(old(Seen(others)), Resolve(tickets, initiativeKnown, newGroup, minted), Seen(others))
    {
      var existing: Option<int> := None;
      for i := 0 to |tickets|
        invariant groups == old(groups)
        invariant OwnersOfAll(groups, tickets[..i]) == if existing.None? then {} else {existing.value}
      {
        OwnersOfMore(groups, tickets, i);
        var owner := FindGroupByTicket(tickets[i]);
        if owner.OwnedBy? {
          if existing.Some? && existing.value != owner.group {
            assert {existing.value, owner.group} <= OwnersOfAll(groups, tickets[..i + 1]);
            OwnersOfPrefix(groups, tickets, i + 1);
            return Refused;
          }
          existing := Some(owner.group);
        }
      }
      assert tickets[..|tickets|] == tickets;
      if existing.Some? {
        assert existing.value in OwnersOfAll(groups, tickets);
        forall t, h | t in tickets && h in groups && t in groups[h] ensures h == existing.value {
          assert h in OwnersOfAll(groups, tickets);
        }
        return Existing(existing.value);
      }
      if !initiativeKnown {
        return NoSuchInitiative;
      }
      NewTicketsAreUnowned(groups, tickets, minted);
      groups := groups[newGroup := Held(tickets, minted)];
      return Created(newGroup);
    }

    /** Tickets are only ever appended: those new to the group and owned by nobody else. */
    method UpdateGroup(group: int, tickets: seq<Ticket>, ghost others: map<int, Process>) returns (ok: bool)
      requires SingleOwner(groups)
      modifies this`groups
      ensures SingleOwner(groups)
      ensures ok <==> group in old(groups) && OwnersOfAll(old(groups), tickets) <= {group}
      ensures !ok ==> groups == old(groups)
      ensures ok ==>
              groups.Keys == old(groups).Keys && forall g | g in groups && g != group :: groups[g] == old(groups)[g]
      ensures ok ==> Extension(old(groups)[group], tickets, groups[group])
      ensures ok <==>
              group in old(groups)
                && forall g, t | g in old(groups) && t in tickets && t in old(groups)[g] :: g == group
      ensures ok ==> old(groups)[group] <= groups[group]
                     && (forall t :: t in groups[group] <==> t in old(groups)[group] || t in tickets)
                     && forall i, j | 0 <= i < j < |groups[group]| && |old(groups)[group]| <= j ::
                          groups[group][i] != groups[group][j]
      ensures Next(old(Seen(others)), Extend(group, tickets, if ok then groups[group] else []), Seen(others))
    {
      if group !in groups {
        return false;
      }
      var additions: seq<Ticket> := [];
      ghost var grown := groups[group];
      for i := 0 to |tickets|
        invariant groups == old(groups) && grown == groups[group] + additions
        invariant Extension(groups[group], tickets[..i], grown)
        invariant OwnersOfAll(groups, tickets[..i]) <= {group}
      {
        OwnersOfMore(groups, tickets, i);
        assert tickets[..i + 1] == tickets[..i] + [tickets[i]];
        var owner := FindGroupByTicket(tickets[i]);
        if owner.OwnedBy? && owner.group != group {
          assert owner.group in OwnersOfAll(groups, tickets[..i + 1]);
          OwnersOfPrefix(groups, tickets, i + 1);
          return false;
        }
        if tickets[i] !in groups[group] && tickets[i] !in additions {
          additions, grown := additions + [tickets[i]], grown + [tickets[i]];
        }
      }
      assert tickets[..|tickets|] == tickets;
      ExtensionKeepsSingleOwner(groups, group, tickets, grown);
      groups := groups[group := groups[group] + additions];
      return true;
    }

    /**
     Resolving again: the same tickets give the same answer, which for a group just created is that group, and
     nothing more changes.
     */
    method ResolveTwice(tickets: seq<Ticket>, initiativeKnown: bool, newGroup: int, minted: Ticket, newGroup1: int,
                        minted1: Ticket, ghost others: map<int, Process>)
      returns (first: ResolveResult, again: ResolveResult)
      requires SingleOwner(groups) && newGroup !in groups && newGroup1 !in groups && newGroup != newGroup1
      requires Owners(groups, minted) == {} && Owners(groups, minted1) == {} && minted1 !in tickets && tickets != []
      modifies this`groups
      ensures first.Created? ==> again == Existing(first.group)
      ensures !first.Created? ==> again == first
      ensures groups == if first.Created? then old(groups)[newGroup := tickets] else old(groups)
    {
      first := ResolveGroup(tickets, initiativeKnown, newGroup, minted, others);
      assert Owners(groups, minted1) == {} by {
        assert forall g | g in groups :: g == newGroup || minted1 !in groups[g] by {
          assert forall g | g in old(groups) :: g !in Owners(old(groups), minted1);
        }
      }
      if first.Created? { assert OwnersOfAll(groups, tickets) == {newGroup} by { assert tickets[0] in tickets; } }
      again := ResolveGroup(tickets, initiativeKnown, newGroup1, minted1, others);
    }

    /** Tickets a group was given resolve to it. */
    method UpdateThenResolve(group: int, tickets: seq<Ticket>, newGroup: int, minted: Ticket,
                             ghost others: map<int, Process>)
      returns (ok: bool, r: ResolveResult)
      requires SingleOwner(groups) && tickets != [] && newGroup !in groups && Owners(groups, minted) == {}
               && minted !in tickets
      modifies this`groups
      ensures ok ==> r == Existing(group)
    {
      ok := UpdateGroup(group, tickets, others);
      assert Owners(groups, minted) == {} by {
        forall g | g in groups ensures minted !in groups[g] { assert g !in Owners(old(groups), minted); }
      }
      if ok {
        assert tickets[0] in groups[group] by { assert tickets[0] in tickets; }
        assert OwnersOfAll(groups, tickets) == {group};
      }
      r := ResolveGroup(tickets, true, newGroup, minted, others);
    }

    /** The distinct tickets in first-seen order with the one owner of each, or nothing when some ticket is unowned. */
    method OwnerIds(tickets: seq<Ticket>) returns (ok: bool, distinct: seq<Ticket>, ownerIds: map<Ticket, int>)
      requires SingleOwner(groups)
      ensures ok <==> forall t | t in tickets :: Owners(groups, t) != {}
      ensures ok ==> NoRepeats(distinct) && (forall t :: t in distinct <==> t in tickets)
      ensures ok ==> forall t :: t in ownerIds <==> t in tickets
      ensures ok ==> forall t | t in ownerIds :: Owners(groups, t) == {ownerIds[t]}
    {
      distinct, ownerIds := [], map[];
      for i := 0 to |tickets|
        invariant NoRepeats(distinct) && forall t :: t in distinct <==> t in tickets[..i]
        invariant forall t :: t in ownerIds <==> t in distinct
        invariant forall t | t in ownerIds :: Owners(groups, t) == {ownerIds[t]}
      {
        assert tickets[..i + 1] == tickets[..i] + [tickets[i]];
        if tickets[i] !in distinct {
          var owner := FindGroupByTicket(tickets[i]);
          if owner == Nobody {
            assert tickets[i] in tickets;
            return false, [], map[];
          }
          distinct := distinct + [tickets[i]];
          ownerIds := ownerIds[tickets[i] := owner.group];
        }
      }
      assert tickets[..|tickets|] == tickets;
      assert forall t | t in tickets :: t in ownerIds && ownerIds[t] in Owners(groups, t);
      ok := true;
    }

    /** One reference edge, unless it is already there; refused when the ticket has no vertex. */
    method CreateAbout(memory: int, ticket: Ticket) returns (created: Option<bool>)
      modifies this`about
      ensures created.None? <==> (memory, ticket) !in old(about) && ticket !in vertices
      ensures created.Some? ==> created.value == ((memory, ticket) !in old(about))
      ensures about == if created.None? then old(about) else old(about) + {(memory, ticket)}
    {
      if (memory, ticket) in about {
        return Some(false);
      }
      if ticket !in vertices {
        return None;
      }
      about := about + {(memory, ticket)};
      return Some(true);
    }

    method CreateForMemory(memory: int, tickets: seq<Ticket>) returns (ok: bool, created: nat, alreadyPresent: nat)
      modifies this`about
      ensures ok <==> AllMakeable(old(about), vertices, {memory}, tickets)
      ensures ok ==> about == old(about) + Pairs({memory}, tickets)
      ensures ok ==> |about| == |old(about)| + created && created + alreadyPresent == |tickets|
    {
      hide *;
      ok, created, alreadyPresent := true, 0, 0;
      NoPairs({memory}, tickets[..0]);
      NoneToMake(about, vertices, {memory}, tickets[..0]);
      for i := 0 to |tickets|
        invariant about == old(about) + Pairs({memory}, tickets[..i])
        invariant AllMakeable(old(about), vertices, {memory}, tickets[..i])
        invariant |about| == |old(about)| + created && created + alreadyPresent == i
      {
        NextMakeable(old(about), vertices, memory, tickets, i);
        PairsWithNextTicket(memory, tickets, i);
        ghost var before := about;
        var edge := CreateAbout(memory, tickets[i]);
        if edge.None? {
          return false, created, alreadyPresent;
        }
        OneEdgeMore(before, (memory, tickets[i]));
        if edge.value {
          created := created + 1;
        } else {
          alreadyPresent := alreadyPresent + 1;
        }
      }
      assert tickets[..|tickets|] == tickets;
    }

    method CreateAll(uuids: set<int>, tickets: seq<Ticket>) returns (ok: bool, created: nat, alreadyPresent: nat)
      modifies this`about
      ensures ok <==> AllMakeable(old(about), vertices, uuids, tickets)
      ensures ok ==> about == old(about) + Pairs(uuids, tickets)
      ensures ok ==> |about| == |old(about)| + created && created + alreadyPresent == Grid(uuids, tickets)
    {
      hide *;
      ok, created, alreadyPresent := true, 0, 0;
      var remaining := uuids;
      ghost var written: set<int> := {};
      NoPairs(written, tickets);
      NoneToMake(about, vertices, written, tickets);
      OneRowMore(written, 0, tickets);
      SplitsAtStart(uuids);
      while remaining != {}
        invariant Splits(uuids, remaining, written)
        invariant about == old(about) + Pairs(written, tickets) && AllMakeable(old(about), vertices, written, tickets)
        invariant |about| == |old(about)| + created && created + alreadyPresent == Grid(written, tickets)
        decreases |remaining|
      {
        ghost var _ := Inhabited(remaining);
        var m :| m in remaining;
        SplitsOn(uuids, remaining, written, m);
        PairsWithNextMemory(written, m, tickets);
        OneMoreMakeable(old(about), vertices, written, m, tickets);
        OneRowMore(written, m, tickets);
        var done, n, k := CreateForMemory(m, tickets);
        if !done {
          SomeNotMakeable(old(about), vertices, uuids, written + {m}, tickets);
          return false, created, alreadyPresent;
        }
        created, alreadyPresent := created + n, alreadyPresent + k;
        remaining, written := remaining - {m}, written + {m};
      }
      SplitsAtEnd(uuids, written);
    }

    /**
     References from existing memories to tickets their groups do not own: every pair is checked before any is
     written, and when a new edge's ticket has no vertex the edges already made are rolled back.
     */
    method AddTicketReferences(uuids: set<int>, tickets: seq<Ticket>, ghost others: map<int, Process>, ghost p: int)
      returns (r: AddResult)
      requires SingleOwner(groups) && p !in others
      modifies this`about
      ensures r.Added? <==>
              Addable(old(Seen(others)), uuids, tickets) && AllMakeable(old(about), vertices, uuids, tickets)
      ensures r.Rejected? ==> about == old(about)
      ensures r.Added? ==> about == old(about) + Pairs(uuids, tickets)
      ensures r.Added? ==>
              |about| == |old(about)| + r.created && r.created + r.alreadyPresent == |uuids| * |Elements(tickets)|
      ensures r.Added? ==> Leads(old(Seen(others)), Seen(others[p := Idle]))
    {
      if !(uuids <= memories.Keys) {
        return Rejected;
      }
      var ok, distinct, ownerIds := OwnerIds(tickets);
      if !ok {
        return Rejected;
      }
      if exists m, t :: m in uuids && t in ownerIds && ownerIds[t] == memories[m] {
        ghost var m, t :| m in uuids && t in ownerIds && ownerIds[t] == memories[m];
        assert memories[m] in Owners(groups, t);
        return Rejected;
      }
      ForeignOwners(Seen(others), uuids, tickets, ownerIds);
      hide *;
      PairsOfSameTickets(uuids, distinct, tickets);
      GridIs(uuids, distinct);
      NoRepeatsSize(distinct);
      var before := about;
      var made, created, alreadyPresent := CreateAll(uuids, distinct);
      AllMakeableSame(before, vertices, uuids, distinct, tickets);
      if !made {
        about := before;
        return Rejected;
      }
      AddIsARun(old(Seen(others)), p, uuids, tickets);
      r := Added(created, alreadyPresent);
    }
  }

  /** Existing memories, each ticket owned, and by none of their groups. */
  ghost predicate Addable(w: World, uuids: set<int>, tickets: seq<Ticket>) {
    && uuids <= w.memories.Keys && (forall t | t in tickets :: Owners(w.groups, t) != {})
    && forall m, t | m in uuids && t in tickets :: w.memories[m] !in Owners(w.groups, t)
  }

  lemma ForeignOwners(w: World, uuids: set<int>, tickets: seq<Ticket>, ownerIds: map<Ticket, int>)
    requires uuids <= w.memories.Keys && (forall t :: t in ownerIds <==> t in tickets)
    requires forall t | t in ownerIds :: Owners(w.groups, t) == {ownerIds[t]}
    requires forall m, t | m in uuids && t in ownerIds :: ownerIds[t] != w.memories[m]
    ensures Addable(w, uuids, tickets)
  {
    forall t | t in tickets ensures Owners(w.groups, t) != {} { assert ownerIds[t] in Owners(w.groups, t); }
  }

  /** An edge the graph can make, or has. */
  predicate Makeable(about: set<(int, Ticket)>, vertices: set<Ticket>, memory: int, t: Ticket) {
    (memory, t) in about || t in vertices
  }

  ghost predicate AllMakeable(about: set<(int, Ticket)>, vertices: set<Ticket>, uuids: set<int>, tickets: seq<Ticket>) {
    forall m, t | m in uuids && t in tickets :: Makeable(about, vertices, m, t)
  }

  /** What was made so far for a memory does not change whether its next edge can be made. */
  lemma NextMakeable(about: set<(int, Ticket)>, vertices: set<Ticket>, memory: int, tickets: seq<Ticket>, i: nat)
    requires i < |tickets| && AllMakeable(about, vertices, {memory}, tickets[..i])
    ensures AllMakeable(about, vertices, {memory}, tickets[..i + 1]) <==>
            (memory, tickets[i]) in about + Pairs({memory}, tickets[..i]) || tickets[i] in vertices
    ensures AllMakeable(about, vertices, {memory}, tickets) ==> AllMakeable(about, vertices, {memory}, tickets[..i + 1])
  {
    assert tickets[..i + 1] == tickets[..i] + [tickets[i]];
    assert (memory, tickets[i]) in Pairs({memory}, tickets[..i]) ==> Makeable(about, vertices, memory, tickets[i]);
    assert AllMakeable(about, vertices, {memory}, tickets[..i + 1]) <==> Makeable(about, vertices, memory, tickets[i]);
  }

  /** Nor whether the next memory's can. */
  lemma OneMoreMakeable(about: set<(int, Ticket)>,
                        vertices: set<Ticket>, written: set<int>, m: int, tickets: seq<Ticket>)
    requires AllMakeable(about, vertices, written, tickets) && m !in written
    ensures AllMakeable(about + Pairs(written, tickets), vertices, {m}, tickets) <==>
            AllMakeable(about, vertices, written + {m}, tickets)
  {
    assert forall t | t in tickets ::
             Makeable(about + Pairs(written, tickets), vertices, m, t) <==> Makeable(about, vertices, m, t);
  }

  /** How many pairs a request makes or finds. */
  function Grid(uuids: set<int>, tickets: seq<Ticket>): nat {
    |uuids| * |tickets|
  }

  lemma OneEdgeMore(about: set<(int, Ticket)>, pair: (int, Ticket))
    ensures |about + {pair}| == |about| + if pair in about then 0 else 1
  {
    if pair in about { assert about + {pair} == about; }
  }

  lemma GridIs(uuids: set<int>, tickets: seq<Ticket>)
    ensures Grid(uuids, tickets) == |uuids| * |tickets|
  {
  }

  lemma OneRowMore(written: set<int>, m: int, tickets: seq<Ticket>)
    requires m !in written
    ensures Grid({}, tickets) == 0 && Grid(written + {m}, tickets) == Grid(written, tickets) + |tickets|
  {
    var n := |written|;
    assert |written + {m}| == n + 1;
    assert (n + 1) * |tickets| == n * |tickets| + |tickets|;
  }

  /** The memories still to be written and those written. */
  predicate Splits(uuids: set<int>, remaining: set<int>, written: set<int>) {
    remaining !! written && remaining + written == uuids
  }

  lemma SplitsAtStart(uuids: set<int>)
    ensures Splits(uuids, uuids, {})
  {
  }

  lemma SplitsOn(uuids: set<int>, remaining: set<int>, written: set<int>, m: int)
    requires Splits(uuids, remaining, written) && m in remaining
    ensures Splits(uuids, remaining - {m}, written + {m}) && m !in written && written + {m} <= uuids
    ensures |remaining - {m}| < |remaining|
  {
  }

  lemma SplitsAtEnd(uuids: set<int>, written: set<int>)
    requires Splits(uuids, {}, written)
    ensures written == uuids
  {
  }

  lemma NoneToMake(about: set<(int, Ticket)>, vertices: set<Ticket>, uuids: set<int>, tickets: seq<Ticket>)
    requires uuids == {} || tickets == []
    ensures AllMakeable(about, vertices, uuids, tickets)
  {
  }

  lemma SomeNotMakeable(about: set<(int, Ticket)>,
                        vertices: set<Ticket>, uuids: set<int>, some: set<int>, tickets: seq<Ticket>)
    requires some <= uuids && !AllMakeable(about, vertices, some, tickets)
    ensures !AllMakeable(about, vertices, uuids, tickets)
  {
  }

  lemma AllMakeableSame(about: set<(int, Ticket)>,
                        vertices: set<Ticket>, uuids: set<int>, a: seq<Ticket>, b: seq<Ticket>)
    requires forall t :: t in a <==> t in b
    ensures AllMakeable(about, vertices, uuids, a) <==> AllMakeable(about, vertices, uuids, b)
  {
  }

  /** The tickets a new group gets: those asked for, or one minted ticket. */
  function Held(tickets: seq<Ticket>, minted: Ticket): seq<Ticket> {
    if tickets == [] then [minted] else tickets
  }

  function OwnersOfAll(groups: Groups, tickets: seq<Ticket>): set<int> {
    set g | g in groups && exists t :: t in tickets && t in groups[g]
  }

  ghost function Pairs(uuids: set<int>, tickets: seq<Ticket>): set<(int, Ticket)> {
    set m, t | m in uuids && t in tickets :: (m, t)
  }

  lemma NoPairs(uuids: set<int>, tickets: seq<Ticket>)
    requires uuids == {} || tickets == []
    ensures Pairs(uuids, tickets) == {}
  {
  }

  lemma PairsOfSameTickets(uuids: set<int>, a: seq<Ticket>, b: seq<Ticket>)
    requires forall t :: t in a <==> t in b
    ensures Pairs(uuids, a) == Pairs(uuids, b) && Elements(a) == Elements(b)
  {
  }

  lemma PairsWithNextTicket(memory: int, tickets: seq<Ticket>, i: nat)
    requires i < |tickets|
    ensures Pairs({memory}, tickets[..i + 1]) == Pairs({memory}, tickets[..i]) + {(memory, tickets[i])}
  {
    assert tickets[..i + 1] == tickets[..i] + [tickets[i]];
  }

  lemma PairsWithNextMemory(written: set<int>, memory: int, tickets: seq<Ticket>)
    ensures Pairs(written + {memory}, tickets) == Pairs(written, tickets) + Pairs({memory}, tickets)
  {
  }

  lemma OwnersOfMore(groups: Groups, tickets: seq<Ticket>, i: nat)
    requires i < |tickets|
    ensures OwnersOfAll(groups, tickets[..i + 1]) == OwnersOfAll(groups, tickets[..i]) + Owners(groups, tickets[i])
  {
    assert tickets[..i + 1] == tickets[..i] + [tickets[i]];
  }

  lemma OwnersOfPrefix(groups: Groups, tickets: seq<Ticket>, i: nat)
    requires i <= |tickets|
    ensures OwnersOfAll(groups, tickets[..i]) <= OwnersOfAll(groups, tickets)
  {
  }

  lemma NewTicketsAreUnowned(groups: Groups, tickets: seq<Ticket>, minted: Ticket)
    requires OwnersOfAll(groups, tickets) == {} && Owners(groups, minted) == {}
    ensures forall t, g | t in Held(tickets, minted) && g in groups :: t !in groups[g]
  {
    forall t, g | t in Held(tickets, minted) && g in groups
      ensures t !in groups[g]
    {
      assert g !in OwnersOfAll(groups, tickets) && g !in Owners(groups, minted);
    }
  }

  /** after is before with every requested ticket not already there appended, once. */
  ghost predicate Extension(before: seq<Ticket>, requested: seq<Ticket>, after: seq<Ticket>) {
    && before <= after
    && (forall t :: t in after <==> t in before || t in requested)
    && (forall i, j | |before| <= i < j < |after| :: after[i] != after[j])
    && (forall i | |before| <= i < |after| :: after[i] !in before)
  }

  lemma ExtensionKeepsSingleOwner(groups: Groups, group: int, tickets: seq<Ticket>, extended: seq<Ticket>)
    requires SingleOwner(groups) && group in groups && Extension(groups[group], tickets, extended)
    requires OwnersOfAll(groups, tickets) <= {group}
    ensures SingleOwner(groups[group := extended])
  {
    forall g, t | g in groups && g != group && t in groups[g] && t in extended
      ensures t in groups[group]
    {
      assert t in tickets ==> g in OwnersOfAll(groups, tickets);
    }
  }

  // ----- all interleavings

  /** A request in flight: what it has read so far. */
  datatype Process =
    | Idle
    | Adding(groupOf: map<int, int>, tickets: set<Ticket>, ownerOf: map<Ticket, int>)
    | Writing(group: int, targets: set<int>, tickets: set<Ticket>, checked: set<Ticket>)

  datatype World = World(groups: Groups, memories: map<int, int>,
                         about: set<(int, Ticket)>, processes: map<int, Process>)

  datatype Step =
    | Resolve(requested: seq<Ticket>, initiativeKnown: bool, newGroup: int, minted: Ticket)
    | Extend(group: int, requested: seq<Ticket>, after: seq<Ticket>)
    | BeginAdd(p: int, uuids: set<int>, tickets: set<Ticket>)
    | LookUpForAdd(p: int, t: Ticket, owner: int)
    | CommitAdd(p: int)
    | BeginWrite(p: int, group: int, targets: set<int>, tickets: set<Ticket>)
    | LookUpForWrite(p: int, t: Ticket, owner: int)
    | CommitWrite(p: int, created: set<int>)
    | Fail(p: int)

  ghost function Cross(memories: set<int>, tickets: set<Ticket>): set<(int, Ticket)> {
    set m, t | m in memories && t in tickets :: (m, t)
  }

  ghost function InGroup(created: set<int>, group: int): map<int, int> {
    map m | m in created :: group
  }

  /** Every ticket has been looked up and none belongs to a referring memory's group. */
  ghost predicate AllForeign(groupOf: map<int, int>, tickets: set<Ticket>, ownerOf: map<Ticket, int>) {
    tickets <= ownerOf.Keys && forall m, t | m in groupOf && t in ownerOf :: ownerOf[t] != groupOf[m]
  }

  function At(w: World, p: int): Process {
    if p in w.processes then w.processes[p] else Idle
  }

  function Now(w: World, p: int, q: Process): World {
    w.(processes := w.processes[p := q])
  }

  /** Each read and each commit is a step of its own; the locked operations are one step each. */
  ghost predicate Next(w: World, step: Step, w1: World) {
    match step
    case Resolve(tickets, initiativeKnown, g, minted) =>
      if OwnersOfAll(w.groups, tickets) == {} && initiativeKnown then
        g !in w.groups && Owners(w.groups, minted) == {}
        && w1 == w.(groups := w.groups[g := Held(tickets, minted)])
      else w1 == w
    case Extend(g, tickets, after) =>
      if g in w.groups && OwnersOfAll(w.groups, tickets) <= {g} then
        Extension(w.groups[g], tickets, after) && w1 == w.(groups := w.groups[g := after])
      else w1 == w
    case BeginAdd(p, uuids, tickets) =>
      At(w, p).Idle? && uuids <= w.memories.Keys
      && w1 == Now(w, p, Adding(map m | m in uuids :: w.memories[m], tickets, map[]))
    case LookUpForAdd(p, t, owner) =>
      var q := At(w, p);
      q.Adding? && t in q.tickets && Owners(w.groups, t) == {owner}
      && w1 == Now(w, p, q.(ownerOf := q.ownerOf[t := owner]))
    case CommitAdd(p) =>
      var q := At(w, p);
      q.Adding? && AllForeign(q.groupOf, q.tickets, q.ownerOf)
      && w1 == Now(w.(about := w.about + Cross(q.groupOf.Keys, q.tickets)), p, Idle)
    case BeginWrite(p, g, targets, tickets) =>
      At(w, p).Idle? && g in w.groups && (forall m | m in targets :: m in w.memories && w.memories[m] == g)
      && w1 == Now(w, p, Writing(g, targets, tickets, {}))
    case LookUpForWrite(p, t, owner) =>
      var q := At(w, p);
      q.Writing? && t in q.tickets && Owners(w.groups, t) == {owner} && owner != q.group
      && w1 == Now(w, p, q.(checked := q.checked + {t}))
    case CommitWrite(p, created) =>
      var q := At(w, p);
      q.Writing? && q.tickets <= q.checked && created !! w.memories.Keys
      && w1 == Now(w.(memories := w.memories + InGroup(created, q.group),
                      about := w.about + Cross(q.targets + created, q.tickets)), p, Idle)
    case Fail(p) => w1 == Now(w, p, Idle)
  }

  ghost predicate OwnedByAnother(w: World, t: Ticket, group: int) {
    exists g :: g in Owners(w.groups, t) && g != group
  }

  /** What a process in flight has read is still true. */
  ghost predicate ReadsStillTrue(w: World, q: Process) {
    match q
    case Idle => true
    case Adding(groupOf, _, ownerOf) =>
      (forall m | m in groupOf :: m in w.memories && w.memories[m] == groupOf[m])
      && forall t | t in ownerOf :: ownerOf[t] in Owners(w.groups, t)
    case Writing(g, targets, _, checked) =>
      g in w.groups && (forall m | m in targets :: m in w.memories && w.memories[m] == g)
      && forall t | t in checked :: OwnedByAnother(w, t, g)
  }

  ghost predicate Invariant(w: World) {
    && SingleOwner(w.groups)
    && (forall a | a in w.about :: a.0 in w.memories && OwnedByAnother(w, a.1, w.memories[a.0]))
    && (forall p | p in w.processes :: ReadsStillTrue(w, w.processes[p]))
  }

  /** Ownership only grows, memories stay in their group, references stay. */
  ghost predicate Grows(w: World, w1: World) {
    && (forall g | g in w.groups :: g in w1.groups && w.groups[g] <= w1.groups[g])
    && (forall m | m in w.memories :: m in w1.memories && w1.memories[m] == w.memories[m])
    && w.about <= w1.about
  }

  lemma GrowthKeepsOwners(w: World, w1: World, t: Ticket)
    requires Grows(w, w1)
    ensures Owners(w.groups, t) <= Owners(w1.groups, t)
  {
    forall g | g in Owners(w.groups, t)
      ensures g in Owners(w1.groups, t)
    {
      var i :| 0 <= i < |w.groups[g]| && w.groups[g][i] == t;
      assert w1.groups[g][i] == t;
    }
  }

  lemma GrowthKeepsReads(w: World, w1: World, q: Process)
    requires Grows(w, w1) && ReadsStillTrue(w, q)
    ensures ReadsStillTrue(w1, q)
  {
    match q {
      case Idle =>
      case Adding(groupOf, _, ownerOf) =>
        forall t | t in ownerOf ensures ownerOf[t] in Owners(w1.groups, t) { GrowthKeepsOwners(w, w1, t); }
      case Writing(g, targets, _, checked) =>
        forall t | t in checked ensures OwnedByAnother(w1, t, g) { GrowthKeepsOwners(w, w1, t); }
    }
  }

  lemma GrowthKeepsReferences(w: World, w1: World, m: int, t: Ticket)
    requires Grows(w, w1) && m in w.memories && OwnedByAnother(w, t, w.memories[m])
    ensures m in w1.memories && OwnedByAnother(w1, t, w1.memories[m])
  {
    GrowthKeepsOwners(w, w1, t);
  }

  lemma StepGrows(w: World, step: Step, w1: World)
    requires Next(w, step, w1)
    ensures Grows(w, w1)
  {
  }

  lemma StepKeepsSingleOwner(w: World, step: Step, w1: World)
    requires SingleOwner(w.groups) && Next(w, step, w1)
    ensures SingleOwner(w1.groups)
  {
    match step {
      case Resolve(tickets, initiativeKnown, g, minted) =>
        if OwnersOfAll(w.groups, tickets) == {} && initiativeKnown { NewTicketsAreUnowned(w.groups, tickets, minted); }
      case Extend(g, tickets, after) =>
        if g in w.groups && OwnersOfAll(w.groups, tickets) <= {g} {
          ExtensionKeepsSingleOwner(w.groups, g, tickets, after);
        }
      case _ =>
    }
  }

  /** A reference committed now, on checks made earlier and outside any lock, still points to another group's ticket. */
  lemma NewReferenceIsForeign(w: World, step: Step, w1: World, m: int, t: Ticket)
    requires Invariant(w) && Next(w, step, w1) && (m, t) in w1.about && (m, t) !in w.about
    ensures m in w1.memories && OwnedByAnother(w1, t, w1.memories[m])
  {
    match step {
      case CommitAdd(p) =>
        var q := At(w, p);
        assert ReadsStillTrue(w, q);
        assert q.ownerOf[t] in Owners(w1.groups, t) && q.ownerOf[t] != w1.memories[m];
      case CommitWrite(p, created) =>
        var q := At(w, p);
        assert ReadsStillTrue(w, q);
        assert OwnedByAnother(w, t, q.group) && w1.memories[m] == q.group;
      case _ =>
    }
  }

  lemma NewReadsAreTrue(w: World, step: Step, w1: World, p: int)
    requires Invariant(w) && Next(w, step, w1) && p in w1.processes
    requires !(p in w.processes && w.processes[p] == w1.processes[p])
    ensures ReadsStillTrue(w1, w1.processes[p])
  {
    match step {
      case LookUpForAdd(q, t, owner) =>
        assert ReadsStillTrue(w, At(w, q));
      case LookUpForWrite(q, t, owner) =>
        assert ReadsStillTrue(w, At(w, q));
        assert owner in Owners(w.groups, t);
        assert OwnedByAnother(w1, t, At(w, q).group);
        assert forall x | x in At(w, q).checked ::
                 OwnedByAnother(w, x, At(w, q).group) && OwnedByAnother(w1, x, At(w, q).group);
      case _ =>
    }
  }

  lemma StepKeepsInvariant(w: World, step: Step, w1: World)
    requires Invariant(w) && Next(w, step, w1)
    ensures Invariant(w1) && Grows(w, w1)
  {
    StepGrows(w, step, w1);
    StepKeepsSingleOwner(w, step, w1);
    forall a | a in w1.about
      ensures a.0 in w1.memories && OwnedByAnother(w1, a.1, w1.memories[a.0])
    {
      if a in w.about {
        GrowthKeepsReferences(w, w1, a.0, a.1);
      } else {
        NewReferenceIsForeign(w, step, w1, a.0, a.1);
      }
    }
    forall p | p in w1.processes
      ensures ReadsStillTrue(w1, w1.processes[p])
    {
      if p in w.processes && w.processes[p] == w1.processes[p] {
        GrowthKeepsReads(w, w1, w.processes[p]);
      } else {
        NewReadsAreTrue(w, step, w1, p);
      }
    }
  }

  ghost predicate IsRun(run: seq<World>, steps: seq<Step>) {
    |run| == |steps| + 1 && forall i | 0 <= i < |steps| :: Next(run[i], steps[i], run[i + 1])
  }

  ghost predicate Leads(w: World, w1: World) {
    exists run, steps :: IsRun(run, steps) && run[0] == w && run[|run| - 1] == w1
  }

  lemma LeadsOn(w: World, w1: World, step: Step, w2: World)
    requires Leads(w, w1) && Next(w1, step, w2)
    ensures Leads(w, w2)
  {
    hide Next;
    var run, steps :| IsRun(run, steps) && run[0] == w && run[|run| - 1] == w1;
    var run1, steps1 := run + [w2], steps + [step];
    forall i | 0 <= i < |steps1|
      ensures Next(run1[i], steps1[i], run1[i + 1])
    {
      if i < |steps| { assert Next(run[i], steps[i], run[i + 1]); }
    }
    assert IsRun(run1, steps1);
  }

  function KnownOwners(ownerOf: map<Ticket, int>, tickets: seq<Ticket>): map<Ticket, int> {
    map t | t in tickets && t in ownerOf :: ownerOf[t]
  }

  /** Looking the tickets up one by one. */
  lemma {:induction false} LookUpsLead(w: World, p: int, groupOf: map<int, int>, tickets: seq<Ticket>,
                                       ownerOf: map<Ticket, int>, k: nat)
    requires k <= |tickets| && forall t | t in tickets :: t in ownerOf && Owners(w.groups, t) == {ownerOf[t]}
    ensures Leads(Now(w, p, Adding(groupOf, Elements(tickets), map[])),
                  Now(w, p, Adding(groupOf, Elements(tickets), KnownOwners(ownerOf, tickets[..k]))))
  {
    var start := Now(w, p, Adding(groupOf, Elements(tickets), map[]));
    if k == 0 {
      assert KnownOwners(ownerOf, tickets[..0]) == map[];
      assert IsRun([start], []);
    } else {
      hide Leads;
      LookUpsLead(w, p, groupOf, tickets, ownerOf, k - 1);
      var t := tickets[k - 1];
      var before, after := KnownOwners(ownerOf, tickets[..k - 1]), KnownOwners(ownerOf, tickets[..k]);
      assert tickets[..k] == tickets[..k - 1] + [t];
      assert after == before[t := ownerOf[t]];
      LeadsOn(start, Now(w, p, Adding(groupOf, Elements(tickets), before)), LookUpForAdd(p, t, ownerOf[t]),
              Now(w, p, Adding(groupOf, Elements(tickets), after)));
    }
  }

  lemma LeadsFrom(w: World, step: Step, w1: World, w2: World)
    requires Next(w, step, w1) && Leads(w1, w2)
    ensures Leads(w, w2)
  {
    hide Next;
    var run, steps :| IsRun(run, steps) && run[0] == w1 && run[|run| - 1] == w2;
    var run1, steps1 := [w] + run, [step] + steps;
    forall i | 0 <= i < |steps1|
      ensures Next(run1[i], steps1[i], run1[i + 1])
    {
      if i > 0 { assert Next(run[i - 1], steps[i - 1], run[i]); }
    }
    assert IsRun(run1, steps1);
  }

  /** An accepted addition, done by one process while the others rest, is a run of begin, look-ups and commit. */
  lemma AddIsARun(w: World, p: int, uuids: set<int>, tickets: seq<Ticket>)
    requires SingleOwner(w.groups) && Addable(w, uuids, tickets) && At(w, p).Idle?
    ensures Leads(w, Now(w.(about := w.about + Pairs(uuids, tickets)), p, Idle))
  {
    hide Leads;
    var groupOf := map m | m in uuids :: w.memories[m];
    var ownerOf := OneOwnerEach(w.groups, tickets);
    var begun := Now(w, p, Adding(groupOf, Elements(tickets), map[]));
    var known := KnownOwners(ownerOf, tickets);
    LookUpsLead(w, p, groupOf, tickets, ownerOf, |tickets|);
    assert tickets[..|tickets|] == tickets;
    LeadsFrom(w, BeginAdd(p, uuids, Elements(tickets)), begun, Now(w, p, Adding(groupOf, Elements(tickets), known)));
    var end := Now(w.(about := w.about + Pairs(uuids, tickets)), p, Idle);
    assert Cross(groupOf.Keys, Elements(tickets)) == Pairs(uuids, tickets);
    forall m, t | m in groupOf && t in known ensures known[t] != groupOf[m] { assert known[t] in Owners(w.groups, t); }
    LeadsOn(w, Now(w, p, Adding(groupOf, Elements(tickets), known)), CommitAdd(p), end);
  }

  lemma {:induction false} WriteLookUpsLead(w: World, p: int, g: int, targets: set<int>, tickets: seq<Ticket>, k: nat)
    requires k <= |tickets|
    requires forall t | t in tickets :: exists owner :: Owners(w.groups, t) == {owner} && owner != g
    ensures Leads(Now(w, p, Writing(g, targets, Elements(tickets), {})),
                  Now(w, p, Writing(g, targets, Elements(tickets), Elements(tickets[..k]))))
  {
    var start := Now(w, p, Writing(g, targets, Elements(tickets), {}));
    if k == 0 {
      assert Elements(tickets[..0]) == {};
      assert IsRun([start], []);
    } else {
      hide Leads;
      WriteLookUpsLead(w, p, g, targets, tickets, k - 1);
      var t := tickets[k - 1];
      var owner :| Owners(w.groups, t) == {owner} && owner != g;
      assert tickets[..k] == tickets[..k - 1] + [t];
      assert Elements(tickets[..k]) == Elements(tickets[..k - 1]) + {t};
      LeadsOn(start, Now(w, p, Writing(g, targets, Elements(tickets), Elements(tickets[..k - 1]))),
              LookUpForWrite(p, t, owner), Now(w, p, Writing(g, targets, Elements(tickets), Elements(tickets[..k]))));
    }
  }

  /**
   A memory write with references, done by one process while the others rest, is a run of begin, look-ups and
   commit.
   */
  lemma WriteIsARun(w: World, p: int, g: int, targets: set<int>, created: set<int>, tickets: seq<Ticket>)
    requires At(w, p).Idle? && g in w.groups && created !! w.memories.Keys
    requires forall m | m in targets :: m in w.memories && w.memories[m] == g
    requires forall t | t in tickets :: exists owner :: Owners(w.groups, t) == {owner} && owner != g
    ensures Leads(w, Now(w.(memories := w.memories + InGroup(created, g),
                            about := w.about + Cross(targets + created, Elements(tickets))), p, Idle))
  {
    hide Leads;
    WriteLookUpsLead(w, p, g, targets, tickets, |tickets|);
    assert tickets[..|tickets|] == tickets;
    var begun := Now(w, p, Writing(g, targets, Elements(tickets), {}));
    var checked := Now(w, p, Writing(g, targets, Elements(tickets), Elements(tickets)));
    LeadsFrom(w, BeginWrite(p, g, targets, Elements(tickets)), begun, checked);
    LeadsOn(w, checked, CommitWrite(p, created),
            Now(w.(memories := w.memories + InGroup(created, g),
                   about := w.about + Cross(targets + created, Elements(tickets))), p, Idle));
  }

  lemma {:induction false} OneOwnerEach(groups: Groups, tickets: seq<Ticket>) returns (ownerOf: map<Ticket, int>)
    requires SingleOwner(groups) && forall t | t in tickets :: Owners(groups, t) != {}
    ensures forall t | t in tickets :: t in ownerOf && Owners(groups, t) == {ownerOf[t]}
  {
    if tickets == [] {
      ownerOf := map[];
    } else {
      var init, last := tickets[..|tickets| - 1], tickets[|tickets| - 1];
      ownerOf := OneOwnerEach(groups, init);
      var g := Inhabited(Owners(groups, last));
      OwnersOfOne(groups, last, g);
      ownerOf := ownerOf[last := g];
      assert forall t | t in tickets :: t in init || t == last;
    }
  }

  lemma {:induction false} RunKeepsInvariant(run: seq<World>, steps: seq<Step>, i: nat)
    requires IsRun(run, steps) && Invariant(run[0]) && i < |run|
    ensures Invariant(run[i]) && Grows(run[0], run[i])
  {
    if i > 0 {
      RunKeepsInvariant(run, steps, i - 1);
      StepKeepsInvariant(run[i - 1], steps[i - 1], run[i]);
      GrowsOn(run[0], run[i - 1], run[i]);
    }
  }

  lemma GrowsOn(w: World, w1: World, w2: World)
    requires Grows(w, w1) && Grows(w1, w2)
    ensures Grows(w, w2)
  {
  }

  /** Whatever a run leads to keeps ownership single and references foreign, and takes nothing back. */
  lemma LeadsKeepsInvariant(w: World, w1: World)
    requires Leads(w, w1) && Invariant(w)
    ensures Invariant(w1) && Grows(w, w1)
  {
    var run, steps :| IsRun(run, steps) && run[0] == w && run[|run| - 1] == w1;
    RunKeepsInvariant(run, steps, |run| - 1);
  }

  ghost predicate Start(w: World) {
    w.groups == map[] && w.memories == map[] && w.about == {} && w.processes == map[]
  }

  lemma {:induction false} RunsKeepInvariant(run: seq<World>, steps: seq<Step>, i: nat)
    requires IsRun(run, steps) && Start(run[0]) && i < |run|
    ensures Invariant(run[i])
  {
    if i > 0 {
      RunsKeepInvariant(run, steps, i - 1);
      StepKeepsInvariant(run[i - 1], steps[i - 1], run[i]);
    }
  }

  /** In no interleaving does a ticket have two owners, so the ambiguity conflict cannot be raised. */
  lemma NeverAmbiguous(run: seq<World>, steps: seq<Step>, i: nat, t: Ticket)
    requires IsRun(run, steps) && Start(run[0]) && i < |run|
    ensures |Owners(run[i].groups, t)| <= 1
  {
    RunsKeepInvariant(run, steps, i);
    if Owners(run[i].groups, t) != {} {
      var g := Inhabited(Owners(run[i].groups, t));
      OwnersOfOne(run[i].groups, t, g);
    }
  }

  /** Once a group owns a ticket it is that ticket's only owner ever after. */
  lemma {:induction false} OwnerNeverChanges(run: seq<World>, steps: seq<Step>, i: nat, j: nat, t: Ticket, g: int)
    requires IsRun(run, steps) && Start(run[0]) && i <= j < |run| && g in Owners(run[i].groups, t)
    ensures Owners(run[j].groups, t) == {g}
    decreases j
  {
    RunsKeepInvariant(run, steps, j);
    if i < j {
      OwnerNeverChanges(run, steps, i, j - 1, t, g);
      RunsKeepInvariant(run, steps, j - 1);
      StepKeepsInvariant(run[j - 1], steps[j - 1], run[j]);
      GrowthKeepsOwners(run[j - 1], run[j], t);
    }
    OwnersOfOne(run[j].groups, t, g);
  }

  /** No memory ever carries a reference to a ticket its own group owns. */
  lemma NoReferenceToOwnTicket(run: seq<World>, steps: seq<Step>, i: nat, m: int, t: Ticket)
    requires IsRun(run, steps) && Start(run[0]) && i < |run| && (m, t) in run[i].about
    ensures m in run[i].memories && run[i].memories[m] !in Owners(run[i].groups, t)
  {
    RunsKeepInvariant(run, steps, i);
    var w := run[i];
    var g :| g in Owners(w.groups, t) && g != w.memories[m];
    OwnersOfOne(w.groups, t, g);
  }
}
