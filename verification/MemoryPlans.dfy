/**
 The plan of a memory write: every decision that can refuse or skip an item is taken here, against
 stored state, before anything is written. Dry run and write share it.
 */
module MemoryPlans {
  import opened Common
  import opened MemoryClaims

  datatype MemoryRow = MemoryRow(group: int, slug: string, name: string, description: string, tags: seq<string>,
                                 facets: seq<string>)

  /** Memories by uuid, and each memory's version rows in the order they were inserted. */
  datatype Store = Store(memories: map<int, MemoryRow>, history: map<int, seq<Version>>)

  /** Content addressing and the subject slug, as functions of text. */
  datatype Env = Env(address: string -> string, slug: string -> string)

  datatype Mode = Create | NewVersion | Unchanged

  datatype Planned = Planned(mode: Mode, write: MemoryWrite, slug: string, uuid: Option<int>, current: nat, next: nat,
                             matched: Option<string>)

  datatype Refusal = UnknownMemory | NoCurrentVersion | SharedSubject | CreateUuidTwice | CreateUuidTaken | SubjectTaken

  /** What the planner remembers of a memory the batch already versions. */
  datatype Target = Target(current: nat, next: nat, last: Claim)

  datatype Plan = Plan(items: seq<Planned>, slugs: set<string>, creates: set<int>, targets: map<int, Target>)

  datatype Verdict = Accepted(plan: Plan) | Refused(reason: Refusal)

  const EMPTY_PLAN := Plan([], {}, {}, map[])

  // ----- well-formed histories

  /** Versions numbered 1 to n, the last one current and no other. */
  ghost predicate Chain(h: seq<Version>) {
    |h| > 0 && forall i | 0 <= i < |h| :: h[i].number == i + 1 && (h[i].isCurrent <==> i == |h| - 1)
  }

  ghost predicate Chains(s: Store) {
    s.history.Keys == s.memories.Keys && forall m | m in s.history :: Chain(s.history[m])
  }

  /** One memory per subject and group. */
  ghost predicate SubjectsUnique(memories: map<int, MemoryRow>) {
    forall m, n | m in memories && n in memories && memories[m].group == memories[n].group
                  && memories[m].slug == memories[n].slug :: m == n
  }

  ghost predicate Invariant(s: Store) {
    Chains(s) && SubjectsUnique(s.memories)
  }

  function Last(h: seq<Version>): Version
    requires |h| > 0
  {
    h[|h| - 1]
  }

  function CurrentOf(h: seq<Version>): Option<Version> {
    if h == [] then None else if Last(h).isCurrent then Some(Last(h)) else CurrentOf(h[..|h| - 1])
  }

  /** A memory has no current version exactly when none of its rows is marked so; otherwise it is one of them. */
  lemma {:induction false} CurrentOfRows(h: seq<Version>)
    ensures CurrentOf(h) == None <==> forall v | v in h :: !v.isCurrent
    ensures CurrentOf(h).Some? ==> CurrentOf(h).value in h && CurrentOf(h).value.isCurrent
  {
    if h != [] {
      CurrentOfRows(h[..|h| - 1]);
      assert h == h[..|h| - 1] + [Last(h)];
    }
  }

  function History(history: map<int, seq<Version>>, m: int): seq<Version> {
    if m in history then history[m] else []
  }

  predicate SubjectTakenIn(memories: map<int, MemoryRow>, group: int, slug: string) {
    exists m :: m in memories && memories[m].group == group && memories[m].slug == slug
  }

  // ----- planning

  /** The target as planned so far, or as stored. */
  function TargetOf(s: Store, p: Plan, m: int): Target
    requires m in p.targets || CurrentOf(History(s.history, m)).Some?
  {
    if m in p.targets then p.targets[m]
    else var c := CurrentOf(History(s.history, m)).value; Target(c.number, c.number + 1, FromVersion(c))
  }

  function PlanVersion(env: Env, s: Store, group: int, p: Plan, w: MemoryWrite, m: int): Verdict {
    if m !in p.targets && !(m in s.memories && s.memories[m].group == group) then Refused(UnknownMemory)
    else if m !in p.targets && CurrentOf(History(s.history, m)).None? then Refused(NoCurrentVersion)
    else
      var t := TargetOf(s, p, m);
      var incoming := FromWrite(env.address, w);
      var slug := env.slug(w.description);
      if incoming == t.last then
        Accepted(p.(items := p.items + [Planned(Unchanged, w, slug, Some(m), t.current, t.next, t.last.blobAddress)]))
      else
        Accepted(p.(items := p.items + [Planned(NewVersion, w, slug, Some(m), t.current, t.next, None)],
                    targets := p.targets[m := Target(t.current, t.next + 1, incoming)]))
  }

  function PlanCreate(env: Env, s: Store, group: int, p: Plan, w: MemoryWrite): Verdict {
    var slug := env.slug(w.description);
    if slug in p.slugs then Refused(SharedSubject)
    else if w.createUuid.Some? && w.createUuid.value in p.creates then Refused(CreateUuidTwice)
    else if w.createUuid.Some? && w.createUuid.value in s.memories then Refused(CreateUuidTaken)
    else if SubjectTakenIn(s.memories, group, slug) then Refused(SubjectTaken)
    else
      Accepted(p.(items := p.items + [Planned(Create, w, slug, w.createUuid, 0, 0, None)],
                  slugs := p.slugs + {slug},
                  creates := if w.createUuid.Some? then p.creates + {w.createUuid.value} else p.creates))
  }

  function PlanItem(env: Env, s: Store, group: int, p: Plan, w: MemoryWrite): Verdict {
    if w.uuid.Some? then PlanVersion(env, s, group, p, w, w.uuid.value) else PlanCreate(env, s, group, p, w)
  }

  /** The plan of the first k writes. */
  function PlanFirst(env: Env, s: Store, group: int, writes: seq<MemoryWrite>, k: nat): Verdict
    requires k <= |writes|
  {
    if k == 0 then Accepted(EMPTY_PLAN)
    else
      match PlanFirst(env, s, group, writes, k - 1)
      case Refused(r) => Refused(r)
      case Accepted(p) => PlanItem(env, s, group, p, writes[k - 1])
  }

  function PlanAll(env: Env, s: Store, group: int, writes: seq<MemoryWrite>): Verdict {
    PlanFirst(env, s, group, writes, |writes|)
  }

  lemma {:induction false} RefusalSticks(env: Env, s: Store, group: int, writes: seq<MemoryWrite>, k: nat, n: nat)
    requires k <= n <= |writes| && PlanFirst(env, s, group, writes, n).Accepted?
    ensures PlanFirst(env, s, group, writes, k).Accepted?
    decreases n
  {
    if k < n { RefusalSticks(env, s, group, writes, k, n - 1); }
  }

  lemma {:induction false} PlanLengths(env: Env, s: Store, group: int, writes: seq<MemoryWrite>, k: nat)
    requires k <= |writes| && PlanFirst(env, s, group, writes, k).Accepted?
    ensures |PlanFirst(env, s, group, writes, k).plan.items| == k
  {
    if k > 0 { PlanLengths(env, s, group, writes, k - 1); }
  }

  /** Later items never change what was planned for earlier ones. */
  lemma {:induction false} PlanExtends(env: Env, s: Store, group: int, writes: seq<MemoryWrite>, k: nat, n: nat)
    requires k <= n <= |writes| && PlanFirst(env, s, group, writes, n).Accepted?
    ensures PlanFirst(env, s, group, writes, k).Accepted?
    ensures k <= |PlanFirst(env, s, group, writes, n).plan.items|
    ensures PlanFirst(env, s, group, writes, k).plan.items == PlanFirst(env, s, group, writes, n).plan.items[..k]
    decreases n
  {
    PlanLengths(env, s, group, writes, n);
    if k < n {
      PlanExtends(env, s, group, writes, k, n - 1);
      PlanLengths(env, s, group, writes, n - 1);
    }
  }

  /** The planner as it runs: one pass over the writes, filling the planned items and three lookups. */
  method BuildItems(env: Env, s: Store, group: int, writes: seq<MemoryWrite>) returns (verdict: Verdict)
    ensures verdict == PlanAll(env, s, group, writes)
  {
    var items: seq<Planned> := [];
    var plannedSlugs: set<string>, plannedCreates: set<int> := {}, {};
    var plannedTargets: map<int, Target> := map[];
    for index := 0 to |writes|
      invariant PlanFirst(env, s, group, writes, index)
                == Accepted(Plan(items, plannedSlugs, plannedCreates, plannedTargets))
    {
      ghost var before := Plan(items, plannedSlugs, plannedCreates, plannedTargets);
      ghost var step := PlanItem(env, s, group, before, writes[index]);
      assert PlanFirst(env, s, group, writes, index + 1) == step;
      if step.Refused? { RefusedEarly(env, s, group, writes, index + 1); }
      var item := writes[index];
      var slug := env.slug(item.description);
      if item.uuid.Some? {
        var target := item.uuid.value;
        var found: Target;
        if target in plannedTargets {
          found := plannedTargets[target];
        } else {
          if target !in s.memories || s.memories[target].group != group {
            return Refused(UnknownMemory);
          }
          var current := CurrentOf(History(s.history, target));
          if current.None? {
            return Refused(NoCurrentVersion);
          }
          found := Target(current.value.number, current.value.number + 1, FromVersion(current.value));
        }
        var incoming := FromWrite(env.address, item);
        var same := Same(incoming, found.last);
        if same {
          items :=
            items + [Planned(Unchanged, item, slug, Some(target), found.current, found.next, found.last.blobAddress)];
          continue;
        }
        items := items + [Planned(NewVersion, item, slug, Some(target), found.current, found.next, None)];
        plannedTargets := plannedTargets[target := Target(found.current, found.next + 1, incoming)];
        continue;
      }
      if slug in plannedSlugs {
        return Refused(SharedSubject);
      }
      plannedSlugs := plannedSlugs + {slug};
      if item.createUuid.Some? {
        var createUuid := item.createUuid.value;
        if createUuid in plannedCreates {
          return Refused(CreateUuidTwice);
        }
        plannedCreates := plannedCreates + {createUuid};
        if createUuid in s.memories {
          return Refused(CreateUuidTaken);
        }
      }
      if SubjectTakenIn(s.memories, group, slug) {
        return Refused(SubjectTaken);
      }
      items := items + [Planned(Create, item, slug, item.createUuid, 0, 0, None)];
    }
    return Accepted(Plan(items, plannedSlugs, plannedCreates, plannedTargets));
  }

  lemma {:induction false} RefusedEarly(env: Env, s: Store, group: int, writes: seq<MemoryWrite>, k: nat)
    requires k <= |writes| && PlanFirst(env, s, group, writes, k).Refused?
    ensures PlanAll(env, s, group, writes) == PlanFirst(env, s, group, writes, k)
    decreases |writes| - k
  {
    if k < |writes| { RefusedEarly(env, s, group, writes, k + 1); }
  }

  // ----- what carrying a planned item out does to the store

  function Retired(h: seq<Version>): (r: seq<Version>)
    ensures |r| == |h| && forall i | 0 <= i < |h| :: r[i] == h[i].(isCurrent := false)
  {
    seq(|h|, i requires 0 <= i < |h| => h[i].(isCurrent := false))
  }

  function NewUuid(it: Planned, minted: int): int {
    if it.uuid.Some? then it.uuid.value else minted
  }

  function RowOf(group: int, it: Planned): MemoryRow {
    MemoryRow(group, it.slug, it.write.name, it.write.description, it.write.tags, it.write.facets)
  }

  function CommitItem(env: Env, s: Store, group: int, it: Planned, minted: int, now: Instant): Store {
    var u := NewUuid(it, minted);
    match it.mode
    case Create =>
      Store(s.memories[u := RowOf(group, it)], s.history[u := [StoredVersion(env.address, 1, it.write, now)]])
    case NewVersion =>
      s.(history := s.history[u := Retired(History(s.history, u))
                              + [StoredVersion(env.address, it.next, it.write, now)]])
    case Unchanged => s
  }

  /** The store after the first k planned items. */
  function CommitFirst(env: Env, s: Store, group: int, items: seq<Planned>, mint: seq<int>, clock: seq<Instant>,
                       k: nat): Store
    requires k <= |items| && k <= |mint| && k <= |clock|
  {
    if k == 0 then s
    else CommitItem(env, CommitFirst(env, s, group, items, mint, clock, k - 1), group, items[k - 1], mint[k - 1],
                    clock[k - 1])
  }

  function Commit(env: Env, s: Store, group: int, items: seq<Planned>, mint: seq<int>, clock: seq<Instant>): Store
    requires |items| == |mint| == |clock|
  {
    CommitFirst(env, s, group, items, mint, clock, |items|)
  }

  /** The same writes sent one request at a time; None when one of them is refused. */
  function OneByOne(env: Env, s: Store, group: int, writes: seq<MemoryWrite>, mint: seq<int>, clock: seq<Instant>,
                    k: nat): Option<Store>
    requires k <= |writes| == |mint| == |clock|
  {
    if k == 0 then Some(s)
    else
      match OneByOne(env, s, group, writes, mint, clock, k - 1)
      case None => None
      case Some(t) =>
        match PlanItem(env, t, group, EMPTY_PLAN, writes[k - 1])
        case Refused(_) => None
        case Accepted(p) => if |p.items| == 1
          then Some(CommitItem(env, t, group, p.items[0], mint[k - 1], clock[k - 1])) else None
  }

  // ----- batch against one at a time

  predicate IsCreate(w: MemoryWrite) {
    w.uuid.None?
  }

  function Effective(w: MemoryWrite, minted: int): int {
    if w.createUuid.Some? then w.createUuid.value else minted
  }

  /** Minted uuids are new: not stored, and not the uuid of any other create of the batch. */
  ghost predicate MintedFresh(s: Store, writes: seq<MemoryWrite>, mint: seq<int>) {
    && |mint| == |writes|
    && forall i | 0 <= i < |writes| && IsCreate(writes[i]) && writes[i].createUuid.None? ::
         mint[i] !in s.memories
         && forall j | 0 <= j < |writes| && j != i && IsCreate(writes[j]) :: Effective(writes[j], mint[j]) != mint[i]
  }

  /** A claim a later write can be compared with: a create's is never consulted within its batch. */
  predicate Comparable(w: MemoryWrite) {
    IsCreate(w) || ReadsBack(w)
  }

  ghost predicate AllComparable(writes: seq<MemoryWrite>) {
    forall i | 0 <= i < |writes| :: Comparable(writes[i])
  }

  /** m was created by one of the first k writes. */
  ghost predicate CreatedBy(p: Plan, writes: seq<MemoryWrite>, mint: seq<int>, k: nat, m: int)
    requires k <= |writes| == |mint|
  {
    exists j :: 0 <= j < k && IsCreate(writes[j]) && Effective(writes[j], mint[j]) == m
                && (writes[j].createUuid.Some? ==> m in p.creates)
  }

  /** The plan made so far over s, and the memories of the store t it would produce. */
  ghost predicate MemoriesMatch(s: Store, group: int, p: Plan, after: map<int, MemoryRow>, writes: seq<MemoryWrite>,
                                mint: seq<int>, k: nat)
    requires k <= |writes| == |mint|
  {
    && SubjectsUnique(after)
    && (forall m | m in s.memories :: m in after && after[m] == s.memories[m])
    && (forall m | m in after && m !in s.memories ::
          after[m].group == group && after[m].slug in p.slugs && CreatedBy(p, writes, mint, k, m))
    && (forall x | x in p.slugs :: SubjectTakenIn(after, group, x))
  }

  /** The plan made so far over s, and the version rows of the store t it would produce. */
  ghost predicate HistoriesMatch(s: Store, group: int, p: Plan, t: Store) {
    && Chains(t)
    && (forall m | m in p.targets :: m in s.memories && s.memories[m].group == group && m in t.history
          && p.targets[m].next == |t.history[m]| + 1 && p.targets[m].last == FromVersion(Last(t.history[m])))
    && (forall m | m in s.history && m !in p.targets :: m in t.history && t.history[m] == s.history[m])
  }

  lemma ChainCurrent(h: seq<Version>)
    requires Chain(h)
    ensures CurrentOf(h) == Some(Last(h)) && Last(h).number == |h|
  {
  }

  lemma ChainGrows(env: Env, h: seq<Version>, w: MemoryWrite, now: Instant)
    requires Chain(h)
    ensures Chain(Retired(h) + [StoredVersion(env.address, |h| + 1, w, now)])
  {
  }

  lemma MemoriesMatchCarries(s: Store, group: int, p: Plan, q: Plan, after: map<int, MemoryRow>,
                             writes: seq<MemoryWrite>, mint: seq<int>, k: nat)
    requires k < |writes| == |mint| && MemoriesMatch(s, group, p, after, writes, mint, k)
    requires q.slugs == p.slugs && q.creates == p.creates
    ensures MemoriesMatch(s, group, q, after, writes, mint, k + 1)
  {
    forall m | m in after && m !in s.memories
      ensures CreatedBy(q, writes, mint, k + 1, m)
    {
      assert CreatedBy(p, writes, mint, k, m);
    }
  }

  /** A target is planned from the batch as from the store produced so far. */
  lemma TargetAlike(s: Store, group: int, p: Plan, t: Store, m: int)
    requires Chains(s) && HistoriesMatch(s, group, p, t) && m in s.memories
    ensures m in t.history && CurrentOf(History(s.history, m)).Some? && CurrentOf(History(t.history, m)).Some?
    ensures TargetOf(s, p, m).next == TargetOf(t, EMPTY_PLAN, m).next == |t.history[m]| + 1
    ensures TargetOf(s, p, m).last == TargetOf(t, EMPTY_PLAN, m).last == FromVersion(Last(t.history[m]))
  {
    ChainCurrent(s.history[m]);
    ChainCurrent(t.history[m]);
  }

  lemma HistoriesAfterVersion(env: Env, s: Store, group: int, p: Plan, q: Plan, t: Store, w: MemoryWrite, m: int,
                              c: nat, now: Instant)
    requires ReadsBack(w) && HistoriesMatch(s, group, p, t) && m in t.history && m in s.memories
             && s.memories[m].group == group
    requires q.targets == p.targets[m := Target(c, |t.history[m]| + 2, FromWrite(env.address, w))]
    ensures HistoriesMatch(s, group, q,
                           t.(history := t.history[m := Retired(t.history[m])
                                                   + [StoredVersion(env.address, |t.history[m]| + 1, w, now)]]))
  {
    var h := Retired(t.history[m]) + [StoredVersion(env.address, |t.history[m]| + 1, w, now)];
    ChainGrows(env, t.history[m], w, now);
    ClaimReadsBackExactly(env.address, |t.history[m]| + 1, w, now);
    assert Last(h) == StoredVersion(env.address, |t.history[m]| + 1, w, now);
    var u := t.(history := t.history[m := h]);
    assert u.history.Keys == t.history.Keys;
  }

  /** How an accepted version write is planned, given the rows its target will have by then. */
  lemma VersionPlan(env: Env, s: Store, group: int, p: Plan, w: MemoryWrite, h: seq<Version>)
    requires w.uuid.Some? && PlanItem(env, s, group, p, w).Accepted? && |h| > 0
    requires w.uuid.value in p.targets || CurrentOf(History(s.history, w.uuid.value)).Some?
    requires TargetOf(s, p, w.uuid.value).next == |h| + 1 && TargetOf(s, p, w.uuid.value).last == FromVersion(Last(h))
    ensures var p1 := PlanItem(env, s, group, p, w).plan;
            && |p1.items| == |p.items| + 1 && p1.slugs == p.slugs && p1.creates == p.creates
            && var it := p1.items[|p.items|];
               it.write == w && it.uuid == w.uuid
               && (if FromWrite(env.address, w) == FromVersion(Last(h))
                     then it.mode == Unchanged && p1.targets == p.targets
                   else && it.mode == NewVersion && it.next == |h| + 1
                        && p1.targets
                           == p.targets[w.uuid.value := Target(it.current, |h| + 2, FromWrite(env.address, w))])
  {
  }

  /** A version item is planned from the batch exactly as it would be from the store produced so far. */
  lemma VersionStep(env: Env, s: Store, group: int, p: Plan, t: Store, w: MemoryWrite, minted: int, now: Instant)
    requires w.uuid.Some? && ReadsBack(w)
    requires Chains(s) && (forall m | m in s.memories :: m in t.memories && t.memories[m] == s.memories[m])
    requires HistoriesMatch(s, group, p, t) && PlanItem(env, s, group, p, w).Accepted?
    ensures var p1 := PlanItem(env, s, group, p, w).plan;
            var q := PlanItem(env, t, group, EMPTY_PLAN, w);
            && |p1.items| == |p.items| + 1 && q.Accepted? && |q.plan.items| == 1
            && p1.slugs == p.slugs && p1.creates == p.creates
            && var t1 := CommitItem(env, t, group, p1.items[|p.items|], minted, now);
               t1 == CommitItem(env, t, group, q.plan.items[0], minted, now) && t1.memories == t.memories
               && HistoriesMatch(s, group, p1, t1)
  {
    var m := w.uuid.value;
    TargetAlike(s, group, p, t, m);
    assert PlanItem(env, t, group, EMPTY_PLAN, w).Accepted?;
    VersionPlan(env, s, group, p, w, t.history[m]);
    VersionPlan(env, t, group, EMPTY_PLAN, w, t.history[m]);
    var p1 := PlanItem(env, s, group, p, w).plan;
    var it := p1.items[|p.items|];
    if it.mode == NewVersion {
      HistoriesAfterVersion(env, s, group, p, p1, t, w, m, it.current, now);
    }
  }

  /** A memory created earlier in the batch is not the one the next create names. */
  lemma EarlierCreateDiffers(s: Store, p: Plan, writes: seq<MemoryWrite>, mint: seq<int>, k: nat, m: int)
    requires k < |writes| == |mint| && IsCreate(writes[k]) && MintedFresh(s, writes, mint)
    requires CreatedBy(p, writes, mint, k, m)
    requires writes[k].createUuid.Some? ==> writes[k].createUuid.value !in p.creates
    ensures m != Effective(writes[k], mint[k])
  {
    var j :| 0 <= j < k && IsCreate(writes[j]) && Effective(writes[j], mint[j]) == m
             && (writes[j].createUuid.Some? ==> m in p.creates);
  }

  /** A create is planned from the batch exactly as it would be from the store produced so far. */
  lemma CreatePlannedAlike(env: Env, s: Store, group: int, p: Plan, t: Store, writes: seq<MemoryWrite>,
                           mint: seq<int>, k: nat)
    requires k < |writes| == |mint| && IsCreate(writes[k])
    requires MintedFresh(s, writes, mint) && MemoriesMatch(s, group, p, t.memories, writes, mint, k)
    requires PlanItem(env, s, group, p, writes[k]).Accepted?
    ensures Effective(writes[k], mint[k]) !in t.memories
    ensures !SubjectTakenIn(t.memories, group, env.slug(writes[k].description))
    ensures var q := PlanItem(env, t, group, EMPTY_PLAN, writes[k]);
            q.Accepted?
              && q.plan.items
                 == [Planned(Create, writes[k], env.slug(writes[k].description), writes[k].createUuid, 0, 0, None)]
  {
    var u, slug := Effective(writes[k], mint[k]), env.slug(writes[k].description);
    forall m | m in t.memories
      ensures m != u && !(t.memories[m].group == group && t.memories[m].slug == slug)
    {
      if m !in s.memories { EarlierCreateDiffers(s, p, writes, mint, k, m); }
    }
  }

  lemma CreateMemories(s: Store, group: int, p: Plan, q: Plan, before: map<int, MemoryRow>, row: MemoryRow,
                       writes: seq<MemoryWrite>, mint: seq<int>, k: nat)
    requires k < |writes| == |mint| && IsCreate(writes[k]) && MemoriesMatch(s, group, p, before, writes, mint, k)
    requires Effective(writes[k], mint[k]) !in before && !SubjectTakenIn(before, group, row.slug) && row.group == group
    requires q.slugs == p.slugs + {row.slug}
    requires q.creates == if writes[k].createUuid.Some? then p.creates + {writes[k].createUuid.value} else p.creates
    ensures MemoriesMatch(s, group, q, before[Effective(writes[k], mint[k]) := row], writes, mint, k + 1)
  {
    var u := Effective(writes[k], mint[k]);
    var after := before[u := row];
    forall x | x in q.slugs
      ensures SubjectTakenIn(after, group, x)
    {
      if x == row.slug {
        assert u in after && after[u].slug == x;
      } else {
        var n :| n in before && before[n].group == group && before[n].slug == x;
        assert n in after && after[n] == before[n];
      }
    }
    forall m | m in after && m !in s.memories
      ensures CreatedBy(q, writes, mint, k + 1, m)
    {
      if m == u {
        assert IsCreate(writes[k]);
      } else {
        assert CreatedBy(p, writes, mint, k, m);
      }
    }
  }

  lemma HistoriesAfterCreate(s: Store, group: int, p: Plan, q: Plan, t: Store, u: int, row: MemoryRow, h: seq<Version>)
    requires HistoriesMatch(s, group, p, t) && q.targets == p.targets && u !in t.memories && Chain(h)
    ensures HistoriesMatch(s, group, q, Store(t.memories[u := row], t.history[u := h]))
  {
    assert forall m | m in p.targets :: m in t.history && m != u;
  }

  lemma CreateStep(env: Env, s: Store, group: int, p: Plan, t: Store, writes: seq<MemoryWrite>, mint: seq<int>, k: nat,
                   now: Instant)
    requires k < |writes| == |mint| && IsCreate(writes[k])
    requires MintedFresh(s, writes, mint)
    requires MemoriesMatch(s, group, p, t.memories, writes, mint, k) && HistoriesMatch(s, group, p, t)
    requires PlanItem(env, s, group, p, writes[k]).Accepted?
    ensures var p1 := PlanItem(env, s, group, p, writes[k]).plan;
            var q := PlanItem(env, t, group, EMPTY_PLAN, writes[k]);
            && |p1.items| == |p.items| + 1 && q.Accepted? && |q.plan.items| == 1
            && var t1 := CommitItem(env, t, group, p1.items[|p.items|], mint[k], now);
               t1 == CommitItem(env, t, group, q.plan.items[0], mint[k], now)
               && MemoriesMatch(s, group, p1, t1.memories, writes, mint, k + 1) && HistoriesMatch(s, group, p1, t1)
  {
    CreatePlannedAlike(env, s, group, p, t, writes, mint, k);
    var p1 := PlanItem(env, s, group, p, writes[k]).plan;
    var it := p1.items[|p.items|];
    CreateMemories(s, group, p, p1, t.memories, RowOf(group, it), writes, mint, k);
    HistoriesAfterCreate(s, group, p, p1, t, NewUuid(it, mint[k]), RowOf(group, it),
                         [StoredVersion(env.address, 1, it.write, now)]);
  }

  lemma ItemStep(env: Env, s: Store, group: int, p: Plan, t: Store, writes: seq<MemoryWrite>, mint: seq<int>, k: nat,
                 now: Instant)
    requires Invariant(s) && MintedFresh(s, writes, mint) && k < |writes| && Comparable(writes[k])
    requires MemoriesMatch(s, group, p, t.memories, writes, mint, k) && HistoriesMatch(s, group, p, t)
    requires PlanItem(env, s, group, p, writes[k]).Accepted?
    ensures var p1 := PlanItem(env, s, group, p, writes[k]).plan;
            var q := PlanItem(env, t, group, EMPTY_PLAN, writes[k]);
            && |p1.items| == |p.items| + 1 && q.Accepted? && |q.plan.items| == 1
            && var t1 := CommitItem(env, t, group, p1.items[|p.items|], mint[k], now);
               t1 == CommitItem(env, t, group, q.plan.items[0], mint[k], now)
               && MemoriesMatch(s, group, p1, t1.memories, writes, mint, k + 1) && HistoriesMatch(s, group, p1, t1)
  {
    if writes[k].uuid.Some? {
      VersionStep(env, s, group, p, t, writes[k], mint[k], now);
      var p1 := PlanItem(env, s, group, p, writes[k]).plan;
      MemoriesMatchCarries(s, group, p, p1, t.memories, writes, mint, k);
    } else {
      CreateStep(env, s, group, p, t, writes, mint, k, now);
    }
  }

  lemma {:induction false} CommitFirstLocal(env: Env, s: Store, group: int, a: seq<Planned>, b: seq<Planned>,
                                            mint: seq<int>, clock: seq<Instant>, k: nat)
    requires k <= |a| && k <= |b| && k <= |mint| && k <= |clock| && a[..k] == b[..k]
    ensures CommitFirst(env, s, group, a, mint, clock, k) == CommitFirst(env, s, group, b, mint, clock, k)
    decreases k
  {
    if k > 0 {
      assert a[..k - 1] == a[..k][..k - 1] == b[..k][..k - 1] == b[..k - 1];
      assert a[k - 1] == a[..k][k - 1] == b[..k][k - 1] == b[k - 1];
      CommitFirstLocal(env, s, group, a, b, mint, clock, k - 1);
    }
  }

  /**
   After k items: the store the plan would produce is the store reached one item at a time, and the plan describes
   it.
   */
  ghost predicate InStep(env: Env, s: Store, group: int, v: Verdict, t: Store, writes: seq<MemoryWrite>, mint: seq<int>,
                         clock: seq<Instant>, k: nat)
    requires k <= |writes| == |mint| == |clock|
  {
    match v
    case Refused(_) => false
    case Accepted(p) =>
      && |p.items| == k && t == CommitFirst(env, s, group, p.items, mint, clock, k)
      && OneByOne(env, s, group, writes, mint, clock, k) == Some(t)
      && MemoriesMatch(s, group, p, t.memories, writes, mint, k) && HistoriesMatch(s, group, p, t)
  }

  lemma StartInStep(env: Env, s: Store, group: int, writes: seq<MemoryWrite>, mint: seq<int>, clock: seq<Instant>)
    requires Invariant(s) && |writes| == |mint| == |clock|
    ensures InStep(env, s, group, Accepted(EMPTY_PLAN), s, writes, mint, clock, 0)
  {
  }

  lemma StayInStep(env: Env, s: Store, group: int, p: Plan, t: Store, writes: seq<MemoryWrite>, mint: seq<int>,
                   clock: seq<Instant>, k: nat)
    returns (t1: Store)
    requires Invariant(s) && MintedFresh(s, writes, mint) && |clock| == |writes| && k < |writes|
             && Comparable(writes[k])
    requires InStep(env, s, group, Accepted(p), t, writes, mint, clock, k)
    requires PlanItem(env, s, group, p, writes[k]).Accepted?
    ensures InStep(env, s, group, PlanItem(env, s, group, p, writes[k]), t1, writes, mint, clock, k + 1)
  {
    ItemStep(env, s, group, p, t, writes, mint, k, clock[k]);
    var p1 := PlanItem(env, s, group, p, writes[k]).plan;
    t1 := CommitItem(env, t, group, p1.items[k], mint[k], clock[k]);
    assert t1 == CommitFirst(env, s, group, p1.items, mint, clock, k + 1) by {
      assert p1.items[..k] == p.items == p.items[..k];
      CommitFirstLocal(env, s, group, p1.items, p.items, mint, clock, k);
    }
    assert OneByOne(env, s, group, writes, mint, clock, k + 1) == Some(t1);
  }

  lemma {:induction false} BatchPrefix(env: Env, s: Store, group: int, writes: seq<MemoryWrite>, mint: seq<int>,
                                       clock: seq<Instant>, k: nat)
    returns (t: Store)
    requires Invariant(s) && MintedFresh(s, writes, mint) && |clock| == |writes| && AllComparable(writes)
    requires k <= |writes| && PlanFirst(env, s, group, writes, k).Accepted?
    ensures InStep(env, s, group, PlanFirst(env, s, group, writes, k), t, writes, mint, clock, k)
  {
    if k == 0 {
      StartInStep(env, s, group, writes, mint, clock);
      t := s;
    } else {
      var before := PlanFirst(env, s, group, writes, k - 1);
      assert PlanFirst(env, s, group, writes, k) == PlanItem(env, s, group, before.plan, writes[k - 1]);
      t := BatchPrefix(env, s, group, writes, mint, clock, k - 1);
      t := StayInStep(env, s, group, before.plan, t, writes, mint, clock, k - 1);
    }
  }

  /**
   Whenever the planner accepts a batch, carrying it out yields the store its items would yield one
   at a time in order, several writes to one memory included, provided every end of validity is one
   the store can give back.
   */
  lemma BatchIsOneByOne(env: Env, s: Store, group: int, writes: seq<MemoryWrite>, mint: seq<int>, clock: seq<Instant>)
    requires Invariant(s) && MintedFresh(s, writes, mint) && |clock| == |writes| && AllComparable(writes)
    requires PlanAll(env, s, group, writes).Accepted?
    ensures |PlanAll(env, s, group, writes).plan.items| == |writes|
    ensures OneByOne(env, s, group, writes, mint, clock, |writes|)
            == Some(Commit(env, s, group, PlanAll(env, s, group, writes).plan.items, mint, clock))
    ensures Invariant(Commit(env, s, group, PlanAll(env, s, group, writes).plan.items, mint, clock))
  {
    var t := BatchPrefix(env, s, group, writes, mint, clock, |writes|);
  }

  /**
   The proviso is exact where it bites: a write sent twice in one batch agrees with sending it twice exactly if it
   reads back.
   */
  lemma TwiceInOneBatch(env: Env, s: Store, group: int, w: MemoryWrite, mint: seq<int>, clock: seq<Instant>)
    requires Invariant(s) && w.uuid.Some? && |mint| == |clock| == 2
    requires PlanAll(env, s, group, [w]).Accepted? && PlanAll(env, s, group, [w]).plan.items[0].mode == NewVersion
    ensures var v := PlanAll(env, s, group, [w, w]);
            && v.Accepted? && |v.plan.items| == 2
            && ((OneByOne(env, s, group, [w, w], mint, clock, 2)
                 == Some(Commit(env, s, group, v.plan.items, mint, clock)))
                <==> ReadsBack(w))
  {
    var m := w.uuid.value;
    var p0 := PlanItem(env, s, group, EMPTY_PLAN, w);
    assert PlanFirst(env, s, group, [w], 0) == PlanFirst(env, s, group, [w, w], 0) == Accepted(EMPTY_PLAN);
    assert [w][0] == [w, w][0] == [w, w][1] == w;
    assert PlanFirst(env, s, group, [w], 1) == p0;
    var p1 := PlanFirst(env, s, group, [w, w], 1);
    assert p1 == p0;
    var p2 := PlanFirst(env, s, group, [w, w], 2);
    assert p2 == PlanItem(env, s, group, p1.plan, w);
    assert m in s.history;
    ChainCurrent(s.history[m]);
    var n := |s.history[m]|;
    var first := StoredVersion(env.address, n + 1, w, clock[0]);
    var t1 := CommitItem(env, s, group, p1.plan.items[0], mint[0], clock[0]);
    assert t1.history[m] == Retired(s.history[m]) + [first];
    ChainGrows(env, s.history[m], w, clock[0]);
    ChainCurrent(t1.history[m]);
    ClaimReadsBackExactly(env.address, n + 1, w, clock[0]);
    assert OneByOne(env, s, group, [w, w], mint, clock, 1) == Some(t1);
    assert p2.plan.items[1].mode == Unchanged;
    assert CommitFirst(env, s, group, p2.plan.items, mint, clock, 1) == t1;
    assert Commit(env, s, group, p2.plan.items, mint, clock) == t1;
    var q := PlanItem(env, t1, group, EMPTY_PLAN, w);
    assert q.Accepted? && |q.plan.items| == 1;
    if !ReadsBack(w) {
      var t2 := CommitItem(env, t1, group, q.plan.items[0], mint[1], clock[1]);
      assert |t2.history[m]| == n + 2 && |t1.history[m]| == n + 1;
    }
  }

  /** In every batch whose other writes are comparable, the batch agrees with its items sent one at a time. */
  ghost predicate SafeInEveryBatch(w: MemoryWrite) {
    forall env, s, group, writes, mint, clock ::
      Invariant(s) && MintedFresh(s, writes, mint) && |clock| == |writes| && PlanAll(env, s, group, writes).Accepted?
      && (forall i | 0 <= i < |writes| :: writes[i] == w || Comparable(writes[i]))
      ==> AgreesOneByOne(env, s, group, writes, mint, clock)
  }

  ghost predicate AgreesOneByOne(env: Env, s: Store, group: int, writes: seq<MemoryWrite>, mint: seq<int>,
                                 clock: seq<Instant>)
    requires |mint| == |clock| == |writes|
  {
    var v := PlanAll(env, s, group, writes);
    v.Accepted? && |v.plan.items| == |writes|
    && OneByOne(env, s, group, writes, mint, clock, |writes|) == Some(Commit(env, s, group, v.plan.items, mint, clock))
  }

  /** A store in which the write makes a version. */
  lemma SomeStoreTakes(env: Env, w: MemoryWrite) returns (s: Store)
    requires w.uuid.Some?
    ensures Invariant(s) && PlanAll(env, s, 0, [w]).Accepted?
            && PlanAll(env, s, 0, [w]).plan.items[0].mode == NewVersion
    ensures MintedFresh(s, [w, w], [0, 0])
  {
    var m := w.uuid.value;
    var v := Version(1, true, w.statement + "x", "", None, "", 0, "", [], 0, None, 0, None);
    s := Store(map[m := MemoryRow(0, "", "", "", [], [])], map[m := [v]]);
    ChainCurrent(s.history[m]);
    assert FromVersion(v).statement != w.statement;
    assert PlanFirst(env, s, 0, [w], 0) == Accepted(EMPTY_PLAN) && [w][0] == w;
    assert PlanFirst(env, s, 0, [w], 1) == PlanItem(env, s, 0, EMPTY_PLAN, w);
  }

  lemma SomeBatchDisagrees(w: MemoryWrite)
    requires !Comparable(w)
    ensures !SafeInEveryBatch(w)
  {
    hide Invariant, MintedFresh, PlanAll, OneByOne, Commit;
    var env := Env(t => t, t => t);
    var s := SomeStoreTakes(env, w);
    TwiceInOneBatch(env, s, 0, w, [0, 0], [0, 0]);
    assert !AgreesOneByOne(env, s, 0, [w, w], [0, 0], [0, 0]);
  }

  /** A write is safe in every batch exactly when it is a create or its end of validity reads back. */
  lemma SafeExactlyWhenComparable(w: MemoryWrite)
    ensures SafeInEveryBatch(w) <==> Comparable(w)
  {
    if Comparable(w) {
      forall env, s, group, writes, mint, clock |
        Invariant(s) && MintedFresh(s, writes, mint) && |clock| == |writes| && PlanAll(env, s, group, writes).Accepted?
        && (forall i | 0 <= i < |writes| :: writes[i] == w || Comparable(writes[i]))
        ensures AgreesOneByOne(env, s, group, writes, mint, clock)
      {
        BatchIsOneByOne(env, s, group, writes, mint, clock);
      }
    } else {
      SomeBatchDisagrees(w);
    }
  }
}
