/**
 Carrying a plan out, item by item, against tables that may have moved on since it was made: what
 stays true of the tables, the pending rows and the lookup of versions added so far.
 */
module MemoryProgress {
  import opened Common
  import opened MemoryClaims
  import opened MemoryPlans
  import opened MemoryUnits

  /** The number planned by the last version item for m among the first k. */
  function LastPlanned(items: seq<Planned>, k: nat, m: int): Option<nat>
    requires k <= |items|
  {
    if k == 0 then None
    else if items[k - 1].mode == NewVersion && items[k - 1].uuid == Some(m) then Some(items[k - 1].next)
    else LastPlanned(items, k - 1, m)
  }

  ghost predicate CreatesAt(items: seq<Planned>, mint: seq<int>, j: nat, m: int)
    requires |items| == |mint|
  {
    j < |items| && items[j].mode == Create && NewUuid(items[j], mint[j]) == m
  }

  /** What every plan guarantees of itself, whatever the tables have become. */
  ghost predicate WellPlanned(items: seq<Planned>, mint: seq<int>) {
    && |items| == |mint|
    && (forall i, j, m, n | 0 <= i < j && CreatesAt(items, mint, i, m) && CreatesAt(items, mint, j, n) ::
          m != n && items[i].slug != items[j].slug)
    && (forall i | 0 <= i < |items| && items[i].mode == NewVersion :: items[i].uuid.Some?
          && forall j :: !CreatesAt(items, mint, j, items[i].uuid.value))
    && (forall i | 0 <= i < |items| && items[i].mode == NewVersion ::
          items[i].next == 1
            + match LastPlanned(items, i, items[i].uuid.value) case None => items[i].current case Some(n) => n)
  }

  /** The item still fits the tables it was planned against. */
  ghost predicate Fits(s: Store, group: int, it: Planned, minted: int) {
    match it.mode
    case Create => NewUuid(it, minted) !in s.memories && !SubjectTakenIn(s.memories, group, it.slug)
    case NewVersion => it.uuid.Some? && it.uuid.value in s.history && it.current == |s.history[it.uuid.value]|
    case Unchanged => true
  }

  ghost predicate AllFit(s: Store, group: int, items: seq<Planned>, mint: seq<int>) {
    |items| == |mint| && forall i | 0 <= i < |items| :: Fits(s, group, items[i], mint[i])
  }

  // ----- the planner's items are well planned and fit

  ghost predicate PlanFacts(s: Store, group: int, p: Plan, writes: seq<MemoryWrite>, mint: seq<int>, k: nat)
    requires k <= |writes| == |mint|
  {
    && |p.items| == k && WellPlanned(p.items, mint[..k]) && AllFit(s, group, p.items, mint[..k])
    && (forall m :: m in p.targets <==> LastPlanned(p.items, k, m).Some?)
    && (forall m | m in p.targets :: m in s.history && p.targets[m].current == |s.history[m]|
          && p.targets[m].next == LastPlanned(p.items, k, m).value + 1)
    && (forall j | 0 <= j < k && p.items[j].mode == Create :: p.items[j].slug in p.slugs && IsCreate(writes[j])
          && p.items[j].uuid == writes[j].createUuid && (p.items[j].uuid.Some? ==> p.items[j].uuid.value in p.creates))
  }

  lemma {:induction false} LastPlannedLocal(a: seq<Planned>, b: seq<Planned>, k: nat, m: int)
    requires k <= |a| && k <= |b| && a[..k] == b[..k]
    ensures LastPlanned(a, k, m) == LastPlanned(b, k, m)
    decreases k
  {
    if k > 0 {
      assert a[..k - 1] == a[..k][..k - 1] == b[..k][..k - 1] == b[..k - 1];
      assert a[k - 1] == a[..k][k - 1] == b[..k][k - 1] == b[k - 1];
      LastPlannedLocal(a, b, k - 1, m);
    }
  }

  lemma {:induction false} LastPlannedIsStored(s: Store, group: int, items: seq<Planned>, mint: seq<int>,
                                               k: nat, m: int)
    requires AllFit(s, group, items, mint) && k <= |items| && LastPlanned(items, k, m).Some?
    ensures m in s.history
    decreases k
  {
    if items[k - 1].mode == NewVersion && items[k - 1].uuid == Some(m) {
      assert Fits(s, group, items[k - 1], mint[k - 1]);
    } else {
      LastPlannedIsStored(s, group, items, mint, k - 1, m);
    }
  }

  lemma AppendKeepsWell(s: Store, group: int, items: seq<Planned>, mint: seq<int>, it: Planned, minted: int)
    requires s.history.Keys == s.memories.Keys
    requires WellPlanned(items, mint) && AllFit(s, group, items, mint) && Fits(s, group, it, minted)
    requires it.mode == Create ==>
               forall j | 0 <= j < |items| && items[j].mode == Create ::
                 NewUuid(items[j], mint[j]) != NewUuid(it, minted) && items[j].slug != it.slug
    requires it.mode == NewVersion ==>
               it.next == 1 + match LastPlanned(items, |items|, it.uuid.value) case None => it.current case Some(n) => n
    ensures WellPlanned(items + [it], mint + [minted]) && AllFit(s, group, items + [it], mint + [minted])
  {
    var all, coins := items + [it], mint + [minted];
    forall j: nat, m | CreatesAt(all, coins, j, m)
      ensures if j < |items| then CreatesAt(items, mint, j, m) else it.mode == Create && NewUuid(it, minted) == m
      ensures m !in s.memories
    {
      assert Fits(s, group, all[j], coins[j]) by {
        if j < |items| { assert Fits(s, group, items[j], mint[j]); }
      }
    }
    forall i | 0 <= i < |all| && all[i].mode == NewVersion
      ensures all[i].uuid.Some? && forall j :: !CreatesAt(all, coins, j, all[i].uuid.value)
      ensures all[i].next == 1
              + match LastPlanned(all, i, all[i].uuid.value) case None => all[i].current case Some(n) => n
    {
      assert Fits(s, group, all[i], coins[i]) by {
        if i < |items| { assert Fits(s, group, items[i], mint[i]); }
      }
      assert all[..i] == items[..i];
      LastPlannedLocal(all, items, i, all[i].uuid.value);
    }
  }

  /** Appending one item to a plan: what must hold of it for the facts to carry over. */
  lemma FactsCarry(s: Store, group: int, p: Plan, p1: Plan, it: Planned, writes: seq<MemoryWrite>,
                   mint: seq<int>, k: nat)
    requires k < |writes| == |mint| && PlanFacts(s, group, p, writes, mint, k) && p1.items == p.items + [it]
    requires WellPlanned(p.items + [it], mint[..k] + [mint[k]])
             && AllFit(s, group, p.items + [it], mint[..k] + [mint[k]])
    requires it.mode == NewVersion ==>
             it.uuid.Some? && it.uuid.value in s.history && it.current == |s.history[it.uuid.value]|
    requires p1.targets.Keys == p.targets.Keys + if it.mode == NewVersion then {it.uuid.value} else {}
    requires forall m | m in p.targets && !(it.mode == NewVersion && it.uuid == Some(m)) ::
               p1.targets[m] == p.targets[m]
    requires it.mode == NewVersion ==>
             p1.targets[it.uuid.value].current == it.current && p1.targets[it.uuid.value].next == it.next + 1
    requires p.slugs <= p1.slugs && p.creates <= p1.creates
    requires it.mode == Create ==> it.slug in p1.slugs && IsCreate(writes[k]) && it.uuid == writes[k].createUuid
                                   && (it.uuid.Some? ==> it.uuid.value in p1.creates)
    ensures PlanFacts(s, group, p1, writes, mint, k + 1)
  {
    assert mint[..k + 1] == mint[..k] + [mint[k]];
    LastPlannedAppends(p.items, it);
  }

  lemma PlanStepVersion(env: Env, s: Store, group: int, p: Plan, writes: seq<MemoryWrite>, mint: seq<int>, k: nat)
    requires Chains(s) && k < |writes| == |mint| && PlanFacts(s, group, p, writes, mint, k)
    requires writes[k].uuid.Some? && PlanItem(env, s, group, p, writes[k]).Accepted?
    ensures PlanFacts(s, group, PlanItem(env, s, group, p, writes[k]).plan, writes, mint, k + 1)
  {
    VersionFits(env, s, group, p, writes, mint, k);
    var p1 := PlanItem(env, s, group, p, writes[k]).plan;
    assert p1.items == p.items + [p1.items[k]];
    AppendKeepsWell(s, group, p.items, mint[..k], p1.items[k], mint[k]);
    FactsCarry(s, group, p, p1, p1.items[k], writes, mint, k);
  }

  lemma PlanStepCreate(env: Env, s: Store, group: int, p: Plan, writes: seq<MemoryWrite>, mint: seq<int>, k: nat)
    requires Chains(s) && MintedFresh(s, writes, mint) && k < |writes| && PlanFacts(s, group, p, writes, mint, k)
    requires IsCreate(writes[k]) && PlanItem(env, s, group, p, writes[k]).Accepted?
    ensures PlanFacts(s, group, PlanItem(env, s, group, p, writes[k]).plan, writes, mint, k + 1)
  {
    CreateIsFresh(env, s, group, p, writes, mint, k);
    var p1 := PlanItem(env, s, group, p, writes[k]).plan;
    assert p1.items == p.items + [p1.items[k]];
    AppendKeepsWell(s, group, p.items, mint[..k], p1.items[k], mint[k]);
    FactsCarry(s, group, p, p1, p1.items[k], writes, mint, k);
  }

  lemma LastPlannedAppends(items: seq<Planned>, it: Planned)
    ensures forall m :: LastPlanned(items + [it], |items| + 1, m) ==
              if it.mode == NewVersion && it.uuid == Some(m) then Some(it.next) else LastPlanned(items, |items|, m)
  {
    forall m
      ensures LastPlanned(items + [it], |items|, m) == LastPlanned(items, |items|, m)
    {
      LastPlannedLocal(items + [it], items, |items|, m);
    }
  }

  /** An accepted version item fits, and is numbered after the last one planned for its memory. */
  lemma VersionFits(env: Env, s: Store, group: int, p: Plan, writes: seq<MemoryWrite>, mint: seq<int>, k: nat)
    requires Chains(s) && k < |writes| == |mint| && PlanFacts(s, group, p, writes, mint, k)
    requires writes[k].uuid.Some? && PlanItem(env, s, group, p, writes[k]).Accepted?
    ensures var p1 := PlanItem(env, s, group, p, writes[k]).plan;
            var m := writes[k].uuid.value;
            && |p1.items| == k + 1 && p1.items[..k] == p.items && p1.slugs == p.slugs && p1.creates == p.creates
            && var it := p1.items[k];
               it.mode != Create && it.uuid == Some(m) && Fits(s, group, it, mint[k])
               && (it.mode == NewVersion ==>
                     it.next == 1 + match LastPlanned(p.items, k, m) case None => it.current case Some(n) => n)
               && p1.targets
                  == if it.mode == NewVersion
                    then p.targets[m := Target(it.current, it.next + 1, FromWrite(env.address, writes[k]))]
                                else p.targets
  {
    var m := writes[k].uuid.value;
    if m !in p.targets {
      assert m in s.history && Chain(s.history[m]);
      ChainCurrent(s.history[m]);
    }
  }

  lemma CreateIsFresh(env: Env, s: Store, group: int, p: Plan, writes: seq<MemoryWrite>, mint: seq<int>, k: nat)
    requires MintedFresh(s, writes, mint) && k < |writes| && PlanFacts(s, group, p, writes, mint, k)
    requires IsCreate(writes[k]) && PlanItem(env, s, group, p, writes[k]).Accepted?
    ensures var it := PlanItem(env, s, group, p, writes[k]).plan.items[k];
            && it.mode == Create && Fits(s, group, it, mint[k])
            && forall j | 0 <= j < k && p.items[j].mode == Create ::
                 NewUuid(p.items[j], mint[..k][j]) != NewUuid(it, mint[k]) && p.items[j].slug != it.slug
  {
    var it := PlanItem(env, s, group, p, writes[k]).plan.items[k];
    forall j | 0 <= j < k && p.items[j].mode == Create
      ensures NewUuid(p.items[j], mint[..k][j]) != NewUuid(it, mint[k]) && p.items[j].slug != it.slug
    {
      assert Effective(writes[j], mint[j]) == NewUuid(p.items[j], mint[j]);
    }
  }

  /** Whatever the planner accepts is well planned, and fits the tables it was planned against. */
  lemma {:induction false} PlansAreWell(env: Env, s: Store, group: int, writes: seq<MemoryWrite>,
                                        mint: seq<int>, k: nat)
    requires Chains(s) && MintedFresh(s, writes, mint) && k <= |writes| && PlanFirst(env, s, group, writes, k).Accepted?
    ensures PlanFacts(s, group, PlanFirst(env, s, group, writes, k).plan, writes, mint, k)
  {
    if k == 0 {
      assert mint[..0] == [];
    } else {
      PlansAreWell(env, s, group, writes, mint, k - 1);
      var before := PlanFirst(env, s, group, writes, k - 1);
      assert PlanFirst(env, s, group, writes, k) == PlanItem(env, s, group, before.plan, writes[k - 1]);
      if writes[k - 1].uuid.Some? {
        PlanStepVersion(env, s, group, before.plan, writes, mint, k - 1);
      } else {
        PlanStepCreate(env, s, group, before.plan, writes, mint, k - 1);
      }
    }
  }

  // ----- progress of the persist loop

  predicate Insertable(db: Store, u: Unit) {
    forall m | m in u.memories ::
      m !in db.memories && !SubjectTakenIn(db.memories, u.memories[m].group, u.memories[m].slug)
  }

  /** m was created by one of the first k items, with this row. */
  ghost predicate Born(items: seq<Planned>, mint: seq<int>, group: int, k: nat, m: int, row: MemoryRow)
    requires k <= |items| == |mint|
  {
    exists j: nat :: j < k && CreatesAt(items, mint, j, m) && row == RowOf(group, items[j])
  }

  ghost predicate Tracked(items: seq<Planned>, mint: seq<int>, group: int, k: nat, u: Unit, added: map<int, nat>)
    requires k <= |items| == |mint|
  {
    && u.retired == {}
    && (forall m :: m in added <==> LastPlanned(items, k, m).Some?)
    && (forall m | m in added :: added[m] == LastPlanned(items, k, m).value)
    && (forall m | m in u.memories :: Born(items, mint, group, k, m, u.memories[m]))
    && (forall m | m in u.versions :: m in added || exists j: nat :: j < k && CreatesAt(items, mint, j, m))
  }

  /** While no pending create clashes with the tables, tables and pending rows stand for the specified store. */
  ghost predicate OnCourse(db: Store, u: Unit, t: Store, added: map<int, nat>) {
    Insertable(db, u) ==> StandsFor(db, u, t) && forall m | m in added :: m in t.history && |t.history[m]| == added[m]
  }

  lemma TrackedCreate(items: seq<Planned>, mint: seq<int>, group: int, k: nat, u: Unit, added: map<int, nat>,
                      v: Version)
    requires WellPlanned(items, mint) && k < |items| && items[k].mode == Create
             && Tracked(items, mint, group, k, u, added)
    ensures var m := NewUuid(items[k], mint[k]);
            Tracked(items, mint, group, k + 1,
                    Unit(u.memories[m := RowOf(group, items[k])], u.versions[m := v], {}), added)
  {
    var m := NewUuid(items[k], mint[k]);
    assert CreatesAt(items, mint, k, m);
    forall x | x in u.memories
      ensures Born(items, mint, group, k + 1, x, u.memories[x])
    {
      assert Born(items, mint, group, k, x, u.memories[x]);
    }
    assert Born(items, mint, group, k + 1, m, RowOf(group, items[k]));
  }

  lemma TrackedSkip(items: seq<Planned>, mint: seq<int>, group: int, k: nat, u: Unit, added: map<int, nat>)
    requires WellPlanned(items, mint) && k < |items| && items[k].mode == Unchanged
             && Tracked(items, mint, group, k, u, added)
    ensures Tracked(items, mint, group, k + 1, u, added)
  {
    forall x | x in u.memories
      ensures Born(items, mint, group, k + 1, x, u.memories[x])
    {
      assert Born(items, mint, group, k, x, u.memories[x]);
    }
  }

  lemma CreateDiffers(items: seq<Planned>, mint: seq<int>, group: int, k: nat, u: Unit, added: map<int, nat>)
    requires WellPlanned(items, mint) && k < |items| && items[k].mode == Create
             && Tracked(items, mint, group, k, u, added)
    ensures forall x | x in u.memories :: x != NewUuid(items[k], mint[k]) && u.memories[x].slug != items[k].slug
  {
    assert CreatesAt(items, mint, k, NewUuid(items[k], mint[k]));
    forall x | x in u.memories
      ensures x != NewUuid(items[k], mint[k]) && u.memories[x].slug != items[k].slug
    {
      var j: nat :| j < k && CreatesAt(items, mint, j, x) && u.memories[x] == RowOf(group, items[j]);
    }
  }

  lemma NewIsNotStood(db: Store, u: Unit, t: Store, m: int)
    requires StandsFor(db, u, t) && m !in db.memories + u.memories
    ensures m !in t.memories && m !in t.history
  {
  }

  lemma StandsAfterCreate(env: Env, group: int, db: Store, u: Unit, t: Store, it: Planned, minted: int,
                          added: map<int, nat>, now: Instant)
    requires it.mode == Create && OnCourse(db, u, t, added)
    requires forall x | x in u.memories :: x != NewUuid(it, minted) && u.memories[x].slug != it.slug
    ensures var m := NewUuid(it, minted);
            OnCourse(db,
                     Unit(u.memories[m := RowOf(group, it)],
                          u.versions[m := StoredVersion(env.address, 1, it.write, now)], {}),
                          CommitItem(env, t, group, it, minted, now), added)
  {
    hide StandsFor, Insertable, SubjectTakenIn;
    var m := NewUuid(it, minted);
    var u1 :=
      Unit(u.memories[m := RowOf(group, it)], u.versions[m := StoredVersion(env.address, 1, it.write, now)], {});
    if Insertable(db, u1) {
      InsertableStepBack(db, u, m, RowOf(group, it), u1.versions);
      NewIsNotStood(db, u, t, m);
      StoodMemories(db, u, t);
      AddCreate(env, group, db, u, t, it, minted, now);
    }
  }

  lemma StoodMemories(db: Store, u: Unit, t: Store)
    requires StandsFor(db, u, t)
    ensures t.memories == db.memories + u.memories
  {
  }

  lemma CourseOfCreate(env: Env, items: seq<Planned>, mint: seq<int>, group: int, k: nat, db: Store, u: Unit, t: Store,
                       added: map<int, nat>, now: Instant)
    requires WellPlanned(items, mint) && k < |items| && items[k].mode == Create
    requires Tracked(items, mint, group, k, u, added) && OnCourse(db, u, t, added)
    ensures var m := NewUuid(items[k], mint[k]);
            OnCourse(db,
                     Unit(u.memories[m := RowOf(group, items[k])],
                          u.versions[m := StoredVersion(env.address, 1, items[k].write, now)], {}),
                          CommitItem(env, t, group, items[k], mint[k], now), added)
  {
    hide OnCourse, CommitItem;
    CreateDiffers(items, mint, group, k, u, added);
    StandsAfterCreate(env, group, db, u, t, items[k], mint[k], added, now);
  }

  lemma InsertableStepBack(db: Store, u: Unit, m: int, row: MemoryRow, versions: map<int, Version>)
    requires Insertable(db, Unit(u.memories[m := row], versions, {}))
    requires forall x | x in u.memories :: x != m && u.memories[x].slug != row.slug
    ensures Insertable(db, u) && m !in db.memories + u.memories
            && !SubjectTakenIn(db.memories + u.memories, row.group, row.slug)
  {
    var more := u.memories[m := row];
    assert m in more && more[m] == row;
    assert forall x | x in u.memories :: x in more && more[x] == u.memories[x];
  }

  /** The number the loop retires: the version it added last, or the one that was current when the plan was made. */
  function Retiree(it: Planned, added: map<int, nat>): nat
    requires it.uuid.Some?
  {
    if it.uuid.value in added then added[it.uuid.value] else it.current
  }

  /**
   If the save that retires a row goes through, the row was the last of its memory and the planned number follows
   it.
   */
  lemma AcceptedRetirement(items: seq<Planned>, mint: seq<int>, group: int, k: nat, db: Store, u: Unit, t: Store,
                           added: map<int, nat>)
    requires WellPlanned(items, mint) && k < |items| && items[k].mode == NewVersion
    requires Tracked(items, mint, group, k, u, added) && OnCourse(db, u, t, added)
    requires Saveable(db, Retire(u, items[k].uuid.value, Retiree(items[k], added)))
    ensures StandsFor(db, u, t) && items[k].uuid.value in t.history
    ensures Retiree(items[k], added) == |t.history[items[k].uuid.value]|
            && items[k].next == |t.history[items[k].uuid.value]| + 1
  {
    var m, n := items[k].uuid.value, Retiree(items[k], added);
    assert Retire(u, m, n).memories == u.memories;
    assert Insertable(db, u);
    if m !in added {
      assert m !in u.versions;
      SaveableRetirementIsLast(db, u, t, m, n);
    }
  }

  lemma TrackedVersion(env: Env, items: seq<Planned>, mint: seq<int>, group: int, k: nat, u: Unit, added: map<int, nat>,
                       v: Version)
    requires WellPlanned(items, mint) && k < |items| && items[k].mode == NewVersion
             && Tracked(items, mint, group, k, u, added)
    ensures var m := items[k].uuid.value;
            Tracked(items, mint, group, k + 1, Unit(map[], map[m := v], {}), added[m := items[k].next])
  {
  }

  lemma CourseOfVersion(env: Env, group: int, t: Store, it: Planned, minted: int, added: map<int, nat>, now: Instant)
    requires Invariant(t) && it.mode == NewVersion && it.uuid.Some? && it.uuid.value in t.history
    requires it.next == |t.history[it.uuid.value]| + 1
    requires forall m | m in added :: m in t.history && |t.history[m]| == added[m]
    ensures var m := it.uuid.value;
            OnCourse(Store(t.memories, t.history[m := Retired(t.history[m])]),
                     Unit(map[], map[m := StoredVersion(env.address, it.next, it.write, now)], {}),
                     CommitItem(env, t, group, it, minted, now), added[m := it.next])
  {
    AddVersion(env, t, it.uuid.value, it.write, now);
    CommitVersionIs(env, group, t, it, minted, now);
  }

  // ----- a plan made against these very tables never clashes

  /** The specified store after k items, seen from the store it started from. */
  ghost predicate GrownFrom(s: Store, group: int, items: seq<Planned>, mint: seq<int>, k: nat, t: Store)
    requires k <= |items| == |mint|
  {
    && (forall m | m in t.memories ::
          (m in s.memories && t.memories[m] == s.memories[m]) || Born(items, mint, group, k, m, t.memories[m]))
    && (forall m | m in s.history && LastPlanned(items, k, m).None? :: m in t.history && t.history[m] == s.history[m])
  }

  lemma GrowsFrom(env: Env, s: Store, group: int, items: seq<Planned>, mint: seq<int>, k: nat, t: Store, now: Instant)
    requires s.history.Keys == s.memories.Keys
    requires WellPlanned(items, mint) && AllFit(s, group, items, mint) && k < |items|
             && GrownFrom(s, group, items, mint, k, t)
    ensures GrownFrom(s, group, items, mint, k + 1, CommitItem(env, t, group, items[k], mint[k], now))
  {
    var it := items[k];
    var t1 := CommitItem(env, t, group, it, mint[k], now);
    assert Fits(s, group, it, mint[k]);
    forall m | m in t1.memories
      ensures (m in s.memories && t1.memories[m] == s.memories[m]) || Born(items, mint, group, k + 1, m, t1.memories[m])
    {
      if it.mode == Create && m == NewUuid(it, mint[k]) {
        assert CreatesAt(items, mint, k, m);
      } else if !(m in s.memories && t.memories[m] == s.memories[m]) {
        var j: nat :| j < k && CreatesAt(items, mint, j, m) && t.memories[m] == RowOf(group, items[j]);
      }
    }
  }

  /** A create that fits the original tables still fits what has grown from them. */
  lemma CreateStillFits(s: Store, group: int, items: seq<Planned>, mint: seq<int>, k: nat, t: Store)
    requires WellPlanned(items, mint) && AllFit(s, group, items, mint) && k < |items|
             && GrownFrom(s, group, items, mint, k, t)
    requires items[k].mode == Create
    ensures NewUuid(items[k], mint[k]) !in t.memories && !SubjectTakenIn(t.memories, group, items[k].slug)
  {
    var u := NewUuid(items[k], mint[k]);
    assert Fits(s, group, items[k], mint[k]) && CreatesAt(items, mint, k, u);
    forall m | m in t.memories
      ensures m != u && !(t.memories[m].group == group && t.memories[m].slug == items[k].slug)
    {
      if !(m in s.memories && t.memories[m] == s.memories[m]) {
        var j: nat :| j < k && CreatesAt(items, mint, j, m) && t.memories[m] == RowOf(group, items[j]);
      }
    }
  }

  // ----- what is written is stored

  /** An item is the write: an update of the memory named, or a create with the uuid asked for. */
  ghost predicate IsTheWrite(env: Env, it: Planned, w: MemoryWrite) {
    && it.write == w && it.slug == env.slug(w.description)
    && (it.mode == Create <==> w.uuid == None) && it.uuid == if w.uuid == None then w.createUuid else w.uuid
  }

  lemma OneItemMore(env: Env, s: Store, group: int, p: Plan, w: MemoryWrite)
    requires PlanItem(env, s, group, p, w).Accepted?
    ensures var items := PlanItem(env, s, group, p, w).plan.items;
            |items| == |p.items| + 1 && items[..|p.items|] == p.items && IsTheWrite(env, items[|p.items|], w)
  {
  }

  /** The items are the writes, in order. */
  lemma {:induction false} ItemsAreTheWrites(env: Env, s: Store, group: int, writes: seq<MemoryWrite>, k: nat)
    requires k <= |writes| && PlanFirst(env, s, group, writes, k).Accepted?
    ensures var items := PlanFirst(env, s, group, writes, k).plan.items;
            |items| == k && forall i | 0 <= i < k :: IsTheWrite(env, items[i], writes[i])
  {
    if k > 0 {
      hide PlanItem, IsTheWrite;
      ItemsAreTheWrites(env, s, group, writes, k - 1);
      var p, items := PlanFirst(env, s, group, writes, k - 1).plan, PlanFirst(env, s, group, writes, k).plan.items;
      OneItemMore(env, s, group, p, writes[k - 1]);
      assert forall i | 0 <= i < k - 1 :: items[i] == items[..k - 1][i];
    }
  }

  /** Some version of the memory carries the write under that number. */
  ghost predicate VersionStored(env: Env, t: Store, m: int, number: nat, w: MemoryWrite) {
    m in t.history && exists v :: v in t.history[m] && CarriesWrite(env.address, v, number, w)
  }

  lemma CommitKeepsVersion(env: Env, t: Store, group: int, it: Planned, minted: int, now: Instant, m: int, number: nat,
                           w: MemoryWrite)
    requires VersionStored(env, t, m, number, w) && (it.mode == Create ==> NewUuid(it, minted) != m)
    ensures VersionStored(env, CommitItem(env, t, group, it, minted, now), m, number, w)
  {
    var t1 := CommitItem(env, t, group, it, minted, now);
    if it.mode == NewVersion && NewUuid(it, minted) == m {
      var v :| v in t.history[m] && CarriesWrite(env.address, v, number, w);
      var i :| 0 <= i < |t.history[m]| && t.history[m][i] == v;
      assert t1.history[m][i] == v.(isCurrent := false);
      assert CarriesWrite(env.address, t1.history[m][i], number, w);
    }
  }

  lemma CommitStoresVersion(env: Env, t: Store, group: int, it: Planned, minted: int, now: Instant)
    requires it.mode != Unchanged
    ensures VersionStored(env, CommitItem(env, t, group, it, minted, now), NewUuid(it, minted),
                          if it.mode == Create then 1 else it.next, it.write)
  {
    var h := CommitItem(env, t, group, it, minted, now).history[NewUuid(it, minted)];
    assert CarriesWrite(env.address, h[|h| - 1], if it.mode == Create then 1 else it.next, it.write);
  }

  /**
   After a commit every item is in the store with every column of its write: a created memory with its group, slug,
   name, description, tags and facets, and each written version under its planned number.
   */
  lemma {:induction false} WrittenIsStored(env: Env, s: Store, group: int, items: seq<Planned>, mint: seq<int>,
                                           clock: seq<Instant>, k: nat, i: nat)
    requires WellPlanned(items, mint) && AllFit(s, group, items, mint) && i < k <= |items| == |clock|
    ensures var t, it, u := CommitFirst(env, s, group, items, mint, clock, k), items[i], NewUuid(items[i], mint[i]);
            && (it.mode == Create ==>
                  && u in t.memories && t.memories[u].group == group && t.memories[u].slug == it.slug
                  && t.memories[u].name == it.write.name && t.memories[u].description == it.write.description
                  && t.memories[u].tags == it.write.tags && t.memories[u].facets == it.write.facets)
            && (it.mode != Unchanged ==> VersionStored(env, t, u, if it.mode == Create then 1 else it.next, it.write))
  {
    var t := CommitFirst(env, s, group, items, mint, clock, k - 1);
    if i == k - 1 {
      if items[i].mode != Unchanged { CommitStoresVersion(env, t, group, items[i], mint[i], clock[i]); }
    } else {
      hide VersionStored;
      WrittenIsStored(env, s, group, items, mint, clock, k - 1, i);
      var it, u := items[i], NewUuid(items[i], mint[i]);
      if items[k - 1].mode == Create {
        assert CreatesAt(items, mint, k - 1, NewUuid(items[k - 1], mint[k - 1]));
        if it.mode == Create { assert CreatesAt(items, mint, i, u); }
      }
      if it.mode != Unchanged {
        CommitKeepsVersion(env, t, group, items[k - 1], mint[k - 1], clock[k - 1], u,
                           if it.mode == Create then 1 else it.next, it.write);
      }
    }
  }

  // ----- one write against the stored rows

  lemma FirstOfOne(env: Env, s: Store, group: int, w: MemoryWrite)
    ensures PlanAll(env, s, group, [w]) == PlanItem(env, s, group, EMPTY_PLAN, w)
  {
    assert PlanFirst(env, s, group, [w], 0) == Accepted(EMPTY_PLAN);
  }

  /**
   An update on its own: refused exactly for a memory unknown to the group; unchanged exactly when the last stored
   version makes the same claim, and otherwise the next version.
   */
  lemma UpdateOnStoredRows(env: Env, s: Store, group: int, w: MemoryWrite)
    requires Invariant(s) && w.uuid.Some?
    ensures var m := w.uuid.value;
            && (PlanAll(env, s, group, [w]).Refused? <==> !(m in s.memories && s.memories[m].group == group))
            && (PlanAll(env, s, group, [w]).Accepted? ==>
                  && m in s.history && s.history[m] != []
                  && var last := s.history[m][|s.history[m]| - 1];
                     PlanAll(env, s, group, [w]).plan.items
                     == [if FromWrite(env.address, w) == FromVersion(last)
                         then Planned(Unchanged, w, env.slug(w.description), Some(m), |s.history[m]|,
                                      |s.history[m]| + 1, last.blobAddress)
                         else Planned(NewVersion, w, env.slug(w.description), Some(m), |s.history[m]|,
                                      |s.history[m]| + 1, None)])
  {
    FirstOfOne(env, s, group, w);
    var m := w.uuid.value;
    if m in s.memories {
      assert m in s.history && Chain(s.history[m]);
      ChainCurrent(s.history[m]);
    }
  }

  /** A create on its own: refused exactly when its uuid is stored, or the group has a memory of its subject. */
  lemma CreateOnStoredRows(env: Env, s: Store, group: int, w: MemoryWrite)
    requires w.uuid.None?
    ensures PlanAll(env, s, group, [w]).Refused? <==>
            || (w.createUuid.Some? && w.createUuid.value in s.memories)
            || exists m ::
                 m in s.memories && s.memories[m].group == group && s.memories[m].slug == env.slug(w.description)
    ensures PlanAll(env, s, group, [w]).Accepted? ==>
              PlanAll(env, s, group, [w]).plan.items
              == [Planned(Create, w, env.slug(w.description), w.createUuid, 0, 0, None)]
  {
    FirstOfOne(env, s, group, w);
  }

  /** What the planner remembers of the creates so far. */
  lemma {:induction false} CreatesRemembered(env: Env, s: Store, group: int, writes: seq<MemoryWrite>, k: nat, i: nat)
    requires i < k <= |writes| && PlanFirst(env, s, group, writes, k).Accepted? && writes[i].uuid.None?
    ensures var p := PlanFirst(env, s, group, writes, k).plan;
            && env.slug(writes[i].description) in p.slugs
               && (writes[i].createUuid.Some? ==> writes[i].createUuid.value in p.creates)
  {
    if i < k - 1 { CreatesRemembered(env, s, group, writes, k - 1, i); }
  }

  /** Two creates of one subject, or of one uuid, are never accepted in one batch. */
  lemma TwinCreatesRefused(env: Env, s: Store, group: int, writes: seq<MemoryWrite>, i: nat, j: nat)
    requires i < j < |writes| && writes[i].uuid.None? && writes[j].uuid.None?
    requires || env.slug(writes[i].description) == env.slug(writes[j].description)
             || (writes[i].createUuid.Some? && writes[i].createUuid == writes[j].createUuid)
    ensures PlanAll(env, s, group, writes).Refused?
  {
    if PlanAll(env, s, group, writes).Accepted? {
      RefusalSticks(env, s, group, writes, j, |writes|);
      RefusalSticks(env, s, group, writes, j + 1, |writes|);
      CreatesRemembered(env, s, group, writes, j, i);
    }
  }
}
