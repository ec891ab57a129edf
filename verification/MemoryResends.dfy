/** Sending a committed batch of version writes again: recognised as unchanged, item by item. */
module MemoryResends {
  import opened Common
  import opened MemoryClaims
  import opened MemoryPlans

  ghost predicate DistinctTargets(writes: seq<MemoryWrite>) {
    && (forall i | 0 <= i < |writes| :: writes[i].uuid.Some?)
    && (forall i, j | 0 <= i < j < |writes| :: writes[i].uuid != writes[j].uuid)
  }

  /** The write names a memory of the group, with a sound history. */
  ghost predicate Targets(s: Store, group: int, w: MemoryWrite) {
    && w.uuid.Some? && w.uuid.value in s.memories && s.memories[w.uuid.value].group == group
    && w.uuid.value in s.history && Chain(s.history[w.uuid.value])
  }

  function RowsOf(s: Store, w: MemoryWrite): seq<Version> {
    if w.uuid.Some? then History(s.history, w.uuid.value) else []
  }

  /** How a version write fares against a memory's rows alone. */
  ghost predicate PlannedOn(env: Env, h: seq<Version>, w: MemoryWrite, it: Planned) {
    && |h| > 0 && it.write == w && it.uuid == w.uuid
    && (if FromWrite(env.address, w) == FromVersion(Last(h)) then it.mode == Unchanged
          else it.mode == NewVersion && it.next == |h| + 1)
  }

  lemma PlanOne(env: Env, s: Store, group: int, p: Plan, w: MemoryWrite)
    requires Chains(s) && w.uuid.Some? && w.uuid.value !in p.targets
    ensures PlanItem(env, s, group, p, w).Accepted? <==> Targets(s, group, w)
    ensures Targets(s, group, w) ==>
      var q := PlanItem(env, s, group, p, w).plan;
      && |q.items| == |p.items| + 1 && q.items[..|p.items|] == p.items
         && q.targets.Keys <= p.targets.Keys + {w.uuid.value}
      && PlannedOn(env, RowsOf(s, w), w, q.items[|p.items|])
  {
    var m := w.uuid.value;
    if m in s.memories {
      assert m in s.history && Chain(s.history[m]);
      ChainCurrent(s.history[m]);
    }
  }

  /** The plan of the first k writes, each on its own memory's rows. */
  ghost predicate Separate(env: Env, s: Store, group: int, writes: seq<MemoryWrite>, p: Plan, k: nat)
    requires k <= |writes|
  {
    && |p.items| == k
    && (forall j | 0 <= j < k ::
          Targets(s, group, writes[j]) && PlannedOn(env, RowsOf(s, writes[j]), writes[j], p.items[j]))
    && forall m | m in p.targets :: exists j :: 0 <= j < k && writes[j].uuid == Some(m)
  }

  lemma SeparateStep(env: Env, s: Store, group: int, writes: seq<MemoryWrite>, p: Plan, k: nat)
    requires Chains(s) && DistinctTargets(writes) && k < |writes| && Separate(env, s, group, writes, p, k)
    ensures PlanItem(env, s, group, p, writes[k]).Accepted? <==> Targets(s, group, writes[k])
    ensures Targets(s, group, writes[k]) ==>
            Separate(env, s, group, writes, PlanItem(env, s, group, p, writes[k]).plan, k + 1)
  {
    hide PlanItem, Chain, PlannedOn;
    var w := writes[k];
    assert w.uuid.Some? && forall j | 0 <= j < k :: writes[j].uuid != w.uuid;
    forall m | m in p.targets ensures m != w.uuid.value {
      var j :| 0 <= j < k && writes[j].uuid == Some(m);
      assert writes[j].uuid != w.uuid;
    }
    PlanOne(env, s, group, p, w);
    if Targets(s, group, w) {
      var q := PlanItem(env, s, group, p, w).plan;
      forall j | 0 <= j < k ensures q.items[j] == p.items[j] { assert q.items[..k][j] == q.items[j]; }
      forall m | m in q.targets ensures exists j :: 0 <= j < k + 1 && writes[j].uuid == Some(m) {
        assert m !in p.targets ==> writes[k].uuid == Some(m);
      }
    }
  }

  /**
   With distinct targets, a batch is accepted exactly when every target is, and every item is planned on its own
   memory's rows.
   */
  lemma {:induction false} PlannedSeparately(env: Env, s: Store, group: int, writes: seq<MemoryWrite>, k: nat)
    requires Chains(s) && DistinctTargets(writes) && k <= |writes|
    ensures PlanFirst(env, s, group, writes, k).Accepted? <==> forall j | 0 <= j < k :: Targets(s, group, writes[j])
    ensures PlanFirst(env, s, group, writes, k).Accepted? ==>
            Separate(env, s, group, writes, PlanFirst(env, s, group, writes, k).plan, k)
  {
    hide PlanItem, Targets, Separate, Chains, DistinctTargets;
    if k > 0 {
      PlannedSeparately(env, s, group, writes, k - 1);
      var before := PlanFirst(env, s, group, writes, k - 1);
      if before.Accepted? { SeparateStep(env, s, group, writes, before.plan, k - 1); }
    } else {
      NothingPlanned(env, s, group, writes);
    }
  }

  lemma NothingPlanned(env: Env, s: Store, group: int, writes: seq<MemoryWrite>)
    ensures Separate(env, s, group, writes, EMPTY_PLAN, 0)
  {
  }

  /** A memory's rows after the write it alone received. */
  ghost function RowsAfter(env: Env, h: seq<Version>, w: MemoryWrite, now: Instant): seq<Version> {
    if h == [] || FromWrite(env.address, w) == FromVersion(Last(h)) then h
      else Retired(h) + [StoredVersion(env.address, |h| + 1, w, now)]
  }

  lemma CommitOne(env: Env, t: Store, group: int, w: MemoryWrite, it: Planned, minted: int, now: Instant)
    requires w.uuid.Some? && w.uuid.value in t.history && PlannedOn(env, RowsOf(t, w), w, it)
    ensures CommitItem(env, t, group, it, minted, now)
         == t.(history := t.history[w.uuid.value := RowsAfter(env, RowsOf(t, w), w, now)])
  {
    assert t.history[w.uuid.value := t.history[w.uuid.value]] == t.history;
  }

  /** After k items, each of the first k targets has its own write's rows and every other memory its old ones. */
  ghost predicate CommittedTo(env: Env, s: Store, writes: seq<MemoryWrite>, clock: seq<Instant>, t: Store, k: nat)
    requires k <= |writes| == |clock|
  {
    && t.memories == s.memories && t.history.Keys == s.history.Keys
    && (forall j | 0 <= j < k :: RowsOf(t, writes[j]) == RowsAfter(env, RowsOf(s, writes[j]), writes[j], clock[j]))
    && forall m | m in s.history && (forall j | 0 <= j < k :: writes[j].uuid != Some(m)) :: t.history[m] == s.history[m]
  }

  lemma CommittedStep(env: Env, s: Store, group: int, writes: seq<MemoryWrite>, it: Planned, minted: int,
                      clock: seq<Instant>, t: Store, k: nat)
    requires DistinctTargets(writes) && k < |writes| == |clock| && CommittedTo(env, s, writes, clock, t, k)
    requires Targets(s, group, writes[k]) && PlannedOn(env, RowsOf(s, writes[k]), writes[k], it)
    ensures CommittedTo(env, s, writes, clock, CommitItem(env, t, group, it, minted, clock[k]), k + 1)
  {
    hide CommitItem, PlannedOn, RowsAfter, Chain;
    var w := writes[k];
    assert forall j | 0 <= j < k :: writes[j].uuid != w.uuid && writes[j].uuid.Some?;
    assert RowsOf(t, w) == RowsOf(s, w);
    CommitOne(env, t, group, w, it, minted, clock[k]);
    var t1 := CommitItem(env, t, group, it, minted, clock[k]);
    forall j | 0 <= j < k ensures RowsOf(t1, writes[j]) == RowsOf(t, writes[j]) {
      assert writes[j].uuid.value != w.uuid.value;
    }
  }

  lemma {:induction false} CommittedSeparately(env: Env, s: Store, group: int, writes: seq<MemoryWrite>, p: Plan,
                                               mint: seq<int>, clock: seq<Instant>, k: nat)
    requires DistinctTargets(writes) && |writes| == |mint| == |clock| && k <= |writes|
             && Separate(env, s, group, writes, p, |writes|)
    ensures CommittedTo(env, s, writes, clock, CommitFirst(env, s, group, p.items, mint, clock, k), k)
  {
    hide CommitItem, CommittedTo, DistinctTargets, PlannedOn, Targets;
    if k == 0 {
      NothingCommitted(env, s, writes, clock);
    } else {
      CommittedSeparately(env, s, group, writes, p, mint, clock, k - 1);
      CommittedStep(env, s, group, writes, p.items[k - 1], mint[k - 1], clock,
                    CommitFirst(env, s, group, p.items, mint, clock, k - 1), k - 1);
    }
  }

  lemma NothingCommitted(env: Env, s: Store, writes: seq<MemoryWrite>, clock: seq<Instant>)
    requires |writes| == |clock|
    ensures CommittedTo(env, s, writes, clock, s, 0)
  {
  }

  lemma RowsAfterAreChain(env: Env, h: seq<Version>, w: MemoryWrite, now: Instant)
    requires Chain(h)
    ensures Chain(RowsAfter(env, h, w, now))
    ensures FromVersion(Last(RowsAfter(env, h, w, now))) == FromWrite(env.address, w)
            <==> FromWrite(env.address, w) == FromVersion(Last(h)) || ReadsBack(w)
  {
    ChainGrows(env, h, w, now);
    ClaimReadsBackExactly(env.address, |h| + 1, w, now);
  }

  lemma {:induction false} UnchangedCommitsNothing(env: Env, t: Store, group: int, items: seq<Planned>, mint: seq<int>,
                                                   clock: seq<Instant>, k: nat)
    requires k <= |items| && k <= |mint| && k <= |clock| && forall i | 0 <= i < |items| :: items[i].mode == Unchanged
    ensures CommitFirst(env, t, group, items, mint, clock, k) == t
  {
    if k > 0 { UnchangedCommitsNothing(env, t, group, items, mint, clock, k - 1); }
  }

  /**
   Re-sending a committed batch of version writes with distinct targets: each item is reported unchanged exactly when
   it was unchanged the first time or its end of validity reads back. If that holds of all, nothing at all is altered.
   */
  lemma ResendRecognisedExactly(env: Env, s: Store, group: int, writes: seq<MemoryWrite>,
                                mint: seq<int>, clock: seq<Instant>, mint2: seq<int>, clock2: seq<Instant>)
    requires Invariant(s) && DistinctTargets(writes)
    requires |mint| == |clock| == |mint2| == |clock2| == |writes|
    requires PlanAll(env, s, group, writes).Accepted?
    ensures |PlanAll(env, s, group, writes).plan.items| == |writes|
    ensures var first := PlanAll(env, s, group, writes).plan.items;
            var t := Commit(env, s, group, first, mint, clock);
            var again := PlanAll(env, t, group, writes);
            && again.Accepted? && |again.plan.items| == |writes|
            && (forall i | 0 <= i < |writes| ::
                  again.plan.items[i].mode == Unchanged <==> first[i].mode == Unchanged || ReadsBack(writes[i]))
            && ((forall i | 0 <= i < |writes| :: first[i].mode == Unchanged || ReadsBack(writes[i]))
                ==> Commit(env, t, group, again.plan.items, mint2, clock2) == t)
  {
    hide CommitFirst, PlanItem, PlannedOn, RowsAfter, Chain;
    PlannedSeparately(env, s, group, writes, |writes|);
    var p := PlanAll(env, s, group, writes).plan;
    CommittedSeparately(env, s, group, writes, p, mint, clock, |writes|);
    var t := Commit(env, s, group, p.items, mint, clock);
    TargetsKeepChains(env, s, group, writes, clock, t);
    PlannedSeparately(env, t, group, writes, |writes|);
    var again := PlanAll(env, t, group, writes).plan.items;
    forall i | 0 <= i < |writes|
      ensures again[i].mode == Unchanged <==> p.items[i].mode == Unchanged || ReadsBack(writes[i]) {
      ModeOnRows(env, s, group, t, writes[i], p.items[i], again[i], clock[i]);
    }
    if forall i | 0 <= i < |writes| :: p.items[i].mode == Unchanged || ReadsBack(writes[i]) {
      UnchangedCommitsNothing(env, t, group, again, mint2, clock2, |writes|);
    }
  }

  lemma TargetsKeepChains(env: Env, s: Store, group: int, writes: seq<MemoryWrite>, clock: seq<Instant>, t: Store)
    requires Chains(s) && |writes| == |clock| && CommittedTo(env, s, writes, clock, t, |writes|)
    requires forall j | 0 <= j < |writes| :: Targets(s, group, writes[j])
    ensures Chains(t) && forall j | 0 <= j < |writes| :: Targets(t, group, writes[j])
  {
    hide Chain, RowsAfter;
    forall m | m in t.history ensures Chain(t.history[m]) {
      if j :| 0 <= j < |writes| && writes[j].uuid == Some(m) {
        assert Targets(s, group, writes[j]);
        RowsAfterAreChain(env, RowsOf(s, writes[j]), writes[j], clock[j]);
        assert t.history[m] == RowsOf(t, writes[j]);
      } else {
        assert t.history[m] == s.history[m];
      }
    }
  }

  lemma ModeOnRows(env: Env, s: Store, group: int, t: Store, w: MemoryWrite, first: Planned, again: Planned,
                   now: Instant)
    requires Targets(s, group, w) && PlannedOn(env, RowsOf(s, w), w, first) && PlannedOn(env, RowsOf(t, w), w, again)
    requires RowsOf(t, w) == RowsAfter(env, RowsOf(s, w), w, now)
    ensures again.mode == Unchanged <==> first.mode == Unchanged || ReadsBack(w)
  {
    RowsAfterAreChain(env, RowsOf(s, w), w, now);
  }
}
