/** What the counts of a response count: the growth of each table. */
module MemoryCounts {
  import opened Common
  import opened MemoryClaims
  import opened MemoryPlans
  import opened MemoryProgress
  import opened MemoryRequests
  import opened MemoryEffects

  /** The version rows, by memory and place. */
  ghost function VersionKeys(s: Store): set<(int, nat)> {
    set m, n: nat | m in s.history && n < |s.history[m]| :: (m, n)
  }

  /** Every count is the growth of its table, and each item and link of the request is counted once. */
  ghost predicate CountsGrowth(before: Tables, after: Tables, request: Request, r: Response) {
    && |after.rows.memories| == |before.rows.memories| + r.created
    && |VersionKeys(after.rows)| == |VersionKeys(before.rows)| + r.created + r.versioned
    && |after.labels| == |before.labels| + r.labels
    && |after.links| == |before.links| + r.linked
    && |after.about| == |before.about| + r.referencesCreated
    && |after.productLinks| == |before.productLinks| + r.productLinks
    && r.created + r.versioned + r.noChange == |request.items| && r.linked + r.skipped == |request.links|
  }

  // ----- items

  lemma {:induction false} ModesAddUp(items: seq<Planned>)
    ensures CountMode(items, Create) + CountMode(items, NewVersion) + CountMode(items, Unchanged) == |items|
  {
    if items != [] { ModesAddUp(items[..|items| - 1]); }
  }

  ghost function Divergences(items: seq<Planned>, k: nat): set<int>
    requires k <= |items|
  {
    set i | 0 <= i < k && items[i].mode == Create && items[i].write.kind == "divergence"
  }

  lemma OneMoreDivergence(items: seq<Planned>, k: nat)
    requires k < |items|
    ensures Divergences(items, k + 1)
            == if items[k].mode == Create && items[k].write.kind == "divergence" then Divergences(items, k) + {k}
               else Divergences(items, k)
    ensures k !in Divergences(items, k)
  {
  }

  /** Diverged are the created items that came as a divergence. */
  lemma {:induction false} DivergedAreCreated(items: seq<Planned>, k: nat)
    requires k <= |items|
    ensures CountDiverged(items[..k]) == |Divergences(items, k)|
  {
    if k > 0 {
      hide Divergences;
      DivergedAreCreated(items, k - 1);
      OneMoreDivergence(items, k - 1);
      assert items[..k][..k - 1] == items[..k - 1];
    } else {
      assert Divergences(items, 0) == {};
    }
  }

  // ----- rows

  lemma MapGrows<K, V>(m: map<K, V>, k: K, v: V)
    ensures |m[k := v]| == |m| + if k in m then 0 else 1
  {
    assert |m.Keys| == |m| && |m[k := v].Keys| == |m[k := v]|;
    assert m[k := v].Keys == m.Keys + {k};
    if k in m { assert m.Keys + {k} == m.Keys; }
  }

  lemma OneVersionMore(s: Store, u: int, h: seq<Version>)
    requires |h| == |History(s.history, u)| + 1
    ensures |VersionKeys(s.(history := s.history[u := h]))| == |VersionKeys(s)| + 1
  {
    var added, t := (u, |History(s.history, u)|), s.(history := s.history[u := h]);
    assert added !in VersionKeys(s);
    forall x ensures x in VersionKeys(t) <==> x in VersionKeys(s) + {added} {
      if x.0 == u { assert x in VersionKeys(t) <==> 0 <= x.1 < |h|; }
    }
    assert VersionKeys(t) == VersionKeys(s) + {added};
  }

  lemma SameVersions(s: Store, t: Store)
    requires s.history == t.history
    ensures VersionKeys(s) == VersionKeys(t)
  {
  }

  lemma OneRowMore(env: Env, t: Store, group: int, it: Planned, minted: int, now: Instant)
    requires it.mode == Create ==> NewUuid(it, minted) !in t.memories && NewUuid(it, minted) !in t.history
    ensures var t1 := CommitItem(env, t, group, it, minted, now);
            && |t1.memories| == |t.memories| + (if it.mode == Create then 1 else 0)
            && |VersionKeys(t1)| == |VersionKeys(t)| + (if it.mode == Unchanged then 0 else 1)
  {
    hide VersionKeys;
    var t1, u := CommitItem(env, t, group, it, minted, now), NewUuid(it, minted);
    if it.mode == Create { MapGrows(t.memories, u, RowOf(group, it)); }
    if it.mode != Unchanged {
      OneVersionMore(t, u, t1.history[u]);
      SameVersions(t1, t.(history := t.history[u := t1.history[u]]));
    }
  }

  lemma {:induction false} CreatedIsNew(env: Env, s: Store, group: int, items: seq<Planned>, mint: seq<int>,
                                        clock: seq<Instant>, k: nat, u: int)
    requires WellPlanned(items, mint) && AllFit(s, group, items, mint) && k <= |items| == |clock|
    requires s.history.Keys == s.memories.Keys && u !in s.memories
             && forall j | 0 <= j < k :: !CreatesAt(items, mint, j, u)
    requires exists j :: k <= j < |items| && CreatesAt(items, mint, j, u)
    ensures var t := CommitFirst(env, s, group, items, mint, clock, k); u !in t.memories && u !in t.history
  {
    if k > 0 {
      CreatedIsNew(env, s, group, items, mint, clock, k - 1, u);
      assert !CreatesAt(items, mint, k - 1, u);
    }
  }

  lemma {:induction false} RowsGrow(env: Env, s: Store, group: int, items: seq<Planned>, mint: seq<int>,
                                    clock: seq<Instant>, k: nat)
    requires WellPlanned(items, mint) && AllFit(s, group, items, mint) && k <= |items| == |clock|
    requires s.history.Keys == s.memories.Keys
    ensures var t := CommitFirst(env, s, group, items, mint, clock, k);
            && |t.memories| == |s.memories| + CountMode(items[..k], Create)
            && |VersionKeys(t)| == |VersionKeys(s)| + CountMode(items[..k], Create) + CountMode(items[..k], NewVersion)
  {
    if k > 0 {
      hide WellPlanned, VersionKeys, CommitItem;
      RowsGrow(env, s, group, items, mint, clock, k - 1);
      var it, u := items[k - 1], NewUuid(items[k - 1], mint[k - 1]);
      assert items[..k][..k - 1] == items[..k - 1];
      if it.mode == Create { LaterCreateIsNew(env, s, group, items, mint, clock, k - 1); }
      OneRowMore(env, CommitFirst(env, s, group, items, mint, clock, k - 1), group, it, mint[k - 1], clock[k - 1]);
    }
  }

  lemma LaterCreateIsNew(env: Env, s: Store, group: int, items: seq<Planned>, mint: seq<int>,
                         clock: seq<Instant>, k: nat)
    requires WellPlanned(items, mint) && AllFit(s, group, items, mint) && k < |items| == |clock|
             && items[k].mode == Create
    requires s.history.Keys == s.memories.Keys
    ensures var t, u := CommitFirst(env, s, group, items, mint, clock, k), NewUuid(items[k], mint[k]);
            u !in t.memories && u !in t.history
  {
    var u := NewUuid(items[k], mint[k]);
    assert CreatesAt(items, mint, k, u) && Fits(s, group, items[k], mint[k]);
    CreatedIsNew(env, s, group, items, mint, clock, k, u);
  }

  // ----- labels, links and the product link

  lemma {:induction false} UnlikeAreDistinct(fold: string -> string, names: seq<string>)
    requires PairwiseUnlike(fold, names)
    ensures |Members(names)| == |names|
  {
    if names != [] {
      var n := |names| - 1;
      UnlikeAreDistinct(fold, names[..n]);
      assert Members(names) == Members(names[..n]) + {names[n]};
    }
  }

  lemma LabelsGrow(fold: string -> string, names: seq<string>, stored: set<string>)
    ensures |stored + Members(LabelsPlanned(fold, names, stored))| == |stored| + |LabelsPlanned(fold, names, stored)|
  {
    var distinct := DistinctFolded(fold, names);
    DistinctFoldedIs(fold, names);
    StillUnlike(fold, distinct, stored);
    UnlikeAreDistinct(fold, NotStored(distinct, stored));
    NotStoredIsNew(distinct, stored);
  }

  lemma OneLinkMore(links: map<Link, string>, planned: seq<PlannedLink>, k: nat)
    requires LinksAccurate(planned, links.Keys) && k < |planned|
    ensures |LinksAfter(links, planned, k + 1)| == |LinksAfter(links, planned, k)| + if planned[k].skip then 0 else 1
  {
    hide LinksAccurate;
    var before := LinksAfter(links, planned, k);
    if !planned[k].skip {
      LinksAfterAdds(links, planned, k);
      AccurateMeansNew(planned, links.Keys, k);
      assert planned[k].write.link !in before.Keys;
      MapGrows(before, planned[k].write.link, planned[k].write.reason);
    }
  }

  lemma {:induction false} LinksGrow(links: map<Link, string>, planned: seq<PlannedLink>, k: nat)
    requires LinksAccurate(planned, links.Keys) && k <= |planned|
    ensures |LinksAfter(links, planned, k)| == |links| + CountSkipped(planned[..k], false)
  {
    hide LinksAccurate;
    if k > 0 {
      LinksGrow(links, planned, k - 1);
      OneLinkMore(links, planned, k - 1);
      CountSkippedAppend(planned, k - 1, false);
    }
  }
}
