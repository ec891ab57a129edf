/**
 The unit of work behind a memory write: rows added and rows to be retired are tracked, and reach the
 tables only when saved. The tables refuse a save that would break a unique index or rewrite history.
 */
module MemoryUnits {
  import opened Common
  import opened MemoryClaims
  import opened MemoryPlans

  /** Memories and versions added and not yet saved, and stored rows whose current flag is to be cleared. */
  datatype Unit = Unit(memories: map<int, MemoryRow>, versions: map<int, Version>, retired: set<(int, nat)>)

  const NOTHING_PENDING := Unit(map[], map[], {})

  function Flipped(h: seq<Version>, m: int, retired: set<(int, nat)>): (r: seq<Version>)
    ensures |r| == |h|
    ensures forall i | 0 <= i < |h| :: r[i] == if (m, h[i].number) in retired then h[i].(isCurrent := false) else h[i]
  {
    seq(|h|, i requires 0 <= i < |h| => if (m, h[i].number) in retired then h[i].(isCurrent := false) else h[i])
  }

  function Pending(pending: map<int, Version>, m: int): seq<Version> {
    if m in pending then [pending[m]] else []
  }

  function RowsAfter(db: Store, u: Unit, m: int): seq<Version> {
    Flipped(History(db.history, m), m, u.retired) + Pending(u.versions, m)
  }

  /** The tables once everything pending has reached them. */
  function Saved(db: Store, u: Unit): Store {
    Store(db.memories + u.memories, map m | m in db.history.Keys + u.versions.Keys :: RowsAfter(db, u, m))
  }

  predicate NoneCurrent(h: seq<Version>) {
    forall i | 0 <= i < |h| :: !h[i].isCurrent
  }

  predicate AtMostOneCurrent(h: seq<Version>) {
    forall i, j | 0 <= i < j < |h| :: !(h[i].isCurrent && h[j].isCurrent)
  }

  predicate HasCurrentRow(h: seq<Version>, n: nat) {
    exists i :: 0 <= i < |h| && h[i].number == n && h[i].isCurrent
  }

  predicate HasNumber(h: seq<Version>, n: nat) {
    exists i :: 0 <= i < |h| && h[i].number == n
  }

  /**
   What the tables accept: a retired row must be stored and current (the append-only guard admits no
   other update), new memories meet no stored uuid or subject, new versions have a memory and a new
   number, and a new current row meets no stored current one, whichever statement comes first.
   */
  predicate Saveable(db: Store, u: Unit) {
    && (forall r | r in u.retired :: HasCurrentRow(History(db.history, r.0), r.1))
    && (forall m | m in u.memories ::
          m !in db.memories && !SubjectTakenIn(db.memories, u.memories[m].group, u.memories[m].slug))
    && (forall m | m in u.versions ::
          (m in db.memories || m in u.memories) && !HasNumber(History(db.history, m), u.versions[m].number)
          && (u.versions[m].isCurrent ==> NoneCurrent(History(db.history, m))))
  }

  /** Rows only ever gain successors: what was stored stays, its current flag aside. */
  ghost predicate AppendOnly(a: Store, b: Store) {
    forall m | m in a.history :: m in b.history && |a.history[m]| <= |b.history[m]|
      && forall i | 0 <= i < |a.history[m]| ::
           b.history[m][i].(isCurrent := false) == a.history[m][i].(isCurrent := false)
  }

  ghost predicate OneCurrentEach(db: Store) {
    forall m | m in db.history :: AtMostOneCurrent(db.history[m])
  }

  lemma SavedRows(db: Store, u: Unit, m: int)
    requires m in Saved(db, u).history
    ensures Saved(db, u).history[m] == RowsAfter(db, u, m)
  {
  }

  /** Statement by statement, in any order: no part of an accepted save ever shows two current rows. */
  lemma NoOrderShowsTwoCurrents(db: Store, u: Unit, done: Unit, m: int)
    requires OneCurrentEach(db) && Saveable(db, u)
    requires done.retired <= u.retired && done.versions.Keys <= u.versions.Keys
    requires forall x | x in done.versions :: done.versions[x] == u.versions[x]
    ensures AtMostOneCurrent(RowsAfter(db, done, m))
  {
    var h, rows := History(db.history, m), RowsAfter(db, done, m);
    forall i, j | 0 <= i < j < |rows|
      ensures !(rows[i].isCurrent && rows[j].isCurrent)
    {
      if j < |h| {
        assert rows[i].isCurrent ==> h[i].isCurrent;
        assert rows[j].isCurrent ==> h[j].isCurrent;
      } else {
        assert rows[j] == u.versions[m];
        assert rows[i].isCurrent ==> h[i].isCurrent;
      }
    }
  }

  lemma SaveAppends(db: Store, u: Unit)
    requires OneCurrentEach(db) && Saveable(db, u)
    ensures AppendOnly(db, Saved(db, u)) && OneCurrentEach(Saved(db, u))
  {
    forall m | m in Saved(db, u).history
      ensures AtMostOneCurrent(Saved(db, u).history[m])
    {
      SavedRows(db, u, m);
      NoOrderShowsTwoCurrents(db, u, u, m);
    }
  }

  lemma AppendOnlyJoins(a: Store, b: Store, c: Store)
    requires AppendOnly(a, b) && AppendOnly(b, c)
    ensures AppendOnly(a, c)
  {
    forall m | m in a.history
      ensures m in c.history && |a.history[m]| <= |c.history[m]|
      ensures forall i | 0 <= i < |a.history[m]| ::
                c.history[m][i].(isCurrent := false) == a.history[m][i].(isCurrent := false)
    {
      assert m in b.history;
    }
  }

  // ----- one item at a time

  /** Stored and pending version rows together are the given histories, each of them a chain. */
  ghost predicate RowsStand(stored: map<int, seq<Version>>, pending: map<int, Version>, after: map<int, seq<Version>>) {
    && after.Keys == stored.Keys + pending.Keys
    && forall m | m in after :: after[m] == History(stored, m) + Pending(pending, m) && Chain(after[m])
  }

  /** Tables and pending rows together stand for the store t. */
  ghost predicate StandsFor(db: Store, u: Unit, t: Store) {
    && u.retired == {} && RowsStand(db.history, u.versions, t.history)
    && t.memories == db.memories + u.memories && t.memories.Keys == t.history.Keys && SubjectsUnique(t.memories)
    && db.history.Keys == db.memories.Keys && u.memories.Keys !! db.memories.Keys
  }

  lemma StandsForStored(db: Store)
    requires Invariant(db)
    ensures StandsFor(db, NOTHING_PENDING, db)
  {
    assert forall m | m in db.history :: History(db.history, m) + Pending(map[], m) == db.history[m];
  }

  lemma SavedIs(db: Store, u: Unit, t: Store)
    requires StandsFor(db, u, t)
    ensures Saved(db, u) == t && Invariant(t)
  {
    forall m | m in t.history
      ensures Saved(db, u).history[m] == t.history[m]
    {
      assert Flipped(History(db.history, m), m, {}) == History(db.history, m);
    }
    assert Saved(db, u).history == t.history;
  }

  lemma RowsAfterCreate(stored: map<int, seq<Version>>,
                        pending: map<int, Version>, after: map<int, seq<Version>>, m: int, v: Version)
    requires RowsStand(stored, pending, after) && m !in after && v.number == 1 && v.isCurrent
    ensures RowsStand(stored, pending[m := v], after[m := [v]])
  {
    forall x | x in after[m := [v]]
      ensures after[m := [v]][x] == History(stored, x) + Pending(pending[m := v], x)
    {
      if x != m { assert Pending(pending[m := v], x) == Pending(pending, x); }
    }
  }

  lemma AddCreate(env: Env, group: int, db: Store, u: Unit, t: Store, it: Planned, minted: int, now: Instant)
    requires StandsFor(db, u, t) && it.mode == Create
    requires NewUuid(it, minted) !in t.memories && !SubjectTakenIn(t.memories, group, it.slug)
    ensures var m := NewUuid(it, minted);
            StandsFor(db,
                      Unit(u.memories[m := RowOf(group, it)],
                           u.versions[m := StoredVersion(env.address, 1, it.write, now)], {}),
                           CommitItem(env, t, group, it, minted, now))
  {
    RowsAfterCreate(db.history, u.versions, t.history, NewUuid(it, minted),
                    StoredVersion(env.address, 1, it.write, now));
  }

  /** Retiring the last row of a memory, stored or still pending. */
  function Retire(u: Unit, m: int, number: nat): Unit {
    if m in u.versions then u.(versions := u.versions[m := u.versions[m].(isCurrent := false)])
    else u.(retired := {(m, number)})
  }

  /** Saving after the retirement leaves every row of that memory not current, and the rest as it stood. */
  lemma RetiredRows(db: Store, u: Unit, t: Store, m: int, x: int)
    requires StandsFor(db, u, t) && m in t.history && x in t.history
    ensures var db1 := Saved(db, Retire(u, m, |t.history[m]|));
            x in db1.history && db1.history[x] == if x == m then Retired(t.history[m]) else t.history[x]
  {
    var u1 := Retire(u, m, |t.history[m]|);
    var h := History(db.history, x);
    assert t.history[x] == h + Pending(u.versions, x) && Chain(t.history[x]);
    forall i | 0 <= i < |h|
      ensures Flipped(h, x, u1.retired)[i] == if x == m then h[i].(isCurrent := false) else h[i]
    {
      assert t.history[x][i] == h[i];
    }
    if x == m {
      assert RowsAfter(db, u1, x) == Retired(t.history[m]);
    } else {
      assert RowsAfter(db, u1, x) == t.history[x];
    }
  }

  lemma RetirementSaved(db: Store, u: Unit, t: Store, m: int)
    requires StandsFor(db, u, t) && m in t.history
    ensures Saved(db, Retire(u, m, |t.history[m]|)) == Store(t.memories, t.history[m := Retired(t.history[m])])
  {
    var rows := Saved(db, Retire(u, m, |t.history[m]|)).history;
    forall x | x in t.history
      ensures x in rows && rows[x] == if x == m then Retired(t.history[m]) else t.history[x]
    {
      RetiredRows(db, u, t, m, x);
    }
    assert rows.Keys == t.history.Keys;
    assert rows == t.history[m := Retired(t.history[m])];
  }

  lemma RowsAfterVersion(env: Env, stored: map<int, seq<Version>>,
                         before: map<int, seq<Version>>, m: int, w: MemoryWrite, now: Instant)
    requires m in before && stored == before[m := Retired(before[m])] && forall x | x in before :: Chain(before[x])
    ensures RowsStand(stored, map[m := StoredVersion(env.address, |before[m]| + 1, w, now)],
                      before[m := Retired(before[m]) + [StoredVersion(env.address, |before[m]| + 1, w, now)]])
  {
    ChainGrows(env, before[m], w, now);
  }

  /** With everything saved and the memory's last row retired, the next version is tracked. */
  lemma AddVersion(env: Env, t: Store, m: int, w: MemoryWrite, now: Instant)
    requires Invariant(t) && m in t.history
    ensures var v := StoredVersion(env.address, |t.history[m]| + 1, w, now);
            StandsFor(Store(t.memories, t.history[m := Retired(t.history[m])]), Unit(map[], map[m := v], {}),
                      Store(t.memories, t.history[m := Retired(t.history[m]) + [v]]))
  {
    RowsAfterVersion(env, t.history[m := Retired(t.history[m])], t.history, m, w, now);
  }

  lemma CommitVersionIs(env: Env, group: int, t: Store, it: Planned, minted: int, now: Instant)
    requires it.mode == NewVersion && it.uuid.Some? && it.uuid.value in t.history
    ensures var m := it.uuid.value;
            CommitItem(env, t, group, it, minted, now)
            == Store(t.memories,
                     t.history[m := Retired(t.history[m]) + [StoredVersion(env.address, it.next, it.write, now)]])
  {
  }

  lemma PendingIsSaveable(db: Store, u: Unit, t: Store)
    requires StandsFor(db, u, t)
    ensures Saveable(db, u)
  {
    forall x | x in u.memories
      ensures !SubjectTakenIn(db.memories, u.memories[x].group, u.memories[x].slug)
    {
      forall y | y in db.memories
        ensures !(db.memories[y].group == u.memories[x].group && db.memories[y].slug == u.memories[x].slug)
      {
        assert t.memories[x] == u.memories[x] && t.memories[y] == db.memories[y] && x != y;
      }
    }
    forall x | x in u.versions
      ensures (x in db.memories || x in u.memories)
      ensures !HasNumber(History(db.history, x), u.versions[x].number) && NoneCurrent(History(db.history, x))
    {
      var h := History(db.history, x);
      assert x in t.history && t.history[x] == h + [u.versions[x]] && Chain(t.history[x]);
      assert t.history[x][|h|] == u.versions[x];
      forall i | 0 <= i < |h|
        ensures h[i].number != u.versions[x].number && !h[i].isCurrent
      {
        assert t.history[x][i] == h[i];
      }
    }
  }

  /** The save that retires a memory's last row is accepted. */
  lemma RetireIsSaveable(db: Store, u: Unit, t: Store, m: int)
    requires StandsFor(db, u, t) && m in t.history
    ensures Saveable(db, Retire(u, m, |t.history[m]|))
  {
    var h, n := History(db.history, m), |t.history[m]|;
    PendingIsSaveable(db, u, t);
    assert t.history[m] == h + Pending(u.versions, m) && Chain(t.history[m]);
    if m !in u.versions {
      assert t.history[m][n - 1] == h[n - 1];
      assert HasCurrentRow(h, n);
    }
  }

  /** An accepted retirement was of the memory's last row: a stale row number is refused. */
  lemma SaveableRetirementIsLast(db: Store, u: Unit, t: Store, m: int, number: nat)
    requires StandsFor(db, u, t) && m !in u.versions && Saveable(db, Retire(u, m, number))
    ensures m in t.history && number == |t.history[m]|
  {
    var h := History(db.history, m);
    assert (m, number) in Retire(u, m, number).retired;
    assert HasCurrentRow(h, number);
    assert m in t.history && t.history[m] == h + [] == h && Chain(t.history[m]);
  }
}
