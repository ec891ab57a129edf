/**
 Folder and file names of the Markdown export. Names are kept apart up to letter case by falling back from the
 plain name to one with 8, and then with all 32, hexadecimal digits of the uuid.
 */
module ExportNames {
  import opened Common
  import opened Slugs
  import opened Sorting

  const HEX := "0123456789abcdef"

  predicate IsHex(s: string) {
    forall i | 0 <= i < |s| :: s[i] in HEX
  }

  /** A uuid in its plain 32-digit form. */
  type Uuid = s: string | |s| == 32 && IsHex(s) witness "00000000000000000000000000000000"

  datatype GroupInput = GroupInput(uuid: Uuid, currentDescriptionName: Option<string>)

  datatype MemoryInput = MemoryInput(uuid: Uuid, subjectSlug: string, currentVersion: int)

  /** Case folding: per character, never to or from the hyphen, and keeping hexadecimal digits, 'v' and '-' apart. */
  ghost predicate Folds(fold: char -> char) {
    && fold('-') == '-'
    && (forall c :: fold(c) == '-' ==> c == '-')
    && forall a, b :: a in HEX + "-v" && b in HEX + "-v" && fold(a) == fold(b) ==> a == b
  }

  function Folded(fold: char -> char, s: string): (f: string)
    ensures |f| == |s|
    ensures forall i | 0 <= i < |s| :: f[i] == fold(s[i])
  {
    seq(|s|, i requires 0 <= i < |s| => fold(s[i]))
  }

  function CollisionSuffix(uuid: Uuid): string {
    uuid[..8]
  }

  function Hyphenated36(uuid: Uuid): string {
    uuid[..8] + "-" + uuid[8..12] + "-" + uuid[12..16] + "-" + uuid[16..20] + "-" + uuid[20..]
  }

  function Digits(n: nat): (s: string)
    ensures s != [] && forall i | 0 <= i < |s| :: s[i] in HEX
  {
    if n < 10 then [HEX[n]] else Digits(n / 10) + [HEX[n % 10]]
  }

  function Decimal(n: int): string {
    if n < 0 then "-" + Digits(-n) else Digits(n)
  }

  /** The plain name and its two fallbacks. */
  datatype Names = Names(plain: string, short: string, full: string)

  function GroupBase(u: Unicode, group: GroupInput): string {
    match SubjectOrNone(u, group.currentDescriptionName)
    case Some(slug) => slug
    case None => "group-" + Hyphenated36(group.uuid)
  }

  function GroupNames(u: Unicode, group: GroupInput): Names {
    var slug := GroupBase(u, group);
    Names(slug, slug + "--" + CollisionSuffix(group.uuid), slug + "--" + group.uuid)
  }

  function MemoryBase(memory: MemoryInput): string {
    "mem-" + memory.subjectSlug + ".v" + Decimal(memory.currentVersion)
  }

  function MemoryNames(memory: MemoryInput): Names {
    var base := MemoryBase(memory);
    Names(base + ".md", base + "--" + CollisionSuffix(memory.uuid) + ".md", base + "--" + memory.uuid + ".md")
  }

  datatype Entry = Entry(uuid: Uuid, names: Names)

  /** The first of the three names not yet used up to case; None when all are. */
  function Pick(fold: char -> char, used: set<string>, names: Names): Option<string> {
    if Folded(fold, names.plain) !in used then Some(names.plain)
    else if Folded(fold, names.short) !in used then Some(names.short)
    else if Folded(fold, names.full) !in used then Some(names.full)
    else None
  }

  /** Adding a name to the set of used names, which compares up to case. */
  method Add(fold: char -> char, used: set<string>, name: string) returns (added: bool, more: set<string>)
    ensures added <==> Folded(fold, name) !in used
    ensures more == used + {Folded(fold, name)}
  {
    added := Folded(fold, name) !in used;
    more := used + {Folded(fold, name)};
  }

  /** No two fallback names of different forms agree up to case, nor do the full forms of different uuids. */
  ghost predicate Apart(fold: char -> char, a: Entry, b: Entry) {
    && Folded(fold, a.names.short) != Folded(fold, b.names.plain)
    && Folded(fold, a.names.full) != Folded(fold, b.names.plain)
    && Folded(fold, a.names.full) != Folded(fold, b.names.short)
    && (a.uuid != b.uuid ==> Folded(fold, a.names.full) != Folded(fold, b.names.full))
  }

  ghost predicate FormsApart(fold: char -> char, entries: seq<Entry>) {
    forall a, b | a in entries && b in entries :: Apart(fold, a, b)
  }

  ghost predicate DistinctUuids(entries: seq<Entry>) {
    forall i, j | 0 <= i < j < |entries| :: entries[i].uuid != entries[j].uuid
  }

  function Chosen(state: Option<State>): Option<map<Uuid, string>> {
    match state case None => None case Some(s) => Some(s.chosen)
  }

  datatype State = State(chosen: map<Uuid, string>, used: set<string>)

  /** The names picked for the entries in turn. */
  function PickAll(fold: char -> char, entries: seq<Entry>): Option<State> {
    if entries == [] then Some(State(map[], {}))
    else
      var last := entries[|entries| - 1];
      match PickAll(fold, entries[..|entries| - 1])
      case None => None
      case Some(state) =>
        match Pick(fold, state.used, last.names)
        case None => None
        case Some(name) => Some(State(state.chosen[last.uuid := name], state.used + {Folded(fold, name)}))
  }

  method PickName(fold: char -> char, used: set<string>, names: Names)
    returns (name: string, ok: bool, more: set<string>)
    ensures Pick(fold, used, names) == if ok then Some(name) else None
    ensures ok ==> more == used + {Folded(fold, name)}
  {
    name := names.plain;
    ok, more := Add(fold, used, name);
    if !ok {
      assert more == used;
      name := names.short;
      ok, more := Add(fold, more, name);
      if !ok {
        assert more == used;
        name := names.full;
        ok, more := Add(fold, more, name);
      }
    }
  }

  /** The loop both kinds of name share. None stands for the refusal to assign a name twice. */
  method Assign(fold: char -> char, entries: seq<Entry>) returns (r: Option<map<Uuid, string>>)
    ensures r == Chosen(PickAll(fold, entries))
  {
    hide Pick, Folded;
    var used: set<string> := {};
    var chosen: map<Uuid, string> := map[];
    for i := 0 to |entries|
      invariant PickAll(fold, entries[..i]) == Some(State(chosen, used))
    {
      assert entries[..i + 1][..i] == entries[..i];
      var name, ok, more := PickName(fold, used, entries[i].names);
      if !ok {
        RefusalSticks(fold, entries, i + 1);
        return None;
      }
      used := more;
      chosen := chosen[entries[i].uuid := name];
    }
    assert entries[..|entries|] == entries;
    r := Some(chosen);
  }

  lemma {:induction false} RefusalSticks(fold: char -> char, entries: seq<Entry>, k: nat)
    requires k <= |entries| && PickAll(fold, entries[..k]) == None
    ensures PickAll(fold, entries) == None
    decreases |entries| - k
  {
    if k < |entries| {
      assert entries[..k + 1][..k] == entries[..k];
      RefusalSticks(fold, entries, k + 1);
    } else {
      assert entries[..k] == entries;
    }
  }

  ghost predicate IsNameOf(entries: seq<Entry>, uuid: Uuid, name: string) {
    exists e ::
      e in entries && e.uuid == uuid && (name == e.names.plain || name == e.names.short || name == e.names.full)
  }

  /** Every uuid has one of its own three names, and no two names agree up to case. */
  ghost predicate ProperlyNamed(fold: char -> char, entries: seq<Entry>, chosen: map<Uuid, string>) {
    && (forall e | e in entries :: e.uuid in chosen)
    && (forall u | u in chosen :: IsNameOf(entries, u, chosen[u]))
    && forall u, w | u in chosen && w in chosen && u != w :: Folded(fold, chosen[u]) != Folded(fold, chosen[w])
  }

  ghost predicate Tracks(fold: char -> char, entries: seq<Entry>, state: State) {
    && ProperlyNamed(fold, entries, state.chosen)
    && (forall u | u in state.chosen :: Folded(fold, state.chosen[u]) in state.used)
    && forall f | f in state.used :: exists u :: u in state.chosen && Folded(fold, state.chosen[u]) == f
  }

  /** With distinct uuids and forms kept apart, no name is ever refused and all names differ up to case. */
  lemma {:induction false} NeverRefused(fold: char -> char, entries: seq<Entry>)
    requires FormsApart(fold, entries) && DistinctUuids(entries)
    ensures PickAll(fold, entries).Some? && Tracks(fold, entries, PickAll(fold, entries).value)
  {
    hide Folded;
    if entries != [] {
      var init, last := entries[..|entries| - 1], entries[|entries| - 1];
      assert FormsApart(fold, init) by { assert forall e | e in init :: e in entries; }
      NeverRefused(fold, init);
      var state := PickAll(fold, init).value;
      LastFullIsFree(fold, entries, state);
      var name := Pick(fold, state.used, last.names).value;
      OneMoreTracked(fold, entries, state, name);
    }
  }

  lemma NotLastFull(fold: char -> char, entries: seq<Entry>, uuid: Uuid, name: string)
    requires entries != [] && FormsApart(fold, entries) && DistinctUuids(entries)
    requires IsNameOf(entries[..|entries| - 1], uuid, name)
    ensures Folded(fold, name) != Folded(fold, entries[|entries| - 1].names.full)
  {
    hide Folded;
    var init, last := entries[..|entries| - 1], entries[|entries| - 1];
    var e :| e in init && e.uuid == uuid && (name == e.names.plain || name == e.names.short || name == e.names.full);
    assert e in entries && last in entries && e.uuid != last.uuid;
    assert Apart(fold, last, e);
  }

  lemma LastFullIsFree(fold: char -> char, entries: seq<Entry>, state: State)
    requires entries != [] && FormsApart(fold, entries) && DistinctUuids(entries)
    requires Tracks(fold, entries[..|entries| - 1], state)
    ensures Folded(fold, entries[|entries| - 1].names.full) !in state.used
  {
    hide Folded, FormsApart, DistinctUuids, IsNameOf;
    forall u | u in state.chosen
      ensures Folded(fold, state.chosen[u]) != Folded(fold, entries[|entries| - 1].names.full) {
      NotLastFull(fold, entries, u, state.chosen[u]);
    }
  }

  lemma OneMoreTracked(fold: char -> char, entries: seq<Entry>, state: State, name: string)
    requires entries != [] && DistinctUuids(entries) && Tracks(fold, entries[..|entries| - 1], state)
    requires Pick(fold, state.used, entries[|entries| - 1].names) == Some(name)
    ensures Tracks(fold, entries,
                   State(state.chosen[entries[|entries| - 1].uuid := name], state.used + {Folded(fold, name)}))
  {
    hide Folded, DistinctUuids, IsNameOf;
    var next := state.chosen[entries[|entries| - 1].uuid := name];
    NamesOfOneMore(entries, state.chosen, name, next);
    UsedByOneMore(fold, state, entries[|entries| - 1].uuid, name, next);
  }

  lemma NamesOfOneMore(entries: seq<Entry>, chosen: map<Uuid, string>, name: string, next: map<Uuid, string>)
    requires entries != [] && DistinctUuids(entries) && next == chosen[entries[|entries| - 1].uuid := name]
    requires var names := entries[|entries| - 1].names; name == names.plain || name == names.short || name == names.full
    requires forall u | u in chosen :: IsNameOf(entries[..|entries| - 1], u, chosen[u])
    requires forall e | e in entries[..|entries| - 1] :: e.uuid in chosen
    ensures entries[|entries| - 1].uuid !in chosen && forall e | e in entries :: e.uuid in next
    ensures forall u | u in next :: IsNameOf(entries, u, next[u])
  {
    var init, last := entries[..|entries| - 1], entries[|entries| - 1];
    assert last in entries && forall e | e in entries :: e in init || e == last;
    forall u | u in chosen ensures u != last.uuid && IsNameOf(entries, u, chosen[u]) {
      var e :| e in init && e.uuid == u
          && (chosen[u] == e.names.plain || chosen[u] == e.names.short || chosen[u] == e.names.full);
      assert e in entries;
    }
    assert IsNameOf(entries, last.uuid, name);
  }

  lemma UsedByOneMore(fold: char -> char, state: State, uuid: Uuid, name: string, next: map<Uuid, string>)
    requires uuid !in state.chosen && next == state.chosen[uuid := name]
    requires forall f | f in state.used :: exists u :: u in state.chosen && Folded(fold, state.chosen[u]) == f
    ensures forall f | f in state.used + {Folded(fold, name)} :: exists u :: u in next && Folded(fold, next[u]) == f
  {
    hide Folded;
    forall f | f in state.used + {Folded(fold, name)} ensures exists u :: u in next && Folded(fold, next[u]) == f {
      if f == Folded(fold, name) {
        assert next[uuid] == name;
      } else {
        var u :| u in state.chosen && Folded(fold, state.chosen[u]) == f;
        assert next[u] == state.chosen[u];
      }
    }
  }

  // ----- why the forms stay apart

  lemma ApartAt(fold: char -> char, a: string, b: string, i: int)
    requires Folds(fold)
    requires |a| == |b| ==> 0 <= i < |a| && a[i] in HEX + "-v" && b[i] in HEX + "-v" && a[i] != b[i]
    ensures Folded(fold, a) != Folded(fold, b)
  {
    if |a| == |b| {
      assert Folded(fold, a)[i] == fold(a[i]) && Folded(fold, b)[i] == fold(b[i]);
    }
  }

  /** Full names of different uuids differ, whatever stands before the uuid. */
  lemma FullsApart(fold: char -> char, x: string, a: Uuid, y: string, b: Uuid, end: string)
    requires Folds(fold) && a != b
    ensures Folded(fold, x + a + end) != Folded(fold, y + b + end)
  {
    hide Folded, Folds;
    var p, q := x + a + end, y + b + end;
    var i :| 0 <= i < 32 && a[i] != b[i];
    if |x| == |y| {
      assert p[|x| + i] == a[i] && a[i] in HEX;
      assert q[|x| + i] == b[i] && b[i] in HEX;
    }
    ApartAt(fold, p, q, |x| + i);
  }

  lemma DoubledApart(fold: char -> char, base: string, rest: string, b: string)
    requires Folds(fold) && (|b| >= |base| + 2 ==> !(b[|base|] == '-' && b[|base| + 1] == '-'))
    ensures Folded(fold, base + "--" + rest) != Folded(fold, b)
  {
    var a := base + "--" + rest;
    if |a| == |b| {
      var i := if b[|base|] == '-' then |base| + 1 else |base|;
      assert a[i] == '-' && b[i] != '-';
      assert Folded(fold, a)[i] == '-' && Folded(fold, b)[i] == fold(b[i]);
    }
  }

  lemma HyphenatedIsShaped(id: Uuid)
    ensures SlugShaped(Hyphenated36(id))
  {
    hide SlugShaped;
    HexIsShaped(id[..8]);
    HexIsShaped(id[8..12]);
    HexIsShaped(id[12..16]);
    HexIsShaped(id[16..20]);
    HexIsShaped(id[20..]);
    GluedIsSlugShaped(id[..8], id[8..12]);
    GluedIsSlugShaped(id[..8] + "-" + id[8..12], id[12..16]);
    GluedIsSlugShaped(id[..8] + "-" + id[8..12] + "-" + id[12..16], id[16..20]);
    GluedIsSlugShaped(id[..8] + "-" + id[8..12] + "-" + id[12..16] + "-" + id[16..20], id[20..]);
  }

  lemma GroupBaseIsShaped(u: Unicode, group: GroupInput)
    requires HyphenIsSeparator(u)
    ensures SlugShaped(GroupBase(u, group))
  {
    hide SlugShaped, Hyphenated36, SlugOf;
    match SubjectOrNone(u, group.currentDescriptionName) {
      case Some(_) => SlugIsShaped(u, group.currentDescriptionName.value);
      case None =>
        HyphenatedIsShaped(group.uuid);
        WordIsSlugShaped("group");
        GluedIsSlugShaped("group", Hyphenated36(group.uuid));
        assert "group-" + Hyphenated36(group.uuid) == "group" + "-" + Hyphenated36(group.uuid);
    }
  }

  lemma HexIsShaped(s: string)
    requires s != [] && IsHex(s)
    ensures SlugShaped(s)
  {
    assert '-' !in HEX;
    WordIsSlugShaped(s);
  }

  /** A folder base has no doubled hyphen, so a fallback's "--" shows where its base ends. */
  lemma GroupFormsApart(u: Unicode, fold: char -> char, g: GroupInput, h: GroupInput)
    requires HyphenIsSeparator(u) && Folds(fold)
    ensures Apart(fold, Entry(g.uuid, GroupNames(u, g)), Entry(h.uuid, GroupNames(u, h)))
  {
    GroupBaseIsShaped(u, g);
    GroupBaseIsShaped(u, h);
    var x, y := GroupBase(u, g), GroupBase(u, h);
    DoubledApart(fold, x, g.uuid, y);
    DoubledApart(fold, x, CollisionSuffix(g.uuid), y);
    var short := y + "--" + CollisionSuffix(h.uuid);
    if |short| == |x| + 34 {
      assert short[|x|] == y[|x|] && short[|x| + 1] == y[|x| + 1];
      DoubledApart(fold, x, g.uuid, short);
    } else {
      ApartAt(fold, x + "--" + g.uuid, short, 0);
    }
    if g.uuid != h.uuid {
      FullsApart(fold, x + "--", g.uuid, y + "--", h.uuid, "");
      assert x + "--" + g.uuid + "" == x + "--" + g.uuid && y + "--" + h.uuid + "" == y + "--" + h.uuid;
    }
  }

  lemma SuffixIsNoVersion(fold: char -> char, base: string, suffix: string, front: string, sign: string, digits: string)
    requires Folds(fold) && IsHex(suffix) && suffix != [] && IsHex(digits) && digits != []
             && (sign == "" || sign == "-")
    ensures Folded(fold, base + "--" + suffix + ".md") != Folded(fold, front + "v" + sign + digits + ".md")
  {
    var a, b, n, k := base + "--" + suffix + ".md", front + "v" + sign + digits + ".md", |suffix|, |digits|;
    var end := |a| - 4;
    if |a| != |b| {
      ApartAt(fold, a, b, 0);
    } else if k < n {
      assert b[end - k] == (if sign == "" then 'v' else '-') && a[end - k] == suffix[n - 1 - k];
      ApartAt(fold, a, b, end - k);
    } else if k > n {
      assert b[end - n] == digits[k - 1 - n] && a[end - n] == '-';
      ApartAt(fold, a, b, end - n);
    } else {
      var i := end - n - |sign|;
      assert b[i] == 'v' && a[i] == '-';
      ApartAt(fold, a, b, i);
    }
  }

  /** A file name ending in "--" and digits of a uuid is never one ending in a version number. */
  lemma SuffixedIsNotPlain(fold: char -> char, base: string, suffix: string, m: MemoryInput)
    requires Folds(fold) && IsHex(suffix) && suffix != []
    ensures Folded(fold, base + "--" + suffix + ".md") != Folded(fold, MemoryBase(m) + ".md")
  {
    hide Folded, Folds, Digits;
    var v := m.currentVersion;
    var digits, front, sign := Digits(if v < 0 then -v else v), "mem-" + m.subjectSlug + ".", if v < 0 then "-" else "";
    SuffixIsNoVersion(fold, base, suffix, front, sign, digits);
    assert MemoryBase(m) == front + "v" + sign + digits;
  }

  lemma LongerSuffixApart(fold: char -> char, x: string, long: string, y: string, short: string)
    requires Folds(fold) && IsHex(long) && |short| < |long|
    ensures Folded(fold, x + "--" + long + ".md") != Folded(fold, y + "--" + short + ".md")
  {
    var a, b := x + "--" + long + ".md", y + "--" + short + ".md";
    var i := |a| - 4 - |short|;
    assert |a| == |b| ==> a[i] == long[|long| - 1 - |short|] && b[i] == '-';
    ApartAt(fold, a, b, i);
  }

  /** The three file forms stay apart for slugs of any shape, as the last characters tell them apart. */
  lemma MemoryFormsApart(fold: char -> char, m: MemoryInput, w: MemoryInput)
    requires Folds(fold)
    ensures Apart(fold, Entry(m.uuid, MemoryNames(m)), Entry(w.uuid, MemoryNames(w)))
  {
    hide Folded, MemoryBase;
    var x, y := MemoryBase(m), MemoryBase(w);
    SuffixedIsNotPlain(fold, x, m.uuid, w);
    SuffixedIsNotPlain(fold, x, CollisionSuffix(m.uuid), w);
    LongerSuffixApart(fold, x, m.uuid, y, CollisionSuffix(w.uuid));
    if m.uuid != w.uuid { FullsApart(fold, x + "--", m.uuid, y + "--", w.uuid, ".md"); }
  }

  // ----- the two assignments

  /** Ordinal comparison. */
  predicate Before(a: string, b: string) {
    b != [] && (a == [] || a[0] < b[0] || (a[0] == b[0] && Before(a[1..], b[1..])))
  }

  lemma {:induction false} BeforeIsStrict(a: string, b: string, c: string)
    ensures !Before(a, a)
    ensures Before(a, b) && Before(b, c) ==> Before(a, c)
    ensures a == b || Before(a, b) || Before(b, a)
  {
    if a != [] && b != [] {
      BeforeIsStrict(a[1..], b[1..], if c == [] then [] else c[1..]);
      assert a == [a[0]] + a[1..] && b == [b[0]] + b[1..];
    } else if a != [] {
      BeforeIsStrict(a[1..], [], []);
    }
  }

  predicate GroupBefore(a: GroupInput, b: GroupInput) {
    Before(a.uuid, b.uuid)
  }

  predicate MemoryBefore(a: MemoryInput, b: MemoryInput) {
    Before(a.subjectSlug, b.subjectSlug) || (a.subjectSlug == b.subjectSlug && Before(a.uuid, b.uuid))
  }

  function GroupEntries(u: Unicode, groups: seq<GroupInput>): seq<Entry> {
    seq(|groups|, i requires 0 <= i < |groups| => Entry(groups[i].uuid, GroupNames(u, groups[i])))
  }

  function MemoryEntries(memories: seq<MemoryInput>): seq<Entry> {
    seq(|memories|, i requires 0 <= i < |memories| => Entry(memories[i].uuid, MemoryNames(memories[i])))
  }

  /** The folder of each group; the result is the same whatever order the groups arrive in. */
  function GroupFolders(u: Unicode, fold: char -> char, groups: seq<GroupInput>): Option<map<Uuid, string>> {
    Chosen(PickAll(fold, GroupEntries(u, Sort(GroupBefore, groups))))
  }

  function MemoryFiles(fold: char -> char, memories: seq<MemoryInput>): Option<map<Uuid, string>> {
    Chosen(PickAll(fold, MemoryEntries(Sort(MemoryBefore, memories))))
  }

  method AssignGroupFolders(u: Unicode, fold: char -> char, groups: seq<GroupInput>)
    returns (r: Option<map<Uuid, string>>)
    ensures r == GroupFolders(u, fold, groups)
  {
    r := Assign(fold, GroupEntries(u, Sort(GroupBefore, groups)));
  }

  method AssignMemoryFiles(fold: char -> char, memories: seq<MemoryInput>) returns (r: Option<map<Uuid, string>>)
    ensures r == MemoryFiles(fold, memories)
  {
    r := Assign(fold, MemoryEntries(Sort(MemoryBefore, memories)));
  }

  function GroupUuid(g: GroupInput): Uuid {
    g.uuid
  }

  function MemoryUuid(m: MemoryInput): Uuid {
    m.uuid
  }

  lemma GroupsSeparated(groups: seq<GroupInput>)
    requires DistinctBy(GroupUuid, groups)
    ensures Separates(GroupBefore, groups)
  {
    hide Before;
    forall a: GroupInput, b: GroupInput, c: GroupInput
      ensures !GroupBefore(a, a) && (GroupBefore(a, b) && GroupBefore(b, c) ==> GroupBefore(a, c))
    {
      BeforeIsStrict(a.uuid, b.uuid, c.uuid);
    }
    forall a, b | a in groups && b in groups && a != b ensures GroupBefore(a, b) || GroupBefore(b, a) {
      BeforeIsStrict(a.uuid, b.uuid, b.uuid);
      assert GroupUuid(a) != GroupUuid(b);
    }
  }

  lemma MemoriesSeparated(memories: seq<MemoryInput>)
    requires DistinctBy(MemoryUuid, memories)
    ensures Separates(MemoryBefore, memories)
  {
    hide Before;
    forall a: MemoryInput, b: MemoryInput, c: MemoryInput
      ensures !MemoryBefore(a, a) && (MemoryBefore(a, b) && MemoryBefore(b, c) ==> MemoryBefore(a, c))
    {
      BeforeIsStrict(a.uuid, b.uuid, c.uuid);
      BeforeIsStrict(a.subjectSlug, b.subjectSlug, c.subjectSlug);
      BeforeIsStrict(b.subjectSlug, c.subjectSlug, c.subjectSlug);
    }
    forall a, b | a in memories && b in memories && a != b ensures MemoryBefore(a, b) || MemoryBefore(b, a) {
      BeforeIsStrict(a.uuid, b.uuid, b.uuid);
      BeforeIsStrict(a.subjectSlug, b.subjectSlug, b.subjectSlug);
      assert MemoryUuid(a) != MemoryUuid(b);
    }
  }

  lemma SameNaming(fold: char -> char, a: seq<Entry>, b: seq<Entry>, chosen: map<Uuid, string>)
    requires ProperlyNamed(fold, a, chosen) && forall e :: e in a <==> e in b
    ensures ProperlyNamed(fold, b, chosen)
  {
    hide Folded;
  }

  lemma SameGroupEntries(u: Unicode, a: seq<GroupInput>, b: seq<GroupInput>)
    requires multiset(a) == multiset(b)
    ensures forall e :: e in GroupEntries(u, a) <==> e in GroupEntries(u, b)
  {
    hide GroupNames;
    SameElements(a, b);
    forall g | g in a ensures Entry(g.uuid, GroupNames(u, g)) in GroupEntries(u, b) {
      var i :| 0 <= i < |b| && b[i] == g;
      assert GroupEntries(u, b)[i] == Entry(g.uuid, GroupNames(u, g));
    }
    forall g | g in b ensures Entry(g.uuid, GroupNames(u, g)) in GroupEntries(u, a) {
      var i :| 0 <= i < |a| && a[i] == g;
      assert GroupEntries(u, a)[i] == Entry(g.uuid, GroupNames(u, g));
    }
  }

  lemma SameMemoryEntries(a: seq<MemoryInput>, b: seq<MemoryInput>)
    requires multiset(a) == multiset(b)
    ensures forall e :: e in MemoryEntries(a) <==> e in MemoryEntries(b)
  {
    hide MemoryNames;
    SameElements(a, b);
    forall m | m in a ensures Entry(m.uuid, MemoryNames(m)) in MemoryEntries(b) {
      var i :| 0 <= i < |b| && b[i] == m;
      assert MemoryEntries(b)[i] == Entry(m.uuid, MemoryNames(m));
    }
    forall m | m in b ensures Entry(m.uuid, MemoryNames(m)) in MemoryEntries(a) {
      var i :| 0 <= i < |a| && a[i] == m;
      assert MemoryEntries(a)[i] == Entry(m.uuid, MemoryNames(m));
    }
  }

  /**
   Groups with distinct uuids always get folders, all different up to case, and the same ones in any arrival order.
   */
  lemma GroupFoldersAreDistinct(u: Unicode, fold: char -> char, groups: seq<GroupInput>, others: seq<GroupInput>)
    requires HyphenIsSeparator(u) && Folds(fold) && DistinctBy(GroupUuid, groups)
             && multiset(others) == multiset(groups)
    ensures var r := GroupFolders(u, fold, groups); r.Some? && ProperlyNamed(fold, GroupEntries(u, groups), r.value)
    ensures GroupFolders(u, fold, others) == GroupFolders(u, fold, groups)
  {
    hide GroupNames, Folded, PickAll;
    var sorted := Sort(GroupBefore, groups);
    PermutationKeepsDistinct(GroupUuid, groups, sorted);
    var entries := GroupEntries(u, sorted);
    assert DistinctUuids(entries) by {
      forall i, j | 0 <= i < j < |entries| ensures entries[i].uuid != entries[j].uuid {
        assert GroupUuid(sorted[i]) != GroupUuid(sorted[j]);
      }
    }
    forall a, b | a in entries && b in entries ensures Apart(fold, a, b) {
      var i :| 0 <= i < |entries| && entries[i] == a;
      var j :| 0 <= j < |entries| && entries[j] == b;
      GroupFormsApart(u, fold, sorted[i], sorted[j]);
    }
    NeverRefused(fold, entries);
    SameGroupEntries(u, sorted, groups);
    SameNaming(fold, entries, GroupEntries(u, groups), PickAll(fold, entries).value.chosen);
    GroupsSeparated(groups);
    ArrivalOrderDoesNotMatter(GroupBefore, groups, others);
  }

  lemma MemoryFilesAreDistinct(fold: char -> char, memories: seq<MemoryInput>, others: seq<MemoryInput>)
    requires Folds(fold) && DistinctBy(MemoryUuid, memories) && multiset(others) == multiset(memories)
    ensures var r := MemoryFiles(fold, memories); r.Some? && ProperlyNamed(fold, MemoryEntries(memories), r.value)
    ensures MemoryFiles(fold, others) == MemoryFiles(fold, memories)
  {
    hide MemoryNames, Folded, PickAll;
    var sorted := Sort(MemoryBefore, memories);
    PermutationKeepsDistinct(MemoryUuid, memories, sorted);
    var entries := MemoryEntries(sorted);
    assert DistinctUuids(entries) by {
      forall i, j | 0 <= i < j < |entries| ensures entries[i].uuid != entries[j].uuid {
        assert MemoryUuid(sorted[i]) != MemoryUuid(sorted[j]);
      }
    }
    forall a, b | a in entries && b in entries ensures Apart(fold, a, b) {
      var i :| 0 <= i < |entries| && entries[i] == a;
      var j :| 0 <= j < |entries| && entries[j] == b;
      MemoryFormsApart(fold, sorted[i], sorted[j]);
    }
    NeverRefused(fold, entries);
    SameMemoryEntries(sorted, memories);
    SameNaming(fold, entries, MemoryEntries(memories), PickAll(fold, entries).value.chosen);
    MemoriesSeparated(memories);
    ArrivalOrderDoesNotMatter(MemoryBefore, memories, others);
  }

  // ----- which name, and what it is made of

  ghost predicate TakenBefore(fold: char -> char, entries: seq<Entry>, chosen: map<Uuid, string>, i: nat, name: string)
    requires i <= |entries|
  {
    exists j :: 0 <= j < i && entries[j].uuid in chosen && Folded(fold, chosen[entries[j].uuid]) == Folded(fold, name)
  }

  /**
   The i-th entry has its plain name unless an earlier one took it up to case, then its short one, then its full
   one.
   */
  ghost predicate PrefersPlain(fold: char -> char, entries: seq<Entry>, chosen: map<Uuid, string>, i: nat)
    requires i < |entries|
  {
    var names := entries[i].names;
    && entries[i].uuid in chosen
    && chosen[entries[i].uuid]
       == if !TakenBefore(fold, entries, chosen, i, names.plain) then names.plain
          else if !TakenBefore(fold, entries, chosen, i, names.short) then names.short else names.full
  }

  /** Later entries change no earlier choice. */
  lemma {:induction false} ChoicesStay(fold: char -> char, entries: seq<Entry>, k: nat)
    requires DistinctUuids(entries) && PickAll(fold, entries).Some? && k <= |entries|
    ensures PickAll(fold, entries[..k]).Some?
    ensures forall j | 0 <= j < k :: entries[j].uuid in PickAll(fold, entries[..k]).value.chosen
              && entries[j].uuid in PickAll(fold, entries).value.chosen
              && PickAll(fold, entries).value.chosen[entries[j].uuid]
                 == PickAll(fold, entries[..k]).value.chosen[entries[j].uuid]
    decreases |entries|
  {
    hide Folded, Pick;
    AllChosen(fold, entries);
    if k == |entries| {
      assert entries[..k] == entries;
    } else {
      var init := entries[..|entries| - 1];
      ChoicesStay(fold, init, k);
      assert init[..k] == entries[..k];
      assert forall j | 0 <= j < k :: init[j].uuid == entries[j].uuid != entries[|entries| - 1].uuid;
    }
  }

  lemma {:induction false} AllChosen(fold: char -> char, entries: seq<Entry>)
    requires PickAll(fold, entries).Some?
    ensures forall j | 0 <= j < |entries| :: entries[j].uuid in PickAll(fold, entries).value.chosen
  {
    hide Folded, Pick;
    if entries != [] {
      var init := entries[..|entries| - 1];
      AllChosen(fold, init);
      assert forall j | 0 <= j < |entries| - 1 :: init[j].uuid == entries[j].uuid;
    }
  }

  lemma UsedIsTaken(fold: char -> char, entries: seq<Entry>, chosen: map<Uuid, string>, i: nat, state: State,
                    name: string)
    requires i <= |entries| && Tracks(fold, entries[..i], state)
    requires forall j | 0 <= j < i :: entries[j].uuid in chosen && entries[j].uuid in state.chosen
                                      && chosen[entries[j].uuid] == state.chosen[entries[j].uuid]
    ensures Folded(fold, name) in state.used <==> TakenBefore(fold, entries, chosen, i, name)
  {
    hide Folded;
    if Folded(fold, name) in state.used {
      var u :| u in state.chosen && Folded(fold, state.chosen[u]) == Folded(fold, name);
      assert IsNameOf(entries[..i], u, state.chosen[u]);
      var e :| e in entries[..i] && e.uuid == u;
      var j :| 0 <= j < i && entries[..i][j] == e;
      assert entries[j].uuid == u;
    }
  }

  lemma PrefixIsApart(fold: char -> char, entries: seq<Entry>, i: nat)
    requires FormsApart(fold, entries) && DistinctUuids(entries) && i <= |entries|
    ensures FormsApart(fold, entries[..i]) && DistinctUuids(entries[..i])
  {
    assert forall e | e in entries[..i] :: e in entries;
  }

  /** Names are no longer than they need be: the plain one, unless an earlier name agrees with it up to case. */
  lemma PlainIsPreferred(fold: char -> char, entries: seq<Entry>, i: nat)
    requires FormsApart(fold, entries) && DistinctUuids(entries) && i < |entries|
    ensures PickAll(fold, entries).Some? && PrefersPlain(fold, entries, PickAll(fold, entries).value.chosen, i)
  {
    hide Folded, FormsApart, DistinctUuids, Tracks, TakenBefore;
    NeverRefused(fold, entries);
    PrefixIsApart(fold, entries, i);
    NeverRefused(fold, entries[..i]);
    ChoicesStay(fold, entries, i);
    ChoicesStay(fold, entries, i + 1);
    assert entries[..i + 1][..i] == entries[..i];
    var state, chosen, names := PickAll(fold, entries[..i]).value, PickAll(fold, entries).value.chosen,
        entries[i].names;
    UsedIsTaken(fold, entries, chosen, i, state, names.plain);
    UsedIsTaken(fold, entries, chosen, i, state, names.short);
  }

  /** The number a run of decimal digits stands for. */
  function Value(s: string): nat {
    if s == [] then 0
    else Value(s[..|s| - 1]) * 10 + if '0' <= s[|s| - 1] <= '9' then s[|s| - 1] as int - '0' as int else 0
  }

  lemma DigitAt(d: nat)
    requires d < 10
    ensures '0' <= HEX[d] <= '9' && HEX[d] as int - '0' as int == d
  {
  }

  lemma ValueOfOneMore(s: string, c: char)
    requires '0' <= c <= '9'
    ensures Value(s + [c]) == Value(s) * 10 + (c as int - '0' as int)
  {
    assert (s + [c])[..|s|] == s;
  }

  lemma {:induction false} DigitsReadBack(n: nat)
    ensures Value(Digits(n)) == n && forall c | c in Digits(n) :: '0' <= c <= '9'
  {
    hide Value;
    DigitAt(n % 10);
    if n < 10 {
      ValueOfOneMore([], HEX[n]);
      NoDigits();
      assert [] + [HEX[n]] == [HEX[n]];
    } else {
      DigitsReadBack(n / 10);
      ValueOfOneMore(Digits(n / 10), HEX[n % 10]);
    }
  }

  lemma NoDigits()
    ensures Value([]) == 0
  {
  }

  /**
   The folder names of a group: the slug of its name, or the hyphenated uuid; then with 8 and with 32 digits of the
   uuid.
   */
  lemma GroupNamesSpelled(u: Unicode, group: GroupInput)
    ensures var names, id := GroupNames(u, group), group.uuid;
            && (group.currentDescriptionName.Some? && SubjectOrNone(u, group.currentDescriptionName).Some? ==>
                  Some(names.plain) == SlugOf(u, group.currentDescriptionName.value))
            && (SubjectOrNone(u, group.currentDescriptionName).None? ==>
                  names.plain == "group-" + id[..8] + "-" + id[8..12] + "-" + id[12..16] + "-" + id[16..20] + "-"
                    + id[20..32])
            && names.short == names.plain + "--" + id[0..8] && names.full == names.plain + "--" + id
  {
  }

  /** The file names of a memory: its subject and version, the same with 8 digits of its uuid, and with all 32. */
  lemma MemoryNamesSpelled(memory: MemoryInput)
    ensures var names, id := MemoryNames(memory), memory.uuid;
            var base := "mem-" + memory.subjectSlug + ".v" + Decimal(memory.currentVersion);
            names.plain == base + ".md" && names.short == base + "--" + id[0..8] + ".md"
              && names.full == base + "--" + id + ".md"
    ensures memory.currentVersion >= 0 ==> Value(Decimal(memory.currentVersion)) == memory.currentVersion
    ensures memory.currentVersion < 0 ==>
              |Decimal(memory.currentVersion)| > 0 && Decimal(memory.currentVersion)[0] == '-'
              && Value(Decimal(memory.currentVersion)[1..]) == -memory.currentVersion
  {
    DigitsReadBack(if memory.currentVersion < 0 then -memory.currentVersion else memory.currentVersion);
  }
}
