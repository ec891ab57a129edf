/**
 Turning a selection into a bundle: the versions of the selected memories are gathered, read, ordered, collapsed
 where their bodies are the same text, and cut at the cap. Whatever is not an item is accounted for as an omission.
 */
module DossierBundles {
  import opened Common
  import opened Sorting

  datatype Row = Row(uuid: int, version: int, current: bool, validFrom: int, validUntil: Option<int>, createdOn: int,
                     blobAddress: Option<string>)

  datatype BlobRead = Text(text: string) | Binary | Damaged

  datatype Body = NoBody | Missing | Inlined(text: string) | NonText

  datatype Item = Item(row: Row, body: Body)

  datatype Reason = UnreadableBody | CollapsedIntoAnotherClaim | CapReached

  datatype Omission = Omission(uuid: int, version: int, reason: Reason)

  datatype Request = Request(includeHistory: bool, asOf: Option<int>)

  /** The identity of a version. */
  type Key = (int, int)

  function RowKey(r: Row): Key {
    (r.uuid, r.version)
  }

  function ItemKey(i: Item): Key {
    RowKey(i.row)
  }

  function OmissionKey(o: Omission): Key {
    (o.uuid, o.version)
  }

  function Hydrate(blobs: string -> Option<BlobRead>, row: Row): Body {
    if row.blobAddress == None || Blank(row.blobAddress.value) then NoBody
    else match blobs(row.blobAddress.value)
      case Some(Text(text)) => Inlined(text)
      case Some(Binary) => NonText
      case _ => Missing
  }

  /** History only on request, and nothing outside the validity window asked for. */
  predicate Wanted(q: Request, row: Row) {
    (q.includeHistory || row.current)
    && (q.asOf.Some? ==>
        row.validFrom <= q.asOf.value && !(row.validUntil.Some? && row.validUntil.value <= q.asOf.value))
  }

  predicate VersionBefore(a: Row, b: Row) {
    a.version < b.version
  }

  /** Business-time validity, capture time, identity, version. */
  predicate ItemBefore(a: Item, b: Item) {
    var x, y := a.row, b.row;
    if x.validFrom != y.validFrom then x.validFrom < y.validFrom
    else if x.createdOn != y.createdOn then x.createdOn < y.createdOn
    else if x.uuid != y.uuid then x.uuid < y.uuid
    else x.version < y.version
  }

  // ----- gathering

  function Filter<T>(keep: T -> bool, s: seq<T>): seq<T> {
    if s == [] then []
    else
      var kept, last := Filter(keep, s[..|s| - 1]), s[|s| - 1];
      if keep(last) then kept + [last] else kept
  }

  function OfMemory(uuid: int): Row -> bool {
    (r: Row) => r.uuid == uuid
  }

  function WantedBy(q: Request): Row -> bool {
    (r: Row) => Wanted(q, r)
  }

  /** The rows considered, memory by memory in the order selected, each memory's by version. */
  function Gathered(q: Request, rows: seq<Row>, selected: seq<int>): seq<Row> {
    if selected == [] then []
    else Gathered(q, rows, selected[..|selected| - 1])
         + Filter(WantedBy(q), Sort(VersionBefore, Filter(OfMemory(selected[|selected| - 1]), rows)))
  }

  function Read(blobs: string -> Option<BlobRead>, rows: seq<Row>): seq<Item> {
    seq(|rows|, i requires 0 <= i < |rows| => Item(rows[i], Hydrate(blobs, rows[i])))
  }

  predicate CanBeRead(i: Item) {
    i.body != NonText
  }

  function Readable(items: seq<Item>): seq<Item> {
    Filter(CanBeRead, items)
  }

  function Unreadable(items: seq<Item>): seq<Omission> {
    if items == [] then []
    else
      var before, last := Unreadable(items[..|items| - 1]), items[|items| - 1];
      if last.body == NonText then before + [Omit(last, UnreadableBody)] else before
  }

  function Omit(i: Item, reason: Reason): Omission {
    Omission(i.row.uuid, i.row.version, reason)
  }

  lemma ReadOneMore(blobs: string -> Option<BlobRead>, q: Request, versions: seq<Row>, i: nat)
    requires i < |versions|
    ensures var before, after := Read(blobs, Filter(WantedBy(q), versions[..i])),
            Read(blobs, Filter(WantedBy(q), versions[..i + 1]));
            var item := Item(versions[i], Hydrate(blobs, versions[i]));
            if !Wanted(q, versions[i]) then after == before
            else if item.body == NonText
              then Readable(after) == Readable(before)
                   && Unreadable(after) == Unreadable(before) + [Omit(item, UnreadableBody)]
            else Readable(after) == Readable(before) + [item] && Unreadable(after) == Unreadable(before)
  {
    assert versions[..i + 1][..i] == versions[..i];
    var before, after := Read(blobs, Filter(WantedBy(q), versions[..i])),
        Read(blobs, Filter(WantedBy(q), versions[..i + 1]));
    if Wanted(q, versions[i]) { assert after[..|after| - 1] == before; }
  }

  /** One memory's versions, each becoming an item or an omission. */
  method GatherMemory(blobs: string -> Option<BlobRead>, q: Request, versions: seq<Row>)
    returns (items: seq<Item>, omitted: seq<Omission>)
    ensures items == Readable(Read(blobs, Filter(WantedBy(q), versions)))
    ensures omitted == Unreadable(Read(blobs, Filter(WantedBy(q), versions)))
  {
    hide Readable, Unreadable, Filter, Read, Hydrate;
    items, omitted := [], [];
    NothingRead(blobs, q, versions);
    for i := 0 to |versions|
      invariant items == Readable(Read(blobs, Filter(WantedBy(q), versions[..i])))
      invariant omitted == Unreadable(Read(blobs, Filter(WantedBy(q), versions[..i])))
    {
      var row := versions[i];
      ReadOneMore(blobs, q, versions, i);
      if !q.includeHistory && !row.current {
        continue;
      }
      if q.asOf.Some?
         && (row.validFrom > q.asOf.value || (row.validUntil.Some? && row.validUntil.value <= q.asOf.value)) {
        continue;
      }
      var item := Item(row, Hydrate(blobs, row));
      if item.body == NonText {
        omitted := omitted + [Omit(item, UnreadableBody)];
      } else {
        items := items + [item];
      }
    }
  }

  lemma {:induction false} ReadableAppends(a: seq<Item>, b: seq<Item>)
    ensures Readable(a + b) == Readable(a) + Readable(b) && Unreadable(a + b) == Unreadable(a) + Unreadable(b)
  {
    if b == [] {
      assert a + b == a;
    } else {
      ReadableAppends(a, b[..|b| - 1]);
      assert (a + b)[..|a + b| - 1] == a + b[..|b| - 1];
    }
  }

  lemma OneMoreMemory(blobs: string -> Option<BlobRead>, q: Request, rows: seq<Row>, selected: seq<int>, k: nat)
    requires k < |selected|
    ensures var before, after := Read(blobs, Gathered(q, rows, selected[..k])),
            Read(blobs, Gathered(q, rows, selected[..k + 1]));
            var more := Read(blobs, Filter(WantedBy(q), Sort(VersionBefore, Filter(OfMemory(selected[k]), rows))));
            Readable(after) == Readable(before) + Readable(more)
              && Unreadable(after) == Unreadable(before) + Unreadable(more)
  {
    hide Readable, Unreadable, Filter, Hydrate;
    assert selected[..k + 1][..k] == selected[..k];
    var before, more := Gathered(q, rows, selected[..k]),
        Filter(WantedBy(q), Sort(VersionBefore, Filter(OfMemory(selected[k]), rows)));
    assert Read(blobs, before + more) == Read(blobs, before) + Read(blobs, more);
    ReadableAppends(Read(blobs, before), Read(blobs, more));
  }

  method Gather(blobs: string -> Option<BlobRead>, q: Request, rows: seq<Row>, selected: seq<int>)
    returns (items: seq<Item>, omitted: seq<Omission>)
    ensures items == Readable(Read(blobs, Gathered(q, rows, selected)))
    ensures omitted == Unreadable(Read(blobs, Gathered(q, rows, selected)))
  {
    hide Readable, Unreadable, Filter, Read, Gathered;
    items, omitted := [], [];
    NothingRead(blobs, q, []);
    NothingBundled(blobs, q, rows);
    assert selected[..0] == [];
    for k := 0 to |selected|
      invariant items == Readable(Read(blobs, Gathered(q, rows, selected[..k])))
      invariant omitted == Unreadable(Read(blobs, Gathered(q, rows, selected[..k])))
    {
      OneMoreMemory(blobs, q, rows, selected, k);
      var moreItems, moreOmitted := GatherMemory(blobs, q, Sort(VersionBefore, Filter(OfMemory(selected[k]), rows)));
      items, omitted := items + moreItems, omitted + moreOmitted;
    }
    assert selected[..|selected|] == selected;
  }

  lemma NothingRead(blobs: string -> Option<BlobRead>, q: Request, versions: seq<Row>)
    ensures Readable(Read(blobs, [])) == [] && Unreadable(Read(blobs, [])) == []
    ensures Filter(WantedBy(q), versions[..0]) == [] && versions[..|versions|] == versions
  {
  }

  // ----- collapsing

  /** No earlier item has the same inlined text. */
  predicate FirstOfItsBody(items: seq<Item>, i: nat)
    requires i < |items|
  {
    items[i].body.Inlined? ==> forall j | 0 <= j < i :: items[j].body != items[i].body
  }

  /** The items that are the first of their body. */
  function Kept(items: seq<Item>): seq<Item> {
    if items == [] then []
    else
      var before, last := Kept(items[..|items| - 1]), items[|items| - 1];
      if FirstOfItsBody(items, |items| - 1) then before + [last] else before
  }

  function Collapsed(items: seq<Item>): seq<Omission> {
    if items == [] then []
    else
      var before, last := Collapsed(items[..|items| - 1]), items[|items| - 1];
      if FirstOfItsBody(items, |items| - 1) then before else before + [Omit(last, CollapsedIntoAnotherClaim)]
  }

  method CollapseSameBlob(items: seq<Item>, omitted: seq<Omission>) returns (kept: seq<Item>, allOmitted: seq<Omission>)
    ensures kept == Kept(items) && allOmitted == omitted + Collapsed(items)
  {
    var seen: set<string> := {};
    kept, allOmitted := [], omitted;
    for i := 0 to |items|
      invariant kept == Kept(items[..i]) && allOmitted == omitted + Collapsed(items[..i])
      invariant forall t :: t in seen <==> exists j :: 0 <= j < i && items[j].body == Inlined(t)
    {
      var item := items[i];
      assert items[..i + 1][..i] == items[..i];
      assert FirstOfItsBody(items[..i + 1], i) <==> (item.body.Inlined? ==> item.body.text !in seen);
      if !item.body.Inlined? {
        kept := kept + [item];
      } else if item.body.text in seen {
        allOmitted := allOmitted + [Omit(item, CollapsedIntoAnotherClaim)];
      } else {
        seen := seen + {item.body.text};
        kept := kept + [item];
      }
    }
    assert items[..|items|] == items;
  }

  function CutOff(items: seq<Item>, limit: nat): seq<Omission> {
    if |items| <= limit then []
    else seq(|items| - limit, i requires 0 <= i < |items| - limit => Omit(items[limit + i], CapReached))
  }

  function Within(items: seq<Item>, limit: nat): seq<Item> {
    if |items| <= limit then items else items[..limit]
  }

  datatype Bundle = Bundle(items: seq<Item>, omitted: seq<Omission>)

  function BundleOf(blobs: string -> Option<BlobRead>, q: Request, rows: seq<Row>, selected: seq<int>,
                    limit: nat): Bundle {
    var read := Read(blobs, Gathered(q, rows, selected));
    var ordered := Sort(ItemBefore, Readable(read));
    Bundle(Within(Kept(ordered), limit), Unreadable(read) + Collapsed(ordered) + CutOff(Kept(ordered), limit))
  }

  lemma NothingBundled(blobs: string -> Option<BlobRead>, q: Request, rows: seq<Row>)
    ensures Gathered(q, rows, []) == [] && Readable(Read(blobs, [])) == [] && Unreadable(Read(blobs, [])) == []
    ensures Kept([]) == [] && Collapsed([]) == []
  {
  }

  /** An empty selection gives an empty bundle; otherwise gather, order, collapse and cut. */
  method CreateBundle(blobs: string -> Option<BlobRead>, q: Request, rows: seq<Row>, selected: seq<int>, limit: nat)
    returns (b: Bundle)
    ensures b == BundleOf(blobs, q, rows, selected, limit)
  {
    hide Gathered, Read, Readable, Unreadable, Kept, Collapsed;
    if selected == [] {
      NothingBundled(blobs, q, rows);
      return Bundle([], []);
    }
    var items, omitted := Gather(blobs, q, rows, selected);
    items := Sort(ItemBefore, items);
    items, omitted := CollapseSameBlob(items, omitted);
    if |items| > limit {
      var cut := items[limit..];
      var cutOff := seq(|cut|, i requires 0 <= i < |cut| => Omit(cut[i], CapReached));
      assert cutOff == CutOff(items, limit);
      omitted := omitted + cutOff;
      items := items[..limit];
    }
    b := Bundle(items, omitted);
  }

  // ----- what is wanted, and what is read

  /** The validity window is half open: from the start on, and before the end. */
  lemma WantedOnColumns(q: Request, row: Row)
    ensures Wanted(q, row) <==>
            && (!row.current ==> q.includeHistory)
            && forall t | q.asOf == Some(t) :: row.validFrom <= t && forall end | row.validUntil == Some(end) :: t < end
  {
  }

  /** What each answer of the blob store makes of a version. */
  lemma BodyOfBlob(blobs: string -> Option<BlobRead>, row: Row, address: string)
    ensures row.blobAddress == None ==> Hydrate(blobs, row) == NoBody
    ensures row.blobAddress == Some(address) && (forall i | 0 <= i < |address| :: IsSpace(address[i])) ==>
            Hydrate(blobs, row) == NoBody
    ensures row.blobAddress == Some(address) && (exists i :: 0 <= i < |address| && !IsSpace(address[i])) ==>
              && (forall text :: blobs(address) == Some(Text(text)) <==> Hydrate(blobs, row) == Inlined(text))
              && (blobs(address) == Some(Binary) <==> Hydrate(blobs, row) == NonText)
              && (blobs(address) == None || blobs(address) == Some(Damaged) <==> Hydrate(blobs, row) == Missing)
  {
  }

  /** An item's body is what the blob store holds at its row's address. */
  lemma {:induction false} ReadableAreHydrated(blobs: string -> Option<BlobRead>, rows: seq<Row>)
    ensures forall i | i in Readable(Read(blobs, rows)) :: i.row in rows && i.body == Hydrate(blobs, i.row)
  {
    if rows != [] {
      var init := rows[..|rows| - 1];
      ReadableAreHydrated(blobs, init);
      assert Read(blobs, rows)[..|rows| - 1] == Read(blobs, init);
    }
  }

  // ----- every eligible version is an item or an omission, once

  /** The version rows the bundle answers for. */
  function Eligible(q: Request, rows: seq<Row>, selected: seq<int>): seq<Row> {
    Filter((r: Row) => r.uuid in selected && Wanted(q, r), rows)
  }

  lemma {:induction false} FilterCount<T(!new)>(keep: T -> bool, s: seq<T>, x: T)
    ensures multiset(Filter(keep, s))[x] == if keep(x) then multiset(s)[x] else 0
  {
    if s != [] {
      FilterCount(keep, s[..|s| - 1], x);
      assert s == s[..|s| - 1] + [s[|s| - 1]];
    }
  }

  lemma {:induction false} GatheredCount(q: Request, rows: seq<Row>, selected: seq<int>, x: Row)
    requires NoRepeats(selected)
    ensures multiset(Gathered(q, rows, selected))[x]
            == if x.uuid in selected && Wanted(q, x) then multiset(rows)[x] else 0
  {
    if selected != [] {
      var init, last := selected[..|selected| - 1], selected[|selected| - 1];
      GatheredCount(q, rows, init, x);
      var versions := Sort(VersionBefore, Filter(OfMemory(last), rows));
      FilterCount(OfMemory(last), rows, x);
      FilterCount(WantedBy(q), versions, x);
      assert multiset(versions)[x] == multiset(Filter(OfMemory(last), rows))[x];
      assert selected == init + [last] && last !in init;
    }
  }

  lemma GatheredIsEligible(q: Request, rows: seq<Row>, selected: seq<int>)
    requires NoRepeats(selected)
    ensures multiset(Gathered(q, rows, selected)) == multiset(Eligible(q, rows, selected))
  {
    forall x ensures multiset(Gathered(q, rows, selected))[x] == multiset(Eligible(q, rows, selected))[x] {
      GatheredCount(q, rows, selected, x);
      FilterCount((r: Row) => r.uuid in selected && Wanted(q, r), rows, x);
    }
  }

  lemma {:induction false} ReadSplits(items: seq<Item>, k: Key)
    ensures Count(ItemKey, Readable(items), k) + Count(OmissionKey, Unreadable(items), k) == Count(ItemKey, items, k)
  {
    if items != [] {
      var init, last := items[..|items| - 1], items[|items| - 1];
      ReadSplits(init, k);
      CountOneMore(ItemKey, Readable(init), last, k);
      CountOneMore(OmissionKey, Unreadable(init), Omit(last, UnreadableBody), k);
    }
  }

  lemma {:induction false} CollapseSplits(items: seq<Item>, k: Key)
    ensures Count(ItemKey, Kept(items), k) + Count(OmissionKey, Collapsed(items), k) == Count(ItemKey, items, k)
  {
    if items != [] {
      hide FirstOfItsBody;
      var init, last := items[..|items| - 1], items[|items| - 1];
      CollapseSplits(init, k);
      CountOneMore(ItemKey, Kept(init), last, k);
      CountOneMore(OmissionKey, Collapsed(init), Omit(last, CollapsedIntoAnotherClaim), k);
    }
  }

  lemma CutByPlace(items: seq<Item>, limit: nat)
    requires |items| > limit
    ensures |CutOff(items, limit)| == |items[limit..]|
    ensures forall i | 0 <= i < |items[limit..]| :: ItemKey(items[limit..][i]) == OmissionKey(CutOff(items, limit)[i])
  {
    forall i | 0 <= i < |items[limit..]| ensures ItemKey(items[limit..][i]) == OmissionKey(CutOff(items, limit)[i]) {
      assert items[limit..][i] == items[limit + i] && CutOff(items, limit)[i] == Omit(items[limit + i], CapReached);
    }
  }

  lemma CutSplits(items: seq<Item>, limit: nat, k: Key)
    ensures Count(ItemKey, Within(items, limit), k) + Count(OmissionKey, CutOff(items, limit), k)
            == Count(ItemKey, items, k)
  {
    if |items| > limit {
      var cut := items[limit..];
      CutByPlace(items, limit);
      CountByPlace(ItemKey, cut, OmissionKey, CutOff(items, limit), k);
      CountAppends(ItemKey, items[..limit], cut, k);
      assert items == items[..limit] + cut;
    }
  }

  /** Items and omissions together are the eligible versions, each exactly as often as it is stored. */
  lemma BundlePartitionsEligible(blobs: string -> Option<BlobRead>, q: Request, rows: seq<Row>, selected: seq<int>,
                                 limit: nat, k: Key)
    requires NoRepeats(selected)
    ensures var b := BundleOf(blobs, q, rows, selected, limit);
            Count(ItemKey, b.items, k) + Count(OmissionKey, b.omitted, k)
              == Count(RowKey, Eligible(q, rows, selected), k)
  {
    hide Gathered, Readable, Unreadable, Kept, Collapsed, Within, CutOff, Eligible, Count, Hydrate;
    var gathered := Gathered(q, rows, selected);
    var read := Read(blobs, gathered);
    var ordered := Sort(ItemBefore, Readable(read));
    GatheredIsEligible(q, rows, selected);
    CountPermutes(RowKey, gathered, Eligible(q, rows, selected), k);
    CountByPlace(ItemKey, read, RowKey, gathered, k);
    ReadSplits(read, k);
    CountPermutes(ItemKey, ordered, Readable(read), k);
    CollapseSplits(ordered, k);
    CutSplits(Kept(ordered), limit, k);
    var a, b, c := Unreadable(read), Collapsed(ordered), CutOff(Kept(ordered), limit);
    CountAppends(OmissionKey, a + b, c, k);
    CountAppends(OmissionKey, a, b, k);
  }

  // ----- what the items are

  lemma {:induction false} KeptAmong(items: seq<Item>)
    ensures forall i | i in Kept(items) :: i in items
  {
    if items != [] {
      hide FirstOfItsBody;
      var init, last := items[..|items| - 1], items[|items| - 1];
      KeptAmong(init);
      assert forall i | i in init :: i in items;
    }
  }

  lemma {:induction false} KeptAreOrdered(items: seq<Item>)
    requires Ordered(ItemBefore, items)
    ensures Ordered(ItemBefore, Kept(items))
  {
    if items != [] {
      hide FirstOfItsBody, ItemBefore;
      var init, last := items[..|items| - 1], items[|items| - 1];
      KeptAreOrdered(init);
      KeptAmong(init);
      var kept := Kept(init);
      forall i | 0 <= i < |kept| ensures !ItemBefore(last, kept[i]) { assert kept[i] in init; }
    }
  }

  lemma {:induction false} KeptBodiesDiffer(items: seq<Item>)
    ensures DistinctBodies(Kept(items))
  {
    if items != [] {
      var init, last := items[..|items| - 1], items[|items| - 1];
      KeptBodiesDiffer(init);
      KeptAmong(init);
      var kept := Kept(init);
      forall i | 0 <= i < |kept| && kept[i].body.Inlined? && FirstOfItsBody(items, |items| - 1)
        ensures kept[i].body != last.body {
        assert kept[i] in init;
      }
    }
  }

  ghost predicate DistinctBodies(items: seq<Item>) {
    forall i, j | 0 <= i < j < |items| && items[i].body.Inlined? :: items[i].body != items[j].body
  }

  /** A collapsed item gives way to an earlier one with the same text, and that one is kept. */
  lemma {:induction false} CollapseKeepsEarliest(items: seq<Item>, i: nat) returns (j: nat)
    requires i < |items| && items[i].body.Inlined?
    ensures j <= i && items[j].body == items[i].body && FirstOfItsBody(items, j) && items[j] in Kept(items)
    ensures j == i <==> FirstOfItsBody(items, i)
  {
    if FirstOfItsBody(items, i) {
      j := i;
      FirstIsKept(items, i);
    } else {
      var k: nat :| k < i && items[k].body == items[i].body;
      j := CollapseKeepsEarliest(items, k);
    }
  }

  lemma {:induction false} FirstIsKept(items: seq<Item>, i: nat)
    requires i < |items| && FirstOfItsBody(items, i)
    ensures items[i] in Kept(items)
  {
    if i < |items| - 1 { FirstIsKept(items[..|items| - 1], i); }
  }

  lemma KeysSeparate(items: seq<Item>)
    requires DistinctBy(ItemKey, items)
    ensures Separates(ItemBefore, items)
  {
    forall a, b | a in items && b in items && a != b ensures ItemBefore(a, b) || ItemBefore(b, a) {
      assert ItemKey(a) != ItemKey(b);
    }
  }

  lemma ReadableAreDistinct(blobs: string -> Option<BlobRead>, q: Request, rows: seq<Row>, selected: seq<int>)
    requires NoRepeats(selected) && DistinctBy(RowKey, rows)
    ensures DistinctBy(ItemKey, Readable(Read(blobs, Gathered(q, rows, selected))))
  {
    var gathered := Gathered(q, rows, selected);
    GatheredIsEligible(q, rows, selected);
    FilterKeepsDistinct(RowKey, (r: Row) => r.uuid in selected && Wanted(q, r), rows);
    PermutationKeepsDistinct(RowKey, Eligible(q, rows, selected), gathered);
    var read := Read(blobs, gathered);
    forall i, j | 0 <= i < j < |read|
      ensures ItemKey(read[i]) != ItemKey(read[j])
    {
      assert RowKey(gathered[i]) != RowKey(gathered[j]);
    }
    FilterKeepsDistinct(ItemKey, CanBeRead, read);
  }

  lemma {:induction false} FilterKeepsDistinct<T(!new), K(!new)>(key: T -> K, keep: T -> bool, s: seq<T>)
    requires DistinctBy(key, s)
    ensures DistinctBy(key, Filter(keep, s)) && forall x | x in Filter(keep, s) :: x in s && keep(x)
  {
    if s != [] {
      var init, last := s[..|s| - 1], s[|s| - 1];
      FilterKeepsDistinct(key, keep, init);
      forall i | 0 <= i < |Filter(keep, init)| ensures key(Filter(keep, init)[i]) != key(last) {
        assert Filter(keep, init)[i] in init;
      }
    }
  }

  /**
   The items are ordered, within the cap, and no two carry the same text; what the cap cut comes after every item
   kept.
   */
  lemma ItemsAreOrderedAndCapped(blobs: string -> Option<BlobRead>, q: Request, rows: seq<Row>, selected: seq<int>,
                                 limit: nat)
    requires NoRepeats(selected) && DistinctBy(RowKey, rows)
    ensures var b := BundleOf(blobs, q, rows, selected, limit);
            && Ordered(ItemBefore, b.items) && |b.items| <= limit && DistinctBodies(b.items)
            && forall i | i in b.items :: i.body != NonText && i.row in rows && i.body == Hydrate(blobs, i.row)
  {
    hide Gathered, Kept, ItemBefore, Hydrate;
    var gathered := Gathered(q, rows, selected);
    var read := Read(blobs, gathered);
    var ordered := Sort(ItemBefore, Readable(read));
    ReadableAreDistinct(blobs, q, rows, selected);
    KeysSeparate(Readable(read));
    SortIsOrdered(ItemBefore, Readable(read));
    KeptAmong(ordered);
    KeptAreOrdered(ordered);
    KeptBodiesDiffer(ordered);
    SameElements(ordered, Readable(read));
    FilterHolds(CanBeRead, read);
    GatheredIsEligible(q, rows, selected);
    SameElements(gathered, Eligible(q, rows, selected));
    FilterHolds((r: Row) => r.uuid in selected && Wanted(q, r), rows);
    forall i | i in Kept(ordered) ensures i.body != NonText && i.row in rows && i.body == Hydrate(blobs, i.row) {
      assert i in read;
      assert i.row in gathered;
    }
  }

  /** Earlier validity first; then earlier capture; then the smaller uuid; then the smaller version. */
  lemma ItemsByProvenance(blobs: string -> Option<BlobRead>, q: Request, rows: seq<Row>, selected: seq<int>, limit: nat,
                          i: nat, j: nat)
    requires NoRepeats(selected) && DistinctBy(RowKey, rows)
    requires i < j < |BundleOf(blobs, q, rows, selected, limit).items|
    ensures var a, b := BundleOf(blobs, q, rows, selected, limit).items[i].row,
            BundleOf(blobs, q, rows, selected, limit).items[j].row;
            && a.validFrom <= b.validFrom
            && (a.validFrom == b.validFrom ==> a.createdOn <= b.createdOn)
            && (a.validFrom == b.validFrom && a.createdOn == b.createdOn ==> a.uuid <= b.uuid)
            && (a.validFrom == b.validFrom && a.createdOn == b.createdOn && a.uuid == b.uuid ==> a.version <= b.version)
  {
    hide BundleOf;
    ItemsAreOrderedAndCapped(blobs, q, rows, selected, limit);
    var items := BundleOf(blobs, q, rows, selected, limit).items;
    assert !ItemBefore(items[j], items[i]);
  }

  lemma {:induction false} FilterHolds<T(!new)>(keep: T -> bool, s: seq<T>)
    ensures forall x | x in Filter(keep, s) :: x in s && keep(x)
  {
    if s != [] { FilterHolds(keep, s[..|s| - 1]); }
  }

  lemma {:induction false} CollapsedReason(items: seq<Item>)
    ensures forall o | o in Collapsed(items) :: o.reason == CollapsedIntoAnotherClaim
  {
    if items != [] { CollapsedReason(items[..|items| - 1]); }
  }

  lemma {:induction false} UnreadableReason(items: seq<Item>)
    ensures forall o | o in Unreadable(items) :: o.reason == UnreadableBody
  {
    if items != [] { UnreadableReason(items[..|items| - 1]); }
  }

  ghost predicate CutAfter(items: seq<Item>, o: Omission, i: Item) {
    exists cut :: cut in items && ItemKey(cut) == OmissionKey(o) && !ItemBefore(cut, i)
  }

  lemma CutIsTail(kept: seq<Item>, limit: nat, o: Omission) returns (k: nat)
    requires o in CutOff(kept, limit)
    ensures limit <= k < |kept| && ItemKey(kept[k]) == OmissionKey(o) && |Within(kept, limit)| == limit
  {
    var n := |kept| - limit;
    var d :| 0 <= d < n && CutOff(kept, limit)[d] == o;
    k := limit + d;
    assert CutOff(kept, limit)[d] == Omit(kept[limit + d], CapReached);
  }

  lemma CutComesAfter(kept: seq<Item>, limit: nat, o: Omission, i: Item)
    requires Ordered(ItemBefore, kept) && o in CutOff(kept, limit) && i in Within(kept, limit)
    ensures |Within(kept, limit)| == limit && CutAfter(kept, o, i)
  {
    hide ItemBefore, CutOff, ItemKey, OmissionKey;
    var k := CutIsTail(kept, limit, o);
    var j :| 0 <= j < limit && kept[j] == i;
    assert !ItemBefore(kept[k], kept[j]);
    assert kept[k] in kept;
  }

  /** The cap cuts only from a full bundle, and only items that come after every item it keeps. */
  lemma CapCutsTheTail(blobs: string -> Option<BlobRead>, q: Request, rows: seq<Row>, selected: seq<int>, limit: nat,
                       o: Omission, i: Item)
    requires NoRepeats(selected) && DistinctBy(RowKey, rows)
    requires o in BundleOf(blobs, q, rows, selected, limit).omitted && o.reason == CapReached
    requires i in BundleOf(blobs, q, rows, selected, limit).items
    ensures |BundleOf(blobs, q, rows, selected, limit).items| == limit
    ensures CutAfter(Sort(ItemBefore, Readable(Read(blobs, Gathered(q, rows, selected)))), o, i)
  {
    hide Gathered, Kept, Collapsed, Unreadable, ItemBefore, Hydrate, CutOff, Within, CutAfter;
    var read := Read(blobs, Gathered(q, rows, selected));
    var ordered := Sort(ItemBefore, Readable(read));
    CollapsedReason(ordered);
    UnreadableReason(read);
    assert o in CutOff(Kept(ordered), limit);
    ReadableAreDistinct(blobs, q, rows, selected);
    KeysSeparate(Readable(read));
    SortIsOrdered(ItemBefore, Readable(read));
    KeptAreOrdered(ordered);
    CutComesAfter(Kept(ordered), limit, o, i);
    CutAfterAmong(ordered, o, i);
  }

  lemma CutAfterAmong(ordered: seq<Item>, o: Omission, i: Item)
    requires CutAfter(Kept(ordered), o, i)
    ensures CutAfter(ordered, o, i)
  {
    hide ItemBefore, Kept;
    KeptAmong(ordered);
    var cut :| cut in Kept(ordered) && ItemKey(cut) == OmissionKey(o) && !ItemBefore(cut, i);
    assert cut in ordered;
  }

  // ----- independence of arrival order

  predicate CannotBeRead(i: Item) {
    i.body == NonText
  }

  function OmitUnreadable(i: Item): Omission {
    Omit(i, UnreadableBody)
  }

  function Same(o: Omission): Omission {
    o
  }

  function SameItem(i: Item): Item {
    i
  }

  lemma {:induction false} UnreadableCount(items: seq<Item>, o: Omission)
    ensures Count(Same, Unreadable(items), o) == Count(OmitUnreadable, Filter(CannotBeRead, items), o)
  {
    if items != [] {
      var init, last := items[..|items| - 1], items[|items| - 1];
      UnreadableCount(init, o);
      CountOneMore(OmitUnreadable, Filter(CannotBeRead, init), last, o);
      CountOneMore(Same, Unreadable(init), Omit(last, UnreadableBody), o);
    }
  }

  lemma UnreadablePermutes(a: seq<Item>, b: seq<Item>)
    requires multiset(a) == multiset(b)
    ensures multiset(Unreadable(a)) == multiset(Unreadable(b))
  {
    hide Unreadable, Filter, Count;
    FilterPermutes(CannotBeRead, a, b);
    forall o ensures multiset(Unreadable(a))[o] == multiset(Unreadable(b))[o] {
      CountIsMultiplicity(Same, Unreadable(a), o);
      CountIsMultiplicity(Same, Unreadable(b), o);
      UnreadableCount(a, o);
      UnreadableCount(b, o);
      CountPermutes(OmitUnreadable, Filter(CannotBeRead, a), Filter(CannotBeRead, b), o);
    }
  }

  lemma ReadPermutes(blobs: string -> Option<BlobRead>, a: seq<Row>, b: seq<Row>)
    requires multiset(a) == multiset(b)
    ensures multiset(Read(blobs, a)) == multiset(Read(blobs, b))
  {
    hide Hydrate, Count;
    var reader := (r: Row) => Item(r, Hydrate(blobs, r));
    forall i ensures multiset(Read(blobs, a))[i] == multiset(Read(blobs, b))[i] {
      CountIsMultiplicity(SameItem, Read(blobs, a), i);
      CountIsMultiplicity(SameItem, Read(blobs, b), i);
      CountByPlace(SameItem, Read(blobs, a), reader, a, i);
      CountByPlace(SameItem, Read(blobs, b), reader, b, i);
      CountPermutes(reader, a, b, i);
    }
  }

  lemma FilterPermutes<T(!new)>(keep: T -> bool, a: seq<T>, b: seq<T>)
    requires multiset(a) == multiset(b)
    ensures multiset(Filter(keep, a)) == multiset(Filter(keep, b))
  {
    forall x ensures multiset(Filter(keep, a))[x] == multiset(Filter(keep, b))[x] {
      FilterCount(keep, a, x);
      FilterCount(keep, b, x);
    }
  }

  lemma GatheredPermutes(q: Request, rows: seq<Row>, rows1: seq<Row>, selected: seq<int>, selected1: seq<int>)
    requires NoRepeats(selected) && NoRepeats(selected1) && multiset(rows) == multiset(rows1)
             && multiset(selected) == multiset(selected1)
    ensures multiset(Gathered(q, rows, selected)) == multiset(Gathered(q, rows1, selected1))
  {
    SameElements(selected, selected1);
    forall x ensures multiset(Gathered(q, rows, selected))[x] == multiset(Gathered(q, rows1, selected1))[x] {
      GatheredCount(q, rows, selected, x);
      GatheredCount(q, rows1, selected1, x);
    }
  }

  /**
   In whatever order the rows and the selection arrive, the items are the same list and the omissions the same
   collection.
   */
  lemma ArrivalOrderIsIrrelevant(blobs: string -> Option<BlobRead>, q: Request, rows: seq<Row>, rows1: seq<Row>,
                                 selected: seq<int>, selected1: seq<int>, limit: nat)
    requires NoRepeats(selected) && NoRepeats(selected1) && DistinctBy(RowKey, rows)
    requires multiset(rows) == multiset(rows1) && multiset(selected) == multiset(selected1)
    ensures var b, b1 := BundleOf(blobs, q, rows, selected, limit), BundleOf(blobs, q, rows1, selected1, limit);
            b.items == b1.items && multiset(b.omitted) == multiset(b1.omitted)
  {
    hide Gathered, Kept, Collapsed, Filter, Unreadable, Read, ItemBefore;
    var gathered, gathered1 := Gathered(q, rows, selected), Gathered(q, rows1, selected1);
    var read, read1 := Read(blobs, gathered), Read(blobs, gathered1);
    GatheredPermutes(q, rows, rows1, selected, selected1);
    ReadPermutes(blobs, gathered, gathered1);
    FilterPermutes(CanBeRead, read, read1);
    UnreadablePermutes(read, read1);
    ReadableAreDistinct(blobs, q, rows, selected);
    KeysSeparate(Readable(read));
    ArrivalOrderDoesNotMatter(ItemBefore, Readable(read), Readable(read1));
  }
}
