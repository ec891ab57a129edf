/**
 The claim a version asserts: what decides whether a re-sent write is a no-op. A claim is built
 from the incoming write or from the stored row, and the two must agree although the store keeps
 only microseconds.
 */
module MemoryClaims {
  import opened Common

  /** Nanoseconds since the Unix epoch. */
  type Instant = int

  /** 2000-01-01T00:00Z, the store's own epoch, in nanoseconds and in 100-nanosecond ticks. */
  const EPOCH_2000: Instant := 946684800 * 1_000_000_000
  const EPOCH_2000_TICKS: int := 946684800 * 10_000_000

  /** Integer division as C# has it: toward zero. */
  function TowardZero(a: int, b: int): int
    requires b > 0
  {
    if a >= 0 then a / b else -((-a) / b)
  }

  /** The claim's truncation: the instant's tick count is rounded down, then cut to tens of ticks since 2000. */
  function TruncateToMicroseconds(v: Instant): Instant {
    var ticks := v / 100 - EPOCH_2000_TICKS;
    (EPOCH_2000_TICKS + TowardZero(ticks, 10) * 10) * 100
  }

  /** What timestamptz gives back: whole microseconds since 2000, cut toward zero. */
  function StoredInstant(v: Instant): Instant {
    EPOCH_2000 + TowardZero(v - EPOCH_2000, 1000) * 1000
  }

  /**
   The instants whose truncations agree: from 2000 on all of them, before 2000 those not in the last tick of a
   microsecond.
   */
  predicate Storable(v: Instant) {
    v >= EPOCH_2000 || (EPOCH_2000 - v) % 1000 <= 900
  }

  lemma TruncationByParts(v: Instant, m: nat, a: nat, r: nat)
    requires m == 1000 * a + r && r < 1000
    ensures v == EPOCH_2000 + m ==>
            TruncateToMicroseconds(v) == EPOCH_2000 + 1000 * a && StoredInstant(v) == EPOCH_2000 + 1000 * a
    ensures v == EPOCH_2000 - m ==> StoredInstant(v) == EPOCH_2000 - 1000 * a
    ensures v == EPOCH_2000 - m && r <= 900 ==> TruncateToMicroseconds(v) == EPOCH_2000 - 1000 * a
    ensures v == EPOCH_2000 - m && r > 900 ==> TruncateToMicroseconds(v) == EPOCH_2000 - 1000 * (a + 1)
  {
    assert m / 1000 == a;
    if v == EPOCH_2000 + m {
      assert v / 100 == EPOCH_2000_TICKS + 10 * a + r / 100;
      assert (10 * a + r / 100) / 10 == a;
    }
    if v == EPOCH_2000 - m {
      var up := (r + 99) / 100;
      assert v / 100 == EPOCH_2000_TICKS - (10 * a + up);
      assert (10 * a + up) / 10 == if r <= 900 then a else a + 1;
    }
  }

  /** A claim's end of validity survives storage exactly for the storable instants, and for no other. */
  lemma TruncationMatchesStoreExactly(v: Instant)
    ensures TruncateToMicroseconds(StoredInstant(v)) == TruncateToMicroseconds(v) <==> Storable(v)
  {
    var m: nat := if v >= EPOCH_2000 then v - EPOCH_2000 else EPOCH_2000 - v;
    TruncationByParts(v, m, m / 1000, m % 1000);
    var stored := StoredInstant(v);
    TruncationByParts(stored, 1000 * (m / 1000), m / 1000, 0);
  }

  /** The failing family is real: 5 nanoseconds short of ten microseconds before 2000. */
  lemma TruncationCanDisagree()
    ensures !Storable(EPOCH_2000 - 9995)
    ensures TruncateToMicroseconds(StoredInstant(EPOCH_2000 - 9995)) != TruncateToMicroseconds(EPOCH_2000 - 9995)
  {
    TruncationMatchesStoreExactly(EPOCH_2000 - 9995);
  }

  /** Every whole number of ticks is storable, on either side of 2000, and moves by less than a microsecond. */
  lemma TicksAreStorable(v: Instant)
    requires v % 100 == 0
    ensures Storable(v)
    ensures -1000 < TruncateToMicroseconds(v) - v < 1000
    ensures v >= EPOCH_2000 ==> TruncateToMicroseconds(v) <= v
    ensures v < EPOCH_2000 ==> TruncateToMicroseconds(v) >= v
  {
    var m: nat := if v >= EPOCH_2000 then v - EPOCH_2000 else EPOCH_2000 - v;
    assert m == 100 * (if v >= EPOCH_2000 then v / 100 - EPOCH_2000_TICKS else EPOCH_2000_TICKS - v / 100);
    WholeTicksLeaveAtMost900(m, m / 100, m / 1000, m % 1000);
    TruncationByParts(v, m, m / 1000, m % 1000);
  }

  lemma WholeTicksLeaveAtMost900(m: nat, ticks: nat, a: nat, r: nat)
    requires m == 100 * ticks && m == 1000 * a + r && r < 1000
    ensures r <= 900
  {
    assert r == 100 * (ticks - 10 * a);
  }

  lemma TruncationIsIdempotent(v: Instant)
    ensures TruncateToMicroseconds(TruncateToMicroseconds(v)) == TruncateToMicroseconds(v)
    ensures Storable(TruncateToMicroseconds(v))
  {
    var m: nat := if v >= EPOCH_2000 then v - EPOCH_2000 else EPOCH_2000 - v;
    var a := if v < EPOCH_2000 && m % 1000 > 900 then m / 1000 + 1 else m / 1000;
    TruncationByParts(v, m, m / 1000, m % 1000);
    TruncationByParts(TruncateToMicroseconds(v), 1000 * a, a, 0);
  }

  lemma TruncationIsMonotone(v: Instant, w: Instant)
    requires v <= w
    ensures TruncateToMicroseconds(v) <= TruncateToMicroseconds(w)
  {
    var t, u := v / 100 - EPOCH_2000_TICKS, w / 100 - EPOCH_2000_TICKS;
    assert t <= u;
    assert TowardZero(t, 10) <= TowardZero(u, 10);
  }

  /** The instant is so many whole microseconds from 2000. */
  ghost predicate OnMicrosecond(v: Instant, q: int) {
    v == EPOCH_2000 + 1000 * q
  }

  /**
   What the store gives back is a whole microsecond since 2000, within one of the instant and never farther from
   2000.
   */
  lemma StoredIsMicroseconds(v: Instant)
    ensures EPOCH_2000 == (30 * 365 + 7) * 86400 * 1_000_000_000
    ensures exists q :: OnMicrosecond(StoredInstant(v), q)
    ensures if v >= EPOCH_2000 then v - 1000 < StoredInstant(v) <= v else v <= StoredInstant(v) < v + 1000
  {
    var m: nat := if v >= EPOCH_2000 then v - EPOCH_2000 else EPOCH_2000 - v;
    TruncationByParts(v, m, m / 1000, m % 1000);
    assert OnMicrosecond(StoredInstant(v), if v >= EPOCH_2000 then m / 1000 else -(m / 1000 as int));
  }

  /** So is what a claim compares, but before 2000 it may be one microsecond farther. */
  lemma TruncationIsMicroseconds(v: Instant)
    ensures exists q :: OnMicrosecond(TruncateToMicroseconds(v), q)
    ensures v - 1000 < TruncateToMicroseconds(v) < v + 1000 && (v >= EPOCH_2000 ==> TruncateToMicroseconds(v) <= v)
  {
    var m: nat := if v >= EPOCH_2000 then v - EPOCH_2000 else EPOCH_2000 - v;
    var a: int := m / 1000;
    TruncationByParts(v, m, m / 1000, m % 1000);
    assert OnMicrosecond(TruncateToMicroseconds(v),
                         if v >= EPOCH_2000 then a else if m % 1000 <= 900 then -a else -(a + 1));
  }

  // ----- claims

  datatype Source = Source(kind: string, reference: string, capturedAt: Option<Instant>)

  datatype Claim = Claim(statement: string, contentSummary: string, kind: string, status: string, confidence: int,
                         sources: seq<Source>, validUntil: Option<Instant>, blobAddress: Option<string>)

  datatype MemoryWrite = MemoryWrite(uuid: Option<int>, createUuid: Option<int>, name: string, description: string,
                                     statement: string, contentSummary: string, kind: string, status: string,
                                     confidence: int, facets: seq<string>, tags: seq<string>, content: string,
                                     sources: seq<Source>, validFrom: Instant, validUntil: Option<Instant>,
                                     stamp: Option<(string, string)>)

  datatype Version = Version(number: nat, isCurrent: bool, statement: string, contentSummary: string,
                             blobAddress: Option<string>, kind: string, confidence: int, status: string,
                             sources: seq<Source>, validFrom: Instant, validUntil: Option<Instant>, createdOn: Instant,
                             stamp: Option<(string, string)>)

  function Truncated(v: Option<Instant>): Option<Instant> {
    if v.None? then None else Some(TruncateToMicroseconds(v.value))
  }

  /** The content address of a body; no address for an empty one. The blob store answers with the same address. */
  function BlobAddress(address: string -> string, content: string): Option<string> {
    if content == "" then None else Some(address(content))
  }

  function FromWrite(address: string -> string, w: MemoryWrite): Claim {
    Claim(w.statement, w.contentSummary, w.kind, w.status, w.confidence, w.sources, Truncated(w.validUntil),
          BlobAddress(address, w.content))
  }

  function FromVersion(v: Version): Claim {
    Claim(v.statement, v.contentSummary, v.kind, v.status, v.confidence, v.sources, Truncated(v.validUntil),
          v.blobAddress)
  }

  /** The row the store holds after a write: the built version, its instants as the store keeps them. */
  function StoredVersion(address: string -> string, number: nat, w: MemoryWrite, now: Instant): Version {
    Version(number, true, w.statement, w.contentSummary, BlobAddress(address, w.content), w.kind, w.confidence,
            w.status, w.sources, StoredInstant(w.validFrom),
            if w.validUntil.None? then None else Some(StoredInstant(w.validUntil.value)), StoredInstant(now), w.stamp)
  }

  /** The write's end of validity is one the store can give back. */
  predicate ReadsBack(w: MemoryWrite) {
    w.validUntil.Some? ==> Storable(w.validUntil.value)
  }

  /** The claim read back from the store equals the claim of the write exactly when its end of validity is storable. */
  lemma ClaimReadsBackExactly(address: string -> string, number: nat, w: MemoryWrite, now: Instant)
    ensures FromVersion(StoredVersion(address, number, w, now)) == FromWrite(address, w) <==> ReadsBack(w)
  {
    if w.validUntil.Some? { TruncationMatchesStoreExactly(w.validUntil.value); }
  }

  /**
   A write restates a stored row exactly when the eight fields of the claim agree, the end of validity once
   truncated.
   */
  lemma RestatesOnFields(address: string -> string, w: MemoryWrite, v: Version)
    ensures FromWrite(address, w) == FromVersion(v) <==>
            && w.statement == v.statement && w.contentSummary == v.contentSummary && w.kind == v.kind
            && w.status == v.status && w.confidence == v.confidence && w.sources == v.sources
            && (w.validUntil.None? <==> v.validUntil.None?)
            && (w.validUntil.Some? && v.validUntil.Some? ==>
                  TruncateToMicroseconds(w.validUntil.value) == TruncateToMicroseconds(v.validUntil.value))
            && (if w.content == "" then v.blobAddress == None else v.blobAddress == Some(address(w.content)))
  {
  }

  /** The version row carries every column of the write. */
  ghost predicate CarriesWrite(address: string -> string, v: Version, number: nat, w: MemoryWrite) {
    && v.number == number && v.statement == w.statement && v.contentSummary == w.contentSummary && v.kind == w.kind
    && v.confidence == w.confidence && v.status == w.status && v.sources == w.sources && v.stamp == w.stamp
    && v.validFrom == StoredInstant(w.validFrom)
    && (w.validUntil.None? ==> v.validUntil.None?)
    && (w.validUntil.Some? ==> v.validUntil == Some(StoredInstant(w.validUntil.value)))
    && (w.content == "" ==> v.blobAddress == None) && (w.content != "" ==> v.blobAddress == Some(address(w.content)))
  }

  method SourcesEqual(left: seq<Source>, right: seq<Source>) returns (equal: bool)
    ensures equal <==> left == right
  {
    if |left| != |right| {
      return false;
    }
    for index := 0 to |left|
      invariant forall i | 0 <= i < index :: left[i] == right[i]
    {
      var a, b := left[index], right[index];
      if a.kind != b.kind || a.reference != b.reference || a.capturedAt != b.capturedAt {
        return false;
      }
    }
    return true;
  }

  /** Field-by-field sameness is identity of claims, hence an equivalence. */
  method Same(left: Claim, right: Claim) returns (same: bool)
    ensures same <==> left == right
  {
    var sources := SourcesEqual(left.sources, right.sources);
    same := left.statement == right.statement && left.contentSummary == right.contentSummary && left.kind == right.kind
            && left.status == right.status && left.confidence == right.confidence && sources
            && left.validUntil == right.validUntil && left.blobAddress == right.blobAddress;
  }
}
