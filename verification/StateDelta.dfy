/** The state delta of the kernel context: the log of state writes compacted to one record per state,
    reset in constant time and merged in place. */
module StateDelta {
  import opened CommandWord
  import opened DeltaReplay

  // ----- Mirrored states -----

  datatype MirrorRange = MirrorRange(inputBase: nat, count: nat, outputBase: nat)

  const MIRRORED_STATES: seq<MirrorRange> :=
    [MirrorRange(0x5800, 0x300, 0x5B00), MirrorRange(0x5600, 0x100, 0x5700), MirrorRange(0xD800, 0x140, 0xD000)]

  predicate InRange(r: MirrorRange, address: nat) {
    r.inputBase <= address < r.inputBase + r.count
  }

  function Mirrored(r: MirrorRange, address: nat): nat
    requires InRange(r, address)
  {
    r.outputBase + (address - r.inputBase)
  }

  /** The state whose record stands for `address`: its mirror image, or the state itself. The ranges
      are in use only if `mirroring`: mirroredStatesCount stays 0 on hardware without HALTI5 and with
      small batches. */
  function Canonical(mirroring: bool, address: nat): nat {
    if !mirroring then address
    else if InRange(MIRRORED_STATES[0], address) then Mirrored(MIRRORED_STATES[0], address)
    else if InRange(MIRRORED_STATES[1], address) then Mirrored(MIRRORED_STATES[1], address)
    else if InRange(MIRRORED_STATES[2], address) then Mirrored(MIRRORED_STATES[2], address)
    else address
  }

  lemma CanonicalIsIdempotent(mirroring: bool, address: nat)
    ensures Canonical(mirroring, Canonical(mirroring, address)) == Canonical(mirroring, address)
  {
  }

  /** State b is the mirror image of state a. */
  predicate IsImage(a: nat, b: nat) {
    || (0x5800 <= a < 0x5B00 && b == a + 0x300)
    || (0x5600 <= a < 0x5700 && b == a + 0x100)
    || (0xD800 <= a < 0xD940 && b == a - 0x800)
  }

  /** The ranges in numbers: each state of a range stands at its own place in the image, every other
      state stands for itself. */
  lemma MirroredRanges(k: nat, address: nat)
    ensures k < 0x300 ==> Canonical(true, 0x5800 + k) == 0x5B00 + k
    ensures k < 0x100 ==> Canonical(true, 0x5600 + k) == 0x5700 + k
    ensures k < 0x140 ==> Canonical(true, 0xD800 + k) == 0xD000 + k
    ensures !(0x5800 <= address < 0x5B00 || 0x5600 <= address < 0x5700 || 0xD800 <= address < 0xD940) ==>
      Canonical(true, address) == address
    ensures Canonical(false, address) == address
  {
  }

  /** Two states share a record exactly when they are the same or one is the image of the other. */
  lemma SharedRecords(mirroring: bool, a: nat, b: nat)
    ensures Canonical(mirroring, a) == Canonical(mirroring, b) <==>
      a == b || (mirroring && (IsImage(a, b) || IsImage(b, a)))
  {
  }

  predicate AllCanonical(mirroring: bool, entries: Entries) {
    forall a :: a in entries ==> Canonical(mirroring, a) == a
  }

  // ----- The records -----

  datatype Record = Record(address: nat, mask: WordBits, data: WordBits)

  /** Records as writes to the states that they stand for. */
  function AsLog(mirroring: bool, records: seq<Record>): seq<LogEntry> {
    seq(|records|, r requires 0 <= r < |records| =>
      LogEntry(Canonical(mirroring, records[r].address), Entry(records[r].mask, records[r].data)))
  }

  /** Record r after the write e. */
  function MergedAt(records: seq<Record>, r: nat, e: Entry): seq<Record>
    requires r < |records|
  {
    var merged := MergeEntry(Entry(records[r].mask, records[r].data), e);
    records[r := Record(records[r].address, merged.mask, merged.data)]
  }

  /** The compacted log that records of different states stand for. */
  function ContentsOf(records: seq<Record>): Entries {
    Compact(AsLog(false, records))
  }

  predicate DistinctRecords(records: seq<Record>) {
    forall i, j :: 0 <= i < j < |records| ==> records[i].address != records[j].address
  }

  predicate Recorded(records: seq<Record>, a: nat) {
    exists r :: 0 <= r < |records| && records[r].address == a
  }

  lemma RecordedIsInContents(records: seq<Record>, a: nat)
    ensures a in ContentsOf(records) <==> Recorded(records, a)
  {
    var log := AsLog(false, records);
    RecordedStates(map[], log, a);
    if a in ContentsOf(records) {
      var i :| 0 <= i < |log| && log[i].address == a;
      assert records[i].address == a;
    }
    if r :| 0 <= r < |records| && records[r].address == a { assert log[r].address == a; }
  }

  lemma ContentsAt(records: seq<Record>, r: nat)
    requires DistinctRecords(records) && r < |records|
    ensures records[r].address in ContentsOf(records)
    ensures ContentsOf(records)[records[r].address] == Entry(records[r].mask, records[r].data)
  {
    RecordedOnce(AsLog(false, records), r);
  }

  lemma AddedContents(records: seq<Record>, record: Record)
    requires !Recorded(records, record.address)
    ensures ContentsOf(records + [record]) == ContentsOf(records)[record.address := Entry(record.mask, record.data)]
  {
    RecordedIsInContents(records, record.address);
    var log := AsLog(false, records + [record]);
    assert log[..|records|] == AsLog(false, records);
  }

  lemma MergedContents(records: seq<Record>, r: nat, e: Entry)
    requires DistinctRecords(records) && r < |records|
    ensures var a := records[r].address; var merged := MergeEntry(Entry(records[r].mask, records[r].data), e);
      ContentsOf(MergedAt(records, r, e)) == ContentsOf(records)[a := merged]
  {
    var after := MergedAt(records, r, e);
    forall a: nat ensures a in ContentsOf(after) <==> a in ContentsOf(records) {
      RecordedIsInContents(records, a);
      RecordedIsInContents(after, a);
      SameAddresses(records, r, e, a);
    }
    ContentsAt(records, r);
    forall a | a in ContentsOf(after) && a != records[r].address
      ensures ContentsOf(after)[a] == ContentsOf(records)[a]
    {
      RecordedIsInContents(records, a);
      var k: nat :| k < |records| && records[k].address == a;
      ContentsAt(records, k);
      ContentsAt(after, k);
    }
    ContentsAt(after, r);
  }

  lemma SameAddresses(records: seq<Record>, r: nat, e: Entry, a: nat)
    requires r < |records|
    ensures Recorded(MergedAt(records, r, e), a) <==> Recorded(records, a)
  {
    var after := MergedAt(records, r, e);
    assert forall k :: 0 <= k < |records| ==> after[k].address == records[k].address;
    if k :| 0 <= k < |records| && records[k].address == a { assert after[k].address == a; }
  }

  /** The map of the structure and its records: `ids[a] == id` marks state a as recorded, at
      records[indexes[a]]. */
  predicate Consistent(id: Word, ids: seq<Word>, indexes: seq<nat>, records: seq<Record>) {
    && |ids| == |indexes| && 0 < id
    && (forall a :: 0 <= a < |ids| ==> ids[a] <= id)
    && (forall a :: 0 <= a < |ids| && ids[a] == id ==> indexes[a] < |records| && records[indexes[a]].address == a)
    && (forall r :: 0 <= r < |records| ==>
          var a := records[r].address;
          a < |ids| && ids[a] == id && indexes[a] == r)
  }

  lemma MapTellsRecorded(id: Word, ids: seq<Word>, indexes: seq<nat>, records: seq<Record>, a: nat)
    requires Consistent(id, ids, indexes, records)
    ensures DistinctRecords(records)
    ensures Recorded(records, a) <==> a < |ids| && ids[a] == id
  {
    if a < |ids| && ids[a] == id { assert records[indexes[a]].address == a; }
  }

  lemma AddKeepsConsistent(id: Word, ids: seq<Word>, indexes: seq<nat>, records: seq<Record>, record: Record)
    requires Consistent(id, ids, indexes, records)
    requires record.address < |ids| && ids[record.address] != id
    ensures Consistent(id, ids[record.address := id], indexes[record.address := |records|], records + [record])
  {
  }

  lemma UpdateKeepsConsistent(id: Word, ids: seq<Word>, indexes: seq<nat>, records: seq<Record>, r: nat, e: Entry)
    requires Consistent(id, ids, indexes, records) && r < |records|
    ensures Consistent(id, ids, indexes, MergedAt(records, r, e))
  {
    var after := MergedAt(records, r, e);
    assert forall k :: 0 <= k < |records| ==> after[k].address == records[k].address;
  }

  // ----- The structure -----

  /** gckOS_MemCopy, in elements. */
  method MemCopy<T>(dst: array<T>, src: array<T>, count: nat)
    requires dst != src && count <= dst.Length && count <= src.Length
    modifies dst
    ensures dst[..count] == src[..count]
  {
    forall i | 0 <= i < count { dst[i] := src[i]; }
  }

  /** gcsSTATE_DELTA. */
  class StateDelta {
    var id: Word
    var elementCount: Word
    var recordCount: nat
    const recordArray: array<Record>
    const mapEntryID: array<Word>
    const mapEntryIndex: array<nat>

    ghost predicate Valid()
      reads `id, `recordCount, recordArray, mapEntryID, mapEntryIndex
    {
      && mapEntryID as object != mapEntryIndex as object && recordCount <= recordArray.Length
      && Consistent(id, mapEntryID[..], mapEntryIndex[..], recordArray[..recordCount])
    }

    ghost function Records(): seq<Record>
      requires Valid()
      reads `id, `recordCount, recordArray, mapEntryID, mapEntryIndex
    {
      recordArray[..recordCount]
    }

    /** The compacted log that the structure represents. */
    ghost function Contents(): Entries
      requires Valid()
      reads `id, `recordCount, recordArray, mapEntryID, mapEntryIndex
    {
      ContentsOf(Records())
    }

    /** Every record stands at a mirror image already. */
    ghost predicate IsCanonical(mirroring: bool)
      requires Valid()
      reads `id, `recordCount, recordArray, mapEntryID, mapEntryIndex
    {
      AllCanonical(mirroring, Contents())
    }

    /** _AllocateDelta. */
    constructor (maxState: nat, numStates: nat)
      ensures Valid() && Records() == [] && Contents() == map[] && id == 1 && elementCount == 0
      ensures forall mirroring :: IsCanonical(mirroring)
      ensures fresh(recordArray) && fresh(mapEntryID) && fresh(mapEntryIndex)
      ensures mapEntryID.Length == maxState && recordArray.Length == numStates
    {
      recordArray := new Record[numStates](_ => Record(0, ZERO, ZERO));
      mapEntryID := new Word[maxState](_ => 0);
      mapEntryIndex := new nat[maxState](_ => 0);
      id, elementCount, recordCount := 1, 0, 0;
    }

    /** _ResetDelta: forgets every record by moving to the next ID; the map is cleared only when the
        32-bit ID overflows. */
    method ResetDelta()
      requires Valid()
      modifies this`id, this`elementCount, this`recordCount, mapEntryID
      ensures Valid() && Records() == [] && Contents() == map[] && elementCount == 0
      ensures forall mirroring :: IsCanonical(mirroring)
      ensures old(id) < 0xFFFF_FFFF ==> id == old(id) + 1 && mapEntryID[..] == old(mapEntryID[..])
      ensures old(id) == 0xFFFF_FFFF ==> id == 1 && forall i :: 0 <= i < mapEntryID.Length ==> mapEntryID[i] == 0
    {
      if id == 0xFFFF_FFFF {
        id := 0;
        forall i | 0 <= i < mapEntryID.Length { mapEntryID[i] := 0; }
        id := id + 1;
      } else {
        id := id + 1;
      }
      elementCount := 0;
      recordCount := 0;
    }

    /** _CopyDelta. */
    method CopyDelta(src: StateDelta)
      requires Valid() && src.Valid() && src != this
      requires recordArray != src.recordArray && mapEntryID != src.mapEntryID && mapEntryIndex != src.mapEntryIndex
      requires mapEntryID as object != src.mapEntryIndex && mapEntryIndex as object != src.mapEntryID
      requires mapEntryID.Length == src.mapEntryID.Length && src.recordCount <= recordArray.Length
      modifies this`id, this`elementCount, this`recordCount, recordArray, mapEntryID, mapEntryIndex
      ensures Valid() && Records() == src.Records() && id == src.id && elementCount == src.elementCount
    {
      recordCount := src.recordCount;
      MemCopy(recordArray, src.recordArray, recordCount);
      MemCopy(mapEntryID, src.mapEntryID, mapEntryID.Length);
      MemCopy(mapEntryIndex, src.mapEntryIndex, mapEntryIndex.Length);
      id := src.id;
      elementCount := src.elementCount;
      assert mapEntryID[..] == mapEntryID[..mapEntryID.Length] == src.mapEntryID[..];
      assert mapEntryIndex[..] == mapEntryIndex[..mapEntryIndex.Length] == src.mapEntryIndex[..];
    }

    /** The branch of _MergeDelta for a state without a record. */
    method AddRecord(target: nat, mask: WordBits, data: WordBits)
      requires Valid()
      requires target < mapEntryID.Length && mapEntryID[target] != id && recordCount < recordArray.Length
      modifies this`recordCount, recordArray, mapEntryID, mapEntryIndex
      ensures Valid() && id == old(id)
      ensures Records() == old(Records()) + [Record(target, mask, data)]
    {
      AddKeepsConsistent(id, mapEntryID[..], mapEntryIndex[..], Records(), Record(target, mask, data));
      mapEntryID[target] := id;
      mapEntryIndex[target] := recordCount;
      recordArray[mapEntryIndex[target]] := Record(target, mask, data);
      recordCount := recordCount + 1;
      assert mapEntryID[..] == old(mapEntryID[..])[target := id];
      assert mapEntryIndex[..] == old(mapEntryIndex[..])[target := old(recordCount)];
      assert recordArray[..recordCount] == old(recordArray[..recordCount]) + [Record(target, mask, data)];
    }

    /** The branches for a state that has one. */
    method UpdateRecord(target: nat, mask: WordBits, data: WordBits)
      requires Valid()
      requires target < mapEntryID.Length && mapEntryID[target] == id
      modifies recordArray
      ensures Valid()
      ensures Records() == MergedAt(old(Records()), mapEntryIndex[target], Entry(mask, data))
    {
      var r := mapEntryIndex[target];
      UpdateKeepsConsistent(id, mapEntryID[..], mapEntryIndex[..], Records(), r, Entry(mask, data));
      var entry := recordArray[r];
      if mask == ZERO {
        entry := entry.(mask := ZERO, data := data);
      } else {
        entry := entry.(mask := entry.mask + mask);
        entry := entry.(data := entry.data - mask);
        entry := entry.(data := entry.data + (data * mask));
      }
      recordArray[r] := entry;
      assert recordArray[..recordCount] == old(recordArray[..recordCount])[r := entry];
    }

    /** _MergeDelta. The source does not check the room in recordArray; the caller provides it. */
    method MergeDelta(mirroring: bool, address: nat, mask: WordBits, data: WordBits)
      requires Valid()
      requires Canonical(mirroring, address) < mapEntryID.Length
      requires Canonical(mirroring, address) in Contents() || recordCount < recordArray.Length
      modifies this`recordCount, recordArray, mapEntryID, mapEntryIndex
      ensures Valid() && id == old(id)
      ensures Records() == MergeRecord(old(Records()), Canonical(mirroring, address), Entry(mask, data))
      ensures Contents() == Merge(old(Contents()), Canonical(mirroring, address), Entry(mask, data))
      ensures old(IsCanonical(mirroring)) ==> IsCanonical(mirroring)
      ensures recordCount ==
        if Canonical(mirroring, address) in old(Contents()) then old(recordCount) else old(recordCount) + 1
    {
      var target := FindMirror(mirroring, address);
      CanonicalIsIdempotent(mirroring, address);
      TargetFacts(this, target, Entry(mask, data));
      if mapEntryID[target] != id {
        AddRecord(target, mask, data);
      } else {
        UpdateRecord(target, mask, data);
      }
    }
  }

  /** Where state a is recorded. */
  function Find(records: seq<Record>, a: nat): (r: nat)
    requires Recorded(records, a)
    ensures r < |records| && records[r].address == a
  {
    var n := |records| - 1;
    if records[n].address == a then n else Find(records[..n], a)
  }

  lemma IndexOf(records: seq<Record>, a: nat, r: nat)
    requires DistinctRecords(records) && r < |records| && records[r].address == a
    ensures Recorded(records, a) && Find(records, a) == r
  {
  }

  /** What _MergeDelta does to the records: the state's record is changed in its place, or a new one
      comes last. */
  function MergeRecord(records: seq<Record>, a: nat, e: Entry): seq<Record> {
    if Recorded(records, a) then MergedAt(records, Find(records, a), e)
    else records + [Record(a, e.mask, e.data)]
  }

  lemma MergeRecordContents(records: seq<Record>, a: nat, e: Entry)
    requires DistinctRecords(records)
    ensures ContentsOf(MergeRecord(records, a, e)) == Merge(ContentsOf(records), a, e)
  {
    RecordedIsInContents(records, a);
    if Recorded(records, a) {
      MergedContents(records, Find(records, a), e);
      ContentsAt(records, Find(records, a));
    } else {
      AddedContents(records, Record(a, e.mask, e.data));
    }
  }

  /** What the map says of a state, and what merging a write to it does to the records. */
  lemma TargetFacts(delta: StateDelta, target: nat, e: Entry)
    requires delta.Valid() && target < delta.mapEntryID.Length
    ensures target in delta.Contents() <==> delta.mapEntryID[target] == delta.id
    ensures ContentsOf(MergeRecord(delta.Records(), target, e)) == Merge(delta.Contents(), target, e)
    ensures MergeRecord(delta.Records(), target, e) ==
      if delta.mapEntryID[target] == delta.id then MergedAt(delta.Records(), delta.mapEntryIndex[target], e)
      else delta.Records() + [Record(target, e.mask, e.data)]
  {
    var records := delta.Records();
    MapTellsRecorded(delta.id, delta.mapEntryID[..], delta.mapEntryIndex[..], records, target);
    RecordedIsInContents(records, target);
    MergeRecordContents(records, target, e);
    if delta.mapEntryID[target] == delta.id { IndexOf(records, target, delta.mapEntryIndex[target]); }
  }

  /** The loop of _MergeDelta over the mirrored ranges in use, which stops at the first that holds
      the state. */
  method FindMirror(mirroring: bool, address: nat) returns (target: nat)
    ensures target == Canonical(mirroring, address)
    ensures if mirroring && 0x5800 <= address < 0x5B00 then target == address + 0x300
            else if mirroring && 0x5600 <= address < 0x5700 then target == address + 0x100
            else if mirroring && 0xD800 <= address < 0xD940 then target == address - 0x800
            else target == address
  {
    target := address;
    var mirroredStatesCount := if mirroring then |MIRRORED_STATES| else 0;
    var i := 0;
    while i < mirroredStatesCount
      invariant 0 <= i <= mirroredStatesCount && target == address
      invariant forall j :: 0 <= j < i ==> !InRange(MIRRORED_STATES[j], address)
    {
      if InRange(MIRRORED_STATES[i], target) {
        target := Mirrored(MIRRORED_STATES[i], target);
        return;
      }
      i := i + 1;
    }
  }

  function Addresses(records: seq<Record>): set<nat> {
    set r | r in records :: r.address
  }

  lemma {:induction false} DistinctCount(records: seq<Record>)
    requires DistinctRecords(records)
    ensures |Addresses(records)| == |records|
  {
    if records != [] {
      var n := |records| - 1;
      DistinctCount(records[..n]);
      assert records == records[..n] + [records[n]];
      assert Addresses(records) == Addresses(records[..n]) + {records[n].address};
    }
  }

  /** A delta with a slot for each of `states` that records none but them has room for one more. */
  lemma RoomFor(delta: StateDelta, states: set<nat>, target: nat)
    requires delta.Valid() && delta.Contents().Keys <= states && target in states
    requires |states| <= delta.recordArray.Length
    ensures target in delta.Contents() || delta.recordCount < delta.recordArray.Length
  {
    var records := delta.Records();
    MapTellsRecorded(delta.id, delta.mapEntryID[..], delta.mapEntryIndex[..], records, target);
    DistinctCount(records);
    forall a | a in Addresses(records) ensures a in delta.Contents() {
      var r :| r in records && r.address == a;
      RecordedIsInContents(records, a);
    }
    if target !in delta.Contents() {
      ProperSubset(Addresses(records), states, target);
    }
  }

  lemma ProperSubset(few: set<nat>, many: set<nat>, extra: nat)
    requires few <= many && extra in many && extra !in few
    ensures |few| < |many|
  {
    assert |many| == |many - few| + |few|;
    assert extra in many - few;
  }

  /** The states that the records stand for are all among `states`, and in the map. */
  predicate AllMapped(mirroring: bool, records: seq<Record>, states: set<nat>, maxState: nat) {
    forall r :: 0 <= r < |records| ==>
      Canonical(mirroring, records[r].address) in states && Canonical(mirroring, records[r].address) < maxState
  }

  /** Records merged one after the other into others. */
  function MergeEach(mirroring: bool, records: seq<Record>, more: seq<Record>): seq<Record> {
    if more == [] then records
    else
      var n := |more| - 1;
      MergeRecord(MergeEach(mirroring, records, more[..n]),
                  Canonical(mirroring, more[n].address), Entry(more[n].mask, more[n].data))
  }

  lemma MergeOneMore(mirroring: bool, records: seq<Record>, more: seq<Record>, k: nat)
    requires k < |more|
    ensures MergeEach(mirroring, records, more[..k + 1]) ==
      MergeRecord(MergeEach(mirroring, records, more[..k]),
                  Canonical(mirroring, more[k].address), Entry(more[k].mask, more[k].data))
  {
    assert more[..k + 1][..k] == more[..k];
  }

  lemma MergeRecordDistinct(records: seq<Record>, a: nat, e: Entry)
    requires DistinctRecords(records)
    ensures DistinctRecords(MergeRecord(records, a, e))
  {
  }

  lemma LogOneMore(mirroring: bool, entries: Entries, more: seq<Record>, n: nat)
    requires n + 1 == |more|
    ensures MergeLog(entries, AsLog(mirroring, more)) ==
      Merge(MergeLog(entries, AsLog(mirroring, more[..n])),
            Canonical(mirroring, more[n].address), Entry(more[n].mask, more[n].data))
  {
    assert AsLog(mirroring, more)[..n] == AsLog(mirroring, more[..n]);
  }

  /** On the compacted log this is merging their writes. */
  lemma {:induction false} MergeEachContents(mirroring: bool, records: seq<Record>, more: seq<Record>)
    requires DistinctRecords(records)
    ensures DistinctRecords(MergeEach(mirroring, records, more))
    ensures ContentsOf(MergeEach(mirroring, records, more)) == MergeLog(ContentsOf(records), AsLog(mirroring, more))
  {
    if more != [] {
      var n := |more| - 1;
      var state, e := Canonical(mirroring, more[n].address), Entry(more[n].mask, more[n].data);
      var before := MergeEach(mirroring, records, more[..n]);
      MergeEachContents(mirroring, records, more[..n]);
      MergeRecordDistinct(before, state, e);
      MergeRecordContents(before, state, e);
      LogOneMore(mirroring, ContentsOf(records), more, n);
      assert MergeEach(mirroring, records, more) == MergeRecord(before, state, e);
    }
  }

  /** Writes to two states leave two records, each with its own data, unless one is the image of the
      other. */
  lemma StatesKeepTheirRecords(mirroring: bool, x: Record, y: Record)
    requires x.address != y.address
    ensures |MergeEach(mirroring, [], [x, y])| == 2 <==>
      !(mirroring && (IsImage(x.address, y.address) || IsImage(y.address, x.address)))
    ensures |MergeEach(mirroring, [], [x, y])| == 2 ==>
      && MergeEach(mirroring, [], [x, y])[0].(address := 0) == x.(address := 0)
      && MergeEach(mirroring, [], [x, y])[1].(address := 0) == y.(address := 0)
  {
    var a, b := Canonical(mirroring, x.address), Canonical(mirroring, y.address);
    var first := [Record(a, x.mask, x.data)];
    SharedRecords(mirroring, x.address, y.address);
    assert [x, y][..1] == [x] && [x][..0] == [];
    assert MergeEach(mirroring, [], [x]) == MergeRecord([], a, Entry(x.mask, x.data)) == first;
    assert MergeEach(mirroring, [], [x, y]) == MergeRecord(first, b, Entry(y.mask, y.data));
    if a == b {
      assert first[0].address == b;
      assert Recorded(first, b);
    }
  }

  lemma {:induction false} MergeEachConcat(mirroring: bool, records: seq<Record>, xs: seq<Record>, ys: seq<Record>)
    ensures MergeEach(mirroring, records, xs + ys) == MergeEach(mirroring, MergeEach(mirroring, records, xs), ys)
  {
    if ys == [] {
      assert xs + ys == xs;
    } else {
      var n := |ys| - 1;
      assert (xs + ys)[..|xs| + n] == xs + ys[..n];
      MergeEachConcat(mirroring, records, xs, ys[..n]);
    }
  }

  /** The loop of gckCONTEXT_UpdateDelta: every record of the newer delta is merged into the previous
      one. */
  method MergeRecords(mirroring: bool, ghost states: set<nat>, prev: StateDelta, delta: StateDelta)
    requires prev.Valid() && delta.Valid()
    requires prev != delta && prev.recordArray != delta.recordArray
    requires prev.Contents().Keys <= states && |states| <= prev.recordArray.Length
    requires AllMapped(mirroring, delta.Records(), states, prev.mapEntryID.Length)
    modifies prev`recordCount, prev.recordArray, prev.mapEntryID, prev.mapEntryIndex
    ensures prev.Valid() && prev.Contents().Keys <= states
    ensures prev.Records() == MergeEach(mirroring, old(prev.Records()), old(delta.Records()))
  {
    var count := delta.recordCount;
    ghost var before, records := prev.Records(), delta.recordArray[..count];
    for i := 0 to count
      invariant prev.Valid() && prev.Contents().Keys <= states
      invariant delta.recordArray[..count] == records
      invariant prev.Records() == MergeEach(mirroring, before, records[..i])
    {
      var record := delta.recordArray[i];
      assert record == records[i];
      MergeOneMore(mirroring, before, records, i);
      RoomFor(prev, states, Canonical(mirroring, record.address));
      prev.MergeDelta(mirroring, record.address, record.mask, record.data);
    }
    assert records[..count] == records;
  }

  lemma {:induction false} MergedStayCanonical(mirroring: bool, entries: Entries, records: seq<Record>, k: nat)
    requires k <= |records|
    requires AllCanonical(mirroring, entries)
    ensures AllCanonical(mirroring, MergeLog(entries, AsLog(mirroring, records)[..k]))
  {
    if k > 0 {
      var log := AsLog(mirroring, records);
      MergedStayCanonical(mirroring, entries, records, k - 1);
      CanonicalIsIdempotent(mirroring, records[k - 1].address);
      assert log[..k][..k - 1] == log[..k - 1];
    }
  }

  /** Whatever the newer delta records: replaying `after` is replaying `before` and then making the
      writes of the log, for all values of the states, exactly when no state is forgotten. */
  ghost predicate KeepsReplay(before: Entries, log: seq<LogEntry>, after: Entries) {
    (forall regs: Registers :: Replay(after, regs) == WriteAll(Replay(before, regs), log))
      <==> (forall a: nat :: !Forgets(before, log, a))
  }

  /** Replaying `after` is replaying both deltas in turn exactly when no state recorded by both clashes. */
  ghost predicate ReplaysBoth(before: Entries, newer: Entries, after: Entries) {
    (forall regs: Registers :: Replay(after, regs) == Replay(newer, Replay(before, regs))) <==> Safe(before, newer)
  }

  /** A delta of canonical records holds each state once, and its records compact to its contents. */
  lemma RecordsAreContents(mirroring: bool, delta: StateDelta)
    requires delta.Valid() && delta.IsCanonical(mirroring)
    ensures DistinctStates(AsLog(mirroring, delta.Records()))
    ensures Compact(AsLog(mirroring, delta.Records())) == delta.Contents()
  {
    var records := delta.Records();
    MapTellsRecorded(delta.id, delta.mapEntryID[..], delta.mapEntryIndex[..], records, 0);
    CanonicalLog(mirroring, records);
  }

  lemma CanonicalLog(mirroring: bool, records: seq<Record>)
    requires AllCanonical(mirroring, ContentsOf(records))
    ensures AsLog(mirroring, records) == AsLog(false, records)
  {
    forall r | 0 <= r < |records| ensures Canonical(mirroring, records[r].address) == records[r].address {
      RecordedIsInContents(records, records[r].address);
    }
  }

  lemma BothReplay(before: Entries, log: seq<LogEntry>, newer: Entries)
    requires DistinctStates(log) && Compact(log) == newer
    ensures ReplaysBoth(before, newer, MergeLog(before, log))
  {
    MergesAsWhole(before, log);
    MergePreservesReplay(before, newer);
  }

  lemma UpdateStaysCanonical(mirroring: bool, before: Entries, records: seq<Record>)
    requires AllCanonical(mirroring, before)
    ensures AllCanonical(mirroring, MergeLog(before, AsLog(mirroring, records)))
  {
    MergedStayCanonical(mirroring, before, records, |records|);
    assert AsLog(mirroring, records)[..|records|] == AsLog(mirroring, records);
  }

  /** A newer delta that records a state and its mirror image, each once: merged into nothing, the
      plain write is forgotten under the mask of the other. */
  lemma MirrorPairIsForgotten()
    ensures var records := [Record(0x5800, ZERO, {0}), Record(0x5B00, {1}, {1})];
      && DistinctStates(AsLog(false, records)) && !DistinctStates(AsLog(true, records))
      && Forgets(map[], AsLog(true, records), 0x5B00)
  {
    var records := [Record(0x5800, ZERO, {0}), Record(0x5B00, {1}, {1})];
    var log := AsLog(true, records);
    assert log[0] == LogEntry(0x5B00, Entry(ZERO, {0})) && log[1] == LogEntry(0x5B00, Entry({1}, {1}));
    assert log[..1] == [log[0]] && log[..1][..0] == [];
    assert PlainlyWritten(map[], log[..1], 0x5B00) && MaskSince(map[], log[..1], 0x5B00) == ZERO;
    assert MaskSince(map[], log, 0x5B00) == {1};
    assert 2 in ALL - {1};
  }

  // ----- Replaying records -----

  /** gckCONTEXT_Update record by record. A state and its mirror image have one slot in the context
      buffer, under the address of the image. */
  function ReplayRecords(mirroring: bool, records: seq<Record>, slots: Registers): Registers {
    WriteAll(slots, AsLog(mirroring, records))
  }

  /** Canonical records can be replayed by state: their order does not matter. */
  lemma CanonicalRecordsReplay(mirroring: bool, records: seq<Record>, slots: Registers)
    requires DistinctRecords(records) && AllCanonical(mirroring, ContentsOf(records))
    ensures ReplayRecords(mirroring, records, slots) == Replay(ContentsOf(records), slots)
  {
    CanonicalLog(mirroring, records);
    DistinctLogReplays(AsLog(mirroring, records), slots);
  }

  lemma UpdateMeaning(mirroring: bool, before: Entries, delta: StateDelta)
    requires delta.Valid()
    ensures var log := AsLog(mirroring, delta.Records()); var after := MergeLog(before, log);
      && (AllCanonical(mirroring, before) ==> AllCanonical(mirroring, after))
      && KeepsReplay(before, log, after)
      && (delta.IsCanonical(mirroring) ==> ReplaysBoth(before, delta.Contents(), after))
  {
    var log := AsLog(mirroring, delta.Records());
    MergingIsExact(before, log);
    if AllCanonical(mirroring, before) { UpdateStaysCanonical(mirroring, before, delta.Records()); }
    if delta.IsCanonical(mirroring) {
      RecordsAreContents(mirroring, delta);
      BothReplay(before, log, delta.Contents());
    }
  }

  /** Merging the later records into the first replays as the two lists in turn. */
  predicate ReplaysInTurn(mirroring: bool, first: seq<Record>, later: seq<Record>, slots: Registers) {
    ReplayRecords(mirroring, MergeEach(mirroring, first, later), slots)
      == ReplayRecords(mirroring, later, ReplayRecords(mirroring, first, slots))
  }

  /** The merging branch of gckCONTEXT_UpdateDelta: the records, then the element count if there is
      one; the newer delta is reset. `states` are the states of the context, each of which has a slot
      in recordArray. */
  method MergeAndReset(mirroring: bool, ghost states: set<nat>, prev: StateDelta, delta: StateDelta)
    requires prev.Valid() && delta.Valid()
    requires prev != delta && prev.recordArray != delta.recordArray
    requires {prev.mapEntryID as object, prev.mapEntryIndex} !! {delta.mapEntryID as object, delta.mapEntryIndex}
    requires prev.Contents().Keys <= states && |states| <= prev.recordArray.Length
    requires AllMapped(mirroring, delta.Records(), states, prev.mapEntryID.Length)
    modifies prev`elementCount, prev`recordCount, prev.recordArray, prev.mapEntryID, prev.mapEntryIndex
    modifies delta`id, delta`elementCount, delta`recordCount, delta.mapEntryID
    ensures prev.Valid() && delta.Valid() && prev.Contents().Keys <= states
    ensures prev.Records() == MergeEach(mirroring, old(prev.Records()), old(delta.Records()))
    ensures prev.elementCount ==
      if old(delta.elementCount) != 0 then old(delta.elementCount) else old(prev.elementCount)
    ensures delta.Records() == [] && delta.elementCount == 0
  {
    MergeRecords(mirroring, states, prev, delta);
    if delta.elementCount != 0 {
      prev.elementCount := delta.elementCount;
    }
    delta.ResetDelta();
  }

  lemma MergedRecordsContents(mirroring: bool, prev: StateDelta, more: seq<Record>)
    requires prev.Valid()
    ensures ContentsOf(MergeEach(mirroring, prev.Records(), more))
         == MergeLog(prev.Contents(), AsLog(mirroring, more))
  {
    MapTellsRecorded(prev.id, prev.mapEntryID[..], prev.mapEntryIndex[..], prev.Records(), 0);
    MergeEachContents(mirroring, prev.Records(), more);
  }

  /** The same branch, with what it means for a replay. */
  method MergeNewerDelta(mirroring: bool, ghost states: set<nat>, prev: StateDelta, delta: StateDelta)
    requires prev.Valid() && delta.Valid()
    requires prev != delta && prev.recordArray != delta.recordArray
    requires {prev.mapEntryID as object, prev.mapEntryIndex} !! {delta.mapEntryID as object, delta.mapEntryIndex}
    requires prev.Contents().Keys <= states && |states| <= prev.recordArray.Length
    requires AllMapped(mirroring, delta.Records(), states, prev.mapEntryID.Length)
    modifies prev`elementCount, prev`recordCount, prev.recordArray, prev.mapEntryID, prev.mapEntryIndex
    modifies delta`id, delta`elementCount, delta`recordCount, delta.mapEntryID
    ensures prev.Valid() && delta.Valid() && delta.Records() == []
    ensures prev.Contents() == MergeLog(old(prev.Contents()), AsLog(mirroring, old(delta.Records())))
    ensures prev.elementCount ==
      if old(delta.elementCount) != 0 then old(delta.elementCount) else old(prev.elementCount)
    ensures delta.Contents() == map[] && delta.elementCount == 0
    ensures old(prev.IsCanonical(mirroring)) ==> prev.IsCanonical(mirroring)
    ensures KeepsReplay(old(prev.Contents()), AsLog(mirroring, old(delta.Records())), prev.Contents())
    ensures old(delta.IsCanonical(mirroring)) ==>
      ReplaysBoth(old(prev.Contents()), old(delta.Contents()), prev.Contents())
  {
    UpdateMeaning(mirroring, prev.Contents(), delta);
    MergedRecordsContents(mirroring, prev, delta.Records());
    MergeAndReset(mirroring, states, prev, delta);
  }
}
