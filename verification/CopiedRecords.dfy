/** The first user's delta is copied into the context, not merged: what becomes of a state that it records
    next to its mirror image. */
module CopiedRecords {
  import opened DeltaReplay
  import opened StateDelta

  /** Some state is recorded before a state that it mirrors. */
  predicate MirrorAfter(mirroring: bool, records: seq<Record>) {
    exists i, j :: 0 <= i < j < |records| && records[i].address == Canonical(mirroring, records[j].address)
  }

  predicate AllPlain(records: seq<Record>) {
    forall r :: 0 <= r < |records| ==> records[r].mask == ZERO
  }

  predicate Avoids(log: seq<LogEntry>, state: nat) {
    forall i :: 0 <= i < |log| ==> log[i].address != state
  }

  /** A plain write can be moved over writes to other states. */
  lemma {:induction false} PlainWriteMoves(regs: Registers, log: seq<LogEntry>, w: LogEntry)
    requires Avoids(log, w.address) && w.entry.mask == ZERO
    ensures WriteAll(WriteOne(regs, w), log) == WriteOne(WriteAll(regs, log), w)
  {
    if log != [] {
      var init, last := log[..|log| - 1], log[|log| - 1];
      PlainWriteMoves(regs, init, w);
      TwoStates(WriteAll(regs, init), last, w);
    }
  }

  lemma TwoStates(regs: Registers, w1: LogEntry, w2: LogEntry)
    requires w1.address != w2.address
    ensures WriteOne(WriteOne(regs, w2), w1) == WriteOne(WriteOne(regs, w1), w2)
  {
  }

  lemma PlainWriteCovers(regs: Registers, state: nat, e: Entry, w: Entry)
    requires w.mask == ZERO
    ensures WriteOne(WriteOne(regs, LogEntry(state, e)), LogEntry(state, w)) == WriteOne(regs, LogEntry(state, w))
  {
  }

  lemma {:induction false} AvoidedValue(regs: Registers, log: seq<LogEntry>, state: nat)
    requires Avoids(log, state) && state in regs
    ensures state in WriteAll(regs, log) && WriteAll(regs, log)[state] == regs[state]
  {
    if log != [] { AvoidedValue(regs, log[..|log| - 1], state); }
  }

  /** A record list replayed in three parts. */
  lemma ReplayAround(mirroring: bool, records: seq<Record>, r: nat, slots: Registers)
    requires r < |records|
    ensures var before := ReplayRecords(mirroring, records[..r], slots);
      var w := LogEntry(Canonical(mirroring, records[r].address), Entry(records[r].mask, records[r].data));
      ReplayRecords(mirroring, records, slots)
        == WriteAll(WriteOne(before, w), AsLog(mirroring, records[r + 1..]))
  {
    var w := LogEntry(Canonical(mirroring, records[r].address), Entry(records[r].mask, records[r].data));
    var init, rest := AsLog(mirroring, records[..r]), AsLog(mirroring, records[r + 1..]);
    assert AsLog(mirroring, records) == init + [w] + rest;
    WriteAllConcat(slots, init + [w], rest);
    assert (init + [w])[..|init|] == init;
  }

  lemma Appended(mirroring: bool, records: seq<Record>, record: Record, slots: Registers)
    ensures ReplayRecords(mirroring, records + [record], slots) ==
      WriteOne(ReplayRecords(mirroring, records, slots),
               LogEntry(Canonical(mirroring, record.address), Entry(record.mask, record.data)))
  {
    assert AsLog(mirroring, records + [record])[..|records|] == AsLog(mirroring, records);
  }

  lemma SuffixAvoids(mirroring: bool, records: seq<Record>, r: nat)
    requires r < |records| && !MirrorAfter(mirroring, records)
    ensures Avoids(AsLog(mirroring, records[r + 1..]), records[r].address)
  {
    var log := AsLog(mirroring, records[r + 1..]);
    forall k | 0 <= k < |log| ensures log[k].address != records[r].address {
      assert records[r + 1..][k] == records[r + 1 + k];
    }
  }

  lemma UpdatedInPlace(mirroring: bool, records: seq<Record>, r: nat, e: Entry, slots: Registers)
    requires r < |records| && !MirrorAfter(mirroring, records) && e.mask == ZERO
    requires Canonical(mirroring, records[r].address) == records[r].address
    ensures ReplayRecords(mirroring, MergedAt(records, r, e), slots)
         == WriteOne(ReplayRecords(mirroring, records, slots), LogEntry(records[r].address, e))
  {
    var after, state := MergedAt(records, r, e), records[r].address;
    var before, rest := ReplayRecords(mirroring, records[..r], slots), AsLog(mirroring, records[r + 1..]);
    var was, w := LogEntry(state, Entry(records[r].mask, records[r].data)), LogEntry(state, e);
    ReplayAround(mirroring, records, r, slots);
    ReplayAround(mirroring, after, r, slots);
    assert after[..r] == records[..r] && after[r + 1..] == records[r + 1..];
    assert after[r] == Record(state, e.mask, e.data);
    SuffixAvoids(mirroring, records, r);
    PlainWriteCovers(before, state, was.entry, e);
    PlainWriteMoves(WriteOne(before, was), rest, w);
  }

  lemma PlainMergeStep(mirroring: bool, records: seq<Record>, state: nat, e: Entry, slots: Registers)
    requires !MirrorAfter(mirroring, records) && e.mask == ZERO && Canonical(mirroring, state) == state
    ensures ReplayRecords(mirroring, MergeRecord(records, state, e), slots)
         == WriteOne(ReplayRecords(mirroring, records, slots), LogEntry(state, e))
  {
    if Recorded(records, state) {
      UpdatedInPlace(mirroring, records, Find(records, state), e, slots);
    } else {
      Appended(mirroring, records, Record(state, e.mask, e.data), slots);
    }
  }

  lemma MergeKeepsOrder(mirroring: bool, records: seq<Record>, state: nat, e: Entry)
    requires !MirrorAfter(mirroring, records) && Canonical(mirroring, state) == state
    ensures !MirrorAfter(mirroring, MergeRecord(records, state, e))
  {
    var after := MergeRecord(records, state, e);
    forall i, j | 0 <= i < j < |after| ensures after[i].address != Canonical(mirroring, after[j].address) {
      if j < |records| {
        assert after[i].address == records[i].address && after[j].address == records[j].address;
        assert records[i].address != Canonical(mirroring, records[j].address);
      } else {
        assert after[j].address == state && records[i].address != state;
      }
    }
  }

  lemma {:induction false} PlainMergesReplay(mirroring: bool, first: seq<Record>, later: seq<Record>, slots: Registers)
    requires !MirrorAfter(mirroring, first) && AllPlain(later)
    ensures !MirrorAfter(mirroring, MergeEach(mirroring, first, later))
    ensures ReplaysInTurn(mirroring, first, later, slots)
  {
    if later != [] {
      var n := |later| - 1;
      var state, e := Canonical(mirroring, later[n].address), Entry(later[n].mask, later[n].data);
      var merged := MergeEach(mirroring, first, later[..n]);
      PlainMergesReplay(mirroring, first, later[..n], slots);
      CanonicalIsIdempotent(mirroring, later[n].address);
      MergeKeepsOrder(mirroring, merged, state, e);
      PlainMergeStep(mirroring, merged, state, e, slots);
      Appended(mirroring, later[..n], later[n], ReplayRecords(mirroring, first, slots));
      assert later == later[..n] + [later[n]];
    }
  }

  /** The last record of a slot, at or after j. */
  lemma LastOf(mirroring: bool, records: seq<Record>, j: nat) returns (k: nat)
    requires j < |records|
    ensures j <= k < |records| && Canonical(mirroring, records[k].address) == Canonical(mirroring, records[j].address)
    ensures Avoids(AsLog(mirroring, records[k + 1..]), Canonical(mirroring, records[j].address))
    decreases |records| - j
  {
    var state := Canonical(mirroring, records[j].address);
    if m: nat :| j < m < |records| && Canonical(mirroring, records[m].address) == state {
      k := LastOf(mirroring, records, m);
    } else {
      k := j;
      var log := AsLog(mirroring, records[k + 1..]);
      forall i | 0 <= i < |log| ensures log[i].address != state {
        assert records[k + 1..][i] == records[k + 1 + i];
      }
    }
  }

  lemma MirrorImagesAreOrdinary(mirroring: bool, address: nat)
    requires Canonical(mirroring, address) != address
    ensures Cleared(Canonical(mirroring, address)) == ZERO
  {
  }

  /** The bit by which the last record of the slot betrays itself. */
  lemma ComplementDiffers(e: Entry, v: WordBits)
    ensures Effect(ZERO, e, v) != ALL - e.data
  {
    var b: nat :| b in ALL && (Partial(e.mask) ==> b in e.mask);
    assert b in Effect(ZERO, e, v) <==> b in e.data;
  }

  /** A later plain write to the state is lost under the older record of the state that mirrors it. */
  lemma LaterWriteIsLost(mirroring: bool, first: seq<Record>, i: nat, j: nat)
    requires DistinctRecords(first) && i < j < |first|
    requires first[i].address == Canonical(mirroring, first[j].address)
    ensures exists later: seq<Record>, slots: Registers ::
      AllPlain(later) && !ReplaysInTurn(mirroring, first, later, slots)
  {
    var state := first[i].address;
    CanonicalIsIdempotent(mirroring, first[j].address);
    MirrorImagesAreOrdinary(mirroring, first[j].address);
    var k := LastOf(mirroring, first, j);
    var e := Entry(ZERO, ALL - first[k].data);
    var later, slots: Registers := [Record(state, e.mask, e.data)], map[state := ZERO];
    IndexOf(first, state, i);
    assert later[..0] == [];
    assert MergeEach(mirroring, first, later) == MergedAt(first, i, e);
    LostUnder(mirroring, first, i, k, e, slots);
    ReplayedLast(mirroring, first, later[0], slots);
    assert !ReplaysInTurn(mirroring, first, later, slots);
  }

  /** In the merged records the slot ends with the effect of the older record. */
  lemma LostUnder(mirroring: bool, first: seq<Record>, i: nat, k: nat, e: Entry, slots: Registers)
    requires i < k < |first| && Canonical(mirroring, first[k].address) == first[i].address && first[i].address in slots
    requires Avoids(AsLog(mirroring, first[k + 1..]), first[i].address)
    requires Cleared(first[i].address) == ZERO && e == Entry(ZERO, ALL - first[k].data)
    ensures first[i].address in ReplayRecords(mirroring, MergedAt(first, i, e), slots)
    ensures ReplayRecords(mirroring, MergedAt(first, i, e), slots)[first[i].address] != e.data
  {
    var after, state := MergedAt(first, i, e), first[i].address;
    var before := ReplayRecords(mirroring, after[..k], slots);
    var entry := Entry(first[k].mask, first[k].data);
    ReplayAround(mirroring, after, k, slots);
    WritesKeepKeys(slots, AsLog(mirroring, after[..k]));
    assert after[k] == first[k] && after[k + 1..] == first[k + 1..];
    AvoidedValue(WriteOne(before, LogEntry(state, entry)), AsLog(mirroring, after[k + 1..]), state);
    ComplementDiffers(entry, before[state]);
  }

  lemma ReplayedLast(mirroring: bool, first: seq<Record>, record: Record, slots: Registers)
    requires Canonical(mirroring, record.address) == record.address && record.address in slots
    requires record.mask == ZERO && Cleared(record.address) == ZERO
    ensures var r := ReplayRecords(mirroring, [record], ReplayRecords(mirroring, first, slots));
      record.address in r && r[record.address] == record.data
  {
    WritesKeepKeys(slots, AsLog(mirroring, first));
    Appended(mirroring, [], record, ReplayRecords(mirroring, first, slots));
    assert [] + [record] == [record];
  }

  /** Whatever plain writes later deltas record: merging them into a copied delta keeps their order
      exactly when the copy records no state before one that it mirrors. */
  lemma CopyKeepsOrder(mirroring: bool, first: seq<Record>)
    requires DistinctRecords(first)
    ensures (forall later: seq<Record>, slots: Registers ::
              AllPlain(later) ==> ReplaysInTurn(mirroring, first, later, slots))
       <==> !MirrorAfter(mirroring, first)
  {
    if i, j :| 0 <= i < j < |first| && first[i].address == Canonical(mirroring, first[j].address) {
      LaterWriteIsLost(mirroring, first, i, j);
    } else {
      forall later: seq<Record>, slots: Registers | AllPlain(later)
        ensures ReplaysInTurn(mirroring, first, later, slots)
      {
        PlainMergesReplay(mirroring, first, later, slots);
      }
    }
  }

  /** The smallest such copy: a later write of bit 2 is lost under bit 1. */
  lemma CopiedPairLosesLaterWrite()
    ensures var first := [Record(0x5B00, ZERO, {0}), Record(0x5800, ZERO, {1})];
      var later, slots: Registers := [Record(0x5800, ZERO, {2})], map[0x5B00 := ZERO];
      && ReplayRecords(true, MergeEach(true, first, later), slots) == map[0x5B00 := {1}]
      && ReplayRecords(true, later, ReplayRecords(true, first, slots)) == map[0x5B00 := {2}]
  {
    var r0, r1, r2 := Record(0x5B00, ZERO, {0}), Record(0x5800, ZERO, {1}), Record(0x5800, ZERO, {2});
    MergedPair(r0, r1, r2);
    ReplayPair(Record(0x5B00, ZERO, {2}), r1);
    ReplayPair(r0, r1);
    ReplayOne(r2, map[0x5B00 := {1}]);
  }

  lemma MergedPair(r0: Record, r1: Record, r2: Record)
    requires r0.address == 0x5B00 && r1.address == 0x5800 && r2.address == 0x5800 && r2.mask == ZERO
    ensures MergeEach(true, [r0, r1], [r2]) == [Record(0x5B00, ZERO, r2.data), r1]
  {
    var first, later := [r0, r1], [r2];
    assert first[0].address == 0x5B00;
    IndexOf(first, 0x5B00, 0);
    assert later[..0] == [] && MergeEach(true, first, []) == first;
    assert MergeEach(true, first, later) == MergedAt(first, 0, Entry(ZERO, r2.data));
  }

  lemma ReplayOne(r: Record, slots: Registers)
    requires Canonical(true, r.address) == 0x5B00 && r.mask == ZERO && slots.Keys == {0x5B00}
    ensures ReplayRecords(true, [r], slots) == map[0x5B00 := r.data]
  {
    Appended(true, [], r, slots);
    assert [] + [r] == [r] && AsLog(true, []) == [];
    assert r.data - ZERO == r.data;
  }

  lemma ReplayPair(r0: Record, r1: Record)
    requires r0.address == 0x5B00 && r1.address == 0x5800 && r0.mask == r1.mask == ZERO
    ensures ReplayRecords(true, [r0, r1], map[0x5B00 := ZERO]) == map[0x5B00 := r1.data]
  {
    ReplayOne(r0, map[0x5B00 := ZERO]);
    Appended(true, [r0], r1, map[0x5B00 := ZERO]);
    assert [r0] + [r1] == [r0, r1];
    assert r1.data - ZERO == r1.data;
  }
}
