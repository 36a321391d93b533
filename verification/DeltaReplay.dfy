/** What a compacted delta means: the records that gckCONTEXT_Update replays, against the state writes
    that went into them. */
module DeltaReplay {

  /** A 32-bit word as the set of its one bits: `&` is `*`, `|` is `+`, and `x & ~m` is `x - m`. */
  type WordBits = x: set<nat> | x <= ALL

  const ALL: set<nat> := set i | 0 <= i < 32

  const ZERO: set<nat> := {}

  /** A write under a mask; the mask ZERO stands for a plain write of all bits. */
  datatype Entry = Entry(mask: WordBits, data: WordBits)

  /** A mask that leaves some bits alone. */
  predicate Partial(mask: WordBits) {
    mask != ZERO && mask != ALL
  }

  /** The bits that a complete write of state a may not set: auto-disable stays off in state 0x0595. */
  function Cleared(a: nat): WordBits {
    if a == 0x0595 then {4, 5, 13} else ZERO
  }

  /** `(~mask & v) | (mask & d)`. */
  function Blend(mask: WordBits, v: WordBits, d: WordBits): WordBits {
    (v - mask) + (mask * d)
  }

  /** What gckCONTEXT_Update does with one record: the new value of a state whose value was v. */
  function Effect(cleared: WordBits, e: Entry, v: WordBits): WordBits {
    if Partial(e.mask) then Blend(e.mask, v, e.data) else e.data - cleared
  }

  /** What _MergeDelta stores when the state already has a record. */
  function MergeEntry(earlier: Entry, later: Entry): Entry {
    if later.mask == ZERO then Entry(ZERO, later.data)
    else Entry(earlier.mask + later.mask, (earlier.data - later.mask) + (later.data * later.mask))
  }

  /** The compacted log: at most one entry for each state. */
  type Entries = map<nat, Entry>

  function Merge(entries: Entries, address: nat, e: Entry): Entries {
    entries[address := if address in entries then MergeEntry(entries[address], e) else e]
  }

  datatype LogEntry = LogEntry(address: nat, entry: Entry)

  /** A log merged into `entries`, one write at a time. */
  function MergeLog(entries: Entries, log: seq<LogEntry>): Entries {
    if log == [] then entries
    else var n := |log| - 1; Merge(MergeLog(entries, log[..n]), log[n].address, log[n].entry)
  }

  function Compact(log: seq<LogEntry>): Entries {
    MergeLog(map[], log)
  }

  /** The values of the states that the context maps. */
  type Registers = map<nat, WordBits>

  /** gckCONTEXT_Update: replays one record for each recorded state; unmapped states are skipped. */
  function Replay(entries: Entries, regs: Registers): Registers {
    map a | a in regs :: if a in entries then Effect(Cleared(a), entries[a], regs[a]) else regs[a]
  }

  function WriteOne(regs: Registers, w: LogEntry): Registers {
    if w.address in regs then regs[w.address := Effect(Cleared(w.address), w.entry, regs[w.address])] else regs
  }

  /** The writes of the log made one at a time. */
  function WriteAll(regs: Registers, log: seq<LogEntry>): Registers {
    if log == [] then regs else WriteOne(WriteAll(regs, log[..|log| - 1]), log[|log| - 1])
  }

  // ----- The history of one state -----

  /** The cleared bits that are lit, because a partial write since the last complete one set them. */
  function Lit(cleared: WordBits, lit: WordBits, w: Entry): WordBits {
    if Partial(w.mask) then (lit - w.mask) + (w.mask * w.data * cleared) else ZERO
  }

  /** What a merged record cannot tell: a plain write under a partial mask, or a lit bit under a mask
      that has become complete. */
  predicate Loses(mask: WordBits, plain: bool, lit: WordBits) {
    (plain && Partial(mask)) || (mask == ALL && lit != ZERO)
  }

  /** The merged record e of writes that took the value v to `now`. */
  ghost predicate Tracks(cleared: WordBits, e: Entry, plain: bool, lit: WordBits, now: WordBits, v: WordBits) {
    && (e.mask == ZERO ==> plain && lit == ZERO)
    && lit <= cleared
    && if Partial(e.mask) && !plain then now == Blend(e.mask, v, e.data) && lit == e.mask * e.data * cleared
       else now == (e.data - cleared) + lit
  }

  lemma FirstTracks(cleared: WordBits, w: Entry, v: WordBits)
    ensures Tracks(cleared, w, w.mask == ZERO, Lit(cleared, ZERO, w), Effect(cleared, w, v), v)
  {
  }

  lemma CompleteTracks(cleared: WordBits, e: Entry, plain: bool, lit: WordBits, now: WordBits, w: Entry, v: WordBits)
    requires Tracks(cleared, e, plain, lit, now, v) && !Partial(w.mask)
    ensures Tracks(cleared, MergeEntry(e, w), plain || w.mask == ZERO, Lit(cleared, lit, w), Effect(cleared, w, now), v)
  {
    if w.mask == ALL {
      assert e.mask + w.mask == ALL;
      assert (e.data - w.mask) + (w.data * w.mask) == w.data;
    }
  }

  lemma BlendTwice(m1: WordBits, d1: WordBits, m2: WordBits, d2: WordBits, v: WordBits)
    ensures Blend(m1 + m2, v, (d1 - m2) + (d2 * m2)) == Blend(m2, Blend(m1, v, d1), d2)
  {
  }

  lemma LitTwice(cleared: WordBits, m1: WordBits, d1: WordBits, m2: WordBits, d2: WordBits)
    ensures ((m1 * d1 * cleared) - m2) + (m2 * d2 * cleared) == (m1 + m2) * ((d1 - m2) + (d2 * m2)) * cleared
  {
  }

  lemma BlendOver(cleared: WordBits, d: WordBits, lit: WordBits, m: WordBits, d2: WordBits)
    requires lit <= cleared
    ensures Blend(m, (d - cleared) + lit, d2)
         == (((d - m) + (d2 * m)) - cleared) + ((lit - m) + (m * d2 * cleared))
  {
  }

  lemma WholeBlend(cleared: WordBits, v: WordBits, d: WordBits)
    ensures Blend(ALL, v, d) == (d - cleared) + (ALL * d * cleared)
  {
  }

  lemma PartialTracks(cleared: WordBits, e: Entry, plain: bool, lit: WordBits, now: WordBits, w: Entry, v: WordBits)
    requires Tracks(cleared, e, plain, lit, now, v) && Partial(w.mask)
    ensures Tracks(cleared, MergeEntry(e, w), plain, Lit(cleared, lit, w), Effect(cleared, w, now), v)
  {
    if Partial(e.mask) && !plain {
      BlendTwice(e.mask, e.data, w.mask, w.data, v);
      LitTwice(cleared, e.mask, e.data, w.mask, w.data);
      WholeBlend(cleared, v, MergeEntry(e, w).data);
    } else {
      BlendOver(cleared, e.data, lit, w.mask, w.data);
      if e.mask == ALL { assert e.mask + w.mask == ALL; }
    }
  }

  lemma NextTracks(cleared: WordBits, e: Entry, plain: bool, lit: WordBits, now: WordBits, w: Entry, v: WordBits)
    requires Tracks(cleared, e, plain, lit, now, v)
    ensures Tracks(cleared, MergeEntry(e, w), plain || w.mask == ZERO, Lit(cleared, lit, w), Effect(cleared, w, now), v)
  {
    if Partial(w.mask) {
      PartialTracks(cleared, e, plain, lit, now, w, v);
    } else {
      CompleteTracks(cleared, e, plain, lit, now, w, v);
    }
  }

  lemma NothingLost(cleared: WordBits, e: Entry, plain: bool, lit: WordBits, now: WordBits, v: WordBits)
    requires Tracks(cleared, e, plain, lit, now, v) && !Loses(e.mask, plain, lit)
    ensures Effect(cleared, e, v) == now
  {
  }

  /** The value that shows the loss: the complement of what the writes leave. */
  lemma LossShows(cleared: WordBits, e: Entry, plain: bool, lit: WordBits, now: WordBits)
    requires Loses(e.mask, plain, lit)
    requires Tracks(cleared, e, plain, lit, now, ALL - ((e.data - cleared) + lit))
    ensures Effect(cleared, e, ALL - ((e.data - cleared) + lit)) != now
  {
    var v := ALL - ((e.data - cleared) + lit);
    if Partial(e.mask) {
      var i :| i in ALL && i !in e.mask;
      assert i in Effect(cleared, e, v) <==> i !in now;
    } else {
      var i :| i in lit;
      assert i in now && i !in Effect(cleared, e, v);
    }
  }

  // ----- Two writes -----

  /** A partial write after a plain one, or one that completes the mask while a cleared bit is lit. */
  predicate Clashes(cleared: WordBits, first: Entry, second: Entry) {
    && Partial(second.mask)
    && (|| first.mask == ZERO
        || (first.mask + second.mask == ALL && Lit(cleared, Lit(cleared, ZERO, first), second) != ZERO))
  }

  /** One merge keeps the meaning of two writes, for every value of the state, exactly unless a plain
      write is followed by one under a partial mask, or a bit that complete writes clear is set by a
      partial write and the two masks together are complete. */
  lemma MergeEntryIsExact(cleared: WordBits, first: Entry, second: Entry)
    ensures (forall v: WordBits :: Effect(cleared, MergeEntry(first, second), v)
                            == Effect(cleared, second, Effect(cleared, first, v)))
       <==> !Clashes(cleared, first, second)
  {
    if Clashes(cleared, first, second) {
      ClashShows(cleared, first, second);
    } else {
      forall v: WordBits
        ensures Effect(cleared, MergeEntry(first, second), v) == Effect(cleared, second, Effect(cleared, first, v))
      {
        MergeKeeps(cleared, first, second, v);
      }
    }
  }

  lemma TwoTrack(cleared: WordBits, first: Entry, second: Entry, v: WordBits)
    ensures Tracks(cleared, MergeEntry(first, second), first.mask == ZERO || second.mask == ZERO,
                   Lit(cleared, Lit(cleared, ZERO, first), second),
                   Effect(cleared, second, Effect(cleared, first, v)), v)
  {
    FirstTracks(cleared, first, v);
    NextTracks(cleared, first, first.mask == ZERO, Lit(cleared, ZERO, first), Effect(cleared, first, v), second, v);
  }

  lemma MergeKeeps(cleared: WordBits, first: Entry, second: Entry, v: WordBits)
    requires !Clashes(cleared, first, second)
    ensures Effect(cleared, MergeEntry(first, second), v) == Effect(cleared, second, Effect(cleared, first, v))
  {
    TwoTrack(cleared, first, second, v);
    var lit := Lit(cleared, Lit(cleared, ZERO, first), second);
    NothingLost(cleared, MergeEntry(first, second), first.mask == ZERO || second.mask == ZERO, lit,
                Effect(cleared, second, Effect(cleared, first, v)), v);
  }

  lemma ClashShows(cleared: WordBits, first: Entry, second: Entry)
    requires Clashes(cleared, first, second)
    ensures exists v: WordBits :: Effect(cleared, MergeEntry(first, second), v)
                           != Effect(cleared, second, Effect(cleared, first, v))
  {
    var e := MergeEntry(first, second);
    var lit := Lit(cleared, Lit(cleared, ZERO, first), second);
    var v: WordBits := ALL - ((e.data - cleared) + lit);
    TwoTrack(cleared, first, second, v);
    LossShows(cleared, e, first.mask == ZERO, lit, Effect(cleared, second, Effect(cleared, first, v)));
  }

  // ----- Two deltas -----

  function MergeAll(first: Entries, second: Entries): Entries {
    map a | a in first.Keys + second.Keys ::
      if a !in second then first[a]
      else if a !in first then second[a]
      else MergeEntry(first[a], second[a])
  }

  predicate Safe(first: Entries, second: Entries) {
    forall a :: a in first && a in second ==> !Clashes(Cleared(a), first[a], second[a])
  }

  /** Merging a newer delta into an older one replays as both in turn, for all values of the states,
      exactly when no state recorded by both clashes. */
  lemma MergePreservesReplay(first: Entries, second: Entries)
    ensures (forall regs: Registers :: Replay(MergeAll(first, second), regs) == Replay(second, Replay(first, regs)))
       <==> Safe(first, second)
  {
    if Safe(first, second) {
      forall regs: Registers ensures Replay(MergeAll(first, second), regs) == Replay(second, Replay(first, regs)) {
        forall a | a in regs && a in first && a in second
          ensures Replay(MergeAll(first, second), regs)[a] == Replay(second, Replay(first, regs))[a]
        {
          MergeKeeps(Cleared(a), first[a], second[a], regs[a]);
        }
      }
    } else {
      var a :| a in first && a in second && Clashes(Cleared(a), first[a], second[a]);
      ClashShows(Cleared(a), first[a], second[a]);
      var v: WordBits :| Effect(Cleared(a), MergeEntry(first[a], second[a]), v)
                  != Effect(Cleared(a), second[a], Effect(Cleared(a), first[a], v));
      var regs: Registers := map[a := v];
      assert Replay(MergeAll(first, second), regs)[a] != Replay(second, Replay(first, regs))[a];
    }
  }

  // ----- A log merged into a delta -----

  predicate PlainlyWritten(entries: Entries, log: seq<LogEntry>, a: nat) {
    if log == [] then a in entries && entries[a].mask == ZERO
    else
      var last := log[|log| - 1];
      PlainlyWritten(entries, log[..|log| - 1], a) || (last.address == a && last.entry.mask == ZERO)
  }

  /** The union of the masks on state a since its last plain write. */
  function MaskSince(entries: Entries, log: seq<LogEntry>, a: nat): WordBits {
    if log == [] then if a in entries then entries[a].mask else ZERO
    else
      var before, last := MaskSince(entries, log[..|log| - 1], a), log[|log| - 1];
      if last.address != a then before else if last.entry.mask == ZERO then ZERO else before + last.entry.mask
  }

  function LitBits(entries: Entries, log: seq<LogEntry>, a: nat): WordBits {
    if log == [] then if a in entries then Lit(Cleared(a), ZERO, entries[a]) else ZERO
    else
      var before, last := LitBits(entries, log[..|log| - 1], a), log[|log| - 1];
      if last.address != a then before else Lit(Cleared(a), before, last.entry)
  }

  /** After the delta and the log, the record of state a cannot tell what the writes did. */
  predicate Forgets(entries: Entries, log: seq<LogEntry>, a: nat) {
    Loses(MaskSince(entries, log, a), PlainlyWritten(entries, log, a), LitBits(entries, log, a))
  }

  /** State a along the whole log. */
  ghost predicate LogTracks(regs: Registers, entries: Entries, log: seq<LogEntry>, a: nat)
    requires a in regs
  {
    var merged, all := MergeLog(entries, log), WriteAll(Replay(entries, regs), log);
    var plain, mask, lit := PlainlyWritten(entries, log, a), MaskSince(entries, log, a), LitBits(entries, log, a);
    && a in all
    && if a in merged then mask == merged[a].mask && Tracks(Cleared(a), merged[a], plain, lit, all[a], regs[a])
       else !plain && mask == ZERO && lit == ZERO && all[a] == regs[a]
  }

  lemma {:induction false} EveryStateTracks(regs: Registers, entries: Entries, log: seq<LogEntry>, a: nat)
    requires a in regs
    ensures LogTracks(regs, entries, log, a)
  {
    if log == [] {
      if a in entries { FirstTracks(Cleared(a), entries[a], regs[a]); }
    } else {
      var init, last := log[..|log| - 1], log[|log| - 1];
      EveryStateTracks(regs, entries, init, a);
      StateStep(regs, entries, log, a);
    }
  }

  lemma StateStep(regs: Registers, entries: Entries, log: seq<LogEntry>, a: nat)
    requires a in regs && log != [] && LogTracks(regs, entries, log[..|log| - 1], a)
    ensures LogTracks(regs, entries, log, a)
  {
    var init, last := log[..|log| - 1], log[|log| - 1];
    if last.address == a {
      var now := WriteAll(Replay(entries, regs), init)[a];
      if a in MergeLog(entries, init) {
        NextTracks(Cleared(a), MergeLog(entries, init)[a], PlainlyWritten(entries, init, a),
                   LitBits(entries, init, a), now, last.entry, regs[a]);
      } else {
        FirstTracks(Cleared(a), last.entry, regs[a]);
      }
    }
  }

  lemma {:induction false} WritesKeepKeys(regs: Registers, log: seq<LogEntry>)
    ensures WriteAll(regs, log).Keys == regs.Keys
  {
    if log != [] { WritesKeepKeys(regs, log[..|log| - 1]); }
  }

  lemma MergedReplays(regs: Registers, entries: Entries, log: seq<LogEntry>)
    requires forall a: nat :: !Forgets(entries, log, a)
    ensures Replay(MergeLog(entries, log), regs) == WriteAll(Replay(entries, regs), log)
  {
    WritesKeepKeys(Replay(entries, regs), log);
    forall a | a in regs
      ensures Replay(MergeLog(entries, log), regs)[a] == WriteAll(Replay(entries, regs), log)[a]
    {
      StateReplays(regs, entries, log, a);
    }
  }

  lemma StateReplays(regs: Registers, entries: Entries, log: seq<LogEntry>, a: nat)
    requires a in regs && !Forgets(entries, log, a)
    ensures a in WriteAll(Replay(entries, regs), log)
    ensures Replay(MergeLog(entries, log), regs)[a] == WriteAll(Replay(entries, regs), log)[a]
  {
    EveryStateTracks(regs, entries, log, a);
    var merged := MergeLog(entries, log);
    if a in merged {
      NothingLost(Cleared(a), merged[a], PlainlyWritten(entries, log, a), LitBits(entries, log, a),
                  WriteAll(Replay(entries, regs), log)[a], regs[a]);
    }
  }

  lemma ForgottenShows(entries: Entries, log: seq<LogEntry>, a: nat)
    requires Forgets(entries, log, a)
    ensures exists regs: Registers :: Replay(MergeLog(entries, log), regs) != WriteAll(Replay(entries, regs), log)
  {
    EveryStateTracks(map[a := ZERO], entries, log, a);
    var e, lit := MergeLog(entries, log)[a], LitBits(entries, log, a);
    var regs: Registers := map[a := ALL - ((e.data - Cleared(a)) + lit)];
    EveryStateTracks(regs, entries, log, a);
    LossShows(Cleared(a), e, PlainlyWritten(entries, log, a), lit, WriteAll(Replay(entries, regs), log)[a]);
    assert Replay(MergeLog(entries, log), regs)[a] != WriteAll(Replay(entries, regs), log)[a];
  }

  /** Whatever a delta already holds and whatever log is merged into it: replaying the result is
      replaying the delta and then making the writes one at a time, for all values of the mapped
      states, exactly when no state is forgotten. */
  lemma MergingIsExact(entries: Entries, log: seq<LogEntry>)
    ensures (forall regs: Registers :: Replay(MergeLog(entries, log), regs) == WriteAll(Replay(entries, regs), log))
       <==> (forall a: nat :: !Forgets(entries, log, a))
  {
    if forall a: nat :: !Forgets(entries, log, a) {
      forall regs: Registers ensures Replay(MergeLog(entries, log), regs) == WriteAll(Replay(entries, regs), log) {
        MergedReplays(regs, entries, log);
      }
    } else {
      var a: nat :| Forgets(entries, log, a);
      ForgottenShows(entries, log, a);
    }
  }

  /** Compacting a log from nothing loses nothing exactly when no state is forgotten. */
  lemma CompactionIsExact(log: seq<LogEntry>)
    ensures (forall regs: Registers :: Replay(Compact(log), regs) == WriteAll(regs, log))
       <==> (forall a: nat :: !Forgets(map[], log, a))
  {
    MergingIsExact(map[], log);
    forall regs: Registers ensures Replay(map[], regs) == regs {
    }
  }

  /** In every state but 0x0595 only a plain write under a partial mask is forgotten. */
  lemma {:induction false} OrdinaryStates(entries: Entries, log: seq<LogEntry>, a: nat)
    requires a != 0x0595
    ensures LitBits(entries, log, a) == ZERO
    ensures Forgets(entries, log, a) <==> PlainlyWritten(entries, log, a) && Partial(MaskSince(entries, log, a))
  {
    if log != [] { OrdinaryStates(entries, log[..|log| - 1], a); }
  }

  /** Bit 0 of a state written plainly, then bit 1 under a mask: the record leaves bit 0 as it was. */
  lemma PlainIsForgotten()
    ensures var log := [LogEntry(0x0E00, Entry(ZERO, {0})), LogEntry(0x0E00, Entry({1}, {1}))];
      && WriteAll(map[0x0E00 := ZERO], log) == map[0x0E00 := {0, 1}]
      && Replay(Compact(log), map[0x0E00 := ZERO]) == map[0x0E00 := {1}]
  {
    var first, second := Entry(ZERO, {0}), Entry({1}, {1});
    TwoWrites(0x0E00, first, second, ZERO);
    assert 2 in ALL - {1};
    assert Effect(ZERO, second, Effect(ZERO, first, ZERO)) == {0, 1};
    assert Effect(ZERO, MergeEntry(first, second), ZERO) == {1};
  }

  /** Bit 4 of state 0x0595 set under a mask, then all other bits cleared under theirs: the writes
      leave the bit set, the record, now complete, clears it. */
  lemma LitBitIsForgotten()
    ensures var log := [LogEntry(0x0595, Entry({4}, {4})), LogEntry(0x0595, Entry(ALL - {4}, ZERO))];
      && WriteAll(map[0x0595 := ZERO], log) == map[0x0595 := {4}]
      && Replay(Compact(log), map[0x0595 := ZERO]) == map[0x0595 := ZERO]
  {
    var first, second := Entry({4}, {4}), Entry(ALL - {4}, ZERO);
    TwoWrites(0x0595, first, second, ZERO);
    assert 3 in ALL - {4} && 4 in ALL && {4} + (ALL - {4}) == ALL;
    assert Effect({4, 5, 13}, second, Effect({4, 5, 13}, first, ZERO)) == {4};
    assert Effect({4, 5, 13}, MergeEntry(first, second), ZERO) == ZERO;
  }

  lemma TwoWrites(a: nat, first: Entry, second: Entry, v: WordBits)
    ensures var log := [LogEntry(a, first), LogEntry(a, second)]; var regs: Registers := map[a := v];
      && WriteAll(regs, log) == map[a := Effect(Cleared(a), second, Effect(Cleared(a), first, v))]
      && Replay(Compact(log), regs) == map[a := Effect(Cleared(a), MergeEntry(first, second), v)]
  {
    var log := [LogEntry(a, first), LogEntry(a, second)];
    var start: Entries, regs: Registers := map[], map[a := v];
    assert log[..1] == [log[0]] && [log[0]][..0] == [];
    assert MergeLog(start, []) == start && WriteAll(regs, []) == regs;
    assert MergeLog(start, [log[0]]) == map[a := first];
    assert Compact(log) == map[a := MergeEntry(first, second)];
    assert WriteAll(regs, [log[0]]) == map[a := Effect(Cleared(a), first, v)];
    assert WriteAll(regs, log) == map[a := Effect(Cleared(a), second, Effect(Cleared(a), first, v))];
  }

  // ----- A log that writes each state once -----

  predicate DistinctStates(log: seq<LogEntry>) {
    forall i, j :: 0 <= i < j < |log| ==> log[i].address != log[j].address
  }

  lemma {:induction false} RecordedStates(entries: Entries, log: seq<LogEntry>, a: nat)
    ensures a in MergeLog(entries, log) <==> a in entries || exists i :: 0 <= i < |log| && log[i].address == a
  {
    if log != [] {
      var n := |log| - 1;
      RecordedStates(entries, log[..n], a);
      assert log[..n] + [log[n]] == log;
    }
  }

  lemma {:induction false} RecordedOnce(log: seq<LogEntry>, i: nat)
    requires DistinctStates(log) && i < |log|
    ensures log[i].address in Compact(log) && Compact(log)[log[i].address] == log[i].entry
  {
    var n := |log| - 1;
    if i < n {
      RecordedOnce(log[..n], i);
    } else {
      RecordedStates(map[], log[..n], log[n].address);
    }
  }

  /** Merging such a log is merging the delta that it compacts to. */
  lemma {:induction false} MergesAsWhole(entries: Entries, log: seq<LogEntry>)
    requires DistinctStates(log)
    ensures MergeLog(entries, log) == MergeAll(entries, Compact(log))
  {
    if log != [] {
      var n := |log| - 1;
      MergesAsWhole(entries, log[..n]);
      RecordedStates(map[], log[..n], log[n].address);
    }
  }

  /** Such a log may be replayed from its compacted form: the order of its writes does not matter. */
  lemma {:induction false} DistinctLogReplays(log: seq<LogEntry>, regs: Registers)
    requires DistinctStates(log)
    ensures WriteAll(regs, log) == Replay(Compact(log), regs)
  {
    if log != [] {
      var n := |log| - 1;
      DistinctLogReplays(log[..n], regs);
      RecordedStates(map[], log[..n], log[n].address);
    }
  }

  lemma {:induction false} MergeLogConcat(entries: Entries, xs: seq<LogEntry>, ys: seq<LogEntry>)
    ensures MergeLog(entries, xs + ys) == MergeLog(MergeLog(entries, xs), ys)
  {
    if ys == [] {
      assert xs + ys == xs;
    } else {
      var n := |ys| - 1;
      assert (xs + ys)[..|xs| + n] == xs + ys[..n];
      MergeLogConcat(entries, xs, ys[..n]);
    }
  }

  lemma {:induction false} WriteAllConcat(regs: Registers, xs: seq<LogEntry>, ys: seq<LogEntry>)
    ensures WriteAll(regs, xs + ys) == WriteAll(WriteAll(regs, xs), ys)
  {
    if ys == [] {
      assert xs + ys == xs;
    } else {
      var n := |ys| - 1;
      assert (xs + ys)[..|xs| + n] == xs + ys[..n];
      WriteAllConcat(regs, xs, ys[..n]);
    }
  }
}
