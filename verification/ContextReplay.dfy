/** Command stream and state delta together: what the hardware executes and what the kernel restores. */
module ContextReplay {
  import opened Bits
  import opened BitLaws
  import opened CommandWord
  import opened CommandStream
  import opened DeltaReplay
  import opened FrontEnd
  import opened StateBatch
  import opened StateBatchRoundTrip
  import opened WordSets
  import opened WriteLog
  import Kernel = StateDelta
  import New = TempRoundTrip
  import Temp = TempBatch

  /** The state that a loaded address stands for: on hardware with mirrored states, its mirror image. */
  function StateOf(mirroring: bool, address: int): int {
    if address < 0 then address else Kernel.Canonical(mirroring, address)
  }

  /** The delta log as the kernel's merge reads it. */
  function AsLog(mirroring: bool, log: seq<Delta>): seq<LogEntry> {
    seq(|log|, i requires 0 <= i < |log| =>
      LogEntry(Kernel.Canonical(mirroring, log[i].address), Entry(BitsOf(log[i].mask), BitsOf(log[i].data))))
  }

  /** The hardware loading decoded states one at a time. */
  function Execute(mirroring: bool, regs: Registers, writes: seq<(int, Word)>): Registers {
    if writes == [] then regs
    else
      var n := |writes| - 1;
      var before := Execute(mirroring, regs, writes[..n]);
      var (address, data) := writes[n];
      Loaded(before, StateOf(mirroring, address), data)
  }

  function Loaded(regs: Registers, state: int, data: Word): Registers {
    if state in regs then regs[state := BitsOf(data)] else regs
  }

  /** The executed values as the kernel restores them: auto-disable forced off where it is recorded. */
  function Restored(entries: Entries, regs: Registers): Registers {
    map a | a in regs :: if a in entries then regs[a] - Cleared(a) else regs[a]
  }

  predicate NoneMasked(kinds: seq<Kind>) {
    forall i :: 0 <= i < |kinds| ==> !kinds[i].Masked?
  }

  /** The mapped states are none that a control write loads. */
  predicate NoCtrlState(mirroring: bool, regs: Registers, kinds: seq<Kind>, writes: seq<(int, Word)>) {
    forall i :: 0 <= i < |kinds| && i < |writes| && kinds[i].Ctrl? ==> StateOf(mirroring, writes[i].0) !in regs
  }

  /** Every write that is logged has a 32-bit address. */
  predicate LoggedInRange(kinds: seq<Kind>, writes: seq<(int, Word)>) {
    forall i :: 0 <= i < |kinds| && i < |writes| && !kinds[i].Ctrl? ==> 0 <= writes[i].0 < 0x1_0000_0000
  }

  lemma {:induction false} ExecuteKeepsKeys(mirroring: bool, regs: Registers, writes: seq<(int, Word)>)
    ensures Execute(mirroring, regs, writes).Keys == regs.Keys
  {
    if writes != [] { ExecuteKeepsKeys(mirroring, regs, writes[..|writes| - 1]); }
  }

  lemma PlainlyRestored(entries: Entries, executed: Registers, state: nat, data: Word)
    ensures WriteOne(Restored(entries, executed), LogEntry(state, Entry(ZERO, BitsOf(data))))
         == Restored(Merge(entries, state, Entry(ZERO, BitsOf(data))), Loaded(executed, state, data))
  {
  }

  lemma AsLogSnoc(mirroring: bool, init: seq<Delta>, address: Word, data: Word)
    ensures AsLog(mirroring, init + [Delta(address, 0, data)])
         == AsLog(mirroring, init) + [LogEntry(Kernel.Canonical(mirroring, address), Entry(ZERO, BitsOf(data)))]
  {
    NoBits();
  }

  lemma LogSnocs(regs: Registers, log: seq<LogEntry>, w: LogEntry)
    ensures WriteAll(regs, log + [w]) == WriteOne(WriteAll(regs, log), w)
    ensures Compact(log + [w]) == Merge(Compact(log), w.address, w.entry)
  {
    assert (log + [w])[..|log|] == log;
  }

  lemma PlainStep(mirroring: bool, regs: Registers, init: seq<Delta>, executed: Registers, address: Word, data: Word)
    requires WriteAll(regs, AsLog(mirroring, init)) == Restored(Compact(AsLog(mirroring, init)), executed)
    ensures var log := AsLog(mirroring, init + [Delta(address, 0, data)]);
      WriteAll(regs, log) == Restored(Compact(log), Loaded(executed, StateOf(mirroring, address), data))
  {
    var log := AsLog(mirroring, init);
    var state := Kernel.Canonical(mirroring, address);
    AsLogSnoc(mirroring, init, address, data);
    LogSnocs(regs, log, LogEntry(state, Entry(ZERO, BitsOf(data))));
    PlainlyRestored(Compact(log), executed, state, data);
  }

  lemma {:induction false} LogExecutes(mirroring: bool, regs: Registers, kinds: seq<Kind>, writes: seq<(int, Word)>)
    requires |kinds| == |writes| && NoneMasked(kinds)
    requires LoggedInRange(kinds, writes) && NoCtrlState(mirroring, regs, kinds, writes)
    ensures var log := AsLog(mirroring, LogOf(kinds, writes));
      WriteAll(regs, log) == Restored(Compact(log), Execute(mirroring, regs, writes))
  {
    if kinds != [] {
      var n := |kinds| - 1;
      LogExecutes(mirroring, regs, kinds[..n], writes[..n]);
      var (address, data) := writes[n];
      var before := Execute(mirroring, regs, writes[..n]);
      if kinds[n].Plain? {
        QuotientUnique(address, 0x1_0000_0000, 0, address);
        PlainStep(mirroring, regs, LogOf(kinds[..n], writes[..n]), before, address, data);
      } else {
        ExecuteKeepsKeys(mirroring, regs, writes[..n]);
        assert LogOf(kinds, writes) == LogOf(kinds[..n], writes[..n]);
      }
    }
  }

  lemma {:induction false} LogIsPlain(kinds: seq<Kind>, writes: seq<(int, Word)>)
    requires |kinds| == |writes| && NoneMasked(kinds)
    ensures var log := LogOf(kinds, writes); forall i :: 0 <= i < |log| ==> log[i].mask == 0
  {
    if kinds != [] {
      var n := |kinds| - 1;
      LogIsPlain(kinds[..n], writes[..n]);
      var more := DeltaOf(kinds[n], writes[n].0 % 0x1_0000_0000, writes[n].1);
      assert LogOf(kinds, writes) == LogOf(kinds[..n], writes[..n]) + more;
      assert forall i :: 0 <= i < |more| ==> more[i].mask == 0;
    }
  }

  lemma {:induction false} PlainLogForgetsNothing(log: seq<LogEntry>, a: nat)
    requires forall i :: 0 <= i < |log| ==> log[i].entry.mask == ZERO
    ensures MaskSince(map[], log, a) == ZERO && LitBits(map[], log, a) == ZERO
  {
    if log != [] { PlainLogForgetsNothing(log[..|log| - 1], a); }
  }

  lemma InRangeConcat(kinds: seq<Kind>, writes: seq<(int, Word)>, more: seq<Kind>, extra: seq<(int, Word)>)
    requires |kinds| == |writes| && LoggedInRange(kinds, writes) && LoggedInRange(more, extra)
    ensures LoggedInRange(kinds + more, writes + extra)
  {
  }

  lemma OldMacroInRange(op: Op)
    ensures LoggedInRange(KindsOf(op), Writes(Meaning(op)))
  {
    WritesOfMeaning(op);
  }

  lemma {:induction false} OldInRange(s: State, ops: seq<Op>)
    requires Fresh(s) && Run(FULL_DEBUG, s, ops).Ok?
    ensures LoggedInRange(Kinds(ops), Writes(Intended(ops)))
  {
    if ops != [] {
      var init, last := ops[..|ops| - 1], ops[|ops| - 1];
      OldInRange(s, init);
      LogOfIntended(s, init);
      OldMacroInRange(last);
      InRangeConcat(Kinds(init), Writes(Intended(init)), KindsOf(last), Writes(Meaning(last)));
      WritesOfConcat(Intended(init), Meaning(last));
    }
  }

  lemma LogReplays(mirroring: bool, regs: Registers, kinds: seq<Kind>, writes: seq<(int, Word)>)
    requires |kinds| == |writes| && NoneMasked(kinds)
    requires LoggedInRange(kinds, writes) && NoCtrlState(mirroring, regs, kinds, writes)
    ensures var entries := Compact(AsLog(mirroring, LogOf(kinds, writes)));
      Replay(entries, regs) == Restored(entries, Execute(mirroring, regs, writes))
  {
    LogExecutes(mirroring, regs, kinds, writes);
    LogIsPlain(kinds, writes);
    NoBits();
    var log := AsLog(mirroring, LogOf(kinds, writes));
    assert 0 in ALL;
    forall a: nat ensures !Forgets(map[], log, a) { PlainLogForgetsNothing(log, a); }
    MergedReplays(regs, map[], log);
    assert Replay(map[], regs) == regs;
  }

  /** End to end, for an accepted, readable run without masked states and any states that its control
      writes leave alone: the values that the hardware reaches by executing the emitted words are the
      ones that the kernel restores by replaying the compacted log, but for the bits of state 0x0595
      that the kernel forces off. */
  lemma ReplayMatchesExecution(mirroring: bool, s: State, ops: seq<Op>, regs: Registers)
    requires Fresh(s) && Run(FULL_DEBUG, s, ops).Ok? && AllReadable(Intended(ops)) && NoneMasked(Kinds(ops))
    requires NoCtrlState(mirroring, regs, Kinds(ops), Writes(Intended(ops)))
    ensures var s' := Run(FULL_DEBUG, s, ops).value;
      && Decode(s'.words).Decoded?
      && var entries := Compact(AsLog(mirroring, s'.delta));
        var executed := Execute(mirroring, regs, Writes(Decode(s'.words).events));
        Replay(entries, regs) == Restored(entries, executed)
  {
    RoundTrip(s, ops);
    LogOfIntended(s, ops);
    OldInRange(s, ops);
    LogReplays(mirroring, regs, Kinds(ops), Writes(Intended(ops)));
  }

  lemma UnloggedInRange(kinds: seq<Kind>, writes: seq<(int, Word)>)
    requires forall i :: 0 <= i < |kinds| ==> kinds[i].Ctrl?
    ensures LoggedInRange(kinds, writes)
  {
  }

  lemma SetInRange(kind: Kind, address: Word, data: Size)
    ensures LoggedInRange([kind], Writes([Write(address, Truncate(data))]))
  {
    WritesOfOne(Write(address, Truncate(data)));
  }

  lemma SingleInRange(kind: Kind, fixedPoint: bool, address: Word, data: Size)
    ensures LoggedInRange([kind], Writes(New.SingleMeaning(fixedPoint, address, data)))
  {
    New.WritesOfSingle(fixedPoint, address, data);
  }

  lemma NewInRange(op: Temp.Op)
    ensures LoggedInRange(New.KindsOf(op), Writes(New.Meaning(op)))
  {
    match op
    case Set(kind, address, data) => SetInRange(kind, address, data);
    case Single(kind, fixedPoint, address, data) => SingleInRange(kind, fixedPoint, address, data);
    case _ => UnloggedInRange(New.KindsOf(op), Writes(New.Meaning(op)));
  }

  lemma {:induction false} NewRunInRange(b: Build, ops: seq<Temp.Op>)
    requires Temp.Run(b, Temp.EMPTY, ops).Ok?
    ensures LoggedInRange(New.Kinds(ops), Writes(New.Intended(ops)))
  {
    if ops != [] {
      var init, last := ops[..|ops| - 1], ops[|ops| - 1];
      NewRunInRange(b, init);
      New.LogOfIntended(b, init);
      NewInRange(last);
      InRangeConcat(New.Kinds(init), Writes(New.Intended(init)), New.KindsOf(last), Writes(New.Meaning(last)));
      WritesOfConcat(New.Intended(init), New.Meaning(last));
    }
  }

  /** The same for the _NEW family in any build, when the run keeps the protocol that the macros do
      not check: fast and array forms, which log nothing, count as control writes. */
  lemma NewReplayMatchesExecution(mirroring: bool, b: Build, ops: seq<Temp.Op>, regs: Registers)
    requires Temp.Run(b, Temp.EMPTY, ops).Ok? && New.AllObey(ops) && NoneMasked(New.Kinds(ops))
    requires NoCtrlState(mirroring, regs, New.Kinds(ops), Writes(New.Intended(ops)))
    ensures var s := Temp.Run(b, Temp.EMPTY, ops).value;
      && Decode(s.words).Decoded?
      && var entries := Compact(AsLog(mirroring, s.delta));
        var executed := Execute(mirroring, regs, Writes(Decode(s.words).events));
        Replay(entries, regs) == Restored(entries, executed)
  {
    New.RoundTrip(b, ops);
    New.LogOfIntended(b, ops);
    NewRunInRange(b, ops);
    LogReplays(mirroring, regs, New.Kinds(ops), Writes(New.Intended(ops)));
  }

  // ----- One masked state -----

  lemma OneEntry(a: nat, e: Entry, v: WordBits)
    ensures Compact([LogEntry(a, e)]) == map[a := e]
    ensures Replay(map[a := e], map[a := v]) == map[a := Effect(Cleared(a), e, v)]
  {
    assert [LogEntry(a, e)][..0] == [];
    assert MergeLog(map[], []) == map[];
  }

  /** The log of one masked state, taken through the kernel: the restored word has the bits of the data
      under the mask and keeps the others; an empty or a full mask restores all bits of the data, but
      for those that are forced off in state 0x0595. */
  lemma MaskedStateRestores(mirroring: bool, b: Build, fixedPoint: bool, address: Word, mask: Word, data: Size, v: Word)
    requires Temp.SetSingleState(b, Temp.EMPTY, Masked(mask), fixedPoint, address, data).Ok?
    ensures var log := Temp.SetSingleState(b, Temp.EMPTY, Masked(mask), fixedPoint, address, data).value.delta;
      var slot := Kernel.Canonical(mirroring, address);
      var regs := Replay(Compact(AsLog(mirroring, log)), map[slot := BitsOf(v)]);
      slot in regs && forall i: nat :: i < 32 ==> (i in regs[slot] <==> RestoredBit(slot, mask, data, v, i))
  {
    var log := Temp.SetSingleState(b, Temp.EMPTY, Masked(mask), fixedPoint, address, data).value.delta;
    var slot, w := Kernel.Canonical(mirroring, address), Truncate(data);
    var e := Entry(BitsOf(mask), BitsOf(w));
    assert log == [Delta(address, mask, w)];
    assert AsLog(mirroring, log) == [LogEntry(slot, e)];
    OneEntry(slot, e, BitsOf(v));
    FullMask(mask);
    forall i: nat | i < 32 ensures i in Effect(Cleared(slot), e, BitsOf(v)) <==> RestoredBit(slot, mask, data, v, i) {
      LowBits(data, 32, i);
    }
  }

  predicate RestoredBit(slot: nat, mask: Word, data: Size, v: Word, i: nat) {
    if mask == 0 || mask == 0xFFFF_FFFF then BitAt(data, i) && !(slot == 0x0595 && (i == 4 || i == 5 || i == 13))
    else if BitAt(mask, i) then BitAt(data, i)
    else BitAt(v, i)
  }

  lemma LowBits(data: Size, width: nat, i: nat)
    requires width == 32 && i < width
    ensures BitAt(Truncate(data), i) <==> BitAt(data, i)
  {
    Pow2Values();
    BitOfRemainder(data, width, i);
  }
}
