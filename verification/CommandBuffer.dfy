/** The state-batch macros as they work in place: a gcoCMDBUF, the memory behind it and the cursor.
    Each method is proved against the function of the same name in StateBatch. */
module CommandBuffer {
  import opened CommandWord
  import opened CommandStream
  import Spec = StateBatch
  import Accounting = ReserveAccounting

  class CommandBuffer {
    const build: Build
    const memory: array<Word>
    var cursor: nat                   // the macros' Memory argument, as an index
    var lastReserve: nat
    var lastLoadStatePtr: nat
    var lastLoadStateAddress: Word
    var lastLoadStateCount: Word
    var delta: seq<Delta>             // calls of gcoHARDWARE_UpdateDelta for this buffer

    ghost predicate Valid()
      reads this
    {
      lastReserve <= cursor <= memory.Length
    }

    ghost function Abs(): Spec.State
      requires Valid()
      reads this, memory
    {
      Spec.State(memory[lastReserve..cursor], lastLoadStatePtr - lastReserve,
                 lastLoadStateAddress, lastLoadStateCount, delta)
    }

    /** The words before the cursor are never rewritten, and the reservation does not move. */
    twostate predicate OnlyAppends()
      reads this, memory
    {
      && old(cursor) <= cursor <= memory.Length
      && lastReserve == old(lastReserve)
      && memory[..old(cursor)] == old(memory[..cursor])
    }

    constructor (build: Build, size: nat)
      ensures Valid() && fresh(memory) && memory.Length == size && this.build == build
      ensures Spec.Fresh(Abs())
    {
      this.build := build;
      memory := new Word[size](_ => 0);
      cursor, lastReserve, lastLoadStatePtr := 0, 0, 0;
      lastLoadStateAddress, lastLoadStateCount, delta := 0, 0, [];
    }

    /** gcmBEGINSTATEBUFFER; `reserved` is where gcoBUFFER_Reserve found room. */
    method BeginStateBuffer(reserved: nat)
      requires reserved <= memory.Length
      modifies this`lastReserve, this`cursor, this`delta
      ensures Valid() && lastReserve == cursor == reserved
      ensures Abs().words == [] && delta == []
    {
      lastReserve := reserved;
      cursor := lastReserve;
      delta := [];
    }

    /** gcmENDSTATEBUFFER. */
    method EndStateBuffer(reserveSize: nat) returns (ok: bool)
      requires Valid()
      ensures ok <==> Accounting.EndStateBuffer(build, Abs(), reserveSize).Ok?
    {
      ok := !build.asserts || 4 * lastReserve + reserveSize == 4 * cursor;
    }

    /** `*Memory++ = w`. */
    method Emit(w: Word)
      requires Valid() && cursor < memory.Length
      modifies this`cursor, memory
      ensures Valid() && Abs() == Spec.Emit(old(Abs()), w) && OnlyAppends() && cursor == old(cursor) + 1
    {
      memory[cursor] := w;
      cursor := cursor + 1;
      assert memory[lastReserve..cursor] == old(memory[lastReserve..cursor]) + [w];
    }

    method BeginStateBatch(fixedPoint: bool, address: Word, count: Word) returns (ok: bool)
      requires Valid() && cursor < memory.Length
      modifies this`cursor, this`lastLoadStatePtr, this`lastLoadStateAddress, this`lastLoadStateCount, memory
      ensures Valid() && OnlyAppends()
      ensures var r := Spec.BeginStateBatch(build, old(Abs()), fixedPoint, address, count);
        if ok then r == Ok(Abs()) && cursor == old(cursor) + 1 else r.AssertFailed? && Abs() == old(Abs())
    {
      if build.asserts {
        if (cursor - lastReserve) % 2 != 0 || count > 1024 { return false; }
        if build.tracking && lastLoadStateCount != 0 { return false; }
      }
      if build.tracking {
        lastLoadStatePtr, lastLoadStateAddress, lastLoadStateCount := cursor, address, count;
      }
      Emit(LoadState(fixedPoint, count, address));
      ok := true;
    }

    method EndStateBatch() returns (ok: bool)
      requires Valid()
      ensures ok <==> Spec.EndStateBatch(build, Abs()).Ok?
      ensures ok ==> Spec.EndStateBatch(build, Abs()) == Ok(Abs())
    {
      ok := !build.asserts || ((build.tracking ==> lastLoadStateCount == 0) && (cursor - lastReserve) % 2 == 0);
    }

    method SetState(kind: Kind, address: Word, data: Size) returns (ok: bool)
      requires Valid() && cursor < memory.Length
      modifies this`cursor, this`lastLoadStateCount, this`delta, memory
      ensures Valid() && OnlyAppends()
      ensures var r := Spec.SetState(build, old(Abs()), kind, address, data);
        if ok then r == Ok(Abs()) && cursor == old(cursor) + 1
        else r.AssertFailed? && Abs().words == old(Abs()).words && delta == old(delta)
    {
      if build.tracking {
        if build.asserts {
          if (cursor - lastLoadStatePtr - 1) % 0x1_0000_0000 != (address - lastLoadStateAddress) % 0x1_0000_0000 {
            return false;
          }
          if lastLoadStateCount == 0 { return false; }
        }
        lastLoadStateCount := (lastLoadStateCount - 1) % 0x1_0000_0000;
      }
      if build.asserts && !Fits(data) { return false; }
      var data32 := Truncate(data);
      Emit(data32);
      delta := delta + DeltaOf(kind, address, data32);
      ok := true;
    }

    method SetFiller() returns (ok: bool)
      requires Valid() && cursor < memory.Length
      modifies this`cursor, memory
      ensures Valid() && OnlyAppends()
      ensures var r := Spec.SetFiller(build, old(Abs()));
        if ok then r == Ok(Abs()) && cursor == old(cursor) + 1 else r.AssertFailed? && Abs() == old(Abs())
    {
      if build.tracking && build.asserts && lastLoadStateCount != 0 { return false; }
      Emit(FILLER);
      ok := true;
    }

    method SetSingleState(kind: Kind, fixedPoint: bool, address: Word, data: Size) returns (ok: bool)
      requires Valid() && cursor + 2 <= memory.Length
      modifies this`cursor, this`delta, memory
      modifies this`lastLoadStatePtr, this`lastLoadStateAddress, this`lastLoadStateCount
      ensures Valid() && OnlyAppends()
      ensures var r := Spec.SetSingleState(build, old(Abs()), kind, fixedPoint, address, data);
        if ok then r == Ok(Abs()) && cursor == old(cursor) + 2 else r.AssertFailed?
    {
      ok := BeginStateBatch(fixedPoint, address, 1);
      if !ok { return; }
      ok := SetState(kind, address, data);
      if !ok { return; }
      ok := EndStateBatch();
    }

    method SetSemaStallPipe(data: Size) returns (ok: bool)
      requires Valid() && cursor + 4 <= memory.Length
      modifies this`cursor, this`delta, memory
      modifies this`lastLoadStatePtr, this`lastLoadStateAddress, this`lastLoadStateCount
      ensures Valid() && OnlyAppends()
      ensures var r := Spec.SetSemaStallPipe(build, old(Abs()), data);
        if ok then r == Ok(Abs()) && cursor == old(cursor) + 4 else r.AssertFailed?
    {
      ok := SetSingleState(Ctrl, false, SEMAPHORE_ADDRESS, data);
      if !ok { return; }
      Emit(STALL);
      Emit(Truncate(data));
    }

    /** One macro of a run. */
    method Step(op: Spec.Op) returns (ok: bool)
      requires Valid() && cursor + Spec.Width(op) <= memory.Length
      modifies this`cursor, this`delta, memory
      modifies this`lastLoadStatePtr, this`lastLoadStateAddress, this`lastLoadStateCount
      ensures Valid() && OnlyAppends()
      ensures var r := Spec.Step(build, old(Abs()), op);
        if ok then r == Ok(Abs()) && cursor == old(cursor) + Spec.Width(op) else r.AssertFailed?
    {
      match op
      case Begin(fixedPoint, address, count) => ok := BeginStateBatch(fixedPoint, address, count);
      case End => ok := EndStateBatch();
      case Set(kind, address, data) => ok := SetState(kind, address, data);
      case Filler => ok := SetFiller();
      case Single(kind, fixedPoint, address, data) => ok := SetSingleState(kind, fixedPoint, address, data);
      case SemaStall(data) => ok := SetSemaStallPipe(data);
    }

    /** The next macro of a run that began at `start`, behind the words `earlier`. */
    method ExecuteNext(ops: seq<Spec.Op>, i: nat, ghost start: Spec.State, ghost earlier: seq<Word>) returns (ok: bool)
      requires Valid() && i < |ops| && cursor == |earlier| + Spec.Total(ops[..i])
      requires |earlier| + Spec.Total(ops) <= memory.Length && memory[..|earlier|] == earlier
      requires Spec.Run(build, start, ops[..i]) == Ok(Abs())
      modifies this`cursor, this`delta, memory
      modifies this`lastLoadStatePtr, this`lastLoadStateAddress, this`lastLoadStateCount
      ensures Valid() && |earlier| <= cursor && memory[..|earlier|] == earlier
      ensures if ok then
                cursor == |earlier| + Spec.Total(ops[..i + 1]) && Spec.Run(build, start, ops[..i + 1]) == Ok(Abs())
              else Spec.Run(build, start, ops).AssertFailed?
    {
      Spec.TotalOfPrefix(ops, i);
      Spec.RunOfPrefix(build, start, ops, i);
      ghost var written := memory[..cursor];
      ok := Step(ops[i]);
      assert memory[..|earlier|] == memory[..|written|][..|earlier|];
      if !ok { Spec.StoppedRun(build, start, ops, i + 1); }
    }

    /** Any sequence of macros in a buffer with room for it does in place what Run says. */
    method Execute(ops: seq<Spec.Op>) returns (ok: bool)
      requires Valid() && cursor + Spec.Total(ops) <= memory.Length
      modifies this`cursor, this`delta, memory
      modifies this`lastLoadStatePtr, this`lastLoadStateAddress, this`lastLoadStateCount
      ensures Valid() && OnlyAppends()
      ensures var r := Spec.Run(build, old(Abs()), ops);
        if ok then r == Ok(Abs()) && cursor == old(cursor) + Spec.Total(ops) else r.AssertFailed?
    {
      ghost var start, earlier := Abs(), memory[..cursor];
      for i := 0 to |ops|
        invariant Valid() && cursor == |earlier| + Spec.Total(ops[..i])
        invariant memory[..|earlier|] == earlier
        invariant Spec.Run(build, start, ops[..i]) == Ok(Abs())
      {
        ok := ExecuteNext(ops, i, start, earlier);
        if !ok { return; }
      }
      assert ops[..|ops|] == ops;
      ok := true;
    }
  }
}
