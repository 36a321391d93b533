/** The _NEW macros as they work in place: a temporary command buffer, or the caller's cursor.
    Each method is proved against the function of the same name in TempBatch. */
module TempBuffer {
  import opened CommandWord
  import opened CommandStream
  import Sections = SectionChaining
  import Spec = TempBatch

  /** The variable behind an OutSide argument: the caller's cursor, as a word index. */
  class Cursor {
    var at: nat

    constructor (at: nat)
      ensures this.at == at
    {
      this.at := at;
    }
  }

  /** gcsTEMPCMDBUF with the locals of gcmDEFINESTATEBUFFER_NEW. */
  class TempBuffer {
    const build: Build
    const memory: array<Word>
    var currentByteSize: nat
    var cursor: nat                   // the macros' Memory argument, as an index
    var loadStateBase: nat
    var delta: seq<Delta>             // calls of gcoHARDWARE_UpdateDelta

    ghost predicate Valid()
      reads this
    {
      loadStateBase <= cursor <= memory.Length
    }

    ghost function Abs(): Spec.State
      requires Valid()
      reads this, memory
    {
      Spec.State(memory[..cursor], loadStateBase, delta)
    }

    constructor (build: Build, size: nat)
      ensures Valid() && fresh(memory) && memory.Length == size && this.build == build
      ensures Abs() == Spec.EMPTY
    {
      this.build := build;
      memory := new Word[size](_ => 0);
      cursor, loadStateBase, currentByteSize, delta := 0, 0, 0, [];
    }

    /** gcmBEGINSTATEBUFFER_NEW, gcmBEGINCTRLSTATEBUFFER and gcmBEGINSTATEBUFFER_NEW_FAST. */
    method BeginStateBuffer(outside: Cursor?)
      requires outside != null ==> outside.at <= memory.Length
      modifies this`cursor, this`loadStateBase
      ensures Valid() && loadStateBase == cursor == if outside == null then 0 else outside.at
      ensures outside != null && old(Valid()) && outside.at == old(cursor) ==> Abs() == Spec.OpenSection(old(Abs()))
    {
      if outside != null {
        cursor := outside.at;
      } else {
        cursor := 0;
      }
      loadStateBase := cursor;
    }

    /** gcmENDSTATEBUFFER_NEW and its _FAST form: the caller's cursor moves on, or the buffer learns
        its size in bytes. */
    method EndStateBuffer(outside: Cursor?)
      requires Valid()
      modifies this`currentByteSize, outside
      ensures Valid() && Abs() == old(Abs())
      ensures outside != null ==> outside.at == |Abs().words| && currentByteSize == old(currentByteSize)
      ensures outside == null ==> currentByteSize == 4 * |Abs().words|
    {
      if outside != null {
        outside.at := cursor;
      } else {
        currentByteSize := 4 * cursor;
      }
    }

    method Emit(w: Word)
      requires Valid() && cursor < memory.Length
      modifies this`cursor, memory
      ensures Valid() && Abs() == Spec.Emit(old(Abs()), w) && cursor == old(cursor) + 1
    {
      memory[cursor] := w;
      cursor := cursor + 1;
      assert memory[..cursor] == old(memory[..cursor]) + [w];
    }

    method BeginStateBatch(fixedPoint: bool, address: Word, count: Word) returns (ok: bool)
      requires Valid() && cursor < memory.Length
      modifies this`cursor, memory
      ensures Valid()
      ensures var r := Spec.BeginStateBatch(build, old(Abs()), fixedPoint, address, count);
        if ok then r == Ok(Abs()) && cursor == old(cursor) + 1 else r.AssertFailed? && Abs() == old(Abs())
    {
      if build.asserts {
        if build.tracking && (cursor - loadStateBase) % 2 != 0 { return false; }
        if count > 1024 { return false; }
      }
      Emit(LoadState(fixedPoint, count, address));
      ok := true;
    }

    method EndStateBatch() returns (ok: bool)
      requires Valid()
      ensures ok <==> Spec.EndStateBatch(build, Abs()).Ok?
      ensures ok ==> Spec.EndStateBatch(build, Abs()) == Ok(Abs())
    {
      ok := !build.asserts || !build.tracking || (cursor - loadStateBase) % 2 == 0;
    }

    method SetState(kind: Kind, address: Word, data: Size) returns (ok: bool)
      requires Valid() && cursor < memory.Length
      modifies this`cursor, this`delta, memory
      ensures Valid()
      ensures var r := Spec.SetState(build, old(Abs()), kind, address, data);
        if ok then r == Ok(Abs()) && cursor == old(cursor) + 1 else r.AssertFailed? && Abs() == old(Abs())
    {
      if build.asserts && !Fits(data) { return false; }
      var data32 := Truncate(data);
      Emit(data32);
      delta := delta + DeltaOf(kind, address, data32);
      ok := true;
    }

    method SetStateFast(kind: Spec.FastKind, address: Word, data: Size) returns (ok: bool)
      requires Valid() && cursor < memory.Length
      modifies this`cursor, memory
      ensures Valid()
      ensures var r := Spec.SetStateFast(build, old(Abs()), kind, address, data);
        if ok then r == Ok(Abs()) && cursor == old(cursor) + 1 else r.AssertFailed? && Abs() == old(Abs())
    {
      if kind.FastPlain? && build.asserts && !Fits(data) { return false; }
      Emit(Truncate(data));
      ok := true;
    }

    method SetFiller()
      requires Valid() && cursor < memory.Length
      modifies this`cursor, memory
      ensures Valid() && Abs() == Spec.SetFiller(old(Abs()))
    {
      Emit(FILLER);
    }

    method SetSingleState(kind: Kind, fixedPoint: bool, address: Word, data: Size) returns (ok: bool)
      requires Valid() && cursor + 2 <= memory.Length
      modifies this`cursor, this`delta, memory
      ensures Valid()
      ensures var r := Spec.SetSingleState(build, old(Abs()), kind, fixedPoint, address, data);
        if ok then r == Ok(Abs()) && cursor == old(cursor) + 2 else r.AssertFailed?
    {
      ok := BeginStateBatch(fixedPoint, address, 1);
      if !ok { return; }
      ok := SetState(kind, address, data);
      if !ok { return; }
      ok := EndStateBatch();
    }

    method SetSingleStateFast(kind: Spec.FastKind, fixedPoint: bool, address: Word, data: Size) returns (ok: bool)
      requires Valid() && cursor + 2 <= memory.Length
      modifies this`cursor, memory
      ensures Valid()
      ensures var r := Spec.SetSingleStateFast(build, old(Abs()), kind, fixedPoint, address, data);
        if ok then r == Ok(Abs()) && cursor == old(cursor) + 2 else r.AssertFailed?
    {
      ok := BeginStateBatch(fixedPoint, address, 1);
      if !ok { return; }
      ok := SetStateFast(kind, address, data);
      if !ok { return; }
      ok := EndStateBatch();
    }

    /** gcmSETCTRLSTATES_NEW: the loop writes the array word by word. */
    method SetCtrlStates(fixedPoint: bool, address: Word, datas: Spec.Datas) returns (ok: bool)
      requires Valid() && cursor + 1 + |datas| <= memory.Length
      modifies this`cursor, this`delta, memory
      ensures Valid()
      ensures var r := Spec.SetCtrlStates(build, old(Abs()), fixedPoint, address, datas);
        if ok then r == Ok(Abs()) else r.AssertFailed?
    {
      ok := BeginStateBatch(fixedPoint, address, |datas|);
      if !ok { return; }
      ghost var s1 := Abs();
      ghost var all := Spec.Truncated(datas);
      for c := 0 to |datas|
        invariant Valid() && cursor == |s1.words| + c
        invariant Abs() == s1.(words := s1.words + all[..c])
        invariant build.asserts ==> Spec.AllFit(datas[..c])
      {
        ok := SetState(Ctrl, address, datas[c]);
        if !ok {
          assert !Fits(datas[c]);
          return;
        }
        assert all[..c + 1] == all[..c] + [all[c]];
      }
      assert datas[..|datas|] == datas && all[..|datas|] == all;
      ok := EndStateBatch();
    }

    /** gcmSETBLOCKCTRLSTATE_NEW: the loop writes one value Count times. */
    method SetBlockCtrlState(fixedPoint: bool, address: Word, data: Size, count: Word) returns (ok: bool)
      requires Valid() && cursor + 1 + count <= memory.Length
      modifies this`cursor, this`delta, memory
      ensures Valid()
      ensures var r := Spec.SetBlockCtrlState(build, old(Abs()), fixedPoint, address, data, count);
        if ok then r == Ok(Abs()) else r.AssertFailed?
    {
      ghost var datas: Spec.Datas := seq(count, _ => data);
      ok := BeginStateBatch(fixedPoint, address, count);
      if !ok { return; }
      ghost var s1 := Abs();
      ghost var all := Spec.Truncated(datas);
      for c := 0 to count
        invariant Valid() && cursor == |s1.words| + c
        invariant Abs() == s1.(words := s1.words + all[..c])
        invariant build.asserts && c > 0 ==> Fits(data)
      {
        ok := SetState(Ctrl, address, data);
        if !ok {
          assert !Fits(datas[c]);
          return;
        }
        assert all[..c + 1] == all[..c] + [all[c]];
      }
      assert all[..count] == all;
      ok := EndStateBatch();
    }

    method SetSemaStallPipe(data: Size) returns (ok: bool)
      requires Valid() && cursor + 4 <= memory.Length
      modifies this`cursor, this`delta, memory
      ensures Valid()
      ensures var r := Spec.SetSemaStallPipe(build, old(Abs()), data);
        if ok then r == Ok(Abs()) else r.AssertFailed?
    {
      ok := SetSingleState(Ctrl, false, SEMAPHORE_ADDRESS, data);
      if !ok { return; }
      Emit(STALL);
      Emit(Truncate(data));
    }

    /** One macro of a run. */
    method Step(op: Spec.Op) returns (ok: bool)
      requires Valid() && cursor + Sections.Width(op) <= memory.Length
      modifies this`cursor, this`delta, memory
      ensures Valid()
      ensures var r := Spec.Step(build, old(Abs()), op);
        if ok then r == Ok(Abs()) && cursor == old(cursor) + Sections.Width(op) else r.AssertFailed?
    {
      ghost var s := Abs();
      match op {
        case Begin(fixedPoint, address, count) => ok := BeginStateBatch(fixedPoint, address, count);
        case End => ok := EndStateBatch();
        case Set(kind, address, data) => ok := SetState(kind, address, data);
        case SetFast(kind, address, data) => ok := SetStateFast(kind, address, data);
        case Filler =>
          SetFiller();
          ok := true;
        case Single(kind, fixedPoint, address, data) => ok := SetSingleState(kind, fixedPoint, address, data);
        case SingleFast(kind, fixedPoint, address, data) => ok := SetSingleStateFast(kind, fixedPoint, address, data);
        case Block(fixedPoint, address, data, count) => ok := SetBlockCtrlState(fixedPoint, address, data, count);
        case CtrlStates(fixedPoint, address, datas) => ok := SetCtrlStates(fixedPoint, address, datas);
        case SemaStall(data) => ok := SetSemaStallPipe(data);
      }
      if ok { Sections.StepGrows(build, s, op); }
    }

    /** Any sequence of macros in a buffer with room for it does in place what Run says. */
    method Execute(ops: seq<Spec.Op>) returns (ok: bool)
      requires Valid() && cursor + Sections.Total(ops) <= memory.Length
      modifies this`cursor, this`delta, memory
      ensures Valid()
      ensures var r := Spec.Run(build, old(Abs()), ops);
        if ok then r == Ok(Abs()) && cursor == old(cursor) + Sections.Total(ops) else r.AssertFailed?
    {
      ghost var start := Abs();
      for i := 0 to |ops|
        invariant Valid() && cursor == old(cursor) + Sections.Total(ops[..i])
        invariant Spec.Run(build, start, ops[..i]) == Ok(Abs())
      {
        Sections.TotalOfPrefix(ops, i);
        Sections.RunOfPrefix(build, start, ops, i);
        ok := Step(ops[i]);
        if !ok {
          Sections.StoppedRun(build, start, ops, i + 1);
          return;
        }
      }
      assert ops[..|ops|] == ops;
      ok := true;
    }

    /** Sections through one caller's cursor do in place what RunSections says; the cursor ends behind
        their words. */
    method ExecuteSections(outside: Cursor, sections: seq<seq<Spec.Op>>) returns (ok: bool)
      requires Valid() && outside.at == cursor
      requires cursor + Sections.TotalOfAll(sections) <= memory.Length
      modifies this`cursor, this`loadStateBase, this`currentByteSize, this`delta, memory, outside
      ensures Valid() && currentByteSize == old(currentByteSize)
      ensures var r := Spec.RunSections(build, old(Abs()), sections);
        if ok then r == Ok(Abs()) && outside.at == |Abs().words| else r.AssertFailed?
    {
      ghost var start := Abs();
      for i := 0 to |sections|
        invariant Valid() && currentByteSize == old(currentByteSize)
        invariant outside.at == cursor == old(cursor) + Sections.TotalOfAll(sections[..i])
        invariant Spec.RunSections(build, start, sections[..i]) == Ok(Abs())
      {
        Sections.PrefixTotals(sections, i);
        Sections.SectionsOfPrefix(build, start, sections, i);
        BeginStateBuffer(outside);
        ok := Execute(sections[i]);
        if !ok {
          Sections.StoppedSections(build, start, sections, i + 1);
          return;
        }
        EndStateBuffer(outside);
      }
      assert sections[..|sections|] == sections;
      ok := true;
    }
  }
}
