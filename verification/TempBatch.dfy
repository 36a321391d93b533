/** The _NEW and _NEW_FAST state macros, which write into a temporary command buffer. */
module TempBatch {
  import opened CommandWord
  import opened CommandStream

  /** `words` runs from the start of the buffer to the cursor; `base` is LoadStateBase, where the
      current section began. */
  datatype State = State(words: seq<Word>, base: nat, delta: seq<Delta>)

  function Emit(s: State, w: Word): State {
    s.(words := s.words + [w])
  }

  /** gcmVERIFYLOADSTATEALIGNED. */
  predicate AlignedTrips(b: Build, s: State) {
    b.tracking && Trips(b, (|s.words| - s.base) % 2 == 0)
  }

  function BeginStateBatch(b: Build, s: State, fixedPoint: bool, address: Word, count: Word): Outcome<State> {
    if AlignedTrips(b, s) || Trips(b, count <= 1024) then AssertFailed
    else Ok(Emit(s, LoadState(fixedPoint, count, address)))
  }

  function EndStateBatch(b: Build, s: State): Outcome<State> {
    if AlignedTrips(b, s) then AssertFailed else Ok(s)
  }

  function SetState(b: Build, s: State, kind: Kind, address: Word, data: Size): Outcome<State> {
    if Trips(b, Fits(data)) then AssertFailed
    else Ok(Emit(s, Truncate(data)).(delta := s.delta + DeltaOf(kind, address, Truncate(data))))
  }

  /** The data macros with a _FAST form; the masked one converts its data without any check. */
  datatype FastKind = FastPlain | FastMasked(mask: Word)

  function SetStateFast(b: Build, s: State, kind: FastKind, address: Word, data: Size): Outcome<State> {
    if kind.FastPlain? && Trips(b, Fits(data)) then AssertFailed
    else Ok(Emit(s, Truncate(data)))
  }

  function SetFiller(s: State): State {
    Emit(s, FILLER)
  }

  function SetSingleState(b: Build, s: State, kind: Kind, fixedPoint: bool, address: Word, data: Size): Outcome<State> {
    var s1 :- BeginStateBatch(b, s, fixedPoint, address, 1);
    var s2 :- SetState(b, s1, kind, address, data);
    EndStateBatch(b, s2)
  }

  function SetSingleStateFast(b: Build, s: State, kind: FastKind, fixedPoint: bool, address: Word, data: Size)
    : Outcome<State>
  {
    var s1 :- BeginStateBatch(b, s, fixedPoint, address, 1);
    var s2 :- SetStateFast(b, s1, kind, address, data);
    EndStateBatch(b, s2)
  }

  /** The array of a gcmSETCTRLSTATES_NEW, whose length is a 32-bit argument. */
  type Datas = datas: seq<Size> | |datas| < 0x1_0000_0000

  predicate AllFit(datas: seq<Size>) {
    forall i :: 0 <= i < |datas| ==> Fits(datas[i])
  }

  function Truncated(datas: seq<Size>): (ws: seq<Word>)
    ensures |ws| == |datas| && forall i :: 0 <= i < |ws| ==> ws[i] == Truncate(datas[i])
  {
    seq(|datas|, i requires 0 <= i < |datas| => Truncate(datas[i]))
  }

  /** gcmSETCTRLSTATES_NEW without its loop: one header, then the words of the array in order. */
  function SetCtrlStates(b: Build, s: State, fixedPoint: bool, address: Word, datas: Datas): Outcome<State>
  {
    var s1 :- BeginStateBatch(b, s, fixedPoint, address, |datas|);
    if Trips(b, AllFit(datas)) then AssertFailed
    else EndStateBatch(b, s1.(words := s1.words + Truncated(datas)))
  }

  /** gcmSETBLOCKCTRLSTATE_NEW: the same value Count times. */
  function SetBlockCtrlState(b: Build, s: State, fixedPoint: bool, address: Word, data: Size, count: Word)
    : Outcome<State>
  {
    SetCtrlStates(b, s, fixedPoint, address, seq(count, _ => data))
  }

  function SetSemaStallPipe(b: Build, s: State, data: Size): Outcome<State> {
    var s1 :- SetSingleState(b, s, Ctrl, false, SEMAPHORE_ADDRESS, data);
    Ok(Emit(Emit(s1, STALL), Truncate(data)))
  }

  datatype Op =
    | Begin(fixedPoint: bool, address: Word, count: Word)
    | End
    | Set(kind: Kind, address: Word, data: Size)
    | SetFast(fastKind: FastKind, address: Word, data: Size)
    | Filler
    | Single(kind: Kind, fixedPoint: bool, address: Word, data: Size)
    | SingleFast(fastKind: FastKind, fixedPoint: bool, address: Word, data: Size)
    | Block(fixedPoint: bool, address: Word, data: Size, count: Word)
    | CtrlStates(fixedPoint: bool, address: Word, datas: Datas)
    | SemaStall(data: Size)

  function Step(b: Build, s: State, op: Op): Outcome<State> {
    match op
    case Begin(fixedPoint, address, count) => BeginStateBatch(b, s, fixedPoint, address, count)
    case End => EndStateBatch(b, s)
    case Set(kind, address, data) => SetState(b, s, kind, address, data)
    case SetFast(kind, address, data) => SetStateFast(b, s, kind, address, data)
    case Filler => Ok(SetFiller(s))
    case Single(kind, fixedPoint, address, data) => SetSingleState(b, s, kind, fixedPoint, address, data)
    case SingleFast(kind, fixedPoint, address, data) => SetSingleStateFast(b, s, kind, fixedPoint, address, data)
    case Block(fixedPoint, address, data, count) => SetBlockCtrlState(b, s, fixedPoint, address, data, count)
    case CtrlStates(fixedPoint, address, datas) => SetCtrlStates(b, s, fixedPoint, address, datas)
    case SemaStall(data) => SetSemaStallPipe(b, s, data)
  }

  function Run(b: Build, s: State, ops: seq<Op>): Outcome<State> {
    if ops == [] then Ok(s)
    else
      var s1 :- Run(b, s, ops[..|ops| - 1]);
      Step(b, s1, ops[|ops| - 1])
  }

  /** gcmBEGINSTATEBUFFER_NEW over an OutSide cursor: the section starts where the cursor stands. */
  function OpenSection(s: State): State {
    s.(base := |s.words|)
  }

  /** Sections written one after the other through one OutSide cursor. */
  function RunSections(b: Build, s: State, sections: seq<seq<Op>>): Outcome<State> {
    if sections == [] then Ok(s)
    else
      var s1 :- RunSections(b, s, sections[..|sections| - 1]);
      Run(b, OpenSection(s1), sections[|sections| - 1])
  }

  const EMPTY := State([], 0, [])
}
