/** The state-batch macros that write straight into a reserved command buffer, with the
    tracking fields that debug builds keep in gcoCMDBUF. */
module StateBatch {
  import opened CommandWord
  import opened CommandStream
  import opened FrontEnd

  /** `words` runs from lastReserve to the cursor; `lastPtr` is lastLoadStatePtr, as a word index
      relative to lastReserve; `delta` is the log of gcoHARDWARE_UpdateDelta calls. */
  datatype State = State(words: seq<Word>, lastPtr: int, lastAddress: Word, lastCount: Word, delta: seq<Delta>)

  function Emit(s: State, w: Word): State {
    s.(words := s.words + [w])
  }

  // ----- Tracking macros, empty unless the build tracks -----

  function StoreLoadState(b: Build, s: State, address: Word, count: Word): State {
    if b.tracking then s.(lastPtr := |s.words|, lastAddress := address, lastCount := count) else s
  }

  /** The two assertions of gcmVERIFYLOADSTATE: the address is the next of the batch, and the batch
      still has room. */
  predicate VerifyTrips(b: Build, s: State, address: Word) {
    && b.tracking
    && (|| Trips(b, (|s.words| - s.lastPtr - 1) % 0x1_0000_0000 == (address - s.lastAddress) % 0x1_0000_0000)
        || Trips(b, s.lastCount > 0))
  }

  function CountDown(b: Build, s: State): State {
    if b.tracking then s.(lastCount := (s.lastCount - 1) % 0x1_0000_0000) else s
  }

  /** gcmVERIFYLOADSTATEDONE. */
  predicate DoneTrips(b: Build, s: State) {
    b.tracking && Trips(b, s.lastCount == 0)
  }

  predicate AlignedTrips(b: Build, s: State) {
    Trips(b, |s.words| % 2 == 0)
  }

  // ----- Batch macros -----

  function BeginStateBatch(b: Build, s: State, fixedPoint: bool, address: Word, count: Word): Outcome<State> {
    if AlignedTrips(b, s) || Trips(b, count <= 1024) || DoneTrips(b, s) then AssertFailed
    else Ok(Emit(StoreLoadState(b, s, address, count), LoadState(fixedPoint, count, address)))
  }

  function EndStateBatch(b: Build, s: State): Outcome<State> {
    if DoneTrips(b, s) || AlignedTrips(b, s) then AssertFailed else Ok(s)
  }

  function SetState(b: Build, s: State, kind: Kind, address: Word, data: Size): Outcome<State> {
    if VerifyTrips(b, s, address) || Trips(b, Fits(data)) then AssertFailed
    else Ok(Emit(CountDown(b, s), Truncate(data)).(delta := s.delta + DeltaOf(kind, address, Truncate(data))))
  }

  function SetFiller(b: Build, s: State): Outcome<State> {
    if DoneTrips(b, s) then AssertFailed else Ok(Emit(s, FILLER))
  }

  function SetSingleState(b: Build, s: State, kind: Kind, fixedPoint: bool, address: Word, data: Size): Outcome<State> {
    var s1 :- BeginStateBatch(b, s, fixedPoint, address, 1);
    var s2 :- SetState(b, s1, kind, address, data);
    EndStateBatch(b, s2)
  }

  function SetSemaStallPipe(b: Build, s: State, data: Size): Outcome<State> {
    var s1 :- SetSingleState(b, s, Ctrl, false, SEMAPHORE_ADDRESS, data);
    Ok(Emit(Emit(s1, STALL), Truncate(data)))
  }

  // ----- Runs -----

  datatype Op =
    | Begin(fixedPoint: bool, address: Word, count: Word)
    | End
    | Set(kind: Kind, address: Word, data: Size)
    | Filler
    | Single(kind: Kind, fixedPoint: bool, address: Word, data: Size)
    | SemaStall(data: Size)

  function Step(b: Build, s: State, op: Op): Outcome<State> {
    match op
    case Begin(fixedPoint, address, count) => BeginStateBatch(b, s, fixedPoint, address, count)
    case End => EndStateBatch(b, s)
    case Set(kind, address, data) => SetState(b, s, kind, address, data)
    case Filler => SetFiller(b, s)
    case Single(kind, fixedPoint, address, data) => SetSingleState(b, s, kind, fixedPoint, address, data)
    case SemaStall(data) => SetSemaStallPipe(b, s, data)
  }

  function Run(b: Build, s: State, ops: seq<Op>): Outcome<State> {
    if ops == [] then Ok(s)
    else
      var s1 :- Run(b, s, ops[..|ops| - 1]);
      Step(b, s1, ops[|ops| - 1])
  }

  /** How many words a macro writes. */
  function Width(op: Op): nat {
    match op
    case End => 0
    case Single(_, _, _, _) => 2
    case SemaStall(_) => 4
    case _ => 1
  }

  function Total(ops: seq<Op>): nat {
    if ops == [] then 0 else Total(ops[..|ops| - 1]) + Width(ops[|ops| - 1])
  }

  lemma StepGrows(b: Build, s: State, op: Op)
    requires Step(b, s, op).Ok?
    ensures |Step(b, s, op).value.words| == |s.words| + Width(op)
  {
  }

  lemma {:induction false} TotalOfPrefix(ops: seq<Op>, k: nat)
    requires k < |ops|
    ensures Total(ops[..k]) + Width(ops[k]) == Total(ops[..k + 1]) <= Total(ops)
  {
    assert ops[..k + 1][..k] == ops[..k];
    var n := |ops| - 1;
    if k < n {
      TotalOfPrefix(ops[..n], k);
      assert ops[..n][..k + 1] == ops[..k + 1];
    } else {
      assert ops[..k + 1] == ops;
    }
  }

  lemma RunOfPrefix(b: Build, s: State, ops: seq<Op>, k: nat)
    requires k < |ops|
    ensures Run(b, s, ops[..k + 1]) ==
      if Run(b, s, ops[..k]).Ok? then Step(b, Run(b, s, ops[..k]).value, ops[k]) else AssertFailed
  {
    assert ops[..k + 1][..k] == ops[..k];
  }

  /** A run that has stopped stays stopped. */
  lemma {:induction false} StoppedRun(b: Build, s: State, ops: seq<Op>, k: nat)
    requires k <= |ops| && Run(b, s, ops[..k]).AssertFailed?
    ensures Run(b, s, ops).AssertFailed?
  {
    if k == |ops| {
      assert ops[..k] == ops;
    } else {
      var init := ops[..|ops| - 1];
      assert init[..k] == ops[..k];
      StoppedRun(b, s, init, k);
    }
  }

  /** A buffer just reserved, with no batch left open before it. */
  predicate Fresh(s: State) {
    s.words == [] && s.lastCount == 0 && s.delta == []
  }

  // ----- What the caller asked for -----

  /** The events that one macro means the hardware to see. */
  function Meaning(op: Op): seq<Event> {
    match op
    case Begin(fixedPoint, address, count) => [Header(fixedPoint, address, count)]
    case End => []
    case Set(_, address, data) => [Write(address, Truncate(data))]
    case Filler => [Nop]
    case Single(_, fixedPoint, address, data) =>
      [Header(fixedPoint, address, 1), Write(address, Truncate(data))]
    case SemaStall(data) =>
      [Header(false, SEMAPHORE_ADDRESS, 1), Write(SEMAPHORE_ADDRESS, Truncate(data)), Stall(Truncate(data))]
  }

  function Intended(ops: seq<Op>): seq<Event> {
    if ops == [] then [] else Intended(ops[..|ops| - 1]) + Meaning(ops[|ops| - 1])
  }
}
