/** What every accepted run keeps: the protocol of the tracking fields, the size of the stream,
    and the agreement of debug and retail builds. */
module StateBatchInvariants {
  import opened CommandWord
  import opened CommandStream
  import opened FrontEnd
  import opened StateBatch

  // ----- Instrumentation erasure -----

  predicate SameOutput(s: State, t: State) {
    s.words == t.words && s.delta == t.delta
  }

  /** `full` is an outcome under full debugging, `other` that of build b from the same words and log. */
  predicate Erases(b: Build, full: Outcome<State>, other: Outcome<State>) {
    full.Ok? ==> other.Ok? && SameOutput(full.value, other.value) && (b.tracking ==> full == other)
  }

  lemma BeginErasure(b: Build, s: State, t: State, fixedPoint: bool, address: Word, count: Word)
    requires SameOutput(s, t) && (b.tracking ==> s == t)
    ensures Erases(b, BeginStateBatch(FULL_DEBUG, s, fixedPoint, address, count),
                      BeginStateBatch(b, t, fixedPoint, address, count))
  {
  }

  lemma SetErasure(b: Build, s: State, t: State, kind: Kind, address: Word, data: Size)
    requires SameOutput(s, t) && (b.tracking ==> s == t)
    ensures Erases(b, SetState(FULL_DEBUG, s, kind, address, data), SetState(b, t, kind, address, data))
  {
  }

  lemma SingleErasure(b: Build, s: State, t: State, kind: Kind, fixedPoint: bool, address: Word, data: Size)
    requires SameOutput(s, t) && (b.tracking ==> s == t)
    ensures Erases(b, SetSingleState(FULL_DEBUG, s, kind, fixedPoint, address, data),
                      SetSingleState(b, t, kind, fixedPoint, address, data))
  {
    BeginErasure(b, s, t, fixedPoint, address, 1);
    var s1, t1 := BeginStateBatch(FULL_DEBUG, s, fixedPoint, address, 1), BeginStateBatch(b, t, fixedPoint, address, 1);
    if s1.Ok? {
      SetErasure(b, s1.value, t1.value, kind, address, data);
    }
  }

  lemma StepErasure(b: Build, s: State, t: State, op: Op)
    requires SameOutput(s, t) && (b.tracking ==> s == t)
    ensures Erases(b, Step(FULL_DEBUG, s, op), Step(b, t, op))
  {
    match op
    case Begin(fixedPoint, address, count) => BeginErasure(b, s, t, fixedPoint, address, count);
    case Set(kind, address, data) => SetErasure(b, s, t, kind, address, data);
    case Single(kind, fixedPoint, address, data) => SingleErasure(b, s, t, kind, fixedPoint, address, data);
    case SemaStall(data) => SingleErasure(b, s, t, Ctrl, false, SEMAPHORE_ADDRESS, data);
    case _ =>
  }

  /** A run that no assertion stops under full debugging has the same words, cursor and delta log in
      every build, and no build stops it; the builds that track leave the same tracking fields. */
  lemma {:induction false} Erasure(b: Build, s: State, t: State, ops: seq<Op>)
    requires SameOutput(s, t) && (b.tracking ==> s == t)
    ensures Erases(b, Run(FULL_DEBUG, s, ops), Run(b, t, ops))
  {
    if ops != [] {
      var init, last := ops[..|ops| - 1], ops[|ops| - 1];
      Erasure(b, s, t, init);
      if Run(FULL_DEBUG, s, init).Ok? {
        StepErasure(b, Run(FULL_DEBUG, s, init).value, Run(b, t, init).value, last);
      }
    }
  }

  /** Builds without assertions never stop, and any two builds that both reach the end agree,
      whatever their tracking fields held. */
  lemma {:induction false} BuildsAgree(b: Build, c: Build, s: State, t: State, ops: seq<Op>)
    requires SameOutput(s, t)
    ensures !b.asserts ==> Run(b, s, ops).Ok?
    ensures Agree(Run(b, s, ops), Run(c, t, ops))
  {
    if ops != [] {
      var init, last := ops[..|ops| - 1], ops[|ops| - 1];
      BuildsAgree(b, c, s, t, init);
      if Run(b, s, init).Ok? {
        StepNeverStops(b, Run(b, s, init).value, last);
        if Run(c, t, init).Ok? {
          StepsAgree(b, c, Run(b, s, init).value, Run(c, t, init).value, last);
        }
      }
    }
  }

  lemma StepNeverStops(b: Build, s: State, op: Op)
    ensures !b.asserts ==> Step(b, s, op).Ok?
  {
  }

  predicate Agree(r: Outcome<State>, q: Outcome<State>) {
    r.Ok? && q.Ok? ==> SameOutput(r.value, q.value)
  }

  lemma SetsAgree(b: Build, c: Build, s: State, t: State, kind: Kind, address: Word, data: Size)
    requires SameOutput(s, t)
    ensures Agree(SetState(b, s, kind, address, data), SetState(c, t, kind, address, data))
  {
  }

  lemma SinglesAgree(b: Build, c: Build, s: State, t: State, kind: Kind, fixedPoint: bool, address: Word, data: Size)
    requires SameOutput(s, t)
    ensures Agree(SetSingleState(b, s, kind, fixedPoint, address, data),
                  SetSingleState(c, t, kind, fixedPoint, address, data))
  {
    var s1, t1 := BeginStateBatch(b, s, fixedPoint, address, 1), BeginStateBatch(c, t, fixedPoint, address, 1);
    if s1.Ok? && t1.Ok? {
      SetsAgree(b, c, s1.value, t1.value, kind, address, data);
    }
  }

  lemma StepsAgree(b: Build, c: Build, s: State, t: State, op: Op)
    requires SameOutput(s, t)
    ensures Agree(Step(b, s, op), Step(c, t, op))
  {
    match op
    case Single(kind, fixedPoint, address, data) => SinglesAgree(b, c, s, t, kind, fixedPoint, address, data);
    case SemaStall(data) => SinglesAgree(b, c, s, t, Ctrl, false, SEMAPHORE_ADDRESS, data);
    case _ =>
  }

  // ----- The batch protocol -----

  /** The batch that a history leaves: what its header announced and the data written since. */
  datatype Batch = NoBatch | Batch(fixedPoint: bool, address: Word, count: Word, data: seq<Word>)

  predicate Complete(batch: Batch) {
    batch.Batch? ==> |batch.data| == batch.count
  }

  function LastBatch(ops: seq<Op>): Batch {
    if ops == [] then NoBatch else Advance(LastBatch(ops[..|ops| - 1]), ops[|ops| - 1])
  }

  function Advance(batch: Batch, op: Op): Batch {
    match op
    case Begin(fixedPoint, address, count) => Batch(fixedPoint, address, count, [])
    case Set(_, _, data) => if batch.Batch? then batch.(data := batch.data + [Truncate(data)]) else NoBatch
    case Single(_, fixedPoint, address, data) => Batch(fixedPoint, address, 1, [Truncate(data)])
    case SemaStall(data) => Batch(false, SEMAPHORE_ADDRESS, 1, [Truncate(data)])
    case _ => batch
  }

  /** The tracking fields count down the batch, and the header and data stand in the buffer. */
  predicate Tracks(s: State, batch: Batch) {
    match batch
    case NoBatch => s.lastCount == 0
    case Batch(fixedPoint, address, count, data) =>
      var first := s.lastPtr + 1;
      && count <= 1024
      && s.lastAddress == address
      && |data| + s.lastCount == count
      && 0 <= s.lastPtr && first + |data| <= |s.words|
      && s.words[s.lastPtr] == LoadState(fixedPoint, count, address)
      && s.words[first..first + |data|] == data
      && (s.lastCount > 0 ==> first + |data| == |s.words|)
  }

  /** What the protocol allows next, told from the history alone. */
  predicate Legal(batch: Batch, written: nat, op: Op) {
    match op
    case Begin(_, _, count) => Complete(batch) && written % 2 == 0 && count <= 1024
    case End => Complete(batch) && written % 2 == 0
    case Set(_, address, data) =>
      && batch.Batch? && |batch.data| < batch.count
      && address == (batch.address + |batch.data|) % 0x1_0000_0000
      && data < 0x1_0000_0000
    case Filler => Complete(batch)
    case Single(_, _, _, data) => Complete(batch) && written % 2 == 0 && data < 0x1_0000_0000
    case SemaStall(data) => Complete(batch) && written % 2 == 0 && data < 0x1_0000_0000
  }

  /** What a build checks before a macro: nothing without assertions, all of the protocol under full
      debugging, and the 64-bit boundary, the count and the data otherwise. */
  predicate LegalIn(b: Build, batch: Batch, written: nat, op: Op) {
    if !b.asserts then true
    else if b.tracking then Legal(batch, written, op)
    else
      match op
      case Begin(_, _, count) => written % 2 == 0 && count <= 1024
      case End => written % 2 == 0
      case Set(_, _, data) => data < 0x1_0000_0000
      case Filler => true
      case Single(_, _, _, data) => written % 2 == 0 && data < 0x1_0000_0000
      case SemaStall(data) => written % 2 == 0 && data < 0x1_0000_0000
  }

  lemma SameResidue(k: nat, address: Word, base: Word)
    requires k <= 1024
    ensures k % 0x1_0000_0000 == (address - base) % 0x1_0000_0000 <==> address == (base + k) % 0x1_0000_0000
  {
  }

  lemma StepIsLegal(s: State, batch: Batch, op: Op)
    requires Tracks(s, batch)
    ensures Step(FULL_DEBUG, s, op).Ok? <==> Legal(batch, |s.words|, op)
  {
    if op.Set? && batch.Batch? && s.lastCount > 0 {
      SameResidue(|batch.data|, op.address, batch.address);
    }
  }

  lemma BeginTracks(s: State, fixedPoint: bool, address: Word, count: Word)
    requires BeginStateBatch(FULL_DEBUG, s, fixedPoint, address, count).Ok?
    ensures Tracks(BeginStateBatch(FULL_DEBUG, s, fixedPoint, address, count).value,
                   Batch(fixedPoint, address, count, []))
  {
  }

  /** A batch with all its data stays in place behind anything written later. */
  lemma EmitTracks(s: State, batch: Batch, w: Word)
    requires Tracks(s, batch) && s.lastCount == 0
    ensures Tracks(Emit(s, w), batch)
  {
    if batch.Batch? {
      var first := s.lastPtr + 1;
      assert (s.words + [w])[first..first + |batch.data|] == s.words[first..first + |batch.data|];
    }
  }

  lemma SetTracks(s: State, batch: Batch, kind: Kind, address: Word, data: Size)
    requires Tracks(s, batch) && SetState(FULL_DEBUG, s, kind, address, data).Ok?
    ensures Tracks(SetState(FULL_DEBUG, s, kind, address, data).value, Advance(batch, Set(kind, address, data)))
  {
    var s', first := SetState(FULL_DEBUG, s, kind, address, data).value, s.lastPtr + 1;
    assert s'.lastCount == s.lastCount - 1;
    assert s'.words == s.words + [Truncate(data)];
    assert s'.words[first..first + |batch.data| + 1] == s.words[first..first + |batch.data|] + [Truncate(data)];
  }

  lemma SingleTracks(s: State, kind: Kind, fixedPoint: bool, address: Word, data: Size)
    requires SetSingleState(FULL_DEBUG, s, kind, fixedPoint, address, data).Ok?
    ensures Tracks(SetSingleState(FULL_DEBUG, s, kind, fixedPoint, address, data).value,
                   Batch(fixedPoint, address, 1, [Truncate(data)]))
  {
    var batch := Batch(fixedPoint, address, 1, []);
    BeginTracks(s, fixedPoint, address, 1);
    SetTracks(BeginStateBatch(FULL_DEBUG, s, fixedPoint, address, 1).value, batch, kind, address, data);
    assert batch.data + [Truncate(data)] == [Truncate(data)];
  }

  lemma StepTracks(s: State, batch: Batch, op: Op)
    requires Tracks(s, batch) && Step(FULL_DEBUG, s, op).Ok?
    ensures Tracks(Step(FULL_DEBUG, s, op).value, Advance(batch, op))
  {
    match op
    case Begin(fixedPoint, address, count) => BeginTracks(s, fixedPoint, address, count);
    case End =>
    case Set(kind, address, data) => SetTracks(s, batch, kind, address, data);
    case Filler => EmitTracks(s, batch, FILLER);
    case Single(kind, fixedPoint, address, data) => SingleTracks(s, kind, fixedPoint, address, data);
    case SemaStall(data) =>
      SingleTracks(s, Ctrl, false, SEMAPHORE_ADDRESS, data);
      var s1 := SetSingleState(FULL_DEBUG, s, Ctrl, false, SEMAPHORE_ADDRESS, data).value;
      EmitTracks(s1, Advance(batch, op), STALL);
      EmitTracks(Emit(s1, STALL), Advance(batch, op), Truncate(data));
  }

  /** The invariant of every reachable state: words since the header plus lastLoadStateCount are the
      announced count. */
  lemma {:induction false} BatchInvariant(s: State, ops: seq<Op>)
    requires Fresh(s) && Run(FULL_DEBUG, s, ops).Ok?
    ensures Tracks(Run(FULL_DEBUG, s, ops).value, LastBatch(ops))
  {
    if ops != [] {
      var init := ops[..|ops| - 1];
      BatchInvariant(s, init);
      StepTracks(Run(FULL_DEBUG, s, init).value, LastBatch(init), ops[|ops| - 1]);
    }
  }

  /** From every reachable state the debug build accepts exactly the steps the protocol allows: the
      next data word at the next address, and no filler or new batch before the count is used up. */
  lemma AcceptsExactlyTheProtocol(s: State, ops: seq<Op>, op: Op)
    requires Fresh(s) && Run(FULL_DEBUG, s, ops).Ok?
    ensures Run(FULL_DEBUG, s, ops + [op]).Ok?
       <==> Legal(LastBatch(ops), |Run(FULL_DEBUG, s, ops).value.words|, op)
  {
    assert (ops + [op])[..|ops|] == ops;
    BatchInvariant(s, ops);
    StepIsLegal(Run(FULL_DEBUG, s, ops).value, LastBatch(ops), op);
  }

  lemma UntrackedStepIsLegal(s: State, batch: Batch, op: Op)
    ensures Step(Build(false, true), s, op).Ok? <==> LegalIn(Build(false, true), batch, |s.words|, op)
  {
  }

  /** The same in every build: from every state that it reaches, exactly the checks that it makes. */
  lemma AcceptsExactlyIn(b: Build, s: State, ops: seq<Op>, op: Op)
    requires Fresh(s) && Run(b, s, ops).Ok?
    ensures Run(b, s, ops + [op]).Ok? <==> LegalIn(b, LastBatch(ops), |Run(b, s, ops).value.words|, op)
  {
    assert (ops + [op])[..|ops|] == ops;
    var s' := Run(b, s, ops).value;
    if !b.asserts {
      StepNeverStops(b, s', op);
    } else if b.tracking {
      AcceptsExactlyTheProtocol(s, ops, op);
    } else {
      UntrackedStepIsLegal(s', LastBatch(ops), op);
    }
  }

  // ----- Tracking without assertions -----

  /** The tracking fields of a build that does not check them: the count wraps once more data are
      written than were announced. */
  predicate TracksUnchecked(s: State, batch: Batch) {
    batch.Batch? ==>
      && s.lastAddress == batch.address
      && s.lastCount == (batch.count - |batch.data|) % 0x1_0000_0000
      && 0 <= s.lastPtr < |s.words| && s.words[s.lastPtr] == LoadState(batch.fixedPoint, batch.count, batch.address)
  }

  lemma WrappedCountDown(count: int, written: int)
    ensures ((count - written) % 0x1_0000_0000 - 1) % 0x1_0000_0000 == (count - (written + 1)) % 0x1_0000_0000
  {
  }

  lemma SetTracksUnchecked(b: Build, s: State, batch: Batch, kind: Kind, address: Word, data: Size)
    requires b.tracking && TracksUnchecked(s, batch) && SetState(b, s, kind, address, data).Ok?
    ensures TracksUnchecked(SetState(b, s, kind, address, data).value, Advance(batch, Set(kind, address, data)))
  {
    if batch.Batch? { WrappedCountDown(batch.count, |batch.data|); }
  }

  lemma SingleTracksUnchecked(b: Build, s: State, kind: Kind, fixedPoint: bool, address: Word, data: Size)
    requires b.tracking && SetSingleState(b, s, kind, fixedPoint, address, data).Ok?
    ensures TracksUnchecked(SetSingleState(b, s, kind, fixedPoint, address, data).value,
                            Batch(fixedPoint, address, 1, [Truncate(data)]))
  {
    var s1 := BeginStateBatch(b, s, fixedPoint, address, 1).value;
    SetTracksUnchecked(b, s1, Batch(fixedPoint, address, 1, []), kind, address, data);
    assert [] + [Truncate(data)] == [Truncate(data)];
  }

  lemma StepTracksUnchecked(b: Build, s: State, batch: Batch, op: Op)
    requires b.tracking && TracksUnchecked(s, batch) && Step(b, s, op).Ok?
    ensures TracksUnchecked(Step(b, s, op).value, Advance(batch, op))
  {
    match op
    case Set(kind, address, data) => SetTracksUnchecked(b, s, batch, kind, address, data);
    case Single(kind, fixedPoint, address, data) => SingleTracksUnchecked(b, s, kind, fixedPoint, address, data);
    case SemaStall(data) => SingleTracksUnchecked(b, s, Ctrl, false, SEMAPHORE_ADDRESS, data);
    case _ =>
  }

  /** Every build that tracks, over any run that it lets through. */
  lemma {:induction false} UncheckedInvariant(b: Build, s: State, ops: seq<Op>)
    requires b.tracking && Run(b, s, ops).Ok?
    ensures TracksUnchecked(Run(b, s, ops).value, LastBatch(ops))
  {
    if ops != [] {
      var init := ops[..|ops| - 1];
      UncheckedInvariant(b, s, init);
      StepTracksUnchecked(b, Run(b, s, init).value, LastBatch(init), ops[|ops| - 1]);
    }
  }

  // ----- Conservation of words -----

  /** The words that an event takes in the stream; data words are paid for by their header. */
  function Cost(e: Event): int {
    match e
    case Header(_, _, count) => 1 + count
    case Write(_, _) => 0
    case Nop => 1
    case Stall(_) => 2
  }

  function TotalCost(events: seq<Event>): int {
    if events == [] then 0 else TotalCost(events[..|events| - 1]) + Cost(events[|events| - 1])
  }

  lemma {:induction false} TotalCostOfConcat(xs: seq<Event>, ys: seq<Event>)
    ensures TotalCost(xs + ys) == TotalCost(xs) + TotalCost(ys)
  {
    if ys == [] {
      assert xs + ys == xs;
    } else {
      var n := |ys| - 1;
      assert (xs + ys)[..|xs| + n] == xs + ys[..n];
      TotalCostOfConcat(xs, ys[..n]);
    }
  }

  lemma CostOfOne(e: Event)
    ensures TotalCost([e]) == Cost(e)
  {
    assert [e][..0] == [];
  }

  lemma CostOfMeaning(op: Op)
    ensures TotalCost(Meaning(op)) ==
      match op {
        case Begin(_, _, count) => 1 + count as int
        case Filler => 1
        case Single(_, _, _, _) => 2
        case SemaStall(_) => 4
        case _ => 0
      }
  {
    var m := Meaning(op);
    if |m| >= 1 { CostOfOne(m[0]); }
    if |m| >= 2 { CostOfOne(m[1]); TotalCostOfConcat([m[0]], [m[1]]); }
    if |m| == 2 { assert m == [m[0]] + [m[1]]; }
    if |m| == 3 {
      CostOfOne(m[2]);
      TotalCostOfConcat([m[0]] + [m[1]], [m[2]]);
      assert m == [m[0]] + [m[1]] + [m[2]];
    } else if |m| == 1 {
      assert m == [m[0]];
    }
  }

  /** In every reachable state the words written and the words still owed add up to what the macros
      announced. */
  lemma {:induction false} WordsConserved(s: State, ops: seq<Op>)
    requires Fresh(s) && Run(FULL_DEBUG, s, ops).Ok?
    ensures var s' := Run(FULL_DEBUG, s, ops).value;
      |s'.words| + s'.lastCount == TotalCost(Intended(ops))
  {
    if ops != [] {
      var init, last := ops[..|ops| - 1], ops[|ops| - 1];
      WordsConserved(s, init);
      TotalCostOfConcat(Intended(init), Meaning(last));
      CostOfMeaning(last);
      StepConserves(Run(FULL_DEBUG, s, init).value, last);
    }
  }

  lemma StepConserves(s: State, op: Op)
    requires Step(FULL_DEBUG, s, op).Ok?
    ensures var s' := Step(FULL_DEBUG, s, op).value;
      |s'.words| + s'.lastCount == |s.words| + s.lastCount + TotalCost(Meaning(op))
  {
    CostOfMeaning(op);
  }
}
