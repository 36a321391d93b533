/** When the delta log of a tracked run agrees with its words: the exact condition. */
module LogAgreement {
  import opened CommandWord
  import opened CommandStream
  import opened FrontEnd
  import opened StateBatch
  import opened StateBatchInvariants
  import opened StateBatchRoundTrip
  import opened WriteLog

  /** The log holds the decoded writes, less those whose kind is not logged. */
  predicate Agrees(kinds: seq<Kind>, s: State) {
    var d := Decode(s.words);
    d.Decoded? && |kinds| == |Writes(d.events)| && s.delta == LogOf(kinds, Writes(d.events))
  }

  /** Where the reader stands: it takes the low 16 bits of the address, and no count for 1024. */
  function ReaderMode(s: State, afterEmpty: bool): Mode {
    if afterEmpty then Loading(s.lastAddress % 0x1_0000, 1024)
    else if s.lastCount == 0 then Idle
    else Loading(s.lastAddress % 0x1_0000 + (|s.words| - s.lastPtr - 1), s.lastCount)
  }

  predicate InStep(s: State, kinds: seq<Kind>, afterEmpty: bool) {
    && Agrees(kinds, s) && Decode(s.words).mode == ReaderMode(s, afterEmpty)
    && (afterEmpty ==> s.lastCount == 0 && |s.words| % 2 == 1)
    && (s.lastCount > 0 ==> 0 <= |s.words| - s.lastPtr - 1 && |s.words| - s.lastPtr - 1 + s.lastCount <= 1024)
  }

  // ----- Words -----

  function ReadCount(count: Word): Word {
    if count == 0 then 1024 else count
  }

  lemma AnyHeaderOpens(fixedPoint: bool, count: Word, address: Word)
    requires count <= 1024
    ensures Consume(Idle, LoadState(fixedPoint, count, address)) ==
      Decoded(Loading(address % 0x1_0000, ReadCount(count)), [Header(fixedPoint, address % 0x1_0000, ReadCount(count))])
  {
    HeaderRoundTrip(fixedPoint, count, address);
  }

  lemma AnyHeaderReads(words: seq<Word>, events: seq<Event>, fixedPoint: bool, count: Word, address: Word)
    requires Decode(words) == Decoded(Idle, events) && count <= 1024
    ensures Decode(words + [LoadState(fixedPoint, count, address)]) ==
      Decoded(Loading(address % 0x1_0000, ReadCount(count)),
              events + [Header(fixedPoint, address % 0x1_0000, ReadCount(count))])
  {
    AnyHeaderOpens(fixedPoint, count, address);
    DecodeSnoc(words, LoadState(fixedPoint, count, address));
  }

  lemma DataReads(words: seq<Word>, events: seq<Event>, next: int, left: int, w: Word)
    requires Decode(words) == Decoded(Loading(next, left), events)
    ensures Decode(words + [w]) ==
      Decoded(if left == 1 then Idle else Loading(next + 1, left - 1), events + [Write(next, w)])
  {
    DecodeSnoc(words, w);
  }

  lemma NoMoreWrites(events: seq<Event>, e: Event)
    requires !e.Write?
    ensures Writes(events + [e]) == Writes(events)
  {
    WritesOfConcat(events, [e]);
    WritesOfOne(e);
  }

  lemma OneMoreWrite(events: seq<Event>, address: int, w: Word)
    ensures Writes(events + [Write(address, w)]) == Writes(events) + [(address, w)]
  {
    WritesOfConcat(events, [Write(address, w)]);
    WritesOfOne(Write(address, w));
  }

  // ----- The log -----

  /** The state that the reader loads is the one that the macro was given exactly under a header whose
      address has 16 bits. */
  lemma SameState(lastAddress: Word, written: int, address: Word)
    requires 0 <= written < 1024
    requires written % 0x1_0000_0000 == (address - lastAddress) % 0x1_0000_0000
    ensures lastAddress % 0x1_0000 + written == address <==> lastAddress < 0x1_0000
  {
    if lastAddress < 0x1_0000 { VerifiedAddress(written, address, lastAddress); }
  }

  lemma EntriesAgree(log: seq<Delta>, kind: Kind, a: Word, b: Word, w: Word)
    ensures log + DeltaOf(kind, a, w) == log + DeltaOf(kind, b, w) <==> kind.Ctrl? || a == b
  {
    if !kind.Ctrl? && a != b {
      assert (log + DeltaOf(kind, a, w))[|log|] != (log + DeltaOf(kind, b, w))[|log|];
    }
  }

  // ----- One macro -----

  lemma HeaderKeepsLog(words: seq<Word>, events: seq<Event>, fixedPoint: bool, address: Word, count: Word)
    requires Decode(words) == Decoded(Idle, events) && count <= 1024
    ensures var d := Decode(words + [LoadState(fixedPoint, count, address)]);
      && d.Decoded? && d.mode == Loading(address % 0x1_0000, ReadCount(count))
      && Writes(d.events) == Writes(events)
  {
    AnyHeaderReads(words, events, fixedPoint, count, address);
    NoMoreWrites(events, Header(fixedPoint, address % 0x1_0000, ReadCount(count)));
  }

  lemma ModeAfterBegin(words: seq<Word>, w: Word, address: Word, count: Word, log: seq<Delta>)
    ensures ReaderMode(State(words + [w], |words|, address, count, log), count == 0)
         == Loading(address % 0x1_0000, ReadCount(count))
  {
  }

  lemma BeginInStep(s: State, kinds: seq<Kind>, fixedPoint: bool, address: Word, count: Word)
    requires InStep(s, kinds, false) && BeginStateBatch(FULL_DEBUG, s, fixedPoint, address, count).Ok?
    ensures InStep(BeginStateBatch(FULL_DEBUG, s, fixedPoint, address, count).value, kinds, count == 0)
  {
    BeginResult(s, fixedPoint, address, count);
    HeaderKeepsLog(s.words, Decode(s.words).events, fixedPoint, address, count);
    ModeAfterBegin(s.words, LoadState(fixedPoint, count, address), address, count, s.delta);
    BeginIsEven(s, fixedPoint, address, count);
  }

  lemma BeginIsEven(s: State, fixedPoint: bool, address: Word, count: Word)
    requires BeginStateBatch(FULL_DEBUG, s, fixedPoint, address, count).Ok?
    ensures (|s.words| + 1) % 2 == 1
  {
  }

  lemma DataExtendsLog(words: seq<Word>, events: seq<Event>, at: Word, left: int, kinds: seq<Kind>, kind: Kind, w: Word)
    requires Decode(words) == Decoded(Loading(at, left), events) && |kinds| == |Writes(events)|
    ensures var d := Decode(words + [w]);
      && d.Decoded? && d.mode == (if left == 1 then Idle else Loading(at + 1, left - 1))
      && |kinds + [kind]| == |Writes(d.events)|
      && LogOf(kinds + [kind], Writes(d.events)) == LogOf(kinds, Writes(events)) + DeltaOf(kind, at, w)
  {
    DataReads(words, events, at, left, w);
    OneMoreWrite(events, at, w);
    LogSnoc(kinds, Writes(events), kind, at, w);
  }

  /** The state that the reader loads next. */
  function NextState(s: State): int {
    s.lastAddress % 0x1_0000 + (|s.words| - s.lastPtr - 1)
  }

  lemma ModeAfterData(s: State, w: Word, log: seq<Delta>)
    requires s.lastCount > 0
    ensures ReaderMode(State(s.words + [w], s.lastPtr, s.lastAddress, s.lastCount - 1, log), false)
         == if s.lastCount == 1 then Idle else Loading(NextState(s) + 1, s.lastCount - 1)
  {
  }

  function AfterData(s: State, kind: Kind, address: Word, w: Word): State
    requires s.lastCount > 0
  {
    State(s.words + [w], s.lastPtr, s.lastAddress, s.lastCount - 1, s.delta + DeltaOf(kind, address, w))
  }

  lemma DataAgrees(words: seq<Word>, events: seq<Event>, at: Word, left: int, kinds: seq<Kind>,
                   kind: Kind, address: Word, w: Word, s': State)
    requires Decode(words) == Decoded(Loading(at, left), events) && |kinds| == |Writes(events)|
    requires s'.words == words + [w] && s'.delta == LogOf(kinds, Writes(events)) + DeltaOf(kind, address, w)
    ensures Agrees(kinds + [kind], s') <==> kind.Ctrl? || address == at
    ensures Decode(s'.words).Decoded?
    ensures Decode(s'.words).mode == if left == 1 then Idle else Loading(at + 1, left - 1)
  {
    DataExtendsLog(words, events, at, left, kinds, kind, w);
    EntriesAgree(LogOf(kinds, Writes(events)), kind, address, at, w);
  }

  lemma DataInStep(s: State, events: seq<Event>, at: Word, kinds: seq<Kind>, kind: Kind, address: Word, w: Word)
    requires Decode(s.words) == Decoded(Loading(at, s.lastCount), events) && at == NextState(s)
    requires |kinds| == |Writes(events)| && s.delta == LogOf(kinds, Writes(events))
    requires 0 <= |s.words| - s.lastPtr - 1 && |s.words| - s.lastPtr - 1 + s.lastCount <= 1024 && s.lastCount > 0
    ensures InStep(AfterData(s, kind, address, w), kinds + [kind], false) <==> kind.Ctrl? || address == at
    ensures Agrees(kinds + [kind], AfterData(s, kind, address, w)) <==> kind.Ctrl? || address == at
  {
    var s' := AfterData(s, kind, address, w);
    DataAgrees(s.words, events, at, s.lastCount, kinds, kind, address, w, s');
    ModeAfterData(s, w, s'.delta);
  }

  lemma SetResult(s: State, kind: Kind, address: Word, data: Size)
    requires SetState(FULL_DEBUG, s, kind, address, data).Ok?
    ensures s.lastCount > 0
    ensures SetState(FULL_DEBUG, s, kind, address, data) == Ok(AfterData(s, kind, address, Truncate(data)))
  {
  }

  lemma NextIsGiven(s: State, kind: Kind, address: Word, data: Size)
    requires 0 <= |s.words| - s.lastPtr - 1 < 1024 && SetState(FULL_DEBUG, s, kind, address, data).Ok?
    ensures 0 <= NextState(s) < 0x1_0000_0000
    ensures address == NextState(s) <==> s.lastAddress < 0x1_0000
  {
    SameState(s.lastAddress, |s.words| - s.lastPtr - 1, address);
  }

  lemma SetInStep(s: State, kinds: seq<Kind>, kind: Kind, address: Word, data: Size)
    requires InStep(s, kinds, false) && SetState(FULL_DEBUG, s, kind, address, data).Ok?
    ensures var s' := SetState(FULL_DEBUG, s, kind, address, data).value;
      if kind.Ctrl? || s.lastAddress < 0x1_0000 then InStep(s', kinds + [kind], false)
      else !Agrees(kinds + [kind], s')
  {
    SetResult(s, kind, address, data);
    NextIsGiven(s, kind, address, data);
    DataInStep(s, Decode(s.words).events, NextState(s), kinds, kind, address, Truncate(data));
  }

  lemma FillerInStep(s: State, kinds: seq<Kind>, afterEmpty: bool)
    requires InStep(s, kinds, afterEmpty) && s.lastCount == 0
    ensures if afterEmpty then !Agrees(kinds, Emit(s, FILLER)) else InStep(Emit(s, FILLER), kinds, false)
  {
    var events := Decode(s.words).events;
    if afterEmpty {
      DataReads(s.words, events, s.lastAddress % 0x1_0000, 1024, FILLER);
      OneMoreWrite(events, s.lastAddress % 0x1_0000, FILLER);
    } else {
      FillerReads(s.words, events);
      NoMoreWrites(events, Nop);
    }
  }

  lemma SingleInStep(s: State, kinds: seq<Kind>, kind: Kind, fixedPoint: bool, address: Word, data: Size)
    requires InStep(s, kinds, false) && SetSingleState(FULL_DEBUG, s, kind, fixedPoint, address, data).Ok?
    ensures var s' := SetSingleState(FULL_DEBUG, s, kind, fixedPoint, address, data).value;
      if kind.Ctrl? || address < 0x1_0000 then InStep(s', kinds + [kind], false) && s'.lastCount == 0
      else !Agrees(kinds + [kind], s')
  {
    BeginInStep(s, kinds, fixedPoint, address, 1);
    BeginResult(s, fixedPoint, address, 1);
    SetInStep(BeginStateBatch(FULL_DEBUG, s, fixedPoint, address, 1).value, kinds, kind, address, data);
  }

  lemma SemaStallInStep(s: State, kinds: seq<Kind>, data: Size)
    requires InStep(s, kinds, false) && SetSemaStallPipe(FULL_DEBUG, s, data).Ok?
    ensures InStep(SetSemaStallPipe(FULL_DEBUG, s, data).value, kinds + [Ctrl], false)
  {
    SingleInStep(s, kinds, Ctrl, false, SEMAPHORE_ADDRESS, data);
    var s1 := SetSingleState(FULL_DEBUG, s, Ctrl, false, SEMAPHORE_ADDRESS, data).value;
    StallInStep(s1, kinds + [Ctrl], Truncate(data));
  }

  lemma StallInStep(s: State, kinds: seq<Kind>, w: Word)
    requires InStep(s, kinds, false) && s.lastCount == 0
    ensures InStep(Emit(Emit(s, STALL), w), kinds, false)
  {
    var events := Decode(s.words).events;
    StallReads(s.words, events, w);
    NoMoreWrites(events, Stall(w));
  }

  /** What keeps log and words together: nothing is written after an empty header, and what is logged
      stands under a header with a 16-bit address. */
  predicate Allowed(address: Word, afterEmpty: bool, op: Op) {
    match op
    case Set(kind, _, _) => kind.Ctrl? || address < 0x1_0000
    case Single(kind, _, own, _) => kind.Ctrl? || own < 0x1_0000
    case Filler => !afterEmpty
    case _ => true
  }

  predicate IsEmptyBegin(op: Op) {
    op.Begin? && op.count == 0
  }

  /** An empty header leaves the cursor odd, so that only a filler is accepted next. */
  lemma AfterEmpty(s: State, op: Op)
    requires s.lastCount == 0 && |s.words| % 2 == 1 && Step(FULL_DEBUG, s, op).Ok?
    ensures op.Filler?
  {
  }

  predicate StaysInStep(s: State, kinds: seq<Kind>, afterEmpty: bool, op: Op, r: Outcome<State>) {
    r.Ok? ==>
      if Allowed(s.lastAddress, afterEmpty, op) then InStep(r.value, kinds + KindsOf(op), IsEmptyBegin(op))
      else !Agrees(kinds + KindsOf(op), r.value)
  }

  lemma StepInStep(s: State, kinds: seq<Kind>, afterEmpty: bool, op: Op)
    requires InStep(s, kinds, afterEmpty)
    ensures StaysInStep(s, kinds, afterEmpty, op, Step(FULL_DEBUG, s, op))
  {
    if Step(FULL_DEBUG, s, op).Ok? {
      assert kinds + [] == kinds;
      if afterEmpty { AfterEmpty(s, op); }
      match op
      case Begin(fixedPoint, address, count) => BeginInStep(s, kinds, fixedPoint, address, count);
      case End =>
      case Set(kind, address, data) => SetInStep(s, kinds, kind, address, data);
      case Filler => FillerInStep(s, kinds, afterEmpty);
      case Single(kind, fixedPoint, address, data) => SingleInStep(s, kinds, kind, fixedPoint, address, data);
      case SemaStall(data) => SemaStallInStep(s, kinds, data);
    }
  }

  // ----- Runs -----

  predicate EndsEmpty(ops: seq<Op>) {
    ops != [] && IsEmptyBegin(ops[|ops| - 1])
  }

  function HeaderAddress(batch: Batch): Word {
    if batch.Batch? then batch.address else 0
  }

  /** The condition, told from the macros alone. */
  predicate LogReadable(ops: seq<Op>) {
    ops != [] ==>
      var init := ops[..|ops| - 1];
      LogReadable(init) && Allowed(HeaderAddress(LastBatch(init)), EndsEmpty(init), ops[|ops| - 1])
  }

  /** The log agrees with the words after the first k macros. */
  predicate AgreesAfter(s: State, ops: seq<Op>, k: nat)
    requires k <= |ops|
  {
    var r := Run(FULL_DEBUG, s, ops[..k]);
    r.Ok? && Agrees(Kinds(ops[..k]), r.value)
  }

  lemma LastHeader(s: State, ops: seq<Op>, op: Op)
    requires Fresh(s) && Run(FULL_DEBUG, s, ops).Ok? && op.Set?
    requires Step(FULL_DEBUG, Run(FULL_DEBUG, s, ops).value, op).Ok?
    ensures HeaderAddress(LastBatch(ops)) == Run(FULL_DEBUG, s, ops).value.lastAddress
  {
    BatchInvariant(s, ops);
    StepIsLegal(Run(FULL_DEBUG, s, ops).value, LastBatch(ops), op);
  }

  lemma {:induction false} RunInStep(s: State, ops: seq<Op>)
    requires Fresh(s) && Run(FULL_DEBUG, s, ops).Ok?
    ensures LogReadable(ops) ==> InStep(Run(FULL_DEBUG, s, ops).value, Kinds(ops), EndsEmpty(ops))
    ensures LogReadable(ops) || exists k: nat :: k <= |ops| && !AgreesAfter(s, ops, k)
  {
    if ops != [] {
      var n := |ops| - 1;
      var init, last := ops[..n], ops[n];
      RunInStep(s, init);
      if LogReadable(init) {
        RunOneMore(s, ops);
      } else {
        var k: nat :| k <= n && !AgreesAfter(s, init, k);
        assert init[..k] == ops[..k];
        assert !AgreesAfter(s, ops, k);
      }
    }
  }

  lemma RunOneMore(s: State, ops: seq<Op>)
    requires Fresh(s) && ops != [] && Run(FULL_DEBUG, s, ops).Ok?
    requires var init := ops[..|ops| - 1];
      LogReadable(init) && InStep(Run(FULL_DEBUG, s, init).value, Kinds(init), EndsEmpty(init))
    ensures if LogReadable(ops) then InStep(Run(FULL_DEBUG, s, ops).value, Kinds(ops), EndsEmpty(ops))
            else !AgreesAfter(s, ops, |ops|)
  {
    var init, last := ops[..|ops| - 1], ops[|ops| - 1];
    var s1 := Run(FULL_DEBUG, s, init).value;
    if last.Set? { LastHeader(s, init, last); }
    StepInStep(s1, Kinds(init), EndsEmpty(init), last);
    assert ops[..|ops|] == ops;
    assert Allowed(HeaderAddress(LastBatch(init)), EndsEmpty(init), last)
        == Allowed(s1.lastAddress, EndsEmpty(init), last);
  }

  lemma {:induction false} PrefixReadable(ops: seq<Op>, k: nat)
    requires k <= |ops| && LogReadable(ops)
    ensures LogReadable(ops[..k])
  {
    if k == |ops| {
      assert ops[..k] == ops;
    } else {
      assert ops[..|ops| - 1][..k] == ops[..k];
      PrefixReadable(ops[..|ops| - 1], k);
    }
  }

  lemma ReadablePrefixAgrees(s: State, ops: seq<Op>, k: nat)
    requires Fresh(s) && Run(FULL_DEBUG, s, ops).Ok? && LogReadable(ops) && k <= |ops|
    ensures AgreesAfter(s, ops, k)
  {
    PrefixReadable(ops, k);
    if Run(FULL_DEBUG, s, ops[..k]).AssertFailed? { StoppedRun(FULL_DEBUG, s, ops, k); }
    RunInStep(s, ops[..k]);
  }

  /** Throughout an accepted run the log is what the words written so far load, less the control
      writes, exactly when no word follows an empty header and every logged write stands under a header
      with a 16-bit address. */
  lemma LogAgreesExactly(s: State, ops: seq<Op>)
    requires Fresh(s) && Run(FULL_DEBUG, s, ops).Ok?
    ensures (forall k: nat :: k <= |ops| ==> AgreesAfter(s, ops, k)) <==> LogReadable(ops)
  {
    RunInStep(s, ops);
    if LogReadable(ops) {
      forall k: nat | k <= |ops| ensures AgreesAfter(s, ops, k) { ReadablePrefixAgrees(s, ops, k); }
    }
  }

  /** A control state at 0x10000 is misread, and yet the log agrees: it has no entry for it. */
  lemma WideControlStateIsHarmless(s: State)
    requires Fresh(s)
    ensures var ops := [Single(Ctrl, false, 0x1_0000, 7)];
      Run(FULL_DEBUG, s, ops).Ok? && LogReadable(ops) && !AllReadable(Intended(ops))
  {
    var op := Single(Ctrl, false, 0x1_0000, 7);
    var ops := [op];
    assert ops[..0] == [];
    assert Run(FULL_DEBUG, s, []) == Ok(s);
    assert Intended(ops) == [] + Meaning(op) == Meaning(op);
    assert !Readable(Intended(ops)[0]);
  }
}
