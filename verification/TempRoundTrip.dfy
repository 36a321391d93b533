/** What the _NEW macros emit, read back: every accepted run of all ten macros, in every build. */
module TempRoundTrip {
  import opened Sequences
  import opened CommandWord
  import opened CommandStream
  import opened FrontEnd
  import opened StreamCodec
  import opened WriteLog
  import opened TempBatch
  import opened BlockStates
  import opened SectionChaining

  /** The events that one macro means the hardware to see; the arrays load consecutive states. */
  function Meaning(op: Op): seq<Event> {
    match op
    case Begin(fixedPoint, address, count) => [Header(fixedPoint, address, count)]
    case End => []
    case Set(_, address, data) => [Write(address, Truncate(data))]
    case SetFast(_, address, data) => [Write(address, Truncate(data))]
    case Filler => [Nop]
    case Single(_, fixedPoint, address, data) => SingleMeaning(fixedPoint, address, data)
    case SingleFast(_, fixedPoint, address, data) => SingleMeaning(fixedPoint, address, data)
    case Block(fixedPoint, address, data, count) => ArrayMeaning(fixedPoint, address, seq(count, _ => data))
    case CtrlStates(fixedPoint, address, datas) => ArrayMeaning(fixedPoint, address, datas)
    case SemaStall(data) => SingleMeaning(false, SEMAPHORE_ADDRESS, data) + [Stall(Truncate(data))]
  }

  function SingleMeaning(fixedPoint: bool, address: Word, data: Size): seq<Event> {
    [Header(fixedPoint, address, 1), Write(address, Truncate(data))]
  }

  function ArrayMeaning(fixedPoint: bool, address: Word, datas: Datas): seq<Event> {
    [Header(fixedPoint, address, |datas|)] + WritesFrom(address, Truncated(datas))
  }

  function Intended(ops: seq<Op>): seq<Event> {
    if ops == [] then [] else Intended(ops[..|ops| - 1]) + Meaning(ops[|ops| - 1])
  }

  // ----- The words of a run are its meaning, encoded -----

  lemma {:induction false} EncodeWrites(address: int, datas: seq<Word>)
    ensures Encode(WritesFrom(address, datas)) == datas
  {
    if datas != [] {
      var n := |datas| - 1;
      EncodeWrites(address, datas[..n]);
      WritesFromSnoc(address, datas, n);
      EncodeSnoc(WritesFrom(address, datas[..n]), Write(address + n, datas[n]));
      assert datas == datas[..n] + [datas[n]];
    }
  }

  lemma EncodeHeader(fixedPoint: bool, address: Word, count: Word)
    ensures Encode([Header(fixedPoint, address, count)]) == [LoadState(fixedPoint, count, address)]
  {
    EncodeOne(Header(fixedPoint, address, count));
    assert count % 0x1_0000_0000 == count && address % 0x1_0000_0000 == address;
  }

  lemma EncodeArray(fixedPoint: bool, address: Word, datas: Datas)
    ensures Encode(ArrayMeaning(fixedPoint, address, datas)) == ArrayWords(fixedPoint, address, datas)
  {
    var h := Header(fixedPoint, address, |datas|);
    EncodeHeader(fixedPoint, address, |datas|);
    EncodeWrites(address, Truncated(datas));
    EncodeConcat([h], WritesFrom(address, Truncated(datas)));
  }

  lemma EncodeSingle(fixedPoint: bool, address: Word, data: Size)
    ensures Encode(SingleMeaning(fixedPoint, address, data)) == [LoadState(fixedPoint, 1, address), Truncate(data)]
  {
    var h, w := Header(fixedPoint, address, 1), Write(address, Truncate(data));
    EncodeHeader(fixedPoint, address, 1);
    EncodeOne(w);
    EncodeConcat([h], [w]);
    assert SingleMeaning(fixedPoint, address, data) == [h] + [w];
  }

  /** The words that each macro emits. */
  function Emitted(op: Op): seq<Word> {
    match op
    case Begin(fixedPoint, address, count) => [LoadState(fixedPoint, count, address)]
    case End => []
    case Set(_, _, data) => [Truncate(data)]
    case SetFast(_, _, data) => [Truncate(data)]
    case Filler => [FILLER]
    case Single(_, fixedPoint, address, data) => [LoadState(fixedPoint, 1, address), Truncate(data)]
    case SingleFast(_, fixedPoint, address, data) => [LoadState(fixedPoint, 1, address), Truncate(data)]
    case Block(fixedPoint, address, data, count) => ArrayWords(fixedPoint, address, seq(count, _ => data))
    case CtrlStates(fixedPoint, address, datas) => ArrayWords(fixedPoint, address, datas)
    case SemaStall(data) => [LoadState(false, 1, SEMAPHORE_ADDRESS), Truncate(data), STALL, Truncate(data)]
  }

  function ArrayWords(fixedPoint: bool, address: Word, datas: Datas): seq<Word> {
    [LoadState(fixedPoint, |datas|, address)] + Truncated(datas)
  }

  lemma EncodeSemaStall(data: Size)
    ensures Encode(Meaning(SemaStall(data))) == Emitted(SemaStall(data))
  {
    EncodeSingle(false, SEMAPHORE_ADDRESS, data);
    EncodeSnoc(SingleMeaning(false, SEMAPHORE_ADDRESS, data), Stall(Truncate(data)));
  }

  lemma EncodeData(op: Op)
    requires op.Set? || op.SetFast?
    ensures Encode(Meaning(op)) == Emitted(op)
  {
    EncodeOne(Write(op.address, Truncate(op.data)));
  }

  lemma EncodeMeaning(op: Op)
    ensures Encode(Meaning(op)) == Emitted(op)
  {
    match op
    case Begin(fixedPoint, address, count) => EncodeHeader(fixedPoint, address, count);
    case End =>
    case Filler => EncodeOne(Nop);
    case Single(_, fixedPoint, address, data) => EncodeSingle(fixedPoint, address, data);
    case SingleFast(_, fixedPoint, address, data) => EncodeSingle(fixedPoint, address, data);
    case Block(fixedPoint, address, data, count) => EncodeArray(fixedPoint, address, seq(count, _ => data));
    case CtrlStates(fixedPoint, address, datas) => EncodeArray(fixedPoint, address, datas);
    case SemaStall(data) => EncodeSemaStall(data);
    case _ => EncodeData(op);
  }

  lemma SingleEmits(b: Build, s: State, kind: Kind, fixedPoint: bool, address: Word, data: Size)
    requires SetSingleState(b, s, kind, fixedPoint, address, data).Ok?
    ensures SetSingleState(b, s, kind, fixedPoint, address, data).value.words
         == s.words + [LoadState(fixedPoint, 1, address), Truncate(data)]
  {
    ConcatAssociates(s.words, [LoadState(fixedPoint, 1, address)], [Truncate(data)]);
  }

  lemma SingleFastEmits(b: Build, s: State, kind: FastKind, fixedPoint: bool, address: Word, data: Size)
    requires SetSingleStateFast(b, s, kind, fixedPoint, address, data).Ok?
    ensures SetSingleStateFast(b, s, kind, fixedPoint, address, data).value.words
         == s.words + [LoadState(fixedPoint, 1, address), Truncate(data)]
  {
    ConcatAssociates(s.words, [LoadState(fixedPoint, 1, address)], [Truncate(data)]);
  }

  lemma ArrayEmits(b: Build, s: State, fixedPoint: bool, address: Word, datas: Datas)
    requires SetCtrlStates(b, s, fixedPoint, address, datas).Ok?
    ensures SetCtrlStates(b, s, fixedPoint, address, datas).value.words
         == s.words + ArrayWords(fixedPoint, address, datas)
  {
    ConcatAssociates(s.words, [LoadState(fixedPoint, |datas|, address)], Truncated(datas));
  }

  lemma SemaStallEmits(b: Build, s: State, data: Size)
    requires SetSemaStallPipe(b, s, data).Ok?
    ensures SetSemaStallPipe(b, s, data).value.words == s.words + Emitted(SemaStall(data))
  {
    SingleEmits(b, s, Ctrl, false, SEMAPHORE_ADDRESS, data);
  }

  lemma StepEmits(b: Build, s: State, op: Op)
    requires Step(b, s, op).Ok?
    ensures Step(b, s, op).value.words == s.words + Emitted(op)
  {
    match op
    case Single(kind, fixedPoint, address, data) => SingleEmits(b, s, kind, fixedPoint, address, data);
    case SingleFast(kind, fixedPoint, address, data) => SingleFastEmits(b, s, kind, fixedPoint, address, data);
    case Block(fixedPoint, address, data, count) => ArrayEmits(b, s, fixedPoint, address, seq(count, _ => data));
    case CtrlStates(fixedPoint, address, datas) => ArrayEmits(b, s, fixedPoint, address, datas);
    case SemaStall(data) => SemaStallEmits(b, s, data);
    case End => assert s.words + [] == s.words;
    case _ =>
  }

  lemma {:induction false} RunEncodes(b: Build, s: State, ops: seq<Op>)
    requires Run(b, s, ops).Ok?
    ensures Run(b, s, ops).value.words == s.words + Encode(Intended(ops))
  {
    if ops == [] {
      assert s.words + [] == s.words;
    } else {
      var init, last := ops[..|ops| - 1], ops[|ops| - 1];
      RunEncodes(b, s, init);
      StepEmits(b, Run(b, s, init).value, last);
      EncodeMeaning(last);
      EncodeConcat(Intended(init), Meaning(last));
      ConcatAssociates(s.words, Encode(Intended(init)), Encode(Meaning(last)));
    }
  }

  // ----- The protocol of the macros -----

  predicate ReadableHeader(address: Word, count: int) {
    1 <= count <= 1024 && address < 0x1_0000
  }

  /** What the macros would have to check: they leave this to the caller. A header, filler or stall
      comes only between batches, its count and address fit their fields, and a data word comes only
      while the count lasts, for the next state in turn. */
  predicate Obeys(mode: Mode, op: Op) {
    match op
    case Begin(_, address, count) => mode == Idle && ReadableHeader(address, count)
    case End => true
    case Set(_, address, _) => mode.Loading? && mode.next == address
    case SetFast(_, address, _) => mode.Loading? && mode.next == address
    case Filler => mode == Idle
    case Single(_, _, address, _) => mode == Idle && ReadableHeader(address, 1)
    case SingleFast(_, _, address, _) => mode == Idle && ReadableHeader(address, 1)
    case Block(_, address, _, count) => mode == Idle && ReadableHeader(address, count)
    case CtrlStates(_, address, datas) => mode == Idle && ReadableHeader(address, |datas|)
    case SemaStall(_) => mode == Idle
  }

  /** Where a batch stands after a macro that obeys. */
  function Advance(mode: Mode, op: Op): Mode {
    match op
    case Begin(_, address, count) => Loading(address, count)
    case End => mode
    case Set(_, _, _) => CountDown(mode)
    case SetFast(_, _, _) => CountDown(mode)
    case _ => Idle
  }

  function CountDown(mode: Mode): Mode {
    if mode.Loading? && mode.left != 1 then Loading(mode.next + 1, mode.left - 1) else Idle
  }

  function BatchAfter(ops: seq<Op>): Mode {
    if ops == [] then Idle else Advance(BatchAfter(ops[..|ops| - 1]), ops[|ops| - 1])
  }

  predicate AllObey(ops: seq<Op>) {
    ops != [] ==>
      var init := ops[..|ops| - 1];
      AllObey(init) && Obeys(BatchAfter(init), ops[|ops| - 1])
  }

  lemma {:induction false} DataAdmitted(events: seq<Event>, address: int, left: int, datas: seq<Word>)
    requires WellFormed(events) && ModeAfter(events) == Loading(address, left)
    requires |datas| <= left && 0 < left
    ensures WellFormed(events + WritesFrom(address, datas))
    ensures ModeAfter(events + WritesFrom(address, datas)) ==
      if |datas| == left then Idle else Loading(address + |datas|, left - |datas|)
  {
    if datas == [] {
      assert events + WritesFrom(address, datas) == events;
    } else {
      var n := |datas| - 1;
      var before := WritesFrom(address, datas[..n]);
      DataAdmitted(events, address, left, datas[..n]);
      WritesFromSnoc(address, datas, n);
      Snoc(events + before, Write(address + n, datas[n]));
      ConcatAssociates(events, before, [Write(address + n, datas[n])]);
    }
  }

  /** Events that follow an ill-formed beginning do not mend it. */
  lemma {:induction false} IllFormedStays(xs: seq<Event>, ys: seq<Event>)
    requires !WellFormed(xs)
    ensures !WellFormed(xs + ys)
  {
    if ys == [] {
      assert xs + ys == xs;
    } else {
      var n := |ys| - 1;
      IllFormedStays(xs, ys[..n]);
      Snoc(xs + ys[..n], ys[n]);
      assert xs + ys == xs + ys[..n] + [ys[n]];
    }
  }

  predicate AdmittedAs(events: seq<Event>, op: Op) {
    var all := events + Meaning(op);
    && (WellFormed(all) <==> Obeys(ModeAfter(events), op))
    && (WellFormed(all) ==> ModeAfter(all) == Advance(ModeAfter(events), op))
  }

  lemma HeaderAdmitted(mode: Mode, fixedPoint: bool, address: Word, count: int)
    requires mode != StallArgument
    ensures Admits(mode, Header(fixedPoint, address, count)) <==> mode == Idle && ReadableHeader(address, count)
  {
  }

  lemma SingleAdmitted(events: seq<Event>, fixedPoint: bool, address: Word, data: Size)
    requires WellFormed(events) && ModeAfter(events) != StallArgument
    ensures WellFormed(events + SingleMeaning(fixedPoint, address, data)) <==>
      ModeAfter(events) == Idle && ReadableHeader(address, 1)
    ensures ModeAfter(events + SingleMeaning(fixedPoint, address, data)) == Idle
  {
    var h, w := Header(fixedPoint, address, 1), Write(address, Truncate(data));
    HeaderAdmitted(ModeAfter(events), fixedPoint, address, 1);
    Snoc(events, h);
    Snoc(events + [h], w);
    assert events + SingleMeaning(fixedPoint, address, data) == events + [h] + [w];
  }

  lemma ArrayAdmitted(events: seq<Event>, fixedPoint: bool, address: Word, datas: Datas)
    requires WellFormed(events) && ModeAfter(events) != StallArgument
    ensures var all := events + ArrayMeaning(fixedPoint, address, datas);
      && (WellFormed(all) <==> ModeAfter(events) == Idle && ReadableHeader(address, |datas|))
      && (WellFormed(all) ==> ModeAfter(all) == Idle)
  {
    var h, ws := Header(fixedPoint, address, |datas|), WritesFrom(address, Truncated(datas));
    HeaderAdmitted(ModeAfter(events), fixedPoint, address, |datas|);
    Snoc(events, h);
    ConcatAssociates(events, [h], ws);
    if Admits(ModeAfter(events), h) {
      DataAdmitted(events + [h], address, |datas|, Truncated(datas));
    } else {
      IllFormedStays(events + [h], ws);
    }
  }

  lemma SemaStallAdmitted(events: seq<Event>, data: Size)
    requires WellFormed(events) && ModeAfter(events) != StallArgument
    ensures AdmittedAs(events, SemaStall(data))
  {
    SingleAdmitted(events, false, SEMAPHORE_ADDRESS, data);
    var single := SingleMeaning(false, SEMAPHORE_ADDRESS, data);
    Snoc(events + single, Stall(Truncate(data)));
    ConcatAssociates(events, single, [Stall(Truncate(data))]);
  }

  lemma BeginAdmitted(events: seq<Event>, fixedPoint: bool, address: Word, count: Word)
    requires WellFormed(events) && ModeAfter(events) != StallArgument
    ensures AdmittedAs(events, Begin(fixedPoint, address, count))
  {
    HeaderAdmitted(ModeAfter(events), fixedPoint, address, count);
    Snoc(events, Header(fixedPoint, address, count));
  }

  lemma WriteAdmitted(events: seq<Event>, address: Word, data: Size)
    requires WellFormed(events) && ModeAfter(events) != StallArgument
    ensures var all := events + [Write(address, Truncate(data))];
      && (WellFormed(all) <==> ModeAfter(events).Loading? && ModeAfter(events).next == address)
      && (WellFormed(all) ==> ModeAfter(all) == CountDown(ModeAfter(events)))
  {
    Snoc(events, Write(address, Truncate(data)));
  }

  lemma FillerAdmitted(events: seq<Event>)
    requires WellFormed(events) && ModeAfter(events) != StallArgument
    ensures AdmittedAs(events, Filler)
  {
    Snoc(events, Nop);
  }

  lemma SetAdmitted(events: seq<Event>, kind: Kind, address: Word, data: Size)
    requires WellFormed(events) && ModeAfter(events) != StallArgument
    ensures AdmittedAs(events, Set(kind, address, data))
  {
    WriteAdmitted(events, address, data);
  }

  lemma SetFastAdmitted(events: seq<Event>, kind: FastKind, address: Word, data: Size)
    requires WellFormed(events) && ModeAfter(events) != StallArgument
    ensures AdmittedAs(events, SetFast(kind, address, data))
  {
    WriteAdmitted(events, address, data);
  }

  lemma SingleMacroAdmitted(events: seq<Event>, kind: Kind, fixedPoint: bool, address: Word, data: Size)
    requires WellFormed(events) && ModeAfter(events) != StallArgument
    ensures AdmittedAs(events, Single(kind, fixedPoint, address, data))
  {
    SingleAdmitted(events, fixedPoint, address, data);
  }

  lemma SingleFastAdmitted(events: seq<Event>, kind: FastKind, fixedPoint: bool, address: Word, data: Size)
    requires WellFormed(events) && ModeAfter(events) != StallArgument
    ensures AdmittedAs(events, SingleFast(kind, fixedPoint, address, data))
  {
    SingleAdmitted(events, fixedPoint, address, data);
  }

  lemma BlockAdmitted(events: seq<Event>, fixedPoint: bool, address: Word, data: Size, count: Word)
    requires WellFormed(events) && ModeAfter(events) != StallArgument
    ensures AdmittedAs(events, Block(fixedPoint, address, data, count))
  {
    ArrayAdmitted(events, fixedPoint, address, seq(count, _ => data));
  }

  lemma MeaningAdmitted(events: seq<Event>, op: Op)
    requires WellFormed(events) && ModeAfter(events) != StallArgument
    ensures AdmittedAs(events, op)
  {
    match op
    case Begin(fixedPoint, address, count) => BeginAdmitted(events, fixedPoint, address, count);
    case End => assert events + [] == events;
    case Filler => FillerAdmitted(events);
    case Set(kind, address, data) => SetAdmitted(events, kind, address, data);
    case SetFast(kind, address, data) => SetFastAdmitted(events, kind, address, data);
    case Single(kind, fixedPoint, address, data) => SingleMacroAdmitted(events, kind, fixedPoint, address, data);
    case SingleFast(kind, fixedPoint, address, data) => SingleFastAdmitted(events, kind, fixedPoint, address, data);
    case Block(fixedPoint, address, data, count) => BlockAdmitted(events, fixedPoint, address, data, count);
    case CtrlStates(fixedPoint, address, datas) => ArrayAdmitted(events, fixedPoint, address, datas);
    case SemaStall(data) => SemaStallAdmitted(events, data);
  }

  /** The protocol told from the macros is the protocol of the events that they mean. */
  lemma {:induction false} ObeyingIsWellFormed(ops: seq<Op>)
    ensures AllObey(ops) <==> WellFormed(Intended(ops))
    ensures AllObey(ops) ==> BatchAfter(ops) == ModeAfter(Intended(ops)) != StallArgument
  {
    if ops != [] {
      var init, last := ops[..|ops| - 1], ops[|ops| - 1];
      ObeyingIsWellFormed(init);
      if AllObey(init) {
        MeaningAdmitted(Intended(init), last);
      } else {
        IllFormedStays(Intended(init), Meaning(last));
      }
    }
  }

  // ----- Main results -----

  /** For every accepted run of all ten macros, in any build: the emitted words read back as what was
      asked for exactly when the run obeys the protocol that the macros do not check; the reader then
      stands where the last batch does. */
  lemma RoundTrip(b: Build, ops: seq<Op>)
    requires Run(b, EMPTY, ops).Ok?
    ensures var d := Decode(Run(b, EMPTY, ops).value.words);
      (d.Decoded? && d.events == Intended(ops)) <==> AllObey(ops)
    ensures AllObey(ops) ==> Decode(Run(b, EMPTY, ops).value.words) == Decoded(BatchAfter(ops), Intended(ops))
  {
    RunEncodes(b, EMPTY, ops);
    assert EMPTY.words + Encode(Intended(ops)) == Encode(Intended(ops));
    EncodedReadsBack(Intended(ops));
    ObeyingIsWellFormed(ops);
  }

  /** A batch of three states closed after one passes every assertion and leaves the reader waiting
      for the other two. */
  lemma ShortBatchPasses()
    ensures var ops := [Begin(false, 0x0E00, 3), Set(Plain, 0x0E00, 1), End];
      && Run(FULL_DEBUG, EMPTY, ops).Ok? && AllObey(ops)
      && Decode(Run(FULL_DEBUG, EMPTY, ops).value.words)
         == Decoded(Loading(0x0E01, 2), [Header(false, 0x0E00, 3), Write(0x0E00, 1)])
  {
    var o1, o2, o3 := Begin(false, 0x0E00, 3), Set(Plain, 0x0E00, 1), End;
    RunOfThree(o1, o2, o3);
    ProtocolOfThree(o1, o2, o3);
    RoundTrip(FULL_DEBUG, [o1, o2, o3]);
    assert Intended([o1, o2, o3]) == [Header(false, 0x0E00, 3), Write(0x0E00, 1)];
  }

  const STRAY: seq<Op> := [Begin(false, 0x0E00, 1), Set(Plain, 0x1234, 7), End]

  /** A data word for a state that is not the next passes too: the hardware loads 0x0E00 while the
      log records 0x1234. */
  lemma StrayAddressPasses()
    ensures Run(FULL_DEBUG, EMPTY, STRAY).Ok? && !AllObey(STRAY)
    ensures Decode(Run(FULL_DEBUG, EMPTY, STRAY).value.words)
         == Decoded(Idle, [Header(false, 0x0E00, 1), Write(0x0E00, 7)])
    ensures Run(FULL_DEBUG, EMPTY, STRAY).value.delta == [CommandStream.Delta(0x1234, 0, 7)]
  {
    StrayRun();
    StrayDisobeys();
    CtrlStatesDecode(false, 0x0E00, [7]);
    assert [LoadState(false, 1, 0x0E00)] + [7] == [LoadState(false, 1, 0x0E00), 7];
  }

  lemma StrayRun()
    ensures Run(FULL_DEBUG, EMPTY, STRAY)
         == Ok(State([LoadState(false, 1, 0x0E00), 7], 0, [CommandStream.Delta(0x1234, 0, 7)]))
  {
    RunOfThree(STRAY[0], STRAY[1], STRAY[2]);
    var h := LoadState(false, 1, 0x0E00);
    assert EMPTY.words + [h] + [7] == [h, 7];
    assert EMPTY.delta + [CommandStream.Delta(0x1234, 0, 7)] == [CommandStream.Delta(0x1234, 0, 7)];
    assert STRAY == [STRAY[0], STRAY[1], STRAY[2]];
  }

  lemma StrayDisobeys()
    ensures !AllObey(STRAY)
  {
    ProtocolOfThree(STRAY[0], STRAY[1], STRAY[2]);
    assert STRAY == [STRAY[0], STRAY[1], STRAY[2]];
  }

  lemma RunOfThree(o1: Op, o2: Op, o3: Op)
    requires Step(FULL_DEBUG, EMPTY, o1).Ok?
    requires Step(FULL_DEBUG, Step(FULL_DEBUG, EMPTY, o1).value, o2).Ok?
    ensures Run(FULL_DEBUG, EMPTY, [o1, o2, o3])
         == Step(FULL_DEBUG, Step(FULL_DEBUG, Step(FULL_DEBUG, EMPTY, o1).value, o2).value, o3)
  {
    assert [o1, o2, o3][..2] == [o1, o2] && [o1, o2][..1] == [o1] && [o1][..0] == [];
    assert Run(FULL_DEBUG, EMPTY, []) == Ok(EMPTY);
    assert Run(FULL_DEBUG, EMPTY, [o1]) == Step(FULL_DEBUG, EMPTY, o1);
  }

  lemma ProtocolOfThree(o1: Op, o2: Op, o3: Op)
    ensures AllObey([o1, o2, o3]) <==>
      && Obeys(Idle, o1) && Obeys(Advance(Idle, o1), o2) && Obeys(Advance(Advance(Idle, o1), o2), o3)
    ensures BatchAfter([o1, o2, o3]) == Advance(Advance(Advance(Idle, o1), o2), o3)
    ensures Intended([o1, o2, o3]) == Meaning(o1) + Meaning(o2) + Meaning(o3)
  {
    assert [o1, o2, o3][..2] == [o1, o2] && [o1, o2][..1] == [o1] && [o1][..0] == [];
    assert AllObey([]) && AllObey([o1]) == Obeys(Idle, o1) && BatchAfter([o1]) == Advance(Idle, o1);
    assert BatchAfter([o1, o2]) == Advance(Advance(Idle, o1), o2);
    assert Intended([o1]) == [] + Meaning(o1) == Meaning(o1);
    assert Intended([o1, o2]) == Meaning(o1) + Meaning(o2);
  }

  // ----- The delta log -----

  /** Which writes a macro logs: the fast forms and the arrays log nothing. */
  function KindsOf(op: Op): seq<Kind> {
    match op
    case Set(kind, _, _) => [kind]
    case SetFast(_, _, _) => [Ctrl]
    case Single(kind, _, _, _) => [kind]
    case SingleFast(_, _, _, _) => [Ctrl]
    case Block(_, _, _, count) => seq(count, _ => Ctrl)
    case CtrlStates(_, _, datas) => seq(|datas|, _ => Ctrl)
    case SemaStall(_) => [Ctrl]
    case _ => []
  }

  function Kinds(ops: seq<Op>): seq<Kind> {
    if ops == [] then [] else Kinds(ops[..|ops| - 1]) + KindsOf(ops[|ops| - 1])
  }

  lemma {:induction false} WritesOfArray(address: int, datas: seq<Word>)
    ensures |Writes(WritesFrom(address, datas))| == |datas|
  {
    if datas != [] {
      var n := |datas| - 1;
      WritesOfArray(address, datas[..n]);
      WritesFromSnoc(address, datas, n);
      WritesOfConcat(WritesFrom(address, datas[..n]), [Write(address + n, datas[n])]);
      WritesOfOne(Write(address + n, datas[n]));
    }
  }

  lemma {:induction false} LogOfCtrl(kinds: seq<Kind>, writes: seq<(int, Word)>,
                                     more: seq<Kind>, extra: seq<(int, Word)>)
    requires |kinds| == |writes| && |more| == |extra|
    requires forall i :: 0 <= i < |more| ==> more[i].Ctrl?
    ensures LogOf(kinds + more, writes + extra) == LogOf(kinds, writes)
  {
    if more == [] {
      assert kinds + more == kinds && writes + extra == writes;
    } else {
      var n := |more| - 1;
      LogOfCtrl(kinds, writes, more[..n], extra[..n]);
      var ks, ws := kinds + more, writes + extra;
      assert ks[..|ks| - 1] == kinds + more[..n] && ws[..|ks| - 1] == writes + extra[..n];
      assert ks[|ks| - 1] == more[n];
    }
  }

  lemma WritesOfSingle(fixedPoint: bool, address: Word, data: Size)
    ensures Writes(SingleMeaning(fixedPoint, address, data)) == [(address as int, Truncate(data))]
  {
    var h, w := Header(fixedPoint, address, 1), Write(address, Truncate(data));
    WritesOfConcat([h], [w]);
    WritesOfOne(h);
    WritesOfOne(w);
    assert SingleMeaning(fixedPoint, address, data) == [h] + [w];
  }

  lemma ArrayLogs(kinds: seq<Kind>, writes: seq<(int, Word)>, fixedPoint: bool, address: Word, datas: Datas)
    requires |kinds| == |writes|
    ensures var extra := Writes(ArrayMeaning(fixedPoint, address, datas)); var more := seq(|datas|, _ => Ctrl);
      |extra| == |datas| && LogOf(kinds + more, writes + extra) == LogOf(kinds, writes)
  {
    var h, ws := Header(fixedPoint, address, |datas|), WritesFrom(address, Truncated(datas));
    WritesOfOne(h);
    WritesOfConcat([h], ws);
    WritesOfArray(address, Truncated(datas));
    LogOfCtrl(kinds, writes, seq(|datas|, _ => Ctrl), Writes(ArrayMeaning(fixedPoint, address, datas)));
  }

  /** The entries that one macro adds to the log. */
  function LogEntries(op: Op): seq<Delta> {
    match op
    case Set(kind, address, data) => DeltaOf(kind, address, Truncate(data))
    case Single(kind, _, address, data) => DeltaOf(kind, address, Truncate(data))
    case _ => []
  }

  lemma SingleDelta(b: Build, s: State, kind: Kind, fixedPoint: bool, address: Word, data: Size)
    requires SetSingleState(b, s, kind, fixedPoint, address, data).Ok?
    ensures SetSingleState(b, s, kind, fixedPoint, address, data).value.delta
         == s.delta + DeltaOf(kind, address, Truncate(data))
  {
  }

  lemma StepDelta(b: Build, s: State, op: Op)
    requires Step(b, s, op).Ok?
    ensures Step(b, s, op).value.delta == s.delta + LogEntries(op)
  {
    if op.Single? { SingleDelta(b, s, op.kind, op.fixedPoint, op.address, op.data); }
    if op.SemaStall? { SingleDelta(b, s, Ctrl, false, SEMAPHORE_ADDRESS, op.data); }
  }

  predicate LogsAs(op: Op, kinds: seq<Kind>, writes: seq<(int, Word)>)
    requires |kinds| == |writes|
  {
    && |KindsOf(op)| == |Writes(Meaning(op))|
    && LogOf(kinds + KindsOf(op), writes + Writes(Meaning(op))) == LogOf(kinds, writes) + LogEntries(op)
  }

  lemma OneWriteLogs(op: Op, kind: Kind, address: Word, w: Word, kinds: seq<Kind>, writes: seq<(int, Word)>)
    requires |kinds| == |writes|
    requires KindsOf(op) == [kind] && Writes(Meaning(op)) == [(address as int, w)]
    requires LogEntries(op) == DeltaOf(kind, address, w)
    ensures LogsAs(op, kinds, writes)
  {
    LogSnoc(kinds, writes, kind, address, w);
  }

  lemma SetLogs(kind: Kind, address: Word, data: Size, kinds: seq<Kind>, writes: seq<(int, Word)>)
    requires |kinds| == |writes|
    ensures LogsAs(Set(kind, address, data), kinds, writes)
  {
    WritesOfOne(Write(address, Truncate(data)));
    OneWriteLogs(Set(kind, address, data), kind, address, Truncate(data), kinds, writes);
  }

  lemma SetFastLogs(fastKind: FastKind, address: Word, data: Size, kinds: seq<Kind>, writes: seq<(int, Word)>)
    requires |kinds| == |writes|
    ensures LogsAs(SetFast(fastKind, address, data), kinds, writes)
  {
    WritesOfOne(Write(address, Truncate(data)));
    OneWriteLogs(SetFast(fastKind, address, data), Ctrl, address, Truncate(data), kinds, writes);
  }

  lemma NoLogs(op: Op, kinds: seq<Kind>, writes: seq<(int, Word)>)
    requires |kinds| == |writes|
    requires op.Begin? || op.End? || op.Filler?
    ensures LogsAs(op, kinds, writes)
  {
    if !op.End? { WritesOfOne(Meaning(op)[0]); }
    assert kinds + [] == kinds && writes + [] == writes;
  }

  lemma SingleLogs(kind: Kind, fixedPoint: bool, address: Word, data: Size,
                   kinds: seq<Kind>, writes: seq<(int, Word)>)
    requires |kinds| == |writes|
    ensures LogsAs(Single(kind, fixedPoint, address, data), kinds, writes)
  {
    WritesOfSingle(fixedPoint, address, data);
    OneWriteLogs(Single(kind, fixedPoint, address, data), kind, address, Truncate(data), kinds, writes);
  }

  lemma SingleFastLogs(fastKind: FastKind, fixedPoint: bool, address: Word, data: Size,
                       kinds: seq<Kind>, writes: seq<(int, Word)>)
    requires |kinds| == |writes|
    ensures LogsAs(SingleFast(fastKind, fixedPoint, address, data), kinds, writes)
  {
    WritesOfSingle(fixedPoint, address, data);
    OneWriteLogs(SingleFast(fastKind, fixedPoint, address, data), Ctrl, address, Truncate(data), kinds, writes);
  }

  lemma WritesOfSemaStall(data: Size)
    ensures Writes(Meaning(SemaStall(data))) == [(SEMAPHORE_ADDRESS as int, Truncate(data))]
  {
    WritesOfSingle(false, SEMAPHORE_ADDRESS, data);
    WritesOfOne(Stall(Truncate(data)));
    WritesOfConcat(SingleMeaning(false, SEMAPHORE_ADDRESS, data), [Stall(Truncate(data))]);
  }

  lemma SemaStallLogs(data: Size, kinds: seq<Kind>, writes: seq<(int, Word)>)
    requires |kinds| == |writes|
    ensures LogsAs(SemaStall(data), kinds, writes)
  {
    WritesOfSemaStall(data);
    OneWriteLogs(SemaStall(data), Ctrl, SEMAPHORE_ADDRESS, Truncate(data), kinds, writes);
  }

  lemma MeaningLogs(op: Op, kinds: seq<Kind>, writes: seq<(int, Word)>)
    requires |kinds| == |writes|
    ensures LogsAs(op, kinds, writes)
  {
    match op
    case Set(kind, address, data) => SetLogs(kind, address, data, kinds, writes);
    case SetFast(kind, address, data) => SetFastLogs(kind, address, data, kinds, writes);
    case Single(kind, fixedPoint, address, data) => SingleLogs(kind, fixedPoint, address, data, kinds, writes);
    case SingleFast(kind, fixedPoint, address, data) => SingleFastLogs(kind, fixedPoint, address, data, kinds, writes);
    case Block(fixedPoint, address, data, count) =>
      ArrayLogs(kinds, writes, fixedPoint, address, seq(count, _ => data));
    case CtrlStates(fixedPoint, address, datas) => ArrayLogs(kinds, writes, fixedPoint, address, datas);
    case SemaStall(data) => SemaStallLogs(data, kinds, writes);
    case _ => NoLogs(op, kinds, writes);
  }

  lemma {:induction false} LogOfIntended(b: Build, ops: seq<Op>)
    requires Run(b, EMPTY, ops).Ok?
    ensures |Kinds(ops)| == |Writes(Intended(ops))|
    ensures Run(b, EMPTY, ops).value.delta == LogOf(Kinds(ops), Writes(Intended(ops)))
  {
    if ops != [] {
      var init, last := ops[..|ops| - 1], ops[|ops| - 1];
      LogOfIntended(b, init);
      WritesOfConcat(Intended(init), Meaning(last));
      StepDelta(b, Run(b, EMPTY, init).value, last);
      MeaningLogs(last, Kinds(init), Writes(Intended(init)));
    }
  }

  /** The delta log of an accepted run that obeys the protocol is what its words write, less the
      control, array and fast writes. */
  lemma LogMatchesStream(b: Build, ops: seq<Op>)
    requires Run(b, EMPTY, ops).Ok? && AllObey(ops)
    ensures var s := Run(b, EMPTY, ops).value;
      && Decode(s.words).Decoded?
      && |Kinds(ops)| == |Writes(Decode(s.words).events)|
      && s.delta == LogOf(Kinds(ops), Writes(Decode(s.words).events))
  {
    RoundTrip(b, ops);
    LogOfIntended(b, ops);
  }

  // ----- Chained sections -----

  function AllIntended(sections: seq<seq<Op>>): seq<Event> {
    if sections == [] then []
    else AllIntended(sections[..|sections| - 1]) + Intended(sections[|sections| - 1])
  }

  lemma {:induction false} SectionsEncode(b: Build, s: State, sections: seq<seq<Op>>)
    requires RunSections(b, s, sections).Ok?
    ensures RunSections(b, s, sections).value.words == s.words + Encode(AllIntended(sections))
  {
    if sections == [] {
      assert s.words + [] == s.words;
    } else {
      var init, last := sections[..|sections| - 1], sections[|sections| - 1];
      SectionsEncode(b, s, init);
      RunEncodes(b, OpenSection(RunSections(b, s, init).value), last);
      EncodeConcat(AllIntended(init), Intended(last));
      ConcatAssociates(s.words, Encode(AllIntended(init)), Encode(Intended(last)));
    }
  }

  /** Whatever well-formed stream stands before the cursor, accepted sections read back as what each
      asked for, one after the other, exactly when all of it together keeps the protocol. */
  lemma SectionsDecode(b: Build, s: State, before: seq<Event>, sections: seq<seq<Op>>)
    requires s.words == Encode(before) && RunSections(b, s, sections).Ok?
    ensures var d := Decode(RunSections(b, s, sections).value.words);
      (d.Decoded? && d.events == before + AllIntended(sections)) <==> WellFormed(before + AllIntended(sections))
  {
    SectionsEncode(b, s, sections);
    EncodeConcat(before, AllIntended(sections));
    EncodedReadsBack(before + AllIntended(sections));
  }

  /** A section that obeys by itself and closes its last batch. */
  predicate StandsAlone(section: seq<Op>) {
    AllObey(section) && BatchAfter(section) == Idle
  }

  predicate AllStandAlone(sections: seq<seq<Op>>) {
    sections != [] ==>
      AllStandAlone(sections[..|sections| - 1]) && StandsAlone(sections[|sections| - 1])
  }

  /** Sections that stand alone may be chained in any number: the whole reads back as all of them. */
  lemma SectionsCompose(b: Build, sections: seq<seq<Op>>)
    requires AllStandAlone(sections)
    requires RunSections(b, EMPTY, sections).Ok?
    ensures Decode(RunSections(b, EMPTY, sections).value.words) == Decoded(Idle, AllIntended(sections))
  {
    AloneTogether(sections);
    SectionsEncode(b, EMPTY, sections);
    assert EMPTY.words + Encode(AllIntended(sections)) == Encode(AllIntended(sections));
    EncodedReadsBack(AllIntended(sections));
  }

  lemma {:induction false} AloneTogether(sections: seq<seq<Op>>)
    requires AllStandAlone(sections)
    ensures WellFormed(AllIntended(sections)) && ModeAfter(AllIntended(sections)) == Idle
  {
    if sections != [] {
      var n := |sections| - 1;
      AloneTogether(sections[..n]);
      ObeyingIsWellFormed(sections[n]);
      WellFormedConcat(AllIntended(sections[..n]), Intended(sections[n]));
    }
  }
}
