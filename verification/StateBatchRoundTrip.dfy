/** Every run that trips no assertion emits words that decode to what the macros were asked to write. */
module StateBatchRoundTrip {
  import opened Bits
  import opened CommandWord
  import opened CommandStream
  import opened FrontEnd
  import opened StateBatch
  import opened WriteLog

  /** The reader's mode as the tracking fields tell it. */
  function ModeOf(s: State): Mode {
    if s.lastCount == 0 then Idle
    else Loading(s.lastAddress + (|s.words| - s.lastPtr - 1), s.lastCount)
  }

  /** The reader of the words so far has seen `events` and stands where the tracking fields say. */
  predicate Follows(s: State, events: seq<Event>) {
    && Decode(s.words) == Decoded(ModeOf(s), events)
    && (s.lastCount > 0 ==>
          s.lastAddress < 0x1_0000 && 0 <= |s.words| - s.lastPtr - 1 && |s.words| - s.lastPtr - 1 + s.lastCount <= 1024)
  }

  lemma BeginResult(s: State, fixedPoint: bool, address: Word, count: Word)
    requires BeginStateBatch(FULL_DEBUG, s, fixedPoint, address, count).Ok?
    ensures s.lastCount == 0 && count <= 1024
    ensures BeginStateBatch(FULL_DEBUG, s, fixedPoint, address, count)
         == Ok(State(s.words + [LoadState(fixedPoint, count, address)], |s.words|, address, count, s.delta))
  {
  }

  lemma BeginFollows(s: State, events: seq<Event>, fixedPoint: bool, address: Word, count: Word)
    requires Follows(s, events) && 1 <= count && address < 0x1_0000
    requires BeginStateBatch(FULL_DEBUG, s, fixedPoint, address, count).Ok?
    ensures Follows(BeginStateBatch(FULL_DEBUG, s, fixedPoint, address, count).value,
                    events + [Header(fixedPoint, address, count)])
  {
    BeginResult(s, fixedPoint, address, count);
    HeaderReads(s.words, events, fixedPoint, count, address);
  }

  /** Inside a readable batch the 32-bit comparison of the tracking macro pins down the address. */
  lemma VerifiedAddress(written: int, address: Word, lastAddress: Word)
    requires 0 <= written < 1024 && lastAddress < 0x1_0000
    requires written % 0x1_0000_0000 == (address - lastAddress) % 0x1_0000_0000
    ensures address == lastAddress + written
  {
    var m := 0x1_0000_0000;
    QuotientUnique(written, m, 0, written);
    if address < lastAddress {
      QuotientUnique(address - lastAddress, m, -1, address - lastAddress + m);
    } else {
      QuotientUnique(address - lastAddress, m, 0, address - lastAddress);
    }
  }

  lemma SetFollows(s: State, events: seq<Event>, kind: Kind, address: Word, data: Size)
    requires Follows(s, events)
    requires SetState(FULL_DEBUG, s, kind, address, data).Ok?
    ensures Follows(SetState(FULL_DEBUG, s, kind, address, data).value, events + [Write(address, Truncate(data))])
  {
    var s' := SetState(FULL_DEBUG, s, kind, address, data).value;
    VerifiedAddress(|s.words| - s.lastPtr - 1, address, s.lastAddress);
    assert s'.words == s.words + [Truncate(data)] && s'.lastCount == s.lastCount - 1;
    DecodeSnoc(s.words, Truncate(data));
  }

  lemma FillerFollows(s: State, events: seq<Event>)
    requires Follows(s, events)
    requires SetFiller(FULL_DEBUG, s).Ok?
    ensures Follows(SetFiller(FULL_DEBUG, s).value, events + [Nop])
  {
    FillerReads(s.words, events);
  }

  lemma SingleFollows(s: State, events: seq<Event>, kind: Kind, fixedPoint: bool, address: Word, data: Size)
    requires Follows(s, events) && address < 0x1_0000
    requires SetSingleState(FULL_DEBUG, s, kind, fixedPoint, address, data).Ok?
    ensures Follows(SetSingleState(FULL_DEBUG, s, kind, fixedPoint, address, data).value,
                    events + [Header(fixedPoint, address, 1), Write(address, Truncate(data))])
  {
    var s1 := BeginStateBatch(FULL_DEBUG, s, fixedPoint, address, 1).value;
    BeginFollows(s, events, fixedPoint, address, 1);
    SetFollows(s1, events + [Header(fixedPoint, address, 1)], kind, address, data);
    assert events + [Header(fixedPoint, address, 1)] + [Write(address, Truncate(data))]
        == events + [Header(fixedPoint, address, 1), Write(address, Truncate(data))];
  }

  lemma StallFollows(s: State, events: seq<Event>, data: Word)
    requires Follows(s, events) && s.lastCount == 0
    ensures Follows(Emit(Emit(s, STALL), data), events + [Stall(data)])
  {
    StallReads(s.words, events, data);
  }

  lemma SemaStallFollows(s: State, events: seq<Event>, data: Size)
    requires Follows(s, events)
    requires SetSemaStallPipe(FULL_DEBUG, s, data).Ok?
    ensures Follows(SetSemaStallPipe(FULL_DEBUG, s, data).value, events + Meaning(SemaStall(data)))
  {
    var single := [Header(false, SEMAPHORE_ADDRESS, 1), Write(SEMAPHORE_ADDRESS, Truncate(data))];
    SingleFollows(s, events, Ctrl, false, SEMAPHORE_ADDRESS, data);
    var s1 := SetSingleState(FULL_DEBUG, s, Ctrl, false, SEMAPHORE_ADDRESS, data).value;
    StallFollows(s1, events + single, Truncate(data));
    assert events + single + [Stall(Truncate(data))] == events + Meaning(SemaStall(data));
  }

  lemma StepFollows(s: State, events: seq<Event>, op: Op)
    requires Follows(s, events) && AllReadable(Meaning(op))
    requires Step(FULL_DEBUG, s, op).Ok?
    ensures Follows(Step(FULL_DEBUG, s, op).value, events + Meaning(op))
  {
    match op
    case Begin(fixedPoint, address, count) =>
      assert Readable(Meaning(op)[0]);
      BeginFollows(s, events, fixedPoint, address, count);
    case End => assert events + [] == events;
    case Set(kind, address, data) => SetFollows(s, events, kind, address, data);
    case Filler => FillerFollows(s, events);
    case Single(kind, fixedPoint, address, data) =>
      assert Readable(Meaning(op)[0]);
      SingleFollows(s, events, kind, fixedPoint, address, data);
    case SemaStall(data) => SemaStallFollows(s, events, data);
  }

  /** The reader's mode and the tracking fields agree after every run, inside a batch or not. */
  lemma {:induction false} RunFollows(s: State, ops: seq<Op>)
    requires Fresh(s) && Run(FULL_DEBUG, s, ops).Ok? && AllReadable(Intended(ops))
    ensures Follows(Run(FULL_DEBUG, s, ops).value, Intended(ops))
  {
    if ops != [] {
      var init, last := ops[..|ops| - 1], ops[|ops| - 1];
      ReadableParts(Intended(init), Meaning(last));
      RunFollows(s, init);
      StepFollows(Run(FULL_DEBUG, s, init).value, Intended(init), last);
    }
  }

  lemma ReadableParts(xs: seq<Event>, ys: seq<Event>)
    ensures AllReadable(xs + ys) <==> AllReadable(xs) && AllReadable(ys)
  {
    if AllReadable(xs + ys) {
      forall i | 0 <= i < |xs| ensures Readable(xs[i]) { assert (xs + ys)[i] == xs[i]; }
      forall i | 0 <= i < |ys| ensures Readable(ys[i]) { assert (xs + ys)[|xs| + i] == ys[i]; }
    }
  }

  /** The stream of an accepted run decodes to the intended events exactly when every header
      announces at least one state at a 16-bit address: the assertions do not refuse the others. */
  lemma RoundTrip(s: State, ops: seq<Op>)
    requires Fresh(s) && Run(FULL_DEBUG, s, ops).Ok?
    ensures var d := Decode(Run(FULL_DEBUG, s, ops).value.words);
      (d.Decoded? && d.events == Intended(ops)) <==> AllReadable(Intended(ops))
  {
    DecodedAreReadable(Run(FULL_DEBUG, s, ops).value.words);
    if AllReadable(Intended(ops)) {
      RunFollows(s, ops);
    }
  }

  /** An empty batch passes every assertion, and is read as a load of 1024 states. */
  lemma EmptyBatchIsMisread(s: State)
    requires Fresh(s)
    ensures var ops := [Begin(false, 0x0E00, 0), Filler, End];
      && Run(FULL_DEBUG, s, ops).Ok?
      && Decode(Run(FULL_DEBUG, s, ops).value.words)
         == Decoded(Loading(0x0E01, 1023), [Header(false, 0x0E00, 1024), Write(0x0E00, FILLER)])
  {
    var o1, o2, o3 := Begin(false, 0x0E00, 0), Filler, End;
    var ops := [o1, o2, o3];
    assert ops[..2] == [o1, o2] && [o1, o2][..1] == [o1] && [o1][..0] == [];
    assert Run(FULL_DEBUG, s, []) == Ok(s);
    var s1 := Step(FULL_DEBUG, s, o1).value;
    assert Run(FULL_DEBUG, s, [o1]) == Ok(s1);
    var s2 := Step(FULL_DEBUG, s1, o2).value;
    assert Run(FULL_DEBUG, s, [o1, o2]) == Ok(s2);
    assert Run(FULL_DEBUG, s, ops) == Ok(s2);
    HeaderRoundTrip(false, 0, 0x0E00);
    var h := LoadState(false, 0, 0x0E00);
    DecodeSnoc([], h);
    assert [] + [h] == [h];
    DecodeSnoc([h], FILLER);
    assert s2.words == [h] + [FILLER];
  }

  lemma WideStateRun(s: State)
    requires Fresh(s)
    ensures var r := Run(FULL_DEBUG, s, [Single(Plain, false, 0x1_0000, 7)]);
      r.Ok? && r.value.words == [LoadState(false, 1, 0x1_0000), 7] && r.value.delta == [Delta(0x1_0000, 0, 7)]
  {
    var ops := [Single(Plain, false, 0x1_0000, 7)];
    assert ops[..0] == [];
    assert Run(FULL_DEBUG, s, []) == Ok(s);
    assert s.words + [LoadState(false, 1, 0x1_0000)] + [7] == [LoadState(false, 1, 0x1_0000), 7];
    assert s.delta + [Delta(0x1_0000, 0, 7)] == [Delta(0x1_0000, 0, 7)];
  }

  /** State 0x10000 passes every assertion too: the hardware loads state 0 while the log records
      0x10000. */
  lemma WideAddressIsMisread(s: State)
    requires Fresh(s)
    ensures var r := Run(FULL_DEBUG, s, [Single(Plain, false, 0x1_0000, 7)]);
      && r.Ok? && r.value.delta == [Delta(0x1_0000, 0, 7)]
      && Decode(r.value.words) == Decoded(Idle, [Header(false, 0, 1), Write(0, 7)])
  {
    WideStateRun(s);
    var h := LoadState(false, 1, 0x1_0000);
    HeaderRoundTrip(false, 1, 0x1_0000);
    DecodeSnoc([], h);
    assert [] + [h] == [h] && [h] + [7] == [h, 7];
    DecodeSnoc([h], 7);
  }

  // ----- The delta log -----

  /** The kinds of the writes of a run, in order. */
  function Kinds(ops: seq<Op>): seq<Kind> {
    if ops == [] then [] else Kinds(ops[..|ops| - 1]) + KindsOf(ops[|ops| - 1])
  }

  function KindsOf(op: Op): seq<Kind> {
    match op
    case Set(kind, _, _) => [kind]
    case Single(kind, _, _, _) => [kind]
    case SemaStall(_) => [Ctrl]
    case _ => []
  }

  lemma WritesOfMeaning(op: Op)
    ensures Writes(Meaning(op)) ==
      match op {
        case Set(_, address, data) => [(address, Truncate(data))]
        case Single(_, _, address, data) => [(address, Truncate(data))]
        case SemaStall(data) => [(SEMAPHORE_ADDRESS, Truncate(data))]
        case _ => []
      }
  {
    match op
    case Single(_, fixedPoint, address, data) =>
      var h, w := Header(fixedPoint, address, 1), Write(address, Truncate(data));
      WritesOfConcat([h], [w]);
      WritesOfOne(h);
      WritesOfOne(w);
      assert Meaning(op) == [h] + [w];
    case SemaStall(data) =>
      var h, w := Header(false, SEMAPHORE_ADDRESS, 1), Write(SEMAPHORE_ADDRESS, Truncate(data));
      var t := Stall(Truncate(data));
      WritesOfConcat([h], [w]);
      WritesOfConcat([h] + [w], [t]);
      WritesOfOne(h);
      WritesOfOne(w);
      WritesOfOne(t);
      assert Meaning(op) == [h] + [w] + [t];
    case Begin(fixedPoint, address, count) => WritesOfOne(Header(fixedPoint, address, count));
    case Set(_, address, data) => WritesOfOne(Write(address, Truncate(data)));
    case Filler => WritesOfOne(Nop);
    case End =>
  }

  lemma SingleDelta(s: State, kind: Kind, fixedPoint: bool, address: Word, data: Size)
    requires SetSingleState(FULL_DEBUG, s, kind, fixedPoint, address, data).Ok?
    ensures SetSingleState(FULL_DEBUG, s, kind, fixedPoint, address, data).value.delta
         == s.delta + DeltaOf(kind, address, Truncate(data))
  {
  }

  lemma StepExtendsLog(s: State, op: Op, kinds: seq<Kind>, writes: seq<(int, Word)>)
    requires Step(FULL_DEBUG, s, op).Ok? && |kinds| == |writes| && s.delta == LogOf(kinds, writes)
    ensures |KindsOf(op)| == |Writes(Meaning(op))|
    ensures Step(FULL_DEBUG, s, op).value.delta == LogOf(kinds + KindsOf(op), writes + Writes(Meaning(op)))
  {
    WritesOfMeaning(op);
    match op
    case Set(kind, address, data) => LogSnoc(kinds, writes, kind, address, Truncate(data));
    case Single(kind, fixedPoint, address, data) =>
      SingleDelta(s, kind, fixedPoint, address, data);
      LogSnoc(kinds, writes, kind, address, Truncate(data));
    case SemaStall(data) =>
      SingleDelta(s, Ctrl, false, SEMAPHORE_ADDRESS, data);
      LogSnoc(kinds, writes, Ctrl, SEMAPHORE_ADDRESS, Truncate(data));
    case _ => assert kinds + [] == kinds && writes + [] == writes;
  }

  lemma {:induction false} LogOfIntended(s: State, ops: seq<Op>)
    requires Fresh(s) && Run(FULL_DEBUG, s, ops).Ok?
    ensures |Kinds(ops)| == |Writes(Intended(ops))|
    ensures Run(FULL_DEBUG, s, ops).value.delta == LogOf(Kinds(ops), Writes(Intended(ops)))
  {
    if ops != [] {
      var init, last := ops[..|ops| - 1], ops[|ops| - 1];
      LogOfIntended(s, init);
      WritesOfConcat(Intended(init), Meaning(last));
      StepExtendsLog(Run(FULL_DEBUG, s, init).value, last, Kinds(init), Writes(Intended(init)));
    }
  }

  /** The delta log of an accepted, readable run is exactly what its emitted words write, less the
      control writes: the words and the log never disagree. */
  lemma DeltaLogMatchesStream(s: State, ops: seq<Op>)
    requires Fresh(s) && Run(FULL_DEBUG, s, ops).Ok? && AllReadable(Intended(ops))
    ensures var s' := Run(FULL_DEBUG, s, ops).value;
      && Decode(s'.words).Decoded?
      && |Kinds(ops)| == |Writes(Decode(s'.words).events)|
      && s'.delta == LogOf(Kinds(ops), Writes(Decode(s'.words).events))
  {
    RoundTrip(s, ops);
    LogOfIntended(s, ops);
  }
}
