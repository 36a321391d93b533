/** What callers asked for, as plain numbers, against what stands in the words and in the delta log. */
module AskedFor {
  import opened CommandWord
  import opened CommandStream
  import opened FrontEnd
  import opened TempBatch
  import opened BlockStates
  import opened TempRoundTrip
  import Old = StateBatch
  import OldRoundTrip = StateBatchRoundTrip
  import opened OldAndNew

  /** An event with the data of the caller; `isChecked` where the macro asserts their range. */
  datatype Asked =
    | AskHeader(fixedPoint: bool, address: int, count: int)
    | AskWrite(address: int, data: Size, isChecked: bool)
    | AskNop
    | AskStall(data: Size)

  /** w is what 32 bits hold of the data. */
  ghost predicate LowWord(w: Word, data: Size) {
    exists q: nat :: data == q * 0x1_0000_0000 + w
  }

  /** In a build with assertions checked data arrive unchanged; otherwise their low 32 bits do. The
      operand of a stall has passed the check of the state before it. */
  ghost predicate Delivers(asserts: bool, e: Event, a: Asked) {
    match a
    case AskHeader(fixedPoint, address, count) => e == Header(fixedPoint, address, count)
    case AskWrite(address, data, isChecked) =>
      e.Write? && e.address == address && (if asserts && isChecked then e.data == data else LowWord(e.data, data))
    case AskNop => e == Nop
    case AskStall(data) => e.Stall? && (if asserts then e.operand == data else LowWord(e.operand, data))
  }

  ghost predicate AllDeliver(asserts: bool, events: seq<Event>, asked: seq<Asked>) {
    |events| == |asked| && forall i :: 0 <= i < |events| ==> Delivers(asserts, events[i], asked[i])
  }

  /** What one macro asks for. */
  function AskedOf(op: Op): seq<Asked> {
    match op
    case Begin(fixedPoint, address, count) => [AskHeader(fixedPoint, address, count)]
    case End => []
    case Set(_, address, data) => [AskWrite(address, data, true)]
    case SetFast(kind, address, data) => [AskWrite(address, data, kind.FastPlain?)]
    case Filler => [AskNop]
    case Single(_, fixedPoint, address, data) => [AskHeader(fixedPoint, address, 1), AskWrite(address, data, true)]
    case SingleFast(kind, fixedPoint, address, data) =>
      [AskHeader(fixedPoint, address, 1), AskWrite(address, data, kind.FastPlain?)]
    case Block(fixedPoint, address, data, count) =>
      [AskHeader(fixedPoint, address, count)] + seq(count, i => AskWrite(address + i, data, true))
    case CtrlStates(fixedPoint, address, datas) =>
      [AskHeader(fixedPoint, address, |datas|)]
      + seq(|datas|, i requires 0 <= i < |datas| => AskWrite(address + i, datas[i], true))
    case SemaStall(data) => [AskHeader(false, 0x0E02, 1), AskWrite(0x0E02, data, true), AskStall(data)]
  }

  function AskedFor(ops: seq<Op>): seq<Asked> {
    if ops == [] then [] else AskedFor(ops[..|ops| - 1]) + AskedOf(ops[|ops| - 1])
  }

  // ----- One macro -----

  lemma TruncatedIsLowWord(data: Size)
    ensures LowWord(Truncate(data), data)
    ensures data < 0x1_0000_0000 ==> Truncate(data) == data
  {
    assert data == (data / 0x1_0000_0000) * 0x1_0000_0000 + Truncate(data);
  }

  lemma LowWordIsUnique(w: Word, v: Word, data: Size)
    requires LowWord(w, data) && LowWord(v, data)
    ensures w == v
  {
    var p: nat :| data == p * 0x1_0000_0000 + w;
    var q: nat :| data == q * 0x1_0000_0000 + v;
  }

  lemma WordDelivers(asserts: bool, data: Size, isChecked: bool, address: int)
    requires asserts && isChecked ==> data < 0x1_0000_0000
    ensures Delivers(asserts, Write(address, Truncate(data)), AskWrite(address, data, isChecked))
  {
    TruncatedIsLowWord(data);
  }

  lemma StallDelivers(asserts: bool, data: Size)
    requires asserts ==> data < 0x1_0000_0000
    ensures Delivers(asserts, Stall(Truncate(data)), AskStall(data))
  {
    TruncatedIsLowWord(data);
  }

  predicate MacroDelivers(asserts: bool, op: Op) {
    match op
    case Set(_, _, data) => asserts ==> data < 0x1_0000_0000
    case SetFast(kind, _, data) => asserts && kind.FastPlain? ==> data < 0x1_0000_0000
    case Single(_, _, _, data) => asserts ==> data < 0x1_0000_0000
    case SingleFast(kind, _, _, data) => asserts && kind.FastPlain? ==> data < 0x1_0000_0000
    case Block(_, _, data, count) => asserts && count > 0 ==> data < 0x1_0000_0000
    case CtrlStates(_, _, datas) => asserts ==> forall i :: 0 <= i < |datas| ==> datas[i] < 0x1_0000_0000
    case SemaStall(data) => asserts ==> data < 0x1_0000_0000
    case _ => true
  }

  lemma ArrayFits(b: Build, s: State, fixedPoint: bool, address: Word, datas: Datas)
    requires SetCtrlStates(b, s, fixedPoint, address, datas).Ok? && b.asserts
    ensures forall i :: 0 <= i < |datas| ==> datas[i] < 0x1_0000_0000
  {
    assert AllFit(datas);
    forall i | 0 <= i < |datas| ensures datas[i] < 0x1_0000_0000 { assert Fits(datas[i]); }
  }

  /** A macro that passes in a build with assertions had data of 32 bits, where it checks them. */
  lemma PassedDataFit(b: Build, s: State, op: Op)
    requires Step(b, s, op).Ok?
    ensures MacroDelivers(b.asserts, op)
  {
    match op
    case Block(fixedPoint, address, data, count) =>
      var datas: Datas := seq(count, _ => data);
      if b.asserts && count > 0 {
        ArrayFits(b, s, fixedPoint, address, datas);
        assert datas[0] == data;
      }
    case CtrlStates(fixedPoint, address, datas) =>
      if b.asserts { ArrayFits(b, s, fixedPoint, address, datas); }
    case _ =>
  }

  lemma ArrayDelivers(asserts: bool, fixedPoint: bool, address: Word, datas: Datas)
    requires asserts ==> forall i :: 0 <= i < |datas| ==> datas[i] < 0x1_0000_0000
    ensures AllDeliver(asserts, Meaning(CtrlStates(fixedPoint, address, datas)),
                       AskedOf(CtrlStates(fixedPoint, address, datas)))
  {
    var op := CtrlStates(fixedPoint, address, datas);
    var events, asked := Meaning(op), AskedOf(op);
    forall i | 0 <= i < |events| ensures Delivers(asserts, events[i], asked[i]) {
      if i > 0 {
        assert events[i] == WritesFrom(address, Truncated(datas))[i - 1];
        WordDelivers(asserts, datas[i - 1], true, address + i - 1);
      }
    }
  }

  lemma BlockDelivers(asserts: bool, fixedPoint: bool, address: Word, data: Size, count: Word)
    requires asserts && count > 0 ==> data < 0x1_0000_0000
    ensures AllDeliver(asserts, Meaning(Block(fixedPoint, address, data, count)),
                       AskedOf(Block(fixedPoint, address, data, count)))
  {
    var datas: Datas := seq(count, _ => data);
    ArrayDelivers(asserts, fixedPoint, address, datas);
    assert AskedOf(Block(fixedPoint, address, data, count)) == AskedOf(CtrlStates(fixedPoint, address, datas));
  }

  lemma SingleDelivers(asserts: bool, fixedPoint: bool, address: Word, data: Size, isChecked: bool)
    requires asserts && isChecked ==> data < 0x1_0000_0000
    ensures AllDeliver(asserts, SingleMeaning(fixedPoint, address, data),
                       [AskHeader(fixedPoint, address, 1), AskWrite(address, data, isChecked)])
  {
    WordDelivers(asserts, data, isChecked, address);
  }

  lemma SemaStallDelivers(asserts: bool, data: Size)
    requires asserts ==> data < 0x1_0000_0000
    ensures AllDeliver(asserts, Meaning(SemaStall(data)), AskedOf(SemaStall(data)))
  {
    WordDelivers(asserts, data, true, 0x0E02);
    StallDelivers(asserts, data);
  }

  lemma MeaningDelivers(asserts: bool, op: Op)
    requires MacroDelivers(asserts, op)
    ensures AllDeliver(asserts, Meaning(op), AskedOf(op))
  {
    match op
    case Set(_, address, data) => WordDelivers(asserts, data, true, address);
    case SetFast(kind, address, data) => WordDelivers(asserts, data, kind.FastPlain?, address);
    case Single(_, fixedPoint, address, data) => SingleDelivers(asserts, fixedPoint, address, data, true);
    case SingleFast(kind, fixedPoint, address, data) =>
      SingleDelivers(asserts, fixedPoint, address, data, kind.FastPlain?);
    case Block(fixedPoint, address, data, count) => BlockDelivers(asserts, fixedPoint, address, data, count);
    case CtrlStates(fixedPoint, address, datas) => ArrayDelivers(asserts, fixedPoint, address, datas);
    case SemaStall(data) => SemaStallDelivers(asserts, data);
    case _ =>
  }

  // ----- Runs -----

  lemma DeliverConcat(asserts: bool, events: seq<Event>, asked: seq<Asked>, more: seq<Event>, wanted: seq<Asked>)
    requires AllDeliver(asserts, events, asked) && AllDeliver(asserts, more, wanted)
    ensures AllDeliver(asserts, events + more, asked + wanted)
  {
  }

  lemma {:induction false} IntendedDelivers(b: Build, ops: seq<Op>)
    requires Run(b, EMPTY, ops).Ok?
    ensures AllDeliver(b.asserts, Intended(ops), AskedFor(ops))
  {
    if ops != [] {
      var init, last := ops[..|ops| - 1], ops[|ops| - 1];
      IntendedDelivers(b, init);
      PassedDataFit(b, Run(b, EMPTY, init).value, last);
      MeaningDelivers(b.asserts, last);
      DeliverConcat(b.asserts, Intended(init), AskedFor(init), Meaning(last), AskedOf(last));
    }
  }

  lemma DeliveryIsUnique(asserts: bool, e: Event, f: Event, a: Asked)
    requires Delivers(asserts, e, a) && Delivers(asserts, f, a)
    ensures e == f
  {
    if a.AskWrite? && !(asserts && a.isChecked) { LowWordIsUnique(e.data, f.data, a.data); }
    if a.AskStall? && !asserts { LowWordIsUnique(e.operand, f.operand, a.data); }
  }

  lemma DeliveriesAreUnique(asserts: bool, events: seq<Event>, others: seq<Event>, asked: seq<Asked>)
    requires AllDeliver(asserts, events, asked) && AllDeliver(asserts, others, asked)
    ensures events == others
  {
    forall i | 0 <= i < |events| ensures events[i] == others[i] {
      DeliveryIsUnique(asserts, events[i], others[i], asked[i]);
    }
  }

  /** The round trip in numbers, for every accepted run of the new macros in any build: the reader
      sees the headers, states and data that were asked for, in order, exactly when the run keeps the
      protocol. */
  lemma ReadsWhatWasAsked(b: Build, ops: seq<Op>)
    requires Run(b, EMPTY, ops).Ok?
    ensures var d := Decode(Run(b, EMPTY, ops).value.words);
      (d.Decoded? && AllDeliver(b.asserts, d.events, AskedFor(ops))) <==> AllObey(ops)
  {
    RoundTrip(b, ops);
    IntendedDelivers(b, ops);
    var d := Decode(Run(b, EMPTY, ops).value.words);
    if d.Decoded? && AllDeliver(b.asserts, d.events, AskedFor(ops)) {
      DeliveriesAreUnique(b.asserts, d.events, Intended(ops), AskedFor(ops));
    }
  }

  // ----- The tracked family -----

  function OldAskedOf(op: Old.Op): seq<Asked> {
    match op
    case Begin(fixedPoint, address, count) => [AskHeader(fixedPoint, address, count)]
    case End => []
    case Set(_, address, data) => [AskWrite(address, data, true)]
    case Filler => [AskNop]
    case Single(_, fixedPoint, address, data) => [AskHeader(fixedPoint, address, 1), AskWrite(address, data, true)]
    case SemaStall(data) => [AskHeader(false, 0x0E02, 1), AskWrite(0x0E02, data, true), AskStall(data)]
  }

  function OldAskedFor(ops: seq<Old.Op>): seq<Asked> {
    if ops == [] then [] else OldAskedFor(ops[..|ops| - 1]) + OldAskedOf(ops[|ops| - 1])
  }

  lemma OldStepDelivers(s: Old.State, op: Old.Op)
    requires Old.Step(FULL_DEBUG, s, op).Ok?
    ensures AllDeliver(true, Old.Meaning(op), OldAskedOf(op))
  {
    match op
    case Set(_, address, data) => WordDelivers(true, data, true, address);
    case Single(_, fixedPoint, address, data) => SingleDelivers(true, fixedPoint, address, data, true);
    case SemaStall(data) => SemaStallDelivers(true, data);
    case _ =>
  }

  lemma {:induction false} OldIntendedDelivers(s: Old.State, ops: seq<Old.Op>)
    requires Old.Run(FULL_DEBUG, s, ops).Ok?
    ensures AllDeliver(true, Old.Intended(ops), OldAskedFor(ops))
  {
    if ops != [] {
      var init, last := ops[..|ops| - 1], ops[|ops| - 1];
      OldIntendedDelivers(s, init);
      OldStepDelivers(Old.Run(FULL_DEBUG, s, init).value, last);
      DeliverConcat(true, Old.Intended(init), OldAskedFor(init), Old.Meaning(last), OldAskedOf(last));
    }
  }

  /** Headers as numbers: 1 to 1024 states at a 16-bit address. */
  predicate HeadersFit(asked: seq<Asked>) {
    forall i :: 0 <= i < |asked| && asked[i].AskHeader? ==>
      1 <= asked[i].count <= 1024 && 0 <= asked[i].address < 0x1_0000
  }

  lemma HeadersFitMeaning(events: seq<Event>, asked: seq<Asked>)
    requires AllDeliver(true, events, asked)
    ensures AllReadable(events) <==> HeadersFit(asked)
  {
    if AllReadable(events) {
      forall i | 0 <= i < |asked| && asked[i].AskHeader?
        ensures 1 <= asked[i].count <= 1024 && 0 <= asked[i].address < 0x1_0000
      {
        assert Delivers(true, events[i], asked[i]) && Readable(events[i]);
      }
    } else {
      var i :| 0 <= i < |events| && !Readable(events[i]);
      assert Delivers(true, events[i], asked[i]);
    }
  }

  /** The round trip of the tracked macros in numbers, under full debugging. */
  lemma OldReadsWhatWasAsked(s: Old.State, ops: seq<Old.Op>)
    requires Old.Fresh(s) && Old.Run(FULL_DEBUG, s, ops).Ok?
    ensures var d := Decode(Old.Run(FULL_DEBUG, s, ops).value.words);
      (d.Decoded? && AllDeliver(true, d.events, OldAskedFor(ops))) <==> HeadersFit(OldAskedFor(ops))
  {
    OldRoundTrip.RoundTrip(s, ops);
    OldIntendedDelivers(s, ops);
    HeadersFitMeaning(Old.Intended(ops), OldAskedFor(ops));
    var d := Decode(Old.Run(FULL_DEBUG, s, ops).value.words);
    if d.Decoded? && AllDeliver(true, d.events, OldAskedFor(ops)) {
      DeliveriesAreUnique(true, d.events, Old.Intended(ops), OldAskedFor(ops));
    }
  }

  /** In any build, tracked or not: what the reader sees is what was asked for, up to the low 32 bits
      of the data, exactly when the run keeps the protocol. */
  lemma OldReadsInAnyBuild(b: Build, s: Old.State, ops: seq<Old.Op>)
    requires s.words == [] && s.delta == [] && Old.Run(b, s, ops).Ok?
    ensures var d := Decode(Old.Run(b, s, ops).value.words);
      (d.Decoded? && AllDeliver(false, d.events, AskedFor(NewForms(ops)))) <==> AllObey(NewForms(ops))
  {
    RetailWritesTheSame(b, s, ops);
    ReadsWhatWasAsked(RETAIL, NewForms(ops));
  }

  // ----- The delta log -----

  /** One call of gcoHARDWARE_UpdateDelta as the caller means it. */
  datatype Logged = Logged(address: Word, mask: Word, data: Size)

  ghost predicate Records(asserts: bool, entry: CommandStream.Delta, l: Logged) {
    && entry.address == l.address && entry.mask == l.mask
    && if asserts then entry.data == l.data else LowWord(entry.data, l.data)
  }

  ghost predicate AllRecord(asserts: bool, log: seq<CommandStream.Delta>, logged: seq<Logged>) {
    |log| == |logged| && forall i :: 0 <= i < |log| ==> Records(asserts, log[i], logged[i])
  }

  /** Plain states are logged with mask 0, masked ones with theirs, control states not at all. */
  function LoggedState(kind: Kind, address: Word, data: Size): seq<Logged> {
    match kind
    case Plain => [Logged(address, 0, data)]
    case Masked(mask) => [Logged(address, mask, data)]
    case Ctrl => []
  }

  function LoggedOf(op: Op): seq<Logged> {
    match op
    case Set(kind, address, data) => LoggedState(kind, address, data)
    case Single(kind, _, address, data) => LoggedState(kind, address, data)
    case _ => []
  }

  function LoggedFor(ops: seq<Op>): seq<Logged> {
    if ops == [] then [] else LoggedFor(ops[..|ops| - 1]) + LoggedOf(ops[|ops| - 1])
  }

  lemma StateIsRecorded(asserts: bool, kind: Kind, address: Word, data: Size)
    requires asserts ==> data < 0x1_0000_0000
    ensures AllRecord(asserts, DeltaOf(kind, address, Truncate(data)), LoggedState(kind, address, data))
  {
    TruncatedIsLowWord(data);
  }

  lemma RecordConcat(asserts: bool, log: seq<CommandStream.Delta>, logged: seq<Logged>,
                     more: seq<CommandStream.Delta>, wanted: seq<Logged>)
    requires AllRecord(asserts, log, logged) && AllRecord(asserts, more, wanted)
    ensures AllRecord(asserts, log + more, logged + wanted)
  {
  }

  lemma EntriesAreRecorded(asserts: bool, op: Op)
    requires MacroDelivers(asserts, op)
    ensures AllRecord(asserts, LogEntries(op), LoggedOf(op))
  {
    match op
    case Set(kind, address, data) => StateIsRecorded(asserts, kind, address, data);
    case Single(kind, _, address, data) => StateIsRecorded(asserts, kind, address, data);
    case _ =>
  }

  /** The log of every accepted run, in any build: address, mask and data of each plain or masked state,
      in order, and nothing else. */
  lemma {:induction false} LogsWhatWasAsked(b: Build, ops: seq<Op>)
    requires Run(b, EMPTY, ops).Ok?
    ensures AllRecord(b.asserts, Run(b, EMPTY, ops).value.delta, LoggedFor(ops))
  {
    if ops != [] {
      var init, last := ops[..|ops| - 1], ops[|ops| - 1];
      var s := Run(b, EMPTY, init).value;
      LogsWhatWasAsked(b, init);
      PassedDataFit(b, s, last);
      StepDelta(b, s, last);
      EntriesAreRecorded(b.asserts, last);
      RecordConcat(b.asserts, s.delta, LoggedFor(init), LogEntries(last), LoggedOf(last));
    }
  }

  function OldLoggedOf(op: Old.Op): seq<Logged> {
    match op
    case Set(kind, address, data) => LoggedState(kind, address, data)
    case Single(kind, _, address, data) => LoggedState(kind, address, data)
    case _ => []
  }

  function OldLoggedFor(ops: seq<Old.Op>): seq<Logged> {
    if ops == [] then [] else OldLoggedFor(ops[..|ops| - 1]) + OldLoggedOf(ops[|ops| - 1])
  }

  lemma OldSingleLogs(b: Build, s: Old.State, kind: Kind, fixedPoint: bool, address: Word, data: Size)
    requires Old.SetSingleState(b, s, kind, fixedPoint, address, data).Ok?
    ensures Old.SetSingleState(b, s, kind, fixedPoint, address, data).value.delta
         == s.delta + DeltaOf(kind, address, Truncate(data))
    ensures b.asserts ==> data < 0x1_0000_0000
  {
  }

  lemma OldStepLogs(b: Build, s: Old.State, op: Old.Op, logged: seq<Logged>)
    requires Old.Step(b, s, op).Ok? && AllRecord(b.asserts, s.delta, logged)
    ensures AllRecord(b.asserts, Old.Step(b, s, op).value.delta, logged + OldLoggedOf(op))
  {
    match op
    case Set(kind, address, data) =>
      StateIsRecorded(b.asserts, kind, address, data);
      RecordConcat(b.asserts, s.delta, logged, DeltaOf(kind, address, Truncate(data)), OldLoggedOf(op));
    case Single(kind, fixedPoint, address, data) =>
      OldSingleLogs(b, s, kind, fixedPoint, address, data);
      StateIsRecorded(b.asserts, kind, address, data);
      RecordConcat(b.asserts, s.delta, logged, DeltaOf(kind, address, Truncate(data)), OldLoggedOf(op));
    case SemaStall(data) =>
      OldSingleLogs(b, s, Ctrl, false, SEMAPHORE_ADDRESS, data);
      assert s.delta + [] == s.delta && logged + [] == logged;
    case _ => assert logged + [] == logged;
  }

  /** The same for the tracked macros, in any build. */
  lemma {:induction false} OldLogsWhatWasAsked(b: Build, s: Old.State, ops: seq<Old.Op>)
    requires s.delta == [] && Old.Run(b, s, ops).Ok?
    ensures AllRecord(b.asserts, Old.Run(b, s, ops).value.delta, OldLoggedFor(ops))
  {
    if ops != [] {
      var init, last := ops[..|ops| - 1], ops[|ops| - 1];
      OldLogsWhatWasAsked(b, s, init);
      OldStepLogs(b, Old.Run(b, s, init).value, last, OldLoggedFor(init));
    }
  }
}
