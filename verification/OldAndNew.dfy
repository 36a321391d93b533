/** The _NEW macros write what the older, tracked family writes. */
module OldAndNew {
  import opened CommandWord
  import opened CommandStream
  import opened FrontEnd
  import opened TempBatch
  import Old = StateBatch
  import OldRoundTrip = StateBatchRoundTrip

  function NewForm(op: Old.Op): Op {
    match op
    case Begin(fixedPoint, address, count) => Begin(fixedPoint, address, count)
    case End => End
    case Set(kind, address, data) => Set(kind, address, data)
    case Filler => Filler
    case Single(kind, fixedPoint, address, data) => Single(kind, fixedPoint, address, data)
    case SemaStall(data) => SemaStall(data)
  }

  function NewForms(ops: seq<Old.Op>): seq<Op> {
    if ops == [] then [] else NewForms(ops[..|ops| - 1]) + [NewForm(ops[|ops| - 1])]
  }

  predicate SameStream(s: Old.State, t: State) {
    s.words == t.words && s.delta == t.delta && t.base == 0
  }

  lemma NewStep(b: Build, s: Old.State, t: State, op: Old.Op)
    requires SameStream(s, t) && Old.Step(FULL_DEBUG, s, op).Ok?
    ensures Step(b, t, NewForm(op)).Ok?
    ensures SameStream(Old.Step(FULL_DEBUG, s, op).value, Step(b, t, NewForm(op)).value)
  {
  }

  lemma {:induction false} NewFormsLength(ops: seq<Old.Op>)
    ensures |NewForms(ops)| == |ops|
  {
    if ops != [] { NewFormsLength(ops[..|ops| - 1]); }
  }

  /** Code that the old macros accept under full debugging can move to the new ones in any build:
      same words, same delta log, no assertion. */
  lemma {:induction false} NewMacrosReplaceOld(b: Build, s: Old.State, ops: seq<Old.Op>)
    requires Old.Fresh(s) && Old.Run(FULL_DEBUG, s, ops).Ok?
    ensures Run(b, EMPTY, NewForms(ops)).Ok?
    ensures SameStream(Old.Run(FULL_DEBUG, s, ops).value, Run(b, EMPTY, NewForms(ops)).value)
  {
    if ops != [] {
      var n := |ops| - 1;
      var init, last := ops[..n], ops[n];
      NewMacrosReplaceOld(b, s, init);
      NewFormsLength(init);
      assert NewForms(ops)[..n] == NewForms(init);
      NewStep(b, Old.Run(FULL_DEBUG, s, init).value, Run(b, EMPTY, NewForms(init)).value, last);
    }
  }

  /** The build without tracking and assertions. */
  const RETAIL := Build(false, false)

  lemma RetailStep(b: Build, s: Old.State, t: State, op: Old.Op)
    requires SameStream(s, t) && Old.Step(b, s, op).Ok?
    ensures Step(RETAIL, t, NewForm(op)).Ok?
    ensures SameStream(Old.Step(b, s, op).value, Step(RETAIL, t, NewForm(op)).value)
  {
  }

  /** Whatever a build of the old macros lets through, the new ones write in retail. */
  lemma {:induction false} RetailWritesTheSame(b: Build, s: Old.State, ops: seq<Old.Op>)
    requires s.words == [] && s.delta == [] && Old.Run(b, s, ops).Ok?
    ensures Run(RETAIL, EMPTY, NewForms(ops)).Ok?
    ensures SameStream(Old.Run(b, s, ops).value, Run(RETAIL, EMPTY, NewForms(ops)).value)
  {
    if ops != [] {
      var n := |ops| - 1;
      var init := ops[..n];
      RetailWritesTheSame(b, s, init);
      NewFormsLength(init);
      assert NewForms(ops)[..n] == NewForms(init);
      RetailStep(b, Old.Run(b, s, init).value, Run(RETAIL, EMPTY, NewForms(init)).value, ops[n]);
    }
  }

  /** So what the old macros accept the new ones write with the old round trip, in every build. What
      only the new ones accept is the subject of TempRoundTrip. */
  lemma NewStreamDecodes(b: Build, s: Old.State, ops: seq<Old.Op>)
    requires Old.Fresh(s) && Old.Run(FULL_DEBUG, s, ops).Ok?
    ensures Run(b, EMPTY, NewForms(ops)).Ok?
    ensures var d := Decode(Run(b, EMPTY, NewForms(ops)).value.words);
      (d.Decoded? && d.events == Old.Intended(ops)) <==> AllReadable(Old.Intended(ops))
  {
    NewMacrosReplaceOld(b, s, ops);
    OldRoundTrip.RoundTrip(s, ops);
  }
}
