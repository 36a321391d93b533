/** The _NEW_FAST macros refine the _NEW ones. */
module FastForms {
  import opened CommandWord
  import opened CommandStream
  import opened TempBatch

  function FastKindOf(kind: Kind): FastKind
    requires !kind.Ctrl?
  {
    if kind.Plain? then FastPlain else FastMasked(kind.mask)
  }

  function FastForm(op: Op): Op {
    match op
    case Set(kind, address, data) =>
      if kind.Ctrl? then op else SetFast(FastKindOf(kind), address, data)
    case Single(kind, fixedPoint, address, data) =>
      if kind.Ctrl? then op else SingleFast(FastKindOf(kind), fixedPoint, address, data)
    case _ => op
  }

  function FastForms(ops: seq<Op>): seq<Op> {
    if ops == [] then [] else FastForms(ops[..|ops| - 1]) + [FastForm(ops[|ops| - 1])]
  }

  /** The masked write whose range check the fast form drops. */
  predicate MaskedFits(op: Op) {
    (op.Set? || op.Single?) && op.kind.Masked? ==> Fits(op.data)
  }

  predicate AllMaskedFit(ops: seq<Op>) {
    forall i :: 0 <= i < |ops| ==> MaskedFits(ops[i])
  }

  /** Same buffer and section; the logs may differ. */
  predicate SameBuffer(s: State, t: State) {
    s.words == t.words && s.base == t.base
  }

  predicate FastMatches(b: Build, s: Outcome<State>, t: Outcome<State>, delta: seq<Delta>, fits: bool) {
    && (s.Ok? <==> t.Ok? && (b.asserts ==> fits))
    && (s.Ok? ==> SameBuffer(s.value, t.value))
    && (t.Ok? ==> t.value.delta == delta)
  }

  lemma FastSet(b: Build, s: State, t: State, kind: Kind, address: Word, data: Size)
    requires SameBuffer(s, t) && !kind.Ctrl?
    ensures FastMatches(b, SetState(b, s, kind, address, data), SetStateFast(b, t, FastKindOf(kind), address, data),
                        t.delta, kind.Masked? ==> Fits(data))
  {
  }

  lemma FastSingle(b: Build, s: State, t: State, kind: Kind, fixedPoint: bool, address: Word, data: Size)
    requires SameBuffer(s, t) && !kind.Ctrl?
    ensures FastMatches(b, SetSingleState(b, s, kind, fixedPoint, address, data),
                        SetSingleStateFast(b, t, FastKindOf(kind), fixedPoint, address, data),
                        t.delta, kind.Masked? ==> Fits(data))
  {
    var s1, t1 := BeginStateBatch(b, s, fixedPoint, address, 1), BeginStateBatch(b, t, fixedPoint, address, 1);
    assert s1.Ok? <==> t1.Ok?;
    if s1.Ok? {
      FastSet(b, s1.value, t1.value, kind, address, data);
    }
  }

  lemma CtrlSingle(b: Build, s: State, t: State, fixedPoint: bool, address: Word, data: Size)
    requires SameBuffer(s, t)
    ensures FastMatches(b, SetSingleState(b, s, Ctrl, fixedPoint, address, data),
                        SetSingleState(b, t, Ctrl, fixedPoint, address, data), t.delta, true)
  {
  }

  /** The array and block forms do not look at the log. */
  lemma CtrlStatesMatch(b: Build, s: State, t: State, fixedPoint: bool, address: Word, datas: Datas)
    requires SameBuffer(s, t)
    ensures FastMatches(b, SetCtrlStates(b, s, fixedPoint, address, datas),
                        SetCtrlStates(b, t, fixedPoint, address, datas), t.delta, true)
  {
  }

  lemma FastStep(b: Build, s: State, t: State, op: Op)
    requires SameBuffer(s, t)
    ensures FastMatches(b, Step(b, s, op), Step(b, t, FastForm(op)), t.delta, MaskedFits(op))
  {
    match op
    case Set(kind, address, data) => if !kind.Ctrl? { FastSet(b, s, t, kind, address, data); }
    case Single(kind, fixedPoint, address, data) =>
      if kind.Ctrl? { CtrlSingle(b, s, t, fixedPoint, address, data); }
      else { FastSingle(b, s, t, kind, fixedPoint, address, data); }
    case SemaStall(data) => CtrlSingle(b, s, t, false, SEMAPHORE_ADDRESS, data);
    case Block(fixedPoint, address, data, count) =>
      CtrlStatesMatch(b, s, t, fixedPoint, address, seq(count, _ => data));
    case CtrlStates(fixedPoint, address, datas) => CtrlStatesMatch(b, s, t, fixedPoint, address, datas);
    case _ =>
  }

  /** Replacing every data macro by its fast form keeps words and cursor and leaves the delta log
      alone; the plain run passes exactly when the fast one does and no masked value is too wide. */
  lemma {:induction false} FastRefines(b: Build, s: State, t: State, ops: seq<Op>)
    requires SameBuffer(s, t)
    ensures FastMatches(b, Run(b, s, ops), Run(b, t, FastForms(ops)), t.delta, AllMaskedFit(ops))
  {
    if ops != [] {
      var n := |ops| - 1;
      var init, last := ops[..n], ops[n];
      FastRefines(b, s, t, init);
      assert AllMaskedFit(ops) <==> AllMaskedFit(init) && MaskedFits(last);
      var fast := FastForms(init);
      FastFormsLength(init);
      assert FastForms(ops)[..n] == fast;
      if Run(b, t, fast).Ok? {
        var t1 := Run(b, t, fast).value;
        FastStep(b, if Run(b, s, init).Ok? then Run(b, s, init).value else t1, t1, last);
      }
    }
  }

  lemma {:induction false} FastFormsLength(ops: seq<Op>)
    ensures |FastForms(ops)| == |ops|
  {
    if ops != [] { FastFormsLength(ops[..|ops| - 1]); }
  }

  /** A masked value of 33 bits is refused by the plain macro and cut to 32 by the fast one. */
  lemma FastMaskedTruncates()
    ensures SetState(FULL_DEBUG, EMPTY, Masked(1), 0x0E00, 0x1_0000_0001).AssertFailed?
    ensures SetStateFast(FULL_DEBUG, EMPTY, FastMasked(1), 0x0E00, 0x1_0000_0001) == Ok(State([1], 0, []))
  {
    assert EMPTY.words + [1] == [1];
  }
}
