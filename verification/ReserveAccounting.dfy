/** How many bytes a caller must reserve: buffers opened with ReserveSize and closed by
    gcmENDSTATEBUFFER. */
module ReserveAccounting {
  import opened Bits
  import opened Alignment
  import opened CommandWord
  import opened CommandStream
  import opened StateBatch
  import opened StateBatchInvariants

  /** gcmENDSTATEBUFFER: the cursor must stand exactly at the end of the reservation. */
  function EndStateBuffer(b: Build, s: State, reserveSize: nat): Outcome<State> {
    if Trips(b, reserveSize == 4 * |s.words|) then AssertFailed else Ok(s)
  }

  /** Closing succeeds exactly when the reservation is four bytes for every word that the run paid
      for, less what an open batch still owes. */
  lemma ClosedReservation(s: State, ops: seq<Op>, reserveSize: nat)
    requires Fresh(s) && Run(FULL_DEBUG, s, ops).Ok?
    ensures var s' := Run(FULL_DEBUG, s, ops).value;
      EndStateBuffer(FULL_DEBUG, s', reserveSize).Ok? <==>
        reserveSize == 4 * (TotalCost(Intended(ops)) - s'.lastCount)
  {
    WordsConserved(s, ops);
  }

  // ----- The usual shape of a buffer -----

  datatype Value = Value(kind: Kind, data: Size)

  /** A whole batch with the one filler that keeps it 64-bit aligned, a single state, or a
      semaphore-stall. */
  datatype Item =
    | WholeBatch(fixedPoint: bool, address: Word, values: seq<Value>)
    | SingleItem(kind: Kind, fixedPoint: bool, address: Word, data: Size)
    | SemaStallItem(data: Size)

  /** The macro argument type: a batch count is a 32-bit word. */
  predicate Representable(item: Item) {
    item.WholeBatch? ==> |item.values| < 0x1_0000_0000
  }

  predicate InRange(values: seq<Value>) {
    forall i :: 0 <= i < |values| ==> Fits(values[i].data)
  }

  predicate Acceptable(item: Item) {
    match item
    case WholeBatch(_, _, values) => |values| <= 1024 && InRange(values)
    case SingleItem(_, _, _, data) => Fits(data)
    case SemaStallItem(data) => Fits(data)
  }

  predicate AllRepresentable(items: seq<Item>) {
    forall i :: 0 <= i < |items| ==> Representable(items[i])
  }

  predicate AllAcceptable(items: seq<Item>) {
    forall i :: 0 <= i < |items| ==> Acceptable(items[i])
  }

  function SetOps(address: Word, values: seq<Value>): seq<Op> {
    if values == [] then []
    else
      var n := |values| - 1;
      SetOps(address, values[..n]) + [Set(values[n].kind, (address + n) % 0x1_0000_0000, values[n].data)]
  }

  function TailOps(count: nat): seq<Op> {
    if count % 2 == 0 then [Filler, End] else [End]
  }

  function ItemOps(item: Item): seq<Op>
    requires Representable(item)
  {
    match item
    case WholeBatch(fixedPoint, address, values) =>
      [Begin(fixedPoint, address, |values|)] + (SetOps(address, values) + TailOps(|values|))
    case SingleItem(kind, fixedPoint, address, data) => [Single(kind, fixedPoint, address, data)]
    case SemaStallItem(data) => [SemaStall(data)]
  }

  function AllOps(items: seq<Item>): seq<Op>
    requires AllRepresentable(items)
  {
    if items == [] then [] else AllOps(items[..|items| - 1]) + ItemOps(items[|items| - 1])
  }

  /** The words of an item; `SlotsAreAligned` shows the rule by which callers compute it. */
  function Slots(item: Item): nat {
    match item
    case WholeBatch(_, _, values) => 1 + |values| + (if |values| % 2 == 0 then 1 else 0)
    case SingleItem(_, _, _, _) => 2
    case SemaStallItem(_) => 4
  }

  /** A batch of Count states takes gcmALIGN(1 + Count, 2) words, and a single state is a batch of one. */
  lemma SlotsAreAligned(item: Item)
    requires item.WholeBatch? ==> |item.values| <= 1024
    ensures item.WholeBatch? ==> Slots(item) == AlignUp(32, 1 + |item.values|, 2)
    ensures item.SingleItem? ==> Slots(item) == AlignUp(32, 1 + 1, 2)
  {
    EvenSlots(if item.WholeBatch? then |item.values| else 1, 2);
  }

  lemma RoundUpTwo(count: nat, two: nat)
    requires two == 2
    ensures RoundUp(1 + count, two) == 1 + count + (if count % 2 == 0 then 1 else 0)
  {
  }

  lemma AlignUpTwo(n: nat, two: nat)
    requires n <= 1025 && two == Pow2(1)
    ensures AlignUp(32, n, two) == RoundUp(n, two)
  {
    Pow2Values();
    AlignUpFits(32, n, 1);
  }

  lemma TwoIsAPower(two: nat)
    requires two == 2
    ensures two == Pow2(1)
  {
  }

  lemma EvenSlots(count: nat, two: nat)
    requires count <= 1024 && two == 2
    ensures AlignUp(32, 1 + count, two) == 1 + count + (if count % 2 == 0 then 1 else 0)
  {
    TwoIsAPower(two);
    AlignUpTwo(1 + count, two);
    RoundUpTwo(count, two);
  }

  function TotalSlots(items: seq<Item>): nat {
    if items == [] then 0 else TotalSlots(items[..|items| - 1]) + Slots(items[|items| - 1])
  }

  // ----- Running the shape -----

  lemma {:induction false} RunConcat(b: Build, s: State, xs: seq<Op>, ys: seq<Op>)
    ensures Run(b, s, xs + ys) ==
      if Run(b, s, xs).Ok? then Run(b, Run(b, s, xs).value, ys) else AssertFailed
  {
    if ys == [] {
      assert xs + ys == xs;
    } else {
      var n := |ys| - 1;
      assert (xs + ys)[..|xs| + n] == xs + ys[..n];
      RunConcat(b, s, xs, ys[..n]);
    }
  }

  lemma RunOne(b: Build, s: State, op: Op)
    ensures Run(b, s, [op]) == Step(b, s, op)
  {
    assert [op][..0] == [];
    assert Run(b, s, []) == Ok(s);
  }

  /** No batch open and an even cursor. */
  predicate Settled(s: State) {
    s.lastCount == 0 && |s.words| % 2 == 0
  }

  lemma SetStep(s: State, op: Op, n: nat)
    requires op.Set? && n < 1024 && op.address == (s.lastAddress + n) % 0x1_0000_0000
    requires s.lastCount > 0 && |s.words| == s.lastPtr + 1 + n
    ensures var r := Step(FULL_DEBUG, s, op);
      && (r.Ok? <==> Fits(op.data))
      && (r.Ok? ==> && r.value.lastCount == s.lastCount - 1
                    && |r.value.words| == |s.words| + 1
                    && r.value.lastPtr == s.lastPtr && r.value.lastAddress == s.lastAddress)
  {
    SameResidue(n, op.address, s.lastAddress);
  }

  /** What n data words of a batch leave, or that one of them did not fit. */
  predicate Filled(s: State, r: Outcome<State>, n: nat, fitting: bool) {
    && (r.Ok? <==> fitting)
    && (r.Ok? ==> && r.value.lastCount == s.lastCount - n
                  && |r.value.words| == |s.words| + n
                  && r.value.lastPtr == s.lastPtr && r.value.lastAddress == s.lastAddress)
  }

  lemma InRangeSnoc(values: seq<Value>, n: nat)
    requires n + 1 == |values|
    ensures InRange(values) <==> InRange(values[..n]) && Fits(values[n].data)
  {
  }

  lemma FilledStep(s: State, t: State, op: Op, n: nat)
    requires Filled(s, Ok(t), n, true) && n < s.lastCount <= 1024 && |s.words| == s.lastPtr + 1
    requires op.Set? && op.address == (s.lastAddress + n) % 0x1_0000_0000
    ensures Filled(s, Step(FULL_DEBUG, t, op), n + 1, Fits(op.data))
  {
    SetStep(t, op, n);
  }

  lemma {:induction false} SetOpsRun(s: State, values: seq<Value>)
    requires |values| <= s.lastCount <= 1024 && |s.words| == s.lastPtr + 1
    ensures Filled(s, Run(FULL_DEBUG, s, SetOps(s.lastAddress, values)), |values|, InRange(values))
  {
    if values != [] {
      var n := |values| - 1;
      var init := SetOps(s.lastAddress, values[..n]);
      var op := Set(values[n].kind, (s.lastAddress + n) % 0x1_0000_0000, values[n].data);
      InRangeSnoc(values, n);
      SetOpsRun(s, values[..n]);
      RunSnoc(FULL_DEBUG, s, init, op);
      if Run(FULL_DEBUG, s, init).Ok? {
        FilledStep(s, Run(FULL_DEBUG, s, init).value, op, n);
      }
    }
  }

  lemma RunSnoc(b: Build, s: State, ops: seq<Op>, op: Op)
    ensures Run(b, s, ops + [op]) ==
      if Run(b, s, ops).Ok? then Step(b, Run(b, s, ops).value, op) else AssertFailed
  {
    assert (ops + [op])[..|ops|] == ops;
  }

  lemma FillerStep(s: State)
    requires s.lastCount == 0
    ensures Step(FULL_DEBUG, s, Filler) == Ok(Emit(s, FILLER))
  {
  }

  lemma EndStep(s: State)
    requires Settled(s)
    ensures Step(FULL_DEBUG, s, End) == Ok(s)
  {
  }

  lemma FillerSettles(s: State)
    requires s.lastCount == 0 && |s.words| % 2 == 1
    ensures Settled(Emit(s, FILLER)) && |Emit(s, FILLER).words| == |s.words| + 1
  {
  }

  lemma OtherParity(x: nat, y: nat)
    requires (x + y) % 2 == 1
    ensures y % 2 == 0 <==> x % 2 == 1
  {
  }

  /** The filler and the closing of a batch whose data are all written. */
  lemma TailRun(s: State, count: nat)
    requires s.lastCount == 0 && (|s.words| + count) % 2 == 1
    ensures Run(FULL_DEBUG, s, TailOps(count)) == Ok(if count % 2 == 0 then Emit(s, FILLER) else s)
    ensures Settled(if count % 2 == 0 then Emit(s, FILLER) else s)
  {
    OtherParity(|s.words|, count);
    if count % 2 == 0 {
      FillerSettles(s);
      FillerStep(s);
      EndStep(Emit(s, FILLER));
      RunOne(FULL_DEBUG, s, Filler);
      RunSnoc(FULL_DEBUG, s, [Filler], End);
      assert TailOps(count) == [Filler] + [End];
    } else {
      EndStep(s);
      RunOne(FULL_DEBUG, s, End);
    }
  }

  lemma BeginStep(s: State, fixedPoint: bool, address: Word, count: Word)
    requires Settled(s)
    ensures var r := Run(FULL_DEBUG, s, [Begin(fixedPoint, address, count)]);
      && (r.Ok? <==> count <= 1024)
      && (r.Ok? ==> && r.value.lastCount == count && r.value.lastAddress == address
                    && r.value.lastPtr == |s.words| && |r.value.words| == |s.words| + 1)
  {
    RunOne(FULL_DEBUG, s, Begin(fixedPoint, address, count));
  }

  lemma BatchRun(s: State, item: Item)
    requires Settled(s) && item.WholeBatch? && Representable(item)
    ensures var r := Run(FULL_DEBUG, s, ItemOps(item));
      && (r.Ok? <==> Acceptable(item))
      && (r.Ok? ==> Settled(r.value) && |r.value.words| == |s.words| + Slots(item))
  {
    var n := |item.values|;
    var begin, sets, tail := Begin(item.fixedPoint, item.address, n), SetOps(item.address, item.values), TailOps(n);
    RunConcat(FULL_DEBUG, s, [begin], sets + tail);
    BeginStep(s, item.fixedPoint, item.address, n);
    if n <= 1024 {
      var s1 := Run(FULL_DEBUG, s, [begin]).value;
      DataRun(s1, item.address, item.values, |s.words|);
    }
  }

  lemma OddLength(start: nat, n: nat)
    requires start % 2 == 0
    ensures (start + 1 + n + n) % 2 == 1
  {
  }

  lemma TailLength(s: State, count: nat, length: nat)
    requires |s.words| == length
    ensures |(if count % 2 == 0 then Emit(s, FILLER) else s).words| == length + (if count % 2 == 0 then 1 else 0)
  {
  }

  lemma DataRun(s: State, address: Word, values: seq<Value>, start: nat)
    requires |values| == s.lastCount <= 1024 && s.lastPtr == start && |s.words| == start + 1 && s.lastAddress == address
    requires start % 2 == 0
    ensures var r := Run(FULL_DEBUG, s, SetOps(address, values) + TailOps(|values|));
      && (r.Ok? <==> InRange(values))
      && (r.Ok? ==> Settled(r.value)
                    && |r.value.words| == start + 1 + |values| + (if |values| % 2 == 0 then 1 else 0))
  {
    RunConcat(FULL_DEBUG, s, SetOps(address, values), TailOps(|values|));
    SetOpsRun(s, values);
    if InRange(values) {
      var s1 := Run(FULL_DEBUG, s, SetOps(address, values)).value;
      OddLength(start, |values|);
      TailRun(s1, |values|);
      TailLength(s1, |values|, start + 1 + |values|);
    }
  }

  lemma ItemRun(s: State, item: Item)
    requires Settled(s) && Representable(item)
    ensures var r := Run(FULL_DEBUG, s, ItemOps(item));
      && (r.Ok? <==> Acceptable(item))
      && (r.Ok? ==> Settled(r.value) && |r.value.words| == |s.words| + Slots(item))
  {
    if item.WholeBatch? {
      BatchRun(s, item);
    } else {
      RunOne(FULL_DEBUG, s, ItemOps(item)[0]);
    }
  }

  /** A buffer of items runs through exactly when every item is acceptable by itself, and its length
      is the sum of the slots. */
  lemma {:induction false} ItemsRun(s: State, items: seq<Item>)
    requires Settled(s) && AllRepresentable(items)
    ensures var r := Run(FULL_DEBUG, s, AllOps(items));
      && (r.Ok? <==> AllAcceptable(items))
      && (r.Ok? ==> Settled(r.value) && |r.value.words| == |s.words| + TotalSlots(items))
  {
    if items != [] {
      var n := |items| - 1;
      var init, last := items[..n], items[n];
      assert AllAcceptable(items) <==> AllAcceptable(init) && Acceptable(last);
      ItemsRun(s, init);
      RunConcat(FULL_DEBUG, s, AllOps(init), ItemOps(last));
      if Run(FULL_DEBUG, s, AllOps(init)).Ok? {
        ItemRun(Run(FULL_DEBUG, s, AllOps(init)).value, last);
      }
    }
  }

  /** The whole life of a buffer, from reservation to gcmENDSTATEBUFFER: it passes every assertion
      exactly when each item is acceptable and ReserveSize is four times the slots; such a size is a
      multiple of 8. */
  lemma ReserveConservation(s: State, items: seq<Item>, reserveSize: nat)
    requires Fresh(s) && AllRepresentable(items)
    ensures var r := Run(FULL_DEBUG, s, AllOps(items));
      (r.Ok? && EndStateBuffer(FULL_DEBUG, r.value, reserveSize).Ok?) <==>
        AllAcceptable(items) && reserveSize == 4 * TotalSlots(items)
    ensures AllAcceptable(items) ==> 4 * TotalSlots(items) % 8 == 0
  {
    ItemsRun(s, items);
    if AllAcceptable(items) {
      assert TotalSlots(items) % 2 == 0;
      EightBytes(TotalSlots(items));
    }
  }

  lemma EightBytes(n: nat)
    requires n % 2 == 0
    ensures 4 * n % 8 == 0
  {
  }
}
