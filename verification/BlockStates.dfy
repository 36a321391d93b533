/** The block macros, which write many control states under one header. */
module BlockStates {
  import opened Sequences
  import opened CommandWord
  import opened CommandStream
  import opened FrontEnd
  import opened TempBatch

  function WritesFrom(address: int, datas: seq<Word>): seq<Event> {
    seq(|datas|, i requires 0 <= i < |datas| => Write(address + i, datas[i]))
  }

  lemma DataStep(prefix: seq<Word>, events: seq<Event>, next: int, left: int, w: Word)
    requires Decode(prefix) == Decoded(Loading(next, left), events)
    ensures Decode(prefix + [w]) ==
      Decoded(if left == 1 then Idle else Loading(next + 1, left - 1), events + [Write(next, w)])
  {
    DecodeSnoc(prefix, w);
  }

  lemma {:induction false} DataDecode(prefix: seq<Word>, events: seq<Event>, address: int, left: int, datas: seq<Word>)
    requires Decode(prefix) == Decoded(Loading(address, left), events) && |datas| <= left && 0 < left
    ensures Decode(prefix + datas) ==
      Decoded(if |datas| == left then Idle else Loading(address + |datas|, left - |datas|),
              events + WritesFrom(address, datas))
  {
    if datas == [] {
      assert prefix + datas == prefix && events + WritesFrom(address, datas) == events;
    } else {
      var n := |datas| - 1;
      var init, last := datas[..n], datas[n];
      DataDecode(prefix, events, address, left, init);
      var p, es := prefix + init, events + WritesFrom(address, init);
      assert Decode(p) == Decoded(Loading(address + n, left - n), es);
      DataStep(p, es, address + n, left - n, last);
      SnocParts(prefix, datas, n);
      WritesFromSnoc(address, datas, n);
      ConcatAssociates(events, WritesFrom(address, init), [Write(address + n, last)]);
    }
  }

  lemma SnocParts(prefix: seq<Word>, datas: seq<Word>, n: nat)
    requires n + 1 == |datas|
    ensures prefix + datas == prefix + datas[..n] + [datas[n]]
  {
  }

  lemma WritesFromSnoc(address: int, datas: seq<Word>, n: nat)
    requires n + 1 == |datas|
    ensures WritesFrom(address, datas) == WritesFrom(address, datas[..n]) + [Write(address + n, datas[n])]
  {
  }

  /** A header and its array read back as that header and the array at consecutive addresses, up to
      and including 1024 states. */
  lemma CtrlStatesDecode(fixedPoint: bool, address: Word, datas: seq<Word>)
    requires 1 <= |datas| <= 1024 && address < 0x1_0000
    ensures Decode([LoadState(fixedPoint, |datas|, address)] + datas)
         == Decoded(Idle, [Header(fixedPoint, address, |datas|)] + WritesFrom(address, datas))
  {
    HeaderDecodes(fixedPoint, |datas|, address);
    var first := Header(fixedPoint, address, |datas|);
    DataDecode([LoadState(fixedPoint, |datas|, address)], [first], address, |datas|, datas);
  }

  lemma HeaderDecodes(fixedPoint: bool, count: Word, address: Word)
    requires 1 <= count <= 1024 && address < 0x1_0000
    ensures Decode([LoadState(fixedPoint, count, address)])
         == Decoded(Loading(address, count), [Header(fixedPoint, address, count)])
  {
    var h, e := LoadState(fixedPoint, count, address), Header(fixedPoint, address, count);
    HeaderReads([], [], fixedPoint, count, address);
    assert [] + [h] == [h] && [] + [e] == [e];
  }

  /** From an aligned cursor the block macros pass every assertion exactly when the count is odd, at
      most 1024 and all data fit 32 bits: an even count always trips the closing check. */
  lemma BlockPassesExactlyOnOddCounts(s: State, fixedPoint: bool, address: Word, datas: Datas)
    requires (|s.words| - s.base) % 2 == 0
    ensures SetCtrlStates(FULL_DEBUG, s, fixedPoint, address, datas).Ok?
       <==> |datas| % 2 == 1 && |datas| <= 1024 && AllFit(datas)
    ensures forall b: Build :: SetCtrlStates(b, s, fixedPoint, address, datas).Ok? ==>
      SetCtrlStates(b, s, fixedPoint, address, datas).value
        == s.(words := s.words + [LoadState(fixedPoint, |datas|, address)] + Truncated(datas))
  {
  }

  /** A block of two copies, asked for on a boundary with good data, trips the closing check. */
  lemma BlockOfTwoTrips()
    ensures SetBlockCtrlState(FULL_DEBUG, EMPTY, false, 0x0E00, 7, 2).AssertFailed?
    ensures SetBlockCtrlState(Build(false, true), EMPTY, false, 0x0E00, 7, 2).Ok?
  {
    var datas: Datas := seq(2, _ => 7);
    BlockPassesExactlyOnOddCounts(EMPTY, false, 0x0E00, datas);
  }

  /** The block form is the array form on copies of one value, and an accepted block decodes to one
      header and Count writes of that value. */
  lemma BlockDecodes(fixedPoint: bool, address: Word, data: Size, count: Word)
    requires address < 0x1_0000
    ensures var r := SetBlockCtrlState(FULL_DEBUG, EMPTY, fixedPoint, address, data, count);
      && (r.Ok? <==> count % 2 == 1 && count <= 1024 && Fits(data))
      && (r.Ok? ==> Decode(r.value.words) == Decoded(Idle, BlockEvents(fixedPoint, address, data, count)))
  {
    var datas: Datas := seq(count, _ => data);
    BlockPassesExactlyOnOddCounts(EMPTY, fixedPoint, address, datas);
    if count > 0 { assert AllFit(datas) <==> Fits(datas[0]); }
    if count % 2 == 1 && count <= 1024 && Fits(data) {
      var ws := Truncated(datas);
      CtrlStatesDecode(fixedPoint, address, ws);
      CopiesWrite(address, data, count, ws);
      assert EMPTY.words + [LoadState(fixedPoint, count, address)] + ws == [LoadState(fixedPoint, count, address)] + ws;
    }
  }

  function CopiesFrom(address: int, data: Size, count: nat): seq<Event> {
    seq(count, i => Write(address + i, Truncate(data)))
  }

  /** One header, then Count writes of the value at consecutive addresses. */
  function BlockEvents(fixedPoint: bool, address: Word, data: Size, count: Word): seq<Event> {
    [Header(fixedPoint, address, count)] + CopiesFrom(address, data, count)
  }

  lemma CopiesWrite(address: int, data: Size, count: nat, ws: seq<Word>)
    requires |ws| == count && forall i :: 0 <= i < count ==> ws[i] == Truncate(data)
    ensures WritesFrom(address, ws) == CopiesFrom(address, data, count)
  {
  }
}
