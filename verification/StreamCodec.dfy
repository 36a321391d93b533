/** Events as words: which sequences of events survive being written and read back. */
module StreamCodec {
  import opened Sequences
  import opened CommandWord
  import opened FrontEnd

  /** The words that a macro writes for one event. */
  function EventWords(e: Event): seq<Word> {
    match e
    case Header(fixedPoint, address, count) =>
      [LoadState(fixedPoint, count % 0x1_0000_0000, address % 0x1_0000_0000)]
    case Write(_, data) => [data]
    case Nop => [FILLER]
    case Stall(operand) => [STALL, operand]
  }

  function Encode(events: seq<Event>): seq<Word> {
    if events == [] then [] else Encode(events[..|events| - 1]) + EventWords(events[|events| - 1])
  }

  lemma EncodeSnoc(events: seq<Event>, e: Event)
    ensures Encode(events + [e]) == Encode(events) + EventWords(e)
  {
    assert (events + [e])[..|events|] == events;
  }

  lemma {:induction false} EncodeConcat(xs: seq<Event>, ys: seq<Event>)
    ensures Encode(xs + ys) == Encode(xs) + Encode(ys)
  {
    if ys == [] {
      assert xs + ys == xs && Encode(xs) + [] == Encode(xs);
    } else {
      var n := |ys| - 1;
      var init, last := ys[..n], ys[n];
      EncodeConcat(xs, init);
      EncodeSnoc(init, last);
      EncodeSnoc(xs + init, last);
      ConcatAssociates(xs, init, [last]);
      ConcatAssociates(Encode(xs), Encode(init), EventWords(last));
      assert ys == init + [last];
    }
  }

  lemma EncodeOne(e: Event)
    ensures Encode([e]) == EventWords(e)
  {
    assert [e][..0] == [];
  }

  // ----- The protocol of events -----

  /** What may come next: between commands a readable header, a filler or a stall; inside a batch the
      data of the next state and nothing else. */
  predicate Admits(mode: Mode, e: Event) {
    match mode
    case Idle => !e.Write? && Readable(e)
    case Loading(next, _) => e.Write? && e.address == next
    case StallArgument => false
  }

  function NextMode(mode: Mode, e: Event): Mode {
    match e
    case Header(_, address, count) => Loading(address, count)
    case Write(_, _) => if mode.Loading? && mode.left != 1 then Loading(mode.next + 1, mode.left - 1) else Idle
    case _ => Idle
  }

  function ModeAfter(events: seq<Event>): Mode {
    if events == [] then Idle else NextMode(ModeAfter(events[..|events| - 1]), events[|events| - 1])
  }

  predicate WellFormed(events: seq<Event>) {
    events != [] ==>
      var init := events[..|events| - 1];
      WellFormed(init) && Admits(ModeAfter(init), events[|events| - 1])
  }

  lemma Snoc(events: seq<Event>, e: Event)
    ensures ModeAfter(events + [e]) == NextMode(ModeAfter(events), e)
    ensures WellFormed(events + [e]) <==> WellFormed(events) && Admits(ModeAfter(events), e)
  {
    assert (events + [e])[..|events|] == events;
  }

  /** Well-formed parts that meet between commands make a well-formed whole. */
  lemma {:induction false} WellFormedConcat(xs: seq<Event>, ys: seq<Event>)
    requires WellFormed(xs) && ModeAfter(xs) == Idle
    ensures WellFormed(xs + ys) <==> WellFormed(ys)
    ensures ModeAfter(xs + ys) == ModeAfter(ys)
  {
    if ys == [] {
      assert xs + ys == xs;
    } else {
      var n := |ys| - 1;
      var init, last := ys[..n], ys[n];
      WellFormedConcat(xs, init);
      Snoc(xs + init, last);
      Snoc(init, last);
      ConcatAssociates(xs, init, [last]);
      assert ys == init + [last];
    }
  }

  // ----- Reading back -----

  lemma HeaderReadsBack(words: seq<Word>, events: seq<Event>, fixedPoint: bool, address: int, count: int)
    requires Decode(words) == Decoded(Idle, events) && Readable(Header(fixedPoint, address, count))
    ensures Decode(words + EventWords(Header(fixedPoint, address, count)))
         == Decoded(Loading(address, count), events + [Header(fixedPoint, address, count)])
  {
    assert count % 0x1_0000_0000 == count && address % 0x1_0000_0000 == address;
    HeaderReads(words, events, fixedPoint, count, address);
  }

  lemma StallReadsBack(words: seq<Word>, events: seq<Event>, operand: Word)
    requires Decode(words) == Decoded(Idle, events)
    ensures Decode(words + EventWords(Stall(operand))) == Decoded(Idle, events + [Stall(operand)])
  {
    StallReads(words, events, operand);
    assert words + [STALL, operand] == words + [STALL] + [operand];
  }

  lemma AdmittedReadsBack(words: seq<Word>, mode: Mode, events: seq<Event>, e: Event)
    requires Decode(words) == Decoded(mode, events) && Admits(mode, e)
    ensures Decode(words + EventWords(e)) == Decoded(NextMode(mode, e), events + [e])
  {
    match e
    case Header(fixedPoint, address, count) => HeaderReadsBack(words, events, fixedPoint, address, count);
    case Write(_, data) => DecodeSnoc(words, data);
    case Nop => FillerReads(words, events);
    case Stall(operand) => StallReadsBack(words, events, operand);
  }

  /** The reader has gone astray for good: it stopped, it reported another event than the one meant,
      or it is about to. */
  ghost predicate Astray(d: Decoded, events: seq<Event>) {
    || d.Illegal?
    || (exists i :: 0 <= i < |d.events| && i < |events| && d.events[i] != events[i])
    || (d.mode == StallArgument && |d.events| < |events| && !events[|d.events|].Stall?)
  }

  lemma AstrayIsWrong(d: Decoded, events: seq<Event>)
    requires Astray(d, events)
    ensures !(d.Decoded? && d.events == events)
  {
  }

  lemma AstrayStays(d: Decoded, events: seq<Event>, w: Word, e: Event)
    requires Astray(d, events)
    ensures Astray(Feed(d, w), events) && Astray(d, events + [e])
  {
    if d.Decoded? {
      var c := Consume(d.mode, w);
      if i :| 0 <= i < |d.events| && i < |events| && d.events[i] != events[i] {
        assert (events + [e])[i] == events[i];
        if c.Decoded? { assert (d.events + c.events)[i] == d.events[i]; }
      } else {
        var k := |d.events|;
        assert (events + [e])[k] == events[k];
        assert c == Decoded(Idle, [Stall(w)]);
        assert (d.events + c.events)[k] == Stall(w);
      }
    }
  }

  lemma {:induction false} AstrayStaysLong(words: seq<Word>, more: seq<Word>, events: seq<Event>)
    requires Astray(Decode(words), events)
    ensures Astray(Decode(words + more), events)
  {
    if more == [] {
      assert words + more == words;
    } else {
      var n := |more| - 1;
      AstrayStaysLong(words, more[..n], events);
      assert words + more == words + more[..n] + [more[n]];
      DecodeSnoc(words + more[..n], more[n]);
      AstrayStays(Decode(words + more[..n]), events, more[n], Nop);
    }
  }

  /** What one word yields tells that it does not open event e. */
  predicate NotOpening(c: Decoded, e: Event) {
    c.Decoded? ==> if c.events == [] then c.mode == StallArgument && !e.Stall? else c.events[0] != e
  }

  lemma WrongStepGoesAstray(c: Decoded, events: seq<Event>, e: Event)
    requires NotOpening(c, e)
    ensures Astray(if c.Illegal? then Illegal else Decoded(c.mode, events + c.events), events + [e])
  {
    var k := |events|;
    assert (events + [e])[k] == e;
    if c.Decoded? && c.events != [] { assert (events + c.events)[k] == c.events[0]; }
  }

  /** The first word of an event that is not admitted leads the reader astray. */
  lemma RefusedGoesAstray(words: seq<Word>, mode: Mode, events: seq<Event>, e: Event)
    requires Decode(words) == Decoded(mode, events) && mode != StallArgument && !Admits(mode, e)
    ensures Astray(Decode(words + EventWords(e)), events + [e])
  {
    var first, rest := EventWords(e)[0], EventWords(e)[1..];
    FirstWordDiffers(mode, e);
    DecodeSnoc(words, first);
    WrongStepGoesAstray(Consume(mode, first), events, e);
    AstrayStaysLong(words + [first], rest, events + [e]);
    ConcatAssociates(words, [first], rest);
    assert EventWords(e) == [first] + rest;
  }

  lemma FirstWordDiffers(mode: Mode, e: Event)
    requires mode != StallArgument && !Admits(mode, e)
    ensures NotOpening(Consume(mode, EventWords(e)[0]), e)
  {
    var w := EventWords(e)[0];
    if mode.Idle? { WordsReadAsReadable(w); }
  }

  lemma WordsReadAsReadable(w: Word)
    ensures DecodeCommand(w).CmdLoadState? ==>
      1 <= DecodeCommand(w).count <= 1024 && 0 <= DecodeCommand(w).address < 0x1_0000
  {
  }

  lemma {:induction false} Tracks(events: seq<Event>)
    ensures WellFormed(events) ==>
      ModeAfter(events) != StallArgument && Decode(Encode(events)) == Decoded(ModeAfter(events), events)
    ensures !WellFormed(events) ==> Astray(Decode(Encode(events)), events)
  {
    if events != [] {
      var n := |events| - 1;
      var init, e := events[..n], events[n];
      assert events == init + [e];
      Tracks(init);
      Snoc(init, e);
      EncodeSnoc(init, e);
      if !WellFormed(init) {
        AstrayStays(Decode(Encode(init)), init, 0, e);
        AstrayStaysLong(Encode(init), EventWords(e), events);
      } else if Admits(ModeAfter(init), e) {
        AdmittedReadsBack(Encode(init), ModeAfter(init), init, e);
      } else {
        RefusedGoesAstray(Encode(init), ModeAfter(init), init, e);
      }
    }
  }

  /** Events written as words are read back as the same events exactly when they keep the protocol;
      the reader then stands where the protocol says. */
  lemma EncodedReadsBack(events: seq<Event>)
    ensures var d := Decode(Encode(events));
      (d.Decoded? && d.events == events) <==> WellFormed(events)
    ensures WellFormed(events) ==> Decode(Encode(events)) == Decoded(ModeAfter(events), events)
  {
    Tracks(events);
    if !WellFormed(events) { AstrayIsWrong(Decode(Encode(events)), events); }
  }
}
