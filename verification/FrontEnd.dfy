/** The reader of a command stream: a machine that takes one word at a time. */
module FrontEnd {
  import opened CommandWord

  datatype Mode =
    | Idle                              // the next word opens a command
    | Loading(next: int, left: int)     // `left` more data words, the first for state `next`
    | StallArgument                     // the next word is the operand of a STALL

  datatype Event =
    | Header(fixedPoint: bool, address: int, count: int)
    | Write(address: int, data: Word)
    | Nop
    | Stall(operand: Word)

  datatype Decoded = Decoded(mode: Mode, events: seq<Event>) | Illegal

  function Consume(mode: Mode, w: Word): Decoded {
    match mode
    case Idle =>
      (match DecodeCommand(w)
       case CmdLoadState(fixedPoint, count, address) =>
         Decoded(Loading(address, count), [Header(fixedPoint, address, count)])
       case CmdNop => Decoded(Idle, [Nop])
       case CmdStall => Decoded(StallArgument, [])
       case CmdUnknown => Illegal)
    case Loading(next, left) =>
      Decoded(if left == 1 then Idle else Loading(next + 1, left - 1), [Write(next, w)])
    case StallArgument => Decoded(Idle, [Stall(w)])
  }

  function Feed(d: Decoded, w: Word): Decoded {
    match d
    case Illegal => Illegal
    case Decoded(mode, events) =>
      match Consume(mode, w)
      case Illegal => Illegal
      case Decoded(mode', more) => Decoded(mode', events + more)
  }

  /** Reading a whole stream from the idle mode. */
  function Decode(words: seq<Word>): Decoded {
    if words == [] then Decoded(Idle, [])
    else Feed(Decode(words[..|words| - 1]), words[|words| - 1])
  }

  lemma DecodeSnoc(words: seq<Word>, w: Word)
    ensures Decode(words + [w]) == Feed(Decode(words), w)
  {
    assert (words + [w])[..|words|] == words;
  }

  // ----- Single words, away from any sequence -----

  lemma HeaderOpens(fixedPoint: bool, count: Word, address: Word)
    requires 1 <= count <= 1024 && address < 0x1_0000
    ensures Consume(Idle, LoadState(fixedPoint, count, address))
         == Decoded(Loading(address, count), [Header(fixedPoint, address, count)])
  {
    HeaderRoundTrip(fixedPoint, count, address);
  }

  lemma FillerIsNop()
    ensures Consume(Idle, FILLER) == Decoded(Idle, [Nop])
  {
  }

  lemma StallOpens()
    ensures Consume(Idle, STALL) == Decoded(StallArgument, [])
  {
  }

  // ----- Whole commands, between others -----

  lemma HeaderReads(words: seq<Word>, events: seq<Event>, fixedPoint: bool, count: Word, address: Word)
    requires Decode(words) == Decoded(Idle, events) && 1 <= count <= 1024 && address < 0x1_0000
    ensures Decode(words + [LoadState(fixedPoint, count, address)])
         == Decoded(Loading(address, count), events + [Header(fixedPoint, address, count)])
  {
    HeaderOpens(fixedPoint, count, address);
    DecodeSnoc(words, LoadState(fixedPoint, count, address));
  }

  lemma FillerReads(words: seq<Word>, events: seq<Event>)
    requires Decode(words) == Decoded(Idle, events)
    ensures Decode(words + [FILLER]) == Decoded(Idle, events + [Nop])
  {
    FillerIsNop();
    DecodeSnoc(words, FILLER);
  }

  lemma OperandReads(words: seq<Word>, events: seq<Event>, operand: Word)
    requires Decode(words) == Decoded(StallArgument, events)
    ensures Decode(words + [operand]) == Decoded(Idle, events + [Stall(operand)])
  {
    DecodeSnoc(words, operand);
  }

  lemma StallReads(words: seq<Word>, events: seq<Event>, operand: Word)
    requires Decode(words) == Decoded(Idle, events)
    ensures Decode(words + [STALL] + [operand]) == Decoded(Idle, events + [Stall(operand)])
  {
    StallOpens();
    DecodeSnoc(words, STALL);
    assert events + [] == events;
    OperandReads(words + [STALL], events, operand);
  }

  /** The headers that the machine can report. */
  predicate Readable(e: Event) {
    e.Header? ==> 1 <= e.count <= 1024 && 0 <= e.address < 0x1_0000
  }

  predicate AllReadable(events: seq<Event>) {
    forall i :: 0 <= i < |events| ==> Readable(events[i])
  }

  lemma {:induction false} DecodedAreReadable(words: seq<Word>)
    ensures Decode(words).Decoded? ==> AllReadable(Decode(words).events)
  {
    if words != [] {
      DecodedAreReadable(words[..|words| - 1]);
    }
  }
}
