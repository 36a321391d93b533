/** Sections written one after the other through one OutSide cursor. */
module SectionChaining {
  import opened Sequences
  import opened CommandWord
  import opened CommandStream
  import opened TempBatch

  /** The same state behind `pre`, words and log entries written earlier. */
  function Behind(words: seq<Word>, delta: seq<Delta>, s: State): State {
    State(words + s.words, |words| + s.base, delta + s.delta)
  }

  function Relocated(words: seq<Word>, delta: seq<Delta>, r: Outcome<State>): Outcome<State> {
    if r.Ok? then Ok(Behind(words, delta, r.value)) else AssertFailed
  }

  lemma AppendRelocates(words: seq<Word>, delta: seq<Delta>, s: State, ws: seq<Word>, ds: seq<Delta>)
    ensures Behind(words, delta, s.(words := s.words + ws, delta := s.delta + ds))
         == Behind(words, delta, s).(words := words + s.words + ws, delta := delta + s.delta + ds)
    ensures s.delta + [] == s.delta && delta + s.delta + [] == delta + s.delta
  {
    assert words + (s.words + ws) == words + s.words + ws;
    assert delta + (s.delta + ds) == delta + s.delta + ds;
  }

  lemma BeginRelocates(b: Build, words: seq<Word>, delta: seq<Delta>, s: State,
                       fixedPoint: bool, address: Word, count: Word)
    ensures BeginStateBatch(b, Behind(words, delta, s), fixedPoint, address, count)
         == Relocated(words, delta, BeginStateBatch(b, s, fixedPoint, address, count))
  {
    AppendRelocates(words, delta, s, [LoadState(fixedPoint, count, address)], []);
  }

  lemma EndRelocates(b: Build, words: seq<Word>, delta: seq<Delta>, s: State)
    ensures EndStateBatch(b, Behind(words, delta, s)) == Relocated(words, delta, EndStateBatch(b, s))
  {
  }

  lemma SetRelocates(b: Build, words: seq<Word>, delta: seq<Delta>, s: State, kind: Kind, address: Word, data: Size)
    ensures SetState(b, Behind(words, delta, s), kind, address, data)
         == Relocated(words, delta, SetState(b, s, kind, address, data))
  {
    var w := Truncate(data);
    AppendRelocates(words, delta, s, [w], DeltaOf(kind, address, w));
  }

  lemma SetFastRelocates(b: Build, words: seq<Word>, delta: seq<Delta>, s: State,
                         kind: FastKind, address: Word, data: Size)
    ensures SetStateFast(b, Behind(words, delta, s), kind, address, data)
         == Relocated(words, delta, SetStateFast(b, s, kind, address, data))
  {
    AppendRelocates(words, delta, s, [Truncate(data)], []);
  }

  lemma SingleRelocates(b: Build, words: seq<Word>, delta: seq<Delta>, s: State,
                        kind: Kind, fixedPoint: bool, address: Word, data: Size)
    ensures SetSingleState(b, Behind(words, delta, s), kind, fixedPoint, address, data)
         == Relocated(words, delta, SetSingleState(b, s, kind, fixedPoint, address, data))
  {
    BeginRelocates(b, words, delta, s, fixedPoint, address, 1);
    var s1 := BeginStateBatch(b, s, fixedPoint, address, 1);
    if s1.Ok? {
      SetRelocates(b, words, delta, s1.value, kind, address, data);
      var s2 := SetState(b, s1.value, kind, address, data);
      if s2.Ok? { EndRelocates(b, words, delta, s2.value); }
    }
  }

  lemma SingleFastRelocates(b: Build, words: seq<Word>, delta: seq<Delta>, s: State,
                            kind: FastKind, fixedPoint: bool, address: Word, data: Size)
    ensures SetSingleStateFast(b, Behind(words, delta, s), kind, fixedPoint, address, data)
         == Relocated(words, delta, SetSingleStateFast(b, s, kind, fixedPoint, address, data))
  {
    BeginRelocates(b, words, delta, s, fixedPoint, address, 1);
    var s1 := BeginStateBatch(b, s, fixedPoint, address, 1);
    if s1.Ok? {
      SetFastRelocates(b, words, delta, s1.value, kind, address, data);
      var s2 := SetStateFast(b, s1.value, kind, address, data);
      if s2.Ok? { EndRelocates(b, words, delta, s2.value); }
    }
  }

  lemma CtrlStatesRelocate(b: Build, words: seq<Word>, delta: seq<Delta>, s: State,
                           fixedPoint: bool, address: Word, datas: Datas)
    ensures SetCtrlStates(b, Behind(words, delta, s), fixedPoint, address, datas)
         == Relocated(words, delta, SetCtrlStates(b, s, fixedPoint, address, datas))
  {
    BeginRelocates(b, words, delta, s, fixedPoint, address, |datas|);
    var s1 := BeginStateBatch(b, s, fixedPoint, address, |datas|);
    if s1.Ok? {
      AppendRelocates(words, delta, s1.value, Truncated(datas), []);
      EndRelocates(b, words, delta, s1.value.(words := s1.value.words + Truncated(datas)));
    }
  }

  lemma StepRelocates(b: Build, words: seq<Word>, delta: seq<Delta>, s: State, op: Op)
    ensures Step(b, Behind(words, delta, s), op) == Relocated(words, delta, Step(b, s, op))
  {
    match op
    case Begin(fixedPoint, address, count) => BeginRelocates(b, words, delta, s, fixedPoint, address, count);
    case End => EndRelocates(b, words, delta, s);
    case Set(kind, address, data) => SetRelocates(b, words, delta, s, kind, address, data);
    case SetFast(kind, address, data) => SetFastRelocates(b, words, delta, s, kind, address, data);
    case Filler => AppendRelocates(words, delta, s, [FILLER], []);
    case Single(kind, fixedPoint, address, data) =>
      SingleRelocates(b, words, delta, s, kind, fixedPoint, address, data);
    case SingleFast(kind, fixedPoint, address, data) =>
      SingleFastRelocates(b, words, delta, s, kind, fixedPoint, address, data);
    case Block(fixedPoint, address, data, count) =>
      CtrlStatesRelocate(b, words, delta, s, fixedPoint, address, seq(count, _ => data));
    case CtrlStates(fixedPoint, address, datas) => CtrlStatesRelocate(b, words, delta, s, fixedPoint, address, datas);
    case SemaStall(data) =>
      SingleRelocates(b, words, delta, s, Ctrl, false, SEMAPHORE_ADDRESS, data);
      var s1 := SetSingleState(b, s, Ctrl, false, SEMAPHORE_ADDRESS, data);
      if s1.Ok? {
        AppendRelocates(words, delta, s1.value, [STALL], []);
        AppendRelocates(words, delta, Emit(s1.value, STALL), [Truncate(data)], []);
      }
  }

  lemma {:induction false} RunRelocates(b: Build, words: seq<Word>, delta: seq<Delta>, s: State, ops: seq<Op>)
    ensures Run(b, Behind(words, delta, s), ops) == Relocated(words, delta, Run(b, s, ops))
  {
    if ops != [] {
      var init := ops[..|ops| - 1];
      RunRelocates(b, words, delta, s, init);
      if Run(b, s, init).Ok? {
        StepRelocates(b, words, delta, Run(b, s, init).value, ops[|ops| - 1]);
      }
    }
  }

  /** Every section passes alone, in a buffer of its own. */
  predicate AllPass(b: Build, sections: seq<seq<Op>>) {
    sections != [] ==>
      AllPass(b, sections[..|sections| - 1]) && Run(b, EMPTY, sections[|sections| - 1]).Ok?
  }

  function Streams(b: Build, sections: seq<seq<Op>>): seq<Word>
    requires AllPass(b, sections)
  {
    if sections == [] then []
    else
      var n := |sections| - 1;
      Streams(b, sections[..n]) + Run(b, EMPTY, sections[n]).value.words
  }

  function Logs(b: Build, sections: seq<seq<Op>>): seq<Delta>
    requires AllPass(b, sections)
  {
    if sections == [] then []
    else
      var n := |sections| - 1;
      Logs(b, sections[..n]) + Run(b, EMPTY, sections[n]).value.delta
  }

  lemma SectionAppends(b: Build, s: State, section: seq<Op>)
    ensures Run(b, OpenSection(s), section).Ok? <==> Run(b, EMPTY, section).Ok?
    ensures Run(b, EMPTY, section).Ok? ==>
      && Run(b, OpenSection(s), section).value.words == s.words + Run(b, EMPTY, section).value.words
      && Run(b, OpenSection(s), section).value.delta == s.delta + Run(b, EMPTY, section).value.delta
  {
    RunRelocates(b, s.words, s.delta, EMPTY, section);
    assert Behind(s.words, s.delta, EMPTY) == OpenSection(s);
  }

  /** Sections through one cursor pass exactly when each passes alone, and write the concatenation
      of their separate streams, whatever the parity of the first cursor. */
  lemma {:induction false} SectionsConcatenate(b: Build, s: State, sections: seq<seq<Op>>)
    ensures RunSections(b, s, sections).Ok? <==> AllPass(b, sections)
    ensures AllPass(b, sections) ==>
      && RunSections(b, s, sections).value.words == s.words + Streams(b, sections)
      && RunSections(b, s, sections).value.delta == s.delta + Logs(b, sections)
  {
    if sections != [] {
      var n := |sections| - 1;
      var init, last := sections[..n], sections[n];
      SectionsConcatenate(b, s, init);
      if AllPass(b, init) {
        SectionAppends(b, RunSections(b, s, init).value, last);
        if Run(b, EMPTY, last).Ok? {
          var one := Run(b, EMPTY, last).value;
          ConcatAssociates(s.words, Streams(b, init), one.words);
          ConcatAssociates(s.delta, Logs(b, init), one.delta);
        }
      }
    }
  }

  // ----- Where sections start -----

  /** How many words a macro writes. */
  function Width(op: Op): nat {
    match op
    case End => 0
    case Single(_, _, _, _) => 2
    case SingleFast(_, _, _, _) => 2
    case Block(_, _, _, count) => 1 + count
    case CtrlStates(_, _, datas) => 1 + |datas|
    case SemaStall(_) => 4
    case _ => 1
  }

  function Total(section: seq<Op>): nat {
    if section == [] then 0 else Total(section[..|section| - 1]) + Width(section[|section| - 1])
  }

  function TotalOfAll(sections: seq<seq<Op>>): nat {
    if sections == [] then 0 else TotalOfAll(sections[..|sections| - 1]) + Total(sections[|sections| - 1])
  }

  lemma StepGrows(b: Build, s: State, op: Op)
    requires Step(b, s, op).Ok?
    ensures |Step(b, s, op).value.words| == |s.words| + Width(op)
  {
  }

  lemma {:induction false} RunGrows(b: Build, s: State, section: seq<Op>)
    requires Run(b, s, section).Ok?
    ensures |Run(b, s, section).value.words| == |s.words| + Total(section)
  {
    if section != [] {
      var init := section[..|section| - 1];
      RunGrows(b, s, init);
      StepGrows(b, Run(b, s, init).value, section[|section| - 1]);
    }
  }

  lemma {:induction false} SectionsGrow(b: Build, s: State, sections: seq<seq<Op>>)
    requires RunSections(b, s, sections).Ok?
    ensures |RunSections(b, s, sections).value.words| == |s.words| + TotalOfAll(sections)
  {
    if sections != [] {
      var init := sections[..|sections| - 1];
      SectionsGrow(b, s, init);
      RunGrows(b, OpenSection(RunSections(b, s, init).value), sections[|sections| - 1]);
    }
  }

  lemma SectionsOfPrefix(b: Build, s: State, sections: seq<seq<Op>>, k: nat)
    requires k < |sections|
    ensures RunSections(b, s, sections[..k + 1]) ==
      if RunSections(b, s, sections[..k]).AssertFailed? then AssertFailed
      else Run(b, OpenSection(RunSections(b, s, sections[..k]).value), sections[k])
  {
    assert sections[..k + 1][..k] == sections[..k];
  }

  lemma {:induction false} StoppedSections(b: Build, s: State, sections: seq<seq<Op>>, k: nat)
    requires k <= |sections| && RunSections(b, s, sections[..k]).AssertFailed?
    ensures RunSections(b, s, sections).AssertFailed?
  {
    if k == |sections| {
      assert sections[..k] == sections;
    } else {
      var init := sections[..|sections| - 1];
      assert init[..k] == sections[..k];
      StoppedSections(b, s, init, k);
    }
  }

  lemma {:induction false} TotalOfPrefix(section: seq<Op>, k: nat)
    requires k < |section|
    ensures Total(section[..k]) + Width(section[k]) == Total(section[..k + 1]) <= Total(section)
  {
    assert section[..k + 1][..k] == section[..k];
    var n := |section| - 1;
    if k < n {
      TotalOfPrefix(section[..n], k);
      assert section[..n][..k + 1] == section[..k + 1];
    } else {
      assert section[..k + 1] == section;
    }
  }

  lemma RunOfPrefix(b: Build, s: State, section: seq<Op>, k: nat)
    requires k < |section|
    ensures Run(b, s, section[..k + 1]) ==
      if Run(b, s, section[..k]).Ok? then Step(b, Run(b, s, section[..k]).value, section[k]) else AssertFailed
  {
    assert section[..k + 1][..k] == section[..k];
  }

  /** A run that has stopped stays stopped. */
  lemma {:induction false} StoppedRun(b: Build, s: State, section: seq<Op>, k: nat)
    requires k <= |section| && Run(b, s, section[..k]).AssertFailed?
    ensures Run(b, s, section).AssertFailed?
  {
    if k == |section| {
      assert section[..k] == section;
    } else {
      var init := section[..|section| - 1];
      assert init[..k] == section[..k];
      StoppedRun(b, s, init, k);
    }
  }

  /** The first k sections end on a 64-bit boundary, where section k, or whatever follows the last,
      starts. */
  predicate StartsAligned(b: Build, s: State, sections: seq<seq<Op>>, k: nat)
    requires k <= |sections|
  {
    var r := RunSections(b, s, sections[..k]);
    r.Ok? && OpenSection(r.value).base % 2 == 0
  }

  predicate IsEven(section: seq<Op>) {
    Total(section) % 2 == 0
  }

  predicate AllStartAligned(b: Build, s: State, sections: seq<seq<Op>>) {
    forall k: nat :: k <= |sections| ==> StartsAligned(b, s, sections, k)
  }

  predicate AllEven(sections: seq<seq<Op>>) {
    forall i :: 0 <= i < |sections| ==> IsEven(sections[i])
  }

  lemma PrefixLength(b: Build, s: State, sections: seq<seq<Op>>, k: nat)
    requires k <= |sections| && RunSections(b, s, sections).Ok?
    ensures RunSections(b, s, sections[..k]).Ok?
    ensures |RunSections(b, s, sections[..k]).value.words| == |s.words| + TotalOfAll(sections[..k])
  {
    if RunSections(b, s, sections[..k]).AssertFailed? { StoppedSections(b, s, sections, k); }
    SectionsGrow(b, s, sections[..k]);
  }

  lemma EvenSum(x: nat, y: nat)
    requires x % 2 == 0
    ensures (x + y) % 2 == 0 <==> y % 2 == 0
  {
  }

  lemma StartOf(b: Build, s: State, sections: seq<seq<Op>>, k: nat)
    requires |s.words| % 2 == 0 && k <= |sections| && RunSections(b, s, sections).Ok?
    ensures StartsAligned(b, s, sections, k) <==> TotalOfAll(sections[..k]) % 2 == 0
  {
    var total := TotalOfAll(sections[..k]);
    PrefixLength(b, s, sections, k);
    assert OpenSection(RunSections(b, s, sections[..k]).value).base == |s.words| + total;
    EvenSum(|s.words|, total);
  }

  lemma {:induction false} PrefixTotals(sections: seq<seq<Op>>, k: nat)
    requires k < |sections|
    ensures TotalOfAll(sections[..k]) + Total(sections[k]) == TotalOfAll(sections[..k + 1]) <= TotalOfAll(sections)
  {
    assert sections[..k + 1][..k] == sections[..k];
    var n := |sections| - 1;
    if k < n {
      PrefixTotals(sections[..n], k);
      assert sections[..n][..k + 1] == sections[..k + 1];
    } else {
      assert sections[..k + 1] == sections;
    }
  }

  lemma {:induction false} EvenTotals(sections: seq<seq<Op>>, k: nat)
    requires k <= |sections| && AllEven(sections)
    ensures TotalOfAll(sections[..k]) % 2 == 0
  {
    if k > 0 {
      EvenTotals(sections, k - 1);
      PrefixTotals(sections, k - 1);
      assert IsEven(sections[k - 1]);
    }
  }

  lemma EvenDifference(x: nat, y: nat, z: nat)
    requires x % 2 == 0 && z % 2 == 0 && x + y == z
    ensures y % 2 == 0
  {
  }

  lemma BetweenAlignedStarts(b: Build, s: State, sections: seq<seq<Op>>, i: nat)
    requires |s.words| % 2 == 0 && i < |sections| && RunSections(b, s, sections).Ok?
    requires StartsAligned(b, s, sections, i) && StartsAligned(b, s, sections, i + 1)
    ensures IsEven(sections[i])
  {
    StartOf(b, s, sections, i);
    StartOf(b, s, sections, i + 1);
    PrefixTotals(sections, i);
    EvenDifference(TotalOfAll(sections[..i]), Total(sections[i]), TotalOfAll(sections[..i + 1]));
  }

  lemma AfterEvenSections(b: Build, s: State, sections: seq<seq<Op>>, k: nat)
    requires |s.words| % 2 == 0 && k <= |sections| && RunSections(b, s, sections).Ok?
    requires AllEven(sections)
    ensures StartsAligned(b, s, sections, k)
  {
    EvenTotals(sections, k);
    StartOf(b, s, sections, k);
  }

  /** From an even cursor, in any build: every section, and whatever follows the last, starts on a
      64-bit boundary exactly when each section's words are even in number. */
  lemma SectionsAlignedExactlyWhenEven(b: Build, s: State, sections: seq<seq<Op>>)
    requires |s.words| % 2 == 0 && RunSections(b, s, sections).Ok?
    ensures AllStartAligned(b, s, sections) <==> AllEven(sections)
  {
    if AllStartAligned(b, s, sections) {
      forall i: nat | i < |sections| ensures IsEven(sections[i]) {
        BetweenAlignedStarts(b, s, sections, i);
      }
    }
    if AllEven(sections) {
      forall k: nat | k <= |sections| ensures StartsAligned(b, s, sections, k) {
        AfterEvenSections(b, s, sections, k);
      }
    }
  }

  /** The macros that end with the alignment check, and the semaphore-stall, which adds two words to one. */
  predicate Closes(op: Op) {
    op.End? || op.Single? || op.SingleFast? || op.Block? || op.CtrlStates? || op.SemaStall?
  }

  predicate Closed(section: seq<Op>) {
    section == [] || Closes(section[|section| - 1])
  }

  predicate AllClosed(sections: seq<seq<Op>>) {
    forall i :: 0 <= i < |sections| ==> Closed(sections[i])
  }

  lemma ClosingStepIsEven(s: State, op: Op)
    requires s.base == 0 && Closes(op) && Step(FULL_DEBUG, s, op).Ok?
    ensures |Step(FULL_DEBUG, s, op).value.words| % 2 == 0
  {
  }

  lemma StepKeepsBase(s: State, op: Op)
    requires Step(FULL_DEBUG, s, op).Ok?
    ensures Step(FULL_DEBUG, s, op).value.base == s.base
  {
  }

  lemma {:induction false} RunKeepsBase(section: seq<Op>)
    requires Run(FULL_DEBUG, EMPTY, section).Ok?
    ensures Run(FULL_DEBUG, EMPTY, section).value.base == 0
  {
    if section != [] {
      var init := section[..|section| - 1];
      RunKeepsBase(init);
      StepKeepsBase(Run(FULL_DEBUG, EMPTY, init).value, section[|section| - 1]);
    }
  }

  lemma ClosedSectionIsEven(section: seq<Op>)
    requires Closed(section) && Run(FULL_DEBUG, EMPTY, section).Ok?
    ensures IsEven(section)
  {
    RunGrows(FULL_DEBUG, EMPTY, section);
    if section != [] {
      var init := section[..|section| - 1];
      RunKeepsBase(init);
      ClosingStepIsEven(Run(FULL_DEBUG, EMPTY, init).value, section[|section| - 1]);
    }
  }

  lemma {:induction false} PassesAlone(sections: seq<seq<Op>>, i: nat)
    requires i < |sections| && AllPass(FULL_DEBUG, sections)
    ensures Run(FULL_DEBUG, EMPTY, sections[i]).Ok?
  {
    if i < |sections| - 1 { PassesAlone(sections[..|sections| - 1], i); }
  }

  /** What callers rely on: under full debugging it is enough that every section ends with a closing
      macro. */
  lemma SectionsStartAligned(s: State, sections: seq<seq<Op>>, k: nat)
    requires |s.words| % 2 == 0 && k <= |sections|
    requires RunSections(FULL_DEBUG, s, sections).Ok? && AllClosed(sections)
    ensures StartsAligned(FULL_DEBUG, s, sections, k)
  {
    SectionsConcatenate(FULL_DEBUG, s, sections);
    forall i | 0 <= i < |sections| ensures IsEven(sections[i]) {
      PassesAlone(sections, i);
      ClosedSectionIsEven(sections[i]);
    }
    SectionsAlignedExactlyWhenEven(FULL_DEBUG, s, sections);
  }

  /** What full debugging asks of the next macro of a section, at a given distance from its start. */
  predicate Legal(offset: int, op: Op) {
    match op
    case Begin(_, _, count) => offset % 2 == 0 && count <= 1024
    case End => offset % 2 == 0
    case Set(_, _, data) => Fits(data)
    case SetFast(kind, _, data) => kind.FastPlain? ==> Fits(data)
    case Filler => true
    case Single(_, _, _, data) => offset % 2 == 0 && Fits(data)
    case SingleFast(kind, _, _, data) => offset % 2 == 0 && (kind.FastPlain? ==> Fits(data))
    case Block(_, _, data, count) => offset % 2 == 0 && count % 2 == 1 && count <= 1024 && Fits(data)
    case CtrlStates(_, _, datas) => offset % 2 == 0 && |datas| % 2 == 1 && |datas| <= 1024 && AllFit(datas)
    case SemaStall(data) => offset % 2 == 0 && Fits(data)
  }

  lemma CtrlStatesLegal(s: State, fixedPoint: bool, address: Word, datas: Datas)
    ensures SetCtrlStates(FULL_DEBUG, s, fixedPoint, address, datas).Ok?
       <==> Legal(|s.words| - s.base, CtrlStates(fixedPoint, address, datas))
  {
  }

  lemma BlockLegal(s: State, fixedPoint: bool, address: Word, data: Size, count: Word)
    ensures SetBlockCtrlState(FULL_DEBUG, s, fixedPoint, address, data, count).Ok?
       <==> Legal(|s.words| - s.base, Block(fixedPoint, address, data, count))
  {
    var datas: Datas := seq(count, _ => data);
    CtrlStatesLegal(s, fixedPoint, address, datas);
    if count > 0 { assert AllFit(datas) <==> Fits(datas[0]); }
  }

  lemma SingleLegal(s: State, kind: Kind, fixedPoint: bool, address: Word, data: Size)
    ensures SetSingleState(FULL_DEBUG, s, kind, fixedPoint, address, data).Ok?
       <==> Legal(|s.words| - s.base, Single(kind, fixedPoint, address, data))
  {
  }

  lemma SingleFastLegal(s: State, kind: FastKind, fixedPoint: bool, address: Word, data: Size)
    ensures SetSingleStateFast(FULL_DEBUG, s, kind, fixedPoint, address, data).Ok?
       <==> Legal(|s.words| - s.base, SingleFast(kind, fixedPoint, address, data))
  {
  }

  lemma SemaStallLegal(s: State, data: Size)
    ensures SetSemaStallPipe(FULL_DEBUG, s, data).Ok? <==> Legal(|s.words| - s.base, SemaStall(data))
  {
    SingleLegal(s, Ctrl, false, SEMAPHORE_ADDRESS, data);
  }

  lemma StepIsLegal(s: State, op: Op)
    ensures Step(FULL_DEBUG, s, op).Ok? <==> Legal(|s.words| - s.base, op)
  {
    match op
    case Single(kind, fixedPoint, address, data) => SingleLegal(s, kind, fixedPoint, address, data);
    case SingleFast(kind, fixedPoint, address, data) => SingleFastLegal(s, kind, fixedPoint, address, data);
    case Block(fixedPoint, address, data, count) => BlockLegal(s, fixedPoint, address, data, count);
    case CtrlStates(fixedPoint, address, datas) => CtrlStatesLegal(s, fixedPoint, address, datas);
    case SemaStall(data) => SemaStallLegal(s, data);
    case _ =>
  }

  /** Anywhere in a section the next macro is accepted exactly when it is legal: in particular every
      header stands on a 64-bit boundary of its section, and every block has an odd count. */
  lemma AcceptsExactlyTheLegal(section: seq<Op>, op: Op)
    requires Run(FULL_DEBUG, EMPTY, section).Ok?
    ensures Run(FULL_DEBUG, EMPTY, section + [op]).Ok?
       <==> Legal(|Run(FULL_DEBUG, EMPTY, section).value.words|, op)
  {
    assert (section + [op])[..|section|] == section;
    RunKeepsBase(section);
    StepIsLegal(Run(FULL_DEBUG, EMPTY, section).value, op);
  }

  /** What a build asks of the next macro, in numbers: nothing without assertions, no alignment without
      tracking. */
  predicate LegalIn(b: Build, offset: int, op: Op) {
    var aligned := b.tracking ==> offset % 2 == 0;
    b.asserts ==>
      match op
      case Begin(_, _, count) => aligned && count <= 1024
      case End => aligned
      case Set(_, _, data) => data < 0x1_0000_0000
      case SetFast(kind, _, data) => kind.FastPlain? ==> data < 0x1_0000_0000
      case Filler => true
      case Single(_, _, _, data) => aligned && data < 0x1_0000_0000
      case SingleFast(kind, _, _, data) => aligned && (kind.FastPlain? ==> data < 0x1_0000_0000)
      case Block(_, _, data, count) =>
        aligned && (b.tracking ==> count % 2 == 1) && count <= 1024 && (count > 0 ==> data < 0x1_0000_0000)
      case CtrlStates(_, _, datas) =>
        && aligned && (b.tracking ==> |datas| % 2 == 1) && |datas| <= 1024
        && forall i :: 0 <= i < |datas| ==> datas[i] < 0x1_0000_0000
      case SemaStall(data) => aligned && data < 0x1_0000_0000
  }

  lemma CtrlStatesLegalIn(b: Build, s: State, fixedPoint: bool, address: Word, datas: Datas)
    ensures SetCtrlStates(b, s, fixedPoint, address, datas).Ok?
       <==> LegalIn(b, |s.words| - s.base, CtrlStates(fixedPoint, address, datas))
  {
    assert AllFit(datas) <==> forall i :: 0 <= i < |datas| ==> datas[i] < 0x1_0000_0000;
  }

  lemma BlockLegalIn(b: Build, s: State, fixedPoint: bool, address: Word, data: Size, count: Word)
    ensures SetBlockCtrlState(b, s, fixedPoint, address, data, count).Ok?
       <==> LegalIn(b, |s.words| - s.base, Block(fixedPoint, address, data, count))
  {
    var datas: Datas := seq(count, _ => data);
    CtrlStatesLegalIn(b, s, fixedPoint, address, datas);
    if count > 0 { assert datas[0] == data; }
  }

  lemma SingleLegalIn(b: Build, s: State, kind: Kind, fixedPoint: bool, address: Word, data: Size)
    ensures SetSingleState(b, s, kind, fixedPoint, address, data).Ok?
       <==> LegalIn(b, |s.words| - s.base, Single(kind, fixedPoint, address, data))
  {
  }

  lemma SingleFastLegalIn(b: Build, s: State, kind: FastKind, fixedPoint: bool, address: Word, data: Size)
    ensures SetSingleStateFast(b, s, kind, fixedPoint, address, data).Ok?
       <==> LegalIn(b, |s.words| - s.base, SingleFast(kind, fixedPoint, address, data))
  {
  }

  /** Every build accepts a macro exactly when that is met. */
  lemma AcceptsExactlyIn(b: Build, s: State, op: Op)
    ensures Step(b, s, op).Ok? <==> LegalIn(b, |s.words| - s.base, op)
  {
    match op
    case Single(kind, fixedPoint, address, data) => SingleLegalIn(b, s, kind, fixedPoint, address, data);
    case SingleFast(kind, fixedPoint, address, data) => SingleFastLegalIn(b, s, kind, fixedPoint, address, data);
    case Block(fixedPoint, address, data, count) => BlockLegalIn(b, s, fixedPoint, address, data, count);
    case CtrlStates(fixedPoint, address, datas) => CtrlStatesLegalIn(b, s, fixedPoint, address, datas);
    case SemaStall(data) => SingleLegalIn(b, s, Ctrl, false, SEMAPHORE_ADDRESS, data);
    case _ =>
  }

  /** Builds without assertions never stop. */
  lemma {:induction false} NeverStops(b: Build, s: State, section: seq<Op>)
    requires !b.asserts
    ensures Run(b, s, section).Ok?
  {
    if section != [] {
      var init := section[..|section| - 1];
      NeverStops(b, s, init);
      AcceptsExactlyIn(b, Run(b, s, init).value, section[|section| - 1]);
    }
  }

  /** A lone filler passes every check and leaves the next section misaligned; two of them, though
      not closed, leave it aligned. */
  lemma TrailingFillerMisaligns()
    ensures RunSections(FULL_DEBUG, EMPTY, [[Filler]]).Ok? && !StartsAligned(FULL_DEBUG, EMPTY, [[Filler]], 1)
    ensures !Closed([Filler, Filler]) && IsEven([Filler, Filler])
  {
    var section: seq<Op> := [Filler];
    var pair: seq<Op> := [Filler, Filler];
    assert section[..0] == [] && pair[..1] == section && Total(section) == 1;
    SectionsConcatenate(FULL_DEBUG, EMPTY, [section]);
    assert Run(FULL_DEBUG, EMPTY, []) == Ok(EMPTY);
    assert AllPass(FULL_DEBUG, []) && [section][..0] == [];
    StartOf(FULL_DEBUG, EMPTY, [section], 1);
    PrefixTotals([section], 0);
  }
}
