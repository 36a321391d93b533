/** State writes among events, and the delta log that they should leave. */
module WriteLog {
  import opened Bits
  import opened CommandWord
  import opened CommandStream
  import opened FrontEnd

  /** The state writes among the events, in order. */
  function Writes(events: seq<Event>): seq<(int, Word)> {
    if events == [] then []
    else Writes(events[..|events| - 1]) +
         match events[|events| - 1] {
           case Write(address, data) => [(address, data)]
           case _ => []
         }
  }

  /** The log that the writes should leave: one entry for each that is not a control write. */
  function LogOf(kinds: seq<Kind>, writes: seq<(int, Word)>): seq<Delta>
    requires |kinds| == |writes|
  {
    if kinds == [] then []
    else
      var n := |kinds| - 1;
      var (address, data) := writes[n];
      LogOf(kinds[..n], writes[..n]) + DeltaOf(kinds[n], address % 0x1_0000_0000, data)
  }

  lemma {:induction false} WritesOfConcat(xs: seq<Event>, ys: seq<Event>)
    ensures Writes(xs + ys) == Writes(xs) + Writes(ys)
  {
    if ys == [] {
      assert xs + ys == xs;
    } else {
      var n := |ys| - 1;
      assert (xs + ys)[..|xs| + n] == xs + ys[..n];
      WritesOfConcat(xs, ys[..n]);
    }
  }

  lemma WritesOfOne(e: Event)
    ensures Writes([e]) == match e { case Write(address, data) => [(address, data)] case _ => [] }
  {
    assert [e][..0] == [];
  }

  lemma LogSnoc(kinds: seq<Kind>, writes: seq<(int, Word)>, kind: Kind, address: Word, data: Word)
    requires |kinds| == |writes|
    ensures LogOf(kinds + [kind], writes + [(address, data)]) == LogOf(kinds, writes) + DeltaOf(kind, address, data)
  {
    var ks, ws := kinds + [kind], writes + [(address, data)];
    assert ks[..|kinds|] == kinds && ws[..|writes|] == writes;
    assert ws[|writes|] == (address, data) && ks[|kinds|] == kind;
    QuotientUnique(address, 0x1_0000_0000, 0, address);
  }
}
