/** gcQueryFeatureDB: a two-pass lookup of a chip in the feature table. */
module FeatureDatabase {
  import opened Bits
  import opened CommandWord

  /** The columns that the lookup reads; `features` stands for all the others. */
  datatype Row = Row(chipID: Word, chipVersion: Word, productID: Word, ecoID: Word, customerID: Word,
                     formalRelease: Word, features: int)

  datatype Query = Query(chipID: Word, chipVersion: Word, productID: Word, ecoID: Word, customerID: Word)

  const VERSION_MASK: nat := 0xFFF0

  predicate SameChip(row: Row, q: Query) {
    && row.chipID == q.chipID && row.productID == q.productID
    && row.ecoID == q.ecoID && row.customerID == q.customerID
  }

  predicate FormalMatch(row: Row, q: Query) {
    SameChip(row, q) && row.chipVersion == q.chipVersion && row.formalRelease != 0
  }

  predicate InformalMatch(row: Row, q: Query) {
    SameChip(row, q) && And(row.chipVersion, VERSION_MASK) == And(q.chipVersion, VERSION_MASK) && row.formalRelease == 0
  }

  /** Index i holds the first row of the table with the property. */
  ghost predicate IsFirst(table: seq<Row>, matches: Row -> bool, i: int) {
    0 <= i < |table| && matches(table[i]) && forall j :: 0 <= j < i ==> !matches(table[j])
  }

  ghost predicate NoneMatches(table: seq<Row>, matches: Row -> bool) {
    forall j :: 0 <= j < |table| ==> !matches(table[j])
  }

  /** The index that the query returns, or none for gcvNULL. */
  datatype Found = At(index: nat) | Null

  ghost predicate Answers(table: seq<Row>, q: Query, found: Found) {
    match found
    case At(i) =>
      || IsFirst(table, row => FormalMatch(row, q), i)
      || (NoneMatches(table, row => FormalMatch(row, q)) && IsFirst(table, row => InformalMatch(row, q), i))
    case Null =>
      NoneMatches(table, row => FormalMatch(row, q)) && NoneMatches(table, row => InformalMatch(row, q))
  }

  method QueryFeatureDB(gChipInfo: array<Row>, q: Query) returns (found: Found)
    ensures Answers(gChipInfo[..], q, found)
  {
    var entryNum := gChipInfo.Length;
    var i := 0;
    while i < entryNum
      invariant 0 <= i <= entryNum
      invariant forall j :: 0 <= j < i ==> !FormalMatch(gChipInfo[j], q)
    {
      if FormalMatch(gChipInfo[i], q) { return At(i); }
      i := i + 1;
    }
    i := 0;
    while i < entryNum
      invariant 0 <= i <= entryNum
      invariant forall j :: 0 <= j < i ==> !InformalMatch(gChipInfo[j], q)
    {
      if InformalMatch(gChipInfo[i], q) { return At(i); }
      i := i + 1;
    }
    found := Null;
  }

  // ----- Declarative lookup -----

  datatype Option<T> = None | Some(value: T)

  function FirstRow(table: seq<Row>, matches: Row -> bool): Option<Row> {
    if table == [] then None
    else if matches(table[0]) then Some(table[0])
    else FirstRow(table[1..], matches)
  }

  /** The row that the query yields. */
  function Lookup(table: seq<Row>, q: Query): Option<Row> {
    var formal := FirstRow(table, row => FormalMatch(row, q));
    if formal.Some? then formal else FirstRow(table, row => InformalMatch(row, q))
  }

  function RowAt(table: seq<Row>, found: Found): Option<Row>
    requires found.At? ==> found.index < |table|
  {
    match found
    case At(i) => Some(table[i])
    case Null => None
  }

  lemma {:induction false} FirstRowMeaning(table: seq<Row>, matches: Row -> bool)
    ensures FirstRow(table, matches).None? <==> NoneMatches(table, matches)
    ensures FirstRow(table, matches).Some? ==>
      exists i :: IsFirst(table, matches, i) && table[i] == FirstRow(table, matches).value
  {
    if table != [] {
      if matches(table[0]) {
        assert IsFirst(table, matches, 0);
      } else {
        var rest := table[1..];
        FirstRowMeaning(rest, matches);
        assert forall j :: 0 < j < |table| ==> table[j] == rest[j - 1];
        if FirstRow(rest, matches).Some? {
          var i :| IsFirst(rest, matches, i) && rest[i] == FirstRow(rest, matches).value;
          assert IsFirst(table, matches, i + 1);
        }
      }
    }
  }

  lemma FirstIsUnique(table: seq<Row>, matches: Row -> bool, i: int, j: int)
    requires IsFirst(table, matches, i) && IsFirst(table, matches, j)
    ensures i == j
  {
  }

  /** Any answer that meets the method's contract is the row of the declarative lookup. */
  lemma AnswersIsLookup(table: seq<Row>, q: Query, found: Found)
    requires Answers(table, q, found)
    ensures found.At? ==> found.index < |table|
    ensures RowAt(table, found) == Lookup(table, q)
  {
    var formal, informal := (row: Row) => FormalMatch(row, q), (row: Row) => InformalMatch(row, q);
    FirstRowMeaning(table, formal);
    FirstRowMeaning(table, informal);
    if FirstRow(table, formal).Some? {
      var i :| IsFirst(table, formal, i) && table[i] == FirstRow(table, formal).value;
      if found.At? && IsFirst(table, formal, found.index) { FirstIsUnique(table, formal, i, found.index); }
    } else if FirstRow(table, informal).Some? {
      var i :| IsFirst(table, informal, i) && table[i] == FirstRow(table, informal).value;
      if found.At? && IsFirst(table, informal, found.index) { FirstIsUnique(table, informal, i, found.index); }
    }
  }

  // ----- Order of the table -----

  predicate SomeFormal(table: seq<Row>, q: Query) {
    exists row :: row in table && FormalMatch(row, q)
  }

  /** The rows that compete for the answer: formal matches if there are any, else informal ones. */
  predicate Competes(table: seq<Row>, q: Query, row: Row) {
    row in table && if SomeFormal(table, q) then FormalMatch(row, q) else InformalMatch(row, q)
  }

  lemma LookupCompetes(table: seq<Row>, q: Query)
    ensures Lookup(table, q).Some? ==> Competes(table, q, Lookup(table, q).value)
    ensures Lookup(table, q).None? ==> forall row :: !Competes(table, q, row)
  {
    FirstRowMeaning(table, row => FormalMatch(row, q));
    FirstRowMeaning(table, row => InformalMatch(row, q));
  }

  lemma SameRows(table: seq<Row>, permuted: seq<Row>, row: Row)
    requires multiset(table) == multiset(permuted)
    ensures row in table <==> row in permuted
  {
    assert row in table <==> row in multiset(table);
    assert row in permuted <==> row in multiset(permuted);
  }

  lemma PermutationCompetes(table: seq<Row>, permuted: seq<Row>, q: Query, row: Row)
    requires multiset(table) == multiset(permuted)
    ensures Competes(table, q, row) <==> Competes(permuted, q, row)
  {
    forall r: Row ensures r in table <==> r in permuted { SameRows(table, permuted, r); }
  }

  lemma FrontWins(table: seq<Row>, q: Query, row: Row) returns (permuted: seq<Row>)
    requires Competes(table, q, row)
    ensures multiset(permuted) == multiset(table) && Lookup(permuted, q) == Some(row)
  {
    var i :| 0 <= i < |table| && table[i] == row;
    permuted := [row] + (table[..i] + table[i + 1..]);
    assert table == table[..i] + [row] + table[i + 1..];
    PermutationCompetes(table, permuted, q, row);
    var formal := (r: Row) => FormalMatch(r, q);
    FirstRowMeaning(permuted, formal);
    if !FormalMatch(row, q) {
      assert NoneMatches(permuted, formal) by {
        forall j | 0 <= j < |permuted| ensures !formal(permuted[j]) {
          assert permuted[j] in permuted;
        }
      }
    }
  }

  /** The answer does not depend on the order of the table exactly when all competing rows are equal. */
  lemma OrderIndependence(table: seq<Row>, q: Query)
    ensures (forall permuted: seq<Row> ::
              multiset(permuted) == multiset(table) ==> Lookup(permuted, q) == Lookup(table, q))
       <==> (forall r, s :: Competes(table, q, r) && Competes(table, q, s) ==> r == s)
  {
    if forall r, s :: Competes(table, q, r) && Competes(table, q, s) ==> r == s {
      forall permuted: seq<Row> | multiset(permuted) == multiset(table)
        ensures Lookup(permuted, q) == Lookup(table, q)
      {
        LookupCompetes(table, q);
        LookupCompetes(permuted, q);
        forall row: Row ensures Competes(table, q, row) <==> Competes(permuted, q, row) {
          PermutationCompetes(table, permuted, q, row);
        }
      }
    } else {
      var r, s :| Competes(table, q, r) && Competes(table, q, s) && r != s;
      var p1 := FrontWins(table, q, r);
      var p2 := FrontWins(table, q, s);
    }
  }

  /** Two rows of the same class with the same key: exact for formal rows, up to the mask for informal ones. */
  predicate SameKey(r: Row, s: Row) {
    && r.chipID == s.chipID && r.productID == s.productID && r.ecoID == s.ecoID && r.customerID == s.customerID
    && (r.formalRelease != 0 <==> s.formalRelease != 0)
    && if r.formalRelease != 0 then r.chipVersion == s.chipVersion
       else And(r.chipVersion, VERSION_MASK) == And(s.chipVersion, VERSION_MASK)
  }

  /** With keys pairwise distinct within their classes every query is independent of the order. */
  lemma DistinctKeysSuffice(table: seq<Row>, permuted: seq<Row>, q: Query)
    requires forall i, j :: 0 <= i < j < |table| ==> !SameKey(table[i], table[j])
    requires multiset(permuted) == multiset(table)
    ensures Lookup(permuted, q) == Lookup(table, q)
  {
    forall r, s | Competes(table, q, r) && Competes(table, q, s) ensures r == s {
      var i :| 0 <= i < |table| && table[i] == r;
      var j :| 0 <= j < |table| && table[j] == s;
      assert SameKey(r, s) && SameKey(s, r);
    }
    OrderIndependence(table, q);
  }

  /** The mask drops the lowest hexadecimal digit, and everything above the sixteenth bit as well. */
  lemma VersionMaskMeaning(version: Word)
    ensures And(version, VERSION_MASK) == version % 0x1_0000 - version % 16
  {
    PeelMask(version, version / 2, version / 4, version / 8, version / 16);
    LowMask(version / 16, 12);
    DigitSplit(version, version / 16, version % 16);
  }

  lemma DigitSplit(v: nat, high: nat, low: nat)
    requires v == 16 * high + low && low < 16
    ensures 16 * (high % 0x1000) == v % 0x1_0000 - low
  {
    QuotientUnique(v, 0x1_0000, high / 0x1000, 16 * (high % 0x1000) + low);
  }

  lemma PeelMask(x: nat, x2: nat, x4: nat, x8: nat, x16: nat)
    requires x2 == x / 2 && x4 == x2 / 2 && x8 == x4 / 2 && x16 == x8 / 2
    ensures And(x, VERSION_MASK) == 16 * And(x16, 0xFFF)
  {
    AndEven(x, 0x7FF8);
    AndEven(x2, 0x3FFC);
    AndEven(x4, 0x1FFE);
    AndEven(x8, 0xFFF);
  }

  lemma LowMask(x: nat, k: nat)
    requires k == 12
    ensures And(x, 0xFFF) == x % 0x1000
  {
    Pow2Values();
    Pow2Sum(10, 2);
    AndLowMask(x, k);
  }

  // ----- The answer in numbers -----

  lemma LowMaskIsDigits(v: nat, q: nat)
    requires q == v / 16 % 4096
    ensures v % 0x1_0000 - v % 16 == 16 * q
  {
    DigitSplit(v, v / 16, v % 16);
  }

  /** Two versions are equal under the mask exactly when their bits 4 to 15 are. */
  lemma MaskComparesDigits(v: Word, w: Word)
    ensures And(v, VERSION_MASK) == And(w, VERSION_MASK) <==> v / 16 % 4096 == w / 16 % 4096
  {
    VersionMaskMeaning(v);
    VersionMaskMeaning(w);
    LowMaskIsDigits(v, v / 16 % 4096);
    LowMaskIsDigits(w, w / 16 % 4096);
  }

  /** All columns of the row but version and release are those of the query. */
  predicate SameColumns(row: Row, q: Query) {
    row.chipID == q.chipID && row.productID == q.productID && row.ecoID == q.ecoID && row.customerID == q.customerID
  }

  /** An exact formal row: all five columns, and a formal release. */
  predicate IsExactFormal(row: Row, q: Query) {
    SameColumns(row, q) && row.chipVersion == q.chipVersion && row.formalRelease > 0
  }

  /** An informal row whose version agrees in bits 4 to 15. */
  predicate IsNearInformal(row: Row, q: Query) {
    SameColumns(row, q) && row.chipVersion / 16 % 4096 == q.chipVersion / 16 % 4096 && row.formalRelease == 0
  }

  lemma MatchesInNumbers(row: Row, q: Query)
    ensures FormalMatch(row, q) <==> IsExactFormal(row, q)
    ensures InformalMatch(row, q) <==> IsNearInformal(row, q)
  {
    MaskComparesDigits(row.chipVersion, q.chipVersion);
  }

  /** Whatever meets the contract of the method: gcvNULL exactly when the table holds neither an exact
      formal row nor a near informal one; a formal row whenever there is one; else an informal row. */
  lemma AnswerInNumbers(table: seq<Row>, q: Query, found: Found)
    requires Answers(table, q, found)
    ensures found.Null? <==> forall row :: row in table ==> !IsExactFormal(row, q) && !IsNearInformal(row, q)
    ensures found.At? ==> found.index < |table|
    ensures found.At? && (exists row :: row in table && IsExactFormal(row, q)) ==>
      IsExactFormal(table[found.index], q) && forall j :: 0 <= j < found.index ==> !IsExactFormal(table[j], q)
    ensures found.At? && (forall row :: row in table ==> !IsExactFormal(row, q)) ==>
      IsNearInformal(table[found.index], q) && forall j :: 0 <= j < found.index ==> !IsNearInformal(table[j], q)
  {
    forall row: Row
      ensures FormalMatch(row, q) <==> IsExactFormal(row, q)
      ensures InformalMatch(row, q) <==> IsNearInformal(row, q)
    {
      MatchesInNumbers(row, q);
    }
  }

  lemma {:induction false} SameFirstRow(table: seq<Row>, f: Row -> bool, g: Row -> bool)
    requires forall row :: row in table ==> f(row) == g(row)
    ensures FirstRow(table, f) == FirstRow(table, g)
  {
    if table != [] { SameFirstRow(table[1..], f, g); }
  }

  /** Queries whose versions agree in bits 4 to 15, and which no formal row matches exactly, are the
      same query. */
  lemma NearVersionsAgree(table: seq<Row>, q: Query, version: Word)
    requires version / 16 % 4096 == q.chipVersion / 16 % 4096
    requires forall row :: row in table ==> !IsExactFormal(row, q) && !IsExactFormal(row, q.(chipVersion := version))
    ensures Lookup(table, q.(chipVersion := version)) == Lookup(table, q)
  {
    var q' := q.(chipVersion := version);
    forall row | row in table
      ensures !FormalMatch(row, q) && !FormalMatch(row, q')
      ensures InformalMatch(row, q) <==> InformalMatch(row, q')
    {
      MatchesInNumbers(row, q);
      MatchesInNumbers(row, q');
    }
    SameFirstRow(table, row => FormalMatch(row, q), row => FormalMatch(row, q'));
    SameFirstRow(table, row => InformalMatch(row, q), row => InformalMatch(row, q'));
  }

  /** A query for version 0x7120 finds the informal row of version 0x7121. */
  lemma NearRowIsFound()
    ensures Lookup([Row(0x8000, 0x7121, 1, 2, 3, 0, 0)], Query(0x8000, 0x7120, 1, 2, 3))
         == Some(Row(0x8000, 0x7121, 1, 2, 3, 0, 0))
  {
    MatchesInNumbers(Row(0x8000, 0x7121, 1, 2, 3, 0, 0), Query(0x8000, 0x7120, 1, 2, 3));
  }
}
