/** What the two families of state-loading macros share: build switches, assertions,
    kinds of state write, the state delta log. */
module CommandStream {
  import opened CommandWord

  /** A gctSIZE_T on a 64-bit build. */
  type Size = n: nat | n < 0x1_0000_0000_0000_0000

  /** gcdDEBUG_CODE switches the tracking fields, gcdDEBUG_ASSERT the assertions. */
  datatype Build = Build(tracking: bool, asserts: bool)

  const FULL_DEBUG := Build(true, true)

  /** The result of a macro; a failing gcmASSERT stops the run. */
  datatype Outcome<+T> = Ok(value: T) | AssertFailed {
    predicate IsFailure() {
      AssertFailed?
    }

    function PropagateFailure<U>(): Outcome<U>
      requires AssertFailed?
    {
      AssertFailed
    }

    function Extract(): T
      requires Ok?
    {
      value
    }
  }

  /** gcmASSERT stops the run: never, unless the build asserts. */
  predicate Trips(b: Build, condition: bool) {
    b.asserts && !condition
  }

  predicate Fits(data: Size) {
    data < 0x1_0000_0000
  }

  /** The conversion to gctUINT32 that gcmSAFECASTSIZET makes once its assertion has passed. */
  function Truncate(data: Size): Word {
    data % 0x1_0000_0000
  }

  /** The three data macros: SETSTATEDATA, SETSTATEDATAWITHMASK and SETCTRLSTATE. */
  datatype Kind = Plain | Masked(mask: Word) | Ctrl

  datatype Delta = Delta(address: Word, mask: Word, data: Word)

  /** The gcoHARDWARE_UpdateDelta calls made for one data word; control states make none. */
  function DeltaOf(kind: Kind, address: Word, data: Word): seq<Delta> {
    match kind
    case Plain => [Delta(address, 0, data)]
    case Masked(mask) => [Delta(address, mask, data)]
    case Ctrl => []
  }
}
