/** Tile status over the slices of a surface view: the three multi-slice macros. */
module TileStatus {

  /** The fields of a gcoSURF that the macros read. */
  class Surface {
    const requestD: nat
    const poolKnown: bool             // tileStatusNode.pool != gcvPOOL_UNKNOWN
    const tileStatusDisabled: array<bool>
    const fcValue: array<int>
    const fcValueUpper: array<int>

    constructor (requestD: nat, poolKnown: bool, disabled: array<bool>, fcValue: array<int>, fcValueUpper: array<int>)
      ensures this.requestD == requestD && this.poolKnown == poolKnown && tileStatusDisabled == disabled
      ensures this.fcValue == fcValue && this.fcValueUpper == fcValueUpper
    {
      this.requestD := requestD;
      this.poolKnown := poolKnown;
      this.tileStatusDisabled := disabled;
      this.fcValue := fcValue;
      this.fcValueUpper := fcValueUpper;
    }

    /** One entry per slice in each array. */
    predicate Covers(slices: nat) {
      slices <= tileStatusDisabled.Length && slices <= fcValue.Length && slices <= fcValueUpper.Length
    }

    function Read(): Contents
      reads tileStatusDisabled, fcValue, fcValueUpper
    {
      Contents(poolKnown, tileStatusDisabled[..], fcValue[..], fcValueUpper[..])
    }
  }

  /** gcsSURF_VIEW. */
  datatype SurfView = SurfView(surf: Surface, firstSlice: nat, numSlices: nat)

  /** The contents of a surface as values. */
  datatype Contents = Contents(poolKnown: bool, disabled: seq<bool>, fcValue: seq<int>, fcValueUpper: seq<int>)

  predicate Wellformed(s: Contents, n: nat) {
    n <= |s.disabled| && n <= |s.fcValue| && n <= |s.fcValueUpper|
  }

  // ----- What the macros decide -----

  /** Some slice of the range has its tile status enabled. */
  predicate AnyEnabled(s: Contents, first: nat, count: nat)
    requires Wellformed(s, first + count)
  {
    s.poolKnown && exists i :: first <= i < first + count && !s.disabled[i]
  }

  predicate SliceAgrees(s: Contents, i: nat)
    requires i < |s.disabled| && i < |s.fcValue| && i < |s.fcValueUpper|
  {
    !s.disabled[i] && s.fcValue[i] == s.fcValue[0] && s.fcValueUpper[i] == s.fcValueUpper[0]
  }

  /** What gcmCanTileStatusEnabledForMultiSlice checks: with several slices it looks at the first
      numSlices of the surface, whatever firstSlice is. */
  predicate CanEnable(s: Contents, first: nat, count: nat)
    requires Wellformed(s, count) && first < |s.disabled|
  {
    if count > 1 then s.poolKnown && forall i :: 0 <= i < count ==> SliceAgrees(s, i)
    else s.poolKnown && !s.disabled[first]
  }

  // ----- The macros; the flag is the caller's variable, before and after -----

  method AnyTileStatusEnableForFullMultiSlice(view: SurfView, flag: bool) returns (any: bool)
    requires view.surf.Covers(view.surf.requestD)
    ensures any == (flag || AnyEnabled(view.surf.Read(), 0, view.surf.requestD))
    ensures var enabled := exists i :: 0 <= i < view.surf.requestD && !view.surf.tileStatusDisabled[i];
      any == (flag || (view.surf.poolKnown && enabled))
  {
    any := flag;
    var i := 0;
    while i < view.surf.requestD
      invariant 0 <= i <= view.surf.requestD && any == flag
      invariant view.surf.poolKnown ==> forall j :: 0 <= j < i ==> view.surf.tileStatusDisabled[j]
    {
      if view.surf.poolKnown && !view.surf.tileStatusDisabled[i] {
        any := true;
        assert !view.surf.Read().disabled[i];
        break;
      }
      i := i + 1;
    }
  }

  method AnyTileStatusEnableForMultiSlice(view: SurfView, flag: bool) returns (any: bool)
    requires view.surf.Covers(view.firstSlice + view.numSlices)
    ensures any == (flag || AnyEnabled(view.surf.Read(), view.firstSlice, view.numSlices))
    ensures var first, n := view.firstSlice, view.numSlices;
      var enabled := exists i :: first <= i < first + n && !view.surf.tileStatusDisabled[i];
      any == (flag || (view.surf.poolKnown && enabled))
  {
    any := flag;
    var i := view.firstSlice;
    while i < view.firstSlice + view.numSlices
      invariant view.firstSlice <= i <= view.firstSlice + view.numSlices && any == flag
      invariant view.surf.poolKnown ==> forall j :: view.firstSlice <= j < i ==> view.surf.tileStatusDisabled[j]
    {
      if view.surf.poolKnown && !view.surf.tileStatusDisabled[i] {
        any := true;
        assert !view.surf.Read().disabled[i];
        break;
      }
      i := i + 1;
    }
  }

  method CanTileStatusEnabledForMultiSlice(view: SurfView, flag: bool) returns (can: bool)
    requires view.surf.Covers(view.numSlices) && view.firstSlice < view.surf.tileStatusDisabled.Length
    ensures can == (flag && CanEnable(view.surf.Read(), view.firstSlice, view.numSlices))
    ensures var surf, n := view.surf, view.numSlices;
      var uniform := forall i :: 0 <= i < n ==>
        !surf.tileStatusDisabled[i] && surf.fcValue[i] == surf.fcValue[0]
        && surf.fcValueUpper[i] == surf.fcValueUpper[0];
      can == (flag && surf.poolKnown && if n > 1 then uniform else !surf.tileStatusDisabled[view.firstSlice])
  {
    can := flag;
    var surf := view.surf;
    if view.numSlices > 1 {
      if surf.poolKnown {
        var i := 0;
        while i < view.numSlices
          invariant 0 <= i <= view.numSlices && can == flag
          invariant forall j :: 0 <= j < i ==> SliceAgrees(surf.Read(), j)
          invariant forall j :: 0 <= j < i ==>
            !surf.tileStatusDisabled[j] && surf.fcValue[j] == surf.fcValue[0]
            && surf.fcValueUpper[j] == surf.fcValueUpper[0]
        {
          if surf.tileStatusDisabled[i] {
            can := false;
            assert !SliceAgrees(surf.Read(), i);
            break;
          }
          if surf.fcValue[i] != surf.fcValue[0] {
            can := false;
            assert !SliceAgrees(surf.Read(), i);
            break;
          }
          if surf.fcValueUpper[i] != surf.fcValueUpper[0] {
            can := false;
            assert !SliceAgrees(surf.Read(), i);
            break;
          }
          i := i + 1;
        }
      } else {
        can := false;
      }
    } else {
      if !surf.poolKnown || surf.tileStatusDisabled[view.firstSlice] {
        can := false;
      }
    }
  }

  // ----- What callers rely on -----

  /** Every slice of the view is enabled, and all share one clear value when there are several. */
  predicate ViewUniform(s: Contents, first: nat, count: nat)
    requires Wellformed(s, first + count)
  {
    && s.poolKnown
    && (forall i :: first <= i < first + count ==> !s.disabled[i])
    && (count > 1 ==> forall i, j :: first <= i < j < first + count ==>
          s.fcValue[i] == s.fcValue[j] && s.fcValueUpper[i] == s.fcValueUpper[j])
  }

  /** From the first slice on, the answer is exact: the macro says yes exactly for uniform views, and
      then the any-enabled macro says yes too. */
  lemma CanEnableIsExact(s: Contents, count: nat)
    requires 1 <= count && Wellformed(s, count)
    ensures CanEnable(s, 0, count) <==> ViewUniform(s, 0, count)
    ensures CanEnable(s, 0, count) ==> AnyEnabled(s, 0, count)
  {
    if CanEnable(s, 0, count) {
      if count > 1 {
        assert SliceAgrees(s, 0);
        forall i | 0 <= i < count ensures !s.disabled[i] { assert SliceAgrees(s, i); }
        forall i, j | 0 <= i < j < count
          ensures s.fcValue[i] == s.fcValue[j] && s.fcValueUpper[i] == s.fcValueUpper[j]
        {
          assert SliceAgrees(s, i) && SliceAgrees(s, j);
        }
      }
      assert !s.disabled[0];
    }
    if ViewUniform(s, 0, count) && count > 1 {
      forall i | 0 <= i < count ensures SliceAgrees(s, i) {
        if i > 0 { assert s.fcValue[0] == s.fcValue[i] && s.fcValueUpper[0] == s.fcValueUpper[i]; }
      }
    }
  }

  lemma OneSliceIsExact(s: Contents, first: nat)
    requires Wellformed(s, first + 1)
    ensures CanEnable(s, first, 1) <==> ViewUniform(s, first, 1)
  {
    if CanEnable(s, first, 1) { assert !s.disabled[first]; }
  }

  /** With several slices the macro judges the first numSlices slices, wherever the view starts;
      otherwise the slice where the view starts. */
  lemma JudgesFromSliceZero(s: Contents, first: nat, count: nat)
    requires Wellformed(s, first + 1) && Wellformed(s, first + count)
    ensures CanEnable(s, first, count) <==> if count > 1 then ViewUniform(s, 0, count) else ViewUniform(s, first, 1)
  {
    if count > 1 { CanEnableIsExact(s, count); } else { OneSliceIsExact(s, first); }
  }

  /** A surface on which only the last slice of a shifted view is disabled. */
  function LastDisabled(first: nat, count: nat): Contents
    requires 1 <= count
  {
    var n := first + count;
    Contents(true, seq(n, i => i == n - 1), seq(n, _ => 0), seq(n, _ => 0))
  }

  lemma ShiftedYes(first: nat, count: nat)
    requires first > 0 && count > 1
    ensures var s := LastDisabled(first, count);
      Wellformed(s, first + count) && CanEnable(s, first, count) && !ViewUniform(s, first, count)
  {
    var s := LastDisabled(first, count);
    assert forall i :: 0 <= i < count ==> SliceAgrees(s, i);
    assert s.disabled[first + count - 1];
  }

  /** For which views a yes can be trusted: exactly those that start at the first slice or hold one
      slice only. Any other view has a surface on which the macro says yes to a disabled slice. */
  lemma TrustworthyViews(first: nat, count: nat)
    requires 1 <= count
    ensures (forall s: Contents ::
              Wellformed(s, first + count) && CanEnable(s, first, count) ==> ViewUniform(s, first, count))
       <==> first == 0 || count == 1
  {
    if first > 0 && count > 1 {
      ShiftedYes(first, count);
    } else {
      ExactViews(first, count);
    }
  }

  /** On the same views, and on no others, a no can be trusted as well. */
  lemma ExactViews(first: nat, count: nat)
    requires 1 <= count
    ensures (forall s: Contents ::
              Wellformed(s, first + count) ==> (CanEnable(s, first, count) <==> ViewUniform(s, first, count)))
       <==> first == 0 || count == 1
  {
    if first == 0 || count == 1 {
      forall s: Contents | Wellformed(s, first + count)
        ensures CanEnable(s, first, count) <==> ViewUniform(s, first, count)
      {
        if first == 0 { CanEnableIsExact(s, count); } else { OneSliceIsExact(s, first); }
      }
    } else {
      ShiftedYes(first, count);
    }
  }

  /** Two slices from slice 1 on, with slice 2 disabled: the macro looks at slices 0 and 1 and says yes. */
  lemma ShiftedViewIsMisjudged()
    ensures var s := Contents(true, [false, false, true], [0, 0, 0], [0, 0, 0]);
      Wellformed(s, 3) && CanEnable(s, 1, 2) && s.disabled[2] && !ViewUniform(s, 1, 2)
  {
    var s := Contents(true, [false, false, true], [0, 0, 0], [0, 0, 0]);
    assert SliceAgrees(s, 0) && SliceAgrees(s, 1);
    assert s.disabled[2];
  }

  /** The same view with slice 0 disabled instead: the view is uniform and the macro says no. */
  lemma ShiftedViewIsRefused()
    ensures var s := Contents(true, [true, false, false], [0, 0, 0], [0, 0, 0]);
      Wellformed(s, 3) && !CanEnable(s, 1, 2) && ViewUniform(s, 1, 2)
  {
    var s := Contents(true, [true, false, false], [0, 0, 0], [0, 0, 0]);
    assert !SliceAgrees(s, 0);
  }
}
