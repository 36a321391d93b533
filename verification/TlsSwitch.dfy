/** Switching the thread's current hardware and back: the clm macros over the driver's thread-local
    storage. */
module TlsSwitch {

  datatype HardwareType = TypeInvalid | TypeOther(id: int)

  class Hardware {
    const constructType: HardwareType
    const devIndex: nat

    constructor (constructType: HardwareType, devIndex: nat)
    {
      this.constructType := constructType;
      this.devIndex := devIndex;
    }
  }

  /** The five fields that the macros save and restore. */
  datatype View = View(currentType: HardwareType, targetType: HardwareType, defaultHardware: Hardware?,
                       currentHardware: Hardware?, currentDevIndex: nat)

  function ViewOfHardware(hardware: Hardware): View {
    View(hardware.constructType, hardware.constructType, hardware, hardware, hardware.devIndex)
  }

  const NULL_VIEW := View(TypeInvalid, TypeInvalid, null, null, 0)

  /** gcsTLS; the last three stand for all the fields that the macros leave alone. */
  class Tls {
    var currentType: HardwareType
    var targetType: HardwareType
    var currentCoreIndex: nat
    var currentDevIndex: nat
    var currentHardware: Hardware?
    var defaultHardware: Hardware?
    var hardware2D: Hardware?
    var copied: bool

    function Current(): View
      reads this
    {
      View(currentType, targetType, defaultHardware, currentHardware, currentDevIndex)
    }

    twostate predicate OthersUnchanged()
      reads this
    {
      currentCoreIndex == old(currentCoreIndex) && hardware2D == old(hardware2D) && copied == old(copied)
    }
  }

  /** The locals of clmDECLARE_SWITCHVARS. */
  class SwitchVars {
    var defaultHardware: Hardware?
    var currentHardware: Hardware?
    var currentType: HardwareType
    var targetType: HardwareType
    var currentDevIndex: nat
    var tls: Tls?
    var switched: bool

    constructor ()
      ensures !switched && tls == null
    {
      defaultHardware, currentHardware := null, null;
      currentType, targetType, currentDevIndex := TypeInvalid, TypeInvalid, 0;
      tls, switched := null, false;
    }

    function Saved(): View
      reads this
    {
      View(currentType, targetType, defaultHardware, currentHardware, currentDevIndex)
    }

    /** The common part of the two switches; `threadTls` is what gcoOS_GetTLS returns. */
    method Save(threadTls: Tls)
      modifies this
      ensures switched && tls == threadTls && Saved() == threadTls.Current()
      ensures currentType == threadTls.currentType && targetType == threadTls.targetType
      ensures defaultHardware == threadTls.defaultHardware && currentHardware == threadTls.currentHardware
      ensures currentDevIndex == threadTls.currentDevIndex
    {
      tls := threadTls;
      currentType := tls.currentType;
      targetType := tls.targetType;
      defaultHardware := tls.defaultHardware;
      currentHardware := tls.currentHardware;
      currentDevIndex := tls.currentDevIndex;
      switched := true;
    }

    /** clmSWITCH_TO_HW. */
    method SwitchToHw(threadTls: Tls, hardware: Hardware)
      modifies this, threadTls
      ensures switched && tls == threadTls && Saved() == old(threadTls.Current())
      ensures threadTls.Current() == ViewOfHardware(hardware) && threadTls.OthersUnchanged()
      ensures threadTls.defaultHardware == threadTls.currentHardware == hardware
      ensures threadTls.targetType == threadTls.currentType == hardware.constructType
      ensures threadTls.currentDevIndex == hardware.devIndex
    {
      Save(threadTls);
      tls.defaultHardware := hardware;
      tls.currentHardware := hardware;
      tls.targetType := hardware.constructType;
      tls.currentType := hardware.constructType;
      tls.currentDevIndex := hardware.devIndex;
    }

    /** clmSWITCH_TO_NULL. */
    method SwitchToNull(threadTls: Tls)
      modifies this, threadTls
      ensures switched && tls == threadTls && Saved() == old(threadTls.Current())
      ensures threadTls.Current() == NULL_VIEW && threadTls.OthersUnchanged()
      ensures threadTls.defaultHardware == threadTls.currentHardware == null
      ensures threadTls.targetType == threadTls.currentType == TypeInvalid && threadTls.currentDevIndex == 0
    {
      Save(threadTls);
      tls.defaultHardware := null;
      tls.currentHardware := null;
      tls.targetType := TypeInvalid;
      tls.currentType := TypeInvalid;
      tls.currentDevIndex := 0;
    }

    /** clmRESTORE_HW: puts the saved fields back once; without a switch before it, it does nothing. */
    method RestoreHw()
      requires switched ==> tls != null
      modifies this`switched, tls
      ensures !switched && Saved() == old(Saved()) && tls == old(tls)
      ensures tls != null ==> tls.OthersUnchanged()
      ensures old(switched) ==> tls.Current() == Saved()
      ensures !old(switched) && tls != null ==> tls.Current() == old(tls.Current())
      ensures old(switched) ==>
        && tls.currentType == currentType && tls.targetType == targetType
        && tls.defaultHardware == defaultHardware && tls.currentHardware == currentHardware
        && tls.currentDevIndex == currentDevIndex
    {
      if switched {
        switched := false;
        tls.defaultHardware := defaultHardware;
        tls.currentHardware := currentHardware;
        tls.targetType := targetType;
        tls.currentType := currentType;
        tls.currentDevIndex := currentDevIndex;
      }
    }
  }

  // ----- Nested scopes -----

  /** What a scope does before its body: an error path may reach the restore without any switch. */
  datatype Target = ToHardware(hardware: Hardware) | ToNull | NoSwitch

  /** Code between the macros: a look at the five fields, or a function with its own switch variables,
      which restores at its end and may restore again. */
  datatype Code =
    | Probe
    | Scope(target: Target, body: seq<Code>, extraRestores: nat)

  function Enter(target: Target, view: View): View {
    match target
    case ToHardware(hardware) => ViewOfHardware(hardware)
    case ToNull => NULL_VIEW
    case NoSwitch => view
  }

  /** The switch variables as values. */
  datatype Locals = Locals(switched: bool, saved: View)

  const DECLARED := Locals(false, NULL_VIEW)

  function Switch(target: Target, locals: Locals, view: View): (Locals, View) {
    (if target.NoSwitch? then locals else Locals(true, view), Enter(target, view))
  }

  function Restore(locals: Locals, view: View): (Locals, View) {
    (locals.(switched := false), if locals.switched then locals.saved else view)
  }

  function RestoreTimes(n: nat, locals: Locals, view: View): (Locals, View) {
    if n == 0 then (locals, view)
    else var (locals1, view1) := Restore(locals, view); RestoreTimes(n - 1, locals1, view1)
  }

  /** A second restore, or one without a switch, changes nothing. */
  lemma {:induction false} ExtraRestoresDoNothing(n: nat, locals: Locals, view: View)
    ensures RestoreTimes(1 + n, locals, view) == Restore(locals, view)
  {
    if n > 0 {
      var (locals1, view1) := Restore(locals, view);
      ExtraRestoresDoNothing(n - 1, locals1, view1);
    }
  }

  /** One set of locals serves one switch at a time: when a second switch reuses them before the
      restore, the fields come back as the first target left them, not as they were on entry. */
  lemma ReusedLocalsForgetTheEntry(first: Target, second: Target, view: View)
    requires !second.NoSwitch?
    ensures var (locals1, view1) := Switch(first, DECLARED, view);
            var (locals2, view2) := Switch(second, locals1, view1);
            Restore(locals2, view2).1 == Enter(first, view)
  {
  }

  /** Running code: the five fields afterwards, and what each probe saw on the way. */
  function Run(code: Code, view: View): (View, seq<View>)
    decreases code, 0
  {
    match code
    case Probe => (view, [view])
    case Scope(target, body, extraRestores) =>
      var (locals, inside) := Switch(target, DECLARED, view);
      var (after, seen) := RunAll(body, inside);
      (RestoreTimes(1 + extraRestores, locals, after).1, seen)
  }

  function RunAll(codes: seq<Code>, view: View): (View, seq<View>)
    decreases codes, 1
  {
    if codes == [] then (view, [])
    else
      var (view1, seen1) := Run(codes[0], view);
      var (view2, seen2) := RunAll(codes[1..], view1);
      (view2, seen1 + seen2)
  }

  /** What the programmer reads off the nesting alone: each probe sees the innermost switch around it. */
  function Lexical(code: Code, surrounding: View): seq<View>
    decreases code, 0
  {
    match code
    case Probe => [surrounding]
    case Scope(target, body, _) => LexicalAll(body, Enter(target, surrounding))
  }

  function LexicalAll(codes: seq<Code>, surrounding: View): seq<View>
    decreases codes, 1
  {
    if codes == [] then [] else Lexical(codes[0], surrounding) + LexicalAll(codes[1..], surrounding)
  }

  /** What a probe sees inside a scope, field by field. */
  lemma ProbeSeesTarget(target: Target, extraRestores: nat, view: View)
    ensures |Lexical(Scope(target, [Probe], extraRestores), view)| == 1
    ensures var seen := Lexical(Scope(target, [Probe], extraRestores), view)[0];
      match target
      case ToHardware(hardware) =>
        && seen.currentHardware == seen.defaultHardware == hardware
        && seen.currentType == seen.targetType == hardware.constructType
        && seen.currentDevIndex == hardware.devIndex
      case ToNull =>
        && seen.currentHardware == seen.defaultHardware == null
        && seen.currentType == seen.targetType == TypeInvalid && seen.currentDevIndex == 0
      case NoSwitch => seen == view
  {
    assert LexicalAll([Probe], Enter(target, view)) == [Enter(target, view)] + LexicalAll([], Enter(target, view));
  }

  /** Saving and restoring by hand gives lexical scoping: the five fields come back, and every probe
      sees the switch that encloses it. */
  lemma {:induction false} SwitchingIsLexical(code: Code, view: View)
    ensures Run(code, view) == (view, Lexical(code, view))
    decreases code, 0
  {
    match code
    case Probe =>
    case Scope(target, body, extraRestores) =>
      SwitchingAllIsLexical(body, Enter(target, view));
      ExtraRestoresDoNothing(extraRestores, Switch(target, DECLARED, view).0, Enter(target, view));
  }

  lemma {:induction false} SwitchingAllIsLexical(codes: seq<Code>, view: View)
    ensures RunAll(codes, view) == (view, LexicalAll(codes, view))
    decreases codes, 1
  {
    if codes != [] {
      SwitchingIsLexical(codes[0], view);
      SwitchingAllIsLexical(codes[1..], view);
    }
  }

  /** The macros run such code on the real fields. */
  method Execute(tls: Tls, code: Code) returns (seen: seq<View>)
    modifies tls
    ensures (tls.Current(), seen) == Run(code, old(tls.Current()))
    ensures tls.Current() == old(tls.Current()) && seen == Lexical(code, old(tls.Current()))
    ensures tls.OthersUnchanged()
    decreases code, 0
  {
    SwitchingIsLexical(code, tls.Current());
    match code
    case Probe => seen := [tls.Current()];
    case Scope(target, body, extraRestores) =>
      var vars := new SwitchVars();
      match target {
        case ToHardware(hardware) => vars.SwitchToHw(tls, hardware);
        case ToNull => vars.SwitchToNull(tls);
        case NoSwitch =>
      }
      seen := ExecuteAll(tls, body);
      vars.RestoreHw();
      for i := 0 to extraRestores
        invariant !vars.switched && (vars.tls == null || vars.tls == tls)
        invariant tls.Current() == old(tls.Current()) && tls.OthersUnchanged()
      {
        vars.RestoreHw();
      }
  }

  method ExecuteAll(tls: Tls, codes: seq<Code>) returns (seen: seq<View>)
    modifies tls
    ensures (tls.Current(), seen) == RunAll(codes, old(tls.Current()))
    ensures tls.Current() == old(tls.Current())
    ensures tls.OthersUnchanged()
    decreases codes, 1
  {
    SwitchingAllIsLexical(codes, tls.Current());
    if codes == [] { return []; }
    var seen1 := Execute(tls, codes[0]);
    var seen2 := ExecuteAll(tls, codes[1..]);
    seen := seen1 + seen2;
  }
}
