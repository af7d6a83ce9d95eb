/** The focus-mode controller (src/main.rs): the request it sends for each mode,
    the ordering of its two OS effects on entering and leaving focus mode, and
    the one-bit toggle that chooses between them.

    The OS is a parameter: `os(n)` is its answer to the n-th call the process
    makes, so every pattern of successes and failures is covered. Every call
    attempted is appended to a log together with that answer. */
module FocusMode {
  import opened SdcFlags
  import opened DisplayConfig

  /** The outcome of an OS call or of a controller operation. A failure
      carries the OS status code unchanged. */
  datatype Status = Ok | Err(code: int)

  /** The OS effects the controller can cause: hiding or showing the desktop
      icons, and one `SetDisplayConfig` call with its buffers and flags. */
  datatype Call =
    | HideIcons
    | UnhideIcons
    | SetDisplayConfig(paths: seq<PathInfo>, modes: seq<ModeInfo>, flags: set<Flag>)

  /** One attempted OS call and the OS's answer to it. */
  datatype Step = Step(call: Call, status: Status)

  /** The OS: its answer to the n-th call of the process, counting from 0. */
  type Os = nat -> Status

  /** The process: the `ON` bit and every OS call attempted so far. */
  datatype Machine = Machine(on: bool, log: seq<Step>)

  /** The process at start-up: `ON` is false and nothing has been called. */
  const Start := Machine(false, [])

  /** A machine after an operation, and the status the operation returns. */
  datatype Run = Run(machine: Machine, status: Status)

  /** The two operations `toggle_focus_mode` dispatches to. */
  datatype Transition = Enter | Exit

  /** The result of one toggle: its run, and which operation it dispatched to. */
  datatype Toggled = Toggled(run: Run, dispatched: Transition)

  /** `sdc_config`: the database request for the given mode. Focus mode asks
      for the external-only topology, normal mode for the extended one; the
      request is always an optimised apply that allows no changes. */
  function SdcConfigFor(focusMode: bool): (r: Sdc)
    ensures r.action == SdcAction.Apply(false) && !r.allowChanges
    ensures r.config.Database? && !r.config.pathPersistIfRequired
    ensures ForceModeEnumerationAllowed(r)
    ensures Flags(r) == {Flag.Apply, if focusMode then TopologyExternal else TopologyExtend}
    ensures Paths(r) == [] && Modes(r) == []
  {
    var topologies := SdcDatabaseTopologies(
      internal := false,
      clone := false,
      extend := !focusMode,
      external := focusMode);
    Sdc(SdcAction.Apply(noOptimization := false), Database(topologies, pathPersistIfRequired := false),
        allowChanges := false)
  }

  /** The call `set_display_config` makes for a request. */
  function ApplyCall(sdc: Sdc): (r: Call)
    requires ForceModeEnumerationAllowed(sdc)
    ensures r.SetDisplayConfig?
    ensures forall f :: f in r.flags <==> Selects(sdc, f)
    ensures r.paths == (if sdc.config.Database? then [] else sdc.config.paths)
    ensures r.modes == (if sdc.config.SuppliedConfig? then sdc.config.modes else [])
  {
    SetDisplayConfig(Paths(sdc), Modes(sdc), Flags(sdc))
  }

  /** The calls `enter_focus_mode` makes, in order. */
  const EnterPlan: seq<Call> := [HideIcons, ApplyCall(SdcConfigFor(true))]

  /** The calls `exit_focus_mode` makes, in order. */
  const ExitPlan: seq<Call> := [ApplyCall(SdcConfigFor(false)), UnhideIcons]

  /** Attempt one OS call: the OS answers and the call is logged. */
  function Perform(m: Machine, call: Call, os: Os): Run
  {
    var status := os(|m.log|);
    Run(m.(log := m.log + [Step(call, status)]), status)
  }

  /** `r` is what running the calls of `plan` from `m` yields when each call
      is followed by `?`: the calls made are a non-empty prefix of `plan`, in
      order, each answered by `os`; all but the last succeeded; the run stops
      early only at a failure; and the overall status is that of the last
      call made, so it is `Ok` exactly when the whole plan succeeded. The
      `ON` bit is left alone. */
  predicate RunsPlan(plan: seq<Call>, m: Machine, os: Os, r: Run)
  {
    var n0 := |m.log|;
    && r.machine.on == m.on
    && n0 < |r.machine.log| <= n0 + |plan|
    && r.machine.log[..n0] == m.log
    && var steps := r.machine.log[n0..];
       && (forall i :: 0 <= i < |steps| ==> steps[i] == Step(plan[i], os(n0 + i)))
       && (forall i :: 0 <= i < |steps| - 1 ==> steps[i].status == Ok)
       && (|steps| < |plan| ==> steps[|steps| - 1].status.Err?)
       && r.status == steps[|steps| - 1].status
  }

  /** `enter_focus_mode`: hide the icons, then apply the focus-mode request;
      the first failure is returned and ends the operation. */
  function EnterFocusMode(m: Machine, os: Os): (r: Run)
    ensures RunsPlan(EnterPlan, m, os, r)
  {
    var hidden := Perform(m, HideIcons, os);
    if hidden.status.Err? then hidden
    else
      var applied := Perform(hidden.machine, ApplyCall(SdcConfigFor(true)), os);
      if applied.status.Err? then applied else Run(applied.machine, Ok)
  }

  /** `exit_focus_mode`: apply the normal-mode request, then show the icons;
      the first failure is returned and ends the operation. */
  function ExitFocusMode(m: Machine, os: Os): (r: Run)
    ensures RunsPlan(ExitPlan, m, os, r)
  {
    var applied := Perform(m, ApplyCall(SdcConfigFor(false)), os);
    if applied.status.Err? then applied
    else
      var shown := Perform(applied.machine, UnhideIcons, os);
      if shown.status.Err? then shown else Run(shown.machine, Ok)
  }

  /** `toggle_focus_mode`: `ON.fetch_xor(true)` reads the bit and stores its
      negation in one step; the old value then picks `exit` (it was on) or
      `enter` (it was off). The flip happens before either effect and is never
      undone, so it stands even when the operation fails. */
  function ToggleFocusMode(m: Machine, os: Os): (t: Toggled)
    ensures t.run.machine.on == !m.on
    ensures t.dispatched == Exit <==> m.on
  {
    var wasOn := m.on;
    var flipped := m.(on := !m.on);
    if wasOn then
      var r := ExitFocusMode(flipped, os);
      Toggled(if r.status.Err? then r else Run(r.machine, Ok), Exit)
    else
      var r := EnterFocusMode(flipped, os);
      Toggled(if r.status.Err? then r else Run(r.machine, Ok), Enter)
  }

  /** A toggle makes exactly the calls of the operation it dispatched to,
      from the flipped state, with that operation's status. */
  lemma ToggleFollowsPlan(m: Machine, os: Os)
    ensures RunsPlan(if m.on then ExitPlan else EnterPlan, m.(on := !m.on), os,
                     ToggleFocusMode(m, os).run)
  {
  }

  /** The word the OS receives for each mode's request: SDC_APPLY with
      SDC_TOPOLOGY_EXTERNAL (0x88) in focus mode and with SDC_TOPOLOGY_EXTEND
      (0x84) in normal mode, so exactly one topology bit is set. */
  lemma SdcConfigWords()
    ensures Encode(Flags(SdcConfigFor(true))) == 0x0000_0088
    ensures Encode(Flags(SdcConfigFor(false))) == 0x0000_0084
  {
    var focus, normal := {Flag.Apply, TopologyExternal}, {Flag.Apply, TopologyExtend};
    assert Flags(SdcConfigFor(true)) == focus;
    assert Flags(SdcConfigFor(false)) == normal;
    EncodeBits(focus);
    EncodeBits(normal);
  }

  /** Entering focus mode hides the icons first. If that fails, the display
      configuration is not touched and the hide error is returned; otherwise
      the focus-mode request is applied and its status is the result. */
  lemma EnterFocusModeSteps(m: Machine, os: Os)
    ensures var r := EnterFocusMode(m, os);
      && r.machine.on == m.on
      && (os(|m.log|).Err? ==>
            r.machine.log == m.log + [Step(HideIcons, os(|m.log|))] && r.status == os(|m.log|))
      && (os(|m.log|) == Ok ==>
            && r.machine.log == m.log + [Step(HideIcons, Ok),
                                         Step(ApplyCall(SdcConfigFor(true)), os(|m.log| + 1))]
            && r.status == os(|m.log| + 1))
  {
    var r := EnterFocusMode(m, os);
    var n0 := |m.log|;
    assert r.machine.log == r.machine.log[..n0] + r.machine.log[n0..];
    if os(n0) == Ok {
      assert r.machine.log[n0..][0].status == Ok;
      assert |r.machine.log[n0..]| == 2;
    }
  }

  /** Leaving focus mode applies the normal-mode request first. If that
      fails, the icons are not touched and the apply error is returned;
      otherwise the icons are shown and that call's status is the result. */
  lemma ExitFocusModeSteps(m: Machine, os: Os)
    ensures var r := ExitFocusMode(m, os);
      && r.machine.on == m.on
      && (os(|m.log|).Err? ==>
            && r.machine.log == m.log + [Step(ApplyCall(SdcConfigFor(false)), os(|m.log|))]
            && r.status == os(|m.log|))
      && (os(|m.log|) == Ok ==>
            && r.machine.log == m.log + [Step(ApplyCall(SdcConfigFor(false)), Ok),
                                         Step(UnhideIcons, os(|m.log| + 1))]
            && r.status == os(|m.log| + 1))
  {
    var r := ExitFocusMode(m, os);
    var n0 := |m.log|;
    assert r.machine.log == r.machine.log[..n0] + r.machine.log[n0..];
    if os(n0) == Ok {
      assert r.machine.log[n0..][0].status == Ok;
      assert |r.machine.log[n0..]| == 2;
    }
  }

  /** A toggle whose first OS call fails still leaves the bit flipped: the
      failure is returned after one logged call and nothing undoes the flip. */
  lemma ToggleFlipsDespiteFailure(m: Machine, os: Os)
    requires os(|m.log|).Err?
    ensures var t := ToggleFocusMode(m, os);
      && t.run.machine.on == !m.on
      && t.run.status == os(|m.log|)
      && |t.run.machine.log| == |m.log| + 1
  {
    var t := ToggleFocusMode(m, os);
    assert |t.run.machine.log[|m.log|..]| == 1;
  }

  /** `n` toggles in a row, as the tray menu's "Toggle focus mode" item would
      issue them, one after another: the final machine, the operation each toggle
      dispatched to, and the status each returned. */
  datatype Session = Session(machine: Machine, dispatched: seq<Transition>, statuses: seq<Status>)

  /** Running `n` toggles from `m`. Each toggle flips the bit, so the bit ends
      flipped exactly when `n` is odd. */
  function Toggles(m: Machine, os: Os, n: nat): (s: Session)
    ensures s.machine.on == (m.on != (n % 2 == 1))
    ensures |s.dispatched| == n && |s.statuses| == n
    decreases n
  {
    if n == 0 then Session(m, [], [])
    else
      var t := ToggleFocusMode(m, os);
      var rest := Toggles(t.run.machine, os, n - 1);
      Session(rest.machine, [t.dispatched] + rest.dispatched, [t.run.status] + rest.statuses)
  }

  /** The operation the i-th of a run of toggles dispatches to, when the bit
      was `on` before the first: `exit` and `enter` alternate, starting with
      `exit` exactly when the bit was on. */
  function NthTransition(on: bool, i: nat): Transition
  {
    if on == (i % 2 == 0) then Exit else Enter
  }

  /** Serialised toggles alternate between `exit` and `enter`, in the order
      the starting bit fixes, whatever the OS answers. */
  lemma {:induction false} TogglesAlternate(m: Machine, os: Os, n: nat)
    ensures forall i :: 0 <= i < n ==> Toggles(m, os, n).dispatched[i] == NthTransition(m.on, i)
    decreases n
  {
    if n > 0 {
      var t := ToggleFocusMode(m, os);
      var rest := Toggles(t.run.machine, os, n - 1);
      var s := Toggles(m, os, n);
      assert s.dispatched == [t.dispatched] + rest.dispatched;
      TogglesAlternate(t.run.machine, os, n - 1);
      forall i | 0 <= i < n
        ensures s.dispatched[i] == NthTransition(m.on, i)
      {
        if i > 0 {
          assert s.dispatched[i] == rest.dispatched[i - 1];
          ParityStep(i);
        }
      }
    }
  }

  /** Stepping back one position flips the parity. */
  lemma ParityStep(i: nat)
    requires i > 0
    ensures (i - 1) % 2 == 0 <==> i % 2 == 1
  {
  }

  /** Two toggles from any state restore the bit and run one `enter` and one
      `exit`, in the order the starting bit fixes. Concurrent toggles are
      modelled as some serial order, and `fetch_xor` makes either order
      dispatch one `enter` and one `exit`. */
  lemma ToggleTwice(m: Machine, os: Os)
    ensures Toggles(m, os, 2).machine.on == m.on
    ensures Toggles(m, os, 2).dispatched == if m.on then [Exit, Enter] else [Enter, Exit]
  {
    TogglesAlternate(m, os, 2);
    var s := Toggles(m, os, 2);
    assert s.dispatched[0] == NthTransition(m.on, 0);
    assert s.dispatched[1] == NthTransition(m.on, 1);
  }

  /** What a log shows about the display configuration this process applied. */
  datatype Displays = NotApplied | Applied(flags: set<Flag>)

  /** What a log shows about the desktop: whether the icons are hidden and
      which display configuration was applied last. */
  datatype Desktop = Desktop(iconsHidden: bool, displays: Displays)

  /** The desktop at start-up as this model assumes it: icons shown and no
      configuration applied by this process. */
  const InitialDesktop := Desktop(false, NotApplied)

  /** The effect of one logged call: a successful call does what it says, a
      failed one is taken to change nothing. */
  function Effect(d: Desktop, step: Step): Desktop
  {
    if step.status.Err? then d
    else match step.call
      case HideIcons => d.(iconsHidden := true)
      case UnhideIcons => d.(iconsHidden := false)
      case SetDisplayConfig(_, _, flags) => d.(displays := Applied(flags))
  }

  /** The desktop after the calls of `log`, from `InitialDesktop`. */
  function Observe(log: seq<Step>): Desktop
    decreases |log|
  {
    if log == [] then InitialDesktop
    else Effect(Observe(log[..|log| - 1]), log[|log| - 1])
  }

  /** The bit and the desktop agree: in focus mode the icons are hidden and
      the focus-mode request was the last one applied; in normal mode the
      icons are shown and the last request applied, if any, was the
      normal-mode one. */
  predicate Consistent(m: Machine)
  {
    var d := Observe(m.log);
    && d.iconsHidden == m.on
    && (m.on ==> d.displays == Applied(Flags(SdcConfigFor(true))))
    && (!m.on ==> d.displays == NotApplied || d.displays == Applied(Flags(SdcConfigFor(false))))
  }

  /** Observing one more call applies its effect to what was observed before. */
  lemma ObserveOne(log: seq<Step>, s1: Step)
    ensures Observe(log + [s1]) == Effect(Observe(log), s1)
  {
    assert (log + [s1])[..|log|] == log;
  }

  /** Observing two more calls is observing them one after the other. */
  lemma ObserveTwo(log: seq<Step>, s1: Step, s2: Step)
    ensures Observe(log + [s1]) == Effect(Observe(log), s1)
    ensures Observe(log + [s1, s2]) == Effect(Effect(Observe(log), s1), s2)
  {
    assert (log + [s1])[..|log|] == log;
    assert (log + [s1, s2])[..|log| + 1] == log + [s1];
  }

  /** The two modes' requests carry different flags. */
  lemma ModeFlagsDiffer()
    ensures Flags(SdcConfigFor(true)) != Flags(SdcConfigFor(false))
  {
    assert TopologyExternal in Flags(SdcConfigFor(true));
  }

  /** Entering from a consistent normal state ends consistent exactly when it succeeds. */
  lemma EnterConsistency(m: Machine, os: Os)
    requires Consistent(m) && !m.on
    ensures Consistent(EnterFocusMode(m.(on := true), os).machine)
        <==> EnterFocusMode(m.(on := true), os).status == Ok
  {
    var n0 := |m.log|;
    var focus := ApplyCall(SdcConfigFor(true));
    EnterFocusModeSteps(m.(on := true), os);
    ObserveTwo(m.log, Step(HideIcons, os(n0)), Step(focus, os(n0 + 1)));
    ModeFlagsDiffer();
  }

  /** Leaving from a consistent focus state ends consistent exactly when it succeeds. */
  lemma ExitConsistency(m: Machine, os: Os)
    requires Consistent(m) && m.on
    ensures Consistent(ExitFocusMode(m.(on := false), os).machine)
        <==> ExitFocusMode(m.(on := false), os).status == Ok
  {
    var n0 := |m.log|;
    var normal := ApplyCall(SdcConfigFor(false));
    ExitFocusModeSteps(m.(on := false), os);
    ObserveTwo(m.log, Step(normal, os(n0)), Step(UnhideIcons, os(n0 + 1)));
    ModeFlagsDiffer();
  }

  /** From a consistent state, a toggle keeps the bit and the desktop
      consistent exactly when it succeeds: there is no rollback, so any
      failed call leaves them disagreeing. */
  lemma ToggleConsistency(m: Machine, os: Os)
    requires Consistent(m)
    ensures Consistent(ToggleFocusMode(m, os).run.machine) <==> ToggleFocusMode(m, os).run.status == Ok
  {
    if m.on {
      ExitConsistency(m, os);
    } else {
      EnterConsistency(m, os);
    }
  }

  /** A toggle whose two OS calls both succeed returns `Ok`. */
  lemma ToggleSucceeds(m: Machine, os: Os)
    requires os(|m.log|) == Ok && os(|m.log| + 1) == Ok
    ensures ToggleFocusMode(m, os).run.status == Ok
  {
    if m.on {
      ExitFocusModeSteps(m.(on := false), os);
    } else {
      EnterFocusModeSteps(m.(on := true), os);
    }
  }

  /** The process starts consistent. */
  lemma StartConsistent()
    ensures Consistent(Start)
  {
  }

  /** When every OS call succeeds, any number of toggles from a consistent
      state all succeed and leave the bit and the desktop consistent. */
  lemma {:induction false} TogglesStayConsistent(m: Machine, os: Os, n: nat)
    requires Consistent(m)
    requires forall k :: os(k) == Ok
    ensures Consistent(Toggles(m, os, n).machine)
    ensures forall i :: 0 <= i < n ==> Toggles(m, os, n).statuses[i] == Ok
    decreases n
  {
    if n > 0 {
      var t := ToggleFocusMode(m, os);
      var rest := Toggles(t.run.machine, os, n - 1);
      var s := Toggles(m, os, n);
      assert s.machine == rest.machine;
      assert s.statuses == [t.run.status] + rest.statuses;
      ToggleSucceeds(m, os);
      ToggleConsistency(m, os);
      TogglesStayConsistent(t.run.machine, os, n - 1);
      forall i | 0 <= i < n
        ensures s.statuses[i] == Ok
      {
        if i > 0 {
          assert s.statuses[i] == rest.statuses[i - 1];
        }
      }
    }
  }

  /** A first toggle whose icon-hiding call fails leaves the bit on with the
      icons shown and no configuration applied. */
  lemma FailedFirstToggle(os: Os)
    requires os(0).Err?
    ensures var t := ToggleFocusMode(Start, os);
      && t.run.machine.on
      && t.run.status == os(0)
      && Observe(t.run.machine.log) == InitialDesktop
      && !Consistent(t.run.machine)
  {
    var t := ToggleFocusMode(Start, os);
    EnterFocusModeSteps(Start.(on := true), os);
    ObserveOne([], Step(HideIcons, os(0)));
    assert t.run.machine.log == [] + [Step(HideIcons, os(0))];
  }
}
