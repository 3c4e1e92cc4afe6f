/** A model of the ArduPlane experimental-mode gate: the guarded transition that
    switches the machine-learned throttle controller's "experimental mode" on and
    off, subject to a permission flag, and that resets and freezes the controller
    every time the mode is entered while permitted.

    The controller itself is opaque here: it is represented only by the ordered
    log of lifecycle calls the gate makes on it. */
module ExperimentalMode {

  /** One lifecycle call the gate makes on the throttle controller. */
  datatype Call = Reset | Freeze

  /** What one call of the gate does, given the permission flag in force and the
      requested mode: the mode it leaves, the controller calls it makes (in
      order) and the value it returns. */
  datatype Effect = Effect(enabled: bool, calls: seq<Call>, result: bool)

  /** One call of the gate together with the permission flag in force at that
      moment (the gate never writes the flag, but something outside it may
      change the flag between calls). */
  datatype Invocation = Invocation(allow: bool, requested: bool)

  /** The part of the world the gate touches: its own mode flag and the
      controller's call log. */
  datatype State = State(enabled: bool, log: seq<Call>)

  /** The gate, as a value: a refused call forces the mode off and makes no
      controller call; a permitted call applies the request, resets and then
      freezes the controller when the request is to enable, and reports true
      whether it enabled or disabled. */
  function Transition(allow: bool, requested: bool): (e: Effect)
    // permission revoked: hard override, whatever was requested
    ensures !allow ==> !e.enabled && e.calls == [] && !e.result
    // permission granted: the request is applied and the call reports success,
    // a plain disable included
    ensures allow ==> e.enabled == requested && e.result
    // the controller is touched exactly when the mode ends enabled, and then
    // by a reset followed by a freeze
    ensures e.calls != [] <==> e.enabled
    ensures e.calls != [] ==> e.calls == [Reset, Freeze]
  {
    if !allow then
      Effect(false, [], false)
    else
      Effect(requested, if requested then [Reset, Freeze] else [], true)
  }

  /** The state after one call of the gate: the mode is on exactly when the
      call was permitted and asked to enable, and the controller log grows by a
      reset/freeze pair in that case and by nothing otherwise. */
  function After(s: State, inv: Invocation): (t: State)
    ensures t.enabled == (inv.allow && inv.requested)
    ensures t.log == s.log + (if t.enabled then [Reset, Freeze] else [])
  {
    var e := Transition(inv.allow, inv.requested);
    State(e.enabled, s.log + e.calls)
  }

  /** The state after a series of calls, made in order. */
  function Run(s: State, invs: seq<Invocation>): State
    decreases |invs|
  {
    if invs == [] then s else Run(After(s, invs[0]), invs[1..])
  }

  /** The controller calls a series of gate calls makes, in order. */
  function Entries(invs: seq<Invocation>): seq<Call>
    decreases |invs|
  {
    if invs == [] then []
    else Transition(invs[0].allow, invs[0].requested).calls + Entries(invs[1..])
  }

  /** How many calls of the series ask to enable while permitted. */
  function PermittedEnables(invs: seq<Invocation>): nat
    decreases |invs|
  {
    if invs == [] then 0
    else (if invs[0].allow && invs[0].requested then 1 else 0) + PermittedEnables(invs[1..])
  }

  /** Running one more call after a series is the same as running the longer
      series. */
  lemma {:induction false} RunSnoc(s: State, invs: seq<Invocation>, last: Invocation)
    ensures Run(s, invs + [last]) == After(Run(s, invs), last)
    decreases |invs|
  {
    if invs != [] {
      assert (invs + [last])[1..] == invs[1..] + [last];
      RunSnoc(After(s, invs[0]), invs[1..], last);
    }
  }

  /** After any non-empty series of calls the mode is on exactly when the last
      call was permitted and asked to enable: earlier calls leave no trace on
      the mode. */
  lemma {:induction false} RunEnabled(s: State, invs: seq<Invocation>)
    requires invs != []
    ensures Run(s, invs).enabled == (invs[|invs| - 1].allow && invs[|invs| - 1].requested)
    decreases |invs|
  {
    if |invs| > 1 {
      RunEnabled(After(s, invs[0]), invs[1..]);
    }
  }

  /** The mode can only be on after a call made while permitted: revoking the
      permission takes effect at the very next call. */
  lemma {:induction false} EnabledOnlyIfPermitted(s: State, invs: seq<Invocation>)
    requires invs != []
    ensures Run(s, invs).enabled ==> invs[|invs| - 1].allow
  {
    RunEnabled(s, invs);
  }

  /** A series of calls only ever appends to the controller's log, and what it
      appends is the calls' own entries in order. */
  lemma {:induction false} RunLog(s: State, invs: seq<Invocation>)
    ensures Run(s, invs).log == s.log + Entries(invs)
    decreases |invs|
  {
    if invs != [] {
      var e := Transition(invs[0].allow, invs[0].requested);
      RunLog(After(s, invs[0]), invs[1..]);
      assert s.log + e.calls + Entries(invs[1..]) == s.log + (e.calls + Entries(invs[1..]));
    }
  }

  /** The controller sees nothing but reset/freeze pairs: one pair, reset first,
      for every call that asked to enable while permitted (re-enabling an
      already enabled mode included), and nothing for any other call. */
  lemma {:induction false} EntriesShape(invs: seq<Invocation>)
    ensures |Entries(invs)| == 2 * PermittedEnables(invs)
    ensures forall i :: 0 <= i < |Entries(invs)| ==>
      Entries(invs)[i] == (if i % 2 == 0 then Reset else Freeze)
    decreases |invs|
  {
    if invs != [] {
      var head := Transition(invs[0].allow, invs[0].requested).calls;
      var rest := Entries(invs[1..]);
      EntriesShape(invs[1..]);
      assert Entries(invs) == head + rest;
      forall i | 0 <= i < |head + rest|
        ensures (head + rest)[i] == (if i % 2 == 0 then Reset else Freeze)
      {
        if i >= |head| {
          assert (head + rest)[i] == rest[i - |head|];
          assert (i - |head|) % 2 == i % 2;
        }
      }
    }
  }

  /** Calls made while the permission flag is off never touch the controller,
      whatever they request, and leave the mode off. */
  lemma {:induction false} RevokedIsInert(s: State, invs: seq<Invocation>)
    requires forall i :: 0 <= i < |invs| ==> !invs[i].allow
    ensures Run(s, invs).log == s.log
    ensures invs != [] ==> !Run(s, invs).enabled
    decreases |invs|
  {
    if invs != [] {
      RevokedIsInert(After(s, invs[0]), invs[1..]);
    }
  }

  /** Enabling is not edge-triggered: asking to enable twice in a row while
      permitted leaves the mode on after each call and resets and freezes the
      controller on both. */
  lemma ReenableRetriggers(s: State)
    ensures After(s, Invocation(true, true)).enabled
    ensures Run(s, [Invocation(true, true), Invocation(true, true)]) ==
      State(true, s.log + [Reset, Freeze, Reset, Freeze])
  {
  }

  /** The throttle controller, reduced to the record of the lifecycle calls it
      receives; what reset and freeze compute is not modelled. */
  class MlController {
    ghost var log: seq<Call>

    constructor ()
      ensures log == []
    {
      log := [];
    }

    /** Clears the controller's learned state. */
    method Reset()
      modifies this
      ensures log == old(log) + [Call.Reset]
    {
      log := log + [Call.Reset];
    }

    /** Locks the controller's throttle average. */
    method ThrottleFreeze()
      modifies this
      ensures log == old(log) + [Call.Freeze]
    {
      log := log + [Call.Freeze];
    }
  }

  /** The part of the aircraft object the gate belongs to. */
  class Plane {
    /** allow_experimental_mode: only read by the gate; where it is declared and
        what sets it lie outside this model. */
    var allow: bool
    /** experimental_mode_enabled: written only by SetExperimentalMode. */
    var enabled: bool
    const controller: MlController

    /** The initial mode is set by the host before the first call. */
    constructor (allow: bool, enabled: bool)
      ensures this.allow == allow && this.enabled == enabled
      ensures fresh(controller) && controller.log == []
    {
      this.allow := allow;
      this.enabled := enabled;
      controller := new MlController();
    }

    ghost function Snapshot(): State
      reads this, controller
    {
      State(enabled, controller.log)
    }

    /** set_experimental_mode: applies the request if permitted, forces the mode
        off otherwise, and resets then freezes the controller on every permitted
        enable. Returns whether permission was granted. */
    method SetExperimentalMode(requested: bool) returns (r: bool)
      modifies this`enabled, controller
      ensures allow == old(allow)
      ensures r == allow
      ensures enabled == (allow && requested)
      ensures controller.log ==
        old(controller.log) + (if allow && requested then [Call.Reset, Call.Freeze] else [])
      ensures Snapshot() == After(old(Snapshot()), Invocation(allow, requested))
    {
      if !allow {
        enabled := false;
        return false;
      }
      enabled := requested;
      if requested {
        controller.Reset();
        controller.ThrottleFreeze();
      }
      return true;
    }
  }

  /** A series of calls of the gate on one aircraft. Before each call the
      permission flag is set to the value that call sees.
      The aircraft ends in the state `Run` gives, so the lemmas about `Run`
      apply to the class. */
  method CallSeries(p: Plane, invs: seq<Invocation>) returns (results: seq<bool>)
    modifies p, p.controller
    ensures p.Snapshot() == Run(old(p.Snapshot()), invs)
    ensures p.controller.log == old(p.controller.log) + Entries(invs)
    ensures invs != [] ==> p.enabled == (invs[|invs| - 1].allow && invs[|invs| - 1].requested)
    ensures |results| == |invs|
    ensures forall i :: 0 <= i < |invs| ==> results[i] == invs[i].allow
    ensures invs != [] ==> p.allow == invs[|invs| - 1].allow
    ensures invs == [] ==> p.allow == old(p.allow)
  {
    ghost var s0 := p.Snapshot();
    results := [];
    var i := 0;
    while i < |invs|
      invariant 0 <= i <= |invs|
      invariant p.Snapshot() == Run(s0, invs[..i])
      invariant |results| == i
      invariant forall k :: 0 <= k < i ==> results[k] == invs[k].allow
      invariant i > 0 ==> p.allow == invs[i - 1].allow
      invariant i == 0 ==> p.allow == old(p.allow)
    {
      p.allow := invs[i].allow;
      var r := p.SetExperimentalMode(invs[i].requested);
      RunSnoc(s0, invs[..i], invs[i]);
      assert invs[..i + 1] == invs[..i] + [invs[i]];
      results := results + [r];
      i := i + 1;
    }
    assert invs[..i] == invs;
    RunLog(s0, invs);
    if invs != [] {
      RunEnabled(s0, invs);
    }
  }
}
