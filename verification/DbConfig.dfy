/** dbConfigApplyHandler for MariaDB (db_config_apply.go): back up the drop-in,
    swap it, probe the server, and on failure restore what was there. */
module DbConfig {
  import opened Text
  import opened DbTuning
  import opened TuningValues

  /** The drop-in, its `.bak` copy, the broken marker, and how often the server
      was reloaded or restarted. */
  datatype Host = Host(dropIn: Option<string>, bak: Option<string>, broken: bool, restarts: nat)

  /** What the environment does: each file operation and each ping.  The drop-in
      is read for the gate, then for the backup, and the backup is read for the
      rollback.  A failed write leaves the content given beside it. */
  datatype Env = Env(
    gateReadOk: bool, tempOk: bool, prevReadOk: bool, renameOk: bool,
    bakOk: bool, bakDebris: Option<string>,
    bakReadOk: bool, restoreOk: bool, restoreDebris: Option<string>,
    removeOk: bool, markerOk: bool,
    applied: int -> bool, restored: int -> bool)

  datatype Outcome = Invalid | Unchanged | Changed | TempFailed | SwapFailed | RolledBack | Unrecoverable

  const PROBES := 10

  /** One of the ten pings of a probe is answered. */
  predicate Answers(ping: int -> bool) {
    exists i :: 0 <= i < PROBES && ping(i)
  }

  predicate HadPrev(h: Host, e: Env) {
    h.dropIn.Some? && e.prevReadOk
  }

  function BackedUp(h: Host, e: Env): Host {
    if HadPrev(h, e) then h.(bak := if e.bakOk then h.dropIn else e.bakDebris) else h
  }

  /** The rollback; `hadPrev` is whether a drop-in was read before the swap. */
  function Restore(h: Host, hadPrev: bool, e: Env): Host {
    if hadPrev then
      if h.bak == None || !e.bakReadOk then h
      else h.(dropIn := if e.restoreOk then h.bak else e.restoreDebris)
    else if e.removeOk then h.(dropIn := None)
    else h
  }

  function Apply(h: Host, desired: string, e: Env): (Host, Outcome) {
    if e.gateReadOk && h.dropIn == Some(desired) then (h, Unchanged)
    else if !e.tempOk then (h, TempFailed)
    else
      var saved := BackedUp(h, e);
      if !e.renameOk then (saved, SwapFailed)
      else
        var swapped := saved.(dropIn := Some(desired), restarts := h.restarts + 1);
        if Answers(e.applied) then (swapped, Changed)
        else
          var back := Restore(swapped, HadPrev(h, e), e).(restarts := h.restarts + 2);
          if Answers(e.restored) then (back, RolledBack)
          else (back.(broken := back.broken || e.markerOk), Unrecoverable)
  }

  class MariaDB {
    var dropIn: Option<string>
    var bak: Option<string>
    var broken: bool
    var restarts: nat

    constructor (h: Host)
      ensures State() == h
    {
      dropIn, bak, broken, restarts := h.dropIn, h.bak, h.broken, h.restarts;
    }

    function State(): Host
      reads this
    {
      Host(dropIn, bak, broken, restarts)
    }

    /** `dbConfigApplyHandler`. */
    method ApplySettings(kv: Settings, parse: ParseFloat, e: Env) returns (r: Outcome)
      modifies this
      ensures !AllValid("mariadb", kv, parse) ==> r == Invalid && State() == old(State())
      ensures AllValid("mariadb", kv, parse) ==> (State(), r) == Apply(old(State()), Rendered(kv), e)
    {
      hide Rendered, AllValid, Apply;
      var valid := ValidateSet("mariadb", kv, parse);
      var desired := RenderMariaDBDropIn(kv);
      if !valid {
        return Invalid;
      }
      r := ApplyText(desired, e);
    }

    /** Restores the drop-in from the backup, or removes it. */
    method RollBack(hadPrev: bool, e: Env)
      modifies this`dropIn
      ensures State() == Restore(old(State()), hadPrev, e)
    {
      if hadPrev {
        if bak.Some? && e.bakReadOk {
          dropIn := if e.restoreOk then bak else e.restoreDebris;
        }
      } else if e.removeOk {
        dropIn := None;
      }
    }

    method ApplyText(desired: string, e: Env) returns (r: Outcome)
      modifies this
      ensures (State(), r) == Apply(old(State()), desired, e)
    {
      hide Answers, Restore;
      if e.gateReadOk && dropIn == Some(desired) {
        return Unchanged;
      }
      if !e.tempOk {
        return TempFailed;
      }
      var hadPrev := false;
      if dropIn.Some? && e.prevReadOk {
        hadPrev := true;
        bak := if e.bakOk then dropIn else e.bakDebris;
      }
      if !e.renameOk {
        return SwapFailed;
      }
      dropIn := Some(desired);
      restarts := restarts + 1;
      var ok := Probe(e.applied);
      if ok {
        return Changed;
      }
      RollBack(hadPrev, e);
      restarts := restarts + 1;
      var back := Probe(e.restored);
      if back {
        return RolledBack;
      }
      broken := broken || e.markerOk;
      return Unrecoverable;
    }
  }

  method Probe(ping: int -> bool) returns (ok: bool)
    ensures ok <==> Answers(ping)
    ensures ok <==> exists i :: 0 <= i < 10 && ping(i)
  {
    ok := false;
    for i := 0 to PROBES
      invariant !ok && forall j :: 0 <= j < i ==> !ping(j)
    {
      if ping(i) {
        ok := true;
        break;
      }
    }
  }

  /** Every file operation went through. */
  predicate FilesWork(e: Env) {
    && e.gateReadOk && e.tempOk && e.prevReadOk && e.renameOk && e.bakOk && e.bakReadOk && e.restoreOk && e.removeOk
    && e.markerOk
  }

  /** With working file operations, every call ends in exactly one of four ways. */
  lemma FourEndings(h: Host, desired: string, e: Env)
    requires FilesWork(e)
    ensures var (h', r) := Apply(h, desired, e);
      && (r == Unchanged <==> h.dropIn == Some(desired))
      && (r == Unchanged ==> h' == h)
      && (r == Changed <==> h.dropIn != Some(desired) && Answers(e.applied))
      && (r == Changed ==> h'.dropIn == Some(desired) && h'.restarts == h.restarts + 1 && h'.broken == h.broken)
      && (r == RolledBack <==> h.dropIn != Some(desired) && !Answers(e.applied) && Answers(e.restored))
      && (r == RolledBack ==> h'.dropIn == h.dropIn && h'.broken == h.broken)
      && (r == Unrecoverable <==> h.dropIn != Some(desired) && !Answers(e.applied) && !Answers(e.restored))
      && (r == Unrecoverable ==> h'.dropIn == h.dropIn && h'.broken)
      && (r != Unchanged && r != Changed ==> r == RolledBack || r == Unrecoverable)
  {
  }

  /** Every ending, whatever fails: which it is, the text on disk unless it was
      rolled back, the backup, and how often the server was restarted. */
  lemma EndsExactly(h: Host, desired: string, e: Env)
    ensures var (h', r) := Apply(h, desired, e);
      var same := e.gateReadOk && h.dropIn == Some(desired);
      && (r == Unchanged <==> same)
      && (r == TempFailed <==> !same && !e.tempOk)
      && (r == SwapFailed <==> !same && e.tempOk && !e.renameOk)
      && (r == Changed <==> !same && e.tempOk && e.renameOk && exists i :: 0 <= i < 10 && e.applied(i))
      && (r == RolledBack || r == Changed ||
          (r == Unrecoverable <==> !same && e.tempOk && e.renameOk && !exists i :: 0 <= i < 10 && e.restored(i)))
      && r != Invalid
      && (r == Unchanged || r == TempFailed ==> h' == h)
      && (r == SwapFailed ==> h'.dropIn == h.dropIn && h'.restarts == h.restarts)
      && (r == Changed ==> h'.dropIn == Some(desired) && h'.restarts == h.restarts + 1)
      && (r == RolledBack || r == Unrecoverable ==> h'.restarts == h.restarts + 2)
      && (h'.broken <==> h.broken || (r == Unrecoverable && e.markerOk))
      && (r != Unchanged && r != TempFailed ==>
            h'.bak == if h.dropIn.Some? && e.prevReadOk then (if e.bakOk then h.dropIn else e.bakDebris) else h.bak)
  {
  }

  /** Whether a rollback ends with the drop-in there was, from what each file
      operation does.  A drop-in that cannot be read is taken for a missing one. */
  predicate RollbackSound(h: Host, desired: string, e: Env) {
    var bak := if e.bakOk then h.dropIn else e.bakDebris;
    if h.dropIn == None then e.removeOk
    else if !e.prevReadOk then !e.removeOk && h.dropIn == Some(desired)
    else if bak.Some? && e.bakReadOk then (if e.restoreOk then bak else e.restoreDebris) == h.dropIn
    else h.dropIn == Some(desired)
  }

  /** A rollback restores the drop-in exactly when its file operations are sound:
      their errors, all of them ignored, are the only ways to lose it. */
  lemma RollbackExactly(h: Host, desired: string, e: Env)
    requires Apply(h, desired, e).1 == RolledBack || Apply(h, desired, e).1 == Unrecoverable
    ensures Apply(h, desired, e).0.dropIn == h.dropIn <==> RollbackSound(h, desired, e)
  {
    var saved := BackedUp(h, e);
    assert HadPrev(h, e) ==> saved.bak == if e.bakOk then h.dropIn else e.bakDebris;
  }

  lemma GateIsEquality(h: Host, desired: string, e: Env)
    ensures Apply(h, desired, e).1 == Unchanged <==> e.gateReadOk && h.dropIn == Some(desired)
  {
  }

  /** Drift detection: on a drop-in rendered from validated settings, the handler
      skips exactly when it can read it and the settings are the same. */
  lemma GateDetectsDrift(h: Host, prev: Settings, kv: Settings, parse: ParseFloat, e: Env)
    requires ParsesSolid(parse) && AllValid("mariadb", prev, parse) && AllValid("mariadb", kv, parse)
    requires h.dropIn == Some(Rendered(prev))
    ensures Apply(h, Rendered(kv), e).1 == Unchanged <==> e.gateReadOk && kv == prev
  {
    hide Rendered, AllValid, Apply, ParsesSolid;
    GateIsEquality(h, Rendered(kv), e);
    ValidatedInjective(prev, kv, parse);
  }

  /** One reconciler tick: the rendered text and how the host behaves. */
  datatype Tick = Tick(desired: string, env: Env)

  function Ticks(h: Host, ticks: seq<Tick>): Host
    decreases |ticks|
  {
    if ticks == [] then h else Ticks(Apply(h, ticks[0].desired, ticks[0].env).0, ticks[1..])
  }

  /** The last text that was written and after which a ping was answered, starting
      from `good`.  Which configuration the answering server runs is not known:
      the result of the reload is ignored. */
  function LastGood(h: Host, good: Option<string>, ticks: seq<Tick>): Option<string>
    decreases |ticks|
  {
    if ticks == [] then good
    else
      var (h', r) := Apply(h, ticks[0].desired, ticks[0].env);
      LastGood(h', if r == Changed then Some(ticks[0].desired) else good, ticks[1..])
  }

  function Unrecovered(h: Host, ticks: seq<Tick>): nat
    decreases |ticks|
  {
    if ticks == [] then 0
    else
      var (h', r) := Apply(h, ticks[0].desired, ticks[0].env);
      (if r == Unrecoverable then 1 else 0) + Unrecovered(h', ticks[1..])
  }

  /** Over every run of ticks with working file operations, the drop-in on disk is
      the last one after whose writing the server answered, and the broken marker
      appears exactly when some rollback failed too. */
  lemma {:induction false} DiskHoldsLastGood(h: Host, ticks: seq<Tick>)
    requires forall i :: 0 <= i < |ticks| ==> FilesWork(ticks[i].env)
    ensures Ticks(h, ticks).dropIn == LastGood(h, h.dropIn, ticks)
    ensures Ticks(h, ticks).broken <==> h.broken || Unrecovered(h, ticks) > 0
    decreases |ticks|
  {
    if ticks != [] {
      FourEndings(h, ticks[0].desired, ticks[0].env);
      hide Apply, Answers;
      DiskHoldsLastGood(Apply(h, ticks[0].desired, ticks[0].env).0, ticks[1..]);
    }
  }

  /** In the steady state a tick costs nothing: after a change, repeating the
      same text neither writes nor reloads, as long as it can be read. */
  lemma SteadyState(h: Host, desired: string, e: Env, ticks: seq<Tick>)
    requires Apply(h, desired, e).1 == Changed || Apply(h, desired, e).1 == Unchanged
    requires forall i :: 0 <= i < |ticks| ==> ticks[i].desired == desired && ticks[i].env.gateReadOk
    ensures Ticks(Apply(h, desired, e).0, ticks) == Apply(h, desired, e).0
    decreases |ticks|
  {
    var h' := Apply(h, desired, e).0;
    assert h'.dropIn == Some(desired);
    if ticks != [] {
      SteadyState(h', desired, ticks[0].env, ticks[1..]);
    }
  }
}
