/** The nginx site files of hosted domains: writeVhost (domain_create.go), enable
    and disable (domain_toggle.go) and delete (domain_delete.go).  The rendered
    vhost is an opaque text; every file operation, `nginx -t` and the reload
    have an outcome chosen by the environment. */
module Vhost {
  type Domain = string

  /** What sits in sites-enabled under a domain's name. */
  datatype Entry = Symlink(target: string) | Other

  /** `loaded` is what nginx took from each site file at its last reload. */
  datatype Host = Host(
    available: map<Domain, string>,
    enabled: map<Domain, Entry>,
    loaded: map<Domain, string>,
    writes: nat,
    reloads: nat)

  /** The outcome of each step a handler may take. */
  datatype Env = Env(
    readOk: bool, writeOk: bool, renameOk: bool, unlinkOk: bool, symlinkOk: bool,
    testOk: bool, cleanLinkOk: bool, cleanFileOk: bool, reloadOk: bool)

  datatype Outcome = Done | WriteFailed | SymlinkFailed | TestFailed | ReloadFailed

  function ConfigPath(d: Domain): string {
    "/etc/nginx/sites-available/" + d + ".conf"
  }

  predicate Linked(h: Host, d: Domain) {
    d in h.enabled && h.enabled[d] == Symlink(ConfigPath(d))
  }

  /** The site files a reload would load. */
  function Effective(h: Host): map<Domain, string> {
    map d | d in h.available && Linked(h, d) :: h.available[d]
  }

  predicate Loaded(h: Host, d: Domain, text: string) {
    d in h.loaded && h.loaded[d] == text
  }

  function Without<T>(m: map<Domain, T>, d: Domain): map<Domain, T> {
    m - {d}
  }

  function Reload(h: Host, e: Env): (Host, Outcome) {
    if e.reloadOk then (h.(loaded := Effective(h), reloads := h.reloads + 1), Done) else (h, ReloadFailed)
  }

  /** Replaces whatever is in sites-enabled by a link to the site file. */
  function Relink(h: Host, d: Domain, e: Env): (Host, bool) {
    var cleared := if e.unlinkOk then h.(enabled := Without(h.enabled, d)) else h;
    if e.symlinkOk && d !in cleared.enabled
    then (cleared.(enabled := cleared.enabled[d := Symlink(ConfigPath(d))]), true)
    else (cleared, false)
  }

  predicate GateHit(h: Host, d: Domain, want: string, e: Env) {
    e.readOk && d in h.available && h.available[d] == want && Linked(h, d)
  }

  function WriteVhostSpec(h: Host, d: Domain, want: string, e: Env): (Host, Outcome) {
    if GateHit(h, d, want, e) then (h, Done)
    else if !e.writeOk || !e.renameOk then (h, WriteFailed)
    else
      var written := h.(available := h.available[d := want], writes := h.writes + 1);
      var (linked, ok) := if Linked(h, d) then (written, true) else Relink(written, d, e);
      if !ok then (linked, SymlinkFailed)
      else if !e.testOk then
        var unlinked := if e.cleanLinkOk then linked.(enabled := Without(linked.enabled, d)) else linked;
        (if e.cleanFileOk then unlinked.(available := Without(unlinked.available, d)) else unlinked, TestFailed)
      else Reload(linked, e)
  }

  function EnableSpec(h: Host, d: Domain, e: Env): (Host, Outcome) {
    var (linked, ok) := Relink(h, d, e);
    if !ok then (linked, SymlinkFailed)
    else if !e.testOk then
      (if e.cleanLinkOk then linked.(enabled := Without(linked.enabled, d)) else linked, TestFailed)
    else Reload(linked, e)
  }

  function DisableSpec(h: Host, d: Domain, e: Env): (Host, Outcome) {
    Reload(if e.unlinkOk then h.(enabled := Without(h.enabled, d)) else h, e)
  }

  function DeleteSpec(h: Host, d: Domain, e: Env): (Host, Outcome) {
    var unlinked := if e.unlinkOk then h.(enabled := Without(h.enabled, d)) else h;
    Reload(if e.cleanFileOk then unlinked.(available := Without(unlinked.available, d)) else unlinked, e)
  }

  class Server {
    var available: map<Domain, string>
    var enabled: map<Domain, Entry>
    var loaded: map<Domain, string>
    var writes: nat
    var reloads: nat

    constructor (h: Host)
      ensures State() == h
    {
      available, enabled, loaded, writes, reloads := h.available, h.enabled, h.loaded, h.writes, h.reloads;
    }

    function State(): Host
      reads this
    {
      Host(available, enabled, loaded, writes, reloads)
    }

    method ReloadNginx(e: Env) returns (r: Outcome)
      modifies this
      ensures (State(), r) == Reload(old(State()), e)
    {
      if !e.reloadOk {
        return ReloadFailed;
      }
      loaded := Effective(State());
      reloads := reloads + 1;
      return Done;
    }

    method Link(d: Domain, e: Env) returns (ok: bool)
      modifies this
      ensures (State(), ok) == Relink(old(State()), d, e)
    {
      if e.unlinkOk {
        enabled := Without(enabled, d);
      }
      ok := e.symlinkOk && d !in enabled;
      if ok {
        enabled := enabled[d := Symlink(ConfigPath(d))];
      }
    }

    /** `writeVhost`. */
    method WriteVhost(d: Domain, want: string, e: Env) returns (r: Outcome)
      modifies this
      ensures (State(), r) == WriteVhostSpec(old(State()), d, want, e)
    {
      hide ConfigPath, Effective, Without, Relink, Reload, Loaded;
      var linkOK := d in enabled && enabled[d] == Symlink(ConfigPath(d));
      if e.readOk && d in available && available[d] == want && linkOK {
        return Done;
      }
      if !e.writeOk {
        return WriteFailed;
      }
      if !e.renameOk {
        return WriteFailed;
      }
      available := available[d := want];
      writes := writes + 1;
      if !linkOK {
        var ok := Link(d, e);
        if !ok {
          return SymlinkFailed;
        }
      }
      if !e.testOk {
        if e.cleanLinkOk {
          enabled := Without(enabled, d);
        }
        if e.cleanFileOk {
          available := Without(available, d);
        }
        return TestFailed;
      }
      r := ReloadNginx(e);
    }

    /** `domainEnableHandler`. */
    method Enable(d: Domain, e: Env) returns (r: Outcome)
      modifies this
      ensures (State(), r) == EnableSpec(old(State()), d, e)
    {
      var ok := Link(d, e);
      if !ok {
        return SymlinkFailed;
      }
      if !e.testOk {
        if e.cleanLinkOk {
          enabled := Without(enabled, d);
        }
        return TestFailed;
      }
      r := ReloadNginx(e);
    }

    /** `domainDisableHandler`. */
    method Disable(d: Domain, e: Env) returns (r: Outcome)
      modifies this
      ensures (State(), r) == DisableSpec(old(State()), d, e)
    {
      if e.unlinkOk {
        enabled := Without(enabled, d);
      }
      r := ReloadNginx(e);
    }

    /** `domainDeleteHandler`. */
    method Delete(d: Domain, e: Env) returns (r: Outcome)
      modifies this
      ensures (State(), r) == DeleteSpec(old(State()), d, e)
    {
      if e.unlinkOk {
        enabled := Without(enabled, d);
      }
      if e.cleanFileOk {
        available := Without(available, d);
      }
      r := ReloadNginx(e);
    }
  }

  datatype Op = Write(d: Domain, want: string) | Enable(d: Domain) | Disable(d: Domain) | Delete(d: Domain)

  function Step(h: Host, op: Op, e: Env): (Host, Outcome) {
    match op
    case Write(d, want) => WriteVhostSpec(h, d, want, e)
    case Enable(d) => EnableSpec(h, d, e)
    case Disable(d) => DisableSpec(h, d, e)
    case Delete(d) => DeleteSpec(h, d, e)
  }

  /** Every enabled site file is what nginx is running. */
  ghost predicate InSync(h: Host) {
    forall d :: d in h.available && Linked(h, d) ==> Loaded(h, d, h.available[d])
  }

  /** The two ways a step can leave an enabled site file nginx has not loaded:
      the reload after a change fails, or the cleanup after a failed test does. */
  predicate LosesSync(h: Host, op: Op, e: Env) {
    match op
    case Write(d, want) =>
      && !GateHit(h, d, want, e) && e.writeOk && e.renameOk
      && (Linked(h, d) || Relink(h, d, e).1)
      && !Loaded(h, d, want)
      && (if e.testOk then !e.reloadOk else !e.cleanLinkOk && !e.cleanFileOk)
    case Enable(d) =>
      && Relink(h, d, e).1
      && d in h.available && !Loaded(h, d, h.available[d])
      && (if e.testOk then !e.reloadOk else !e.cleanLinkOk)
    case _ => false
  }

  /** The same domain in two hosts: same file, link and loaded text. */
  ghost predicate SameSite(a: Host, b: Host, d: Domain) {
    && (d in a.available <==> d in b.available) && (d in a.available ==> a.available[d] == b.available[d])
    && (d in a.enabled <==> d in b.enabled) && (d in a.enabled ==> a.enabled[d] == b.enabled[d])
  }

  lemma ReloadSyncs(h: Host, e: Env)
    ensures Reload(h, e).1 == Done <==> e.reloadOk
    ensures e.reloadOk ==> InSync(Reload(h, e).0)
    ensures !e.reloadOk ==> Reload(h, e) == (h, ReloadFailed)
    ensures forall d :: SameSite(h, Reload(h, e).0, d)
  {
  }

  lemma RelinkAt(h: Host, d: Domain, e: Env)
    ensures var (h', ok) := Relink(h, d, e);
      && h'.available == h.available && h'.loaded == h.loaded
      && (ok ==> Linked(h', d))
      && (!ok ==> Linked(h', d) ==> Linked(h, d))
      && forall other :: other != d ==> SameSite(h, h', other)
  {
  }

  /** Elsewhere nothing changes, and the domain itself decides. */
  lemma SyncAt(h: Host, h': Host, d: Domain)
    requires InSync(h) && h'.loaded == h.loaded
    requires forall other :: other != d ==> SameSite(h, h', other)
    ensures InSync(h') <==> (d in h'.available && Linked(h', d) ==> Loaded(h', d, h'.available[d]))
  {
    forall other | other != d && other in h'.available && Linked(h', other)
      ensures Loaded(h', other, h'.available[other])
    {
      assert SameSite(h, h', other) && Linked(h, other);
    }
  }

  lemma WriteElsewhere(h: Host, d: Domain, want: string, e: Env, other: Domain)
    requires other != d
    ensures SameSite(h, WriteVhostSpec(h, d, want, e).0, other)
  {
    hide Relink, Reload, ConfigPath;
    if !GateHit(h, d, want, e) && e.writeOk && e.renameOk {
      var written := h.(available := h.available[d := want], writes := h.writes + 1);
      RelinkAt(written, d, e);
      var linked := if Linked(h, d) then written else Relink(written, d, e).0;
      assert SameSite(written, linked, other);
      ReloadSyncs(linked, e);
      assert SameSite(linked, Reload(linked, e).0, other);
    }
  }

  /** No operation touches the file or the link of another domain. */
  lemma OthersUntouched(h: Host, op: Op, e: Env, other: Domain)
    requires other != op.d
    ensures SameSite(h, Step(h, op, e).0, other)
  {
    hide Relink, Reload, ConfigPath, WriteVhostSpec;
    match op
    case Write(d, want) =>
      WriteElsewhere(h, d, want, e, other);
    case Enable(d) =>
      var linked := Relink(h, d, e).0;
      RelinkAt(h, d, e);
      ReloadSyncs(linked, e);
      assert SameSite(h, linked, other) && SameSite(linked, Reload(linked, e).0, other);
    case Disable(d) =>
      var unlinked := if e.unlinkOk then h.(enabled := Without(h.enabled, d)) else h;
      ReloadSyncs(unlinked, e);
      assert SameSite(h, unlinked, other) && SameSite(unlinked, Reload(unlinked, e).0, other);
    case Delete(d) =>
      var unlinked := if e.unlinkOk then h.(enabled := Without(h.enabled, d)) else h;
      var gone := if e.cleanFileOk then unlinked.(available := Without(unlinked.available, d)) else unlinked;
      ReloadSyncs(gone, e);
      assert SameSite(h, gone, other) && SameSite(gone, Reload(gone, e).0, other);
  }

  lemma WriteKeepsSync(h: Host, d: Domain, want: string, e: Env)
    requires InSync(h)
    ensures InSync(WriteVhostSpec(h, d, want, e).0) <==> !LosesSync(h, Write(d, want), e)
  {
    hide InSync, ConfigPath, Relink, Reload;
    var (h', r) := WriteVhostSpec(h, d, want, e);
    if !GateHit(h, d, want, e) && e.writeOk && e.renameOk {
      var written := h.(available := h.available[d := want], writes := h.writes + 1);
      RelinkAt(written, d, e);
      RelinkAt(h, d, e);
      RelinkSame(h, written, d, e);
      var (linked, ok) := if Linked(h, d) then (written, true) else Relink(written, d, e);
      ReloadSyncs(linked, e);
      if r != Done {
        forall other | other != d
          ensures SameSite(h, h', other)
        {
          WriteElsewhere(h, d, want, e, other);
        }
        SyncAt(h, h', d);
        SyncAt(h, h, d);
      }
    }
  }

  lemma RelinkSame(h: Host, written: Host, d: Domain, e: Env)
    requires written.enabled == h.enabled
    ensures Relink(written, d, e).1 == Relink(h, d, e).1
  {
  }

  lemma EnableKeepsSync(h: Host, d: Domain, e: Env)
    requires InSync(h)
    ensures InSync(EnableSpec(h, d, e).0) <==> !LosesSync(h, Enable(d), e)
  {
    hide InSync, ConfigPath, Relink, Reload;
    var (h', r) := EnableSpec(h, d, e);
    RelinkAt(h, d, e);
    ReloadSyncs(Relink(h, d, e).0, e);
    if r != Done {
      forall other | other != d
        ensures SameSite(h, h', other)
      {
        assert SameSite(h, Relink(h, d, e).0, other);
      }
      SyncAt(h, h', d);
      SyncAt(h, h, d);
    }
  }

  lemma RemovalKeepsSync(h: Host, d: Domain, e: Env)
    requires InSync(h)
    ensures InSync(DisableSpec(h, d, e).0) && InSync(DeleteSpec(h, d, e).0)
  {
    hide ConfigPath, Reload;
    var unlinked := if e.unlinkOk then h.(enabled := Without(h.enabled, d)) else h;
    var gone := if e.cleanFileOk then unlinked.(available := Without(unlinked.available, d)) else unlinked;
    ReloadSyncs(unlinked, e);
    ReloadSyncs(gone, e);
  }

  /** A step keeps nginx in sync with the enabled site files exactly when it is
      none of those two. */
  lemma StepKeepsSync(h: Host, op: Op, e: Env)
    requires InSync(h)
    ensures InSync(Step(h, op, e).0) <==> !LosesSync(h, op, e)
  {
    match op
    case Write(d, want) => WriteKeepsSync(h, d, want, e);
    case Enable(d) => EnableKeepsSync(h, d, e);
    case Disable(d) => RemovalKeepsSync(h, d, e);
    case Delete(d) => RemovalKeepsSync(h, d, e);
  }

  /** The states of a run, one per operation, after the starting one. */
  function Run(h: Host, ops: seq<(Op, Env)>): Host
    decreases |ops|
  {
    if ops == [] then h else Run(Step(h, ops[0].0, ops[0].1).0, ops[1..])
  }

  predicate NeverLosesSync(h: Host, ops: seq<(Op, Env)>)
    decreases |ops|
  {
    ops == [] ||
    (!LosesSync(h, ops[0].0, ops[0].1) && NeverLosesSync(Step(h, ops[0].0, ops[0].1).0, ops[1..]))
  }

  lemma {:induction false} RunKeepsSync(h: Host, ops: seq<(Op, Env)>)
    requires InSync(h) && NeverLosesSync(h, ops)
    ensures InSync(Run(h, ops))
    decreases |ops|
  {
    hide Step, LosesSync, InSync;
    if ops != [] {
      StepKeepsSync(h, ops[0].0, ops[0].1);
      RunKeepsSync(Step(h, ops[0].0, ops[0].1).0, ops[1..]);
    }
  }

  /** What an ok return promises about the disk and about nginx. */
  predicate OkMeans(h: Host, op: Op) {
    match op
    case Write(d, want) =>
      d in h.available && h.available[d] == want && Linked(h, d) && Loaded(h, d, want)
    case Enable(d) => Linked(h, d) && (d in h.available ==> Loaded(h, d, h.available[d]))
    case Disable(d) => d !in h.enabled && d !in h.loaded
    case Delete(d) => d !in h.enabled && d !in h.available && d !in h.loaded
  }

  /** Every removal whose error is ignored went through or had nothing to do. */
  predicate RemovalsWork(h: Host, op: Op, e: Env) {
    match op
    case Disable(d) => e.unlinkOk || d !in h.enabled
    case Delete(d) => (e.unlinkOk || d !in h.enabled) && (e.cleanFileOk || d !in h.available)
    case _ => true
  }

  /** Over every run that lost sync nowhere, an ok return of the next operation
      means what it says exactly when its removals, whose errors are ignored, did
      their work. */
  lemma OkAfterAnyRun(h: Host, ops: seq<(Op, Env)>, op: Op, e: Env)
    requires InSync(h) && NeverLosesSync(h, ops)
    requires Step(Run(h, ops), op, e).1 == Done
    ensures OkMeans(Step(Run(h, ops), op, e).0, op) <==> RemovalsWork(Run(h, ops), op, e)
  {
    RunKeepsSync(h, ops);
  }

  /** An ok write on any host whatever: file and link are right, and nginx runs
      the text unless the content gate answered for a site nginx never loaded. */
  lemma OkWriteExactly(h: Host, d: Domain, want: string, e: Env)
    requires WriteVhostSpec(h, d, want, e).1 == Done
    ensures var h' := WriteVhostSpec(h, d, want, e).0;
      && d in h'.available && h'.available[d] == want && Linked(h', d)
      && h'.enabled[d] == Symlink("/etc/nginx/sites-available/" + d + ".conf")
      && (Loaded(h', d, want) <==> !GateHit(h, d, want, e) || Loaded(h, d, want))
  {
  }

  /** A failed test reloads nothing, and leaves neither file nor link exactly
      when both removals work. */
  lemma FailedTestCleansUp(h: Host, d: Domain, want: string, e: Env)
    requires WriteVhostSpec(h, d, want, e).1 == TestFailed
    ensures var h' := WriteVhostSpec(h, d, want, e).0;
      && (d !in h'.available && d !in h'.enabled <==> e.cleanLinkOk && e.cleanFileOk)
      && h'.loaded == h.loaded && h'.reloads == h.reloads
  {
  }

  /** Repeating an ok write with the same text writes and reloads nothing. */
  lemma RepeatIsFree(h: Host, d: Domain, want: string, e: Env, again: Env)
    requires WriteVhostSpec(h, d, want, e).1 == Done && again.readOk
    ensures var h' := WriteVhostSpec(h, d, want, e).0; WriteVhostSpec(h', d, want, again) == (h', Done)
  {
  }

  /** The gate hides a failed reload: after it, every retry with the same text
      answers ok at once, and nginx keeps running what it ran before. */
  lemma RetryAfterFailedReload(h: Host, d: Domain, want: string, e: Env, retry: Env)
    requires WriteVhostSpec(h, d, want, e).1 == ReloadFailed && retry.readOk
    ensures var h' := WriteVhostSpec(h, d, want, e).0;
      WriteVhostSpec(h', d, want, retry) == (h', Done) && h'.loaded == h.loaded
  {
  }

  /** The link can be put in place, where a wrong entry must go first. */
  predicate CanLink(h: Host, d: Domain, e: Env) {
    e.symlinkOk && (e.unlinkOk || d !in h.enabled)
  }

  /** How each operation ends, by what works and what was there. */
  lemma OutcomeExactly(h: Host, op: Op, e: Env)
    ensures var r, gate := Step(h, op, e).1, op.Write? && GateHit(h, op.d, op.want, e);
      && (r == WriteFailed <==> op.Write? && !gate && !(e.writeOk && e.renameOk))
      && (r == SymlinkFailed <==>
            || (op.Write? && !gate && e.writeOk && e.renameOk && !Linked(h, op.d) && !CanLink(h, op.d, e))
            || (op.Enable? && !CanLink(h, op.d, e)))
      && (r == TestFailed <==>
            && !e.testOk && !gate
            && (|| (op.Write? && e.writeOk && e.renameOk && (Linked(h, op.d) || CanLink(h, op.d, e)))
                || (op.Enable? && CanLink(h, op.d, e))))
      && (r == Done ==> gate || e.reloadOk)
  {
  }

  /** Which of the domain's own file and entry an operation leaves: a write alone
      changes the file, a delete removes it, enable and disable keep it. */
  lemma OwnFileAndEntry(h: Host, op: Op, e: Env)
    ensures var (h', r) := Step(h, op, e);
      && (op.Enable? || op.Disable? || r == WriteFailed ==> h'.available == h.available)
      && (op.Delete? ==> h'.available == if e.cleanFileOk then map f | f in h.available && f != op.d :: h.available[f]
                                         else h.available)
      && (op.Write? && (r == SymlinkFailed || r == ReloadFailed) ==> h'.available == h.available[op.d := op.want])
      && (op.Disable? || op.Delete? ==> (op.d in h'.enabled <==> !e.unlinkOk && op.d in h.enabled))
      && ((op.Write? || op.Enable?) && r == ReloadFailed ==> Linked(h', op.d))
      && (r == SymlinkFailed ==> (op.d in h'.enabled <==> !e.unlinkOk && op.d in h.enabled))
      && (op.Enable? && r == TestFailed ==> (op.d in h'.enabled <==> !e.cleanLinkOk))
  {
  }

  /** What nginx runs changes at a reload only, and then to the enabled files. */
  lemma OnlyReloadsLoad(h: Host, op: Op, e: Env)
    ensures var h' := Step(h, op, e).0;
      || (h'.reloads == h.reloads && h'.loaded == h.loaded)
      || (h'.reloads == h.reloads + 1 && RunsEnabledFiles(h'))
  {
    var h' := Step(h, op, e).0;
    EffectiveRuns(h');
    ReloadedFrom(h'.(loaded := h.loaded, reloads := h.reloads), h');
    hide Effective, RunsEnabledFiles;
  }

  lemma ReloadedFrom(h: Host, h': Host)
    requires h.available == h'.available && h.enabled == h'.enabled
    ensures Effective(h) == Effective(h')
  {
  }

  /** nginx runs exactly the files that are enabled, as they are now. */
  ghost predicate RunsEnabledFiles(h: Host) {
    && (forall d :: d in h.loaded <==> d in h.available && d in h.enabled && h.enabled[d] == Symlink(ConfigPath(d)))
    && (forall d :: d in h.loaded ==> h.loaded[d] == h.available[d])
  }

  lemma EffectiveRuns(h: Host)
    ensures h.loaded == Effective(h) ==> RunsEnabledFiles(h)
  {
  }

  /** A domain that is disabled and enabled again is back as it was. */
  lemma DisableThenEnable(h: Host, d: Domain, off: Env, on: Env)
    requires d in h.available && off.unlinkOk && off.reloadOk
    requires on.unlinkOk && on.symlinkOk && on.testOk && on.reloadOk
    ensures var (down, r) := Step(h, Disable(d), off);
      && r == Done && d !in down.enabled && d !in down.loaded
      && var (up, r') := Step(down, Enable(d), on);
      r' == Done && up.available == h.available && Linked(up, d) && Loaded(up, d, h.available[d])
  {
    var down := Step(h, Disable(d), off).0;
    assert down.available == h.available && d !in down.enabled;
  }
}
