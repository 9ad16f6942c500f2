/** Routing through a remote exit node (remote_exit.go) and the watcher tick that follows
    (watcher_firewall.go): manifest, Tailscale prefs and local rules are brought to agree. */
module RemoteExit {
  import opened Text
  import opened ExitRules
  import opened ExitPolicy
  import opened ExitNode
  import Saga

  /** The manifest's remote node. */
  datatype Remote = Remote(peer: string, mode: string, clients: seq<Client>)

  /** An advertised prefix; the two of length 0 are the exit routes. */
  datatype Prefix = Prefix(v4: bool, address: string, bits: nat)

  datatype Prefs = Prefs(exitNode: string, allowLan: bool, routes: seq<Prefix>, other: string)

  /** A masked edit: the exit-node fields are always set, the routes only where given. */
  datatype Mask = Mask(exitNode: string, allowLan: bool, routes: Option<seq<Prefix>>)

  /** The stores the service keeps in step. A manifest setter changes its field even if its save fails. */
  datatype World = World(remote: Option<Remote>, advertise: bool, prefs: Prefs, host: Host)

  datatype Request = Request(peer: string, mode: string, clients: seq<Client>, confirm: bool)

  /** The outside during one call: the exit-node host, the peers and whether each offers itself as an
      exit node (None: status cannot be read), and which calls work. */
  datatype Site = Site(
    exit: Env, applyCtx: Saga.Cancellation, peers: Option<map<string, bool>>, prefsReadable: bool,
    remoteSaveOk: bool, advertiseSaveOk: bool, editOk: bool,
    undoSaveOk: bool, undoEditOk: bool)

  datatype Answer = Refused(why: string) | ConfirmRequired | Enabled | Failed(failure: Saga.Failure)

  /** Prefs.AdvertisesExitNode: both families' exit routes are there. */
  predicate Advertises(routes: seq<Prefix>) {
    (exists r :: r in routes && r.v4 && r.bits == 0) && (exists r :: r in routes && !r.v4 && r.bits == 0)
  }

  function NonExit(routes: seq<Prefix>): seq<Prefix> {
    if routes == [] then [] else (if routes[0].bits != 0 then [routes[0]] else []) + NonExit(routes[1..])
  }

  /** filterNonExitRoutes */
  method FilterNonExitRoutes(routes: seq<Prefix>) returns (out: seq<Prefix>)
    ensures out == NonExit(routes)
  {
    out := [];
    assert routes[0..] == routes;
    for i := 0 to |routes|
      invariant NonExit(routes) == out + NonExit(routes[i..])
    {
      assert routes[i..][0] == routes[i] && routes[i..][1..] == routes[i + 1..];
      Assoc(out, if routes[i].bits != 0 then [routes[i]] else [], NonExit(routes[i + 1..]));
      if routes[i].bits != 0 {
        out := out + [routes[i]];
      }
    }
  }

  /** Exactly the exit routes are gone, with multiplicity. */
  lemma {:induction false} NonExitExact(routes: seq<Prefix>, r: Prefix)
    ensures multiset(NonExit(routes))[r] == if r.bits == 0 then 0 else multiset(routes)[r]
    ensures r in NonExit(routes) <==> r in routes && r.bits != 0
  {
    if routes != [] {
      NonExitExact(routes[1..], r);
      assert routes == [routes[0]] + routes[1..];
    }
  }

  function Edit(prefs: Prefs, m: Mask): Prefs {
    Prefs(m.exitNode, m.allowLan, if m.routes.Some? then m.routes.value else prefs.routes, prefs.other)
  }

  function EditPrefs(w: World, m: Mask, ok: bool): Saga.Outcome<World> {
    if ok then Saga.Outcome(w.(prefs := Edit(w.prefs, m)), None) else Saga.Outcome(w, FAILED)
  }

  // ---------- Enable ----------

  function ModeOf(req: Request): string {
    if req.mode == "" then ALL else req.mode
  }

  function PolicyFor(req: Request): Policy {
    Policy(ModeOf(req), req.clients)
  }

  function NewRemote(req: Request): Option<Remote> {
    Some(Remote(req.peer, ModeOf(req), req.clients))
  }

  /** What Enable answers before it changes anything, if it stops there. */
  function Refusal(env: Site, w: World, req: Request): Option<Answer> {
    if req.peer == "" then Some(Refused("peerId is required"))
    else if env.peers.None? then Some(Refused("status"))
    else if req.peer !in env.peers.value then Some(Refused("peer not found"))
    else if !env.peers.value[req.peer] then Some(Refused("not an exit node option"))
    else if !env.prefsReadable then Some(Refused("prefs"))
    else if !req.confirm && (Advertises(w.prefs.routes) || ModeOf(req) == ALL) then Some(ConfirmRequired)
    else if ModeOf(req) == SELECTIVE && !Validated(PolicyFor(req)) then Some(Refused("policy"))
    else None
  }

  function SaveErr(ok: bool): Option<string> {
    if ok then None else FAILED
  }

  function RemoteOp(env: Site, before: Option<Remote>, after: Option<Remote>): Saga.Op<World> {
    Saga.Op("persist manifest with new peer",
            (x: World) => Saga.Outcome(x.(remote := after), SaveErr(env.remoteSaveOk)),
            (x: World) => Saga.Outcome(x.(remote := before), SaveErr(env.undoSaveOk)))
  }

  function AdvertiseOp(env: Site): Saga.Op<World> {
    Saga.Op("clear advertise-exit-node in manifest",
            (x: World) => Saga.Outcome(x.(advertise := false), SaveErr(env.advertiseSaveOk)),
            (x: World) => Saga.Outcome(x.(advertise := true), SaveErr(env.undoSaveOk)))
  }

  function ApplyOp(env: Site, p: Policy): Saga.Op<World> {
    Saga.Op("apply local exit-node rules",
            (x: World) => var (h, ok) := Apply(env.exit, x.host, p, env.applyCtx); Saga.Outcome(x.(host := h), SaveErr(ok)),
            (x: World) => var (h, ok) := Cleanup(env.exit, x.host); Saga.Outcome(x.(host := h), SaveErr(ok)))
  }

  function PrefsOp(env: Site, edit: Mask, restore: Mask): Saga.Op<World> {
    Saga.Op("set Tailscale prefs",
            (x: World) => EditPrefs(x, edit, env.editOk),
            (x: World) => EditPrefs(x, restore, env.undoEditOk))
  }

  function SetMask(w: World, req: Request): Mask {
    Mask(req.peer, true, if Advertises(w.prefs.routes) then Some(NonExit(w.prefs.routes)) else None)
  }

  function RestoreMask(w: World): Mask {
    Mask(w.prefs.exitNode, w.prefs.allowLan, if Advertises(w.prefs.routes) then Some(w.prefs.routes) else None)
  }

  function EnableSteps(env: Site, w: World, req: Request): seq<Saga.Op<World>> {
    [RemoteOp(env, w.remote, NewRemote(req))]
    + (if Advertises(w.prefs.routes) then [AdvertiseOp(env)] else [])
    + [ApplyOp(env, PolicyFor(req)), PrefsOp(env, SetMask(w, req), RestoreMask(w))]
  }

  function Enable(env: Site, w: World, req: Request, ctx: Saga.Cancellation): (World, Answer) {
    var no := Refusal(env, w, req);
    if no.Some? then (w, no.value)
    else
      var steps := EnableSteps(env, w, req);
      var failure := Saga.Error(steps, ctx, w);
      (Saga.Final(steps, ctx, w), if failure.Some? then Failed(failure.value) else Enabled)
  }

  // ---------- Disable and the tick ----------

  datatype DisableResult = NotDisabled | Disabled | Partial

  function Disable(env: Site, w: World): (World, DisableResult) {
    if !env.editOk then (w, NotDisabled)
    else
      var (h, ok) := Cleanup(env.exit, w.host);
      (World(None, w.advertise, Edit(w.prefs, Mask("", false, None)), h), if ok && env.remoteSaveOk then Disabled else Partial)
  }

  /** SyncManifestFromTailscale, with no saga in flight: the world and whether it reports no error. */
  function Sync(env: Site, w: World): (World, bool) {
    var node := w.prefs.exitNode;
    if !env.prefsReadable then (w, false)
    else if node == "" then
      if w.remote.None? then (w, true)
      else (w.(host := Cleanup(env.exit, w.host).0, remote := None), env.remoteSaveOk)
    else if w.remote.None? then (w.(remote := Some(Remote(node, ALL, []))), env.remoteSaveOk)
    else if w.remote.value.peer == node then (w, true)
    else (w.(remote := Some(w.remote.value.(peer := node))), env.remoteSaveOk)
  }

  /** The policy the watcher applies for a remote node. */
  function PolicyOf(r: Option<Remote>): Policy {
    if r.Some? && r.value.mode != OFF then Policy(r.value.mode, r.value.clients) else Policy("", [])
  }

  datatype Report = Report(syncOk: bool, rules: Verdict)

  /** restoreExitNodeRules */
  function Tick(env: Site, w: World, ctx: Saga.Cancellation): (World, Report) {
    var (w1, ok) := Sync(env, w);
    var (h, v) := Reconcile(env.exit, w1.host, PolicyOf(w1.remote), ctx);
    (w1.(host := h), Report(ok, v))
  }

  predicate ErrorFree(r: Report) {
    r.syncOk && (r.rules == Quiet || r.rules == Applied(true))
  }

  // ---------- what they guarantee ----------

  /** The manifest names the exit node Tailscale uses. */
  predicate Synced(w: World) {
    if w.prefs.exitNode == "" then w.remote.None? else w.remote.Some? && w.remote.value.peer == w.prefs.exitNode
  }

  /** The host side is fit for the exit-node service, and its deletes work. */
  ghost predicate Healthy(env: Site, w: World) {
    Working(env.exit) && Presentable(env.exit) && Orderly(env.exit, w.host)
  }

  /** The local rules are those the manifest's remote node requires. */
  ghost predicate RulesInPlace(env: Site, w: World) {
    var p := PolicyOf(w.remote);
    && BridgesFor(env.exit, p).Some?
    && var desired := Desired(p, BridgesFor(env.exit, p).value);
    && multiset(Current(w.host)) == multiset(desired)
    && HasMasquerade(env.exit, w.host) == (desired != [])
  }

  /** The remote node's policy passes validation and is spelled the kernel's way. */
  ghost predicate Sound(env: Site, r: Option<Remote>) {
    var p := PolicyOf(r);
    (p.mode == "" || Validated(p)) && Canonical(env.exit, p)
  }

  /** Applying any policy leaves the host orderly, whether it succeeds or fails. */
  lemma ApplyKeepsOrderly(env: Env, h: Host, p: Policy, ctx: Saga.Cancellation)
    requires Working(env) && Presentable(env) && Orderly(env, h)
    ensures Orderly(env, Apply(env, h, p, ctx).0)
  {
    if !Apply(env, h, p, ctx).1 {
      FailedApplyLeavesNothing(env, h, p, ctx);
    } else {
      CleanupClears(env, h);
      var clean := Cleaned(env, h);
      var h' := Apply(env, h, p, ctx).0;
      if p.mode == OFF || p.mode == "" {
        SameRules(env, clean, h');
      } else {
        var bridges := BridgesFor(env, p).value;
        PlanFacts(env, p, bridges);
        var cmds := PlanFor(p, bridges).cmds;
        if p.mode == SELECTIVE && p.clients == [] {
          EmptyApply(env, p, Steps(env, p, cmds), clean, ctx);
          SameRules(env, clean, h');
        } else {
          FullPlan(env, p, cmds);
          FinishedApply(env, p, cmds, Steps(env, p, cmds), clean, ctx);
        }
      }
    }
  }

  /** With readable prefs, syncing makes the manifest name Tailscale's exit node, and changes nothing if
      it already does. */
  lemma SyncAgrees(env: Site, w: World)
    requires Healthy(env, w)
    ensures var (w1, ok) := Sync(env, w);
            && (ok ==> env.prefsReadable) && (env.prefsReadable ==> Synced(w1))
            && w1.prefs == w.prefs && Orderly(env.exit, w1.host) && (Synced(w) ==> w1 == w)
  {
    hide Cleanup, Orderly, Current, Working, Presentable, HasMasquerade;
    CleanupClears(env.exit, w.host);
  }

  lemma SyncIsQuiet(env: Site, w: World)
    requires Synced(w) && env.prefsReadable
    ensures Sync(env, w) == (w, true)
  {
  }

  /** A tick without errors brings any world into agreement: the manifest names Tailscale's exit node,
      the local rules are what it requires, and the prefs are untouched. */
  lemma TickHeals(env: Site, w: World, ctx: Saga.Cancellation)
    requires Healthy(env, w) && Sound(env, Sync(env, w).0.remote) && ErrorFree(Tick(env, w, ctx).1)
    ensures var w' := Tick(env, w, ctx).0;
            && Synced(w') && RulesInPlace(env, w') && Healthy(env, w')
            && w'.prefs == w.prefs && w'.remote == Sync(env, w).0.remote && (Synced(w) ==> w'.remote == w.remote)
  {
    hide Reconcile, Cleanup, Orderly, Current, Desired, Presentable, Working, Canonical, Validated, Sync, PolicyOf, HasMasquerade;
    var w1 := Sync(env, w).0;
    SyncAgrees(env, w);
    ReconcileConverges(env.exit, w1.host, PolicyOf(w1.remote), ctx, ctx);
  }

  /** A second tick finds nothing to do. */
  lemma TickIsIdempotent(env: Site, w: World, ctx: Saga.Cancellation, ctx': Saga.Cancellation)
    requires Healthy(env, w) && Sound(env, Sync(env, w).0.remote) && ErrorFree(Tick(env, w, ctx).1)
    ensures var w' := Tick(env, w, ctx).0; Tick(env, w', ctx') == (w', Report(true, Quiet))
  {
    hide Reconcile, Cleanup, Orderly, Current, Desired, Presentable, Working, Canonical, Validated, Sync, PolicyOf, HasMasquerade;
    var w1 := Sync(env, w).0;
    SyncAgrees(env, w);
    ReconcileConverges(env.exit, w1.host, PolicyOf(w1.remote), ctx, ctx');
    SyncIsQuiet(env, Tick(env, w, ctx).0);
  }

  // ---------- a failed Enable ----------

  /** x agrees with y on the remote node and the prefs, and its host is orderly. */
  ghost predicate Back(env: Site, x: World, y: World) {
    x.remote == y.remote && x.prefs == y.prefs && Orderly(env.exit, x.host)
  }

  ghost function Same(env: Site): (World, World) -> bool {
    (x, y) => Back(env, x, y)
  }

  /** The steps of Enable, by position. */
  ghost predicate AreEnableSteps(env: Site, w: World, req: Request, steps: seq<Saga.Op<World>>) {
    var n := if Advertises(w.prefs.routes) then 1 else 0;
    && |steps| == n + 3
    && steps[0] == RemoteOp(env, w.remote, NewRemote(req))
    && (n == 1 ==> steps[1] == AdvertiseOp(env))
    && steps[n + 1] == ApplyOp(env, PolicyFor(req))
    && steps[n + 2] == PrefsOp(env, SetMask(w, req), RestoreMask(w))
  }

  lemma EnableStepsAre(env: Site, w: World, req: Request)
    ensures AreEnableSteps(env, w, req, EnableSteps(env, w, req))
  {
  }

  lemma ApplyOpReversible(env: Site, p: Policy, x: World)
    requires Healthy(env, x)
    ensures var o := ApplyOp(env, p).do(x);
            && o.state == x.(host := o.state.host) && Orderly(env.exit, o.state.host)
    ensures Saga.TakesBack(ApplyOp(env, p), x, Same(env))
  {
    ApplyKeepsOrderly(env.exit, x.host, p, env.applyCtx);
    forall t: World | Orderly(env.exit, t.host)
      ensures Orderly(env.exit, Cleanup(env.exit, t.host).0)
    {
      CleanupClears(env.exit, t.host);
    }
    hide Apply, Cleanup, Orderly;
  }

  /** Where Enable stands before step i. */
  lemma BeforeStep(env: Site, w: World, req: Request, steps: seq<Saga.Op<World>>, i: nat)
    requires Healthy(env, w) && AreEnableSteps(env, w, req, steps) && i < |steps|
    ensures var x := Saga.After(steps, w, i);
            && x.prefs == w.prefs && Orderly(env.exit, x.host)
            && x.remote == (if i == 0 then w.remote else NewRemote(req))
            && (i + 1 < |steps| ==> x.host == w.host)
  {
    hide ApplyOp, Orderly, PrefsOp, SetMask, RestoreMask;
    var n := if Advertises(w.prefs.routes) then 1 else 0;
    if i > 0 {
      BeforeStep(env, w, req, steps, i - 1);
      if i == n + 2 {
        ApplyOpReversible(env, PolicyFor(req), Saga.After(steps, w, i - 1));
      }
    }
  }

  lemma RemoteOpReversible(env: Site, req: Request, x: World)
    requires Orderly(env.exit, x.host) && env.remoteSaveOk
    ensures Saga.TakesBack(RemoteOp(env, x.remote, NewRemote(req)), x, Same(env))
  {
    hide Orderly;
  }

  lemma AdvertiseOpReversible(env: Site, x: World)
    requires Orderly(env.exit, x.host)
    ensures Saga.TakesBack(AdvertiseOp(env), x, Same(env))
  {
    hide Orderly;
  }

  lemma PrefsOpReversible(env: Site, w: World, req: Request, x: World)
    requires Orderly(env.exit, x.host) && x.prefs == w.prefs && env.undoEditOk
    ensures Saga.TakesBack(PrefsOp(env, SetMask(w, req), RestoreMask(w)), x, Same(env))
  {
    hide Orderly;
  }

  lemma EnableStepUnchanged(env: Site, w: World, req: Request, steps: seq<Saga.Op<World>>, i: nat)
    requires Healthy(env, w) && AreEnableSteps(env, w, req, steps) && i < |steps|
    ensures Saga.Unchanged(steps, w, i, Same(env))
  {
    BeforeStep(env, w, req, steps, i);
    hide AreEnableSteps, Orderly, Saga.After, Healthy;
  }

  lemma EnableStepReversible(env: Site, w: World, req: Request, steps: seq<Saga.Op<World>>, i: nat)
    requires Healthy(env, w) && AreEnableSteps(env, w, req, steps) && i < |steps|
    requires env.remoteSaveOk && env.undoEditOk
    ensures Saga.Reversible(steps, w, i, Same(env))
  {
    hide ApplyOp, AdvertiseOp, RemoteOp, PrefsOp, Orderly, Saga.TakesBack, Saga.After, Presentable, Working, SetMask, RestoreMask, Advertises, Same;
    var n := if Advertises(w.prefs.routes) then 1 else 0;
    var x := Saga.After(steps, w, i);
    BeforeStep(env, w, req, steps, i);
    if i == 0 {
      RemoteOpReversible(env, req, x);
    } else if i == n + 1 {
      ApplyOpReversible(env, PolicyFor(req), x);
    } else if i == n + 2 {
      PrefsOpReversible(env, w, req, x);
    } else {
      AdvertiseOpReversible(env, x);
    }
  }

  lemma AfterAllSteps(env: Site, w: World, req: Request, steps: seq<Saga.Op<World>>)
    requires Healthy(env, w) && AreEnableSteps(env, w, req, steps)
    ensures var x := Saga.After(steps, w, |steps|);
            && Orderly(env.exit, x.host) && x.remote == NewRemote(req)
            && (env.editOk ==> x.prefs == Edit(w.prefs, SetMask(w, req)))
  {
    BeforeStep(env, w, req, steps, |steps| - 1);
    hide ApplyOp, Orderly;
  }

  /** A failed or cancelled Enable puts the prefs back, leaves the host orderly, and puts the manifest's
      remote node back if and only if it was not the very first manifest save that failed (which is
      never undone), or there was nothing to change. */
  lemma EnableFailureRestores(env: Site, w: World, req: Request, ctx: Saga.Cancellation)
    requires Healthy(env, w) && env.undoEditOk && Enable(env, w, req, ctx).1.Failed?
    ensures var w' := Enable(env, w, req, ctx).0;
            && w'.prefs == w.prefs && Orderly(env.exit, w'.host)
            && (w'.remote == w.remote <==> env.remoteSaveOk || ctx(0) || w.remote == NewRemote(req))
  {
    var steps := EnableSteps(env, w, req);
    EnableStepsAre(env, w, req);
    hide EnableSteps, ApplyOp, Orderly;
    if env.remoteSaveOk {
      var same := Same(env);
      forall i | 0 <= i < |steps|
        ensures Saga.Reversible(steps, w, i, same) && Saga.Unchanged(steps, w, i, same)
      {
        EnableStepReversible(env, w, req, steps, i);
        EnableStepUnchanged(env, w, req, steps, i);
      }
      AfterAllSteps(env, w, req, steps);
      Saga.FailureRestores(steps, ctx, w, same);
    }
  }

  /** For example: the first save fails, the request's node stays in the manifest, and a watcher that finds no exit
      node in the prefs has to clear it again. */
  lemma FailedFirstSaveSticks(env: Site, w: World, req: Request, ctx: Saga.Cancellation)
    requires Refusal(env, w, req).None? && !env.remoteSaveOk && !ctx(0) && w.remote == None && w.prefs.exitNode == ""
    ensures var w' := Enable(env, w, req, ctx).0;
            w' == w.(remote := NewRemote(req)) && !Synced(w') && (env.prefsReadable ==> Sync(env, w').0.remote == None)
  {
    hide Refusal, ApplyOp, AdvertiseOp, PrefsOp, Cleanup;
    EnableStepsAre(env, w, req);
    hide EnableSteps;
  }

  /** The watcher heals a failed Enable: from an agreeing world, after a failed or cancelled Enable whose
      first save worked, the next error-free tick has the remote node, the prefs and the local rules
      back to what they were before. */
  lemma EnableFailureHeals(env: Site, w: World, req: Request, ctx: Saga.Cancellation, env': Site, ctx': Saga.Cancellation)
    requires Healthy(env, w) && Synced(w) && env.undoEditOk && (env.remoteSaveOk || ctx(0))
    requires Enable(env, w, req, ctx).1.Failed?
    requires Working(env'.exit) && Presentable(env'.exit) && env'.exit.ip6 == env.exit.ip6 && Sound(env', w.remote)
    requires ErrorFree(Tick(env', Enable(env, w, req, ctx).0, ctx').1)
    ensures var w' := Tick(env', Enable(env, w, req, ctx).0, ctx').0;
            w'.remote == w.remote && w'.prefs == w.prefs && Synced(w') && RulesInPlace(env', w')
  {
    EnableFailureRestores(env, w, req, ctx);
    var w1 := Enable(env, w, req, ctx).0;
    assert Healthy(env', w1);
    hide Enable, Tick, Working, Presentable, Orderly, Healthy, RulesInPlace, Sound;
    SyncAgrees(env', w1);
    TickHeals(env', w1, ctx');
  }

  /** A successful Enable leaves everything in agreement: the manifest and the prefs name the peer, no exit
      routes are advertised any more, and the local rules are those of the request. */
  lemma EnableSucceeds(env: Site, w: World, req: Request, ctx: Saga.Cancellation)
    requires Healthy(env, w) && Enable(env, w, req, ctx).1.Enabled?
    ensures var w' := Enable(env, w, req, ctx).0;
            && w'.remote == NewRemote(req) && w'.prefs == Edit(w.prefs, SetMask(w, req)) && Synced(w')
            && !Advertises(w'.prefs.routes)
            && Orderly(env.exit, w'.host)
            && (Canonical(env.exit, PolicyFor(req)) ==> RulesInPlace(env, w'))
  {
    hide EnableSteps, AreEnableSteps, Orderly, Apply, RulesInPlace, Canonical, Validated, Advertises, SetMask, Working, Presentable, Enable;
    var steps := EnableSteps(env, w, req);
    var w' := Enable(env, w, req, ctx).0;
    EnableStepsAre(env, w, req);
    EnabledRan(env, w, req, ctx);
    EnabledWorld(env, w, req, ctx, steps);
    ExitRoutesGone(w, req);
    ApplyKeepsOrderly(env.exit, w.host, PolicyFor(req), env.applyCtx);
    assert Synced(w') by {
      SetMaskNames(w, req);
    }
    if Canonical(env.exit, PolicyFor(req)) {
      ApplyPutsRulesInPlace(env, w, req, w');
    }
  }

  lemma EnabledRan(env: Site, w: World, req: Request, ctx: Saga.Cancellation)
    requires Enable(env, w, req, ctx).1.Enabled?
    ensures req.peer != "" && (ModeOf(req) == SELECTIVE ==> Validated(PolicyFor(req)))
    ensures Saga.Error(EnableSteps(env, w, req), ctx, w).None?
    ensures Enable(env, w, req, ctx).0 == Saga.Final(EnableSteps(env, w, req), ctx, w)
  {
    hide EnableSteps, Saga.Error, Saga.Final;
  }

  lemma SetMaskNames(w: World, req: Request)
    ensures SetMask(w, req).exitNode == req.peer
  {
  }

  lemma LastTwoOps(env: Site, w: World, req: Request, x: World, y: World, z: World)
    requires ApplyOp(env, PolicyFor(req)).do(x) == Saga.Outcome(y, None)
    requires PrefsOp(env, SetMask(w, req), RestoreMask(w)).do(y) == Saga.Outcome(z, None)
    ensures Apply(env.exit, x.host, PolicyFor(req), env.applyCtx) == (z.host, true)
    ensures z.remote == x.remote && z.prefs == Edit(x.prefs, SetMask(w, req))
  {
    hide Apply;
  }

  /** The world after all steps of Enable succeeded. */
  lemma EnabledWorld(env: Site, w: World, req: Request, ctx: Saga.Cancellation, steps: seq<Saga.Op<World>>)
    requires Healthy(env, w) && AreEnableSteps(env, w, req, steps) && Saga.Error(steps, ctx, w).None?
    ensures var z := Saga.Final(steps, ctx, w);
            && z.remote == NewRemote(req) && z.prefs == Edit(w.prefs, SetMask(w, req))
            && Apply(env.exit, w.host, PolicyFor(req), env.applyCtx) == (z.host, true)
  {
    hide Orderly, Apply, ApplyOp, RemoteOp, AdvertiseOp, PrefsOp, SetMask, RestoreMask, Working, Presentable;
    Saga.SuccessRunsAll(steps, ctx, w);
    var k := |steps| - 2;
    BeforeStep(env, w, req, steps, k);
    assert Saga.Passed(steps, w, k) && Saga.Passed(steps, w, k + 1);
    LastTwoOps(env, w, req, Saga.After(steps, w, k), Saga.After(steps, w, k + 1), Saga.After(steps, w, k + 2));
  }

  lemma ExitRoutesGone(w: World, req: Request)
    ensures !Advertises(Edit(w.prefs, SetMask(w, req)).routes)
  {
    forall r
      ensures r in NonExit(w.prefs.routes) ==> r.bits != 0
    {
      NonExitExact(w.prefs.routes, r);
    }
  }

  lemma ApplyPutsRulesInPlace(env: Site, w: World, req: Request, w': World)
    requires Healthy(env, w) && (ModeOf(req) == SELECTIVE ==> Validated(PolicyFor(req)))
    requires Apply(env.exit, w.host, PolicyFor(req), env.applyCtx) == (w'.host, true)
    requires w'.remote == NewRemote(req) && Canonical(env.exit, PolicyFor(req))
    ensures RulesInPlace(env, w')
  {
    var p := PolicyFor(req);
    assert Validated(p);
    hide Apply, Working, Presentable, Orderly, Validated;
    ApplyReaches(env.exit, w.host, p, env.applyCtx);
    var bridges := BridgesFor(env.exit, p).value;
    if Desired(p, bridges) != [] {
      PlanFacts(env.exit, p, bridges);
    }
  }

  /** A Disable that reports no error leaves neither a remote node, nor a rule in the window, nor our
      masquerade; one that could not edit the prefs changed nothing. */
  lemma DisableClears(env: Site, w: World)
    requires Healthy(env, w)
    ensures var (w', r) := Disable(env, w);
            && (r.NotDisabled? ==> w' == w)
            && (!r.NotDisabled? ==> Synced(w') && w'.remote == None && RulesInPlace(env, w') && w'.host == Cleaned(env.exit, w.host))
            && Orderly(env.exit, w'.host)
            && (r.Disabled? <==> env.editOk && env.remoteSaveOk)
  {
    CleanupClears(env.exit, w.host);
  }
}
