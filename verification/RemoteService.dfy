/** The remote-exit service as it runs: one request or tick at a time over manifest, prefs and rules. */
module RemoteService {
  import opened Text
  import opened ExitPolicy
  import opened ExitNode
  import ExitService
  import opened RemoteExit
  import Saga

  class RemoteExitService {
    var remote: Option<Remote>
    var advertise: bool
    var prefs: Prefs
    const exit: ExitService.ExitNodeService
    /** sagaMu: an Enable or Disable is running. */
    var busy: bool
    /** Suppresses the background sync while a saga is in flight. */
    var applying: bool

    ghost function Now(): World
      reads this, exit
    {
      World(remote, advertise, prefs, exit.host)
    }

    constructor (w: World)
      ensures Now() == w && !busy && !applying && fresh(exit)
    {
      remote, advertise, prefs, busy, applying := w.remote, w.advertise, w.prefs, false, false;
      exit := new ExitService.ExitNodeService(w.host);
    }

    /** Enable up to the first change: what it answers if it stops there. */
    method CheckRequest(env: Site, req: Request) returns (no: Option<Answer>)
      requires req.peer != ""
      ensures no == Refusal(env, Now(), req)
    {
      if env.peers.None? {
        return Some(Refused("status"));
      }
      if req.peer !in env.peers.value {
        return Some(Refused("peer not found"));
      }
      if !env.peers.value[req.peer] {
        return Some(Refused("not an exit node option"));
      }
      var mode := if req.mode == "" then ALL else req.mode;
      if !env.prefsReadable {
        return Some(Refused("prefs"));
      }
      var wasAdvertising := Advertises(prefs.routes);
      if wasAdvertising && !req.confirm {
        return Some(ConfirmRequired);
      }
      if !wasAdvertising && mode == ALL && !req.confirm {
        return Some(ConfirmRequired);
      }
      if mode == SELECTIVE {
        var valid := ValidateExitNodePolicy(Policy(mode, req.clients));
        if !valid {
          return Some(Refused("policy"));
        }
      }
      no := None;
    }

    method BuildSteps(env: Site, req: Request) returns (steps: seq<Saga.Op<World>>)
      ensures steps == EnableSteps(env, Now(), req)
    {
      hide RemoteOp, AdvertiseOp, ApplyOp, PrefsOp;
      var wasAdvertising := Advertises(prefs.routes);
      var edit := Mask(req.peer, true, None);
      var restore := Mask(prefs.exitNode, prefs.allowLan, None);
      if wasAdvertising {
        var kept := FilterNonExitRoutes(prefs.routes);
        edit := edit.(routes := Some(kept));
        restore := restore.(routes := Some(prefs.routes));
      }
      steps := [RemoteOp(env, remote, NewRemote(req))];
      if wasAdvertising {
        steps := steps + [AdvertiseOp(env)];
      }
      steps := steps + [ApplyOp(env, PolicyFor(req))];
      steps := steps + [PrefsOp(env, edit, restore)];
      assert steps == EnableSteps(env, Now(), req);
    }

    method EnableNode(env: Site, req: Request, ctx: Saga.Cancellation) returns (a: Answer)
      requires !applying
      modifies this, exit
      ensures busy == old(busy) && !applying
      ensures old(busy) && req.peer != "" ==> Now() == old(Now()) && a == Refused("busy")
      ensures !old(busy) || req.peer == "" ==> (Now(), a) == Enable(env, old(Now()), req, ctx)
    {
      hide EnableSteps, Refusal;
      if req.peer == "" {
        EmptyPeer(env, Now(), req);
        return Refused("peerId is required");
      }
      if busy {
        return Refused("busy");
      }
      busy := true;
      var no := CheckRequest(env, req);
      if no.Some? {
        busy := false;
        return no.value;
      }
      applying := true;
      var steps := BuildSteps(env, req);
      var w, failure, _ := Saga.Run(steps, ctx, World(remote, advertise, prefs, exit.host));
      remote, advertise, prefs := w.remote, w.advertise, w.prefs;
      exit.host := w.host;
      applying := false;
      busy := false;
      a := if failure.Some? then Failed(failure.value) else Enabled;
    }

    method DisableNode(env: Site) returns (r: Option<DisableResult>)
      requires !applying
      modifies this, exit
      ensures busy == old(busy) && !applying
      ensures old(busy) ==> Now() == old(Now()) && r == None
      ensures !old(busy) ==> r.Some? && (Now(), r.value) == Disable(env, old(Now()))
    {
      if busy {
        return None;
      }
      busy := true;
      applying := true;
      if env.editOk {
        prefs := Edit(prefs, Mask("", false, None));
        var clean := exit.CleanupLocked(env.exit);
        remote := None;
        r := Some(if clean && env.remoteSaveOk then Disabled else Partial);
      } else {
        r := Some(NotDisabled);
      }
      applying := false;
      busy := false;
    }

    /** SyncManifestFromTailscale; while a saga is in flight it does nothing. */
    method SyncManifest(env: Site) returns (ok: bool)
      modifies this, exit
      ensures busy == old(busy) && applying == old(applying)
      ensures old(applying) ==> Now() == old(Now()) && ok
      ensures !old(applying) ==> (Now(), ok) == Sync(env, old(Now()))
    {
      if applying {
        return true;
      }
      if !env.prefsReadable {
        return false;
      }
      var node := prefs.exitNode;
      if node == "" {
        if remote.Some? {
          var _ := exit.CleanupLocked(env.exit);
          remote := None;
          return env.remoteSaveOk;
        }
        return true;
      }
      if remote.Some? && remote.value.peer == node {
        return true;
      }
      if remote.None? {
        remote := Some(Remote(node, ALL, []));
        return env.remoteSaveOk;
      }
      remote := Some(Remote(node, remote.value.mode, remote.value.clients));
      return env.remoteSaveOk;
    }

    /** restoreExitNodeRules */
    method RestoreExitNodeRules(env: Site, ctx: Saga.Cancellation) returns (r: Report)
      requires !applying
      modifies this, exit
      ensures busy == old(busy) && !applying
      ensures (Now(), r) == Tick(env, old(Now()), ctx)
    {
      var ok := SyncManifest(env);
      var policy := Policy("", []);
      if remote.Some? && remote.value.mode != OFF {
        policy := Policy(remote.value.mode, remote.value.clients);
      }
      var v := exit.ReconcileRules(env.exit, policy, ctx);
      r := Report(ok, v);
    }
  }

  lemma EmptyPeer(env: Site, w: World, req: Request)
    requires req.peer == ""
    ensures Refusal(env, w, req) == Some(Refused("peerId is required"))
  {
  }
}
