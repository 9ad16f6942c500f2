/** The exit-node service as it runs: commands change the host one at a time. */
module ExitService {
  import opened Text
  import opened ExitRules
  import opened ExitPolicy
  import opened ExitNode
  import Saga

  class ExitNodeService {
    /** What the commands change; the service holds its mutex throughout each call. */
    var host: Host

    constructor (h: Host)
      ensures host == h
    {
      host := h;
    }

    /** delRule */
    method RemoveRule(env: Env, family: string, prio: nat) returns (ok: bool)
      modifies this
      ensures (host, ok) == DelRule(env, old(host), family, prio)
    {
      var ks := DeleteFirst(Table(host, family), prio);
      ok := env.deleteOk(family, prio) && ks.Some?;
      if ok {
        host := WithTable(host, family, ks.value);
      }
    }

    /** listRules */
    method ListRules(env: Env, family: string) returns (rules: Option<seq<ExitRule>>)
      ensures rules == if env.listOk(family) then Some(Listed(host, family)) else None
    {
      if !env.listOk(family) {
        return None;
      }
      var parsed := ParseRules(PrintRules(Table(host, family)), family);
      rules := Some(parsed);
    }

    /** The loop of cleanupLocked over one family. */
    method RemoveListed(env: Env, family: string) returns (ok: bool)
      modifies this
      ensures (host, ok) == CleanupFamily(env, old(host), family)
    {
      var rules := ListRules(env, family);
      if rules.None? {
        return false;
      }
      ok := true;
      var rs := rules.value;
      assert rs[0..] == rs;
      for i := 0 to |rs|
        invariant DelRules(env, old(host), family, rs) ==
                  (DelRules(env, host, family, rs[i..]).0, ok && DelRules(env, host, family, rs[i..]).1)
      {
        assert rs[i..][0] == rs[i] && rs[i..][1..] == rs[i + 1..];
        var removed := RemoveRule(env, family, rs[i].priority);
        if !removed {
          ok := false;
        }
      }
    }

    /** cleanupLocked */
    method CleanupLocked(env: Env) returns (ok: bool)
      modifies this
      ensures (host, ok) == Cleanup(env, old(host))
    {
      host := DelMasq4(env, host);
      host := DelMasq6(env, host);
      var ok4 := RemoveListed(env, "-4");
      var ok6 := RemoveListed(env, "-6");
      ok := ok4 && ok6;
    }

    /** The loop of buildApplyOps over the bridges. */
    method BridgeOps(env: Env, bridges: seq<string>) returns (out: seq<Saga.Op<State>>)
      ensures out == RuleOps(env, BridgeCommands(bridges, BASE_PRIO))
    {
      hide RuleOp, RuleOps;
      RuleOpsSnoc(env, [], Command("", "", 0, ""));
      ghost var cmds: seq<Command> := [];
      out := [];
      var prio: nat := BASE_PRIO;
      assert bridges[0..] == bridges;
      for i := 0 to |bridges|
        invariant prio <= MAX_PRIO
        invariant out == RuleOps(env, cmds)
        invariant BridgeCommands(bridges, BASE_PRIO) == cmds + BridgeCommands(bridges[i..], prio)
      {
        assert bridges[i..][0] == bridges[i] && bridges[i..][1..] == bridges[i + 1..];
        var cmd4, cmd6 := Command("-4", "", prio, bridges[i]), Command("-6", "", prio, bridges[i]);
        Assoc(cmds, [cmd4, cmd6], BridgeCommands(bridges[i + 1..], prio + 1));
        RuleOpsTwo(env, cmds, cmd4, cmd6);
        out := out + [RuleOp(env, cmd4, env.addOk(|out|))];
        out := out + [RuleOp(env, cmd6, env.addOk(|out|))];
        cmds := cmds + [cmd4, cmd6];
        prio := prio + 1;
        assert BridgeCommands(bridges, BASE_PRIO) == cmds + BridgeCommands(bridges[i + 1..], prio);
        if prio > MAX_PRIO {
          break;
        }
      }
      assert BridgeCommands(bridges, BASE_PRIO) == cmds;
    }

    /** The loop of buildApplyOps over the clients. */
    method ClientOps(env: Env, clients: seq<Client>) returns (ops: Option<seq<Saga.Op<State>>>)
      ensures var plan := ClientCommands(clients, BASE_PRIO + 1);
              ops == if plan.Rejected? then None else Some(RuleOps(env, plan.cmds))
    {
      hide FamilyOf, IsCatchAll, RuleOp, RuleOps;
      RuleOpsSnoc(env, [], Command("", "", 0, ""));
      ghost var cmds: seq<Command> := [];
      var out: seq<Saga.Op<State>> := [];
      var prio: nat := BASE_PRIO + 1;
      assert clients[0..] == clients;
      for i := 0 to |clients|
        invariant prio <= MAX_PRIO
        invariant out == RuleOps(env, cmds)
        invariant Extends(ClientCommands(clients, BASE_PRIO + 1), cmds, ClientCommands(clients[i..], prio))
      {
        var c := clients[i];
        assert clients[i..][0] == c && clients[i..][1..] == clients[i + 1..];
        if IsCatchAll(c) {
          return None;
        }
        if FamilyOf(c) == "" {
          continue;
        }
        ghost var was := cmds;
        var cmd := Command(FamilyOf(c), c.ip, prio, "");
        RuleOpsSnoc(env, cmds, cmd);
        out := out + [RuleOp(env, cmd, env.addOk(|out|))];
        cmds := cmds + [cmd];
        prio := prio + 1;
        ExtendsOne(ClientCommands(clients, BASE_PRIO + 1), was, cmd, ClientCommands(clients[i + 1..], prio));
        if prio > MAX_PRIO {
          break;
        }
      }
      assert cmds + [] == cmds;
      ops := Some(out);
    }

    /** buildApplyOps */
    method BuildApplyOps(env: Env, p: Policy) returns (steps: Option<seq<Saga.Op<State>>>)
      ensures var bridges := BridgesFor(env, p);
              steps == if bridges.None? || PlanFor(p, bridges.value).Rejected? then None
                       else Some(Steps(env, p, PlanFor(p, bridges.value).cmds))
    {
      hide RuleOps, Masq4Op, Masq6Op, PersistOp, ClientCommands, BridgeCommands;
      var out: seq<Saga.Op<State>>;
      if p.mode == ALL {
        if env.bridges.None? || env.bridges.value == [] {
          return None;
        }
        out := BridgeOps(env, env.bridges.value);
      } else if p.mode == SELECTIVE {
        if p.clients == [] {
          EmptyPlan(p.clients);
          return Some([PersistOp(env, p)]);
        }
        var ops := ClientOps(env, p.clients);
        if ops.None? {
          return None;
        }
        out := ops.value;
      } else {
        return None;
      }
      out := out + [Masq4Op(env)];
      out := out + [Masq6Op(env)];
      out := out + [PersistOp(env, p)];
      assert out == Steps(env, p, PlanFor(p, BridgesFor(env, p).value).cmds);
      steps := Some(out);
    }

    /** applyLocked */
    method ApplyLocked(env: Env, p: Policy, ctx: Saga.Cancellation) returns (ok: bool)
      modifies this
      ensures (host, ok) == Apply(env, old(host), p, ctx)
    {
      var _ := CleanupLocked(env);
      if p.mode == OFF || p.mode == "" {
        host := host.(saved := Policy(OFF, []));
        return env.saveOk;
      }
      var steps := BuildApplyOps(env, p);
      if steps.None? {
        return false;
      }
      var state, failure, _ := Saga.Run(steps.value, ctx, State(host, false));
      host := state.host;
      ok := failure.None?;
    }

    /** Reconcile */
    method ReconcileRules(env: Env, p: Policy, ctx: Saga.Cancellation) returns (v: Verdict)
      modifies this
      ensures (host, v) == Reconcile(env, old(host), p, ctx)
    {
      var bridges := [];
      if p.mode == ALL {
        if env.bridges.None? {
          return Unreadable;
        }
        bridges := env.bridges.value;
      }
      var desired := BuildDesiredRules(p, bridges);
      var current4 := ListRules(env, "-4");
      if current4.None? {
        return Unreadable;
      }
      var current6 := ListRules(env, "-6");
      if current6.None? {
        return Unreadable;
      }
      var needsMasq := |desired| > 0;
      var same := RulesMatch(current4.value + current6.value, desired);
      if same && needsMasq == HasMasquerade(env, host) {
        return Quiet;
      }
      var ok := ApplyLocked(env, p, ctx);
      v := Applied(ok);
    }
  }

  lemma EmptyPlan(clients: seq<Client>)
    requires clients == []
    ensures ClientCommands(clients, BASE_PRIO + 1) == Commands([])
  {
  }

  lemma RuleOpsSnoc(env: Env, cmds: seq<Command>, c: Command)
    ensures |RuleOps(env, cmds)| == |cmds|
    ensures RuleOps(env, cmds + [c]) == RuleOps(env, cmds) + [RuleOp(env, c, env.addOk(|cmds|))]
  {
    hide RuleOp;
  }

  lemma RuleOpsTwo(env: Env, cmds: seq<Command>, c: Command, d: Command)
    ensures |RuleOps(env, cmds)| == |cmds|
    ensures RuleOps(env, cmds + [c, d]) ==
            RuleOps(env, cmds) + [RuleOp(env, c, env.addOk(|cmds|))] + [RuleOp(env, d, env.addOk(|cmds| + 1))]
  {
    hide RuleOp, RuleOps;
    Assoc(cmds, [c], [d]);
    assert [c] + [d] == [c, d];
    RuleOpsSnoc(env, cmds, c);
    RuleOpsSnoc(env, cmds + [c], d);
  }

  lemma ExtendsOne(plan: Plan, cmds: seq<Command>, cmd: Command, rest: Plan)
    requires Extends(plan, cmds, if rest.Rejected? then Rejected else Commands([cmd] + rest.cmds))
    ensures Extends(plan, cmds + [cmd], rest)
  {
    if rest.Commands? {
      Assoc(cmds, [cmd], rest.cmds);
    }
  }

  /** The plan is the commands so far followed by the rest, if the rest is not rejected. */
  ghost predicate Extends(plan: Plan, cmds: seq<Command>, rest: Plan) {
    plan == if rest.Rejected? then Rejected else Commands(cmds + rest.cmds)
  }
}
