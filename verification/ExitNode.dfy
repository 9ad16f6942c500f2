/** Applying, cleaning up and reconciling exit-node rules on a host (exitnode.go). */
module ExitNode {
  import opened Text
  import opened ExitRules
  import opened ExitPolicy
  import Saga

  /** The host tables the service touches: rule tables in kernel order, copies of our masquerade rules,
      and the policy the manifest holds (a save that fails has changed it all the same). */
  datatype Host = Host(rules4: seq<KernelRule>, rules6: seq<KernelRule>, masq4: nat, masq6: nat, saved: Policy)

  /** What the saga's steps share: the host and whether the IPv6 masquerade went in. */
  datatype State = State(host: Host, v6Installed: bool)

  /** The outside world during one call: how `ip rule show` spells a source, the LAN bridges (None: they
      cannot be read), whether IPv6 is there, and which commands work. */
  datatype Env = Env(
    show: string -> string, bridges: Option<seq<string>>, ip6: bool,
    listOk: string -> bool, deleteOk: (string, nat) -> bool, masqDeleteOk: bool,
    addOk: nat -> bool, masq4Ok: bool, masq6Ok: bool, saveOk: bool)

  function Table(h: Host, family: string): seq<KernelRule> {
    if family == "-4" then h.rules4 else h.rules6
  }

  function WithTable(h: Host, family: string, ks: seq<KernelRule>): Host {
    if family == "-4" then h.(rules4 := ks) else h.(rules6 := ks)
  }

  // ---------- commands ----------

  /** The kernel keeps rules by priority, later additions behind earlier ones. */
  function Insert(ks: seq<KernelRule>, k: KernelRule): seq<KernelRule> {
    if ks == [] || k.priority < ks[0].priority then [k] + ks else [ks[0]] + Insert(ks[1..], k)
  }

  function DeleteFirst(ks: seq<KernelRule>, prio: nat): Option<seq<KernelRule>> {
    if ks == [] then None
    else if ks[0].priority == prio then Some(ks[1..])
    else
      var r := DeleteFirst(ks[1..], prio);
      if r.None? then None else Some([ks[0]] + r.value)
  }

  /** The kernel rule a command makes. */
  function Made(env: Env, c: Command): KernelRule {
    KernelRule(c.priority, if c.iif != "" || c.src == "" then "" else env.show(c.src), c.iif, false, ROUTE_TABLE)
  }

  /** addRule; adding a rule that is already there is refused. */
  function AddRule(env: Env, h: Host, c: Command, ok: bool): (Host, bool) {
    var ks := Table(h, c.family);
    if !ok || Made(env, c) in ks then (h, false) else (WithTable(h, c.family, Insert(ks, Made(env, c))), true)
  }

  /** delRule: deletes the first rule at the priority. */
  function DelRule(env: Env, h: Host, family: string, prio: nat): (Host, bool) {
    var r := DeleteFirst(Table(h, family), prio);
    if !env.deleteOk(family, prio) || r.None? then (h, false) else (WithTable(h, family, r.value), true)
  }

  function DelMasq4(env: Env, h: Host): Host {
    if env.masqDeleteOk && h.masq4 > 0 then h.(masq4 := h.masq4 - 1) else h
  }

  function DelMasq6(env: Env, h: Host): Host {
    if env.masqDeleteOk && env.ip6 && h.masq6 > 0 then h.(masq6 := h.masq6 - 1) else h
  }

  /** hasMasquerade: IPv4 is mandatory, IPv6 only where there is IPv6. */
  predicate HasMasquerade(env: Env, h: Host) {
    h.masq4 > 0 && (env.ip6 ==> h.masq6 > 0)
  }

  /** listRules */
  function Listed(h: Host, family: string): seq<ExitRule> {
    ParseLines(Lines(PrintRules(Table(h, family))), family)
  }

  function DelRules(env: Env, h: Host, family: string, rules: seq<ExitRule>): (Host, bool)
    decreases |rules|
  {
    if rules == [] then (h, true)
    else
      var (h1, ok) := DelRule(env, h, family, rules[0].priority);
      var (h2, rest) := DelRules(env, h1, family, rules[1..]);
      (h2, ok && rest)
  }

  function CleanupFamily(env: Env, h: Host, family: string): (Host, bool) {
    if !env.listOk(family) then (h, false) else DelRules(env, h, family, Listed(h, family))
  }

  /** cleanupLocked */
  function Cleanup(env: Env, h: Host): (Host, bool) {
    var h0 := DelMasq6(env, DelMasq4(env, h));
    var (h1, ok4) := CleanupFamily(env, h0, "-4");
    var (h2, ok6) := CleanupFamily(env, h1, "-6");
    (h2, ok4 && ok6)
  }

  // ---------- the apply saga ----------

  const FAILED := Some("failed")

  function RuleOp(env: Env, c: Command, ok: bool): Saga.Op<State> {
    Saga.Op("add rule",
            (s: State) => var (h, done) := AddRule(env, s.host, c, ok); Saga.Outcome(s.(host := h), if done then None else FAILED),
            (s: State) => var (h, done) := DelRule(env, s.host, c.family, c.priority); Saga.Outcome(s.(host := h), if done then None else FAILED))
  }

  function Masq4Op(env: Env): Saga.Op<State> {
    Saga.Op("add v4 masquerade",
            (s: State) => if env.masq4Ok then Saga.Outcome(s.(host := s.host.(masq4 := s.host.masq4 + 1)), None) else Saga.Outcome(s, FAILED),
            (s: State) => Saga.Outcome(s.(host := DelMasq4(env, s.host)), None))
  }

  /** A host without IPv6 is tolerated: nothing is installed and nothing is to be undone. */
  function Masq6Op(env: Env): Saga.Op<State> {
    Saga.Op("add v6 masquerade",
            (s: State) => if !env.ip6 then Saga.Outcome(s.(v6Installed := false), None)
                          else if env.masq6Ok then Saga.Outcome(State(s.host.(masq6 := s.host.masq6 + 1), true), None)
                          else Saga.Outcome(s.(v6Installed := false), FAILED),
            (s: State) => Saga.Outcome(if s.v6Installed then s.(host := DelMasq6(env, s.host)) else s, None))
  }

  function PersistOp(env: Env, p: Policy): Saga.Op<State> {
    Saga.Noop("persist manifest",
              (s: State) => Saga.Outcome(s.(host := s.host.(saved := p)), if env.saveOk then None else FAILED))
  }

  function RuleOps(env: Env, cmds: seq<Command>): seq<Saga.Op<State>> {
    seq(|cmds|, i requires 0 <= i < |cmds| => RuleOp(env, cmds[i], env.addOk(i)))
  }

  /** buildApplyOps */
  function Steps(env: Env, p: Policy, cmds: seq<Command>): seq<Saga.Op<State>> {
    if p.mode == SELECTIVE && p.clients == [] then [PersistOp(env, p)]
    else RuleOps(env, cmds) + [Masq4Op(env), Masq6Op(env), PersistOp(env, p)]
  }

  function BridgesFor(env: Env, p: Policy): Option<seq<string>> {
    if p.mode == ALL then env.bridges else Some([])
  }

  /** applyLocked */
  function Apply(env: Env, h: Host, p: Policy, ctx: Saga.Cancellation): (Host, bool) {
    var h1 := Cleanup(env, h).0;
    if p.mode == OFF || p.mode == "" then
      (h1.(saved := Policy(OFF, [])), env.saveOk)
    else
      var bridges := BridgesFor(env, p);
      if bridges.None? || PlanFor(p, bridges.value).Rejected? then (h1, false)
      else
        var steps := Steps(env, p, PlanFor(p, bridges.value).cmds);
        (Saga.Final(steps, ctx, State(h1, false)).host, Saga.Error(steps, ctx, State(h1, false)).None?)
  }

  function Current(h: Host): seq<ExitRule> {
    Listed(h, "-4") + Listed(h, "-6")
  }

  datatype Verdict = Quiet | Applied(ok: bool) | Unreadable

  /** Reconcile */
  function Reconcile(env: Env, h: Host, p: Policy, ctx: Saga.Cancellation): (Host, Verdict) {
    var bridges := BridgesFor(env, p);
    if bridges.None? || !env.listOk("-4") || !env.listOk("-6") then (h, Unreadable)
    else
      var desired := Desired(p, bridges.value);
      if Matches(Current(h), desired) && (|desired| > 0) == HasMasquerade(env, h) then (h, Quiet)
      else
        var (h', ok) := Apply(env, h, p, ctx);
        (h', Applied(ok))
  }

  // ---------- cleanup ----------

  /** Commands that read and delete work. */
  ghost predicate Working(env: Env) {
    && env.listOk("-4") && env.listOk("-6") && env.masqDeleteOk
    && (forall f, n :: env.deleteOk(f, n))
  }

  /** Rules print unambiguously, our window holds only rules of ours, and our masquerade rules are there
      at most once. */
  ghost predicate Orderly(env: Env, h: Host) {
    && (forall k :: k in h.rules4 ==> Printable(k))
    && (forall k :: k in h.rules6 ==> Printable(k))
    && h.masq4 <= 1 && h.masq6 <= 1 && (!env.ip6 ==> h.masq6 == 0)
  }

  function Outside(ks: seq<KernelRule>): seq<KernelRule> {
    if ks == [] then [] else (if InWindow(ks[0].priority) then [] else [ks[0]]) + Outside(ks[1..])
  }

  lemma {:induction false} OutsideFacts(ks: seq<KernelRule>, family: string)
    ensures Window(Outside(ks), family) == []
    ensures forall k :: k in Outside(ks) ==> k in ks && !InWindow(k.priority)
  {
    if ks != [] {
      OutsideFacts(ks[1..], family);
      assert ks == [ks[0]] + ks[1..];
      if !InWindow(ks[0].priority) {
        assert Outside(ks)[1..] == Outside(ks[1..]);
      } else {
        assert Outside(ks) == Outside(ks[1..]);
      }
    }
  }

  /** Deleting by the priority of the first rule in the window removes just that rule. */
  lemma {:induction false} DeleteFirstInWindow(ks: seq<KernelRule>, family: string)
    requires Window(ks, family) != []
    ensures var r := DeleteFirst(ks, Window(ks, family)[0].priority);
            r.Some? && Window(r.value, family) == Window(ks, family)[1..] && Outside(r.value) == Outside(ks)
  {
    if !InWindow(ks[0].priority) {
      DeleteFirstInWindow(ks[1..], family);
      var r := DeleteFirst(ks, Window(ks, family)[0].priority);
      assert InWindow(Window(ks, family)[0].priority) by { WindowInside(ks, family); }
      assert r.value[1..] == DeleteFirst(ks[1..], Window(ks, family)[0].priority).value;
    } else {
      assert Window(ks, family)[1..] == Window(ks[1..], family);
    }
  }

  lemma {:induction false} WindowInside(ks: seq<KernelRule>, family: string)
    ensures forall i :: 0 <= i < |Window(ks, family)| ==> InWindow(Window(ks, family)[i].priority)
  {
    if ks != [] {
      WindowInside(ks[1..], family);
    }
  }

  /** With deletes working, deleting what the window lists empties the window and touches nothing else. */
  lemma {:induction false} DelRulesClears(env: Env, h: Host, family: string, rules: seq<ExitRule>)
    requires forall f, n :: env.deleteOk(f, n)
    requires rules == Window(Table(h, family), family)
    ensures DelRules(env, h, family, rules) == (WithTable(h, family, Outside(Table(h, family))), true)
    decreases |rules|
  {
    var ks := Table(h, family);
    if rules == [] {
      NothingInside(ks, family);
      assert WithTable(h, family, ks) == h;
    } else {
      DeleteFirstInWindow(ks, family);
      var (h1, ok) := DelRule(env, h, family, rules[0].priority);
      DelRulesClears(env, h1, family, rules[1..]);
    }
  }

  lemma {:induction false} NothingInside(ks: seq<KernelRule>, family: string)
    requires Window(ks, family) == []
    ensures Outside(ks) == ks
  {
    if ks != [] {
      NothingInside(ks[1..], family);
    }
  }

  function Cleaned(env: Env, h: Host): Host {
    h.(rules4 := Outside(h.rules4), rules6 := Outside(h.rules6), masq4 := 0, masq6 := 0)
  }

  /** What the manager reads back is what is in the window. */
  lemma ListedIs(env: Env, h: Host)
    requires Orderly(env, h)
    ensures Listed(h, "-4") == Window(h.rules4, "-4") && Listed(h, "-6") == Window(h.rules6, "-6")
  {
    ListingRoundTrip(h.rules4, "-4");
    ListingRoundTrip(h.rules6, "-6");
  }

  lemma CleanedIsOrderly(env: Env, h: Host)
    requires Orderly(env, h)
    ensures Orderly(env, Cleaned(env, h)) && Current(Cleaned(env, h)) == []
  {
    OutsideFacts(h.rules4, "-4");
    OutsideFacts(h.rules6, "-6");
    assert Orderly(env, Cleaned(env, h));
    ListedIs(env, Cleaned(env, h));
  }

  /** A cleanup with working commands removes every rule in our window and our masquerade rules, reports
      no error, and touches nothing else. */
  lemma CleanupClears(env: Env, h: Host)
    requires Working(env) && Orderly(env, h)
    ensures Cleanup(env, h) == (Cleaned(env, h), true)
    ensures Current(Cleaned(env, h)) == [] && !HasMasquerade(env, Cleaned(env, h)) && Orderly(env, Cleaned(env, h))
  {
    hide Listed, Window, Outside, DelRules, Orderly, Current, HasMasquerade, Working;
    CleanedIsOrderly(env, h);
    var h0 := MasqGone(env, h);
    ListedIs(env, h0);
    WorkingDeletes(env);
    DelRulesClears(env, h0, "-4", Listed(h0, "-4"));
    var h1 := h0.(rules4 := Outside(h.rules4));
    assert CleanupFamily(env, h0, "-4") == (h1, true);
    ListedOther(h0, h1);
    DelRulesClears(env, h1, "-6", Listed(h1, "-6"));
    NoMasquerade(env, Cleaned(env, h));
  }

  lemma WorkingDeletes(env: Env)
    requires Working(env)
    ensures env.listOk("-4") && env.listOk("-6") && forall f, n :: env.deleteOk(f, n)
  {
  }

  lemma NoMasquerade(env: Env, h: Host)
    requires h.masq4 == 0
    ensures !HasMasquerade(env, h)
  {
  }

  /** The masquerade deletions at the start of a cleanup. */
  lemma MasqGone(env: Env, h: Host) returns (h0: Host)
    requires Working(env) && Orderly(env, h)
    ensures h0 == DelMasq6(env, DelMasq4(env, h)) && h0 == h.(masq4 := 0, masq6 := 0) && Orderly(env, h0)
  {
    hide Printable;
    h0 := DelMasq6(env, DelMasq4(env, h));
  }

  lemma ListedOther(h: Host, h': Host)
    requires h.rules6 == h'.rules6
    ensures Listed(h, "-6") == Listed(h', "-6")
  {
  }

  // ---------- what a finished apply leaves ----------

  /** The rule a command shows up as. */
  function Spelled(env: Env, c: Command): ExitRule {
    AsExitRule(Made(env, c), c.family)
  }

  function SpelledAll(env: Env, cmds: seq<Command>): seq<ExitRule> {
    seq(|cmds|, i requires 0 <= i < |cmds| => Spelled(env, cmds[i]))
  }

  /** Commands whose rules print unambiguously. */
  ghost predicate Installable(env: Env, cmds: seq<Command>) {
    forall i :: 0 <= i < |cmds| ==>
      InWindow(cmds[i].priority) && (cmds[i].family == "-4" || cmds[i].family == "-6") && Printable(Made(env, cmds[i]))
  }

  lemma {:induction false} InsertMembers(ks: seq<KernelRule>, k: KernelRule, x: KernelRule)
    ensures x in Insert(ks, k) <==> x in ks || x == k
  {
    if ks != [] && k.priority >= ks[0].priority {
      InsertMembers(ks[1..], k, x);
      assert ks == [ks[0]] + ks[1..];
    }
  }

  lemma {:induction false} InsertWindow(ks: seq<KernelRule>, k: KernelRule, family: string)
    requires InWindow(k.priority)
    ensures multiset(Window(Insert(ks, k), family)) == multiset(Window(ks, family)) + multiset{AsExitRule(k, family)}
  {
    var ins := Insert(ks, k);
    if ks == [] || k.priority < ks[0].priority {
      assert ins[1..] == ks;
      assert Window(ins, family) == [AsExitRule(k, family)] + Window(ks, family);
    } else {
      InsertWindow(ks[1..], k, family);
      assert ins[1..] == Insert(ks[1..], k);
    }
  }

  /** Adding a rule adds exactly it to what the manager reads back. */
  lemma AddRuleEffect(env: Env, h: Host, c: Command, ok: bool)
    requires Orderly(env, h) && Installable(env, [c])
    ensures var (h', done) := AddRule(env, h, c, ok);
            && Orderly(env, h') && h'.masq4 == h.masq4 && h'.masq6 == h.masq6
            && (done ==> multiset(Current(h')) == multiset(Current(h)) + multiset{Spelled(env, c)})
            && (!done ==> h' == h)
  {
    var (h', done) := AddRule(env, h, c, ok);
    assert [c][0] == c;
    if done {
      var k := Made(env, c);
      forall x | x in Table(h', c.family)
        ensures Printable(x)
      {
        InsertMembers(Table(h, c.family), k, x);
      }
      assert Orderly(env, h');
      InsertWindow(Table(h, c.family), k, c.family);
      ListedIs(env, h);
      ListedIs(env, h');
    }
  }

  /** The steps of a full apply, one by one. */
  ghost predicate IsFullPlan(env: Env, p: Policy, cmds: seq<Command>, steps: seq<Saga.Op<State>>) {
    && |steps| == |cmds| + 3
    && (forall i :: 0 <= i < |cmds| ==> steps[i] == RuleOp(env, cmds[i], env.addOk(i)))
    && steps[|cmds|] == Masq4Op(env) && steps[|cmds| + 1] == Masq6Op(env) && steps[|cmds| + 2] == PersistOp(env, p)
  }

  lemma FullPlan(env: Env, p: Policy, cmds: seq<Command>)
    requires !(p.mode == SELECTIVE && p.clients == [])
    ensures IsFullPlan(env, p, cmds, Steps(env, p, cmds))
  {
  }

  lemma RuleOpDo(env: Env, c: Command, ok: bool, s: State)
    ensures var o := RuleOp(env, c, ok).do(s);
            var (h, done) := AddRule(env, s.host, c, ok);
            o.state == s.(host := h) && o.err.None? == done
  {
  }

  /** After n rule steps that succeeded. */
  lemma {:induction false} AfterRules(env: Env, p: Policy, cmds: seq<Command>, steps: seq<Saga.Op<State>>, h: Host, n: nat)
    requires IsFullPlan(env, p, cmds, steps) && n <= |cmds|
    requires Orderly(env, h) && Current(h) == [] && Installable(env, cmds)
    requires forall i :: 0 <= i < n ==> Saga.Passed(steps, State(h, false), i)
    ensures var s := Saga.After(steps, State(h, false), n);
            && Orderly(env, s.host) && s.host.masq4 == h.masq4 && s.host.masq6 == h.masq6 && !s.v6Installed
            && multiset(Current(s.host)) == multiset(SpelledAll(env, cmds[..n]))
  {
    hide Current, Orderly, RuleOp, Masq4Op, Masq6Op, PersistOp, AddRule, SpelledAll, Installable;
    SpelledSnoc(env, cmds, n);
    if n > 0 {
      var c := cmds[n - 1];
      var s := Saga.After(steps, State(h, false), n - 1);
      AfterRules(env, p, cmds, steps, h, n - 1);
      assert Saga.Passed(steps, State(h, false), n - 1);
      RuleOpDo(env, c, env.addOk(n - 1), s);
      AddRuleEffect(env, s.host, c, env.addOk(n - 1));
    }
  }

  lemma SpelledSnoc(env: Env, cmds: seq<Command>, n: nat)
    requires n <= |cmds| && Installable(env, cmds)
    ensures n == 0 ==> SpelledAll(env, cmds[..n]) == []
    ensures n > 0 ==> SpelledAll(env, cmds[..n]) == SpelledAll(env, cmds[..n - 1]) + [Spelled(env, cmds[n - 1])]
    ensures n > 0 ==> Installable(env, [cmds[n - 1]])
  {
  }

  lemma LastOpsDo(env: Env, p: Policy, s1: State, s2: State, s3: State, s4: State)
    requires Masq4Op(env).do(s1) == Saga.Outcome(s2, None)
    requires Masq6Op(env).do(s2) == Saga.Outcome(s3, None)
    requires PersistOp(env, p).do(s3) == Saga.Outcome(s4, None)
    ensures s4.host == s1.host.(masq4 := s1.host.masq4 + 1, masq6 := if env.ip6 then s1.host.masq6 + 1 else s1.host.masq6, saved := p)
  {
  }

  /** A finished apply saga: the window holds exactly the rules of the plan, and the masquerade is in. */
  lemma FinishedApply(env: Env, p: Policy, cmds: seq<Command>, steps: seq<Saga.Op<State>>, h: Host, ctx: Saga.Cancellation)
    requires IsFullPlan(env, p, cmds, steps)
    requires Orderly(env, h) && Current(h) == [] && h.masq4 == 0 && h.masq6 == 0 && Installable(env, cmds)
    requires Saga.Error(steps, ctx, State(h, false)).None?
    ensures var h' := Saga.Final(steps, ctx, State(h, false)).host;
            && Orderly(env, h') && HasMasquerade(env, h') && h'.saved == p
            && multiset(Current(h')) == multiset(SpelledAll(env, cmds))
  {
    hide Orderly, SpelledAll, Current, Masq4Op, Masq6Op, PersistOp, RuleOp;
    var s := State(h, false);
    var n := |cmds|;
    Saga.SuccessRunsAll(steps, ctx, s);
    AfterRules(env, p, cmds, steps, h, n);
    assert cmds[..n] == cmds;
    var s1 := Saga.After(steps, s, n);
    var s2 := Saga.After(steps, s, n + 1);
    var s3 := Saga.After(steps, s, n + 2);
    var s4 := Saga.After(steps, s, n + 3);
    assert Saga.Passed(steps, s, n) && Saga.Passed(steps, s, n + 1) && Saga.Passed(steps, s, n + 2);
    LastOpsDo(env, p, s1, s2, s3, s4);
    SameRules(env, s1.host, s4.host);
  }

  lemma SameRules(env: Env, h: Host, h': Host)
    requires h'.rules4 == h.rules4 && h'.rules6 == h.rules6
    ensures Current(h') == Current(h)
    ensures Orderly(env, h) && h'.masq4 <= 1 && h'.masq6 <= 1 && (!env.ip6 ==> h'.masq6 == 0) ==> Orderly(env, h')
  {
  }

  // ---------- convergence ----------

  /** Bridge names and printed sources are what the kernel allows. */
  ghost predicate Presentable(env: Env) {
    && (env.bridges.Some? ==> forall b :: b in env.bridges.value ==> b != "" && IsWord(b) && '/' !in b)
    && (forall ip :: IsAddressText(env.show(ip)))
  }

  /** The clients are spelled the way `ip rule show` spells them, host prefixes aside. */
  ghost predicate Canonical(env: Env, p: Policy) {
    p.mode == SELECTIVE ==> forall c :: c in p.clients ==> env.show(c.ip) == NormalizeSrc(c)
  }

  /** The plan for a policy, command by command against the desired rules. */
  lemma PlanFacts(env: Env, p: Policy, bridges: seq<string>)
    requires Presentable(env) && BridgesFor(env, p) == Some(bridges) && PlanFor(p, bridges).Commands?
    ensures var cmds := PlanFor(p, bridges).cmds;
            && Installable(env, cmds) && |cmds| == |Desired(p, bridges)|
            && (forall i :: 0 <= i < |cmds| ==> SameSlot(cmds[i], Desired(p, bridges)[i]) && NoSlash(Desired(p, bridges)[i]))
            && (Canonical(env, p) ==> SpelledAll(env, cmds) == Desired(p, bridges))
  {
    PlanMatchesDesired(p, bridges);
    var cmds := PlanFor(p, bridges).cmds;
    var desired := Desired(p, bridges);
    forall i | 0 <= i < |cmds|
      ensures InWindow(cmds[i].priority) && (cmds[i].family == "-4" || cmds[i].family == "-6") && Printable(Made(env, cmds[i]))
      ensures NoSlash(desired[i])
      ensures Canonical(env, p) ==> Spelled(env, cmds[i]) == desired[i]
    {
      hide PlanFor, Desired;
      assert SameSlot(cmds[i], desired[i]);
      if p.mode == ALL {
        assert ForBridge(cmds[i], desired[i], bridges);
      } else {
        assert ForClient(cmds[i], desired[i], p.clients);
      }
    }
  }

  lemma LadderIsDistinct(cmds: seq<Command>, rules: seq<ExitRule>)
    requires Ladder(cmds, BASE_PRIO) && |cmds| == |rules| && forall i :: 0 <= i < |cmds| ==> SameSlot(cmds[i], rules[i])
    ensures DistinctRules(rules)
  {
    forall i, j | 0 <= i < j < |rules|
      ensures rules[i] != rules[j]
    {
      assert SameSlot(cmds[i], rules[i]) && SameSlot(cmds[j], rules[j]);
    }
  }

  lemma DesiredFacts(env: Env, p: Policy, bridges: seq<string>)
    requires Presentable(env) && BridgesFor(env, p) == Some(bridges)
    requires p.mode == ALL || p.mode == SELECTIVE ==> Validated(p)
    ensures DistinctRules(Desired(p, bridges)) && forall r :: r in Desired(p, bridges) ==> NoSlash(r)
    ensures PlanFor(p, bridges).Rejected? ==> Desired(p, bridges) == []
    ensures p.mode == ALL && bridges != [] ==> Desired(p, bridges) != []
    ensures p.mode == SELECTIVE && p.clients != [] ==> Desired(p, bridges) != []
    ensures p.mode == SELECTIVE ==> PlanFor(p, bridges).Commands?
  {
    if PlanFor(p, bridges).Commands? {
      PlanFacts(env, p, bridges);
      PlanMatchesDesired(p, bridges);
      LadderIsDistinct(PlanFor(p, bridges).cmds, Desired(p, bridges));
    }
    if p.mode == SELECTIVE {
      ValidatedIsComplete(p, bridges);
    }
  }

  lemma {:induction false} WindowNoSlash(ks: seq<KernelRule>, family: string, r: ExitRule)
    requires '/' !in family && (forall k :: k in ks ==> Printable(k)) && r in Window(ks, family)
    ensures NoSlash(r)
  {
    assert ks[0] in ks && forall k :: k in ks[1..] ==> k in ks;
    if !(InWindow(ks[0].priority) && r == AsExitRule(ks[0], family)) {
      WindowNoSlash(ks[1..], family, r);
    }
  }

  lemma CurrentNoSlash(env: Env, h: Host, r: ExitRule)
    requires Orderly(env, h) && r in Current(h)
    ensures NoSlash(r)
  {
    ListedIs(env, h);
    if r in Window(h.rules4, "-4") {
      WindowNoSlash(h.rules4, "-4", r);
    } else {
      WindowNoSlash(h.rules6, "-6", r);
    }
  }

  /** On an orderly host the comparison tells exactly whether the rules in place are the desired ones. */
  lemma MatchesHere(env: Env, h: Host, p: Policy, bridges: seq<string>)
    requires Orderly(env, h) && Presentable(env) && BridgesFor(env, p) == Some(bridges)
    requires p.mode == ALL || p.mode == SELECTIVE ==> Validated(p)
    ensures Matches(Current(h), Desired(p, bridges)) <==> multiset(Current(h)) == multiset(Desired(p, bridges))
  {
    DesiredFacts(env, p, bridges);
    forall r | r in Current(h)
      ensures NoSlash(r)
    {
      CurrentNoSlash(env, h, r);
    }
    MatchesExact(Current(h), Desired(p, bridges));
  }

  /** What a successful apply leaves, whatever was there before. */
  lemma ApplyReaches(env: Env, h: Host, p: Policy, ctx: Saga.Cancellation)
    requires Working(env) && Orderly(env, h) && Presentable(env) && (p.mode == "" || Validated(p))
    requires Apply(env, h, p, ctx).1
    ensures BridgesFor(env, p).Some?
    ensures var h' := Apply(env, h, p, ctx).0;
            var bridges := BridgesFor(env, p).value;
            && Orderly(env, h')
            && HasMasquerade(env, h') == (Desired(p, bridges) != [])
            && (Desired(p, bridges) == [] ==> Current(h') == [])
            && (Desired(p, bridges) != [] ==> PlanFor(p, bridges).Commands? && multiset(Current(h')) == multiset(SpelledAll(env, PlanFor(p, bridges).cmds)))
  {
    CleanupClears(env, h);
    var clean := Cleaned(env, h);
    var h' := Apply(env, h, p, ctx).0;
    if p.mode == OFF || p.mode == "" {
      SameRules(env, clean, h');
    } else {
      var bridges := BridgesFor(env, p).value;
      DesiredFacts(env, p, bridges);
      PlanFacts(env, p, bridges);
      var cmds := PlanFor(p, bridges).cmds;
      var steps := Steps(env, p, cmds);
      if p.mode == SELECTIVE && p.clients == [] {
        EmptyApply(env, p, steps, clean, ctx);
        SameRules(env, clean, h');
      } else {
        FullPlan(env, p, cmds);
        FinishedApply(env, p, cmds, steps, clean, ctx);
      }
    }
  }

  lemma EmptyApply(env: Env, p: Policy, steps: seq<Saga.Op<State>>, h: Host, ctx: Saga.Cancellation)
    requires steps == [PersistOp(env, p)] && Saga.Error(steps, ctx, State(h, false)).None?
    ensures Saga.Final(steps, ctx, State(h, false)).host == h.(saved := p)
  {
    var s := State(h, false);
    Saga.SuccessRunsAll(steps, ctx, s);
    assert Saga.Passed(steps, s, 0);
    assert Saga.After(steps, s, 0) == s;
    assert Saga.After(steps, s, 1) == steps[0].do(s).state;
  }

  /** One successful Reconcile from any drift brings the host to the policy, and the next one runs no
      mutating command: the rules read back are a permutation of the desired ones, the masquerade is
      in exactly if there are any, and reconciling again changes nothing. */
  lemma ReconcileConverges(env: Env, h: Host, p: Policy, ctx: Saga.Cancellation, ctx': Saga.Cancellation)
    requires Working(env) && Orderly(env, h) && Presentable(env) && (p.mode == "" || Validated(p)) && Canonical(env, p)
    requires var v := Reconcile(env, h, p, ctx).1; v == Quiet || v == Applied(true)
    ensures BridgesFor(env, p).Some?
    ensures var h' := Reconcile(env, h, p, ctx).0;
            var desired := Desired(p, BridgesFor(env, p).value);
            && Orderly(env, h')
            && multiset(Current(h')) == multiset(desired)
            && HasMasquerade(env, h') == (desired != [])
            && Reconcile(env, h', p, ctx') == (h', Quiet)
  {
    var bridges := BridgesFor(env, p).value;
    var desired := Desired(p, bridges);
    var (h', v) := Reconcile(env, h, p, ctx);
    MatchesHere(env, h, p, bridges);
    if v == Applied(true) {
      ApplyReaches(env, h, p, ctx);
      if desired != [] {
        PlanFacts(env, p, bridges);
      }
    }
    MatchesHere(env, h', p, bridges);
  }

  /** After a successful selective apply the next Reconcile is quiet if and only if every client is
      spelled the way `ip rule show` prints it; one other spelling makes every tick apply again. */
  lemma QuietIffCanonical(env: Env, h: Host, p: Policy, ctx: Saga.Cancellation, ctx': Saga.Cancellation)
    requires Working(env) && Orderly(env, h) && Presentable(env) && Validated(p) && p.mode == SELECTIVE
    requires Apply(env, h, p, ctx).1
    ensures Reconcile(env, Apply(env, h, p, ctx).0, p, ctx').1 == Quiet <==> Canonical(env, p)
  {
    var h' := Apply(env, h, p, ctx).0;
    hide Apply;
    ApplyReaches(env, h, p, ctx);
    MatchesHere(env, h', p, []);
    if p.clients == [] {
      assert Desired(p, []) == [];
    } else {
      DesiredFacts(env, p, []);
      PlanFacts(env, p, []);
      PermutationIsCanonical(env, p);
      hide Desired, PlanFor, Current, Canonical, SpelledAll, Presentable, Orderly, Installable, HasMasquerade;
    }
  }

  /** One IPv6 client, spelled with capitals. */
  const CAPITALS := Policy(SELECTIVE, [Client("FD00::7", AddressForm(false))])

  lemma CapitalsAreNotCanonical(env: Env)
    requires env.show("FD00::7") == "fd00::7"
    ensures Validated(CAPITALS) && CAPITALS.mode == SELECTIVE && !Canonical(env, CAPITALS)
  {
    var c := CAPITALS.clients[0];
    assert NormalizeSrc(c)[0] == 'F';
  }

  /** For example, an IPv6 client spelled with capitals is printed in lower case, so that no tick is ever
      quiet. */
  lemma CapitalsNeverSettle(env: Env, h: Host, ctx: Saga.Cancellation, ctx': Saga.Cancellation)
    requires Working(env) && Orderly(env, h) && Presentable(env) && env.show("FD00::7") == "fd00::7"
    requires Apply(env, h, CAPITALS, ctx).1
    ensures Reconcile(env, Apply(env, h, CAPITALS, ctx).0, CAPITALS, ctx').1 != Quiet
  {
    hide *;
    CapitalsAreNotCanonical(env);
    QuietIffCanonical(env, h, CAPITALS, ctx, ctx');
  }

  /** Rules that are a permutation of the desired ones are spelled as those are: slots are distinct. */
  lemma PermutationIsCanonical(env: Env, p: Policy)
    requires Presentable(env) && Validated(p) && p.mode == SELECTIVE
    ensures PlanFor(p, []).Commands?
    ensures multiset(SpelledAll(env, PlanFor(p, []).cmds)) == multiset(Desired(p, [])) ==> Canonical(env, p)
  {
    ValidatedIsComplete(p, []);
    var cmds := PlanFor(p, []).cmds;
    var desired := Desired(p, []);
    assert forall c :: c in p.clients ==> c.ip != "";
    hide PlanFor, Desired, FamilyOf, NormalizeSrc, Validated, SpelledAll;
    var spelled := SpelledAll(env, cmds);
    if multiset(spelled) == multiset(desired) {
      forall i | 0 <= i < |p.clients|
        ensures env.show(p.clients[i].ip) == NormalizeSrc(p.clients[i])
      {
        assert desired[i] in multiset(desired);
        assert desired[i] in spelled;
        assert p.clients[i] in p.clients;
        SpellingAt(env, p, cmds, desired, i);
      }
    }
  }

  lemma SpellingAt(env: Env, p: Policy, cmds: seq<Command>, desired: seq<ExitRule>, i: nat)
    requires |cmds| == |p.clients| == |desired| && i < |cmds| && p.clients[i].ip != ""
    requires forall j :: 0 <= j < |cmds| ==> cmds[j] == Command(FamilyOf(p.clients[j]), p.clients[j].ip, BASE_PRIO + 1 + j, "")
    requires desired[i] == ExitRule(BASE_PRIO + 1 + i, FamilyOf(p.clients[i]), NormalizeSrc(p.clients[i]), "")
    requires desired[i] in SpelledAll(env, cmds)
    ensures env.show(p.clients[i].ip) == NormalizeSrc(p.clients[i])
  {
    hide FamilyOf, NormalizeSrc;
    var spelled := SpelledAll(env, cmds);
    var j :| 0 <= j < |spelled| && spelled[j] == desired[i];
    assert spelled[j] == Spelled(env, cmds[j]);
    assert j == i;
  }

  // ---------- a failed apply ----------

  /** The state x is y, the recorded policy aside, and remembers an IPv6 masquerade y has. */
  predicate Restored(p: Policy, x: State, y: State) {
    (x.host == y.host || x.host == y.host.(saved := p)) && (y.v6Installed ==> x.v6Installed)
  }

  function Undone(p: Policy): (State, State) -> bool {
    (x, y) => Restored(p, x, y)
  }

  lemma {:induction false} DeleteInserted(ks: seq<KernelRule>, k: KernelRule)
    requires forall x :: x in ks ==> x.priority != k.priority
    ensures DeleteFirst(Insert(ks, k), k.priority) == Some(ks)
  {
    var ins := Insert(ks, k);
    if ks == [] || k.priority < ks[0].priority {
      assert ins[1..] == ks;
    } else {
      DeleteInserted(ks[1..], k);
      assert ins[1..] == Insert(ks[1..], k);
      assert [ks[0]] + ks[1..] == ks;
    }
  }

  /** Every rule in the window was put there by one of the first n commands. */
  ghost predicate Accounted(ks: seq<KernelRule>, family: string, cmds: seq<Command>, n: nat)
    requires n <= |cmds|
  {
    forall k :: k in ks && InWindow(k.priority) ==> exists j :: 0 <= j < n && cmds[j].family == family && cmds[j].priority == k.priority
  }

  lemma PlanLength(env: Env, p: Policy, cmds: seq<Command>, steps: seq<Saga.Op<State>>)
    requires IsFullPlan(env, p, cmds, steps)
    ensures |steps| == |cmds| + 3
  {
  }

  lemma PlanStep(env: Env, p: Policy, cmds: seq<Command>, steps: seq<Saga.Op<State>>, i: nat)
    requires IsFullPlan(env, p, cmds, steps) && i < |cmds|
    ensures i < |steps| && steps[i] == RuleOp(env, cmds[i], env.addOk(i))
  {
    hide RuleOp, Masq4Op, Masq6Op, PersistOp;
  }

  lemma {:induction false} RulesSoFar(env: Env, p: Policy, cmds: seq<Command>, steps: seq<Saga.Op<State>>, h: Host, n: nat)
    requires IsFullPlan(env, p, cmds, steps) && n <= |cmds|
    requires Accounted(h.rules4, "-4", cmds, 0) && Accounted(h.rules6, "-6", cmds, 0)
    requires Ladder(cmds, BASE_PRIO)
    ensures var s := Saga.After(steps, State(h, false), n);
            !s.v6Installed && Accounted(s.host.rules4, "-4", cmds, n) && Accounted(s.host.rules6, "-6", cmds, n)
  {
    hide RuleOp, AddRule, Accounted, Ladder, IsFullPlan;
    PlanLength(env, p, cmds, steps);
    if n > 0 {
      RulesSoFar(env, p, cmds, steps, h, n - 1);
      PlanStep(env, p, cmds, steps, n - 1);
      var s := Saga.After(steps, State(h, false), n - 1);
      RuleOpDo(env, cmds[n - 1], env.addOk(n - 1), s);
      AddRuleAccounted(env, s.host, cmds, n - 1, env.addOk(n - 1));
    }
  }

  lemma AddRuleAccounted(env: Env, h: Host, cmds: seq<Command>, n: nat, ok: bool)
    requires n < |cmds| && Ladder(cmds, BASE_PRIO)
    requires Accounted(h.rules4, "-4", cmds, n) && Accounted(h.rules6, "-6", cmds, n)
    ensures var h' := AddRule(env, h, cmds[n], ok).0;
            Accounted(h'.rules4, "-4", cmds, n + 1) && Accounted(h'.rules6, "-6", cmds, n + 1)
  {
    var k := Made(env, cmds[n]);
    forall x
      ensures x in Insert(Table(h, cmds[n].family), k) <==> x in Table(h, cmds[n].family) || x == k
    {
      InsertMembers(Table(h, cmds[n].family), k, x);
    }
  }

  lemma RuleStepReversible(env: Env, p: Policy, cmds: seq<Command>, n: nat, ok: bool, s: State)
    requires Working(env) && n < |cmds| && Ladder(cmds, BASE_PRIO)
    requires Accounted(s.host.rules4, "-4", cmds, n) && Accounted(s.host.rules6, "-6", cmds, n)
    ensures !s.v6Installed ==> Saga.TakesBack(RuleOp(env, cmds[n], ok), s, Undone(p))
  {
    var c := cmds[n];
    var ks := Table(s.host, c.family);
    forall x | x in ks
      ensures x.priority != c.priority
    {
      if InWindow(x.priority) {
        var j :| 0 <= j < n && cmds[j].family == c.family && cmds[j].priority == x.priority;
      }
    }
    DeleteInserted(ks, Made(env, c));
  }

  lemma LastStepsReversible(env: Env, p: Policy, s: State)
    requires Working(env)
    ensures !s.v6Installed ==> Saga.TakesBack(Masq4Op(env), s, Undone(p)) && Saga.TakesBack(Masq6Op(env), s, Undone(p))
    ensures !s.v6Installed ==> !Masq4Op(env).do(s).state.v6Installed
    ensures Saga.TakesBack(PersistOp(env, p), s, Undone(p))
  {
  }

  lemma StepReversible(env: Env, p: Policy, cmds: seq<Command>, steps: seq<Saga.Op<State>>, h: Host, i: nat)
    requires Working(env) && IsFullPlan(env, p, cmds, steps) && Ladder(cmds, BASE_PRIO)
    requires Accounted(h.rules4, "-4", cmds, 0) && Accounted(h.rules6, "-6", cmds, 0)
    requires i < |steps|
    ensures Saga.Reversible(steps, State(h, false), i, Undone(p))
  {
    hide RuleOp, Masq4Op, Masq6Op, PersistOp, Working, Ladder, Accounted, Saga.TakesBack;
    var n := |cmds|;
    var s := Saga.After(steps, State(h, false), i);
    RulesSoFar(env, p, cmds, steps, h, if i <= n then i else n);
    if i < n {
      RuleStepReversible(env, p, cmds, i, env.addOk(i), s);
    } else {
      LastStepsReversible(env, p, Saga.After(steps, State(h, false), n));
      LastStepsReversible(env, p, s);
    }
  }

  /** A failed or cancelled apply leaves no rule in the window and no masquerade, and touches nothing else
      but, when it got as far as its last step, the recorded policy. */
  lemma FailedApplyLeavesNothing(env: Env, h: Host, p: Policy, ctx: Saga.Cancellation)
    requires Working(env) && Orderly(env, h) && !Apply(env, h, p, ctx).1
    ensures var h' := Apply(env, h, p, ctx).0;
            && (h' == Cleaned(env, h) || h' == Cleaned(env, h).(saved := p) || h' == Cleaned(env, h).(saved := Policy(OFF, [])))
            && Current(h') == [] && !HasMasquerade(env, h') && Orderly(env, h')
  {
    CleanupClears(env, h);
    var clean := Cleaned(env, h);
    var h' := Apply(env, h, p, ctx).0;
    var bridges := BridgesFor(env, p);
    if p.mode != OFF && p.mode != "" && bridges.Some? && PlanFor(p, bridges.value).Commands? {
      FailedSaga(env, h, p, bridges.value, ctx);
    }
    SameRules(env, clean, h');
  }

  lemma FailedSaga(env: Env, h: Host, p: Policy, bridges: seq<string>, ctx: Saga.Cancellation)
    requires Working(env) && PlanFor(p, bridges).Commands?
    ensures var steps := Steps(env, p, PlanFor(p, bridges).cmds);
            var clean := State(Cleaned(env, h), false);
            Saga.Error(steps, ctx, clean).Some? ==> Restored(p, Saga.Final(steps, ctx, clean), clean)
  {
    var cmds := PlanFor(p, bridges).cmds;
    var steps := Steps(env, p, cmds);
    var clean := State(Cleaned(env, h), false);
    var same := Undone(p);
    PlanMatchesDesired(p, bridges);
    OutsideFacts(h.rules4, "-4");
    OutsideFacts(h.rules6, "-6");
    hide PlanFor, Outside;
    forall i | 0 <= i < |steps|
      ensures Saga.Reversible(steps, clean, i, same)
    {
      if p.mode == SELECTIVE && p.clients == [] {
        LastStepsReversible(env, p, clean);
      } else {
        FullPlan(env, p, cmds);
        StepReversible(env, p, cmds, steps, clean.host, i);
      }
    }
    hide Steps, Saga.Reversible;
    Saga.FailureRestores(steps, ctx, clean, same);
  }
}
