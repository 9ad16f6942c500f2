/** What an exit-node policy asks for (exitnode.go): the desired rules, the commands that install them,
    policy validation, and the comparison with the rules in place. */
module ExitPolicy {
  import opened Text
  import opened ExitRules

  /** What netip makes of an address text: a prefix with its host part, a bare address, or nothing. */
  datatype Parsed = PrefixForm(v4: bool, bits: nat, host: string) | AddressForm(v4: bool) | Invalid

  datatype Client = Client(ip: string, parsed: Parsed)

  datatype Policy = Policy(mode: string, clients: seq<Client>)

  const OFF := "off"
  const ALL := "all"
  const SELECTIVE := "selective"

  /** familyForAddr; the empty text parses as nothing. */
  function FamilyOf(c: Client): string {
    if c.ip == "" || c.parsed.Invalid? then "" else if c.parsed.v4 then "-4" else "-6"
  }

  /** The spelling `ip rule show` uses: a host prefix is printed as its address. */
  function NormalizeSrc(c: Client): string {
    match c.parsed
    case PrefixForm(v4, bits, host) => if (v4 && bits == 32) || (!v4 && bits == 128) then host else c.ip
    case _ => c.ip
  }

  predicate IsCatchAll(c: Client) {
    c.parsed.PrefixForm? && c.parsed.bits == 0
  }

  /** ValidateExitNodePolicy */
  predicate Validated(p: Policy) {
    || p.mode == OFF || p.mode == ALL
    || (p.mode == SELECTIVE && |p.clients| <= MAX_CLIENTS
        && forall c :: c in p.clients ==> FamilyOf(c) != "" && !IsCatchAll(c))
  }

  method ValidateExitNodePolicy(p: Policy) returns (ok: bool)
    ensures ok == Validated(p)
  {
    if p.mode == OFF || p.mode == ALL {
      return true;
    }
    if p.mode != SELECTIVE || |p.clients| > MAX_CLIENTS {
      return false;
    }
    for i := 0 to |p.clients|
      invariant forall j :: 0 <= j < i ==> FamilyOf(p.clients[j]) != "" && !IsCatchAll(p.clients[j])
    {
      assert p.clients[i] in p.clients;
      if FamilyOf(p.clients[i]) == "" {
        return false;
      }
      if IsCatchAll(p.clients[i]) {
        return false;
      }
    }
    ok := true;
  }

  // ---------- desired rules ----------

  function BridgeRules(bridges: seq<string>, prio: nat): seq<ExitRule> {
    if bridges == [] || prio > MAX_PRIO then []
    else [ExitRule(prio, "-4", "", bridges[0]), ExitRule(prio, "-6", "", bridges[0])] + BridgeRules(bridges[1..], prio + 1)
  }

  function ClientRules(clients: seq<Client>, prio: nat): seq<ExitRule> {
    if clients == [] || prio > MAX_PRIO then []
    else
      var c := clients[0];
      if FamilyOf(c) == "" then ClientRules(clients[1..], prio)
      else [ExitRule(prio, FamilyOf(c), NormalizeSrc(c), "")] + ClientRules(clients[1..], prio + 1)
  }

  function Desired(p: Policy, bridges: seq<string>): seq<ExitRule> {
    if p.mode == ALL then BridgeRules(bridges, BASE_PRIO)
    else if p.mode == SELECTIVE then ClientRules(p.clients, BASE_PRIO + 1)
    else []
  }

  /** buildDesiredRules */
  method BuildDesiredRules(p: Policy, bridges: seq<string>) returns (rules: seq<ExitRule>)
    ensures rules == Desired(p, bridges)
  {
    rules := [];
    if p.mode == ALL {
      var prio: nat := BASE_PRIO;
      assert bridges[0..] == bridges;
      for i := 0 to |bridges|
        invariant prio <= MAX_PRIO
        invariant BridgeRules(bridges, BASE_PRIO) == rules + BridgeRules(bridges[i..], prio)
      {
        assert bridges[i..][0] == bridges[i] && bridges[i..][1..] == bridges[i + 1..];
        Assoc(rules, [ExitRule(prio, "-4", "", bridges[i]), ExitRule(prio, "-6", "", bridges[i])], BridgeRules(bridges[i + 1..], prio + 1));
        rules := rules + [ExitRule(prio, "-4", "", bridges[i])];
        rules := rules + [ExitRule(prio, "-6", "", bridges[i])];
        prio := prio + 1;
        if prio > MAX_PRIO {
          return;
        }
      }
    } else if p.mode == SELECTIVE {
      var prio: nat := BASE_PRIO + 1;
      assert p.clients[0..] == p.clients;
      for i := 0 to |p.clients|
        invariant prio <= MAX_PRIO
        invariant ClientRules(p.clients, BASE_PRIO + 1) == rules + ClientRules(p.clients[i..], prio)
      {
        var c := p.clients[i];
        assert p.clients[i..][0] == c && p.clients[i..][1..] == p.clients[i + 1..];
        if FamilyOf(c) == "" {
          continue;
        }
        Assoc(rules, [ExitRule(prio, FamilyOf(c), NormalizeSrc(c), "")], ClientRules(p.clients[i + 1..], prio + 1));
        rules := rules + [ExitRule(prio, FamilyOf(c), NormalizeSrc(c), "")];
        prio := prio + 1;
        if prio > MAX_PRIO {
          return;
        }
      }
    }
  }

  // ---------- the commands that install them ----------

  /** `ip <family> rule add [iif <iif> | from <src>] lookup 53 prio <prio>` */
  datatype Command = Command(family: string, src: string, priority: nat, iif: string)

  datatype Plan = Rejected | Commands(cmds: seq<Command>)

  function BridgeCommands(bridges: seq<string>, prio: nat): seq<Command> {
    if bridges == [] || prio > MAX_PRIO then []
    else [Command("-4", "", prio, bridges[0]), Command("-6", "", prio, bridges[0])] + BridgeCommands(bridges[1..], prio + 1)
  }

  /** A catch-all client rejects the whole plan; an unparsable one is skipped. */
  function ClientCommands(clients: seq<Client>, prio: nat): Plan {
    if clients == [] || prio > MAX_PRIO then Commands([])
    else
      var c := clients[0];
      if IsCatchAll(c) then Rejected
      else if FamilyOf(c) == "" then ClientCommands(clients[1..], prio)
      else
        var rest := ClientCommands(clients[1..], prio + 1);
        if rest.Rejected? then Rejected
        else Commands([Command(FamilyOf(c), c.ip, prio, "")] + rest.cmds)
  }

  /** The rule part of buildApplyOps. */
  function PlanFor(p: Policy, bridges: seq<string>): Plan {
    if p.mode == ALL then (if bridges == [] then Rejected else Commands(BridgeCommands(bridges, BASE_PRIO)))
    else if p.mode == SELECTIVE then ClientCommands(p.clients, BASE_PRIO + 1)
    else Rejected
  }

  /** Same slot: priority, family and interface agree, sources aside. */
  predicate SameSlot(c: Command, r: ExitRule) {
    c.priority == r.priority && c.family == r.family && c.iif == r.iif
  }

  /** Priorities strictly increase along the list (or repeat once, for the other family). */
  ghost predicate Ladder(cmds: seq<Command>, from: nat) {
    && (forall i :: 0 <= i < |cmds| ==> from <= cmds[i].priority <= MAX_PRIO && (cmds[i].family == "-4" || cmds[i].family == "-6"))
    && (forall i, j :: 0 <= i < j < |cmds| ==> cmds[i].priority < cmds[j].priority
                                               || (cmds[i].priority == cmds[j].priority && cmds[i].family != cmds[j].family))
  }

  /** The command and the rule are for one bridge of the list. */
  predicate ForBridge(cmd: Command, r: ExitRule, bridges: seq<string>) {
    SameSlot(cmd, r) && cmd.src == "" && r.src == "" && cmd.iif in bridges
  }

  lemma {:induction false} BridgeSlots(bridges: seq<string>, prio: nat)
    ensures var cs := BridgeCommands(bridges, prio);
            var rs := BridgeRules(bridges, prio);
            |cs| == |rs| && Ladder(cs, prio) && forall i :: 0 <= i < |cs| ==> ForBridge(cs[i], rs[i], bridges)
    decreases |bridges|
  {
    if bridges != [] && prio <= MAX_PRIO {
      assert bridges == [bridges[0]] + bridges[1..];
      BridgeSlots(bridges[1..], prio + 1);
      var b := bridges[0];
      var cs, rs := BridgeCommands(bridges[1..], prio + 1), BridgeRules(bridges[1..], prio + 1);
      var cs' := [Command("-4", "", prio, b), Command("-6", "", prio, b)] + cs;
      var rs' := [ExitRule(prio, "-4", "", b), ExitRule(prio, "-6", "", b)] + rs;
      assert BridgeCommands(bridges, prio) == cs' && BridgeRules(bridges, prio) == rs';
      LadderPair(cs, prio, b);
      hide BridgeCommands, BridgeRules, Ladder;
      forall i | 0 <= i < |cs'|
        ensures ForBridge(cs'[i], rs'[i], bridges)
      {
        if i >= 2 {
          assert cs'[i] == cs[i - 2] && rs'[i] == rs[i - 2] && ForBridge(cs[i - 2], rs[i - 2], bridges[1..]);
        }
      }
    }
  }

  lemma LadderPair(cmds: seq<Command>, prio: nat, bridge: string)
    requires Ladder(cmds, prio + 1) && prio <= MAX_PRIO
    ensures Ladder([Command("-4", "", prio, bridge), Command("-6", "", prio, bridge)] + cmds, prio)
  {
    var all := [Command("-4", "", prio, bridge), Command("-6", "", prio, bridge)] + cmds;
    assert all[0].family == "-4" && all[1].family == "-6";
    assert forall i :: 2 <= i < |all| ==> all[i] == cmds[i - 2];
  }

  /** The command is for a client of the list, and the rule spells that client's source. */
  ghost predicate ForClient(cmd: Command, r: ExitRule, clients: seq<Client>) {
    SameSlot(cmd, r) && cmd.iif == "" &&
    exists c :: c in clients && c.ip == cmd.src && NormalizeSrc(c) == r.src && FamilyOf(c) == cmd.family
  }

  ghost predicate FromClients(cs: seq<Command>, rs: seq<ExitRule>, clients: seq<Client>) {
    |cs| == |rs| && forall i :: 0 <= i < |cs| ==> ForClient(cs[i], rs[i], clients)
  }

  lemma ForMoreClients(cmd: Command, r: ExitRule, clients: seq<Client>)
    requires clients != [] && ForClient(cmd, r, clients[1..])
    ensures ForClient(cmd, r, clients)
  {
    var c :| c in clients[1..] && c.ip == cmd.src && NormalizeSrc(c) == r.src && FamilyOf(c) == cmd.family;
    assert c in clients;
  }

  lemma {:induction false} ClientSlots(clients: seq<Client>, prio: nat)
    ensures var plan := ClientCommands(clients, prio);
            plan.Commands? ==> FromClients(plan.cmds, ClientRules(clients, prio), clients)
    decreases |clients|
  {
    hide FamilyOf, NormalizeSrc, IsCatchAll;
    var plan := ClientCommands(clients, prio);
    if clients != [] && prio <= MAX_PRIO && plan.Commands? {
      var c := clients[0];
      var rules := ClientRules(clients, prio);
      ClientSlots(clients[1..], if FamilyOf(c) == "" then prio else prio + 1);
      forall i | 0 <= i < |plan.cmds|
        ensures |rules| == |plan.cmds| && ForClient(plan.cmds[i], rules[i], clients)
      {
        if FamilyOf(c) == "" {
          ForMoreClients(plan.cmds[i], rules[i], clients);
        } else if i == 0 {
          assert c in clients;
        } else {
          ForMoreClients(plan.cmds[i], rules[i], clients);
        }
      }
    }
  }

  lemma {:induction false} ClientLadder(clients: seq<Client>, prio: nat)
    ensures var plan := ClientCommands(clients, prio);
            plan.Commands? ==> Ladder(plan.cmds, prio)
    decreases |clients|
  {
    if clients != [] && prio <= MAX_PRIO {
      ClientLadder(clients[1..], if FamilyOf(clients[0]) == "" then prio else prio + 1);
    }
  }

  /** The rules a plan installs and the rules the reconciler expects occupy the same slots, all within the
      priority window and never two of one family at one priority; sources agree up to the spelling
      of host prefixes. */
  lemma PlanMatchesDesired(p: Policy, bridges: seq<string>)
    ensures var plan := PlanFor(p, bridges);
            plan.Commands? ==>
              && Ladder(plan.cmds, BASE_PRIO)
              && |plan.cmds| == |Desired(p, bridges)|
              && (forall i :: 0 <= i < |plan.cmds| ==> SameSlot(plan.cmds[i], Desired(p, bridges)[i]) && InWindow(plan.cmds[i].priority))
              && (p.mode == ALL ==> forall i :: 0 <= i < |plan.cmds| ==> ForBridge(plan.cmds[i], Desired(p, bridges)[i], bridges))
              && (p.mode == SELECTIVE ==> FromClients(plan.cmds, Desired(p, bridges), p.clients))
  {
    if p.mode == ALL {
      BridgeSlots(bridges, BASE_PRIO);
    } else if p.mode == SELECTIVE {
      ClientSlots(p.clients, BASE_PRIO + 1);
      ClientLadder(p.clients, BASE_PRIO + 1);
    }
  }

  lemma {:induction false} NoClientTruncated(clients: seq<Client>, prio: nat)
    requires forall c :: c in clients ==> FamilyOf(c) != "" && !IsCatchAll(c)
    requires prio + |clients| <= MAX_PRIO + 1
    ensures |ClientRules(clients, prio)| == |clients|
    ensures forall i :: 0 <= i < |clients| ==> ClientRules(clients, prio)[i] == ExitRule(prio + i, FamilyOf(clients[i]), NormalizeSrc(clients[i]), "")
    decreases |clients|
  {
    hide FamilyOf, NormalizeSrc, IsCatchAll;
    if clients != [] {
      var rest := clients[1..];
      assert clients[0] in clients && forall c :: c in rest ==> c in clients;
      NoClientTruncated(rest, prio + 1);
      var rules := ClientRules(rest, prio + 1);
      var first := ExitRule(prio, FamilyOf(clients[0]), NormalizeSrc(clients[0]), "");
      assert ClientRules(clients, prio) == [first] + rules;
      hide ClientRules;
      forall i | 0 <= i < |clients|
        ensures ([first] + rules)[i] == ExitRule(prio + i, FamilyOf(clients[i]), NormalizeSrc(clients[i]), "")
      {
        if i > 0 {
          assert ([first] + rules)[i] == rules[i - 1] && clients[i] == rest[i - 1];
        }
      }
    }
  }

  lemma {:induction false} NoClientSkipped(clients: seq<Client>, prio: nat)
    requires forall c :: c in clients ==> FamilyOf(c) != "" && !IsCatchAll(c)
    requires prio + |clients| <= MAX_PRIO + 1
    ensures var plan := ClientCommands(clients, prio);
            && plan.Commands? && |plan.cmds| == |clients|
            && forall i :: 0 <= i < |clients| ==> plan.cmds[i] == Command(FamilyOf(clients[i]), clients[i].ip, prio + i, "")
    decreases |clients|
  {
    hide FamilyOf, IsCatchAll;
    if clients != [] {
      var rest := clients[1..];
      assert clients[0] in clients && forall c :: c in rest ==> c in clients;
      NoClientSkipped(rest, prio + 1);
      var cmds := ClientCommands(rest, prio + 1).cmds;
      var first := Command(FamilyOf(clients[0]), clients[0].ip, prio, "");
      assert ClientCommands(clients, prio) == Commands([first] + cmds);
      forall i | 0 <= i < |clients|
        ensures ([first] + cmds)[i] == Command(FamilyOf(clients[i]), clients[i].ip, prio + i, "")
      {
        if i > 0 {
          assert ([first] + cmds)[i] == cmds[i - 1] && clients[i] == rest[i - 1];
        }
      }
    }
  }

  /** A validated selective policy loses no client: client i gets the rule at priority 5281 + i. */
  lemma ValidatedIsComplete(p: Policy, bridges: seq<string>)
    requires Validated(p) && p.mode == SELECTIVE
    ensures PlanFor(p, bridges).Commands? && |PlanFor(p, bridges).cmds| == |p.clients|
    ensures forall i :: 0 <= i < |p.clients| ==>
              PlanFor(p, bridges).cmds[i] == Command(FamilyOf(p.clients[i]), p.clients[i].ip, BASE_PRIO + 1 + i, "")
    ensures |Desired(p, bridges)| == |p.clients|
    ensures forall i :: 0 <= i < |p.clients| ==>
              Desired(p, bridges)[i] == ExitRule(BASE_PRIO + 1 + i, FamilyOf(p.clients[i]), NormalizeSrc(p.clients[i]), "")
  {
    NoClientTruncated(p.clients, BASE_PRIO + 1);
    NoClientSkipped(p.clients, BASE_PRIO + 1);
  }

  // ---------- comparing rule sets ----------

  function RuleKey(r: ExitRule): string {
    Itoa(r.priority) + "/" + r.family + "/" + r.src + "/" + r.iif
  }

  predicate NoSlash(r: ExitRule) {
    '/' !in r.family && '/' !in r.iif
  }

  /** Keys identify rules although sources may contain slashes. */
  lemma RuleKeyInjective(r: ExitRule, r': ExitRule)
    requires NoSlash(r) && NoSlash(r') && RuleKey(r) == RuleKey(r')
    ensures r == r'
  {
    var d, d' := Itoa(r.priority), Itoa(r'.priority);
    var b := r.family + "/" + r.src + "/" + r.iif;
    var b' := r'.family + "/" + r'.src + "/" + r'.iif;
    assert RuleKey(r) == d + ['/'] + b && RuleKey(r') == d' + ['/'] + b';
    CutFirst(d, b, d', b', '/');
    ItoaInjective(r.priority, r'.priority);
    var c := r.src + "/" + r.iif;
    var c' := r'.src + "/" + r'.iif;
    assert b == r.family + ['/'] + c && b' == r'.family + ['/'] + c';
    CutFirst(r.family, c, r'.family, c', '/');
    CutLast(r.src, r.iif, r'.src, r'.iif, '/');
  }

  function RuleKeys(rs: seq<ExitRule>): set<string> {
    set r | r in rs :: RuleKey(r)
  }

  predicate Matches(current: seq<ExitRule>, desired: seq<ExitRule>) {
    |current| == |desired| && forall r :: r in desired ==> RuleKey(r) in RuleKeys(current)
  }

  /** rulesMatch */
  method RulesMatch(current: seq<ExitRule>, desired: seq<ExitRule>) returns (b: bool)
    ensures b == Matches(current, desired)
  {
    if |current| != |desired| {
      return false;
    }
    var cm: set<string> := {};
    for i := 0 to |current|
      invariant cm == RuleKeys(current[..i])
    {
      assert current[..i + 1] == current[..i] + [current[i]];
      cm := cm + {RuleKey(current[i])};
    }
    assert current[..|current|] == current;
    for i := 0 to |desired|
      invariant forall j :: 0 <= j < i ==> RuleKey(desired[j]) in cm
    {
      assert desired[i] in desired;
      if RuleKey(desired[i]) !in cm {
        return false;
      }
    }
    b := true;
  }

  ghost predicate DistinctRules(rs: seq<ExitRule>) {
    forall i, j :: 0 <= i < j < |rs| ==> rs[i] != rs[j]
  }

  lemma {:induction false} DistinctCounts(rs: seq<ExitRule>, r: ExitRule)
    requires DistinctRules(rs)
    ensures multiset(rs)[r] <= 1
  {
    if rs != [] {
      assert rs == [rs[0]] + rs[1..];
      DistinctCounts(rs[1..], r);
      if r == rs[0] {
        assert r !in rs[1..];
      }
    }
  }

  /** Pigeonhole on multisets: containment and equal size is equality. */
  lemma ContainedAndEqualSize(a: multiset<ExitRule>, b: multiset<ExitRule>)
    requires a <= b && |a| == |b|
    ensures a == b
  {
    assert b == a + (b - a);
    assert |b - a| == 0;
  }

  /** rulesMatch is exact: for distinct desired rules, equal length and one-way key membership hold if
      and only if the current rules are a permutation of the desired ones. */
  lemma MatchesExact(current: seq<ExitRule>, desired: seq<ExitRule>)
    requires DistinctRules(desired)
    requires forall r :: r in current || r in desired ==> NoSlash(r)
    ensures Matches(current, desired) <==> multiset(current) == multiset(desired)
  {
    if Matches(current, desired) {
      forall r | r in desired
        ensures r in current
      {
        var r' :| r' in current && RuleKey(r') == RuleKey(r);
        RuleKeyInjective(r, r');
      }
      forall r
        ensures multiset(desired)[r] <= multiset(current)[r]
      {
        DistinctCounts(desired, r);
        assert r in multiset(desired) ==> r in desired;
      }
      ContainedAndEqualSize(multiset(desired), multiset(current));
    }
    if multiset(current) == multiset(desired) {
      assert |current| == |multiset(current)| && |desired| == |multiset(desired)|;
      forall r | r in desired
        ensures RuleKey(r) in RuleKeys(current)
      {
        assert r in multiset(desired);
        assert r in current;
      }
    }
  }
}
