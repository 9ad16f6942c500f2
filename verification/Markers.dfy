/** Firewall rules found again by the marker in their description (udapi/firewall.go). */
module Markers {
  import opened Text

  /** A rule in a chain of the API: its ID, description, and what it does. */
  datatype Rule = Rule(id: nat, desc: string, target: string, iface: string, direction: string)

  /** The rule lists by chain; every ID is handed out once. */
  datatype Filter = Filter(chains: map<string, seq<Rule>>, nextId: nat)

  const CHAINS := ["FORWARD_IN", "INPUT", "OUTPUT"]

  datatype Spec = Spec(chain: string, target: string, iface: string, direction: string, marker: string, desc: string)

  function Description(iface: string, target: string, marker: string): string {
    iface + " " + target + " (" + marker + ")"
  }

  /** zoneRules */
  function ZoneRules(iface: string, marker: string, prefix: string): seq<Spec> {
    [ Spec("FORWARD_IN", prefix + "_IN", iface, "inInterface", marker, Description(iface, prefix + "_IN", marker)),
      Spec("INPUT", prefix + "_LOCAL", iface, "inInterface", marker, Description(iface, prefix + "_LOCAL", marker)),
      Spec("OUTPUT", "LOCAL_" + prefix, iface, "outInterface", marker, Description(iface, "LOCAL_" + prefix, marker)) ]
  }

  /** markerFromDescription: what stands between the last '(' and the ')' after it. */
  function MarkerOf(desc: string): string {
    var open := LastIndexChar(desc, '(');
    if open.None? then ""
    else
      var rel := IndexChar(desc[open.value..], ')');
      if rel.None? then "" else desc[open.value..][1..rel.value]
  }

  predicate ParenFree(s: string) {
    '(' !in s && ')' !in s
  }

  lemma {:induction false} LastIndexIs(a: string, b: string, c: char)
    requires c !in b
    ensures LastIndexChar(a + [c] + b, c) == Some(|a|)
    decreases |b|
  {
    var s := a + [c] + b;
    if b == "" {
      assert s[|s| - 1] == c;
    } else {
      var n := |b| - 1;
      assert s[|s| - 1] == b[n] && b[n] != c;
      assert s[..|s| - 1] == a + [c] + b[..n];
      LastIndexIs(a, b[..n], c);
    }
  }

  lemma FirstIndexIs(a: string, b: string, c: char)
    requires c !in a
    ensures IndexChar(a + [c] + b, c) == Some(|a|)
  {
    hide IndexChar;
    var s := a + [c] + b;
    assert s[|a|] == c && c in s;
    var r := IndexChar(s, c).value;
    assert s == s[..r] + [c] + s[r + 1..];
    CutFirst(a, b, s[..r], s[r + 1..], c);
  }

  /** What is read back never contains a parenthesis. */
  lemma MarkerIsParenFree(desc: string)
    ensures ParenFree(MarkerOf(desc))
  {
    var open := LastIndexChar(desc, '(');
    if open.Some? {
      var tail := desc[open.value..];
      var rel := IndexChar(tail, ')');
      if rel.Some? {
        var m := tail[1..rel.value];
        assert forall i :: 0 <= i < |m| ==> m[i] == tail[..rel.value][i + 1] && m[i] == desc[open.value + 1..][i];
      }
    }
  }

  lemma ReadBack(lead: string, marker: string)
    requires ParenFree(marker)
    ensures MarkerOf(lead + ['('] + (marker + ")")) == marker
  {
    hide LastIndexChar, IndexChar;
    var desc := lead + ['('] + (marker + ")");
    LastIndexIs(lead, marker + ")", '(');
    var tail := ("(" + marker) + [')'] + "";
    assert tail == ['('] + (marker + ")");
    Assoc(lead, ['('], marker + ")");
    assert desc[|lead|..] == tail;
    FirstIndexIs("(" + marker, "", ')');
    assert tail[1..|marker| + 1] == marker;
  }

  /** A marker is read back from the descriptions built with it if and only if it has no parentheses. */
  lemma MarkerRoundTrip(iface: string, target: string, marker: string)
    ensures MarkerOf(Description(iface, target, marker)) == marker <==> ParenFree(marker)
  {
    var lead := iface + " " + target + " ";
    assert Description(iface, target, marker) == lead + ['('] + (marker + ")");
    if ParenFree(marker) {
      ReadBack(lead, marker);
    }
    MarkerIsParenFree(Description(iface, target, marker));
  }

  /** For example, a closing parenthesis cuts the marker short. */
  lemma ParenthesisCutsMarker(iface: string, target: string)
    ensures MarkerOf(Description(iface, target, "a)b")) != "a)b"
  {
    hide MarkerOf, Description;
    assert "a)b"[1] == ')';
    MarkerRoundTrip(iface, target, "a)b");
  }

  // ---------- adding and removing ----------

  function Chain(f: Filter, c: string): seq<Rule> {
    if c in f.chains then f.chains[c] else []
  }

  /** Which API calls of one operation work, by chain (and rule ID). */
  datatype Calls = Calls(listOk: string -> bool, addOk: string -> bool, deleteOk: (string, nat) -> bool)

  function Marked(rules: seq<Rule>, marker: string): nat {
    if rules == [] then 0 else (if MarkerOf(rules[0].desc) == marker then 1 else 0) + Marked(rules[1..], marker)
  }

  /** AddRule: nothing to do if the chain has a rule with the marker. */
  function AddRule(f: Filter, r: Spec, env: Calls): (Filter, bool) {
    if !env.listOk(r.chain) then (f, false)
    else if Marked(Chain(f, r.chain), r.marker) > 0 then (f, true)
    else if !env.addOk(r.chain) then (f, false)
    else (Filter(f.chains[r.chain := Chain(f, r.chain) + [Rule(f.nextId, r.desc, r.target, r.iface, r.direction)]], f.nextId + 1), true)
  }

  function AddRules(f: Filter, rs: seq<Spec>, env: Calls): (Filter, bool)
    decreases |rs|
  {
    if rs == [] then (f, true)
    else
      var (f1, ok) := AddRule(f, rs[0], env);
      var (f2, rest) := AddRules(f1, rs[1..], env);
      (f2, ok && rest)
  }

  function WithoutId(rules: seq<Rule>, id: nat): seq<Rule> {
    if rules == [] then [] else (if rules[0].id == id then [] else [rules[0]]) + WithoutId(rules[1..], id)
  }

  /** The loop of removeMarkerRules over the rules it listed; it stops at the first delete that fails. */
  function DeleteMarked(rules: seq<Rule>, listed: seq<Rule>, marker: string, ok: nat -> bool): (seq<Rule>, bool)
    decreases |listed|
  {
    if listed == [] then (rules, true)
    else if MarkerOf(listed[0].desc) != marker then DeleteMarked(rules, listed[1..], marker, ok)
    else if !ok(listed[0].id) then (rules, false)
    else DeleteMarked(WithoutId(rules, listed[0].id), listed[1..], marker, ok)
  }

  function RemoveMarker(f: Filter, c: string, marker: string, env: Calls): (Filter, bool) {
    if !env.listOk(c) then (f, false)
    else
      var (rules, ok) := DeleteMarked(Chain(f, c), Chain(f, c), marker, (id: nat) => env.deleteOk(c, id));
      (f.(chains := f.chains[c := rules]), ok)
  }

  /** RemoveInterfaceRules: the chains one after the other, whatever fails. */
  function RemoveRules(f: Filter, chains: seq<string>, marker: string, env: Calls): (Filter, bool)
    decreases |chains|
  {
    if chains == [] then (f, true)
    else
      var (f1, ok) := RemoveMarker(f, chains[0], marker, env);
      var (f2, rest) := RemoveRules(f1, chains[1..], marker, env);
      (f2, ok && rest)
  }

  // ---------- precision ----------

  /** The rules of a chain without those of a marker, in order. */
  function Unmarked(rules: seq<Rule>, marker: string): seq<Rule> {
    if rules == [] then [] else (if MarkerOf(rules[0].desc) == marker then [] else [rules[0]]) + Unmarked(rules[1..], marker)
  }

  ghost predicate DistinctIds(rules: seq<Rule>) {
    forall i, j :: 0 <= i < j < |rules| ==> rules[i].id != rules[j].id
  }

  ghost predicate Sane(f: Filter) {
    forall c :: c in f.chains ==> DistinctIds(f.chains[c]) && forall r :: r in f.chains[c] ==> r.id < f.nextId
  }

  lemma {:induction false} WithoutAbsent(rules: seq<Rule>, id: nat)
    requires forall r :: r in rules ==> r.id != id
    ensures WithoutId(rules, id) == rules
  {
    if rules != [] {
      WithoutAbsent(rules[1..], id);
    }
  }

  lemma {:induction false} WithoutConcat(p: seq<Rule>, q: seq<Rule>, id: nat)
    ensures WithoutId(p + q, id) == WithoutId(p, id) + WithoutId(q, id)
  {
    if p == [] {
      assert p + q == q;
    } else {
      WithoutConcat(p[1..], q, id);
      assert (p + q)[1..] == p[1..] + q;
      Assoc(if p[0].id == id then [] else [p[0]], WithoutId(p[1..], id), WithoutId(q, id));
    }
  }

  lemma DistinctSkip(p: seq<Rule>, r: Rule, q: seq<Rule>)
    requires DistinctIds(p + ([r] + q))
    ensures DistinctIds(p + q)
  {
    var all, less := p + ([r] + q), p + q;
    forall i, j | 0 <= i < j < |less|
      ensures less[i].id != less[j].id
    {
      var i', j' := if i < |p| then i else i + 1, if j < |p| then j else j + 1;
      assert less[i] == all[i'] && less[j] == all[j'];
    }
  }

  /** Deleting what is listed with a marker, by ID, from a list that begins with rules already kept. */
  lemma {:induction false} DeleteMarkedIs(kept: seq<Rule>, listed: seq<Rule>, marker: string, ok: nat -> bool)
    requires DistinctIds(kept + listed) && forall id :: ok(id)
    ensures DeleteMarked(kept + listed, listed, marker, ok) == (kept + Unmarked(listed, marker), true)
    decreases |listed|
  {
    hide MarkerOf;
    var all := kept + listed;
    if listed == [] {
      assert all == kept;
    } else {
      var r, rest := listed[0], listed[1..];
      assert listed == [r] + rest;
      if MarkerOf(r.desc) == marker {
        WithoutListed(kept, r, rest);
        DistinctSkip(kept, r, rest);
        assert Unmarked(listed, marker) == Unmarked(rest, marker);
        assert DeleteMarked(all, listed, marker, ok) == DeleteMarked(kept + rest, rest, marker, ok);
        hide DistinctIds, WithoutId;
        DeleteMarkedIs(kept, rest, marker, ok);
      } else {
        assert kept + [r] + rest == all;
        hide DistinctIds, WithoutId;
        DeleteMarkedIs(kept + [r], rest, marker, ok);
        assert kept + [r] + Unmarked(rest, marker) == kept + Unmarked(listed, marker);
      }
    }
  }

  lemma WithoutListed(p: seq<Rule>, r: Rule, q: seq<Rule>)
    requires DistinctIds(p + ([r] + q))
    ensures WithoutId(p + ([r] + q), r.id) == p + q
  {
    var all := p + ([r] + q);
    assert all[|p|] == r;
    forall x | x in p
      ensures x.id != r.id
    {
      var i :| 0 <= i < |p| && p[i] == x;
      assert all[i] == x;
    }
    forall x | x in q
      ensures x.id != r.id
    {
      var i :| 0 <= i < |q| && q[i] == x;
      assert all[|p| + 1 + i] == x;
    }
    WithoutHead(r, q);
    hide WithoutId, DistinctIds;
    WithoutConcat(p, [r] + q, r.id);
    WithoutAbsent(p, r.id);
    WithoutAbsent(q, r.id);
  }

  lemma WithoutHead(r: Rule, q: seq<Rule>)
    ensures WithoutId([r] + q, r.id) == WithoutId(q, r.id)
  {
    assert ([r] + q)[1..] == q;
  }

  ghost predicate Works(env: Calls) {
    (forall c :: env.listOk(c) && env.addOk(c)) && (forall c, id :: env.deleteOk(c, id))
  }

  lemma {:induction false} UnmarkedTwice(rules: seq<Rule>, marker: string)
    ensures Unmarked(Unmarked(rules, marker), marker) == Unmarked(rules, marker)
    ensures forall r :: r in Unmarked(rules, marker) ==> r in rules
  {
    hide MarkerOf;
    if rules != [] {
      UnmarkedTwice(rules[1..], marker);
      assert rules == [rules[0]] + rules[1..];
      var rest := Unmarked(rules[1..], marker);
      if MarkerOf(rules[0].desc) == marker {
        assert Unmarked(rules, marker) == rest;
      } else {
        assert Unmarked(rules, marker) == [rules[0]] + rest && ([rules[0]] + rest)[1..] == rest;
      }
    }
  }

  lemma {:induction false} UnmarkedDistinct(rules: seq<Rule>, marker: string)
    requires DistinctIds(rules)
    ensures DistinctIds(Unmarked(rules, marker))
  {
    hide MarkerOf;
    if rules != [] {
      UnmarkedDistinct(rules[1..], marker);
      UnmarkedTwice(rules[1..], marker);
      var rest := Unmarked(rules[1..], marker);
      var all := Unmarked(rules, marker);
      assert all == rest || all == [rules[0]] + rest;
      forall i, j | 0 <= i < j < |all|
        ensures all[i].id != all[j].id
      {
        if all == [rules[0]] + rest && i == 0 {
          assert all[j] == rest[j - 1] && rest[j - 1] in rules[1..];
        }
      }
    }
  }

  lemma SaneWith(f: Filter, c: string, rules: seq<Rule>, nextId: nat)
    requires Sane(f) && DistinctIds(rules) && (forall r :: r in rules ==> r.id < nextId) && f.nextId <= nextId
    ensures Sane(Filter(f.chains[c := rules], nextId))
  {
  }

  lemma RemoveMarkerIs(f: Filter, c: string, marker: string, env: Calls)
    requires Works(env) && Sane(f)
    ensures RemoveMarker(f, c, marker, env) == (f.(chains := f.chains[c := Unmarked(Chain(f, c), marker)]), true)
    ensures Sane(RemoveMarker(f, c, marker, env).0)
  {
    var rules := Chain(f, c);
    assert DistinctIds(rules) && forall r :: r in rules ==> r.id < f.nextId;
    hide MarkerOf, Sane, DistinctIds, Unmarked;
    Assoc(rules, [], []);
    Assoc(Unmarked(rules, marker), [], []);
    DeleteMarkedIs([], rules, marker, (id: nat) => env.deleteOk(c, id));
    UnmarkedDistinct(rules, marker);
    UnmarkedTwice(rules, marker);
    SaneWith(f, c, Unmarked(rules, marker), f.nextId);
  }

  /** Removal is exact: with working calls just the rules with that marker go from those chains, the others stay
      in order, and no other chain is touched. */
  lemma {:induction false} RemoveRulesExact(f: Filter, chains: seq<string>, marker: string, env: Calls, c: string)
    requires Works(env) && Sane(f)
    ensures var (f', ok) := RemoveRules(f, chains, marker, env);
            && ok && Sane(f') && f'.nextId == f.nextId
            && Chain(f', c) == if c in chains then Unmarked(Chain(f, c), marker) else Chain(f, c)
    decreases |chains|
  {
    hide MarkerOf, RemoveMarker, Works, Sane, Unmarked;
    if chains != [] {
      RemoveMarkerIs(f, chains[0], marker, env);
      RemoveRulesExact(RemoveMarker(f, chains[0], marker, env).0, chains[1..], marker, env, c);
      assert chains == [chains[0]] + chains[1..];
      UnmarkedTwice(Chain(f, c), marker);
    }
  }

  // ---------- at most one rule per chain and marker ----------

  lemma {:induction false} MarkedSnoc(rules: seq<Rule>, r: Rule, m: string)
    ensures Marked(rules + [r], m) == Marked(rules, m) + if MarkerOf(r.desc) == m then 1 else 0
  {
    hide MarkerOf;
    if rules == [] {
      assert rules + [r] == [r];
    } else {
      MarkedSnoc(rules[1..], r, m);
      assert (rules + [r])[1..] == rules[1..] + [r];
    }
  }

  lemma {:induction false} MarkedWithout(rules: seq<Rule>, id: nat, m: string)
    ensures Marked(WithoutId(rules, id), m) <= Marked(rules, m)
  {
    hide MarkerOf;
    if rules != [] {
      MarkedWithout(rules[1..], id, m);
      var rest := WithoutId(rules[1..], id);
      if rules[0].id == id {
        assert WithoutId(rules, id) == rest;
      } else {
        assert WithoutId(rules, id) == [rules[0]] + rest && ([rules[0]] + rest)[1..] == rest;
      }
    }
  }

  lemma {:induction false} DeleteMarkedCounts(rules: seq<Rule>, listed: seq<Rule>, marker: string, ok: nat -> bool, m: string)
    ensures Marked(DeleteMarked(rules, listed, marker, ok).0, m) <= Marked(rules, m)
    decreases |listed|
  {
    hide MarkerOf, Marked, WithoutId;
    if listed != [] {
      if MarkerOf(listed[0].desc) != marker {
        DeleteMarkedCounts(rules, listed[1..], marker, ok, m);
      } else if ok(listed[0].id) {
        MarkedWithout(rules, listed[0].id, m);
        DeleteMarkedCounts(WithoutId(rules, listed[0].id), listed[1..], marker, ok, m);
      }
    }
  }

  /** A rule as zoneRules makes them. */
  ghost predicate Described(r: Spec) {
    r.desc == Description(r.iface, r.target, r.marker)
  }

  /** An add puts in at most one rule, and only if there is none; success means there is one. */
  lemma AddRuleCounts(f: Filter, r: Spec, env: Calls, c: string, m: string)
    requires Described(r) && ParenFree(r.marker)
    ensures var (f', ok) := AddRule(f, r, env);
            var before, after := Marked(Chain(f, c), m), Marked(Chain(f', c), m);
            && (after == before || (after == 1 && before == 0 && c == r.chain && m == r.marker))
            && (ok && c == r.chain && m == r.marker ==> after > 0)
  {
    MarkerRoundTrip(r.iface, r.target, r.marker);
    hide MarkerOf, Marked, Description, ParenFree;
    MarkedSnoc(Chain(f, r.chain), Rule(f.nextId, r.desc, r.target, r.iface, r.direction), m);
  }

  lemma {:induction false} AddRulesCounts(f: Filter, rs: seq<Spec>, env: Calls, c: string, m: string)
    requires forall i :: 0 <= i < |rs| ==> Described(rs[i]) && ParenFree(rs[i].marker)
    ensures var (f', ok) := AddRules(f, rs, env);
            var before, after := Marked(Chain(f, c), m), Marked(Chain(f', c), m);
            && (after == before || (after == 1 && before == 0))
            && (ok ==> forall i :: 0 <= i < |rs| && rs[i].chain == c && rs[i].marker == m ==> after > 0)
    decreases |rs|
  {
    hide AddRule, Described, ParenFree, Marked;
    if rs != [] {
      AddRuleCounts(f, rs[0], env, c, m);
      AddRulesCounts(AddRule(f, rs[0], env).0, rs[1..], env, c, m);
      assert forall i :: 1 <= i < |rs| ==> rs[i] == rs[1..][i - 1];
    }
  }

  lemma {:induction false} RemoveRulesCounts(f: Filter, chains: seq<string>, marker: string, env: Calls, c: string, m: string)
    ensures Marked(Chain(RemoveRules(f, chains, marker, env).0, c), m) <= Marked(Chain(f, c), m)
    decreases |chains|
  {
    hide Marked, DeleteMarked;
    if chains != [] {
      DeleteMarkedCounts(Chain(f, chains[0]), Chain(f, chains[0]), marker, (id: nat) => env.deleteOk(chains[0], id), m);
      RemoveRulesCounts(RemoveMarker(f, chains[0], marker, env).0, chains[1..], marker, env, c, m);
    }
  }

  datatype Action = Adds(iface: string, marker: string, prefix: string, env: Calls) | Removes(marker: string, env: Calls)

  function Step(f: Filter, a: Action): Filter {
    match a
    case Adds(iface, marker, prefix, env) => AddRules(f, ZoneRules(iface, marker, prefix), env).0
    case Removes(marker, env) => RemoveRules(f, CHAINS, marker, env).0
  }

  function Run(f: Filter, actions: seq<Action>): Filter
    decreases |actions|
  {
    if actions == [] then f else Run(Step(f, actions[0]), actions[1..])
  }

  /** However often rules are added and removed, and whichever calls fail, a chain never gets a second rule
      of a marker. */
  lemma {:induction false} RunKeepsAtMostOne(f: Filter, actions: seq<Action>, c: string, m: string)
    requires Marked(Chain(f, c), m) <= 1
    requires forall i :: 0 <= i < |actions| ==> ParenFree(actions[i].marker)
    ensures Marked(Chain(Run(f, actions), c), m) <= 1
    decreases |actions|
  {
    if actions != [] {
      var a := actions[0];
      if a.Adds? {
        AddRulesCounts(f, ZoneRules(a.iface, a.marker, a.prefix), a.env, c, m);
      } else {
        RemoveRulesCounts(f, CHAINS, a.marker, a.env, c, m);
      }
      hide Marked, ParenFree, Step;
      RunKeepsAtMostOne(Step(f, a), actions[1..], c, m);
    }
  }

  // ---------- removal undoes the add ----------

  lemma {:induction false} NoneMarked(rules: seq<Rule>, marker: string)
    requires Marked(rules, marker) == 0
    ensures Unmarked(rules, marker) == rules
  {
    hide MarkerOf;
    if rules != [] {
      NoneMarked(rules[1..], marker);
    }
  }

  lemma {:induction false} UnmarkedSnoc(rules: seq<Rule>, r: Rule, marker: string)
    requires MarkerOf(r.desc) == marker
    ensures Unmarked(rules + [r], marker) == Unmarked(rules, marker)
  {
    hide MarkerOf;
    if rules == [] {
      assert rules + [r] == [r];
      assert Unmarked([r], marker) == [];
    } else {
      UnmarkedSnoc(rules[1..], r, marker);
      assert (rules + [r])[1..] == rules[1..] + [r];
    }
  }

  /** The rules without the marker's are the same before and after an add. */
  lemma AddRuleUnmarked(f: Filter, r: Spec, env: Calls, c: string)
    requires Described(r) && ParenFree(r.marker) && Sane(f)
    ensures var f' := AddRule(f, r, env).0;
            && Sane(f') && Unmarked(Chain(f', c), r.marker) == Unmarked(Chain(f, c), r.marker)
            && (c != r.chain ==> Chain(f', c) == Chain(f, c))
  {
    MarkerRoundTrip(r.iface, r.target, r.marker);
    var rules := Chain(f, r.chain);
    assert DistinctIds(rules) && forall x :: x in rules ==> x.id < f.nextId;
    hide MarkerOf, Marked, Description, ParenFree, Sane, Unmarked;
    var f' := AddRule(f, r, env).0;
    if f' != f {
      var rule := Rule(f.nextId, r.desc, r.target, r.iface, r.direction);
      UnmarkedSnoc(rules, rule, r.marker);
      DistinctSnoc(rules, rule);
      hide DistinctIds;
      SaneWith(f, r.chain, rules + [rule], f.nextId + 1);
    }
  }

  lemma DistinctSnoc(rules: seq<Rule>, r: Rule)
    requires DistinctIds(rules) && forall x :: x in rules ==> x.id < r.id
    ensures DistinctIds(rules + [r])
  {
    var all := rules + [r];
    forall i, j | 0 <= i < j < |all|
      ensures all[i].id != all[j].id
    {
      assert all[i] == rules[i] && rules[i] in rules;
    }
  }

  lemma {:induction false} AddRulesUnmarked(f: Filter, rs: seq<Spec>, env: Calls, marker: string, c: string)
    requires Sane(f) && forall i :: 0 <= i < |rs| ==> Described(rs[i]) && ParenFree(rs[i].marker) && rs[i].marker == marker
    ensures var f' := AddRules(f, rs, env).0;
            && Sane(f') && Unmarked(Chain(f', c), marker) == Unmarked(Chain(f, c), marker)
            && ((forall i :: 0 <= i < |rs| ==> rs[i].chain != c) ==> Chain(f', c) == Chain(f, c))
    decreases |rs|
  {
    hide AddRule, Described, ParenFree, Sane;
    if rs != [] {
      AddRuleUnmarked(f, rs[0], env, c);
      AddRulesUnmarked(AddRule(f, rs[0], env).0, rs[1..], env, marker, c);
      assert forall i :: 1 <= i < |rs| ==> rs[i] == rs[1..][i - 1];
    }
  }

  /** Adding an interface's rules and removing them by their marker leaves every chain as it was, if the marker
      was not in use before. */
  lemma RemoveUndoesAdd(f: Filter, iface: string, marker: string, prefix: string, adding: Calls, removing: Calls)
    requires Sane(f) && ParenFree(marker) && Works(removing)
    requires forall c :: c in CHAINS ==> Marked(Chain(f, c), marker) == 0
    ensures var added := AddRules(f, ZoneRules(iface, marker, prefix), adding).0;
            var (after, ok) := RemoveRules(added, CHAINS, marker, removing);
            ok && forall c :: Chain(after, c) == Chain(f, c)
  {
    var rs := ZoneRules(iface, marker, prefix);
    ZoneRulesCover(iface, marker, prefix);
    hide AddRules, RemoveRules, Sane, Unmarked, Marked, Described, Works, ZoneRules, ParenFree;
    var added := AddRules(f, rs, adding).0;
    var (after, ok) := RemoveRules(added, CHAINS, marker, removing);
    AddRulesUnmarked(f, rs, adding, marker, "");
    RemoveRulesExact(added, CHAINS, marker, removing, "");
    forall c
      ensures Chain(after, c) == Chain(f, c)
    {
      AddRulesUnmarked(f, rs, adding, marker, c);
      RemoveRulesExact(added, CHAINS, marker, removing, c);
      if c in CHAINS {
        NoneMarked(Chain(f, c), marker);
      }
    }
  }

  lemma ZoneRulesCover(iface: string, marker: string, prefix: string)
    ensures forall r :: r in ZoneRules(iface, marker, prefix) ==> Described(r) && r.marker == marker && r.chain in CHAINS
  {
  }

  /** The API client as it runs. */
  class FilterApi {
    var f: Filter

    constructor (f: Filter)
      ensures this.f == f
    {
      this.f := f;
    }

    method HasMarkerRule(chain: string, marker: string, env: Calls) returns (r: Option<bool>)
      ensures r == if env.listOk(chain) then Some(Marked(Chain(f, chain), marker) > 0) else None
    {
      hide MarkerOf;
      if !env.listOk(chain) {
        return None;
      }
      var rules := Chain(f, chain);
      assert rules[0..] == rules;
      for i := 0 to |rules|
        invariant Marked(rules, marker) == Marked(rules[i..], marker)
      {
        assert rules[i..][0] == rules[i] && rules[i..][1..] == rules[i + 1..];
        if MarkerOf(rules[i].desc) == marker {
          return Some(true);
        }
      }
      r := Some(false);
    }

    method Add(r: Spec, env: Calls) returns (ok: bool)
      modifies this
      ensures (f, ok) == AddRule(old(f), r, env)
    {
      hide Marked;
      var present := HasMarkerRule(r.chain, r.marker, env);
      if present.None? {
        return false;
      }
      if present.value {
        return true;
      }
      if !env.addOk(r.chain) {
        return false;
      }
      f := Filter(f.chains[r.chain := Chain(f, r.chain) + [Rule(f.nextId, r.desc, r.target, r.iface, r.direction)]], f.nextId + 1);
      return true;
    }

    /** AddInterfaceRulesForZone */
    method AddInterfaceRulesForZone(iface: string, marker: string, prefix: string, env: Calls) returns (ok: bool)
      modifies this
      ensures (f, ok) == AddRules(old(f), ZoneRules(iface, marker, prefix), env)
    {
      hide AddRule, Description;
      ok := true;
      var rs := ZoneRules(iface, marker, prefix);
      assert rs[0..] == rs;
      for i := 0 to |rs|
        invariant AddRules(old(f), rs, env) == (AddRules(f, rs[i..], env).0, ok && AddRules(f, rs[i..], env).1)
      {
        assert rs[i..][0] == rs[i] && rs[i..][1..] == rs[i + 1..];
        var added := Add(rs[i], env);
        ok := ok && added;
      }
    }

    method RemoveMarkerRules(chain: string, marker: string, env: Calls) returns (ok: bool)
      modifies this
      ensures (f, ok) == RemoveMarker(old(f), chain, marker, env)
    {
      hide MarkerOf;
      if !env.listOk(chain) {
        return false;
      }
      var listed := Chain(f, chain);
      var rules := listed;
      var deleteOk := (id: nat) => env.deleteOk(chain, id);
      assert listed[0..] == listed;
      ok := true;
      for i := 0 to |listed|
        invariant ok && f == old(f)
        invariant DeleteMarked(listed, listed, marker, deleteOk) == DeleteMarked(rules, listed[i..], marker, deleteOk)
      {
        assert listed[i..][0] == listed[i] && listed[i..][1..] == listed[i + 1..];
        if MarkerOf(listed[i].desc) == marker {
          if !env.deleteOk(chain, listed[i].id) {
            ok := false;
            break;
          }
          rules := WithoutId(rules, listed[i].id);
        }
      }
      f := f.(chains := f.chains[chain := rules]);
    }

    method RemoveInterfaceRules(marker: string, env: Calls) returns (ok: bool)
      modifies this
      ensures (f, ok) == RemoveRules(old(f), CHAINS, marker, env)
    {
      hide RemoveMarker;
      ok := true;
      assert CHAINS[0..] == CHAINS;
      for i := 0 to |CHAINS|
        invariant RemoveRules(old(f), CHAINS, marker, env) == (RemoveRules(f, CHAINS[i..], marker, env).0, ok && RemoveRules(f, CHAINS[i..], marker, env).1)
      {
        assert CHAINS[i..][0] == CHAINS[i] && CHAINS[i..][1..] == CHAINS[i + 1..];
        var removed := RemoveMarkerRules(CHAINS[i], marker, env);
        ok := ok && removed;
      }
    }
  }
}
