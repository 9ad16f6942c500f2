/** WAN-port policies (firewall.go, integration.go, watcher_firewall.go): each marker's port is opened by a
    policy found or made by name, and recorded in the manifest under the marker. */
module WanPorts {
  import opened Text

  // ---------- policy names ----------

  const WG_PREFIX := "wg-s2s:"
  const RELAY := "relay-server"
  const TAILSCALE := "tailscale-wg"

  /** WanPortPolicyName */
  function PolicyName(port: nat, marker: string): string {
    if WG_PREFIX <= marker then "VPN Pack: WG S2S UDP " + Itoa(port) + " (" + marker[|WG_PREFIX|..] + ")"
    else if marker == RELAY then "VPN Pack: Relay Server UDP " + Itoa(port)
    else if marker == TAILSCALE then "VPN Pack: Tailscale WireGuard UDP " + Itoa(port)
    else "VPN Pack: UDP " + Itoa(port) + " (" + marker + ")"
  }

  /** A number and a parenthesised text are told apart again. */
  lemma NumberAndText(m: nat, x: string, n: nat, y: string)
    requires Itoa(m) + " (" + x + ")" == Itoa(n) + " (" + y + ")"
    ensures m == n && x == y
  {
    var a, b := "(" + x + ")", "(" + y + ")";
    assert Itoa(m) + " (" + x + ")" == Itoa(m) + [' '] + a;
    assert Itoa(n) + " (" + y + ")" == Itoa(n) + [' '] + b;
    CutFirst(Itoa(m), a, Itoa(n), b, ' ');
    ItoaInjective(m, n);
    assert x == a[1..|a| - 1] && y == b[1..|b| - 1];
  }

  /** The kind of marker shows in the eleventh letter of the name. */
  lemma KindLetter(port: nat, marker: string)
    ensures var name := PolicyName(port, marker);
            && |name| > 10
            && name[10] == if WG_PREFIX <= marker then 'W' else if marker == RELAY then 'R' else if marker == TAILSCALE then 'T' else 'U'
  {
  }

  lemma DropLead(lead: string, a: string, b: string)
    requires lead + a == lead + b
    ensures a == b
  {
    assert a == (lead + a)[|lead|..] && b == (lead + b)[|lead|..];
  }

  /** No two ports or markers share a policy name. */
  lemma PolicyNameInjective(port: nat, marker: string, port': nat, marker': string)
    requires PolicyName(port, marker) == PolicyName(port', marker')
    ensures port == port' && marker == marker'
  {
    KindLetter(port, marker);
    KindLetter(port', marker');
    var d, d' := Itoa(port), Itoa(port');
    if WG_PREFIX <= marker {
      var x, x' := marker[|WG_PREFIX|..], marker'[|WG_PREFIX|..];
      var lead := "VPN Pack: WG S2S UDP ";
      assert PolicyName(port, marker) == lead + (d + " (" + x + ")");
      assert PolicyName(port', marker') == lead + (d' + " (" + x' + ")");
      DropLead(lead, d + " (" + x + ")", d' + " (" + x' + ")");
      NumberAndText(port, x, port', x');
      assert marker == WG_PREFIX + x && marker' == WG_PREFIX + x';
    } else if marker == RELAY {
      DropLead("VPN Pack: Relay Server UDP ", d, d');
      ItoaInjective(port, port');
    } else if marker == TAILSCALE {
      DropLead("VPN Pack: Tailscale WireGuard UDP ", d, d');
      ItoaInjective(port, port');
    } else {
      var lead := "VPN Pack: UDP ";
      assert PolicyName(port, marker) == lead + (d + " (" + marker + ")");
      assert PolicyName(port', marker') == lead + (d' + " (" + marker' + ")");
      DropLead(lead, d + " (" + marker + ")", d' + " (" + marker' + ")");
      NumberAndText(port, marker, port', marker');
    }
  }

  // ---------- the API and the manifest ----------

  datatype Policy = Policy(id: nat, name: string)

  datatype Entry = Entry(id: nat, name: string, port: nat)

  /** The site's policies in listing order, the names of all policies there ever were (IDs are not reused),
      and the manifest's WAN ports; a manifest setter changes the map even if its save fails. */
  datatype World = World(policies: seq<Policy>, issued: seq<string>, ports: map<string, Entry>)

  /** Which calls of one Open or Close work. */
  datatype Calls = Calls(ready: bool, zonesOk: bool, listOk: bool, createOk: bool, deleteOk: bool, saveOk: bool)

  function FindByName(policies: seq<Policy>, name: string): (r: Option<nat>)
    ensures r.Some? ==> Policy(r.value, name) in policies
    ensures r.None? ==> forall p :: p in policies ==> p.name != name
  {
    if policies == [] then None
    else if policies[0].name == name then Some(policies[0].id)
    else FindByName(policies[1..], name)
  }

  /** findExistingPolicy */
  method FindExistingPolicy(policies: seq<Policy>, name: string) returns (r: Option<nat>)
    ensures r == FindByName(policies, name)
  {
    assert policies[0..] == policies;
    for i := 0 to |policies|
      invariant FindByName(policies, name) == FindByName(policies[i..], name)
    {
      assert policies[i..][0] == policies[i] && policies[i..][1..] == policies[i + 1..];
      if policies[i].name == name {
        return Some(policies[i].id);
      }
    }
    r := None;
  }

  function WithoutPolicy(policies: seq<Policy>, id: nat): seq<Policy> {
    if policies == [] then []
    else (if policies[0].id == id then [] else [policies[0]]) + WithoutPolicy(policies[1..], id)
  }

  predicate HasId(policies: seq<Policy>, id: nat) {
    exists i :: 0 <= i < |policies| && policies[i].id == id
  }

  function CreatePolicy(w: World, name: string): World {
    w.(policies := w.policies + [Policy(|w.issued|, name)], issued := w.issued + [name])
  }

  /** OpenWanPort */
  function Open(w: World, port: nat, marker: string, env: Calls): (World, bool) {
    if !env.ready then (w, false)
    else if marker in w.ports then (w, true)
    else if !env.zonesOk || !env.listOk then (w, false)
    else
      var name := PolicyName(port, marker);
      var found := FindByName(w.policies, name);
      if found.Some? then (w.(ports := w.ports[marker := Entry(found.value, name, port)]), env.saveOk)
      else if !env.createOk then (w, false)
      else (CreatePolicy(w, name).(ports := w.ports[marker := Entry(|w.issued|, name, port)]), env.saveOk)
  }

  /** CloseWanPort; a policy that is already gone counts as deleted. */
  function Close(w: World, marker: string, env: Calls): (World, bool) {
    if !env.ready then (w, false)
    else if marker !in w.ports then (w, true)
    else if !env.deleteOk then (w, false)
    else (w.(policies := WithoutPolicy(w.policies, w.ports[marker].id), ports := w.ports - {marker}), env.saveOk)
  }

  /** swapWanPort: the open is tried whatever became of the close. */
  function Swap(w: World, oldPort: nat, newPort: nat, marker: string, closing: Calls, opening: Calls): World {
    var w1 := if oldPort > 0 then Close(w, marker, closing).0 else w;
    if newPort > 0 then Open(w1, newPort, marker, opening).0 else w1
  }

  /** The loop of reconcileWanPortPolicies over the snapshot's markers, in any order. */
  function Reopen(w: World, snapshot: map<string, Entry>, listed: seq<Policy>, order: seq<string>, env: string -> Calls): World
    decreases |order|
  {
    if order == [] then w
    else
      var m := order[0];
      var w1 := if m !in snapshot || HasId(listed, snapshot[m].id) then w
                else Open(w.(ports := w.ports - {m}), snapshot[m].port, m, env(m)).0;
      Reopen(w1, snapshot, listed, order[1..], env)
  }

  function Reconcile(w: World, listOk: bool, order: seq<string>, env: string -> Calls): World {
    if w.ports == map[] || !listOk then w else Reopen(w, w.ports, w.policies, order, env)
  }

  // ---------- isolation ----------

  /** Policies and entries carry the names their IDs were issued for, and each entry's is its marker's. */
  ghost predicate Isolated(w: World) {
    && (forall p :: p in w.policies ==> p.id < |w.issued| && w.issued[p.id] == p.name)
    && (forall m :: m in w.ports ==> EntryOk(w, m))
  }

  ghost predicate EntryOk(w: World, m: string)
    requires m in w.ports
  {
    var e := w.ports[m];
    e.id < |w.issued| && w.issued[e.id] == e.name && e.name == PolicyName(e.port, m)
  }

  /** No two markers hold the same policy ID. */
  lemma DistinctIds(w: World, m: string, m': string)
    requires Isolated(w) && m in w.ports && m' in w.ports && w.ports[m].id == w.ports[m'].id
    ensures m == m'
  {
    assert EntryOk(w, m) && EntryOk(w, m');
    PolicyNameInjective(w.ports[m].port, m, w.ports[m'].port, m');
  }

  lemma {:induction false} WithoutMembers(policies: seq<Policy>, id: nat, p: Policy)
    ensures p in WithoutPolicy(policies, id) <==> p in policies && p.id != id
  {
    if policies != [] {
      WithoutMembers(policies[1..], id, p);
      assert policies == [policies[0]] + policies[1..];
    }
  }

  /** Every other marker keeps its entry, and its policy if that was there. */
  ghost predicate OthersKept(w: World, w': World, marker: string) {
    forall m :: m in w.ports && m != marker ==>
      m in w'.ports && w'.ports[m] == w.ports[m] && (forall p :: p in w.policies && p.id == w.ports[m].id ==> p in w'.policies)
  }

  lemma OpenIsolated(w: World, port: nat, marker: string, env: Calls)
    requires Isolated(w)
    ensures var w' := Open(w, port, marker, env).0;
            && Isolated(w') && OthersKept(w, w', marker)
            && (forall p :: p in w.policies ==> p in w'.policies)
            && (Open(w, port, marker, env).1 ==> marker in w'.ports)
  {
    hide PolicyName;
    var w' := Open(w, port, marker, env).0;
    forall m | m in w'.ports
      ensures EntryOk(w', m)
    {
      if m in w.ports {
        assert EntryOk(w, m);
      }
    }
  }

  lemma CloseIsolated(w: World, marker: string, env: Calls)
    requires Isolated(w)
    ensures var w' := Close(w, marker, env).0; Isolated(w') && OthersKept(w, w', marker)
  {
    hide PolicyName;
    var w' := Close(w, marker, env).0;
    if w' != w {
      forall p
        ensures p in w'.policies <==> p in w.policies && p.id != w.ports[marker].id
      {
        WithoutMembers(w.policies, w.ports[marker].id, p);
      }
      forall m | m in w'.ports
        ensures EntryOk(w', m)
      {
        assert EntryOk(w, m);
      }
      forall m | m in w.ports && m != marker
        ensures w.ports[m].id != w.ports[marker].id
      {
        if w.ports[m].id == w.ports[marker].id {
          DistinctIds(w, m, marker);
        }
      }
    }
  }

  /** Swapping one marker's port never touches another's. */
  lemma SwapIsolated(w: World, oldPort: nat, newPort: nat, marker: string, closing: Calls, opening: Calls)
    requires Isolated(w)
    ensures var w' := Swap(w, oldPort, newPort, marker, closing, opening); Isolated(w') && OthersKept(w, w', marker)
  {
    hide Open, Close, PolicyName;
    CloseIsolated(w, marker, closing);
    OpenIsolated(if oldPort > 0 then Close(w, marker, closing).0 else w, newPort, marker, opening);
  }

  /** A reconciliation deletes no policy. */
  lemma {:induction false} ReopenIsolated(w: World, snapshot: map<string, Entry>, listed: seq<Policy>, order: seq<string>, env: string -> Calls)
    requires Isolated(w)
    ensures var w' := Reopen(w, snapshot, listed, order, env);
            Isolated(w') && forall p :: p in w.policies ==> p in w'.policies
    decreases |order|
  {
    if order != [] {
      hide Open, PolicyName, HasId;
      var m := order[0];
      if m !in snapshot || HasId(listed, snapshot[m].id) {
        ReopenIsolated(w, snapshot, listed, order[1..], env);
      } else {
        var w0 := w.(ports := w.ports - {m});
        assert Isolated(w0) by {
          forall k | k in w0.ports
            ensures EntryOk(w0, k)
          {
            assert EntryOk(w, k);
          }
        }
        OpenIsolated(w0, snapshot[m].port, m, env(m));
        ReopenIsolated(Open(w0, snapshot[m].port, m, env(m)).0, snapshot, listed, order[1..], env);
      }
    }
  }

  // ---------- every run ----------

  datatype Action =
    | Opens(port: nat, marker: string, env: Calls)
    | Closes(marker: string, env: Calls)
    | Swaps(oldPort: nat, newPort: nat, marker: string, closing: Calls, opening: Calls)
    | Reconciles(listOk: bool, order: seq<string>, envs: string -> Calls)
    | SomebodyCreates(name: string)
    | SomebodyDeletes(id: nat)

  function Step(w: World, a: Action): World {
    match a
    case Opens(port, marker, env) => Open(w, port, marker, env).0
    case Closes(marker, env) => Close(w, marker, env).0
    case Swaps(oldPort, newPort, marker, closing, opening) => Swap(w, oldPort, newPort, marker, closing, opening)
    case Reconciles(listOk, order, envs) => Reconcile(w, listOk, order, envs)
    case SomebodyCreates(name) => CreatePolicy(w, name)
    case SomebodyDeletes(id) => w.(policies := WithoutPolicy(w.policies, id))
  }

  function Run(w: World, actions: seq<Action>): World
    decreases |actions|
  {
    if actions == [] then w else Run(Step(w, actions[0]), actions[1..])
  }

  lemma StepIsolated(w: World, a: Action)
    requires Isolated(w)
    ensures Isolated(Step(w, a))
  {
    hide PolicyName, Open, Close, Swap, Reopen;
    match a
    case Opens(port, marker, env) => OpenIsolated(w, port, marker, env);
    case Closes(marker, env) => CloseIsolated(w, marker, env);
    case Swaps(oldPort, newPort, marker, closing, opening) => SwapIsolated(w, oldPort, newPort, marker, closing, opening);
    case Reconciles(listOk, order, envs) => ReopenIsolated(w, w.ports, w.policies, order, envs);
    case SomebodyCreates(name) =>
      assert forall m :: m in w.ports ==> EntryOk(w, m);
    case SomebodyDeletes(id) =>
      assert forall m :: m in w.ports ==> EntryOk(w, m);
      forall p
        ensures p in WithoutPolicy(w.policies, id) ==> p in w.policies
      {
        WithoutMembers(w.policies, id, p);
      }
  }

  /** Over every run of opens, closes, swaps and reconciliations, with policies coming and going in the
      site meanwhile, no two markers ever hold the same policy. */
  lemma {:induction false} RunIsolated(w: World, actions: seq<Action>)
    requires Isolated(w)
    ensures var w' := Run(w, actions);
            && Isolated(w')
            && forall m, m' :: m in w'.ports && m' in w'.ports && m != m' ==> w'.ports[m].id != w'.ports[m'].id
    decreases |actions|
  {
    hide PolicyName, Step, Isolated;
    if actions == [] {
      forall m, m' | m in w.ports && m' in w.ports && m != m'
        ensures w.ports[m].id != w.ports[m'].id
      {
        if w.ports[m].id == w.ports[m'].id {
          DistinctIds(w, m, m');
        }
      }
    } else {
      StepIsolated(w, actions[0]);
      RunIsolated(Step(w, actions[0]), actions[1..]);
    }
  }

  // ---------- a reconciliation that works ----------

  predicate AllOk(env: Calls) {
    env.ready && env.zonesOk && env.listOk && env.createOk
  }

  /** The marker's port is open: its entry stands for a policy of the site. */
  ghost predicate IsOpen(w: World, m: string, port: nat) {
    m in w.ports && w.ports[m].port == port && HasId(w.policies, w.ports[m].id)
  }

  lemma HasIdMember(policies: seq<Policy>, p: Policy)
    requires p in policies
    ensures HasId(policies, p.id)
  {
    var i :| 0 <= i < |policies| && policies[i] == p;
  }

  lemma HasIdMono(policies: seq<Policy>, more: seq<Policy>, id: nat)
    requires HasId(policies, id) && forall p :: p in policies ==> p in more
    ensures HasId(more, id)
  {
    var i :| 0 <= i < |policies| && policies[i].id == id;
    HasIdMember(more, policies[i]);
  }

  /** An Open whose calls work, for a marker without an entry, leaves the port open. */
  lemma OpenOpens(w: World, port: nat, marker: string, env: Calls)
    requires AllOk(env) && marker !in w.ports
    ensures var w' := Open(w, port, marker, env).0;
            && IsOpen(w', marker, port) && w'.ports == w.ports[marker := w'.ports[marker]]
            && forall p :: p in w.policies ==> p in w'.policies
  {
    hide PolicyName, HasId;
    var w' := Open(w, port, marker, env).0;
    HasIdMember(w'.policies, Policy(w'.ports[marker].id, PolicyName(port, marker)));
  }

  lemma {:induction false} ReopenHeals(w: World, snapshot: map<string, Entry>, listed: seq<Policy>, order: seq<string>, env: string -> Calls)
    requires forall i, j :: 0 <= i < j < |order| ==> order[i] != order[j]
    requires forall m :: m in order ==> m in snapshot && m in w.ports && w.ports[m] == snapshot[m] && AllOk(env(m))
    requires forall p :: p in listed ==> p in w.policies
    ensures var w' := Reopen(w, snapshot, listed, order, env);
            && (forall p :: p in w.policies ==> p in w'.policies)
            && (forall m :: m in order ==> IsOpen(w', m, snapshot[m].port))
            && (forall m :: m !in order ==> (m in w'.ports <==> m in w.ports) && (m in w.ports ==> w'.ports[m] == w.ports[m]))
    decreases |order|
  {
    if order != [] {
      hide PolicyName, HasId, Open, AllOk;
      var m := order[0];
      var rest := order[1..];
      assert order == [m] + rest && m !in rest;
      var w1 := if HasId(listed, snapshot[m].id) then w else Open(w.(ports := w.ports - {m}), snapshot[m].port, m, env(m)).0;
      if HasId(listed, snapshot[m].id) {
        HasIdMono(listed, w.policies, snapshot[m].id);
      } else {
        OpenOpens(w.(ports := w.ports - {m}), snapshot[m].port, m, env(m));
      }
      assert IsOpen(w1, m, snapshot[m].port);
      ReopenHeals(w1, snapshot, listed, rest, env);
      var w' := Reopen(w, snapshot, listed, order, env);
      HasIdMono(w1.policies, w'.policies, w1.ports[m].id);
    }
  }

  /** A reconciliation whose calls work leaves every recorded port open, whatever policies had vanished, and
      records the same markers and ports as before. */
  lemma ReconcileHeals(w: World, order: seq<string>, env: string -> Calls)
    requires forall i, j :: 0 <= i < j < |order| ==> order[i] != order[j]
    requires forall m :: m in order <==> m in w.ports
    requires forall m :: m in order ==> AllOk(env(m))
    ensures var w' := Reconcile(w, true, order, env);
            w'.ports.Keys == w.ports.Keys && forall m :: m in w.ports ==> IsOpen(w', m, w.ports[m].port)
  {
    hide PolicyName, HasId, Open;
    if w.ports != map[] {
      ReopenHeals(w, w.ports, w.policies, order, env);
    }
    var w' := Reconcile(w, true, order, env);
    assert forall m :: m in w'.ports <==> m in w.ports;
  }

  /** The manager's WAN-port calls as they run. */
  class WanPortManager {
    var policies: seq<Policy>
    ghost var issued: seq<string>
    var nextId: nat
    var ports: map<string, Entry>

    ghost function Now(): World
      reads this
    {
      World(policies, issued, ports)
    }

    ghost predicate Valid()
      reads this
    {
      nextId == |issued|
    }

    constructor ()
      ensures Valid() && Now() == World([], [], map[])
    {
      policies, issued, nextId, ports := [], [], 0, map[];
    }

    method OpenWanPort(port: nat, marker: string, env: Calls) returns (ok: bool)
      requires Valid()
      modifies this
      ensures Valid() && (Now(), ok) == Open(old(Now()), port, marker, env)
    {
      hide PolicyName;
      if !env.ready {
        return false;
      }
      if marker in ports {
        return true;
      }
      if !env.zonesOk || !env.listOk {
        return false;
      }
      var name := PolicyName(port, marker);
      var found := FindExistingPolicy(policies, name);
      var id: nat;
      if found.Some? {
        id := found.value;
      } else {
        if !env.createOk {
          return false;
        }
        id := nextId;
        policies := policies + [Policy(id, name)];
        nextId, issued := nextId + 1, issued + [name];
      }
      ports := ports[marker := Entry(id, name, port)];
      return env.saveOk;
    }

    method CloseWanPort(marker: string, env: Calls) returns (ok: bool)
      requires Valid()
      modifies this
      ensures Valid() && (Now(), ok) == Close(old(Now()), marker, env)
    {
      if !env.ready {
        return false;
      }
      if marker !in ports {
        return true;
      }
      if !env.deleteOk {
        return false;
      }
      policies := WithoutPolicy(policies, ports[marker].id);
      ports := ports - {marker};
      return env.saveOk;
    }

    method SwapWanPort(oldPort: nat, newPort: nat, marker: string, closing: Calls, opening: Calls)
      requires Valid()
      modifies this
      ensures Valid() && Now() == Swap(old(Now()), oldPort, newPort, marker, closing, opening)
    {
      hide Open, Close;
      if oldPort > 0 {
        var _ := CloseWanPort(marker, closing);
      }
      if newPort > 0 {
        var _ := OpenWanPort(newPort, marker, opening);
      }
    }

    /** reconcileWanPortPolicies */
    method ReconcileWanPortPolicies(listOk: bool, order: seq<string>, env: string -> Calls)
      requires Valid()
      modifies this
      ensures Valid() && Now() == Reconcile(old(Now()), listOk, order, env)
    {
      hide Open, HasId;
      var snapshot := ports;
      if snapshot == map[] || !listOk {
        return;
      }
      var listed := policies;
      assert order[0..] == order;
      for i := 0 to |order|
        invariant Valid()
        invariant Reopen(old(Now()), snapshot, listed, order, env) == Reopen(Now(), snapshot, listed, order[i..], env)
      {
        var m := order[i];
        assert order[i..][0] == m && order[i..][1..] == order[i + 1..];
        if m in snapshot && !HasId(listed, snapshot[m].id) {
          ports := ports - {m};
          var _ := OpenWanPort(snapshot[m].port, m, env(m));
        }
      }
    }
  }
}
