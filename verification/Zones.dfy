/** Firewall zones shared by site-to-site tunnels (service/firewall.go): set up by name or by ID, torn down
    with their last tunnel. */
module Zones {
  import opened Text

  datatype Zone = Zone(id: string, name: string)

  /** The manifest's record for a tunnel; an empty zone ID means none. */
  datatype Record = Record(zone: string, name: string, policies: seq<string>, prefix: string)

  /** Deletions asked of the API, in order. */
  datatype Request = DeletePolicy(id: string) | DeleteZone(id: string)

  /** The site's zones and policies, the manifest's tunnels, and the deletions asked for so far. A manifest
      setter changes the map even if its save fails. */
  datatype World = World(zones: seq<Zone>, policies: set<string>, tunnels: map<string, Record>, requests: seq<Request>)

  /** What happens outside during one call: which calls work, the ID a new zone gets, the policies
      ensured for it, the chain prefix discovered. */
  datatype Calls = Calls(
    ready: bool, ensureOk: bool, newZone: string, policyIds: seq<string>, policiesOk: bool, prefix: string,
    saveOk: bool, deletePolicyOk: string -> bool, deleteZoneOk: bool)

  const DEFAULT_PREFIX := "VPN"

  function FindZone(zones: seq<Zone>, name: string): Option<string> {
    if zones == [] then None else if zones[0].name == name then Some(zones[0].id) else FindZone(zones[1..], name)
  }

  predicate HasZone(zones: seq<Zone>, id: string) {
    exists i :: 0 <= i < |zones| && zones[i].id == id
  }

  function WithoutZone(zones: seq<Zone>, id: string): seq<Zone> {
    if zones == [] then [] else (if zones[0].id == id then [] else [zones[0]]) + WithoutZone(zones[1..], id)
  }

  function Deletions(ids: seq<string>): seq<Request> {
    seq(|ids|, i requires 0 <= i < |ids| => DeletePolicy(ids[i]))
  }

  /** Delete the policies, then the zone, whatever fails. */
  function DeleteAll(w: World, zone: string, ids: seq<string>, env: Calls): World {
    w.(policies := (set p | p in w.policies && !(p in ids && env.deletePolicyOk(p))),
       zones := if env.deleteZoneOk then WithoutZone(w.zones, zone) else w.zones,
       requests := w.requests + Deletions(ids) + [DeleteZone(zone)])
  }

  /** A tunnel of the list whose recorded zone is the given one. */
  function TunnelOf(tunnels: map<string, Record>, order: seq<string>, zone: string): Option<string> {
    if order == [] then None
    else if order[0] in tunnels && tunnels[order[0]].zone == zone then Some(order[0])
    else TunnelOf(tunnels, order[1..], zone)
  }

  // ---------- setup and teardown ----------

  /** SetupWgS2sZone with a zone ID: the tunnel shares a zone another tunnel has. */
  function SetupById(w: World, tunnel: string, zone: string, order: seq<string>, env: Calls): (World, bool) {
    var found := TunnelOf(w.tunnels, order, zone);
    if !env.ready || found.None? || found.value !in w.tunnels then (w, false)
    else (w.(tunnels := w.tunnels[tunnel := w.tunnels[found.value]]), env.saveOk)
  }

  function DisplayName(name: string): string {
    "VPN Pack: " + (if name == "" then "WireGuard S2S" else name)
  }

  /** EnsureZone: the zone of that name, found or made. */
  function Ensured(w: World, name: string, env: Calls): (World, string) {
    var found := FindZone(w.zones, DisplayName(name));
    if found.Some? then (w, found.value) else (w.(zones := w.zones + [Zone(env.newZone, DisplayName(name))]), env.newZone)
  }

  /** SetupWgS2sZone with a zone name. A failure after the zone is there deletes it again. */
  function SetupByName(w: World, tunnel: string, name: string, env: Calls): (World, bool) {
    if !env.ready || !env.ensureOk then (w, false)
    else
      var (w1, zone) := Ensured(w, name, env);
      var w2 := w1.(policies := w1.policies + (set p | p in env.policyIds));
      if !env.policiesOk then (DeleteAll(w2, zone, [], env), false)
      else
        var record := Record(zone, DisplayName(name), env.policyIds, if env.prefix == "" then DEFAULT_PREFIX else env.prefix);
        var w3 := w2.(tunnels := w2.tunnels[tunnel := record]);
        if env.saveOk then (w3, true) else (DeleteAll(w3, zone, env.policyIds, env), false)
  }

  /** TeardownWgS2sZone; the order is that of the snapshot taken after the tunnel is out of the manifest. */
  function Teardown(w: World, tunnel: string, order: seq<string>, env: Calls): World {
    if tunnel !in w.tunnels then w
    else
      var zm := w.tunnels[tunnel];
      var w1 := w.(tunnels := w.tunnels - {tunnel});
      if zm.zone == "" || TunnelOf(w1.tunnels, order, zm.zone).Some? || !env.ready then w1
      else DeleteAll(w1, zm.zone, zm.policies, env)
  }

  // ---------- every recorded zone exists ----------

  ghost predicate Recorded(w: World) {
    forall t :: t in w.tunnels && w.tunnels[t].zone != "" ==> HasZone(w.zones, w.tunnels[t].zone)
  }

  /** Some tunnel has the zone. */
  ghost predicate InUse(tunnels: map<string, Record>, zone: string) {
    exists t :: t in tunnels && tunnels[t].zone == zone
  }

  /** The list names every tunnel. */
  ghost predicate Lists(order: seq<string>, tunnels: map<string, Record>) {
    forall t :: t in tunnels ==> t in order
  }

  lemma {:induction false} TunnelOfIs(tunnels: map<string, Record>, order: seq<string>, zone: string)
    ensures var r := TunnelOf(tunnels, order, zone);
            && (r.Some? ==> r.value in tunnels && tunnels[r.value].zone == zone)
            && (r.None? ==> forall t :: t in order && t in tunnels ==> tunnels[t].zone != zone)
  {
    if order != [] {
      TunnelOfIs(tunnels, order[1..], zone);
      assert order == [order[0]] + order[1..];
    }
  }

  /** The scan for another tunnel of the zone finds one exactly if there is one. */
  lemma TunnelOfFinds(tunnels: map<string, Record>, order: seq<string>, zone: string)
    requires Lists(order, tunnels)
    ensures TunnelOf(tunnels, order, zone).Some? <==> InUse(tunnels, zone)
  {
    TunnelOfIs(tunnels, order, zone);
  }

  lemma {:induction false} WithoutZoneHas(zones: seq<Zone>, gone: string, id: string)
    ensures HasZone(WithoutZone(zones, gone), id) <==> HasZone(zones, id) && id != gone
  {
    if zones != [] {
      var rest := WithoutZone(zones[1..], gone);
      WithoutZoneHas(zones[1..], gone, id);
      HasZoneCons(zones[0], zones[1..], id);
      HasZoneCons(zones[0], rest, id);
      assert zones == [zones[0]] + zones[1..];
      assert [] + rest == rest;
    }
  }

  lemma HasZoneCons(z: Zone, zones: seq<Zone>, id: string)
    ensures HasZone([z] + zones, id) <==> z.id == id || HasZone(zones, id)
  {
    var all := [z] + zones;
    assert all[0] == z;
    if HasZone(zones, id) {
      var i :| 0 <= i < |zones| && zones[i].id == id;
      assert all[i + 1].id == id;
    }
    if HasZone(all, id) && z.id != id {
      var i :| 0 <= i < |all| && all[i].id == id;
      assert zones[i - 1].id == id;
    }
  }

  lemma HasZoneSnoc(zones: seq<Zone>, z: Zone, id: string)
    ensures HasZone(zones + [z], id) <==> HasZone(zones, id) || z.id == id
  {
    var all := zones + [z];
    assert all[|zones|] == z;
    if HasZone(zones, id) {
      var i :| 0 <= i < |zones| && zones[i].id == id;
      assert all[i].id == id;
    }
  }

  lemma {:induction false} FindZoneIs(zones: seq<Zone>, name: string)
    ensures FindZone(zones, name).Some? ==> HasZone(zones, FindZone(zones, name).value)
  {
    if zones != [] {
      assert zones == [zones[0]] + zones[1..];
      FindZoneIs(zones[1..], name);
      var r := FindZone(zones, name);
      if r.Some? {
        HasZoneCons(zones[0], zones[1..], r.value);
      }
    }
  }

  /** EnsureZone returns a zone that exists, and loses none. */
  lemma EnsuredExists(w: World, name: string, env: Calls)
    ensures var (w1, zone) := Ensured(w, name, env);
            && HasZone(w1.zones, zone) && w1 == w.(zones := w1.zones)
            && forall id :: HasZone(w.zones, id) ==> HasZone(w1.zones, id)
  {
    FindZoneIs(w.zones, DisplayName(name));
    var z := Zone(env.newZone, DisplayName(name));
    forall id
      ensures HasZone(w.zones + [z], id) <==> HasZone(w.zones, id) || z.id == id
    {
      HasZoneSnoc(w.zones, z, id);
    }
  }

  lemma SetupByIdKeeps(w: World, tunnel: string, zone: string, order: seq<string>, env: Calls)
    requires Recorded(w)
    ensures var (w', ok) := SetupById(w, tunnel, zone, order, env);
            && Recorded(w') && w'.requests == w.requests && w'.zones == w.zones
            && (ok ==> tunnel in w'.tunnels && w'.tunnels[tunnel].zone == zone)
  {
    TunnelOfIs(w.tunnels, order, zone);
  }

  /** Setting up by name: it succeeds with the tunnel recorded in an existing zone of that name and nothing
      deleted; or it changes nothing; or it asks for the zone to be deleted, and then every recorded
      zone still exists if and only if the deletion failed, or the policies were what failed and no
      tunnel had the zone. */
  lemma SetupByNameExact(w: World, tunnel: string, name: string, env: Calls)
    requires Recorded(w) && Ensured(w, name, env).1 != ""
    ensures var (w', ok) := SetupByName(w, tunnel, name, env);
            var zone := Ensured(w, name, env).1;
            && (ok ==> Recorded(w') && w'.requests == w.requests && tunnel in w'.tunnels && w'.tunnels[tunnel].zone == zone)
            && (!ok && !(env.ready && env.ensureOk) ==> w' == w)
            && (!ok && env.ready && env.ensureOk ==>
                  (Recorded(w') <==> !env.deleteZoneOk || (!env.policiesOk && !InUse(w.tunnels, zone))))
  {
    var (w', ok) := SetupByName(w, tunnel, name, env);
    if env.ready && env.ensureOk {
      var (w1, zone) := Ensured(w, name, env);
      EnsuredExists(w, name, env);
      forall id
        ensures HasZone(WithoutZone(w1.zones, zone), id) <==> HasZone(w1.zones, id) && id != zone
      {
        WithoutZoneHas(w1.zones, zone, id);
      }
      hide Ensured, WithoutZone, HasZone;
      if !ok && env.deleteZoneOk && !(!env.policiesOk && !InUse(w.tunnels, zone)) {
        if env.policiesOk {
          assert w'.tunnels[tunnel].zone == zone;
        } else {
          var t :| t in w.tunnels && w.tunnels[t].zone == zone;
          assert w'.tunnels[t].zone == zone;
        }
      }
    }
  }

  /** For example: a second tunnel of the same zone name whose policies cannot be set up takes the first
      tunnel's zone away. */
  lemma RollbackTakesSharedZone(env: Calls)
    requires env.ready && env.ensureOk && !env.policiesOk && env.deleteZoneOk
    ensures var w := World([Zone("z1", DisplayName("A"))], {}, map["t1" := Record("z1", DisplayName("A"), [], "VPN")], []);
            Recorded(w) && !Recorded(SetupByName(w, "t2", "A", env).0)
  {
    hide DisplayName;
    var z := Zone("z1", DisplayName("A"));
    var w := World([z], {}, map["t1" := Record("z1", DisplayName("A"), [], "VPN")], []);
    assert w.zones[0].id == "z1";
    assert w.tunnels["t1"].zone == "z1";
    SetupByNameExact(w, "t2", "A", env);
  }

  /** A teardown asks for a zone's deletion only when the last tunnel of the zone goes, after asking for the
      deletion of that tunnel's policies; in every other case it asks for nothing. */
  lemma TeardownExact(w: World, tunnel: string, order: seq<string>, env: Calls)
    requires Recorded(w) && Lists(order, w.tunnels - {tunnel})
    ensures var w' := Teardown(w, tunnel, order, env);
            var last := tunnel in w.tunnels && w.tunnels[tunnel].zone != "" && !InUse(w.tunnels - {tunnel}, w.tunnels[tunnel].zone);
            && Recorded(w') && w'.tunnels == w.tunnels - {tunnel}
            && w'.requests == w.requests + (if last && env.ready
                                            then Deletions(w.tunnels[tunnel].policies) + [DeleteZone(w.tunnels[tunnel].zone)] else [])
            && (forall id :: HasZone(w.zones, id) && !HasZone(w'.zones, id) ==> last && id == w.tunnels[tunnel].zone)
  {
    var w' := Teardown(w, tunnel, order, env);
    if tunnel in w.tunnels {
      var zone := w.tunnels[tunnel].zone;
      TunnelOfFinds(w.tunnels - {tunnel}, order, zone);
      forall id
        ensures HasZone(WithoutZone(w.zones, zone), id) <==> HasZone(w.zones, id) && id != zone
      {
        WithoutZoneHas(w.zones, zone, id);
      }
      hide WithoutZone, HasZone, TunnelOf;
    } else {
      assert w.tunnels - {tunnel} == w.tunnels;
    }
  }

  // ---------- every run ----------

  datatype Action =
    | ById(tunnel: string, zone: string, order: seq<string>, env: Calls)
    | ByName(tunnel: string, name: string, env: Calls)
    | TearsDown(tunnel: string, order: seq<string>, env: Calls)

  function Step(w: World, a: Action): World {
    match a
    case ById(tunnel, zone, order, env) => SetupById(w, tunnel, zone, order, env).0
    case ByName(tunnel, name, env) => SetupByName(w, tunnel, name, env).0
    case TearsDown(tunnel, order, env) => Teardown(w, tunnel, order, env)
  }

  /** The snapshot of a teardown is complete; a setup by name succeeds, or fails where it does no harm. */
  ghost predicate Fair(w: World, a: Action) {
    match a
    case ById(_, _, _, _) => true
    case ByName(tunnel, name, env) =>
      && Ensured(w, name, env).1 != ""
      && (SetupByName(w, tunnel, name, env).1 || !env.ready || !env.ensureOk || !env.deleteZoneOk
          || (!env.policiesOk && !InUse(w.tunnels, Ensured(w, name, env).1)))
    case TearsDown(tunnel, order, _) => Lists(order, w.tunnels - {tunnel})
  }

  ghost predicate AllFair(w: World, actions: seq<Action>)
    decreases |actions|
  {
    actions == [] || (Fair(w, actions[0]) && AllFair(Step(w, actions[0]), actions[1..]))
  }

  function Run(w: World, actions: seq<Action>): World
    decreases |actions|
  {
    if actions == [] then w else Run(Step(w, actions[0]), actions[1..])
  }

  lemma StepKeeps(w: World, a: Action)
    requires Recorded(w) && Fair(w, a)
    ensures Recorded(Step(w, a))
  {
    match a
    case ById(tunnel, zone, order, env) => SetupByIdKeeps(w, tunnel, zone, order, env);
    case ByName(tunnel, name, env) => SetupByNameExact(w, tunnel, name, env);
    case TearsDown(tunnel, order, env) => TeardownExact(w, tunnel, order, env);
  }

  /** Over every such run of setups and teardowns, each tunnel's recorded zone exists. */
  lemma {:induction false} RunKeepsZones(w: World, actions: seq<Action>)
    requires Recorded(w) && AllFair(w, actions)
    ensures Recorded(Run(w, actions))
    decreases |actions|
  {
    hide Recorded, Fair, Step;
    if actions != [] {
      StepKeeps(w, actions[0]);
      RunKeepsZones(Step(w, actions[0]), actions[1..]);
    }
  }

  // ---------- where deletions come from ----------

  /** The deletions one step asks for. */
  function Asked(w: World, a: Action): seq<Request> {
    match a
    case ById(_, _, _, _) => []
    case ByName(tunnel, name, env) =>
      if SetupByName(w, tunnel, name, env).1 || !env.ready || !env.ensureOk then []
      else (if env.policiesOk then Deletions(env.policyIds) else []) + [DeleteZone(Ensured(w, name, env).1)]
    case TearsDown(tunnel, order, env) =>
      if tunnel in w.tunnels && w.tunnels[tunnel].zone != "" && TunnelOf(w.tunnels - {tunnel}, order, w.tunnels[tunnel].zone).None? && env.ready
      then Deletions(w.tunnels[tunnel].policies) + [DeleteZone(w.tunnels[tunnel].zone)]
      else []
  }

  /** A teardown scans a complete snapshot. */
  ghost predicate Complete(w: World, a: Action) {
    a.TearsDown? ==> Lists(a.order, w.tunnels - {a.tunnel})
  }

  ghost predicate AllComplete(w: World, actions: seq<Action>)
    decreases |actions|
  {
    actions == [] || (Complete(w, actions[0]) && AllComplete(Step(w, actions[0]), actions[1..]))
  }

  lemma StepAsks(w: World, a: Action)
    ensures Step(w, a).requests == w.requests + Asked(w, a)
  {
    assert w.requests + [] == w.requests;
    hide Deletions, TunnelOf;
    match a
    case ById(_, _, _, _) =>
    case ByName(tunnel, name, env) =>
      var zone := Ensured(w, name, env).1;
      Assoc(w.requests, Deletions(env.policyIds), [DeleteZone(zone)]);
      Assoc(w.requests, [], [DeleteZone(zone)]);
      assert Deletions([]) == [];
    case TearsDown(tunnel, order, env) =>
      if tunnel in w.tunnels {
        Assoc(w.requests, Deletions(w.tunnels[tunnel].policies), [DeleteZone(w.tunnels[tunnel].zone)]);
      }
  }

  /** Request i of the history is the end of a teardown, in world w, of the last tunnel of its zone, right
      after the requests for that tunnel's policies. */
  ghost predicate LastTeardown(w: World, a: Action, history: seq<Request>, i: nat) {
    && i < |history| && a.TearsDown? && a.tunnel in w.tunnels
    && var zm := w.tunnels[a.tunnel];
       history[..i] == w.requests + Deletions(zm.policies) && history[i] == DeleteZone(zm.zone) && !InUse(w.tunnels - {a.tunnel}, zm.zone)
  }

  /** Request i is the end of a setup by name that failed in world w, for the zone it had found or made. */
  ghost predicate RolledBack(w: World, a: Action, history: seq<Request>, i: nat) {
    && i < |history| && a.ByName? && !SetupByName(w, a.tunnel, a.name, a.env).1
    && history[i] == DeleteZone(Ensured(w, a.name, a.env).1)
    && history[..i] == w.requests + (if a.env.policiesOk then Deletions(a.env.policyIds) else [])
  }

  ghost predicate Caused(w: World, a: Action, history: seq<Request>, i: nat) {
    LastTeardown(w, a, history, i) || RolledBack(w, a, history, i)
  }

  /** A zone deletion asked for in a step. */
  lemma AskedCaused(w: World, a: Action, i: nat)
    requires Complete(w, a) && |w.requests| <= i < |Step(w, a).requests| && Step(w, a).requests[i].DeleteZone?
    ensures Caused(w, a, Step(w, a).requests, i)
  {
    StepAsks(w, a);
    var history := Step(w, a).requests;
    if a.TearsDown? && a.tunnel in w.tunnels {
      TunnelOfFinds(w.tunnels - {a.tunnel}, a.order, w.tunnels[a.tunnel].zone);
    }
    hide Step, TunnelOf, SetupByName, Ensured, InUse, Complete;
    var asked := Asked(w, a);
    assert history[i] == asked[i - |w.requests|];
    assert i == |history| - 1;
    assert history[..i] == w.requests + asked[..|asked| - 1];
  }

  lemma {:induction false} RunSnoc(w: World, actions: seq<Action>, a: Action)
    ensures Run(w, actions + [a]) == Step(Run(w, actions), a)
    ensures AllComplete(w, actions + [a]) ==> AllComplete(w, actions) && Complete(Run(w, actions), a)
    decreases |actions|
  {
    hide Step, Complete;
    if actions == [] {
      assert (actions + [a])[1..] == [];
    } else {
      assert (actions + [a])[1..] == actions[1..] + [a];
      RunSnoc(Step(w, actions[0]), actions[1..], a);
    }
  }

  /** Over a whole run, whatever fails: wherever a zone's deletion is asked for, a step of the run is its
      cause. Either a teardown of the last tunnel of that zone asked for it, right after asking for
      the deletion of that tunnel's policies, or the rollback of a failed setup by name did. */
  lemma {:induction false} OnlyLastTeardownDeletes(w: World, actions: seq<Action>, i: nat)
    requires AllComplete(w, actions) && |w.requests| <= i < |Run(w, actions).requests| && Run(w, actions).requests[i].DeleteZone?
    ensures exists n :: 0 <= n < |actions| && Caused(Run(w, actions[..n]), actions[n], Run(w, actions).requests, i)
    decreases |actions|
  {
    hide Step, Complete, Caused;
    assert actions != [];
    var m := |actions| - 1;
    var before := actions[..m];
    assert actions == before + [actions[m]];
    RunSnoc(w, before, actions[m]);
    var s := Run(w, before);
    StepAsks(s, actions[m]);
    hide Asked;
    if i < |s.requests| {
      OnlyLastTeardownDeletes(w, before, i);
      var n :| 0 <= n < |before| && Caused(Run(w, before[..n]), before[n], s.requests, i);
      assert before[..n] == actions[..n];
      StillCaused(Run(w, before[..n]), before[n], s.requests, Run(w, actions).requests, i);
    } else {
      AskedCaused(s, actions[m], i);
    }
  }

  lemma StillCaused(w: World, a: Action, history: seq<Request>, later: seq<Request>, i: nat)
    requires Caused(w, a, history, i) && history <= later
    ensures Caused(w, a, later, i)
  {
    assert later[..i] == history[..i];
    hide SetupByName, Ensured, InUse, Deletions;
  }

  /** If every setup by name succeeds, only teardowns of a zone's last tunnel delete a zone. */
  lemma SuccessfulSetupsDeleteNothing(w: World, actions: seq<Action>, i: nat)
    requires AllComplete(w, actions) && |w.requests| <= i < |Run(w, actions).requests| && Run(w, actions).requests[i].DeleteZone?
    requires forall n :: 0 <= n < |actions| && actions[n].ByName? ==>
               SetupByName(Run(w, actions[..n]), actions[n].tunnel, actions[n].name, actions[n].env).1
    ensures exists n :: 0 <= n < |actions| && LastTeardown(Run(w, actions[..n]), actions[n], Run(w, actions).requests, i)
  {
    hide SetupByName, Ensured, InUse, Deletions, Run, AllComplete;
    OnlyLastTeardownDeletes(w, actions, i);
    var n :| 0 <= n < |actions| && Caused(Run(w, actions[..n]), actions[n], Run(w, actions).requests, i);
  }

  lemma {:induction false} WithoutNew(zones: seq<Zone>, z: Zone)
    requires !HasZone(zones, z.id)
    ensures WithoutZone(zones + [z], z.id) == zones
  {
    if zones == [] {
      assert zones + [z] == [z];
      assert WithoutZone([z], z.id) == [];
    } else {
      HasZoneCons(zones[0], zones[1..], z.id);
      assert zones == [zones[0]] + zones[1..];
      assert (zones + [z])[1..] == zones[1..] + [z];
      WithoutNew(zones[1..], z);
    }
  }

  /** A teardown undoes the setup of a new zone: zones, policies and tunnels are as they were. */
  lemma TeardownUndoesSetup(w: World, tunnel: string, name: string, env: Calls, order: seq<string>, env': Calls)
    requires tunnel !in w.tunnels && SetupByName(w, tunnel, name, env).1
    requires FindZone(w.zones, DisplayName(name)).None? && env.newZone != "" && !HasZone(w.zones, env.newZone) && Recorded(w)
    requires forall p :: p in env.policyIds ==> p !in w.policies
    requires env'.ready && env'.deleteZoneOk && (forall p :: env'.deletePolicyOk(p)) && Lists(order, w.tunnels)
    ensures var w' := Teardown(SetupByName(w, tunnel, name, env).0, tunnel, order, env');
            w'.zones == w.zones && w'.policies == w.policies && w'.tunnels == w.tunnels
  {
    var w1 := SetupByName(w, tunnel, name, env).0;
    assert w1.tunnels - {tunnel} == w.tunnels;
    TunnelOfIs(w.tunnels, order, env.newZone);
    WithoutNew(w.zones, Zone(env.newZone, DisplayName(name)));
    hide WithoutZone, HasZone, TunnelOf, FindZone, DisplayName;
    assert TunnelOf(w.tunnels, order, env.newZone).None?;
  }

  /** The orchestrator as it runs. */
  class FirewallOrchestrator {
    var zones: seq<Zone>
    var policies: set<string>
    var tunnels: map<string, Record>
    var requests: seq<Request>

    ghost function Now(): World
      reads this
    {
      World(zones, policies, tunnels, requests)
    }

    constructor ()
      ensures Now() == World([], {}, map[], [])
    {
      zones, policies, tunnels, requests := [], {}, map[], [];
    }

    /** rollbackZone, and the end of a teardown. */
    method DeleteZoneAndPolicies(zone: string, ids: seq<string>, env: Calls)
      modifies this
      ensures Now() == DeleteAll(old(Now()), zone, ids, env)
    {
      for i := 0 to |ids|
        invariant tunnels == old(tunnels) && zones == old(zones)
        invariant policies == set p | p in old(policies) && !(p in ids[..i] && env.deletePolicyOk(p))
        invariant requests == old(requests) + Deletions(ids[..i])
      {
        assert ids[..i + 1] == ids[..i] + [ids[i]];
        requests := requests + [DeletePolicy(ids[i])];
        assert requests == old(requests) + Deletions(ids[..i + 1]);
        if env.deletePolicyOk(ids[i]) {
          policies := policies - {ids[i]};
        }
      }
      assert ids[..|ids|] == ids;
      requests := requests + [DeleteZone(zone)];
      if env.deleteZoneOk {
        zones := WithoutZone(zones, zone);
      }
    }

    /** The scan of a snapshot for a tunnel of the zone. */
    method FindTunnelOf(order: seq<string>, zone: string) returns (r: Option<string>)
      ensures r == TunnelOf(tunnels, order, zone)
    {
      assert order[0..] == order;
      for i := 0 to |order|
        invariant TunnelOf(tunnels, order, zone) == TunnelOf(tunnels, order[i..], zone)
      {
        assert order[i..][0] == order[i] && order[i..][1..] == order[i + 1..];
        if order[i] in tunnels && tunnels[order[i]].zone == zone {
          return Some(order[i]);
        }
      }
      r := None;
    }

    method SetupWgS2sZoneById(tunnel: string, zone: string, order: seq<string>, env: Calls) returns (ok: bool)
      modifies this
      ensures (Now(), ok) == SetupById(old(Now()), tunnel, zone, order, env)
    {
      if !env.ready {
        return false;
      }
      var found := FindTunnelOf(order, zone);
      if found.None? || found.value !in tunnels {
        return false;
      }
      tunnels := tunnels[tunnel := tunnels[found.value]];
      return env.saveOk;
    }

    method SetupWgS2sZoneByName(tunnel: string, name: string, env: Calls) returns (ok: bool)
      modifies this
      ensures (Now(), ok) == SetupByName(old(Now()), tunnel, name, env)
    {
      if !env.ready || !env.ensureOk {
        return false;
      }
      var zone := env.newZone;
      var found := FindZone(zones, DisplayName(name));
      if found.Some? {
        zone := found.value;
      } else {
        zones := zones + [Zone(env.newZone, DisplayName(name))];
      }
      policies := policies + (set p | p in env.policyIds);
      if !env.policiesOk {
        DeleteZoneAndPolicies(zone, [], env);
        return false;
      }
      var prefix := if env.prefix == "" then DEFAULT_PREFIX else env.prefix;
      tunnels := tunnels[tunnel := Record(zone, DisplayName(name), env.policyIds, prefix)];
      if !env.saveOk {
        DeleteZoneAndPolicies(zone, env.policyIds, env);
        return false;
      }
      return true;
    }

    method TeardownWgS2sZone(tunnel: string, order: seq<string>, env: Calls)
      modifies this
      ensures Now() == Teardown(old(Now()), tunnel, order, env)
    {
      if tunnel !in tunnels {
        return;
      }
      var zm := tunnels[tunnel];
      tunnels := tunnels - {tunnel};
      if zm.zone == "" {
        return;
      }
      var other := FindTunnelOf(order, zm.zone);
      if other.Some? {
        return;
      }
      if !env.ready {
        return;
      }
      DeleteZoneAndPolicies(zm.zone, zm.policies, env);
    }
  }
}
