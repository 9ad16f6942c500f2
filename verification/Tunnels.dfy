/** The tunnel manager's requests (manager.go) over the configuration, the disk copy and the plane, and
    the ownership invariant over every run of them, restarts included. */
module Tunnels {
  import opened Text
  import opened Routes
  import opened Ownership
  import opened Names

  const DEFAULT_KEEPALIVE := 25
  const DEFAULT_MTU := 1420
  const DEFAULT_METRIC := 100

  /** Route metrics as the service layer admits them. */
  type RouteMetric = m: int | m <= 9999

  datatype Tunnel = Tunnel(
    id: string, name: string, iface: string, listenPort: nat, address: string,
    peerKey: string, endpoint: string, allowed: seq<Cidr>, localSubnets: seq<string>,
    keepalive: nat, mtu: nat, routeMetric: RouteMetric, enabled: bool)

  /** The configuration in memory, its copy on disk, and the plane. */
  datatype World = World(tunnels: seq<Tunnel>, disk: seq<Tunnel>, plane: Plane)

  function EffectiveMetric(m: RouteMetric): nat {
    if m <= 0 then DEFAULT_METRIC else m
  }

  function RouteKeys(t: Tunnel): set<RouteKey> {
    Keys(t.allowed, EffectiveMetric(t.routeMetric))
  }

  function FindTunnel(ts: seq<Tunnel>, id: string): (r: Option<nat>)
    ensures r.Some? ==> r.value < |ts| && ts[r.value].id == id
    ensures r.None? ==> forall t :: t in ts ==> t.id != id
  {
    if ts == [] then None
    else if ts[0].id == id then Some(0)
    else
      var r := FindTunnel(ts[1..], id);
      if r.None? then None else Some(r.value + 1)
  }

  // ---------- requests ----------

  function TearDownTunnel(f: Faults, p: Plane, t: Tunnel): (Plane, bool) {
    TearDown(f, p, t.id, t.iface, t.allowed, EffectiveMetric(t.routeMetric))
  }

  function BringUpTunnel(f: Faults, p: Plane, t: Tunnel): (Plane, bool) {
    BringUp(f, p, t.id, t.iface, t.allowed, EffectiveMetric(t.routeMetric))
  }

  function LoadAndBringUpTunnel(f: Faults, p: Plane, t: Tunnel): (Plane, bool) {
    LoadAndBringUp(f, p, t.id, t.iface, t.allowed, EffectiveMetric(t.routeMetric))
  }

  function RecreateTunnel(f: Faults, p: Plane, t: Tunnel): (Plane, bool) {
    Recreate(f, p, t.id, t.iface, t.allowed, EffectiveMetric(t.routeMetric))
  }

  function Ticked(w: World): World {
    w.(plane := w.plane.(kernel := Called(w.plane.kernel)))
  }

  /** Persist the configuration. */
  function Save(f: Faults, w: World): (World, bool) {
    if f(ConfigSave, w.plane.kernel.calls) then (Ticked(w), false)
    else (Ticked(w).(disk := w.tunnels), true)
  }

  function IfaceNames(ts: seq<Tunnel>): set<string> {
    set t | t in ts :: t.iface
  }

  /** The tunnel a create request stands for: next free interface, defaults filled in, enabled. */
  function Prepared(w: World, req: Tunnel, id: string): Tunnel {
    req.(id := id,
         iface := IfaceName(NextFree(IfaceNames(w.tunnels), 0)),
         enabled := true,
         keepalive := if req.keepalive == 0 then DEFAULT_KEEPALIVE else req.keepalive,
         mtu := if req.mtu == 0 then DEFAULT_MTU else req.mtu,
         routeMetric := if req.routeMetric == 0 then DEFAULT_METRIC else req.routeMetric)
  }

  /** CreateTunnel; id is the generated identifier. */
  function Create(f: Faults, w: World, req: Tunnel, id: string): (World, bool) {
    if req.name == "" || req.listenPort == 0 || req.address == "" then (w, false)
    else if f(Preflight, w.plane.kernel.calls) then (Ticked(w), false)
    else
      var t := Prepared(w, req, id);
      var (p, ok) := BringUpTunnel(f, Ticked(w).plane, t);
      if !ok then (w.(plane := p), false)
      else
        var (v, saved) := Save(f, w.(tunnels := w.tunnels + [t], plane := p));
        if saved then (v, true) else (v.(plane := TearDownTunnel(f, v.plane, t).0), false)
  }

  /** EnableTunnel: bring up, then record it; if the record cannot be saved, take it down again. */
  function Enable(f: Faults, w: World, id: string): (World, bool) {
    var i := FindTunnel(w.tunnels, id);
    if i.None? then (w, false)
    else if w.tunnels[i.value].enabled then (w, true)
    else
      var t := w.tunnels[i.value];
      var (p, ok) := LoadAndBringUpTunnel(f, w.plane, t);
      if !ok then (w.(plane := p), false)
      else
        var (v, saved) := Save(f, w.(tunnels := w.tunnels[i.value := t.(enabled := true)], plane := p));
        if saved then (v, true) else (v.(plane := TearDownTunnel(f, v.plane, t).0), false)
  }

  /** DisableTunnel: take down, then record it; if the record cannot be saved, bring it up again. */
  function Disable(f: Faults, w: World, id: string): (World, bool) {
    var i := FindTunnel(w.tunnels, id);
    if i.None? then (w, false)
    else if !w.tunnels[i.value].enabled then (w, true)
    else
      var t := w.tunnels[i.value];
      var (p, ok) := TearDownTunnel(f, w.plane, t);
      if !ok then (w.(plane := p), false)
      else
        var (v, saved) := Save(f, w.(tunnels := w.tunnels[i.value := t.(enabled := false)], plane := p));
        if saved then (v, true) else (v.(plane := LoadAndBringUpTunnel(f, v.plane, t).0), false)
  }

  /** DeleteTunnel: take down if enabled, then remove from the configuration. */
  function Delete(f: Faults, w: World, id: string): (World, bool) {
    var i := FindTunnel(w.tunnels, id);
    if i.None? then (w, false)
    else
      var t := w.tunnels[i.value];
      var (p, ok) := if t.enabled then TearDownTunnel(f, w.plane, t) else (w.plane, true);
      if !ok then (w.(plane := p), false)
      else
        var (v, saved) := Save(f, w.(tunnels := w.tunnels[..i.value] + w.tunnels[i.value + 1..], plane := p));
        if saved then (v, true)
        else if t.enabled then (v.(plane := LoadAndBringUpTunnel(f, v.plane, t).0), false)
        else (v, false)
  }

  /** An update request; zero values and None mean "leave as is". */
  datatype Update = Update(
    name: string, listenPort: nat, address: string, peerKey: string, endpoint: string,
    allowed: Option<seq<Cidr>>, localSubnets: Option<seq<string>>, keepalive: nat, mtu: nat, routeMetric: RouteMetric)

  function ApplyUpdates(t: Tunnel, u: Update): Tunnel {
    t.(name := if u.name != "" then u.name else t.name,
       listenPort := if u.listenPort != 0 then u.listenPort else t.listenPort,
       address := if u.address != "" then u.address else t.address,
       peerKey := if u.peerKey != "" then u.peerKey else t.peerKey,
       endpoint := if u.endpoint != "" then u.endpoint else t.endpoint,
       allowed := if u.allowed.Some? then u.allowed.value else t.allowed,
       localSubnets := if u.localSubnets.Some? then u.localSubnets.value else t.localSubnets,
       keepalive := if u.keepalive != 0 then u.keepalive else t.keepalive,
       mtu := if u.mtu != 0 then u.mtu else t.mtu,
       routeMetric := if u.routeMetric != 0 then u.routeMetric else t.routeMetric)
  }

  predicate NeedsRecreate(t: Tunnel, merged: Tunnel) {
    || t.listenPort != merged.listenPort || t.address != merged.address
    || t.mtu != merged.mtu || t.peerKey != merged.peerKey
  }

  /** The kernel side of an update: recreate if the device itself changes, otherwise update in place and
      fall back to recreating. */
  function UpdatePlane(f: Faults, p: Plane, t: Tunnel, merged: Tunnel): (Plane, bool) {
    if NeedsRecreate(t, merged) then RecreateTunnel(f, p, merged)
    else
      var (q, ok) := HotUpdateTunnel(f, p, t, merged);
      if ok then (q, true) else RecreateTunnel(f, q, merged)
  }

  /** UpdateTunnel: kernel first; the configuration changes only after the kernel side succeeded, and
      goes back if it cannot be saved. */
  function UpdateTunnel(f: Faults, w: World, id: string, u: Update): (World, bool) {
    var i := FindTunnel(w.tunnels, id);
    if i.None? then (w, false)
    else if f(Preflight, w.plane.kernel.calls) then (Ticked(w), false)
    else
      var t := w.tunnels[i.value];
      var merged := ApplyUpdates(t, u);
      var (p, ok) := if t.enabled then UpdatePlane(f, Ticked(w).plane, t, merged) else (Ticked(w).plane, true);
      if !ok then (w.(plane := p), false)
      else
        var (v, saved) := Save(f, w.(tunnels := w.tunnels[i.value := merged], plane := p));
        if saved then (v, true) else (v.(tunnels := w.tunnels), false)
  }

  /** removeOrphanInterfaces over the interfaces of ours that the kernel listed. */
  function RemoveOrphans(f: Faults, k: Kernel, listing: seq<string>, configured: set<string>): Kernel
    decreases |listing|
  {
    if listing == [] then k
    else
      var n := listing[0];
      var k' := if n in configured || n !in k.links then k else DeleteLink(f, k, k.links[n]).0;
      RemoveOrphans(f, k', listing[1..], configured)
  }

  /** Bring up every enabled tunnel in order; failures are collected, not fatal. Reports whether there
      were none. */
  function RestoreEach(f: Faults, p: Plane, ts: seq<Tunnel>): (Plane, bool)
    decreases |ts|
  {
    if ts == [] then (p, true)
    else
      var (q, ok) := if ts[0].enabled then LoadAndBringUpTunnel(f, p, ts[0]) else (p, true);
      var (r, rest) := RestoreEach(f, q, ts[1..]);
      (r, ok && rest)
  }

  function RestoreAll(f: Faults, w: World, listing: seq<string>): (World, bool) {
    var kernel := RemoveOrphans(f, w.plane.kernel, listing, IfaceNames(w.tunnels));
    var (p, ok) := RestoreEach(f, w.plane.(kernel := kernel), w.tunnels);
    (w.(plane := p), ok)
  }

  /** The manager process starts again: configuration from disk, empty owner lists, then RestoreAll. */
  function Restart(f: Faults, w: World, listing: seq<string>): (World, bool) {
    RestoreAll(f, World(w.disk, w.disk, w.plane.(owners := map[])), listing)
  }

  datatype Request =
    | CreateReq(tunnel: Tunnel, id: string)
    | EnableReq(id: string)
    | DisableReq(id: string)
    | DeleteReq(id: string)
    | UpdateReq(id: string, updates: Update)
    | RestartReq(listing: seq<string>)

  function Step(f: Faults, w: World, r: Request): World {
    match r
    case CreateReq(t, id) => Create(f, w, t, id).0
    case EnableReq(id) => Enable(f, w, id).0
    case DisableReq(id) => Disable(f, w, id).0
    case DeleteReq(id) => Delete(f, w, id).0
    case UpdateReq(id, u) => UpdateTunnel(f, w, id, u).0
    case RestartReq(listing) => Restart(f, w, listing).0
  }

  function Run(f: Faults, w: World, rs: seq<Request>): World
    decreases |rs|
  {
    if rs == [] then w else Run(f, Step(f, w, rs[0]), rs[1..])
  }

  // ---------- the invariant over worlds ----------

  function ClaimOf(t: Tunnel): Claims {
    Claims(t.iface, RouteKeys(t))
  }

  ghost predicate ValidConfig(ts: seq<Tunnel>, foreign: map<RouteKey, nat>) {
    && (forall i, j :: 0 <= i < j < |ts| ==> ts[i].id != ts[j].id && ts[i].iface != ts[j].iface)
    && (forall i :: 0 <= i < |ts| ==> Ours(ts[i].iface) && RouteKeys(ts[i]) !! foreign.Keys)
  }

  ghost predicate Enabled(ts: seq<Tunnel>, id: string) {
    FindTunnel(ts, id).Some? && ts[FindTunnel(ts, id).value].enabled
  }

  /** The enabled tunnels whose interface is live, with their claims. */
  ghost function Up(ts: seq<Tunnel>, links: map<string, nat>): Roster {
    map id | id in Ids(ts) && Enabled(ts, id) && ts[FindTunnel(ts, id).value].iface in links ::
      ClaimOf(ts[FindTunnel(ts, id).value])
  }

  function Ids(ts: seq<Tunnel>): set<string> {
    set t | t in ts :: t.id
  }

  /** Between requests: the configuration is valid and saved, and the ownership invariant holds for the
      enabled tunnels with a live interface, with nothing stale. */
  ghost predicate Settled(w: World, foreign: map<RouteKey, nat>) {
    && w.disk == w.tunnels
    && ValidConfig(w.tunnels, foreign)
    && Owned(w.plane, Up(w.tunnels, w.plane.kernel.links), map[], foreign)
  }

  /** Every enabled tunnel has a live interface. */
  ghost predicate AllUp(w: World) {
    forall i :: 0 <= i < |w.tunnels| && w.tunnels[i].enabled ==> w.tunnels[i].iface in w.plane.kernel.links
  }

  /** Every enabled tunnel is in the roster. */
  ghost predicate EnabledIn(ts: seq<Tunnel>, up: Roster) {
    forall i :: 0 <= i < |ts| && ts[i].enabled ==> ts[i].id in up
  }

  /** Every tunnel in the roster is an enabled tunnel of the configuration, with its configured claims. */
  ghost predicate Agrees(up: Roster, ts: seq<Tunnel>) {
    forall id :: id in up ==> Enabled(ts, id) && up[id] == ClaimOf(ts[FindTunnel(ts, id).value])
  }

  lemma FindIs(ts: seq<Tunnel>, foreign: map<RouteKey, nat>, i: nat)
    requires ValidConfig(ts, foreign) && i < |ts|
    ensures FindTunnel(ts, ts[i].id) == Some(i)
  {
    hide RouteKeys, Ours, FindTunnel;
    var r := FindTunnel(ts, ts[i].id);
    assert ts[i] in ts;
    assert r.Some?;
  }

  /** With nothing stale, the tunnels that are up are exactly the enabled ones with a live interface. */
  lemma RosterIsUp(p: Plane, ts: seq<Tunnel>, up: Roster, foreign: map<RouteKey, nat>)
    requires ValidConfig(ts, foreign) && Owned(p, up, map[], foreign) && Agrees(up, ts)
    ensures Up(ts, p.kernel.links) == up
  {
    assert up + map[] == up;
    forall id
      ensures id in up <==> id in Up(ts, p.kernel.links)
    {
      if id in up {
        assert ts[FindTunnel(ts, id).value] in ts;
      }
      if id in Up(ts, p.kernel.links) {
        var i := FindTunnel(ts, id).value;
        assert Belongs(up + map[], ts[i].iface);
        var j :| j in up && up[j].iface == ts[i].iface;
        assert ts[FindTunnel(ts, j).value].iface == ts[i].iface;
        assert FindTunnel(ts, j).value == i;
      }
    }
  }

  /** How a world is recognised as settled. */
  lemma Settle(w: World, p: Plane, up: Roster, foreign: map<RouteKey, nat>)
    requires w.disk == w.tunnels && ValidConfig(w.tunnels, foreign) && Agrees(up, w.tunnels)
    requires Owned(p, up, map[], foreign)
    requires w.plane.owners == p.owners && w.plane.kernel.routes == p.kernel.routes
    requires w.plane.kernel.links == p.kernel.links && p.kernel.nextIf <= w.plane.kernel.nextIf
    ensures Settled(w, foreign)
    ensures Up(w.tunnels, w.plane.kernel.links) == up
    ensures EnabledIn(w.tunnels, up) ==> AllUp(w)
  {
    OwnedExt(p, w.plane, up, map[], foreign);
    RosterIsUp(w.plane, w.tunnels, up, foreign);
    forall i | 0 <= i < |w.tunnels| && w.tunnels[i].id in up
      ensures w.tunnels[i].iface in w.plane.kernel.links
    {
      FindIs(w.tunnels, foreign, i);
    }
  }

  lemma AllUpListed(w: World, foreign: map<RouteKey, nat>)
    requires ValidConfig(w.tunnels, foreign)
    ensures AllUp(w) ==> EnabledIn(w.tunnels, Up(w.tunnels, w.plane.kernel.links))
  {
    if AllUp(w) {
      forall i | 0 <= i < |w.tunnels| && w.tunnels[i].enabled
        ensures w.tunnels[i].id in Up(w.tunnels, w.plane.kernel.links)
      {
        FindIs(w.tunnels, foreign, i);
        assert w.tunnels[i] in w.tunnels;
      }
    }
  }

  lemma UpAgrees(ts: seq<Tunnel>, links: map<string, nat>)
    ensures Agrees(Up(ts, links), ts)
    ensures Up(ts, links).Keys <= Ids(ts)
  {
  }

  /** A configured tunnel is the only one with its interface, and holds what it is configured to hold. */
  lemma ConfiguredTunnel(ts: seq<Tunnel>, up: Roster, foreign: map<RouteKey, nat>, i: nat)
    requires ValidConfig(ts, foreign) && Agrees(up, ts) && i < |ts|
    ensures Configured(up, map[], ts[i].id, ts[i].iface, RouteKeys(ts[i]))
    ensures RouteKeys(ts[i]) !! foreign.Keys
  {
    assert up + map[] == up;
    FindIs(ts, foreign, i);
    forall j | j in up && up[j].iface == ts[i].iface
      ensures j == ts[i].id
    {
      var m := FindTunnel(ts, j).value;
      assert ts[m].iface == ts[i].iface;
      assert m == i;
    }
  }

  /** The kernel faults under which requests keep the invariant: routes can always be replaced, links
      deleted and the configuration saved. Adding and deleting routes, creating and configuring
      links, loading keys and reaching the peer may all fail. */
  ghost predicate Dependable(f: Faults) {
    Reliable(f, RouteReplace) && Reliable(f, LinkDelete) && Reliable(f, ConfigSave)
  }

  lemma AgreesReplaced(ts: seq<Tunnel>, up: Roster, foreign: map<RouteKey, nat>, i: nat, t: Tunnel)
    requires ValidConfig(ts, foreign) && Agrees(up, ts) && i < |ts|
    requires t.id == ts[i].id && t.iface == ts[i].iface && RouteKeys(t) !! foreign.Keys
    ensures ValidConfig(ts[i := t], foreign)
    ensures FindTunnel(ts[i := t], t.id) == Some(i)
    ensures Agrees(up - {t.id}, ts[i := t])
    ensures t.enabled ==> Agrees((up - {t.id})[t.id := ClaimOf(t)], ts[i := t])
    ensures EnabledIn(ts, up) ==> EnabledIn(ts[i := t], (up - {t.id})[t.id := ClaimOf(t)])
    ensures EnabledIn(ts, up) && !t.enabled ==> EnabledIn(ts[i := t], up - {t.id})
  {
    var ts' := ts[i := t];
    FindIs(ts', foreign, i);
    forall id | id in up && id != t.id
      ensures FindTunnel(ts', id) == FindTunnel(ts, id)
    {
      var m := FindTunnel(ts, id).value;
      assert ts'[m] == ts[m];
      FindIs(ts', foreign, m);
    }
  }

  lemma NotUp(ts: seq<Tunnel>, up: Roster, i: nat, id: string)
    requires Agrees(up, ts) && FindTunnel(ts, id) == Some(i) && !ts[i].enabled
    ensures id !in up && up - {id} == up
  {
  }

  /** Bringing up a tunnel that is down: with it in the roster, or without. */
  lemma RaiseKeeps(f: Faults, p: Plane, up: Roster, foreign: map<RouteKey, nat>, ts: seq<Tunnel>, i: nat)
    requires Reliable(f, RouteReplace) && Reliable(f, LinkDelete) && ValidConfig(ts, foreign) && Agrees(up, ts) && i < |ts| && !ts[i].enabled && Owned(p, up, map[], foreign)
    ensures var (q, ok) := LoadAndBringUpTunnel(f, p, ts[i]);
            Owned(q, if ok then up[ts[i].id := ClaimOf(ts[i])] else up, map[], foreign)
  {
    var t := ts[i];
    ConfiguredTunnel(ts, up, foreign, i);
    FindIs(ts, foreign, i);
    NotUp(ts, up, i, t.id);
    hide Owned, ValidConfig, Agrees, Configured, BringUp, FindTunnel, Keys, Reliable, Parseable;
    var c := p.(kernel := Called(p.kernel));
    OwnedExt(p, c, up, map[], foreign);
    BringUpKeeps(f, c, up, map[], foreign, t.id, t.iface, t.allowed, EffectiveMetric(t.routeMetric));
    var none: Roster := map[];
    assert none - {t.id} == none;
  }

  lemma EnableIs(f: Faults, w: World, id: string, i: nat)
    requires Dependable(f) && FindTunnel(w.tunnels, id) == Some(i) && !w.tunnels[i].enabled
    ensures var v := Enable(f, w, id).0;
            var q := LoadAndBringUpTunnel(f, w.plane, w.tunnels[i]).0;
            var raised := LoadAndBringUpTunnel(f, w.plane, w.tunnels[i]).1;
            && Enable(f, w, id).1 == raised
            && v.tunnels == (if raised then w.tunnels[i := w.tunnels[i].(enabled := true)] else w.tunnels)
            && v.disk == (if raised then v.tunnels else w.disk)
            && v.plane.owners == q.owners && v.plane.kernel.routes == q.kernel.routes
            && v.plane.kernel.links == q.kernel.links && v.plane.kernel.nextIf == q.kernel.nextIf
  {
    hide TearDownTunnel, LoadAndBringUpTunnel;
  }

  lemma EnableNothing(f: Faults, w: World, id: string)
    requires var i := FindTunnel(w.tunnels, id); i.None? || w.tunnels[i.value].enabled
    ensures Enable(f, w, id).0 == w
  {
    hide TearDownTunnel, LoadAndBringUpTunnel;
  }

  lemma EnableKeeps(f: Faults, w: World, foreign: map<RouteKey, nat>, id: string)
    requires Dependable(f) && Settled(w, foreign)
    ensures Settled(Enable(f, w, id).0, foreign) && (AllUp(w) ==> AllUp(Enable(f, w, id).0))
    ensures !Enable(f, w, id).1 ==> Enable(f, w, id).0.tunnels == w.tunnels
  {
    hide Owned, AllUp, EnabledIn, Up, ValidConfig, Agrees, Enable, LoadAndBringUpTunnel;
    AllUpListed(w, foreign);
    var i := FindTunnel(w.tunnels, id);
    if i.Some? && !w.tunnels[i.value].enabled {
      var t := w.tunnels[i.value];
      var up := Up(w.tunnels, w.plane.kernel.links);
      UpAgrees(w.tunnels, w.plane.kernel.links);
      FindIs(w.tunnels, foreign, i.value);
      RaiseKeeps(f, w.plane, up, foreign, w.tunnels, i.value);
      ConfiguredTunnel(w.tunnels, up, foreign, i.value);
      NotUp(w.tunnels, up, i.value, id);
      EnableIs(f, w, id, i.value);
      hide FindTunnel;
      var (p, raised) := LoadAndBringUpTunnel(f, w.plane, t);
      if raised {
        AgreesReplaced(w.tunnels, up, foreign, i.value, t.(enabled := true));
        Settle(Enable(f, w, id).0, p, up[id := ClaimOf(t)], foreign);
      } else {
        Settle(Enable(f, w, id).0, p, up, foreign);
      }
    } else {
      EnableNothing(f, w, id);
    }
  }

  lemma DisableKeeps(f: Faults, w: World, foreign: map<RouteKey, nat>, id: string)
    requires Dependable(f) && Settled(w, foreign)
    ensures Settled(Disable(f, w, id).0, foreign) && (AllUp(w) ==> AllUp(Disable(f, w, id).0))
  {
    AllUpListed(w, foreign);
    hide Owned, AllUp, EnabledIn, Up;
    var i := FindTunnel(w.tunnels, id);
    if i.Some? && w.tunnels[i.value].enabled {
      var t := w.tunnels[i.value];
      var up := Up(w.tunnels, w.plane.kernel.links);
      UpAgrees(w.tunnels, w.plane.kernel.links);
      ConfiguredTunnel(w.tunnels, up, foreign, i.value);
      TearDownKeeps(f, w.plane, up, map[], foreign, t.id, t.iface, t.allowed, EffectiveMetric(t.routeMetric));
      var none: Roster := map[];
      assert none - {id} == none;
      AgreesReplaced(w.tunnels, up, foreign, i.value, t.(enabled := false));
      Settle(Disable(f, w, id).0, TearDownTunnel(f, w.plane, t).0, up - {id}, foreign);
    }
  }

  lemma FindAfterRemoval(ts: seq<Tunnel>, foreign: map<RouteKey, nat>, i: nat, id: string)
    requires ValidConfig(ts, foreign) && i < |ts| && ValidConfig(ts[..i] + ts[i + 1..], foreign)
    requires FindTunnel(ts, id).Some? && id != ts[i].id
    ensures var ts' := ts[..i] + ts[i + 1..];
            FindTunnel(ts', id).Some? && ts'[FindTunnel(ts', id).value] == ts[FindTunnel(ts, id).value]
  {
    var ts' := ts[..i] + ts[i + 1..];
    var m := FindTunnel(ts, id).value;
    var m' := if m < i then m else m - 1;
    hide ValidConfig;
    assert ts'[m'] == ts[m];
    FindIs(ts', foreign, m');
  }

  lemma ValidRemoved(ts: seq<Tunnel>, foreign: map<RouteKey, nat>, i: nat)
    requires ValidConfig(ts, foreign) && i < |ts|
    ensures ValidConfig(ts[..i] + ts[i + 1..], foreign)
  {
    hide RouteKeys, Ours;
    var ts' := ts[..i] + ts[i + 1..];
    assert forall m :: 0 <= m < |ts'| ==> ts'[m] == ts[if m < i then m else m + 1];
  }

  lemma AgreesRemoved(ts: seq<Tunnel>, up: Roster, foreign: map<RouteKey, nat>, i: nat)
    requires ValidConfig(ts, foreign) && Agrees(up, ts) && i < |ts|
    ensures ValidConfig(ts[..i] + ts[i + 1..], foreign)
    ensures Agrees(up - {ts[i].id}, ts[..i] + ts[i + 1..])
    ensures EnabledIn(ts, up) ==> EnabledIn(ts[..i] + ts[i + 1..], up - {ts[i].id})
  {
    ValidRemoved(ts, foreign, i);
    var ts' := ts[..i] + ts[i + 1..];
    assert forall m :: 0 <= m < |ts'| ==> ts'[m] == ts[if m < i then m else m + 1];
    assert forall m :: 0 <= m < |ts'| ==> ts'[m].id != ts[i].id;
    hide RouteKeys, Ours, ClaimOf, ValidConfig;
    forall id | id in up && id != ts[i].id
      ensures FindTunnel(ts', id).Some? && ts'[FindTunnel(ts', id).value] == ts[FindTunnel(ts, id).value]
    {
      FindAfterRemoval(ts, foreign, i, id);
    }
  }

  /** The plane once a tunnel is torn down, if it was enabled. */
  function DownPlane(f: Faults, p: Plane, t: Tunnel): (Plane, bool) {
    if t.enabled then TearDownTunnel(f, p, t) else (p, true)
  }

  lemma DownPlaneKeeps(f: Faults, p: Plane, up: Roster, foreign: map<RouteKey, nat>, ts: seq<Tunnel>, i: nat)
    requires Reliable(f, RouteReplace) && Reliable(f, LinkDelete) && ValidConfig(ts, foreign) && Agrees(up, ts) && i < |ts| && Owned(p, up, map[], foreign)
    ensures var (q, ok) := DownPlane(f, p, ts[i]); ok && Owned(q, up - {ts[i].id}, map[], foreign)
  {
    var t := ts[i];
    ConfiguredTunnel(ts, up, foreign, i);
    FindIs(ts, foreign, i);
    if t.enabled {
      hide Owned, ValidConfig, Agrees, Configured;
      TearDownKeeps(f, p, up, map[], foreign, t.id, t.iface, t.allowed, EffectiveMetric(t.routeMetric));
      var none: Roster := map[];
      assert none - {t.id} == none;
    } else {
      NotUp(ts, up, i, t.id);
    }
  }

  lemma DeleteIs(f: Faults, w: World, id: string, i: nat)
    requires Dependable(f) && FindTunnel(w.tunnels, id) == Some(i) && DownPlane(f, w.plane, w.tunnels[i]).1
    ensures var v := Delete(f, w, id).0;
            var q := DownPlane(f, w.plane, w.tunnels[i]).0;
            && v.tunnels == w.tunnels[..i] + w.tunnels[i + 1..] && v.disk == v.tunnels
            && v.plane.owners == q.owners && v.plane.kernel.routes == q.kernel.routes
            && v.plane.kernel.links == q.kernel.links && v.plane.kernel.nextIf == q.kernel.nextIf
  {
    hide TearDownTunnel, LoadAndBringUpTunnel;
  }

  lemma DeleteNothing(f: Faults, w: World, id: string)
    requires FindTunnel(w.tunnels, id).None?
    ensures Delete(f, w, id).0 == w
  {
    hide TearDownTunnel, LoadAndBringUpTunnel;
  }

  lemma DeleteKeeps(f: Faults, w: World, foreign: map<RouteKey, nat>, id: string)
    requires Dependable(f) && Settled(w, foreign)
    ensures Settled(Delete(f, w, id).0, foreign) && (AllUp(w) ==> AllUp(Delete(f, w, id).0))
  {
    hide Owned, AllUp, EnabledIn, Up, ValidConfig, Agrees, Delete, DownPlane;
    AllUpListed(w, foreign);
    var i := FindTunnel(w.tunnels, id);
    if i.None? {
      DeleteNothing(f, w, id);
    } else {
      var up := Up(w.tunnels, w.plane.kernel.links);
      UpAgrees(w.tunnels, w.plane.kernel.links);
      FindIs(w.tunnels, foreign, i.value);
      DownPlaneKeeps(f, w.plane, up, foreign, w.tunnels, i.value);
      DeleteIs(f, w, id, i.value);
      AgreesRemoved(w.tunnels, up, foreign, i.value);
      hide FindTunnel;
      Settle(Delete(f, w, id).0, DownPlane(f, w.plane, w.tunnels[i.value]).0, up - {id}, foreign);
    }
  }

  /** The interface name picked for a new tunnel is ours and no configured tunnel has it. */
  lemma FreshName(ts: seq<Tunnel>)
    ensures var n := IfaceName(NextFree(IfaceNames(ts), 0)); Ours(n) && forall t :: t in ts ==> t.iface != n
  {
    var m := NextFree(IfaceNames(ts), 0);
    assert IfaceName(m)[..6] == IFACE_PREFIX;
  }

  lemma AgreesAppended(ts: seq<Tunnel>, up: Roster, foreign: map<RouteKey, nat>, t: Tunnel)
    requires ValidConfig(ts, foreign) && Agrees(up, ts)
    requires t.id !in Ids(ts) && Ours(t.iface) && (forall u :: u in ts ==> u.iface != t.iface) && RouteKeys(t) !! foreign.Keys
    requires t.enabled
    ensures ValidConfig(ts + [t], foreign)
    ensures Agrees(up[t.id := ClaimOf(t)], ts + [t])
    ensures EnabledIn(ts, up) ==> EnabledIn(ts + [t], up[t.id := ClaimOf(t)])
  {
    var ts' := ts + [t];
    ValidAppended(ts, foreign, t);
    hide ValidConfig, RouteKeys;
    FindIs(ts', foreign, |ts|);
    hide FindTunnel;
    forall id | id in up && id != t.id
      ensures FindTunnel(ts', id) == FindTunnel(ts, id)
    {
      FindIs(ts', foreign, FindTunnel(ts, id).value);
    }
  }

  lemma ValidAppended(ts: seq<Tunnel>, foreign: map<RouteKey, nat>, t: Tunnel)
    requires ValidConfig(ts, foreign)
    requires t.id !in Ids(ts) && Ours(t.iface) && (forall u :: u in ts ==> u.iface != t.iface) && RouteKeys(t) !! foreign.Keys
    ensures ValidConfig(ts + [t], foreign)
  {
    hide RouteKeys, Ours;
    var ts' := ts + [t];
    forall m | 0 <= m < |ts|
      ensures ts[m].id != t.id && ts[m].iface != t.iface && ts'[m] == ts[m]
    {
      assert ts[m] in ts;
    }
  }

  lemma CreateKeeps(f: Faults, w: World, foreign: map<RouteKey, nat>, req: Tunnel, id: string)
    requires Dependable(f) && Settled(w, foreign)
    requires id !in Ids(w.tunnels) && RouteKeys(Prepared(w, req, id)) !! foreign.Keys
    ensures Settled(Create(f, w, req, id).0, foreign) && (AllUp(w) ==> AllUp(Create(f, w, req, id).0))
    ensures !Create(f, w, req, id).1 ==>
              var v := Create(f, w, req, id).0;
              && v.tunnels == w.tunnels && v.plane.owners == w.plane.owners
              && v.plane.kernel.routes == w.plane.kernel.routes && v.plane.kernel.links == w.plane.kernel.links
  {
    AllUpListed(w, foreign);
    hide Owned, AllUp, EnabledIn, Up, Prepared;
    var t := Prepared(w, req, id);
    var (v, ok) := Create(f, w, req, id);
    var up := Up(w.tunnels, w.plane.kernel.links);
    UpAgrees(w.tunnels, w.plane.kernel.links);
    PreparedIs(w, req, id);
    if req.name == "" || req.listenPort == 0 || req.address == "" {
    } else if f(Preflight, w.plane.kernel.calls) {
      Settle(v, w.plane, up, foreign);
    } else {
      var c := Ticked(w).plane;
      OwnedExt(w.plane, c, up, map[], foreign);
      NewIsAdmissible(w.tunnels, w.plane, up, foreign, t);
      FreshBringUp(f, c, up, map[], foreign, t.id, t.iface, t.allowed, EffectiveMetric(t.routeMetric));
      var (p, raised) := BringUpTunnel(f, c, t);
      if raised {
        AgreesAppended(w.tunnels, up, foreign, t);
        Settle(v, p, up[id := ClaimOf(t)], foreign);
      } else {
        Settle(v, c, up, foreign);
      }
    }
  }

  lemma PreparedIs(w: World, req: Tunnel, id: string)
    ensures var t := Prepared(w, req, id);
            t.id == id && t.enabled && Ours(t.iface) && forall u :: u in w.tunnels ==> u.iface != t.iface
  {
    FreshName(w.tunnels);
  }

  /** A new tunnel with an unused name, next to settled ones. */
  lemma NewIsAdmissible(ts: seq<Tunnel>, p: Plane, up: Roster, foreign: map<RouteKey, nat>, t: Tunnel)
    requires Owned(p, up, map[], foreign) && Agrees(up, ts)
    requires t.id !in Ids(ts) && Ours(t.iface) && (forall u :: u in ts ==> u.iface != t.iface) && RouteKeys(t) !! foreign.Keys
    ensures Admissible(up, map[], foreign, t.id, t.iface, RouteKeys(t))
    ensures t.iface !in p.kernel.links
  {
    assert up + map[] == up;
    forall j | j in up
      ensures j != t.id && up[j].iface != t.iface
    {
      assert ts[FindTunnel(ts, j).value] in ts;
    }
    assert !Belongs(up + map[], t.iface);
  }

  /** What keeps the invariant when a running tunnel is updated: a recreate finds no key (and does nothing) or
      drops no route the tunnel holds; a hot update has its route deletions work, and the key is there for
      the recreate it may fall back to. */
  ghost predicate SafePlane(f: Faults, p: Plane, t: Tunnel, merged: Tunnel) {
    if NeedsRecreate(t, merged) then f(KeyLoad, p.kernel.calls) || RouteKeys(t) <= RouteKeys(merged)
    else if f(PeerUpdate, p.kernel.calls) then f(KeyLoad, p.kernel.calls + 1) || RouteKeys(t) <= RouteKeys(merged)
    else
      var (q, ok) := HotUpdateTunnel(f, p, t, merged);
      ReliableDuring(f, RouteDelete, p.kernel.calls, q.kernel.calls) && (!ok ==> !f(KeyLoad, q.kernel.calls))
  }

  function HotUpdateTunnel(f: Faults, p: Plane, t: Tunnel, merged: Tunnel): (Plane, bool) {
    HotUpdate(f, p, t.id, t.iface, t.allowed, EffectiveMetric(t.routeMetric), merged.allowed, EffectiveMetric(merged.routeMetric))
  }

  /** An update that claims no foreign route and, if the tunnel is running, is safe for the plane. */
  ghost predicate SafeUpdate(f: Faults, w: World, foreign: map<RouteKey, nat>, id: string, u: Update) {
    FindTunnel(w.tunnels, id).Some? && !f(Preflight, w.plane.kernel.calls) ==>
      var t := w.tunnels[FindTunnel(w.tunnels, id).value];
      var merged := ApplyUpdates(t, u);
      && RouteKeys(merged) !! foreign.Keys
      && (t.enabled && t.iface in w.plane.kernel.links ==> SafePlane(f, Ticked(w).plane, t, merged))
  }

  /** The roster after the kernel side of an update. */
  ghost function Updated(up: Roster, links: map<string, nat>, t: Tunnel, merged: Tunnel, ok: bool): Roster {
    if ok then (up - {t.id})[t.id := ClaimOf(merged)] else if t.iface in links then up else up - {t.id}
  }

  /** A recreate of a tunnel that is up or down: without its key nothing changes. */
  lemma RecreateOutcome(f: Faults, p: Plane, up: Roster, foreign: map<RouteKey, nat>, t: Tunnel, merged: Tunnel)
    requires Reliable(f, RouteReplace) && Reliable(f, LinkDelete)
    requires Owned(p, up, map[], foreign) && Configured(up, map[], t.id, t.iface, RouteKeys(t))
    requires merged.id == t.id && merged.iface == t.iface && RouteKeys(merged) !! foreign.Keys
    requires t.id in up <==> t.iface in p.kernel.links
    requires t.id in up ==> up[t.id].keys == RouteKeys(t) && (f(KeyLoad, p.kernel.calls) || RouteKeys(t) <= RouteKeys(merged))
    ensures var (q, ok) := RecreateTunnel(f, p, merged); Owned(q, Updated(up, q.kernel.links, t, merged, ok), map[], foreign)
  {
    var none: Roster := map[];
    assert none - {t.id} == none && up + none == up;
    var metric := EffectiveMetric(merged.routeMetric);
    if f(KeyLoad, p.kernel.calls) {
      hide Owned, TearDown, LoadAndBringUp, RouteKeys;
      var q := RecreateTunnel(f, p, merged).0;
      assert q == p.(kernel := Called(p.kernel));
      OwnedExt(p, q, up, map[], foreign);
      assert t.id !in up ==> up - {t.id} == up;
    } else {
      assert Configured(up, map[], t.id, t.iface, RouteKeys(merged));
      hide Owned, Configured, Recreate, RouteKeys;
      RecreateKeeps(f, p, up, map[], foreign, t.id, t.iface, merged.allowed, metric);
    }
  }

  /** The kernel side of a safe update: on success the tunnel holds exactly its new routes, on failure it
      is down or, if its key could not be read, as before; either way the others are undisturbed. */
  lemma UpdatePlaneKeeps(f: Faults, p: Plane, up: Roster, foreign: map<RouteKey, nat>, t: Tunnel, merged: Tunnel)
    requires Reliable(f, RouteReplace) && Reliable(f, LinkDelete)
    requires Owned(p, up, map[], foreign) && Configured(up, map[], t.id, t.iface, RouteKeys(t))
    requires merged.id == t.id && merged.iface == t.iface && RouteKeys(merged) !! foreign.Keys
    requires t.id in up <==> t.iface in p.kernel.links
    requires t.id in up ==> up[t.id].keys == RouteKeys(t) && SafePlane(f, p, t, merged)
    ensures var (q, ok) := UpdatePlane(f, p, t, merged); Owned(q, Updated(up, q.kernel.links, t, merged, ok), map[], foreign)
  {
    hide Owned, Configured, RouteKeys, RecreateTunnel;
    if NeedsRecreate(t, merged) {
      RecreateOutcome(f, p, up, foreign, t, merged);
    } else if t.id !in up || f(PeerUpdate, p.kernel.calls) {
      var q := p.(kernel := Called(p.kernel));
      OwnedExt(p, q, up, map[], foreign);
      assert HotUpdateTunnel(f, p, t, merged) == (q, false);
      RecreateOutcome(f, q, up, foreign, t, merged);
    } else {
      HotPlaneKeeps(f, p, up, foreign, t, merged);
    }
  }

  lemma HotPlaneKeeps(f: Faults, p: Plane, up: Roster, foreign: map<RouteKey, nat>, t: Tunnel, merged: Tunnel)
    requires Reliable(f, RouteReplace) && Reliable(f, LinkDelete)
    requires Owned(p, up, map[], foreign) && Configured(up, map[], t.id, t.iface, RouteKeys(t))
    requires merged.id == t.id && merged.iface == t.iface && RouteKeys(merged) !! foreign.Keys
    requires t.id in up && up[t.id].keys == RouteKeys(t) && !NeedsRecreate(t, merged) && !f(PeerUpdate, p.kernel.calls) && SafePlane(f, p, t, merged)
    ensures var (q, ok) := UpdatePlane(f, p, t, merged); Owned(q, Updated(up, q.kernel.links, t, merged, ok), map[], foreign)
  {
    assert up[t.id] == Claims(t.iface, RouteKeys(t));
    hide Owned, HotUpdate, RecreateTunnel;
    var (q, ok) := HotUpdateTunnel(f, p, t, merged);
    HotUpdateKeeps(f, p, up, foreign, t.id, t.iface, t.allowed, EffectiveMetric(t.routeMetric), merged.allowed, EffectiveMetric(merged.routeMetric));
    hide RouteKeys, Configured;
    if ok {
      assert up[t.id := ClaimOf(merged)] == (up - {t.id})[t.id := ClaimOf(merged)];
    } else {
      FallBack(f, q, up, foreign, t, merged);
    }
  }

  /** The recreate after a hot update whose claim gave up. */
  lemma FallBack(f: Faults, p: Plane, up: Roster, foreign: map<RouteKey, nat>, t: Tunnel, merged: Tunnel)
    requires Reliable(f, RouteReplace) && Reliable(f, LinkDelete) && !f(KeyLoad, p.kernel.calls)
    requires Owned(p, up - {t.id}, map[t.id := Claims(t.iface, RouteKeys(merged))], foreign)
    requires Configured(up, map[], t.id, t.iface, RouteKeys(t))
    requires merged.id == t.id && merged.iface == t.iface && RouteKeys(merged) !! foreign.Keys
    ensures var (q, ok) := RecreateTunnel(f, p, merged); Owned(q, Updated(up, q.kernel.links, t, merged, ok), map[], foreign)
  {
    var none: Roster := map[];
    var stale: Roster := map[t.id := Claims(t.iface, RouteKeys(merged))];
    DemotedIsConfigured(up, stale, t.id, t.iface, RouteKeys(t), RouteKeys(merged));
    hide Owned, Configured, Recreate;
    RecreateKeeps(f, p, up - {t.id}, stale, foreign, t.id, t.iface, merged.allowed, EffectiveMetric(merged.routeMetric));
    assert (up - {t.id}) - {t.id} == up - {t.id} && stale - {t.id} == none;
  }

  lemma DemotedIsConfigured(up: Roster, stale: Roster, id: string, iface: string, keys: set<RouteKey>, keys': set<RouteKey>)
    requires Configured(up, map[], id, iface, keys) && stale == map[id := Claims(iface, keys')]
    ensures Configured(up - {id}, stale, id, iface, keys')
  {
    assert up + map[] == up;
    var all := (up - {id}) + stale;
    assert forall j :: j in all ==> j == id || (j in up && all[j] == up[j]);
  }

  /** The plane after an update whose preflight check worked. */
  function MergedPlane(f: Faults, p: Plane, t: Tunnel, merged: Tunnel): (Plane, bool) {
    if t.enabled then UpdatePlane(f, p, t, merged) else (p, true)
  }

  lemma UpdateIs(f: Faults, w: World, id: string, u: Update, i: nat)
    requires Dependable(f) && FindTunnel(w.tunnels, id) == Some(i) && !f(Preflight, w.plane.kernel.calls)
    ensures var v := UpdateTunnel(f, w, id, u).0;
            var merged := ApplyUpdates(w.tunnels[i], u);
            var q := MergedPlane(f, Ticked(w).plane, w.tunnels[i], merged).0;
            var ok := MergedPlane(f, Ticked(w).plane, w.tunnels[i], merged).1;
            && UpdateTunnel(f, w, id, u).1 == ok
            && v.tunnels == (if ok then w.tunnels[i := merged] else w.tunnels)
            && v.disk == (if ok then v.tunnels else w.disk)
            && v.plane.owners == q.owners && v.plane.kernel.routes == q.kernel.routes
            && v.plane.kernel.links == q.kernel.links && v.plane.kernel.nextIf == q.kernel.nextIf
  {
    hide UpdatePlane, ApplyUpdates;
  }

  lemma UpdateNothing(f: Faults, w: World, id: string, u: Update)
    requires FindTunnel(w.tunnels, id).None? || f(Preflight, w.plane.kernel.calls)
    ensures var v := UpdateTunnel(f, w, id, u); !v.1 && (v.0 == w || v.0 == Ticked(w))
  {
    hide UpdatePlane, ApplyUpdates;
  }

  /** The kernel side of an update of a configured tunnel: its entry in the roster follows. */
  lemma MergedPlaneKeeps(f: Faults, w: World, foreign: map<RouteKey, nat>, id: string, u: Update, i: nat)
    requires Reliable(f, RouteReplace) && Reliable(f, LinkDelete)
    requires Settled(w, foreign) && SafeUpdate(f, w, foreign, id, u) && FindTunnel(w.tunnels, id) == Some(i) && !f(Preflight, w.plane.kernel.calls)
    ensures var t := w.tunnels[i];
            var merged := ApplyUpdates(t, u);
            var up := Up(w.tunnels, w.plane.kernel.links);
            var (q, ok) := MergedPlane(f, Ticked(w).plane, t, merged);
            && Owned(q, if !t.enabled then up else Updated(up, q.kernel.links, t, merged, ok), map[], foreign)
            && RouteKeys(merged) !! foreign.Keys
  {
    var up := Up(w.tunnels, w.plane.kernel.links);
    var t := w.tunnels[i];
    var merged := ApplyUpdates(t, u);
    MergedIs(t, u);
    UpAgrees(w.tunnels, w.plane.kernel.links);
    hide Owned, Up, Agrees, ApplyUpdates, UpdatePlane, RouteKeys;
    ConfiguredTunnel(w.tunnels, up, foreign, i);
    hide ValidConfig, Configured;
    OwnedExt(w.plane, Ticked(w).plane, up, map[], foreign);
    if t.enabled {
      DownHasNoLink(w, foreign, i);
      UpKeys(w.tunnels, up, i, id);
      UpdatePlaneKeeps(f, Ticked(w).plane, up, foreign, t, merged);
    }
  }

  lemma UpdateKeeps(f: Faults, w: World, foreign: map<RouteKey, nat>, id: string, u: Update)
    requires Dependable(f) && Settled(w, foreign) && SafeUpdate(f, w, foreign, id, u)
    ensures Settled(UpdateTunnel(f, w, id, u).0, foreign)
    ensures AllUp(w) && UpdateTunnel(f, w, id, u).1 ==> AllUp(UpdateTunnel(f, w, id, u).0)
  {
    hide Owned, AllUp, EnabledIn, Up, ApplyUpdates, ValidConfig, Agrees, MergedPlane, UpdateTunnel, SafeUpdate;
    AllUpListed(w, foreign);
    var i := FindTunnel(w.tunnels, id);
    var v := UpdateTunnel(f, w, id, u).0;
    var up := Up(w.tunnels, w.plane.kernel.links);
    UpAgrees(w.tunnels, w.plane.kernel.links);
    if i.None? || f(Preflight, w.plane.kernel.calls) {
      UpdateNothing(f, w, id, u);
      Settle(v, w.plane, up, foreign);
    } else {
      var t := w.tunnels[i.value];
      var merged := ApplyUpdates(t, u);
      MergedIs(t, u);
      MergedPlaneKeeps(f, w, foreign, id, u, i.value);
      UpdateIs(f, w, id, u, i.value);
      AgreesReplaced(w.tunnels, up, foreign, i.value, merged);
      if !t.enabled {
        NotUp(w.tunnels, up, i.value, id);
      }
      ConfiguredTunnel(w.tunnels, up, foreign, i.value);
      AgreesReplaced(w.tunnels, up, foreign, i.value, t);
      assert w.tunnels[i.value := t] == w.tunnels;
      hide FindTunnel, Configured, RouteKeys;
      var (p, ok) := MergedPlane(f, Ticked(w).plane, t, merged);
      Settle(v, p, if !t.enabled then up else Updated(up, p.kernel.links, t, merged, ok), foreign);
    }
  }

  /** The update takes the recreate path and finds the key. */
  predicate Recreates(f: Faults, p: Plane, t: Tunnel, merged: Tunnel) {
    if NeedsRecreate(t, merged) then !f(KeyLoad, p.kernel.calls)
    else f(PeerUpdate, p.kernel.calls) && !f(KeyLoad, p.kernel.calls + 1)
  }

  lemma RecreatesIs(f: Faults, p: Plane, t: Tunnel, merged: Tunnel) returns (c: Plane)
    requires Recreates(f, p, t, merged)
    ensures c.owners == p.owners && c.kernel.routes == p.kernel.routes && c.kernel.links == p.kernel.links && c.kernel.nextIf == p.kernel.nextIf
    ensures UpdatePlane(f, p, t, merged) == RecreateTunnel(f, c, merged) && !f(KeyLoad, c.kernel.calls)
  {
    hide RecreateTunnel;
    c := if NeedsRecreate(t, merged) then p else p.(kernel := Called(p.kernel));
  }

  /** An update that recreates a running tunnel keeps the invariant if and only if it drops none of the routes
      the tunnel holds, whether the recreate succeeds or not. */
  lemma UpdateExact(f: Faults, w: World, foreign: map<RouteKey, nat>, id: string, u: Update, i: nat)
    requires Dependable(f) && Settled(w, foreign) && FindTunnel(w.tunnels, id) == Some(i) && !f(Preflight, w.plane.kernel.calls)
    requires var t := w.tunnels[i];
             var merged := ApplyUpdates(t, u);
             && t.enabled && t.iface in w.plane.kernel.links && RouteKeys(merged) !! foreign.Keys
             && Recreates(f, Ticked(w).plane, t, merged)
    ensures Settled(UpdateTunnel(f, w, id, u).0, foreign) <==> RouteKeys(w.tunnels[i]) <= RouteKeys(ApplyUpdates(w.tunnels[i], u))
  {
    var t := w.tunnels[i];
    var merged := ApplyUpdates(t, u);
    if RouteKeys(t) <= RouteKeys(merged) {
      hide RouteKeys, Settled, UpdateTunnel, ApplyUpdates;
      assert SafeUpdate(f, w, foreign, id, u);
      UpdateKeeps(f, w, foreign, id, u);
    } else {
      var k :| k in RouteKeys(t) && k !in RouteKeys(merged);
      hide RouteKeys, UpdateTunnel, ApplyUpdates;
      UpdateLeavesEntry(f, w, foreign, id, u, i, k);
    }
  }

  lemma UpdateLeavesEntry(f: Faults, w: World, foreign: map<RouteKey, nat>, id: string, u: Update, i: nat, k: RouteKey)
    requires Dependable(f) && Settled(w, foreign) && FindTunnel(w.tunnels, id) == Some(i) && !f(Preflight, w.plane.kernel.calls)
    requires var t := w.tunnels[i];
             var merged := ApplyUpdates(t, u);
             && t.enabled && t.iface in w.plane.kernel.links && k in RouteKeys(t) && k !in RouteKeys(merged)
             && RouteKeys(merged) !! foreign.Keys && Recreates(f, Ticked(w).plane, t, merged)
    ensures !Settled(UpdateTunnel(f, w, id, u).0, foreign)
  {
    var t := w.tunnels[i];
    var merged := ApplyUpdates(t, u);
    MergedIs(t, u);
    hide ApplyUpdates;
    var up := Up(w.tunnels, w.plane.kernel.links);
    UpAgrees(w.tunnels, w.plane.kernel.links);
    DownHasNoLink(w, foreign, i);
    UpKeys(w.tunnels, up, i, id);
    UpdateIs(f, w, id, u, i);
    var c := RecreatesIs(f, Ticked(w).plane, t, merged);
    OwnedExt(w.plane, c, up, map[], foreign);
    LinkedAndPrefixed(c, up, map[], foreign);
    var v := UpdateTunnel(f, w, id, u).0;
    var up' := Up(v.tunnels, v.plane.kernel.links);
    var q := RecreateTunnel(f, c, merged).0;
    assert up[id].iface == t.iface;
    RecreateElsewhere(f, c, id, t.iface, merged.allowed, EffectiveMetric(merged.routeMetric), k);
    AgreesReplaced(w.tunnels, up, foreign, i, merged);
    assert id in up' ==> k !in up'[id].keys;
    hide Owned, Up, RouteKeys, UpdateTunnel, UpdatePlane, Recreate, FindTunnel, ValidConfig, Agrees;
    RecreateLeavesEntry(f, c, up, foreign, id, t.iface, merged.allowed, EffectiveMetric(merged.routeMetric), k, up');
    if Owned(v.plane, up', map[], foreign) {
      OwnedExt(v.plane, q, up', map[], foreign);
    }
  }

  /** Two rosters that both describe the owner lists agree on what a tunnel holds. */
  lemma SameHoldings(p: Plane, up: Roster, up': Roster, id: string)
    requires OwnersOk(p, up) && OwnersOk(p, up') && id in up && id in up'
    ensures up[id].keys == up'[id].keys
  {
    forall k
      ensures k in up[id].keys <==> k in up'[id].keys
    {
      if k in up[id].keys {
        assert Lists(p.owners, k, Owner(id, p.kernel.links[up[id].iface]));
      }
      if k in up'[id].keys {
        assert Lists(p.owners, k, Owner(id, p.kernel.links[up'[id].iface]));
      }
    }
  }

  /** An update whose kernel side succeeds and whose save fails puts the configuration back but not the kernel:
      the invariant survives if and only if the tunnel is disabled or its routes are the same. */
  lemma UpdateSaveFails(f: Faults, w: World, foreign: map<RouteKey, nat>, id: string, u: Update, i: nat)
    requires Reliable(f, RouteReplace) && Reliable(f, LinkDelete)
    requires Settled(w, foreign) && SafeUpdate(f, w, foreign, id, u) && FindTunnel(w.tunnels, id) == Some(i) && !f(Preflight, w.plane.kernel.calls)
    requires var (q, ok) := MergedPlane(f, Ticked(w).plane, w.tunnels[i], ApplyUpdates(w.tunnels[i], u)); ok && f(ConfigSave, q.kernel.calls)
    ensures var t := w.tunnels[i];
            Settled(UpdateTunnel(f, w, id, u).0, foreign) <==> !t.enabled || RouteKeys(ApplyUpdates(t, u)) == RouteKeys(t)
  {
    hide ApplyUpdates, MergedPlane, UpdateTunnel, SafeUpdate, ValidConfig, RouteKeys, Agrees, Owned, Up, FindTunnel, Reliable, EnabledIn;
    var t := w.tunnels[i];
    var merged := ApplyUpdates(t, u);
    var q := MergedPlane(f, Ticked(w).plane, t, merged).0;
    var v := UpdateTunnel(f, w, id, u).0;
    var up := Up(w.tunnels, w.plane.kernel.links);
    var up' := if !t.enabled then up else Updated(up, q.kernel.links, t, merged, true);
    MergedIs(t, u);
    MergedPlaneKeeps(f, w, foreign, id, u, i);
    SaveFailsIs(f, w, id, u, i);
    UpAgrees(w.tunnels, w.plane.kernel.links);
    if !t.enabled || RouteKeys(merged) == RouteKeys(t) {
      ConfiguredTunnel(w.tunnels, up, foreign, i);
      AgreesReplaced(w.tunnels, up, foreign, i, t);
      assert w.tunnels[i := t] == w.tunnels;
      Settle(v, q, up', foreign);
    } else if Settled(v, foreign) {
      OwnedExt(q, v.plane, up', map[], foreign);
      TwoRosters(v, up', foreign, i, id);
    }
  }

  /** An enabled tunnel that is up holds what it is configured to hold. */
  lemma TwoRosters(w: World, up: Roster, foreign: map<RouteKey, nat>, i: nat, id: string)
    requires Settled(w, foreign) && Owned(w.plane, up, map[], foreign) && id in up
    requires FindTunnel(w.tunnels, id) == Some(i) && w.tunnels[i].enabled && up[id].iface == w.tunnels[i].iface
    ensures up[id].keys == RouteKeys(w.tunnels[i])
  {
    hide RouteKeys, ValidConfig, RoutesOk;
    var t := w.tunnels[i];
    var up' := Up(w.tunnels, w.plane.kernel.links);
    LinkedAndPrefixed(w.plane, up, map[], foreign);
    assert t in w.tunnels && id in up' && up'[id] == ClaimOf(t);
    SameHoldings(w.plane, up, up', id);
  }

  lemma SaveFailsIs(f: Faults, w: World, id: string, u: Update, i: nat)
    requires FindTunnel(w.tunnels, id) == Some(i) && !f(Preflight, w.plane.kernel.calls)
    requires var (q, ok) := MergedPlane(f, Ticked(w).plane, w.tunnels[i], ApplyUpdates(w.tunnels[i], u)); ok && f(ConfigSave, q.kernel.calls)
    ensures var v := UpdateTunnel(f, w, id, u).0;
            var q := MergedPlane(f, Ticked(w).plane, w.tunnels[i], ApplyUpdates(w.tunnels[i], u)).0;
            && v.tunnels == w.tunnels && v.disk == w.disk && v.plane.owners == q.owners && v.plane.kernel.routes == q.kernel.routes
            && v.plane.kernel.links == q.kernel.links && v.plane.kernel.nextIf == q.kernel.nextIf
  {
    hide UpdatePlane, ApplyUpdates;
  }

  lemma UpKeys(ts: seq<Tunnel>, up: Roster, i: nat, id: string)
    requires Agrees(up, ts) && FindTunnel(ts, id) == Some(i)
    ensures id in up ==> up[id].keys == RouteKeys(ts[i])
  {
  }

  lemma MergedIs(t: Tunnel, u: Update)
    ensures var m := ApplyUpdates(t, u); m.id == t.id && m.iface == t.iface && m.enabled == t.enabled
  {
  }

  /** In a settled world a tunnel has a live interface exactly if it is up. */
  lemma DownHasNoLink(w: World, foreign: map<RouteKey, nat>, i: nat)
    requires Settled(w, foreign) && i < |w.tunnels|
    ensures var t := w.tunnels[i]; t.id in Up(w.tunnels, w.plane.kernel.links) <==> t.iface in w.plane.kernel.links
  {
    var t := w.tunnels[i];
    var up := Up(w.tunnels, w.plane.kernel.links);
    assert up + map[] == up;
    FindIs(w.tunnels, foreign, i);
    assert t in w.tunnels;
    if t.iface in w.plane.kernel.links {
      assert Belongs(up + map[], t.iface);
      var j :| j in up && up[j].iface == t.iface;
      assert FindTunnel(w.tunnels, j).value == i;
    }
  }

  /** On every error UpdateTunnel leaves the configuration, in memory and on disk, as it was; on success
      the tunnel has exactly the merged settings and nothing else changed. */
  lemma UpdateIsAtomicOnConfig(f: Faults, w: World, id: string, u: Update)
    ensures var (v, ok) := UpdateTunnel(f, w, id, u);
            && (!ok ==> v.tunnels == w.tunnels && v.disk == w.disk)
            && (ok ==> FindTunnel(w.tunnels, id).Some? && v.disk == v.tunnels
                       && v.tunnels == w.tunnels[FindTunnel(w.tunnels, id).value := ApplyUpdates(w.tunnels[FindTunnel(w.tunnels, id).value], u)])
  {
  }

  // ---------- recovery after a restart ----------

  predicate Orphan(n: string, ts: seq<Tunnel>) {
    Ours(n) && n !in IfaceNames(ts)
  }

  /** What a dead manager process may leave behind: any links of ours and any routes through them; the owner
      lists are lost. */
  ghost predicate Leftover(p: Plane, foreign: map<RouteKey, nat>) {
    && p.owners == map[]
    && Numbered(p.kernel)
    && (forall k :: k in p.kernel.routes ==> k.dst.Prefix?)
    && (forall k :: k in p.kernel.routes ==> k in foreign || ThroughOurs(p.kernel, k))
    && (forall k :: k in foreign ==> k in p.kernel.routes && p.kernel.routes[k] == foreign[k] && foreign[k] < p.kernel.nextIf)
    && (forall k, n :: k in foreign && n in p.kernel.links && Ours(n) ==> p.kernel.links[n] != foreign[k])
  }

  ghost predicate ThroughOurs(kernel: Kernel, k: RouteKey)
    requires k in kernel.routes
  {
    exists n :: n in kernel.links && Ours(n) && kernel.links[n] == kernel.routes[k]
  }

  /** The routes through an interface. */
  function Through(kernel: Kernel, iface: string): set<RouteKey> {
    set k | k in kernel.routes && iface in kernel.links && kernel.routes[k] == kernel.links[iface]
  }

  /** Tunnel m is enabled and claims the route. */
  predicate Claimant(ts: seq<Tunnel>, m: int, k: RouteKey) {
    0 <= m < |ts| && ts[m].enabled && k in RouteKeys(ts[m])
  }

  /** A route left on the interface of an enabled tunnel, and claimed by one restored before it, is among the
      tunnel's own. */
  ghost predicate NoneStranded(ts: seq<Tunnel>, kernel: Kernel) {
    forall m, i, k {:trigger Claimant(ts, m, k), ts[i]} :: 0 <= m < i < |ts| && ts[i].enabled && Claimant(ts, m, k) && k in Through(kernel, ts[i].iface) ==>
      k in RouteKeys(ts[i])
  }

  /** No link carries the interface name of a disabled tunnel. */
  ghost predicate NoDisabledLink(p: Plane, ts: seq<Tunnel>) {
    forall i :: 0 <= i < |ts| && !ts[i].enabled ==> ts[i].iface !in p.kernel.links
  }

  /** The kernel k' is k after deleting the links in gone. */
  ghost predicate Unlinked(k: Kernel, k': Kernel, gone: set<string>) {
    && k'.links == k.links - gone && k'.nextIf == k.nextIf
    && (forall r :: r in k'.routes ==> r in k.routes && k'.routes[r] == k.routes[r])
    && (forall r :: r in k.routes ==> (r !in k'.routes <==> exists n :: n in gone && n in k.links && k.links[n] == k.routes[r]))
  }

  lemma UnlinkMore(k: Kernel, k1: Kernel, k2: Kernel, gone: set<string>, n: string)
    requires Numbered(k) && Unlinked(k, k1, gone) && n in k1.links
    requires k2.links == k1.links - {n} && k2.nextIf == k1.nextIf
    requires k2.routes == map r | r in k1.routes && k1.routes[r] != k1.links[n] :: k1.routes[r]
    ensures Unlinked(k, k2, gone + {n})
  {
    forall r | r in k.routes
      ensures r !in k2.routes <==> exists m :: m in gone + {n} && m in k.links && k.links[m] == k.routes[r]
    {
      if r in k1.routes && k1.routes[r] == k1.links[n] {
        assert n in gone + {n} && n in k.links && k.links[n] == k.routes[r];
      }
      if exists m :: m in gone && m in k.links && k.links[m] == k.routes[r] {
        var m :| m in gone && m in k.links && k.links[m] == k.routes[r];
        assert m in gone + {n};
      }
      assert forall m :: m in gone + {n} ==> m in gone || m == n;
    }
  }

  lemma UnlinkedNumbered(k: Kernel, k': Kernel, gone: set<string>)
    requires Numbered(k) && Unlinked(k, k', gone)
    ensures Numbered(k') && OneToOne(k'.links)
  {
  }

  lemma {:induction false} OrphansRemoved(f: Faults, k: Kernel, k': Kernel, gone: set<string>, listing: seq<string>, configured: set<string>)
    requires Reliable(f, LinkDelete) && Numbered(k) && Unlinked(k, k', gone)
    ensures Unlinked(k, RemoveOrphans(f, k', listing, configured), gone + set n | n in listing && n !in configured && n in k.links)
    decreases |listing|
  {
    if listing == [] {
      assert gone + (set n | n in listing && n !in configured && n in k.links) == gone;
    } else {
      UnlinkedNumbered(k, k', gone);
      hide Numbered, DeleteLink;
      assert k'.links == k.links - gone;
      hide Unlinked;
      var n := listing[0];
      var more := set n | n in listing && n !in configured && n in k.links;
      var rest := set n | n in listing[1..] && n !in configured && n in k.links;
      assert listing == [n] + listing[1..];
      if n in configured || n !in k'.links {
        OrphansRemoved(f, k, k', gone, listing[1..], configured);
        assert gone + more == gone + rest;
      } else {
        UnlinkEffect(f, k', n);
        var k2 := DeleteLink(f, k', k'.links[n]).0;
        UnlinkMore(k, k', k2, gone, n);
        OrphansRemoved(f, k, k2, gone + {n}, listing[1..], configured);
        assert gone + {n} + rest == gone + more;
      }
    }
  }

  /** The enabled tunnels from position i on, with the routes a kernel had on their interfaces. */
  ghost function Pending(ts: seq<Tunnel>, i: nat, kernel: Kernel): Roster {
    map id | id in Ids(ts) && Enabled(ts, id) && FindTunnel(ts, id).value >= i ::
      Claims(ts[FindTunnel(ts, id).value].iface, Through(kernel, ts[FindTunnel(ts, id).value].iface))
  }

  /** The interfaces of ours, in whatever order the kernel lists them. */
  ghost predicate CoversOurs(listing: seq<string>, links: map<string, nat>) {
    forall n :: n in listing <==> n in links && Ours(n)
  }

  lemma PendingRoster(ts: seq<Tunnel>, foreign: map<RouteKey, nat>, i: nat, kernel: Kernel)
    requires ValidConfig(ts, foreign)
    ensures Apart(Pending(ts, i, kernel))
    ensures forall m :: i <= m < |ts| && ts[m].enabled ==>
              ts[m].id in Pending(ts, i, kernel) && Pending(ts, i, kernel)[ts[m].id] == Claims(ts[m].iface, Through(kernel, ts[m].iface))
  {
    hide Through, RouteKeys;
    forall m | i <= m < |ts| && ts[m].enabled
      ensures ts[m].id in Pending(ts, i, kernel) && Pending(ts, i, kernel)[ts[m].id] == Claims(ts[m].iface, Through(kernel, ts[m].iface))
    {
      FindIs(ts, foreign, m);
      assert ts[m] in ts;
    }
  }

  lemma SweepLinks(p: Plane, q: Plane, ts: seq<Tunnel>, foreign: map<RouteKey, nat>, gone: set<string>)
    requires ValidConfig(ts, foreign) && Numbered(p.kernel) && NoDisabledLink(p, ts)
    requires forall n :: n in gone <==> n in p.kernel.links && Orphan(n, ts)
    requires Unlinked(p.kernel, q.kernel, gone)
    ensures LinksOk(q, map[], Pending(ts, 0, p.kernel))
  {
    var stale := Pending(ts, 0, p.kernel);
    PendingRoster(ts, foreign, 0, p.kernel);
    hide Pending, RouteKeys, Through, Ours;
    assert map[] + stale == stale;
    forall n | n in q.kernel.links && Ours(n)
      ensures Belongs(stale, n)
    {
      var m := KeptLink(p, q, ts, gone, n);
      assert stale[ts[m].id].iface == n;
    }
  }

  lemma SweepRoutes(p: Plane, q: Plane, ts: seq<Tunnel>, foreign: map<RouteKey, nat>, gone: set<string>)
    requires ValidConfig(ts, foreign) && Leftover(p, foreign) && NoDisabledLink(p, ts)
    requires forall n :: n in gone <==> n in p.kernel.links && Orphan(n, ts)
    requires q.owners == p.owners && Unlinked(p.kernel, q.kernel, gone)
    ensures RoutesOk(q, Pending(ts, 0, p.kernel), foreign)
  {
    var stale := Pending(ts, 0, p.kernel);
    PendingRoster(ts, foreign, 0, p.kernel);
    hide Pending, RouteKeys, ValidConfig;
    forall k | k in q.kernel.routes
      ensures k in foreign || StaleAt(q.kernel.links, stale, k, q.kernel.routes[k])
    {
      if k !in foreign {
        var m := SurvivingRoute(p, q, ts, gone, k);
        assert stale[ts[m].id].iface == ts[m].iface;
      }
    }
    hide Through;
    forall k | k in foreign
      ensures k in q.kernel.routes
    {
      assert forall n :: n in gone && n in p.kernel.links ==> p.kernel.links[n] != p.kernel.routes[k];
    }
  }

  /** Sweeping the orphans leaves only stale interfaces of enabled tunnels, and routes through them. */
  lemma SweepKeeps(p: Plane, q: Plane, ts: seq<Tunnel>, foreign: map<RouteKey, nat>, gone: set<string>)
    requires ValidConfig(ts, foreign) && Leftover(p, foreign) && NoDisabledLink(p, ts)
    requires forall n :: n in gone <==> n in p.kernel.links && Orphan(n, ts)
    requires q.owners == p.owners && Unlinked(p.kernel, q.kernel, gone)
    ensures Owned(q, map[], Pending(ts, 0, p.kernel), foreign)
  {
    SweepLinks(p, q, ts, foreign, gone);
    SweepRoutes(p, q, ts, foreign, gone);
    hide LinksOk, RoutesOk, Pending, ValidConfig, Unlinked, NoDisabledLink, Orphan;
  }

  /** A link of ours that survives the sweep is an enabled tunnel's. */
  lemma KeptLink(p: Plane, q: Plane, ts: seq<Tunnel>, gone: set<string>, n: string) returns (m: nat)
    requires NoDisabledLink(p, ts) && Unlinked(p.kernel, q.kernel, gone)
    requires forall n :: n in gone <==> n in p.kernel.links && Orphan(n, ts)
    requires n in q.kernel.links && Ours(n)
    ensures m < |ts| && ts[m].enabled && ts[m].iface == n
  {
    assert n in IfaceNames(ts);
    var t :| t in ts && t.iface == n;
    m :| 0 <= m < |ts| && ts[m] == t;
  }

  /** A route that survives the sweep goes through the interface of an enabled tunnel. */
  lemma SurvivingRoute(p: Plane, q: Plane, ts: seq<Tunnel>, gone: set<string>, k: RouteKey) returns (m: nat)
    requires NoDisabledLink(p, ts) && Unlinked(p.kernel, q.kernel, gone)
    requires forall n :: n in gone <==> n in p.kernel.links && Orphan(n, ts)
    requires k in q.kernel.routes && ThroughOurs(p.kernel, k)
    ensures m < |ts| && ts[m].enabled && k in Through(p.kernel, ts[m].iface)
    ensures ts[m].iface in q.kernel.links && q.kernel.links[ts[m].iface] == q.kernel.routes[k]
  {
    var n :| n in p.kernel.links && Ours(n) && p.kernel.links[n] == p.kernel.routes[k];
    assert n !in gone;
    m := KeptLink(p, q, ts, gone, n);
  }

  /** A tunnel is the only one with its interface among those up and those pending, and no other one that is
      up claims what else is on it. */
  lemma PendingIsConfigured(ts: seq<Tunnel>, up: Roster, foreign: map<RouteKey, nat>, i: nat, kernel: Kernel)
    requires ValidConfig(ts, foreign) && Agrees(up, ts) && i < |ts| && ts[i].enabled && Before(ts, up, i) && NoneStranded(ts, kernel)
    ensures Configured(up, Pending(ts, i, kernel), ts[i].id, ts[i].iface, RouteKeys(ts[i]))
  {
    var stale := Pending(ts, i, kernel);
    PendingRoster(ts, foreign, i, kernel);
    FindIs(ts, foreign, i);
    hide RouteKeys, Through;
    forall j | j in up + stale && (up + stale)[j].iface == ts[i].iface
      ensures j == ts[i].id
    {
      var m := FindTunnel(ts, j).value;
      assert ts[m].iface == ts[i].iface;
      assert m == i;
    }
    forall j, k | j in up && j != ts[i].id && k in up[j].keys && k in stale[ts[i].id].keys
      ensures k in RouteKeys(ts[i])
    {
      var m := FindTunnel(ts, j).value;
      assert Claimant(ts, m, k);
    }
  }

  lemma PendingMinus(ts: seq<Tunnel>, foreign: map<RouteKey, nat>, i: nat, kernel: Kernel)
    requires ValidConfig(ts, foreign) && i < |ts|
    ensures Pending(ts, i, kernel) - {ts[i].id} == Pending(ts, i + 1, kernel)
  {
    hide RouteKeys, Through;
    FindIs(ts, foreign, i);
    var stale := Pending(ts, i, kernel);
    forall id | id in stale && id != ts[i].id
      ensures FindTunnel(ts, id).value >= i + 1
    {
      assert FindTunnel(ts, id).value != i;
    }
  }

  lemma PendingEnd(ts: seq<Tunnel>, kernel: Kernel)
    ensures Pending(ts, |ts|, kernel) == map[]
  {
  }

  lemma PendingNext(ts: seq<Tunnel>, foreign: map<RouteKey, nat>, i: nat, kernel: Kernel)
    requires ValidConfig(ts, foreign) && i < |ts| && !ts[i].enabled
    ensures Pending(ts, i, kernel) == Pending(ts, i + 1, kernel)
  {
    hide RouteKeys, Through;
    forall id | id in Pending(ts, i, kernel)
      ensures FindTunnel(ts, id).value != i
    {
    }
  }

  lemma AgreesMore(ts: seq<Tunnel>, up: Roster, foreign: map<RouteKey, nat>, i: nat)
    requires ValidConfig(ts, foreign) && Agrees(up, ts) && i < |ts| && ts[i].enabled
    ensures Agrees(up[ts[i].id := ClaimOf(ts[i])], ts)
    ensures FindTunnel(ts, ts[i].id) == Some(i)
  {
    FindIs(ts, foreign, i);
  }

  ghost predicate Before(ts: seq<Tunnel>, up: Roster, i: nat) {
    forall id :: id in up ==> FindTunnel(ts, id).Some? && FindTunnel(ts, id).value < i
  }

  /** Restoring the tunnels from position i on, in order. Returns those that are up at the end. */
  lemma {:induction false} RestoreEachKeeps(f: Faults, p: Plane, ts: seq<Tunnel>, i: nat, up: Roster, foreign: map<RouteKey, nat>, kernel: Kernel) returns (up': Roster)
    requires Reliable(f, RouteReplace) && Reliable(f, LinkDelete) && Reliable(f, KeyLoad)
    requires ValidConfig(ts, foreign) && Agrees(up, ts) && i <= |ts| && Before(ts, up, i) && NoneStranded(ts, kernel)
    requires Owned(p, up, Pending(ts, i, kernel), foreign)
    ensures var (q, ok) := RestoreEach(f, p, ts[i..]);
            && Owned(q, up', map[], foreign) && Agrees(up', ts) && up.Keys <= up'.Keys
            && (ok ==> forall m :: i <= m < |ts| && ts[m].enabled ==> ts[m].id in up')
    decreases |ts| - i
  {
    hide Owned, Pending, LoadAndBringUpTunnel, Agrees, ValidConfig, FindTunnel, ClaimOf, NoneStranded;
    if i == |ts| {
      PendingEnd(ts, kernel);
      up' := up;
    } else {
      var t := ts[i];
      assert ts[i..][0] == t && ts[i..][1..] == ts[i + 1..];
      if t.enabled {
        var (q, ok) := LoadAndBringUpTunnel(f, p, t);
        AgreesMore(ts, up, foreign, i);
        RestoreOne(f, p, ts, i, up, foreign, kernel);
        var up1 := if ok then up[t.id := ClaimOf(t)] else up;
        up' := RestoreEachKeeps(f, q, ts, i + 1, up1, foreign, kernel);
      } else {
        PendingNext(ts, foreign, i, kernel);
        up' := RestoreEachKeeps(f, p, ts, i + 1, up, foreign, kernel);
      }
    }
  }

  lemma RestoreOne(f: Faults, p: Plane, ts: seq<Tunnel>, i: nat, up: Roster, foreign: map<RouteKey, nat>, kernel: Kernel)
    requires Reliable(f, RouteReplace) && Reliable(f, LinkDelete)
    requires ValidConfig(ts, foreign) && Agrees(up, ts) && i < |ts| && ts[i].enabled && ts[i].id !in up
    requires Before(ts, up, i) && NoneStranded(ts, kernel)
    requires Owned(p, up, Pending(ts, i, kernel), foreign) && !f(KeyLoad, p.kernel.calls)
    ensures var (q, ok) := LoadAndBringUpTunnel(f, p, ts[i]);
            && (ok ==> Owned(q, up[ts[i].id := ClaimOf(ts[i])], Pending(ts, i + 1, kernel), foreign))
            && (!ok ==> Owned(q, up, Pending(ts, i + 1, kernel), foreign))
  {
    hide Owned, Pending, Agrees, NoneStranded, Before, Configured, BringUp, Keys, Reliable, FindTunnel, Parseable;
    var t := ts[i];
    assert RouteKeys(t) !! foreign.Keys;
    hide ValidConfig;
    PendingIsConfigured(ts, up, foreign, i, kernel);
    PendingMinus(ts, foreign, i, kernel);
    assert up - {t.id} == up;
    var c := p.(kernel := Called(p.kernel));
    OwnedExt(p, c, up, Pending(ts, i, kernel), foreign);
    BringUpKeeps(f, c, up, Pending(ts, i, kernel), foreign, t.id, t.iface, t.allowed, EffectiveMetric(t.routeMetric));
  }

  /** After a restart from any leftover links of ours and routes through them, in every tunnel order and
      whichever bring-ups fail, the ownership invariant holds again, provided no link of a disabled
      tunnel is left and no route is stranded; if RestoreAll reports no error every enabled tunnel is up.
      The private keys must be readable. */
  lemma RestoreHeals(f: Faults, w: World, listing: seq<string>, foreign: map<RouteKey, nat>)
    requires Reliable(f, RouteReplace) && Reliable(f, LinkDelete) && Reliable(f, KeyLoad)
    requires w.disk == w.tunnels && ValidConfig(w.tunnels, foreign)
    requires Leftover(w.plane, foreign) && CoversOurs(listing, w.plane.kernel.links)
    requires NoDisabledLink(w.plane, w.tunnels) && NoneStranded(w.tunnels, w.plane.kernel)
    ensures var (v, ok) := RestoreAll(f, w, listing);
            && Settled(v, foreign)
            && (ok ==> AllUp(v))
  {
    var ts := w.tunnels;
    var swept := w.plane.(kernel := RemoveOrphans(f, w.plane.kernel, listing, IfaceNames(ts)));
    var gone := Sweep(f, w, listing);
    SweepKeeps(w.plane, swept, ts, foreign, gone);
    hide Owned, Pending, RemoveOrphans, Leftover, Unlinked, NoneStranded, NoDisabledLink;
    assert ts[0..] == ts;
    var up' := RestoreEachKeeps(f, swept, ts, 0, map[], foreign, w.plane.kernel);
    hide RestoreEach, FindTunnel, ClaimOf, RouteKeys;
    var (v, ok) := RestoreAll(f, w, listing);
    Settle(v, v.plane, up', foreign);
    LinkedAndPrefixed(v.plane, up', map[], foreign);
    if ok {
      assert EnabledIn(ts, up');
    }
  }

  /** The links the sweep removes. */
  lemma Sweep(f: Faults, w: World, listing: seq<string>) returns (gone: set<string>)
    requires Reliable(f, LinkDelete) && Numbered(w.plane.kernel) && CoversOurs(listing, w.plane.kernel.links)
    ensures forall n :: n in gone <==> n in w.plane.kernel.links && Orphan(n, w.tunnels)
    ensures Unlinked(w.plane.kernel, RemoveOrphans(f, w.plane.kernel, listing, IfaceNames(w.tunnels)), gone)
  {
    var k := w.plane.kernel;
    gone := set n | n in listing && n !in IfaceNames(w.tunnels) && n in k.links;
    assert Unlinked(k, k, {}) by {
      assert k.links - {} == k.links;
    }
    OrphansRemoved(f, k, k, {}, listing, IfaceNames(w.tunnels));
    assert {} + gone == gone;
  }

  lemma {:induction false} ReleaseSameLinks(f: Faults, p: Plane, id: string, ix: nat, cidrs: seq<Cidr>, metric: nat)
    ensures SameLinks(p, Release(f, p, id, ix, cidrs, metric))
    decreases |cidrs|
  {
    if cidrs != [] {
      ReleaseSameLinks(f, ReleaseCidr(f, p, id, ix, cidrs[0], metric), id, ix, cidrs[1..], metric);
    }
  }

  /** Link n is there, and names and indexes are one to one. */
  ghost predicate HasLink(k: Kernel, n: string) {
    Numbered(k) && n in k.links
  }

  /** Link n is there, with an index other than ix. */
  ghost predicate Spares(k: Kernel, n: string, ix: nat) {
    HasLink(k, n) && k.links[n] != ix
  }

  lemma DeleteOtherLink(f: Faults, k: Kernel, n: string, ix: nat)
    requires Spares(k, n, ix)
    ensures HasLink(DeleteLink(f, k, ix).0, n)
  {
  }

  lemma CreateOtherLink(f: Faults, k: Kernel, n: string, name: string)
    requires HasLink(k, n)
    ensures HasLink(CreateLink(f, k, name).0, n)
    ensures CreateLink(f, k, name).1.Some? ==> Spares(Called(CreateLink(f, k, name).0), n, CreateLink(f, k, name).1.value)
  {
  }

  lemma SameLinksSpares(p: Plane, q: Plane, n: string, ix: nat)
    requires SameLinks(p, q) && Spares(p.kernel, n, ix)
    ensures HasLink(q.kernel, n) && Spares(q.kernel, n, ix)
  {
  }

  /** Cleaning up one interface never touches another one's link. */
  lemma CleanupOther(f: Faults, p: Plane, t: Tunnel, n: string)
    requires HasLink(p.kernel, n) && n != t.iface
    ensures HasLink(Cleanup(f, p, t.id, t.iface, t.allowed, EffectiveMetric(t.routeMetric)).0.kernel, n)
  {
    if t.iface in p.kernel.links {
      var ix := p.kernel.links[t.iface];
      var metric := EffectiveMetric(t.routeMetric);
      ReleaseSameLinks(f, p, t.id, ix, t.allowed, metric);
      var mid := Release(f, p, t.id, ix, t.allowed, metric).kernel;
      DeleteOtherLink(f, mid, n, ix);
      var k := DeleteLink(f, mid, ix).0;
      if t.iface in k.links {
        assert Spares(Called(k), n, k.links[t.iface]);
        DeleteOtherLink(f, Called(k), n, k.links[t.iface]);
      }
    }
  }

  /** Bringing up one tunnel never touches another interface's link. */
  lemma BringUpOther(f: Faults, p: Plane, t: Tunnel, n: string)
    requires HasLink(p.kernel, n) && n != t.iface
    ensures HasLink(LoadAndBringUpTunnel(f, p, t).0.kernel, n)
  {
    var metric := EffectiveMetric(t.routeMetric);
    var c := p.(kernel := Called(p.kernel));
    assert HasLink(c.kernel, n);
    CleanupOther(f, c, t, n);
    var q := Cleanup(f, c, t.id, t.iface, t.allowed, metric).0;
    var kernel, created := CreateLink(f, q.kernel, t.iface).0, CreateLink(f, q.kernel, t.iface).1;
    BringUpEnds(f, c, t.id, t.iface, t.allowed, metric);
    hide Cleanup, Claim, DeleteLink, CreateLink, HasLink, Spares, EffectiveMetric, SameLinks, BringUp;
    CreateOtherLink(f, q.kernel, n, t.iface);
    if created.Some? {
      var ix := created.value;
      DeleteOtherLink(f, Called(kernel), n, ix);
      var linked := q.(kernel := Called(kernel));
      ClaimSameLinks(f, linked, t.id, ix, t.allowed, metric, []);
      var r := Claim(f, linked, t.id, ix, t.allowed, metric, []).0;
      SameLinksSpares(linked, r, n, ix);
      DeleteOtherLink(f, r.kernel, n, ix);
    }
  }

  lemma {:induction false} RestoreEachOther(f: Faults, p: Plane, ts: seq<Tunnel>, n: string)
    requires HasLink(p.kernel, n) && forall t :: t in ts && t.enabled ==> t.iface != n
    ensures HasLink(RestoreEach(f, p, ts).0.kernel, n)
    decreases |ts|
  {
    if ts != [] {
      assert ts[0] in ts && forall t :: t in ts[1..] ==> t in ts;
      if ts[0].enabled {
        BringUpOther(f, p, ts[0], n);
        RestoreEachOther(f, LoadAndBringUpTunnel(f, p, ts[0]).0, ts[1..], n);
      } else {
        RestoreEachOther(f, p, ts[1..], n);
      }
    }
  }

  lemma {:induction false} RemoveOrphansOther(f: Faults, k: Kernel, listing: seq<string>, configured: set<string>, n: string)
    requires HasLink(k, n) && n in configured
    ensures HasLink(RemoveOrphans(f, k, listing, configured), n)
    decreases |listing|
  {
    if listing != [] {
      var m := listing[0];
      if m in configured || m !in k.links {
        RemoveOrphansOther(f, k, listing[1..], configured, n);
      } else {
        DeleteOtherLink(f, k, n, k.links[m]);
        RemoveOrphansOther(f, DeleteLink(f, k, k.links[m]).0, listing[1..], configured, n);
      }
    }
  }

  /** A link of a disabled tunnel is neither an orphan nor restored, and stays. */
  lemma DisabledLinkStays(f: Faults, w: World, listing: seq<string>, foreign: map<RouteKey, nat>, i: nat)
    requires ValidConfig(w.tunnels, foreign) && Numbered(w.plane.kernel)
    requires i < |w.tunnels| && !w.tunnels[i].enabled && w.tunnels[i].iface in w.plane.kernel.links
    ensures !Settled(RestoreAll(f, w, listing).0, foreign)
  {
    var ts := w.tunnels;
    var n := ts[i].iface;
    assert ts[i] in ts && n in IfaceNames(ts);
    RemoveOrphansOther(f, w.plane.kernel, listing, IfaceNames(ts), n);
    var swept := w.plane.(kernel := RemoveOrphans(f, w.plane.kernel, listing, IfaceNames(ts)));
    RestoreEachOther(f, swept, ts, n);
    hide RestoreEach, RemoveOrphans;
    var v := RestoreAll(f, w, listing).0;
    assert n in v.plane.kernel.links;
    if Settled(v, foreign) {
      DownHasNoLink(v, foreign, i);
      FindIs(ts, foreign, i);
    }
  }

  /** Whatever the roster, a process that dies in an owned plane leaves links of ours and routes through them. */
  lemma DeathLeavesLeftover(p: Plane, up: Roster, foreign: map<RouteKey, nat>)
    requires Owned(p, up, map[], foreign)
    ensures Leftover(p.(owners := map[]), foreign)
  {
    assert up + map[] == up;
    forall k | k in p.kernel.routes && k !in foreign
      ensures ThroughOurs(p.kernel, k)
    {
      OwnedMeaning(p, up, foreign, k);
      var id :| id in up && k in up[id].keys && up[id].iface in p.kernel.links && p.kernel.links[up[id].iface] == p.kernel.routes[k];
      assert Ours(up[id].iface);
    }
  }

  /** A manager killed between requests leaves only what RestoreAll heals. */
  lemma CrashLeavesLeftover(w: World, foreign: map<RouteKey, nat>)
    requires Settled(w, foreign)
    ensures Leftover(w.plane.(owners := map[]), foreign)
    ensures NoDisabledLink(w.plane.(owners := map[]), w.tunnels) && NoneStranded(w.tunnels, w.plane.kernel)
  {
    var p := w.plane;
    var ts := w.tunnels;
    var up := Up(ts, p.kernel.links);
    DeathLeavesLeftover(p, up, foreign);
    UpAgrees(ts, p.kernel.links);
    hide Up, RouteKeys, Leftover;
    forall i | 0 <= i < |ts| && !ts[i].enabled
      ensures ts[i].iface !in p.kernel.links
    {
      DownHasNoLink(w, foreign, i);
      FindIs(ts, foreign, i);
    }
    forall m, i, k | 0 <= m < i < |ts| && ts[i].enabled && Claimant(ts, m, k) && k in Through(p.kernel, ts[i].iface)
      ensures k in RouteKeys(ts[i])
    {
      OwnRouteOnLink(w, foreign, i, m, k);
    }
  }

  /** In a settled world the route on a tunnel's link is its own. */
  lemma OwnRouteOnLink(w: World, foreign: map<RouteKey, nat>, i: nat, m: nat, k: RouteKey)
    requires Settled(w, foreign) && i < |w.tunnels| && Claimant(w.tunnels, m, k) && k in Through(w.plane.kernel, w.tunnels[i].iface)
    ensures k in RouteKeys(w.tunnels[i])
  {
    var ts := w.tunnels;
    SettledMeaning(w, foreign, k);
    assert RouteKeys(ts[m]) !! foreign.Keys;
    var j :| 0 <= j < |ts| && ts[j].enabled && k in RouteKeys(ts[j]) && ts[j].iface in w.plane.kernel.links
             && w.plane.kernel.links[ts[j].iface] == w.plane.kernel.routes[k];
    assert ts[j].iface == ts[i].iface;
    assert j == i;
  }

  // ---------- every run ----------

  /** What a request must satisfy for the invariant: fresh identifiers, no claim on a foreign route, no
      update that recreates a running tunnel with fewer routes, keys readable at a restart. */
  ghost predicate Admitted(f: Faults, w: World, foreign: map<RouteKey, nat>, r: Request) {
    match r
    case CreateReq(t, id) => id !in Ids(w.tunnels) && RouteKeys(Prepared(w, t, id)) !! foreign.Keys
    case EnableReq(_) => true
    case DisableReq(_) => true
    case DeleteReq(_) => true
    case UpdateReq(id, u) => SafeUpdate(f, w, foreign, id, u)
    case RestartReq(listing) => Reliable(f, KeyLoad) && CoversOurs(listing, w.plane.kernel.links)
  }

  ghost predicate AllAdmitted(f: Faults, w: World, foreign: map<RouteKey, nat>, rs: seq<Request>)
    decreases |rs|
  {
    rs != [] ==> Admitted(f, w, foreign, rs[0]) && AllAdmitted(f, Step(f, w, rs[0]), foreign, rs[1..])
  }

  /** Updates and restarts report success; the other requests may fail. */
  predicate Succeeds(f: Faults, w: World, r: Request) {
    match r
    case UpdateReq(id, u) => UpdateTunnel(f, w, id, u).1
    case RestartReq(listing) => Restart(f, w, listing).1
    case _ => true
  }

  predicate AllSucceed(f: Faults, w: World, rs: seq<Request>)
    decreases |rs|
  {
    rs != [] ==> Succeeds(f, w, rs[0]) && AllSucceed(f, Step(f, w, rs[0]), rs[1..])
  }

  lemma StepKeeps(f: Faults, w: World, foreign: map<RouteKey, nat>, r: Request)
    requires Dependable(f) && Settled(w, foreign) && Admitted(f, w, foreign, r)
    ensures Settled(Step(f, w, r), foreign)
    ensures AllUp(w) && Succeeds(f, w, r) ==> AllUp(Step(f, w, r))
  {
    hide Settled, Create, Enable, Disable, Delete, UpdateTunnel, RestoreAll, Dependable, AllUp;
    match r
    case CreateReq(t, id) => CreateKeeps(f, w, foreign, t, id);
    case EnableReq(id) => EnableKeeps(f, w, foreign, id);
    case DisableReq(id) => DisableKeeps(f, w, foreign, id);
    case DeleteReq(id) => DeleteKeeps(f, w, foreign, id);
    case UpdateReq(id, u) => UpdateKeeps(f, w, foreign, id, u);
    case RestartReq(listing) => RestartKeeps(f, w, foreign, listing);
  }

  lemma RestartKeeps(f: Faults, w: World, foreign: map<RouteKey, nat>, listing: seq<string>)
    requires Dependable(f) && Reliable(f, KeyLoad) && Settled(w, foreign) && CoversOurs(listing, w.plane.kernel.links)
    ensures Settled(Restart(f, w, listing).0, foreign)
    ensures Restart(f, w, listing).1 ==> AllUp(Restart(f, w, listing).0)
  {
    CrashLeavesLeftover(w, foreign);
    RestoreHeals(f, World(w.disk, w.disk, w.plane.(owners := map[])), listing, foreign);
  }

  /** Over every run of requests and restarts, with kernel calls failing at any point: a route is in the
      kernel exactly when an enabled tunnel with a live interface claims it or it is foreign; a
      claimed route goes through the live interface of one of its claimants; foreign routes are
      never touched. */
  lemma {:induction false} RunKeepsOwnership(f: Faults, w: World, foreign: map<RouteKey, nat>, rs: seq<Request>, k: RouteKey)
    requires Dependable(f) && Settled(w, foreign) && AllAdmitted(f, w, foreign, rs)
    ensures var v := Run(f, w, rs);
            var routes := v.plane.kernel.routes;
            var links := v.plane.kernel.links;
            && Settled(v, foreign)
            && (k in routes <==> k in foreign || exists i :: 0 <= i < |v.tunnels| && v.tunnels[i].enabled
                                                    && v.tunnels[i].iface in links && k in RouteKeys(v.tunnels[i]))
            && (k in routes && k !in foreign ==> exists i :: 0 <= i < |v.tunnels| && v.tunnels[i].enabled && k in RouteKeys(v.tunnels[i])
                                                    && v.tunnels[i].iface in links && links[v.tunnels[i].iface] == routes[k])
            && (k in foreign ==> k in routes && routes[k] == foreign[k])
    decreases |rs|
  {
    hide Settled, Step;
    if rs == [] {
      SettledMeaning(w, foreign, k);
    } else {
      StepKeeps(f, w, foreign, rs[0]);
      RunKeepsOwnership(f, Step(f, w, rs[0]), foreign, rs[1..], k);
    }
  }

  /** Creates, enables, disables and deletes, failing or not, and updates and restarts that succeed leave
      every enabled tunnel with a live interface: along such a run the claimants of a route are
      exactly the enabled tunnels that list it. */
  lemma {:induction false} RunKeepsAllUp(f: Faults, w: World, foreign: map<RouteKey, nat>, rs: seq<Request>, k: RouteKey)
    requires Dependable(f) && Settled(w, foreign) && AllAdmitted(f, w, foreign, rs)
    requires AllUp(w) && AllSucceed(f, w, rs)
    ensures var v := Run(f, w, rs);
            && AllUp(v)
            && (k in v.plane.kernel.routes <==>
                  k in foreign || exists i :: 0 <= i < |v.tunnels| && v.tunnels[i].enabled && k in RouteKeys(v.tunnels[i]))
    decreases |rs|
  {
    if rs == [] {
      SettledMeaning(w, foreign, k);
    } else {
      hide Settled, Step, AllUp, Succeeds;
      StepKeeps(f, w, foreign, rs[0]);
      RunKeepsAllUp(f, Step(f, w, rs[0]), foreign, rs[1..], k);
    }
  }

  lemma SettledMeaning(w: World, foreign: map<RouteKey, nat>, k: RouteKey)
    requires Settled(w, foreign)
    ensures var routes := w.plane.kernel.routes;
            var links := w.plane.kernel.links;
            && (k in routes <==> k in foreign || exists i :: 0 <= i < |w.tunnels| && w.tunnels[i].enabled
                                                    && w.tunnels[i].iface in links && k in RouteKeys(w.tunnels[i]))
            && (k in routes && k !in foreign ==> exists i :: 0 <= i < |w.tunnels| && w.tunnels[i].enabled && k in RouteKeys(w.tunnels[i])
                                                    && w.tunnels[i].iface in links && links[w.tunnels[i].iface] == routes[k])
            && (k in foreign ==> k in routes && routes[k] == foreign[k])
  {
    var ts := w.tunnels;
    var links := w.plane.kernel.links;
    var up := Up(ts, links);
    UpAgrees(ts, links);
    OwnedMeaning(w.plane, up, foreign, k);
    hide Owned, Up;
    forall i | 0 <= i < |ts| && ts[i].iface in links && ts[i].enabled
      ensures ts[i].id in up && up[ts[i].id].keys == RouteKeys(ts[i])
    {
      DownHasNoLink(w, foreign, i);
      FindIs(ts, foreign, i);
    }
    if k in w.plane.kernel.routes && k !in foreign {
      var id :| id in up && k in up[id].keys && up[id].iface in links && links[up[id].iface] == w.plane.kernel.routes[k];
      var i := FindTunnel(ts, id).value;
      assert ts[i].enabled && ts[i].iface == up[id].iface && k in RouteKeys(ts[i]);
    }
  }

  // ---------- interface names ----------

  ghost predicate NamesDistinct(ts: seq<Tunnel>) {
    forall i, j :: 0 <= i < j < |ts| ==> ts[i].iface != ts[j].iface
  }

  lemma CreateNames(f: Faults, w: World, req: Tunnel, id: string)
    requires NamesDistinct(w.tunnels) && NamesDistinct(w.disk)
    ensures var v := Create(f, w, req, id).0; NamesDistinct(v.tunnels) && NamesDistinct(v.disk)
  {
    FreshName(w.tunnels);
    hide BringUpTunnel, TearDownTunnel;
    var ts := w.tunnels + [Prepared(w, req, id)];
    forall i, j | 0 <= i < j < |ts|
      ensures ts[i].iface != ts[j].iface
    {
      assert ts[i] in w.tunnels;
    }
  }

  lemma DeleteNames(f: Faults, w: World, id: string)
    requires NamesDistinct(w.tunnels) && NamesDistinct(w.disk)
    ensures var v := Delete(f, w, id).0; NamesDistinct(v.tunnels) && NamesDistinct(v.disk)
  {
    hide LoadAndBringUpTunnel, TearDownTunnel;
    var i := FindTunnel(w.tunnels, id);
    if i.Some? {
      var ts := w.tunnels[..i.value] + w.tunnels[i.value + 1..];
      assert forall m :: 0 <= m < |ts| ==> ts[m] == w.tunnels[if m < i.value then m else m + 1];
    }
  }

  lemma UpdateNames(f: Faults, w: World, id: string, u: Update)
    requires NamesDistinct(w.tunnels) && NamesDistinct(w.disk)
    ensures var v := UpdateTunnel(f, w, id, u).0; NamesDistinct(v.tunnels) && NamesDistinct(v.disk)
  {
    hide UpdatePlane;
  }

  lemma ToggleNames(f: Faults, w: World, id: string)
    requires NamesDistinct(w.tunnels) && NamesDistinct(w.disk)
    ensures var v := Enable(f, w, id).0; NamesDistinct(v.tunnels) && NamesDistinct(v.disk)
    ensures var v := Disable(f, w, id).0; NamesDistinct(v.tunnels) && NamesDistinct(v.disk)
  {
    hide LoadAndBringUpTunnel, TearDownTunnel;
  }

  /** Interface names stay pairwise distinct over every run, whatever fails. */
  lemma {:induction false} RunKeepsNamesDistinct(f: Faults, w: World, rs: seq<Request>)
    requires NamesDistinct(w.tunnels) && NamesDistinct(w.disk)
    ensures NamesDistinct(Run(f, w, rs).tunnels) && NamesDistinct(Run(f, w, rs).disk)
    decreases |rs|
  {
    if rs != [] {
      hide Create, Enable, Disable, Delete, UpdateTunnel, NamesDistinct, RestoreEach, RemoveOrphans;
      match rs[0] {
        case CreateReq(t, id) => CreateNames(f, w, t, id);
        case EnableReq(id) => ToggleNames(f, w, id);
        case DisableReq(id) => ToggleNames(f, w, id);
        case DeleteReq(id) => DeleteNames(f, w, id);
        case UpdateReq(id, u) => UpdateNames(f, w, id, u);
        case RestartReq(_) =>
      }
      RunKeepsNamesDistinct(f, Step(f, w, rs[0]), rs[1..]);
    }
  }
}
