/** A manager that dies inside a request, after its kernel side and before its save: what is left, and whether
    the next start heals it. The disk still has the configuration from before the request. */
module Crash {
  import opened Text
  import opened Routes
  import opened Ownership
  import opened Tunnels
  import opened Recovery

  /** The plane when a request is about to save, or has given up before that. */
  function KernelSide(f: Faults, w: World, r: Request): Plane {
    match r
    case CreateReq(req, id) =>
      if req.name == "" || req.listenPort == 0 || req.address == "" then w.plane
      else if f(Preflight, w.plane.kernel.calls) then Ticked(w).plane
      else BringUpTunnel(f, Ticked(w).plane, Prepared(w, req, id)).0
    case EnableReq(id) =>
      var i := FindTunnel(w.tunnels, id);
      if i.None? || w.tunnels[i.value].enabled then w.plane else LoadAndBringUpTunnel(f, w.plane, w.tunnels[i.value]).0
    case DisableReq(id) =>
      var i := FindTunnel(w.tunnels, id);
      if i.None? then w.plane else DownPlane(f, w.plane, w.tunnels[i.value]).0
    case DeleteReq(id) =>
      var i := FindTunnel(w.tunnels, id);
      if i.None? then w.plane else DownPlane(f, w.plane, w.tunnels[i.value]).0
    case UpdateReq(id, u) =>
      var i := FindTunnel(w.tunnels, id);
      if i.None? then w.plane
      else if f(Preflight, w.plane.kernel.calls) then Ticked(w).plane
      else MergedPlane(f, Ticked(w).plane, w.tunnels[i.value], ApplyUpdates(w.tunnels[i.value], u)).0
    case RestartReq(_) => w.plane
  }

  /** What the next start finds: the old configuration, the new kernel, no owner lists. */
  function Wreck(f: Faults, w: World, r: Request): World {
    World(w.disk, w.disk, KernelSide(f, w, r).(owners := map[]))
  }

  /** An enable that has brought its tunnel up. */
  predicate RaisesDisabled(f: Faults, w: World, r: Request) {
    && r.EnableReq? && FindTunnel(w.tunnels, r.id).Some?
    && var t := w.tunnels[FindTunnel(w.tunnels, r.id).value];
       !t.enabled && LoadAndBringUpTunnel(f, w.plane, t).1
  }

  /** An update that gives an enabled tunnel a route it did not have. */
  predicate GainsRoute(w: World, r: Request) {
    && r.UpdateReq? && FindTunnel(w.tunnels, r.id).Some?
    && var t := w.tunnels[FindTunnel(w.tunnels, r.id).value];
       t.enabled && !(RouteKeys(ApplyUpdates(t, r.updates)) <= RouteKeys(t))
  }

  /** Whoever is up on a configured interface is enabled there. */
  ghost predicate KnownEnabled(up: Roster, ts: seq<Tunnel>) {
    forall j, i :: j in up && 0 <= i < |ts| && up[j].iface == ts[i].iface ==> ts[i].enabled
  }

  /** Whoever is up on a configured interface holds no more than is configured. */
  ghost predicate KnownRoutes(up: Roster, ts: seq<Tunnel>) {
    forall j, i :: j in up && 0 <= i < |ts| && up[j].iface == ts[i].iface ==> up[j].keys <= RouteKeys(ts[i])
  }

  lemma DeathWithoutDisabledLink(p: Plane, up: Roster, ts: seq<Tunnel>, foreign: map<RouteKey, nat>)
    requires Owned(p, up, map[], foreign) && ValidConfig(ts, foreign) && KnownEnabled(up, ts)
    ensures NoDisabledLink(p, ts)
  {
    assert up + map[] == up;
    hide RoutesOk, OwnersOk, RouteKeys, Ours;
    forall i | 0 <= i < |ts| && ts[i].iface in p.kernel.links
      ensures ts[i].enabled
    {
      assert Belongs(up + map[], ts[i].iface);
    }
  }

  lemma DeathWithoutStranded(p: Plane, up: Roster, ts: seq<Tunnel>, foreign: map<RouteKey, nat>)
    requires Owned(p, up, map[], foreign) && ValidConfig(ts, foreign) && KnownRoutes(up, ts)
    ensures NoneStranded(ts, p.kernel)
  {
    forall m, i, k | 0 <= m < i < |ts| && ts[i].enabled && Claimant(ts, m, k) && k in Through(p.kernel, ts[i].iface)
      ensures k in RouteKeys(ts[i])
    {
      OwnedMeaning(p, up, foreign, k);
      assert RouteKeys(ts[m]) !! foreign.Keys;
      hide RoutesOk, OwnersOk, RouteKeys;
      var j :| j in up && k in up[j].keys && up[j].iface in p.kernel.links && p.kernel.links[up[j].iface] == p.kernel.routes[k];
      assert up[j].iface == ts[i].iface;
    }
  }

  /** A roster that agrees with the configuration is known. */
  lemma AgreesKnown(up: Roster, ts: seq<Tunnel>, foreign: map<RouteKey, nat>)
    requires ValidConfig(ts, foreign) && Agrees(up, ts)
    ensures KnownEnabled(up, ts) && KnownRoutes(up, ts)
  {
    hide RouteKeys, Ours;
    forall j, i | j in up && 0 <= i < |ts| && up[j].iface == ts[i].iface
      ensures ts[i].enabled && up[j].keys <= RouteKeys(ts[i])
    {
      var m := FindTunnel(ts, j).value;
      assert ts[m].iface == ts[i].iface;
      assert m == i;
    }
  }

  /** The roster at the kernel side of each request. */
  lemma KernelSideKeeps(f: Faults, w: World, foreign: map<RouteKey, nat>, r: Request) returns (up: Roster)
    requires Dependable(f) && Settled(w, foreign) && Admitted(f, w, foreign, r)
    ensures Owned(KernelSide(f, w, r), up, map[], foreign)
    ensures !RaisesDisabled(f, w, r) ==> KnownEnabled(up, w.tunnels)
    ensures !RaisesDisabled(f, w, r) && !GainsRoute(w, r) ==> KnownRoutes(up, w.tunnels)
    ensures RaisesDisabled(f, w, r) ==> w.tunnels[FindTunnel(w.tunnels, r.id).value].iface in KernelSide(f, w, r).kernel.links
  {
    var ts := w.tunnels;
    up := Up(ts, w.plane.kernel.links);
    UpAgrees(ts, w.plane.kernel.links);
    AgreesKnown(up, ts, foreign);
    hide Owned, Up, Agrees, KnownEnabled, KnownRoutes, ValidConfig, RouteKeys, Prepared, ApplyUpdates, BringUpTunnel, LoadAndBringUpTunnel, DownPlane, MergedPlane, Dependable, SafeUpdate;
    match r {
      case CreateReq(req, id) => up := CreateSide(f, w, foreign, req, id, up);
      case EnableReq(id) => up := EnableSide(f, w, foreign, id, up);
      case DisableReq(id) => up := DownSide(f, w, foreign, id, up);
      case DeleteReq(id) => up := DownSide(f, w, foreign, id, up);
      case UpdateReq(id, u) => up := UpdateSide(f, w, foreign, id, u, up);
      case RestartReq(_) =>
    }
  }

  lemma CreateSide(f: Faults, w: World, foreign: map<RouteKey, nat>, req: Tunnel, id: string, up: Roster) returns (up': Roster)
    requires Dependable(f) && Settled(w, foreign) && id !in Ids(w.tunnels) && RouteKeys(Prepared(w, req, id)) !! foreign.Keys
    requires up == Up(w.tunnels, w.plane.kernel.links) && Agrees(up, w.tunnels)
    ensures Owned(KernelSide(f, w, CreateReq(req, id)), up', map[], foreign)
    ensures KnownEnabled(up', w.tunnels) && KnownRoutes(up', w.tunnels)
  {
    up' := up;
    AgreesKnown(up, w.tunnels, foreign);
    PreparedIs(w, req, id);
    hide Owned, Up, Agrees, ValidConfig, RouteKeys, Prepared, Dependable, Ours, Parseable, KnownEnabled, KnownRoutes, Admissible;
    var c := Ticked(w).plane;
    OwnedExt(w.plane, c, up, map[], foreign);
    if req.name != "" && req.listenPort != 0 && req.address != "" && !f(Preflight, w.plane.kernel.calls) {
      var t := Prepared(w, req, id);
      NewIsAdmissible(w.tunnels, w.plane, up, foreign, t);
      FreshBringUp(f, c, up, map[], foreign, t.id, t.iface, t.allowed, EffectiveMetric(t.routeMetric));
      hide BringUp;
      var (q, ok) := BringUpTunnel(f, c, t);
      if ok {
        up' := up[id := ClaimOf(t)];
        UnknownIface(up, w.tunnels, t);
      } else {
        OwnedExt(c, q, up, map[], foreign);
      }
    }
  }

  lemma UnknownIface(up: Roster, ts: seq<Tunnel>, t: Tunnel)
    requires KnownEnabled(up, ts) && KnownRoutes(up, ts) && forall u :: u in ts ==> u.iface != t.iface
    ensures KnownEnabled(up[t.id := ClaimOf(t)], ts) && KnownRoutes(up[t.id := ClaimOf(t)], ts)
  {
    hide RouteKeys;
    assert forall i :: 0 <= i < |ts| ==> ts[i] in ts;
  }

  lemma EnableSide(f: Faults, w: World, foreign: map<RouteKey, nat>, id: string, up: Roster) returns (up': Roster)
    requires Dependable(f) && Settled(w, foreign) && up == Up(w.tunnels, w.plane.kernel.links) && Agrees(up, w.tunnels)
    ensures Owned(KernelSide(f, w, EnableReq(id)), up', map[], foreign)
    ensures !RaisesDisabled(f, w, EnableReq(id)) ==> KnownEnabled(up', w.tunnels) && KnownRoutes(up', w.tunnels)
    ensures RaisesDisabled(f, w, EnableReq(id)) ==>
              w.tunnels[FindTunnel(w.tunnels, id).value].iface in KernelSide(f, w, EnableReq(id)).kernel.links
  {
    up' := up;
    AgreesKnown(up, w.tunnels, foreign);
    var i := FindTunnel(w.tunnels, id);
    if i.Some? && !w.tunnels[i.value].enabled {
      var t := w.tunnels[i.value];
      RaiseKeeps(f, w.plane, up, foreign, w.tunnels, i.value);
      hide ValidConfig, Agrees, RoutesOk, OwnersOk, RouteKeys, LoadAndBringUpTunnel, FindTunnel, Up, KnownEnabled, KnownRoutes, Dependable, Settled;
      var (q, ok) := LoadAndBringUpTunnel(f, w.plane, t);
      if ok {
        up' := up[id := ClaimOf(t)];
        assert up'[id].iface == t.iface;
      }
    }
  }

  lemma DownSide(f: Faults, w: World, foreign: map<RouteKey, nat>, id: string, up: Roster) returns (up': Roster)
    requires Dependable(f) && Settled(w, foreign) && up == Up(w.tunnels, w.plane.kernel.links) && Agrees(up, w.tunnels)
    ensures KernelSide(f, w, DisableReq(id)) == KernelSide(f, w, DeleteReq(id))
    ensures Owned(KernelSide(f, w, DisableReq(id)), up', map[], foreign)
    ensures KnownEnabled(up', w.tunnels) && KnownRoutes(up', w.tunnels)
  {
    up' := up;
    AgreesKnown(up, w.tunnels, foreign);
    var i := FindTunnel(w.tunnels, id);
    if i.Some? {
      DownPlaneKeeps(f, w.plane, up, foreign, w.tunnels, i.value);
      up' := up - {id};
      hide Owned, ValidConfig, Agrees, RouteKeys, DownPlane, FindTunnel, Up, Dependable;
    }
  }

  lemma UpdateSide(f: Faults, w: World, foreign: map<RouteKey, nat>, id: string, u: Update, up: Roster) returns (up': Roster)
    requires Dependable(f) && Settled(w, foreign) && SafeUpdate(f, w, foreign, id, u)
    requires up == Up(w.tunnels, w.plane.kernel.links) && Agrees(up, w.tunnels)
    ensures Owned(KernelSide(f, w, UpdateReq(id, u)), up', map[], foreign)
    ensures KnownEnabled(up', w.tunnels) && (!GainsRoute(w, UpdateReq(id, u)) ==> KnownRoutes(up', w.tunnels))
  {
    up' := up;
    hide Owned, Agrees, RouteKeys, MergedPlane, Up, SafeUpdate, ApplyUpdates, ValidConfig, Updated, KnownEnabled, KnownRoutes, ClaimOf, Reliable;
    AgreesKnown(up, w.tunnels, foreign);
    var i := FindTunnel(w.tunnels, id);
    if i.Some? && !f(Preflight, w.plane.kernel.calls) {
      var t := w.tunnels[i.value];
      var merged := ApplyUpdates(t, u);
      MergedIs(t, u);
      MergedPlaneKeeps(f, w, foreign, id, u, i.value);
      var (q, ok) := MergedPlane(f, Ticked(w).plane, t, merged);
      if t.enabled {
        up' := Updated(up, q.kernel.links, t, merged, ok);
        UpdatedKnown(up, q.kernel.links, w.tunnels, foreign, i.value, merged, ok);
      }
    } else {
      OwnedExt(w.plane, Ticked(w).plane, up, map[], foreign);
    }
  }

  lemma UpdatedKnown(up: Roster, links: map<string, nat>, ts: seq<Tunnel>, foreign: map<RouteKey, nat>, i: nat, merged: Tunnel, ok: bool)
    requires ValidConfig(ts, foreign) && KnownEnabled(up, ts) && KnownRoutes(up, ts)
    requires i < |ts| && ts[i].enabled && merged.iface == ts[i].iface
    ensures KnownEnabled(Updated(up, links, ts[i], merged, ok), ts)
    ensures RouteKeys(merged) <= RouteKeys(ts[i]) ==> KnownRoutes(Updated(up, links, ts[i], merged, ok), ts)
  {
    hide RouteKeys, Ours;
    assert forall m :: 0 <= m < |ts| && ts[m].iface == ts[i].iface ==> m == i;
  }

  /** A manager killed after the kernel side of a request and before its save leaves links of ours and routes
      through them. The next start heals that unless an enable had brought its tunnel up: that
      link is never cleared. After an update that gained a route, whether it heals is decided
      by the rescue condition. */
  lemma CrashBeforeSave(f: Faults, w: World, foreign: map<RouteKey, nat>, r: Request, listing: seq<string>)
    requires Dependable(f) && Reliable(f, KeyLoad) && Settled(w, foreign) && Admitted(f, w, foreign, r)
    requires CoversOurs(listing, KernelSide(f, w, r).kernel.links)
    ensures Leftover(Wreck(f, w, r).plane, foreign)
    ensures RaisesDisabled(f, w, r) ==> !Settled(RestoreAll(f, Wreck(f, w, r), listing).0, foreign)
    ensures !RaisesDisabled(f, w, r) && !GainsRoute(w, r) ==> Settled(RestoreAll(f, Wreck(f, w, r), listing).0, foreign)
    ensures GainsRoute(w, r) && Reliable(f, RouteAdd) && RestoreAll(f, Wreck(f, w, r), listing).1 ==>
              (Settled(RestoreAll(f, Wreck(f, w, r), listing).0, foreign) <==> Rescued(w.disk, KernelSide(f, w, r).kernel))
  {
    var up := KernelSideKeeps(f, w, foreign, r);
    var p := KernelSide(f, w, r);
    var dead := Wreck(f, w, r);
    assert w.disk == w.tunnels && ValidConfig(w.tunnels, foreign);
    hide Settled, Owned, KernelSide, ValidConfig, KnownEnabled, KnownRoutes, Leftover, NoneStranded, Rescued, RestoreAll, Admitted, CoversOurs, FindTunnel, GainsRoute, LoadAndBringUpTunnel;
    DeathLeavesLeftover(p, up, foreign);
    if RaisesDisabled(f, w, r) {
      LeftoverNumbered(dead.plane, foreign);
      DisabledLinkStays(f, dead, listing, foreign, FindTunnel(w.tunnels, r.id).value);
    } else {
      DeathWithoutDisabledLink(p, up, w.tunnels, foreign);
      if !GainsRoute(w, r) {
        DeathWithoutStranded(p, up, w.tunnels, foreign);
        RestoreHeals(f, dead, listing, foreign);
      } else if Reliable(f, RouteAdd) && RestoreAll(f, dead, listing).1 {
        RestoreHealsExactly(f, dead, listing, foreign);
      }
    }
  }

  // ---------- a save that fails ----------

  /** The ownership invariant for the configuration in memory, whatever is on disk. */
  ghost predicate Held(w: World, foreign: map<RouteKey, nat>) {
    Settled(w.(disk := w.tunnels), foreign)
  }

  /** Every live link of ours is that of an enabled tunnel in memory. */
  lemma HeldLinks(w: World, foreign: map<RouteKey, nat>, n: string)
    requires Held(w, foreign) && n in w.plane.kernel.links && Ours(n)
    ensures exists t :: t in w.tunnels && t.iface == n && t.enabled
  {
    var up := Up(w.tunnels, w.plane.kernel.links);
    assert up + map[] == up;
    hide RoutesOk, OwnersOk, ValidConfig;
    assert Belongs(up + map[], n);
    var j :| j in up && up[j].iface == n;
    assert w.tunnels[FindTunnel(w.tunnels, j).value] in w.tunnels;
  }

  /** A create whose save fails keeps the tunnel in memory, enabled and without an interface; the invariant
      holds for what is in memory. */
  lemma CreateSaveFails(f: Faults, w: World, foreign: map<RouteKey, nat>, req: Tunnel, id: string)
    requires Reliable(f, RouteReplace) && Reliable(f, LinkDelete) && Settled(w, foreign)
    requires id !in Ids(w.tunnels) && RouteKeys(Prepared(w, req, id)) !! foreign.Keys
    requires req.name != "" && req.listenPort != 0 && req.address != "" && !f(Preflight, w.plane.kernel.calls)
    requires var (p, ok) := BringUpTunnel(f, Ticked(w).plane, Prepared(w, req, id)); ok && f(ConfigSave, p.kernel.calls)
    ensures var (v, ok) := Create(f, w, req, id);
            && !ok && v.disk == w.disk && v.tunnels == w.tunnels + [Prepared(w, req, id)] && Held(v, foreign)
            && v.plane.kernel.links == w.plane.kernel.links
  {
    var t := Prepared(w, req, id);
    var up := Up(w.tunnels, w.plane.kernel.links);
    var c := Ticked(w).plane;
    assert ValidConfig(w.tunnels, foreign) && Owned(w.plane, up, map[], foreign);
    CreateFailsIs(f, w, req, id);
    UpAgrees(w.tunnels, w.plane.kernel.links);
    PreparedIs(w, req, id);
    hide Prepared, ValidConfig, Up, Owned, RouteKeys, Agrees, FindTunnel, Settled, Create, Ids, BringUp, TearDown;
    AppendedUp(w.tunnels, up, foreign, t);
    OwnedExt(w.plane, c, up, map[], foreign);
    NewIsAdmissible(w.tunnels, w.plane, up, foreign, t);
    FreshBringUp(f, c, up, map[], foreign, t.id, t.iface, t.allowed, EffectiveMetric(t.routeMetric));
    var p := BringUpTunnel(f, c, t).0;
    BringUpLinks(f, c, t);
    UndoneBringUp(f, p, up, foreign, t);
    var v := Create(f, w, req, id).0;
    Settle(v.(disk := v.tunnels), v.plane, up, foreign);
  }

  lemma CreateFailsIs(f: Faults, w: World, req: Tunnel, id: string)
    requires req.name != "" && req.listenPort != 0 && req.address != "" && !f(Preflight, w.plane.kernel.calls)
    requires var (p, ok) := BringUpTunnel(f, Ticked(w).plane, Prepared(w, req, id)); ok && f(ConfigSave, p.kernel.calls)
    ensures var (v, ok) := Create(f, w, req, id);
            var p := BringUpTunnel(f, Ticked(w).plane, Prepared(w, req, id)).0;
            && !ok && v.disk == w.disk && v.tunnels == w.tunnels + [Prepared(w, req, id)]
            && v.plane == TearDownTunnel(f, p.(kernel := Called(p.kernel)), Prepared(w, req, id)).0
  {
    hide BringUpTunnel, TearDownTunnel, Prepared;
  }

  /** A tunnel without an interface, added to the configuration. */
  lemma AppendedUp(ts: seq<Tunnel>, up: Roster, foreign: map<RouteKey, nat>, t: Tunnel)
    requires ValidConfig(ts, foreign) && Agrees(up, ts) && t.enabled
    requires t.id !in Ids(ts) && Ours(t.iface) && (forall u :: u in ts ==> u.iface != t.iface) && RouteKeys(t) !! foreign.Keys
    ensures ValidConfig(ts + [t], foreign) && Agrees(up, ts + [t])
    ensures t.id !in up && forall j :: j in up ==> up[j].iface != t.iface
  {
    AgreesAppended(ts, up, foreign, t);
    hide ValidConfig, EnabledIn, RouteKeys;
    forall j | j in up
      ensures j != t.id && up[j].iface != t.iface
    {
      assert ts[FindTunnel(ts, j).value] in ts;
    }
    assert forall j :: j in up ==> j in up[t.id := ClaimOf(t)] && up[t.id := ClaimOf(t)][j] == up[j];
  }

  /** A bring-up of an interface that is not there adds that link alone. */
  lemma BringUpLinks(f: Faults, p: Plane, t: Tunnel)
    requires BringUpTunnel(f, p, t).1 && t.iface !in p.kernel.links
    ensures BringUpTunnel(f, p, t).0.kernel.links - {t.iface} == p.kernel.links
  {
    var metric := EffectiveMetric(t.routeMetric);
    var (kernel, created) := CreateLink(f, p.kernel, t.iface);
    var linked := p.(kernel := Called(kernel));
    ClaimSameLinks(f, linked, t.id, created.value, t.allowed, metric, []);
    hide Claim;
  }

  /** Taking down again, after a call that failed, a tunnel just brought up. */
  lemma UndoneBringUp(f: Faults, p: Plane, up: Roster, foreign: map<RouteKey, nat>, t: Tunnel)
    requires Reliable(f, RouteReplace) && Reliable(f, LinkDelete) && Owned(p, up[t.id := ClaimOf(t)], map[], foreign)
    requires t.id !in up && Ours(t.iface) && forall j :: j in up ==> up[j].iface != t.iface
    ensures var (q, ok) := TearDownTunnel(f, p.(kernel := Called(p.kernel)), t);
            ok && Owned(q, up, map[], foreign) && q.kernel.links == p.kernel.links - {t.iface}
  {
    var c := p.(kernel := Called(p.kernel));
    var up' := up[t.id := ClaimOf(t)];
    OwnedExt(p, c, up', map[], foreign);
    assert up' + map[] == up';
    assert Configured(up', map[], t.id, t.iface, RouteKeys(t));
    hide Owned, Configured, TearDown;
    TearDownKeeps(f, c, up', map[], foreign, t.id, t.iface, t.allowed, EffectiveMetric(t.routeMetric));
    var none: Roster := map[];
    assert none - {t.id} == none && up' - {t.id} == up;
  }

  /** An enable whose save fails leaves the tunnel enabled in memory and down; the invariant holds for what is
      in memory. */
  lemma EnableSaveFails(f: Faults, w: World, foreign: map<RouteKey, nat>, id: string, i: nat)
    requires Reliable(f, RouteReplace) && Reliable(f, LinkDelete) && Settled(w, foreign)
    requires FindTunnel(w.tunnels, id) == Some(i) && !w.tunnels[i].enabled
    requires var (p, ok) := LoadAndBringUpTunnel(f, w.plane, w.tunnels[i]); ok && f(ConfigSave, p.kernel.calls)
    ensures var (v, ok) := Enable(f, w, id);
            && !ok && v.disk == w.disk && v.tunnels == w.tunnels[i := w.tunnels[i].(enabled := true)] && Held(v, foreign)
            && w.tunnels[i].iface !in v.plane.kernel.links
  {
    hide ValidConfig, Up, Owned, RouteKeys, EnabledIn, Agrees, LoadAndBringUpTunnel, TearDown, Unclaimed, Ours, AllUp;
    var t := w.tunnels[i];
    var up := Up(w.tunnels, w.plane.kernel.links);
    UpAgrees(w.tunnels, w.plane.kernel.links);
    RaiseKeeps(f, w.plane, up, foreign, w.tunnels, i);
    NotUp(w.tunnels, up, i, id);
    ConfiguredTunnel(w.tunnels, up, foreign, i);
    assert RouteKeys(t.(enabled := true)) == RouteKeys(t) by {
      SameKeys(t);
    }
    AgreesReplaced(w.tunnels, up, foreign, i, t.(enabled := true));
    assert forall j :: j in up ==> up[j].iface != t.iface by {
      assert up + map[] == up;
    }
    hide Configured;
    var p := LoadAndBringUpTunnel(f, w.plane, t).0;
    UndoneBringUp(f, p, up, foreign, t);
    var v := Enable(f, w, id).0;
    var q := TearDownTunnel(f, p.(kernel := Called(p.kernel)), t).0;
    assert v.plane == q;
    Settle(v.(disk := v.tunnels), q, up, foreign);
  }

  lemma SameKeys(t: Tunnel)
    ensures RouteKeys(t.(enabled := true)) == RouteKeys(t)
  {
  }

  /** A disable or delete of an enabled tunnel whose save fails is off in memory, and brings the tunnel up
      again: the invariant survives for what is in memory if and only if that fails. */
  lemma DownSaveFails(f: Faults, w: World, foreign: map<RouteKey, nat>, id: string, i: nat)
    requires Reliable(f, RouteReplace) && Reliable(f, LinkDelete) && Settled(w, foreign)
    requires FindTunnel(w.tunnels, id) == Some(i) && w.tunnels[i].enabled
    requires f(ConfigSave, TearDownTunnel(f, w.plane, w.tunnels[i]).0.kernel.calls)
    ensures var t := w.tunnels[i];
            var p := TearDownTunnel(f, w.plane, t).0;
            var back := LoadAndBringUpTunnel(f, p.(kernel := Called(p.kernel)), t).1;
            && (Held(Disable(f, w, id).0, foreign) <==> !back)
            && (Held(Delete(f, w, id).0, foreign) <==> !back)
  {
    var ts := w.tunnels;
    var t := ts[i];
    var up := Up(ts, w.plane.kernel.links);
    var p := TearDownTunnel(f, w.plane, t).0;
    var (q, back) := LoadAndBringUpTunnel(f, p.(kernel := Called(p.kernel)), t);
    assert ValidConfig(ts, foreign) && Owned(w.plane, up, map[], foreign);
    UpAgrees(ts, w.plane.kernel.links);
    hide Settled, LoadAndBringUpTunnel, Owned, RouteKeys, Up, ValidConfig, Agrees, Disable, Delete, TearDownTunnel, EnabledIn, AllUp;
    OffConfig(up, foreign, ts, i);
    DownAndBack(f, w.plane, up, foreign, ts, i);
    DownFailsIs(f, w, id, i);
    hide FindTunnel;
    var disabled := Disable(f, w, id).0;
    var deleted := Delete(f, w, id).0;
    if back {
      OffInMemory(ts, foreign, i);
      hide Held;
      if Held(disabled, foreign) {
        HeldLinks(disabled, foreign, t.iface);
        assert false;
      }
      if Held(deleted, foreign) {
        HeldLinks(deleted, foreign, t.iface);
        assert false;
      }
    } else {
      Settle(disabled.(disk := disabled.tunnels), q, up - {id}, foreign);
      Settle(deleted.(disk := deleted.tunnels), q, up - {id}, foreign);
    }
  }

  /** A tunnel switched off or removed in the configuration, and out of the roster. */
  lemma OffConfig(up: Roster, foreign: map<RouteKey, nat>, ts: seq<Tunnel>, i: nat)
    requires ValidConfig(ts, foreign) && Agrees(up, ts) && i < |ts|
    ensures var ts' := ts[i := ts[i].(enabled := false)]; ValidConfig(ts', foreign) && Agrees(up - {ts[i].id}, ts')
    ensures var ts' := ts[..i] + ts[i + 1..]; ValidConfig(ts', foreign) && Agrees(up - {ts[i].id}, ts')
  {
    var off := ts[i].(enabled := false);
    assert RouteKeys(ts[i]) !! foreign.Keys && RouteKeys(off) == RouteKeys(ts[i]);
    hide RouteKeys, ValidConfig, Agrees, EnabledIn, FindTunnel;
    AgreesReplaced(ts, up, foreign, i, off);
    AgreesRemoved(ts, up, foreign, i);
  }

  /** A tunnel taken down and brought up again over a failed call. */
  lemma DownAndBack(f: Faults, p: Plane, up: Roster, foreign: map<RouteKey, nat>, ts: seq<Tunnel>, i: nat)
    requires Reliable(f, RouteReplace) && Reliable(f, LinkDelete) && ValidConfig(ts, foreign) && Agrees(up, ts)
    requires Owned(p, up, map[], foreign) && i < |ts| && ts[i].enabled
    ensures TearDownTunnel(f, p, ts[i]).1
    ensures var q := TearDownTunnel(f, p, ts[i]).0;
            var r := LoadAndBringUpTunnel(f, q.(kernel := Called(q.kernel)), ts[i]).0;
            var back := LoadAndBringUpTunnel(f, q.(kernel := Called(q.kernel)), ts[i]).1;
            if back then ts[i].iface in r.kernel.links else Owned(r, up - {ts[i].id}, map[], foreign)
  {
    var ts' := ts[i := ts[i].(enabled := false)];
    hide RouteKeys, LoadAndBringUp, Owned, ValidConfig, Agrees, TearDown, FindTunnel, Reliable;
    OffConfig(up, foreign, ts, i);
    DownPlaneKeeps(f, p, up, foreign, ts, i);
    var q := TearDownTunnel(f, p, ts[i]).0;
    var c := q.(kernel := Called(q.kernel));
    var up' := up - {ts[i].id};
    OwnedExt(q, c, up', map[], foreign);
    RaiseKeeps(f, c, up', foreign, ts', i);
    SameBringUp(f, c, ts[i]);
    var r := LoadAndBringUpTunnel(f, c, ts[i]).0;
    if LoadAndBringUpTunnel(f, c, ts[i]).1 {
      var raised := up'[ts[i].id := ClaimOf(ts'[i])];
      LinkedAndPrefixed(r, raised, map[], foreign);
      assert ts[i].id in raised && raised[ts[i].id].iface == ts[i].iface;
    }
  }

  lemma DownFailsIs(f: Faults, w: World, id: string, i: nat)
    requires FindTunnel(w.tunnels, id) == Some(i) && w.tunnels[i].enabled && TearDownTunnel(f, w.plane, w.tunnels[i]).1
    requires f(ConfigSave, TearDownTunnel(f, w.plane, w.tunnels[i]).0.kernel.calls)
    ensures var p := TearDownTunnel(f, w.plane, w.tunnels[i]).0;
            var q := LoadAndBringUpTunnel(f, p.(kernel := Called(p.kernel)), w.tunnels[i]).0;
            var disabled := Disable(f, w, id).0;
            var deleted := Delete(f, w, id).0;
            && disabled.plane == q && disabled.tunnels == w.tunnels[i := w.tunnels[i].(enabled := false)]
            && deleted.plane == q && deleted.tunnels == w.tunnels[..i] + w.tunnels[i + 1..]
  {
    hide LoadAndBringUpTunnel, TearDownTunnel;
  }

  /** Bringing up does not look at the flag. */
  lemma SameBringUp(f: Faults, p: Plane, t: Tunnel)
    ensures LoadAndBringUpTunnel(f, p, t.(enabled := false)) == LoadAndBringUpTunnel(f, p, t)
  {
  }

  lemma OffInMemory(ts: seq<Tunnel>, foreign: map<RouteKey, nat>, i: nat)
    requires ValidConfig(ts, foreign) && i < |ts|
    ensures Ours(ts[i].iface)
    ensures forall t :: t in ts[i := ts[i].(enabled := false)] && t.iface == ts[i].iface ==> !t.enabled
    ensures forall t :: t in ts[..i] + ts[i + 1..] ==> t.iface != ts[i].iface
  {
  }

  /** One tunnel, up and holding its route. */
  const RUNNING := World(
    [Site("a", "wg-s2s0", [SHARED])],
    [Site("a", "wg-s2s0", [SHARED])],
    Plane(map[KeyOf(SHARED, DEFAULT_METRIC) := [Owner("a", 7)]],
          Kernel(map[KeyOf(SHARED, DEFAULT_METRIC) := 7], map["wg-s2s0" := 7], 8, 0)))

  const MOVE := Update("", 0, "", "", "", Some([OWN]), None, 0, 0, 0)

  lemma RunningIsSettled()
    ensures Settled(RUNNING, map[])
  {
    var k := KeyOf(SHARED, DEFAULT_METRIC);
    var t := Site("a", "wg-s2s0", [SHARED]);
    var up: Roster := map["a" := Claims("wg-s2s0", {k})];
    assert RUNNING.tunnels == [t] && RouteKeys(t) == {k};
    assert up + map[] == up;
    assert Owned(RUNNING.plane, up, map[], map[]) by {
      assert Belongs(up, "wg-s2s0") by {
        assert "a" in up && up["a"].iface == "wg-s2s0";
      }
      assert [Owner("a", 7)][0] == Owner("a", 7);
    }
    assert Agrees(up, [t]) by {
      assert FindTunnel([t], "a") == Some(0);
    }
    Settle(RUNNING, RUNNING.plane, up, map[]);
  }

  /** Replacing the tunnel's route in place, with every call but the save working: the update reports failure,
      the configuration is as before, and the kernel has the new route in place of the old. */
  lemma FailedSaveLosesRoute(f: Faults)
    requires forall c :: c != ConfigSave ==> Reliable(f, c)
    requires forall n :: f(ConfigSave, n)
    ensures var (v, ok) := UpdateTunnel(f, RUNNING, "a", MOVE);
            !ok && v.tunnels == RUNNING.tunnels && v.disk == RUNNING.disk && !Settled(v, map[])
  {
    hide Settled, TearDown, BringUp, LoadAndBringUp, RecreateTunnel;
    var t := Site("a", "wg-s2s0", [SHARED]);
    var merged := Site("a", "wg-s2s0", [OWN]);
    assert ApplyUpdates(t, MOVE) == merged && !NeedsRecreate(t, merged);
    assert FindTunnel([t], "a") == Some(0);
    assert RouteKeys(t) == {KeyOf(SHARED, DEFAULT_METRIC)} && KeyOf(OWN, DEFAULT_METRIC) in RouteKeys(merged);
    var c := Ticked(RUNNING).plane;
    assert Reliable(f, Preflight) && Reliable(f, PeerUpdate) && Reliable(f, RouteAdd) && Reliable(f, RouteDelete);
    assert Reliable(f, RouteReplace) && Reliable(f, LinkDelete);
    var d := c.(kernel := Called(c.kernel));
    ReleaseSameLinks(f, d, "a", 7, [SHARED], DEFAULT_METRIC);
    var mid := Release(f, d, "a", 7, [SHARED], DEFAULT_METRIC);
    assert mid.kernel.links["wg-s2s0"] == 7;
    ClaimSucceeds(f, mid, "a", 7, [OWN], DEFAULT_METRIC, []);
    assert HotUpdateTunnel(f, c, t, merged) == Claim(f, mid, "a", 7, [OWN], DEFAULT_METRIC, []);
    RunningIsSettled();
    hide Claim, Release, RouteKeys;
    assert SafeUpdate(f, RUNNING, map[], "a", MOVE);
    UpdateSaveFails(f, RUNNING, map[], "a", MOVE, 0);
  }
}
