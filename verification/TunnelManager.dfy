/** The tunnel manager as it runs (route_refs.go, manager.go): objects updated step by step, each method
    proved equal to the function that specifies it in Routes, Ownership and Tunnels. */
module TunnelManager {
  import opened Text
  import opened Routes
  import opened Ownership
  import Names
  import T = Tunnels

  lemma {:induction false} PutAt(os: seq<Owner>, id: string, oif: nat, i: nat)
    requires i < |os| && os[i].tunnel == id && forall j :: 0 <= j < i ==> os[j].tunnel != id
    ensures Put(os, id, oif) == os[i := Owner(id, oif)]
  {
    if i > 0 {
      PutAt(os[1..], id, oif, i - 1);
      assert os[i := Owner(id, oif)] == [os[0]] + os[1..][i - 1 := Owner(id, oif)];
    }
  }

  lemma {:induction false} DropAt(os: seq<Owner>, id: string, i: nat)
    requires i < |os| && os[i].tunnel == id && forall j :: 0 <= j < i ==> os[j].tunnel != id
    ensures Drop(os, id) == os[..i] + os[i + 1..]
  {
    if i > 0 {
      DropAt(os[1..], id, i - 1);
      assert os[..i] + os[i + 1..] == [os[0]] + (os[1..][..i - 1] + os[1..][i..]);
    }
  }

  /** Reference counts of shared routes: who owns a route, first owner first. */
  class RouteRefCounter {
    var owners: Owners

    constructor ()
      ensures owners == map[]
    {
      owners := map[];
    }

    /** Register a tunnel; reports whether it is now the only owner. */
    method Add(k: RouteKey, id: string, oif: nat) returns (first: bool)
      modifies this
      ensures owners == AddOwner(old(owners), k, id, oif)
      ensures first == (|owners[k]| == 1)
    {
      var os := Listed(owners, k);
      for i := 0 to |os|
        invariant owners == old(owners)
        invariant forall j :: 0 <= j < i ==> os[j].tunnel != id
      {
        if os[i].tunnel == id {
          PutAt(os, id, oif, i);
          owners := owners[k := os[i := Owner(id, oif)]];
          return |os| == 1;
        }
      }
      PutNew(os, id, oif);
      first := |os| == 0;
      owners := owners[k := os + [Owner(id, oif)]];
    }

    method OwnsRoute(k: RouteKey, id: string) returns (b: bool)
      ensures b == Owns(Listed(owners, k), id)
    {
      var os := Listed(owners, k);
      for i := 0 to |os|
        invariant forall j :: 0 <= j < i ==> os[j].tunnel != id
      {
        if os[i].tunnel == id {
          return true;
        }
      }
      b := false;
    }

    /** Unregister a tunnel; returns the owners that remain. */
    method Remove(k: RouteKey, id: string) returns (remaining: seq<Owner>)
      modifies this
      ensures owners == RemoveOwner(old(owners), k, id)
      ensures remaining == Listed(owners, k)
    {
      var os := Listed(owners, k);
      for i := 0 to |os|
        invariant owners == old(owners)
        invariant forall j :: 0 <= j < i ==> os[j].tunnel != id
      {
        if os[i].tunnel == id {
          DropAt(os, id, i);
          remaining := os[..i] + os[i + 1..];
          if |remaining| == 0 {
            owners := owners - {k};
          } else {
            owners := owners[k := remaining];
          }
          return;
        }
      }
      remaining := os;
    }
  }

  /** The kernel behind netlink, with the faults of this run. */
  class Netlink {
    const faults: Faults
    var kernel: Kernel

    constructor (faults: Faults, kernel: Kernel)
      ensures this.faults == faults && this.kernel == kernel
    {
      this.faults := faults;
      this.kernel := kernel;
    }

    method Add(key: RouteKey, oif: nat) returns (e: Errno)
      modifies this
      ensures (kernel, e) == AddRoute(faults, old(kernel), key, oif)
    {
      var (k, err) := AddRoute(faults, kernel, key, oif);
      kernel, e := k, err;
    }

    method Delete(key: RouteKey, oif: nat) returns (e: Errno)
      modifies this
      ensures (kernel, e) == DeleteRoute(faults, old(kernel), key, oif)
    {
      var (k, err) := DeleteRoute(faults, kernel, key, oif);
      kernel, e := k, err;
    }

    method Replace(key: RouteKey, oif: nat) returns (e: Errno)
      modifies this
      ensures (kernel, e) == ReplaceRoute(faults, old(kernel), key, oif)
    {
      var (k, err) := ReplaceRoute(faults, kernel, key, oif);
      kernel, e := k, err;
    }

    method NewLink(name: string) returns (ix: Option<nat>)
      modifies this
      ensures (kernel, ix) == CreateLink(faults, old(kernel), name)
    {
      var (k, i) := CreateLink(faults, kernel, name);
      kernel, ix := k, i;
    }

    method RemoveLink(ix: nat) returns (ok: bool)
      modifies this
      ensures (kernel, ok) == DeleteLink(faults, old(kernel), ix)
    {
      var (k, b) := DeleteLink(faults, kernel, ix);
      kernel, ok := k, b;
    }

    /** Any other call that only succeeds or fails. */
    method Try(c: Call) returns (ok: bool)
      modifies this
      ensures kernel == Called(old(kernel)) && ok == !faults(c, old(kernel).calls)
    {
      ok := !faults(c, kernel.calls);
      kernel := Called(kernel);
    }
  }

  class Manager {
    const refs: RouteRefCounter
    const net: Netlink
    var tunnels: seq<T.Tunnel>
    var disk: seq<T.Tunnel>

    constructor (net: Netlink, disk: seq<T.Tunnel>)
      ensures this.net == net && fresh(refs) && refs.owners == map[] && tunnels == disk && this.disk == disk
    {
      this.net := net;
      this.refs := new RouteRefCounter();
      this.tunnels := disk;
      this.disk := disk;
    }

    function Plane(): Plane
      reads refs, net
    {
      Routes.Plane(refs.owners, net.kernel)
    }

    function World(): T.World
      reads this, refs, net
    {
      T.World(tunnels, disk, Plane())
    }

    /** claimRoutes */
    method ClaimRoutes(id: string, ix: nat, cidrs: seq<Cidr>, metric: nat) returns (ok: bool)
      modifies refs, net
      ensures (Plane(), ok) == Claim(net.faults, old(Plane()), id, ix, cidrs, metric, [])
    {
      var registered: seq<Cidr> := [];
      assert cidrs[0..] == cidrs;
      for i := 0 to |cidrs|
        invariant registered == cidrs[..i]
        invariant Claim(net.faults, old(Plane()), id, ix, cidrs, metric, []) == Claim(net.faults, Plane(), id, ix, cidrs[i..], metric, registered)
      {
        var c := cidrs[i];
        var key := KeyOf(c, metric);
        assert cidrs[i..][0] == c && cidrs[i..][1..] == cidrs[i + 1..];
        var first := refs.Add(key, id, ix);
        registered := registered + [c];
        if c.net.None? {
          UnregisterRoutes(id, registered, metric);
          return false;
        }
        var e := net.Add(key, ix);
        if !first {
          continue;
        }
        if e == Other {
          UnregisterRoutes(id, registered, metric);
          return false;
        }
      }
      ok := true;
    }

    /** unregisterRoutes */
    method UnregisterRoutes(id: string, cidrs: seq<Cidr>, metric: nat)
      modifies refs
      ensures refs.owners == RemoveOwners(old(refs.owners), id, cidrs, metric)
    {
      assert cidrs[0..] == cidrs;
      for i := 0 to |cidrs|
        invariant RemoveOwners(old(refs.owners), id, cidrs, metric) == RemoveOwners(refs.owners, id, cidrs[i..], metric)
      {
        assert cidrs[i..][0] == cidrs[i] && cidrs[i..][1..] == cidrs[i + 1..];
        var _ := refs.Remove(KeyOf(cidrs[i], metric), id);
      }
    }

    /** releaseRoutes */
    method ReleaseRoutes(id: string, ix: nat, cidrs: seq<Cidr>, metric: nat)
      modifies refs, net
      ensures Plane() == Release(net.faults, old(Plane()), id, ix, cidrs, metric)
    {
      assert cidrs[0..] == cidrs;
      for i := 0 to |cidrs|
        invariant Release(net.faults, old(Plane()), id, ix, cidrs, metric) == Release(net.faults, Plane(), id, ix, cidrs[i..], metric)
      {
        var c := cidrs[i];
        var key := KeyOf(c, metric);
        assert cidrs[i..][0] == c && cidrs[i..][1..] == cidrs[i + 1..];
        var remaining := refs.Remove(key, id);
        if c.net.None? {
          continue;
        }
        if |remaining| == 0 {
          var _ := net.Delete(key, ix);
        } else {
          var _ := net.Replace(key, remaining[0].oif);
        }
      }
    }

    /** tearDown */
    method TearDownTunnel(t: T.Tunnel) returns (ok: bool)
      modifies refs, net
      ensures (Plane(), ok) == T.TearDownTunnel(net.faults, old(Plane()), t)
    {
      if t.iface !in net.kernel.links {
        return true;
      }
      var ix := net.kernel.links[t.iface];
      ReleaseRoutes(t.id, ix, t.allowed, T.EffectiveMetric(t.routeMetric));
      ok := net.RemoveLink(ix);
    }

    /** cleanupExistingInterface */
    method CleanupExistingInterface(t: T.Tunnel) returns (ok: bool)
      modifies refs, net
      ensures (Plane(), ok) == Cleanup(net.faults, old(Plane()), t.id, t.iface, t.allowed, T.EffectiveMetric(t.routeMetric))
    {
      if t.iface !in net.kernel.links {
        return true;
      }
      var ix := net.kernel.links[t.iface];
      ReleaseRoutes(t.id, ix, t.allowed, T.EffectiveMetric(t.routeMetric));
      ok := net.RemoveLink(ix);
      if !ok {
        var reconnected := net.Try(Reconnect);
        if !reconnected {
          return false;
        }
        if t.iface in net.kernel.links {
          ok := net.RemoveLink(net.kernel.links[t.iface]);
        } else {
          ok := true;
        }
      }
    }

    /** bringUp */
    method BringUpTunnel(t: T.Tunnel) returns (ok: bool)
      modifies refs, net
      ensures (Plane(), ok) == T.BringUpTunnel(net.faults, old(Plane()), t)
    {
      var clean := CleanupExistingInterface(t);
      if !clean {
        return false;
      }
      var ix := net.NewLink(t.iface);
      if ix.None? {
        return false;
      }
      var configured := net.Try(LinkConfigure);
      if !configured {
        var _ := net.RemoveLink(ix.value);
        return false;
      }
      ok := ClaimRoutes(t.id, ix.value, t.allowed, T.EffectiveMetric(t.routeMetric));
      if !ok {
        var _ := net.RemoveLink(ix.value);
      }
    }

    /** bringUpTunnel */
    method LoadAndBringUp(t: T.Tunnel) returns (ok: bool)
      modifies refs, net
      ensures (Plane(), ok) == T.LoadAndBringUpTunnel(net.faults, old(Plane()), t)
    {
      var loaded := net.Try(KeyLoad);
      if !loaded {
        return false;
      }
      ok := BringUpTunnel(t);
    }

    /** recreateTunnel */
    method RecreateTunnel(t: T.Tunnel) returns (ok: bool)
      modifies refs, net
      ensures (Plane(), ok) == T.RecreateTunnel(net.faults, old(Plane()), t)
    {
      var loaded := net.Try(KeyLoad);
      if !loaded {
        return false;
      }
      var down := TearDownTunnel(t);
      if !down {
        return false;
      }
      ok := LoadAndBringUp(t);
    }

    /** hotUpdate */
    method HotUpdateTunnel(t: T.Tunnel, allowedBefore: seq<Cidr>, metricBefore: nat) returns (ok: bool)
      modifies refs, net
      ensures (Plane(), ok) == HotUpdate(net.faults, old(Plane()), t.id, t.iface, allowedBefore, metricBefore, t.allowed, T.EffectiveMetric(t.routeMetric))
    {
      var reached := net.Try(PeerUpdate);
      if !reached || t.iface !in net.kernel.links {
        return false;
      }
      var ix := net.kernel.links[t.iface];
      var metric := T.EffectiveMetric(t.routeMetric);
      if allowedBefore != t.allowed || metricBefore != metric {
        ReleaseRoutes(t.id, ix, allowedBefore, metricBefore);
        ok := ClaimRoutes(t.id, ix, t.allowed, metric);
        return;
      }
      ok := true;
    }

    method SaveConfig() returns (ok: bool)
      modifies this`disk, net
      ensures (World(), ok) == T.Save(net.faults, old(World()))
    {
      ok := net.Try(ConfigSave);
      if ok {
        disk := tunnels;
      }
    }

    /** findTunnel */
    method Find(id: string) returns (i: Option<nat>)
      ensures i == T.FindTunnel(tunnels, id)
    {
      assert tunnels[0..] == tunnels;
      for j := 0 to |tunnels|
        invariant forall m :: 0 <= m < j ==> tunnels[m].id != id
      {
        if tunnels[j].id == id {
          FirstMatch(tunnels, id, j);
          return Some(j);
        }
      }
      i := None;
      assert forall t :: t in tunnels ==> t.id != id;
    }

    /** CreateTunnel */
    method CreateTunnel(req: T.Tunnel, id: string) returns (ok: bool)
      modifies this, refs, net
      ensures (World(), ok) == T.Create(net.faults, old(World()), req, id)
    {
      if req.name == "" || req.listenPort == 0 || req.address == "" {
        return false;
      }
      var clear := net.Try(Preflight);
      if !clear {
        return false;
      }
      var names := seq(|tunnels|, i requires 0 <= i < |tunnels| reads this => tunnels[i].iface);
      var iface, _ := Names.NextInterfaceName(names);
      SameNames(tunnels, names);
      var t := req.(id := id, iface := iface, enabled := true);
      if t.keepalive == 0 {
        t := t.(keepalive := T.DEFAULT_KEEPALIVE);
      }
      if t.mtu == 0 {
        t := t.(mtu := T.DEFAULT_MTU);
      }
      if t.routeMetric == 0 {
        t := t.(routeMetric := T.DEFAULT_METRIC);
      }
      assert t == T.Prepared(old(World()), req, id) by {
        var n: nat :| Names.LeastFree(Names.Used(names), n) && iface == Names.IfaceName(n);
        Names.LeastFreeUnique(T.IfaceNames(tunnels), n, Names.NextFree(T.IfaceNames(tunnels), 0));
      }
      ok := BringUpTunnel(t);
      if !ok {
        return;
      }
      tunnels := tunnels + [t];
      ok := SaveConfig();
      if !ok {
        var _ := TearDownTunnel(t);
      }
    }

    /** EnableTunnel */
    method EnableTunnel(id: string) returns (ok: bool)
      modifies this, refs, net
      ensures (World(), ok) == T.Enable(net.faults, old(World()), id)
    {
      var i := Find(id);
      if i.None? {
        return false;
      }
      var t := tunnels[i.value];
      if t.enabled {
        return true;
      }
      ok := LoadAndBringUp(t);
      if !ok {
        return;
      }
      tunnels := tunnels[i.value := t.(enabled := true)];
      ok := SaveConfig();
      if !ok {
        var _ := TearDownTunnel(t);
      }
    }

    /** DisableTunnel */
    method DisableTunnel(id: string) returns (ok: bool)
      modifies this, refs, net
      ensures (World(), ok) == T.Disable(net.faults, old(World()), id)
    {
      var i := Find(id);
      if i.None? {
        return false;
      }
      var t := tunnels[i.value];
      if !t.enabled {
        return true;
      }
      ok := TearDownTunnel(t);
      if !ok {
        return;
      }
      tunnels := tunnels[i.value := t.(enabled := false)];
      ok := SaveConfig();
      if !ok {
        var _ := LoadAndBringUp(t);
      }
    }

    /** DeleteTunnel */
    method DeleteTunnel(id: string) returns (ok: bool)
      modifies this, refs, net
      ensures (World(), ok) == T.Delete(net.faults, old(World()), id)
    {
      var i := Find(id);
      if i.None? {
        return false;
      }
      var t := tunnels[i.value];
      if t.enabled {
        ok := TearDownTunnel(t);
        if !ok {
          return;
        }
      }
      tunnels := tunnels[..i.value] + tunnels[i.value + 1..];
      ok := SaveConfig();
      if !ok && t.enabled {
        var _ := LoadAndBringUp(t);
      }
    }

    /** UpdateTunnel */
    method UpdateTunnel(id: string, u: T.Update) returns (ok: bool)
      modifies this, refs, net
      ensures (World(), ok) == T.UpdateTunnel(net.faults, old(World()), id, u)
    {
      var i := Find(id);
      if i.None? {
        return false;
      }
      var clear := net.Try(Preflight);
      if !clear {
        return false;
      }
      var t := tunnels[i.value];
      var merged := T.ApplyUpdates(t, u);
      if t.enabled {
        if T.NeedsRecreate(t, merged) {
          ok := RecreateTunnel(merged);
        } else {
          ok := HotUpdateTunnel(merged, t.allowed, T.EffectiveMetric(t.routeMetric));
          if !ok {
            ok := RecreateTunnel(merged);
          }
        }
        if !ok {
          return;
        }
      }
      var before := tunnels;
      tunnels := tunnels[i.value := merged];
      ok := SaveConfig();
      if !ok {
        tunnels := before;
      }
    }

    /** removeOrphanInterfaces */
    method RemoveOrphanInterfaces(listing: seq<string>)
      modifies net
      ensures net.kernel == T.RemoveOrphans(net.faults, old(net.kernel), listing, T.IfaceNames(tunnels))
    {
      var configured := T.IfaceNames(tunnels);
      assert listing[0..] == listing;
      for i := 0 to |listing|
        invariant T.RemoveOrphans(net.faults, old(net.kernel), listing, configured) == T.RemoveOrphans(net.faults, net.kernel, listing[i..], configured)
      {
        var n := listing[i];
        assert listing[i..][0] == n && listing[i..][1..] == listing[i + 1..];
        if n in configured || n !in net.kernel.links {
          continue;
        }
        var _ := net.RemoveLink(net.kernel.links[n]);
      }
    }

    /** RestoreAll */
    method RestoreAll(listing: seq<string>) returns (ok: bool)
      modifies refs, net
      ensures (World(), ok) == T.RestoreAll(net.faults, old(World()), listing)
    {
      RemoveOrphanInterfaces(listing);
      ok := true;
      assert tunnels[0..] == tunnels;
      ghost var swept := Plane();
      for i := 0 to |tunnels|
        invariant T.RestoreEach(net.faults, swept, tunnels) ==
                  (T.RestoreEach(net.faults, Plane(), tunnels[i..]).0, ok && T.RestoreEach(net.faults, Plane(), tunnels[i..]).1)
      {
        var t := tunnels[i];
        assert tunnels[i..][0] == t && tunnels[i..][1..] == tunnels[i + 1..];
        if !t.enabled {
          continue;
        }
        var raised := LoadAndBringUp(t);
        if !raised {
          ok := false;
        }
      }
    }
  }

  lemma {:induction false} FirstMatch(ts: seq<T.Tunnel>, id: string, j: nat)
    requires j < |ts| && ts[j].id == id && forall m :: 0 <= m < j ==> ts[m].id != id
    ensures T.FindTunnel(ts, id) == Some(j)
  {
    var r := T.FindTunnel(ts, id);
    assert ts[j] in ts;
    if j > 0 {
      FirstMatch(ts[1..], id, j - 1);
    }
  }

  lemma SameNames(ts: seq<T.Tunnel>, names: seq<string>)
    requires |names| == |ts| && forall i :: 0 <= i < |ts| ==> names[i] == ts[i].iface
    ensures Names.Used(names) == T.IfaceNames(ts)
  {
    forall n
      ensures n in Names.Used(names) <==> n in T.IfaceNames(ts)
    {
      if n in Names.Used(names) {
        var i :| 0 <= i < |names| && names[i] == n;
        assert ts[i] in ts;
      }
      if n in T.IfaceNames(ts) {
        var t :| t in ts && t.iface == n;
        var i :| 0 <= i < |ts| && ts[i] == t;
        assert names[i] == n;
      }
    }
  }
}
