/** When exactly RestoreAll heals what a dead manager left behind: the links and owner lists always come
    right, and each route is followed by itself through the restore loop. */
module Recovery {
  import opened Text
  import opened Routes
  import opened Ownership
  import opened Tunnels

  // ---------- links and owner lists, routes aside ----------

  /** Links and owner lists are as in the ownership invariant; nothing is said about which routes there are. */
  ghost predicate Attached(p: Plane, up: Roster, stale: Roster) {
    LinksOk(p, up, stale) && OwnersOk(p, up) && forall k :: k in p.kernel.routes ==> k.dst.Prefix?
  }

  /** A tunnel that is not up, with an interface that is nobody else's. */
  ghost predicate Seated(up: Roster, stale: Roster, id: string, iface: string) {
    && Ours(iface) && id !in up && (id in stale ==> stale[id].iface == iface)
    && (forall j :: j in up + stale && (up + stale)[j].iface == iface ==> j == id)
  }

  lemma SeatedIsConfigured(up: Roster, stale: Roster, id: string, iface: string)
    requires Seated(up, stale, id, iface)
    ensures Configured(up, stale, id, iface, if id in stale then stale[id].keys else {})
  {
  }

  lemma WithoutUnowned(owners: Owners, id: string, keys: set<RouteKey>)
    requires Tidy(owners) && Unowned(owners, id)
    ensures Without(owners, id, keys) == owners
  {
    forall k | k in owners
      ensures Drop(owners[k], id) == owners[k]
    {
      DropAbsent(owners[k], id);
    }
  }

  /** Route k once the interface is cleaned up: an owned route at one of the keys goes through an owner, any
      other goes with the link or stays. */
  ghost predicate CleanedAt(p: Plane, q: Plane, iface: string, keys: set<RouteKey>, k: RouteKey) {
    if iface in p.kernel.links && k in keys && k in p.owners then k in q.kernel.routes && OifIn(p.owners[k], q.kernel.routes[k])
    else if k in p.kernel.routes && !(iface in p.kernel.links && p.kernel.routes[k] == p.kernel.links[iface])
    then k in q.kernel.routes && q.kernel.routes[k] == p.kernel.routes[k]
    else k !in q.kernel.routes
  }

  lemma CleanupLinks(p: Plane, q: Plane, up: Roster, stale: Roster, id: string, iface: string)
    requires LinksOk(p, up, stale) && OwnersOk(p, up) && Seated(up, stale, id, iface)
    requires q.owners == p.owners && q.kernel.links == p.kernel.links - {iface} && q.kernel.nextIf == p.kernel.nextIf
    ensures LinksOk(q, up, stale - {id}) && OwnersOk(q, up)
  {
    assert up - {id} == up;
    assert forall j :: j in up ==> j in up + stale && (up + stale)[j] == up[j];
    SeatedIsConfigured(up, stale, id, iface);
    RetireLinks(p, q, up, stale, id, iface, if id in stale then stale[id].keys else {});
    hide LinksOk;
    assert forall k, o {:trigger Lists(p.owners, k, o)} :: Lists(p.owners, k, o) ==> o.tunnel != id;
    RetireOwners(p, q, up, id, iface);
  }

  /** Route k after a release and the deletion of the link. */
  lemma CleanedKey(p: Plane, mid: Plane, q: Plane, up: Roster, id: string, iface: string, keys: set<RouteKey>, k: RouteKey)
    requires OwnersOk(p, up) && iface in p.kernel.links
    requires Released(p, mid, id, p.kernel.links[iface], keys) && mid.owners == p.owners
    requires forall j :: j in up ==> up[j].iface != iface
    requires OneToOne(p.kernel.links)
    requires var ix := p.kernel.links[iface];
             q.kernel.routes == map r | r in mid.kernel.routes && mid.kernel.routes[r] != ix :: mid.kernel.routes[r]
    ensures CleanedAt(p, q, iface, keys, k)
  {
    var ix := p.kernel.links[iface];
    assert ReleasedAt(p, mid, ix, keys, k);
    hide Released;
    if k in keys && k in p.owners {
      var o :| o in p.owners[k] && o.oif == mid.kernel.routes[k];
      assert Lists(p.owners, k, o);
      assert o.oif != ix;
    }
  }

  /** Cleaning up the interface of a tunnel that is not up. */
  lemma CleanupAttached(f: Faults, p: Plane, up: Roster, stale: Roster, id: string, iface: string, cidrs: seq<Cidr>, metric: nat)
    requires Reliable(f, RouteReplace) && Reliable(f, LinkDelete)
    requires Attached(p, up, stale) && Seated(up, stale, id, iface)
    ensures var (q, ok) := TearDown(f, p, id, iface, cidrs, metric);
            && ok && Attached(q, up, stale - {id}) && q.owners == p.owners
            && q.kernel.links == p.kernel.links - {iface} && q.kernel.nextIf == p.kernel.nextIf
            && forall k :: CleanedAt(p, q, iface, Keys(cidrs, metric), k)
  {
    var keys := Keys(cidrs, metric);
    var (q, ok) := TearDown(f, p, id, iface, cidrs, metric);
    if iface !in p.kernel.links {
      assert p.kernel.links - {iface} == p.kernel.links;
    } else {
      var ix := p.kernel.links[iface];
      var mid := Release(f, p, id, ix, cidrs, metric);
      assert forall j :: j in up ==> j in up + stale && (up + stale)[j] == up[j];
      assert Released(p, mid, id, ix, keys) by {
        AttachedReaches(p, up, stale);
        ReleasedNothing(p, id, ix);
        ReleaseOutcome(f, p, p, id, ix, {}, cidrs, metric);
        assert {} + keys == keys;
      }
      NotOwner(p, up, id);
      WithoutUnowned(p.owners, id, keys);
      UnlinkEffect(f, mid.kernel, iface);
      hide Release, OwnersOk, Seated;
      forall k
        ensures CleanedAt(p, q, iface, keys, k)
      {
        CleanedKey(p, mid, q, up, id, iface, keys, k);
      }
      assert forall k :: k in q.kernel.routes ==> k.dst.Prefix? by {
        forall k | k in q.kernel.routes
          ensures k.dst.Prefix?
        {
          assert CleanedAt(p, q, iface, keys, k);
          OwnedPrefix(p, up, k);
        }
      }
    }
    CleanupLinks(p, q, up, stale, id, iface);
  }

  lemma OwnedPrefix(p: Plane, up: Roster, k: RouteKey)
    requires OwnersOk(p, up)
    ensures k in p.owners ==> k.dst.Prefix?
  {
    if k in p.owners {
      assert Lists(p.owners, k, p.owners[k][0]);
    }
  }

  lemma AttachedReaches(p: Plane, up: Roster, stale: Roster)
    requires Attached(p, up, stale)
    ensures OwnersReachable(p)
  {
    hide LinksOk;
    forall k, o | k in p.owners && o in p.owners[k]
      ensures Live(p, o.oif)
    {
      assert Lists(p.owners, k, o);
    }
    forall k | k in p.owners
      ensures k.dst.Prefix?
    {
      OwnedPrefix(p, up, k);
    }
  }

  /** What a successful bring-up does, with mid the plane after its cleanup. */
  ghost predicate Raised(f: Faults, p: Plane, mid: Plane, q: Plane, id: string, iface: string, keys: set<RouteKey>) {
    && mid.owners == p.owners && mid.kernel.links == p.kernel.links - {iface} && mid.kernel.nextIf == p.kernel.nextIf
    && (forall k :: CleanedAt(p, mid, iface, keys, k))
    && q.owners == With(p.owners, id, p.kernel.nextIf, keys)
    && q.kernel.links == mid.kernel.links[iface := p.kernel.nextIf] && q.kernel.nextIf == p.kernel.nextIf + 1
    && Gained(mid, q, p.kernel.nextIf, keys)
    && (forall k :: k in keys && k !in q.kernel.routes ==> k in p.owners && !Reliable(f, RouteAdd))
  }

  lemma BringUpAttached(f: Faults, p: Plane, up: Roster, stale: Roster, id: string, iface: string, cidrs: seq<Cidr>, metric: nat) returns (mid: Plane)
    requires Reliable(f, RouteReplace) && Reliable(f, LinkDelete)
    requires Attached(p, up, stale) && Seated(up, stale, id, iface) && BringUp(f, p, id, iface, cidrs, metric).1
    ensures var q := BringUp(f, p, id, iface, cidrs, metric).0;
            && Raised(f, p, mid, q, id, iface, Keys(cidrs, metric))
            && Attached(q, up[id := Claims(iface, Keys(cidrs, metric))], stale - {id})
  {
    SeatedAlone(up, stale, id, iface);
    CleanupAttached(f, p, up, stale, id, iface, cidrs, metric);
    hide Attached, Seated, TearDown, CleanedAt, Gained, Keys, Reliable, Ours, BringUp, Claim;
    mid := TearDown(f, p, id, iface, cidrs, metric).0;
    var linked := CleanBringUp(f, p, id, iface, cidrs, metric);
    ClaimAttached(f, mid, linked, up, stale - {id}, id, iface, cidrs, metric);
  }

  lemma SeatedAlone(up: Roster, stale: Roster, id: string, iface: string)
    requires Seated(up, stale, id, iface)
    ensures Ours(iface) && id !in up && forall j :: j in up + (stale - {id}) ==> (up + (stale - {id}))[j].iface != iface
  {
    assert forall j :: j in up + (stale - {id}) ==> j in up + stale && (up + stale)[j] == (up + (stale - {id}))[j] && j != id;
  }

  /** A bring-up that works, once the interface is cleared: the claim on a new link. */
  lemma CleanBringUp(f: Faults, p: Plane, id: string, iface: string, cidrs: seq<Cidr>, metric: nat) returns (linked: Plane)
    requires BringUp(f, p, id, iface, cidrs, metric).1
    requires var (mid, ok) := TearDown(f, p, id, iface, cidrs, metric); ok && iface !in mid.kernel.links
    ensures var mid := TearDown(f, p, id, iface, cidrs, metric).0;
            && linked.owners == mid.owners && linked.kernel.routes == mid.kernel.routes
            && linked.kernel.links == mid.kernel.links[iface := mid.kernel.nextIf] && linked.kernel.nextIf == mid.kernel.nextIf + 1
            && BringUp(f, p, id, iface, cidrs, metric) == Claim(f, linked, id, mid.kernel.nextIf, cidrs, metric, [])
            && Claim(f, linked, id, mid.kernel.nextIf, cidrs, metric, []).1
  {
    CleanupIsTearDown(f, p, id, iface, cidrs, metric);
    hide TearDown, Cleanup, Claim;
    var mid := TearDown(f, p, id, iface, cidrs, metric).0;
    linked := mid.(kernel := Called(CreateLink(f, mid.kernel, iface).0));
  }

  /** Claiming on a fresh link. */
  lemma ClaimAttached(f: Faults, p: Plane, linked: Plane, up: Roster, stale: Roster, id: string, iface: string, cidrs: seq<Cidr>, metric: nat)
    requires Attached(p, up, stale) && Ours(iface) && id !in up && id !in stale && iface !in p.kernel.links
    requires forall j :: j in up + stale ==> (up + stale)[j].iface != iface
    requires linked.owners == p.owners && linked.kernel.routes == p.kernel.routes
    requires linked.kernel.links == p.kernel.links[iface := p.kernel.nextIf] && linked.kernel.nextIf == p.kernel.nextIf + 1
    requires Claim(f, linked, id, p.kernel.nextIf, cidrs, metric, []).1
    ensures var q := Claim(f, linked, id, p.kernel.nextIf, cidrs, metric, []).0;
            var keys := Keys(cidrs, metric);
            && SameLinks(linked, q) && q.owners == With(p.owners, id, p.kernel.nextIf, keys)
            && Gained(p, q, p.kernel.nextIf, keys)
            && (forall k :: k in keys && k !in q.kernel.routes ==> k in p.owners && !Reliable(f, RouteAdd))
            && Attached(q, up[id := Claims(iface, keys)], stale)
  {
    var ix := p.kernel.nextIf;
    var keys := Keys(cidrs, metric);
    var q := Claim(f, linked, id, ix, cidrs, metric, []).0;
    NotOwner(p, up, id);
    assert Tidy(p.owners);
    hide LinksOk, OwnersOk, Claim, With, Unowned, Tidy, Keys;
    ClaimFinished(f, linked, id, iface, ix, cidrs, metric);
    ClaimedAttached(p, linked, q, up, stale, id, iface, keys);
  }

  /** A finished claim on a live interface by a tunnel without routes. */
  lemma ClaimFinished(f: Faults, p: Plane, id: string, iface: string, ix: nat, cidrs: seq<Cidr>, metric: nat)
    requires Tidy(p.owners) && Unowned(p.owners, id) && iface in p.kernel.links && p.kernel.links[iface] == ix
    requires Claim(f, p, id, ix, cidrs, metric, []).1
    ensures Claimed(f, p, Claim(f, p, id, ix, cidrs, metric, []).0, id, ix, Keys(cidrs, metric))
    ensures forall k :: k in Keys(cidrs, metric) ==> k.dst.Prefix?
  {
    WithNothing(p.owners, id, ix);
    assert Keys([], metric) == {};
    assert Live(p, ix);
    hide Claim, With, Unowned, Tidy;
    ClaimOutcome(f, p, p, id, ix, cidrs, metric, []);
    Assoc(cidrs, [], []);
  }

  lemma GainedPrefixes(p: Plane, q: Plane, ix: nat, keys: set<RouteKey>)
    requires Gained(p, q, ix, keys) && (forall k :: k in p.kernel.routes ==> k.dst.Prefix?) && forall k :: k in keys ==> k.dst.Prefix?
    ensures forall k :: k in q.kernel.routes ==> k.dst.Prefix?
  {
  }

  lemma ClaimedAttached(p: Plane, linked: Plane, q: Plane, up: Roster, stale: Roster, id: string, iface: string, keys: set<RouteKey>)
    requires Attached(p, up, stale) && Ours(iface) && id !in up && id !in stale && iface !in p.kernel.links
    requires forall j :: j in up + stale ==> (up + stale)[j].iface != iface
    requires linked.owners == p.owners && linked.kernel.routes == p.kernel.routes
    requires linked.kernel.links == p.kernel.links[iface := p.kernel.nextIf] && linked.kernel.nextIf == p.kernel.nextIf + 1
    requires SameLinks(linked, q) && q.owners == With(p.owners, id, p.kernel.nextIf, keys) && Gained(p, q, p.kernel.nextIf, keys)
    requires forall k :: k in keys ==> k.dst.Prefix?
    ensures Attached(q, up[id := Claims(iface, keys)], stale)
  {
    hide LinksOk, With, OwnersOk, Ours, Gained;
    var up' := up[id := Claims(iface, {})];
    assert Admissible(up, stale, map[], id, iface, {});
    hide Admissible;
    GainedPrefixes(p, q, p.kernel.nextIf, keys);
    LinkLinks(p, linked, up, stale, id, iface);
    LinkOwners(p, linked, up, id, iface);
    ReclaimLinks(linked, q, up', stale, id, keys);
    ClaimOwners(linked, q, up', id, keys);
    assert up'[id := Claims(iface, keys)] == up[id := Claims(iface, keys)];
  }

  // ---------- the restore loop ----------

  ghost predicate SameLink(a: Kernel, b: Kernel, n: string) {
    (n in a.links <==> n in b.links) && (n in a.links ==> a.links[n] == b.links[n])
  }

  /** Before tunnel i is restored, everything having worked so far: the enabled tunnels before it are up, and
      the interfaces from it on are as kernel had them. */
  ghost predicate Restoring(p: Plane, ts: seq<Tunnel>, i: nat, up: Roster, kernel: Kernel) {
    && i <= |ts| && Attached(p, up, Pending(ts, i, kernel)) && Agrees(up, ts) && Before(ts, up, i)
    && (forall m :: 0 <= m < i && ts[m].enabled ==> ts[m].id in up)
    && (forall m :: i <= m < |ts| ==> SameLink(p.kernel, kernel, ts[m].iface))
  }

  lemma PendingIsSeated(ts: seq<Tunnel>, up: Roster, foreign: map<RouteKey, nat>, i: nat, kernel: Kernel)
    requires ValidConfig(ts, foreign) && Agrees(up, ts) && i < |ts| && ts[i].enabled && Before(ts, up, i)
    ensures Seated(up, Pending(ts, i, kernel), ts[i].id, ts[i].iface)
  {
    var stale := Pending(ts, i, kernel);
    PendingRoster(ts, foreign, i, kernel);
    FindIs(ts, foreign, i);
    hide RouteKeys, Through;
    forall j | j in up + stale && (up + stale)[j].iface == ts[i].iface
      ensures j == ts[i].id
    {
      var m := FindTunnel(ts, j).value;
      assert ts[m].iface == ts[i].iface;
      assert m == i;
    }
  }

  /** One tunnel of the loop, restored without an error. */
  lemma RestoreStep(f: Faults, p: Plane, ts: seq<Tunnel>, i: nat, up: Roster, foreign: map<RouteKey, nat>, kernel: Kernel) returns (mid: Plane)
    requires Reliable(f, RouteReplace) && Reliable(f, LinkDelete) && ValidConfig(ts, foreign)
    requires Restoring(p, ts, i, up, kernel) && i < |ts| && ts[i].enabled && LoadAndBringUpTunnel(f, p, ts[i]).1
    ensures var q := LoadAndBringUpTunnel(f, p, ts[i]).0;
            && Raised(f, p, mid, q, ts[i].id, ts[i].iface, RouteKeys(ts[i]))
            && Restoring(q, ts, i + 1, up[ts[i].id := ClaimOf(ts[i])], kernel)
  {
    var t := ts[i];
    var stale := Pending(ts, i, kernel);
    PendingIsSeated(ts, up, foreign, i, kernel);
    PendingMinus(ts, foreign, i, kernel);
    hide Attached, Pending, Seated, BringUp, ValidConfig, Agrees, FindTunnel, Before, SameLink, Raised;
    mid := LoadRaises(f, p, t, up, stale);
    RaisedRestoring(f, p, mid, LoadAndBringUpTunnel(f, p, t).0, ts, i, up, foreign, kernel);
  }

  lemma LoadRaises(f: Faults, p: Plane, t: Tunnel, up: Roster, stale: Roster) returns (mid: Plane)
    requires Reliable(f, RouteReplace) && Reliable(f, LinkDelete)
    requires Attached(p, up, stale) && Seated(up, stale, t.id, t.iface) && LoadAndBringUpTunnel(f, p, t).1
    ensures var q := LoadAndBringUpTunnel(f, p, t).0;
            Raised(f, p, mid, q, t.id, t.iface, RouteKeys(t)) && Attached(q, up[t.id := ClaimOf(t)], stale - {t.id})
  {
    var c := p.(kernel := Called(p.kernel));
    assert Attached(c, up, stale);
    hide Attached, Seated, BringUp;
    mid := BringUpAttached(f, c, up, stale, t.id, t.iface, t.allowed, EffectiveMetric(t.routeMetric));
    hide Raised;
    RaisedSame(f, c, p, mid, LoadAndBringUpTunnel(f, p, t).0, t.id, t.iface, RouteKeys(t));
  }

  lemma RaisedRestoring(f: Faults, p: Plane, mid: Plane, q: Plane, ts: seq<Tunnel>, i: nat, up: Roster, foreign: map<RouteKey, nat>, kernel: Kernel)
    requires ValidConfig(ts, foreign) && Restoring(p, ts, i, up, kernel) && i < |ts| && ts[i].enabled
    requires Raised(f, p, mid, q, ts[i].id, ts[i].iface, RouteKeys(ts[i]))
    requires Attached(q, up[ts[i].id := ClaimOf(ts[i])], Pending(ts, i + 1, kernel))
    ensures Restoring(q, ts, i + 1, up[ts[i].id := ClaimOf(ts[i])], kernel)
  {
    hide FindTunnel, Attached, Pending, Agrees, Raised, RouteKeys, ValidConfig, SameLink, Before, ClaimOf;
    AgreesMore(ts, up, foreign, i);
    BeforeMore(ts, up, i);
    forall m | i < m < |ts|
      ensures SameLink(q.kernel, kernel, ts[m].iface)
    {
      IfacesApart(ts, foreign, i, m);
      RaisedLink(f, p, mid, q, ts[i].id, ts[i].iface, RouteKeys(ts[i]), kernel, ts[m].iface);
    }
  }

  lemma IfacesApart(ts: seq<Tunnel>, foreign: map<RouteKey, nat>, i: nat, m: nat)
    requires ValidConfig(ts, foreign) && i < m < |ts|
    ensures ts[i].iface != ts[m].iface
  {
  }

  lemma RaisedLink(f: Faults, p: Plane, mid: Plane, q: Plane, id: string, iface: string, keys: set<RouteKey>, kernel: Kernel, n: string)
    requires Raised(f, p, mid, q, id, iface, keys) && n != iface && SameLink(p.kernel, kernel, n)
    ensures SameLink(q.kernel, kernel, n)
  {
    hide CleanedAt, Gained, Reliable;
  }

  /** Counting a call changes no table. */
  lemma RaisedSame(f: Faults, c: Plane, p: Plane, mid: Plane, q: Plane, id: string, iface: string, keys: set<RouteKey>)
    requires c == p.(kernel := Called(p.kernel)) && Raised(f, c, mid, q, id, iface, keys)
    ensures Raised(f, p, mid, q, id, iface, keys)
  {
    forall k
      ensures CleanedAt(p, mid, iface, keys, k)
    {
      assert CleanedAt(c, mid, iface, keys, k);
    }
  }

  lemma BeforeMore(ts: seq<Tunnel>, up: Roster, i: nat)
    requires i < |ts| && Before(ts, up, i) && FindTunnel(ts, ts[i].id) == Some(i)
    ensures Before(ts, up[ts[i].id := ClaimOf(ts[i])], i + 1)
  {
  }

  lemma SkipStep(p: Plane, ts: seq<Tunnel>, i: nat, up: Roster, foreign: map<RouteKey, nat>, kernel: Kernel)
    requires ValidConfig(ts, foreign) && Restoring(p, ts, i, up, kernel) && i < |ts| && !ts[i].enabled
    ensures Restoring(p, ts, i + 1, up, kernel)
  {
    PendingNext(ts, foreign, i, kernel);
    hide Attached, Pending, ValidConfig, Agrees, FindTunnel;
  }

  /** A route has owners exactly if a tunnel restored so far claims it. */
  lemma OwnersSoFar(p: Plane, ts: seq<Tunnel>, i: nat, up: Roster, foreign: map<RouteKey, nat>, kernel: Kernel, k: RouteKey)
    requires ValidConfig(ts, foreign) && Restoring(p, ts, i, up, kernel)
    ensures k in p.owners <==> exists m :: m < i && Claimant(ts, m, k)
  {
    hide Pending, LinksOk, RouteKeys;
    if k in p.owners {
      var o := p.owners[k][0];
      assert Lists(p.owners, k, o);
      var m := FindTunnel(ts, o.tunnel).value;
      assert Claimant(ts, m, k);
    }
    if m :| m < i && Claimant(ts, m, k) {
      FindIs(ts, foreign, m);
      assert k in up[ts[m].id].keys;
    }
  }

  /** No owner's interface is one that is still to be restored. */
  lemma OwnerNotPending(p: Plane, ts: seq<Tunnel>, i: nat, up: Roster, foreign: map<RouteKey, nat>, kernel: Kernel, k: RouteKey, o: Owner, j: nat)
    requires ValidConfig(ts, foreign) && Restoring(p, ts, i, up, kernel) && Lists(p.owners, k, o)
    requires i <= j < |ts| && ts[j].iface in p.kernel.links
    ensures o.oif != p.kernel.links[ts[j].iface]
  {
    hide Pending, RouteKeys, Apart, Belongs;
    var m := FindTunnel(ts, o.tunnel).value;
    assert up[o.tunnel].iface == ts[m].iface && m < i;
  }

  // ---------- one route through the loop ----------

  /** Route k goes through the leftover interface of tunnel j, still to be restored. */
  ghost predicate On(p: Plane, ts: seq<Tunnel>, i: nat, j: nat, k: RouteKey) {
    && i <= j < |ts| && ts[j].enabled && ts[j].iface in p.kernel.links
    && k in p.kernel.routes && p.kernel.routes[k] == p.kernel.links[ts[j].iface]
  }

  /** A claimant from tunnel i on will be cleaned up or brought up after j's link is gone, or will move the
      route away from j's link by cleaning up a leftover link of its own. */
  ghost predicate Saved(ts: seq<Tunnel>, kernel: Kernel, i: nat, j: nat, k: RouteKey) {
    exists m :: Claimant(ts, m, k) && (m >= j || (i <= m && ts[m].iface in kernel.links))
  }

  /** Two claimants before j, the second with a leftover link: its cleanup hands the route to the first. */
  ghost predicate HandedOver(ts: seq<Tunnel>, kernel: Kernel, j: nat, k: RouteKey) {
    exists a, b :: a < b < j && Claimant(ts, a, k) && Claimant(ts, b, k) && ts[b].iface in kernel.links
  }

  /** Every claimed route on the leftover link of an enabled tunnel that comes after a claimant is claimed by
      that tunnel or a later one, or is handed over before its link is deleted. */
  ghost predicate Rescued(ts: seq<Tunnel>, kernel: Kernel) {
    forall m, j, k :: Claimant(ts, m, k) && m < j < |ts| && ts[j].enabled && k in Through(kernel, ts[j].iface) ==>
                        (exists l :: l >= j && Claimant(ts, l, k)) || HandedOver(ts, kernel, j, k)
  }

  /** Where route k stands before tunnel i is restored: it goes through an owner or a leftover interface; if it
      is owned but missing, a claimant is still to come; if it is owned but on a leftover
      interface, it is saved. */
  ghost predicate OnCourse(p: Plane, ts: seq<Tunnel>, i: nat, kernel: Kernel, k: RouteKey) {
    && (k in p.kernel.routes ==> (k in p.owners && OifIn(p.owners[k], p.kernel.routes[k])) || exists j: nat :: On(p, ts, i, j, k))
    && (k in p.owners && k !in p.kernel.routes ==> exists m :: m >= i && Claimant(ts, m, k))
    && (forall j: nat :: On(p, ts, i, j, k) ==> k in Through(kernel, ts[j].iface) && (k in p.owners ==> Saved(ts, kernel, i, j, k)))
  }

  /** Route k after one bring-up, by what the cleanup left of it. */
  ghost predicate RaisedAt(f: Faults, p: Plane, q: Plane, id: string, iface: string, keys: set<RouteKey>, k: RouteKey) {
    && (k in q.owners <==> k in p.owners || k in keys)
    && (k in p.owners ==> p.owners[k] <= q.owners[k])
    && if iface in p.kernel.links && k in keys && k in p.owners
       then k in q.kernel.routes && OifIn(p.owners[k], q.kernel.routes[k])
       else if k in p.kernel.routes && !(iface in p.kernel.links && p.kernel.routes[k] == p.kernel.links[iface])
       then k in q.kernel.routes && q.kernel.routes[k] == p.kernel.routes[k]
       else && (k in q.kernel.routes ==> k in keys && OifIn(q.owners[k], q.kernel.routes[k]))
            && (k in keys && Reliable(f, RouteAdd) ==> k in q.kernel.routes)
  }

  lemma RaisedKey(f: Faults, p: Plane, mid: Plane, q: Plane, id: string, iface: string, keys: set<RouteKey>, k: RouteKey)
    requires Raised(f, p, mid, q, id, iface, keys)
    ensures RaisedAt(f, p, q, id, iface, keys, k)
  {
    assert CleanedAt(p, mid, iface, keys, k);
    if k in keys {
      assert q.owners[k] == Listed(p.owners, k) + [Owner(id, p.kernel.nextIf)];
      assert q.owners[k][|Listed(p.owners, k)|] == Owner(id, p.kernel.nextIf);
    } else if k in p.owners {
      assert q.owners[k] == p.owners[k] + [];
    }
  }

  /** A route through an owner is on no leftover interface. */
  lemma OwnedNotOn(p: Plane, ts: seq<Tunnel>, i: nat, up: Roster, foreign: map<RouteKey, nat>, kernel: Kernel, k: RouteKey, j: nat)
    requires ValidConfig(ts, foreign) && Restoring(p, ts, i, up, kernel)
    requires k in p.owners && k in p.kernel.routes && OifIn(p.owners[k], p.kernel.routes[k])
    ensures !On(p, ts, i, j, k)
  {
    hide Restoring, ValidConfig;
    if On(p, ts, i, j, k) {
      var o :| o in p.owners[k] && o.oif == p.kernel.routes[k];
      assert Lists(p.owners, k, o);
      OwnerNotPending(p, ts, i, up, foreign, kernel, k, o, j);
    }
  }

  /** Interface i is there exactly if it was left over. */
  lemma LinkSince(p: Plane, ts: seq<Tunnel>, i: nat, up: Roster, kernel: Kernel, j: nat)
    requires Restoring(p, ts, i, up, kernel) && i <= j < |ts|
    ensures SameLink(p.kernel, kernel, ts[j].iface)
  {
  }

  /** A route on a later leftover interface was there before, and is still saved. */
  lemma StillSaved(p: Plane, ts: seq<Tunnel>, i: nat, kernel: Kernel, k: RouteKey, j: nat)
    requires i < |ts| && ts[i].enabled && Rescued(ts, kernel) && SameLink(p.kernel, kernel, ts[i].iface)
    requires k in p.owners <==> exists m :: m < i && Claimant(ts, m, k)
    requires OnCourse(p, ts, i, kernel, k) && On(p, ts, i, j, k) && j > i
    requires !(ts[i].iface in p.kernel.links && k in RouteKeys(ts[i]) && k in p.owners)
    requires k in p.owners || k in RouteKeys(ts[i])
    ensures Saved(ts, kernel, i + 1, j, k)
  {
    hide Through, RouteKeys;
    if k in p.owners {
      var m :| Claimant(ts, m, k) && (m >= j || (i <= m && ts[m].iface in kernel.links));
      assert m != i;
    } else {
      assert Claimant(ts, i, k);
      if HandedOver(ts, kernel, j, k) {
        var a, b :| a < b < j && Claimant(ts, a, k) && Claimant(ts, b, k) && ts[b].iface in kernel.links;
        assert a >= i;
        assert Claimant(ts, b, k) && i + 1 <= b;
      } else {
        var l :| l >= j && Claimant(ts, l, k);
        assert Claimant(ts, l, k) && l >= j;
      }
    }
  }

  /** Raising tunnel i keeps every route on course. */
  lemma StaysOnCourse(f: Faults, p: Plane, q: Plane, ts: seq<Tunnel>, i: nat, up: Roster, up': Roster, foreign: map<RouteKey, nat>, kernel: Kernel, k: RouteKey)
    requires Reliable(f, RouteAdd) && ValidConfig(ts, foreign) && Rescued(ts, kernel)
    requires i < |ts| && ts[i].enabled && Restoring(p, ts, i, up, kernel) && Restoring(q, ts, i + 1, up', kernel)
    requires RaisedAt(f, p, q, ts[i].id, ts[i].iface, RouteKeys(ts[i]), k)
    requires OnCourse(p, ts, i, kernel, k)
    ensures OnCourse(q, ts, i + 1, kernel, k)
  {
    LinkSince(p, ts, i, up, kernel, i);
    if k in p.kernel.routes && !(ts[i].iface in p.kernel.links && p.kernel.routes[k] == p.kernel.links[ts[i].iface])
       && !(ts[i].iface in p.kernel.links && k in RouteKeys(ts[i]) && k in p.owners) {
      OwnersSoFar(p, ts, i, up, foreign, kernel, k);
      hide ValidConfig, Rescued, RouteKeys, Through, Reliable, Attached, Agrees, Before, Pending;
      LeftAlone(p, q, ts, i, kernel, k);
    } else {
      if k in q.kernel.routes {
        assert OifIn(q.owners[k], q.kernel.routes[k]);
        NowOwned(q, ts, i + 1, up', foreign, kernel, k);
      } else {
        hide ValidConfig, Rescued, RouteKeys, Through, Reliable, Restoring;
        NowMissing(p, q, ts, i, kernel, k);
      }
    }
  }

  lemma NowOwned(p: Plane, ts: seq<Tunnel>, i: nat, up: Roster, foreign: map<RouteKey, nat>, kernel: Kernel, k: RouteKey)
    requires ValidConfig(ts, foreign) && Restoring(p, ts, i, up, kernel)
    requires k in p.owners && k in p.kernel.routes && OifIn(p.owners[k], p.kernel.routes[k])
    ensures OnCourse(p, ts, i, kernel, k)
  {
    forall j: nat
      ensures !On(p, ts, i, j, k)
    {
      OwnedNotOn(p, ts, i, up, foreign, kernel, k, j);
    }
  }

  /** The route was missing or on i's own link, and i does not claim it. */
  lemma NowMissing(p: Plane, q: Plane, ts: seq<Tunnel>, i: nat, kernel: Kernel, k: RouteKey)
    requires i < |ts| && ts[i].enabled && OnCourse(p, ts, i, kernel, k) && k !in q.kernel.routes
    requires k in p.kernel.routes ==> ts[i].iface in p.kernel.links && p.kernel.routes[k] == p.kernel.links[ts[i].iface]
    requires k !in RouteKeys(ts[i]) && (k in q.owners ==> k in p.owners)
    ensures OnCourse(q, ts, i + 1, kernel, k)
  {
    hide RouteKeys, Through;
    if k in q.owners {
      if k in p.kernel.routes {
        assert On(p, ts, i, i, k);
        var m :| Claimant(ts, m, k) && m >= i;
        assert m != i;
      }
    }
  }

  /** The bring-up of i did not touch the route. */
  lemma LeftAlone(p: Plane, q: Plane, ts: seq<Tunnel>, i: nat, kernel: Kernel, k: RouteKey)
    requires i < |ts| && ts[i].enabled && Rescued(ts, kernel) && OnCourse(p, ts, i, kernel, k)
    requires forall m :: i < m < |ts| ==> SameLink(p.kernel, kernel, ts[m].iface) && SameLink(q.kernel, kernel, ts[m].iface)
    requires SameLink(p.kernel, kernel, ts[i].iface) && (k in p.owners <==> exists m :: m < i && Claimant(ts, m, k))
    requires k in p.kernel.routes && !(ts[i].iface in p.kernel.links && p.kernel.routes[k] == p.kernel.links[ts[i].iface])
    requires !(ts[i].iface in p.kernel.links && k in RouteKeys(ts[i]) && k in p.owners)
    requires k in q.kernel.routes && q.kernel.routes[k] == p.kernel.routes[k]
    requires (k in q.owners <==> k in p.owners || k in RouteKeys(ts[i])) && (k in p.owners ==> p.owners[k] <= q.owners[k])
    ensures OnCourse(q, ts, i + 1, kernel, k)
  {
    hide Rescued, RouteKeys, Through, Saved, Claimant;
    forall j: nat | i < j < |ts|
      ensures On(q, ts, i + 1, j, k) <==> On(p, ts, i, j, k)
    {
      assert SameLink(p.kernel, kernel, ts[j].iface) && SameLink(q.kernel, kernel, ts[j].iface);
    }
    assert !On(p, ts, i, i, k);
    forall j: nat | i < j < |ts| && On(p, ts, i, j, k) && k in q.owners
      ensures Saved(ts, kernel, i + 1, j, k)
    {
      StillSaved(p, ts, i, kernel, k, j);
    }
    if k in p.owners && OifIn(p.owners[k], p.kernel.routes[k]) {
      var o :| o in p.owners[k] && o.oif == p.kernel.routes[k];
      assert o in q.owners[k];
    } else {
      var j: nat :| On(p, ts, i, j, k);
      assert On(q, ts, i + 1, j, k);
    }
  }

  /** The routes of others are in place and on none of our interfaces. */
  ghost predicate ForeignKept(p: Plane, foreign: map<RouteKey, nat>) {
    && (forall k :: k in foreign ==>
          k !in p.owners && k in p.kernel.routes && p.kernel.routes[k] == foreign[k] && foreign[k] < p.kernel.nextIf)
    && (forall k, n :: k in foreign && n in p.kernel.links && Ours(n) ==> p.kernel.links[n] != foreign[k])
  }

  lemma RaisedForeign(f: Faults, p: Plane, mid: Plane, q: Plane, id: string, iface: string, keys: set<RouteKey>, foreign: map<RouteKey, nat>)
    requires Raised(f, p, mid, q, id, iface, keys) && keys !! foreign.Keys && Ours(iface) && ForeignKept(p, foreign)
    ensures ForeignKept(q, foreign)
  {
    hide Ours, Reliable;
    forall k | k in foreign
      ensures k !in q.owners && k in q.kernel.routes && q.kernel.routes[k] == foreign[k]
    {
      assert CleanedAt(p, mid, iface, keys, k);
    }
  }

  /** Every route that is not foreign is on course. */
  ghost predicate AllOnCourse(p: Plane, ts: seq<Tunnel>, i: nat, kernel: Kernel, foreign: map<RouteKey, nat>) {
    forall k {:trigger OnCourse(p, ts, i, kernel, k)} :: k !in foreign ==> OnCourse(p, ts, i, kernel, k)
  }

  lemma AllStayOnCourse(f: Faults, p: Plane, mid: Plane, q: Plane, ts: seq<Tunnel>, i: nat, up: Roster, up': Roster, foreign: map<RouteKey, nat>, kernel: Kernel)
    requires Reliable(f, RouteAdd) && ValidConfig(ts, foreign) && Rescued(ts, kernel)
    requires i < |ts| && ts[i].enabled && Restoring(p, ts, i, up, kernel) && Restoring(q, ts, i + 1, up', kernel)
    requires Raised(f, p, mid, q, ts[i].id, ts[i].iface, RouteKeys(ts[i]))
    requires AllOnCourse(p, ts, i, kernel, foreign)
    ensures AllOnCourse(q, ts, i + 1, kernel, foreign)
  {
    hide Raised, Restoring, Rescued, ValidConfig, RaisedAt, OnCourse, Reliable, RouteKeys;
    forall k | k !in foreign
      ensures OnCourse(q, ts, i + 1, kernel, k)
    {
      RaisedKey(f, p, mid, q, ts[i].id, ts[i].iface, RouteKeys(ts[i]), k);
      StaysOnCourse(f, p, q, ts, i, up, up', foreign, kernel, k);
    }
  }

  lemma AllSkipped(p: Plane, ts: seq<Tunnel>, i: nat, foreign: map<RouteKey, nat>, kernel: Kernel)
    requires i < |ts| && !ts[i].enabled && AllOnCourse(p, ts, i, kernel, foreign)
    ensures AllOnCourse(p, ts, i + 1, kernel, foreign)
  {
    hide Through, RouteKeys;
    forall k | k !in foreign
      ensures OnCourse(p, ts, i + 1, kernel, k)
    {
      assert OnCourse(p, ts, i, kernel, k);
      Skipped(p, ts, i, kernel, k);
    }
  }

  lemma Skipped(p: Plane, ts: seq<Tunnel>, i: nat, kernel: Kernel, k: RouteKey)
    requires i < |ts| && !ts[i].enabled && OnCourse(p, ts, i, kernel, k)
    ensures OnCourse(p, ts, i + 1, kernel, k)
  {
    hide Through, RouteKeys;
    forall j: nat | i < j < |ts|
      ensures On(p, ts, i + 1, j, k) <==> On(p, ts, i, j, k)
      ensures Saved(ts, kernel, i, j, k) ==> Saved(ts, kernel, i + 1, j, k)
    {
      if Saved(ts, kernel, i, j, k) {
        var m :| Claimant(ts, m, k) && (m >= j || (i <= m && ts[m].iface in kernel.links));
        assert m != i && Claimant(ts, m, k);
      }
    }
    assert !On(p, ts, i, i, k);
    if j: nat :| On(p, ts, i, j, k) {
      assert On(p, ts, i + 1, j, k);
    }
  }

  /** At the end of the loop nothing is pending, and the routes are as owned. */
  lemma CourseEnds(p: Plane, ts: seq<Tunnel>, up: Roster, foreign: map<RouteKey, nat>, kernel: Kernel)
    requires Restoring(p, ts, |ts|, up, kernel) && AllOnCourse(p, ts, |ts|, kernel, foreign) && ForeignKept(p, foreign)
    ensures Owned(p, up, map[], foreign) && EnabledIn(ts, up)
  {
    PendingEnd(ts, kernel);
    hide Through, RouteKeys, Pending, Agrees, Before, LinksOk, OwnersOk;
    forall k
      ensures k in p.owners ==> k in p.kernel.routes && OifIn(p.owners[k], p.kernel.routes[k])
      ensures k in p.kernel.routes ==> k in p.owners || k in foreign
    {
      if k !in foreign {
        assert OnCourse(p, ts, |ts|, kernel, k);
      }
    }
  }

  /** The loop without errors, the rescue condition holding. */
  lemma {:induction false} RestoresOwned(f: Faults, p: Plane, ts: seq<Tunnel>, i: nat, up: Roster, foreign: map<RouteKey, nat>, kernel: Kernel) returns (up': Roster)
    requires Reliable(f, RouteReplace) && Reliable(f, LinkDelete) && Reliable(f, RouteAdd) && ValidConfig(ts, foreign)
    requires Restoring(p, ts, i, up, kernel) && RestoreEach(f, p, ts[i..]).1
    requires Rescued(ts, kernel) && AllOnCourse(p, ts, i, kernel, foreign) && ForeignKept(p, foreign)
    ensures Owned(RestoreEach(f, p, ts[i..]).0, up', map[], foreign) && Agrees(up', ts) && EnabledIn(ts, up')
    decreases |ts| - i
  {
    assert Agrees(up, ts);
    hide Owned, Attached, Pending, LoadAndBringUpTunnel, Agrees, FindTunnel, ClaimOf, Rescued, AllOnCourse, ForeignKept, Raised, SameLink, Before, RouteKeys, Reliable;
    if i == |ts| {
      CourseEnds(p, ts, up, foreign, kernel);
      up' := up;
    } else {
      var t := ts[i];
      assert ts[i..][0] == t && ts[i..][1..] == ts[i + 1..];
      if t.enabled {
        var q := LoadAndBringUpTunnel(f, p, t).0;
        var mid := RestoreStep(f, p, ts, i, up, foreign, kernel);
        var up1 := up[t.id := ClaimOf(t)];
        AllStayOnCourse(f, p, mid, q, ts, i, up, up1, foreign, kernel);
        RaisedForeign(f, p, mid, q, t.id, t.iface, RouteKeys(t), foreign);
        up' := RestoresOwned(f, q, ts, i + 1, up1, foreign, kernel);
      } else {
        SkipStep(p, ts, i, up, foreign, kernel);
        AllSkipped(p, ts, i, foreign, kernel);
        up' := RestoresOwned(f, p, ts, i + 1, up, foreign, kernel);
      }
    }
  }

  // ---------- a stranded route is lost ----------

  /** Route k lies on the leftover link of enabled tunnel j, a tunnel before j claims it, none from j on does,
      and no cleanup before j's hands it over. */
  ghost predicate Stranded(ts: seq<Tunnel>, kernel: Kernel, m: nat, j: nat, k: RouteKey) {
    && Claimant(ts, m, k) && m < j < |ts| && ts[j].enabled && k in Through(kernel, ts[j].iface)
    && (forall l :: l >= j ==> !Claimant(ts, l, k)) && !HandedOver(ts, kernel, j, k)
  }

  /** It stays on j's link until that is deleted, and then it is gone. */
  ghost predicate Sinking(p: Plane, ts: seq<Tunnel>, i: nat, j: nat, k: RouteKey) {
    if i <= j then On(p, ts, i, j, k) else k !in p.kernel.routes
  }

  lemma SinksFurther(f: Faults, p: Plane, q: Plane, ts: seq<Tunnel>, i: nat, up: Roster, up': Roster, foreign: map<RouteKey, nat>, kernel: Kernel, m: nat, j: nat, k: RouteKey)
    requires ValidConfig(ts, foreign) && Stranded(ts, kernel, m, j, k)
    requires i < |ts| && ts[i].enabled && Restoring(p, ts, i, up, kernel) && Restoring(q, ts, i + 1, up', kernel)
    requires RaisedAt(f, p, q, ts[i].id, ts[i].iface, RouteKeys(ts[i]), k)
    requires Sinking(p, ts, i, j, k)
    ensures Sinking(q, ts, i + 1, j, k)
  {
    hide Restoring, ValidConfig, Through, Reliable, RouteKeys;
    if i < j {
      LinkSince(p, ts, i, up, kernel, i);
      LinkSince(p, ts, i, up, kernel, j);
      LinkSince(q, ts, i + 1, up', kernel, j);
      if ts[i].iface in p.kernel.links {
        LinksApart(p, ts, i, up, foreign, kernel, j);
      }
      OwnersSoFar(p, ts, i, up, foreign, kernel, k);
      NotHandedOver(p, ts, i, kernel, m, j, k);
    } else {
      assert !Claimant(ts, i, k);
    }
  }

  lemma NotHandedOver(p: Plane, ts: seq<Tunnel>, i: nat, kernel: Kernel, m: nat, j: nat, k: RouteKey)
    requires Stranded(ts, kernel, m, j, k) && i < j && ts[i].enabled && SameLink(p.kernel, kernel, ts[i].iface)
    requires k in p.owners <==> exists m :: m < i && Claimant(ts, m, k)
    ensures !(ts[i].iface in p.kernel.links && k in RouteKeys(ts[i]) && k in p.owners)
  {
    hide Through, RouteKeys;
    if ts[i].iface in p.kernel.links && k in RouteKeys(ts[i]) {
      assert Claimant(ts, i, k);
    }
  }

  lemma LinksApart(p: Plane, ts: seq<Tunnel>, i: nat, up: Roster, foreign: map<RouteKey, nat>, kernel: Kernel, j: nat)
    requires ValidConfig(ts, foreign) && Restoring(p, ts, i, up, kernel) && i < j < |ts|
    requires ts[i].iface in p.kernel.links && ts[j].iface in p.kernel.links
    ensures p.kernel.links[ts[i].iface] != p.kernel.links[ts[j].iface]
  {
    hide Apart, Belongs, RouteKeys, Pending;
    assert ts[i].iface != ts[j].iface;
  }

  /** The loop without errors loses a stranded route, whichever route additions fail. */
  lemma {:induction false} LosesStranded(f: Faults, p: Plane, ts: seq<Tunnel>, i: nat, up: Roster, foreign: map<RouteKey, nat>, kernel: Kernel, m: nat, j: nat, k: RouteKey)
    requires Reliable(f, RouteReplace) && Reliable(f, LinkDelete) && ValidConfig(ts, foreign)
    requires Restoring(p, ts, i, up, kernel) && RestoreEach(f, p, ts[i..]).1
    requires Stranded(ts, kernel, m, j, k) && Sinking(p, ts, i, j, k)
    ensures var q := RestoreEach(f, p, ts[i..]).0; k !in q.kernel.routes && ts[m].iface in q.kernel.links
    decreases |ts| - i
  {
    hide Attached, Pending, LoadAndBringUpTunnel, Agrees, FindTunnel, ClaimOf, Raised, RaisedAt, SameLink, Before, RouteKeys, Reliable, Through;
    if i == |ts| {
      AllRestored(p, ts, up, foreign, kernel, m);
    } else {
      var t := ts[i];
      assert ts[i..][0] == t && ts[i..][1..] == ts[i + 1..];
      if t.enabled {
        var q := LoadAndBringUpTunnel(f, p, t).0;
        var mid := RestoreStep(f, p, ts, i, up, foreign, kernel);
        var up1 := up[t.id := ClaimOf(t)];
        RaisedKey(f, p, mid, q, t.id, t.iface, RouteKeys(t), k);
        SinksFurther(f, p, q, ts, i, up, up1, foreign, kernel, m, j, k);
        LosesStranded(f, q, ts, i + 1, up1, foreign, kernel, m, j, k);
      } else {
        SkipStep(p, ts, i, up, foreign, kernel);
        LosesStranded(f, p, ts, i + 1, up, foreign, kernel, m, j, k);
      }
    }
  }

  lemma AllRestored(p: Plane, ts: seq<Tunnel>, up: Roster, foreign: map<RouteKey, nat>, kernel: Kernel, m: nat)
    requires ValidConfig(ts, foreign) && Restoring(p, ts, |ts|, up, kernel) && m < |ts| && ts[m].enabled
    ensures ts[m].iface in p.kernel.links
  {
    FindIs(ts, foreign, m);
    hide Apart, Belongs, RouteKeys, Pending;
    assert ts[m].id in up;
  }

  // ---------- RestoreAll ----------

  /** The kernel after the orphans are removed, as the loop finds it. */
  function Swept(f: Faults, w: World, listing: seq<string>): Plane {
    w.plane.(kernel := RemoveOrphans(f, w.plane.kernel, listing, IfaceNames(w.tunnels)))
  }

  lemma StartsRestoring(f: Faults, w: World, listing: seq<string>, foreign: map<RouteKey, nat>)
    requires Reliable(f, LinkDelete) && ValidConfig(w.tunnels, foreign) && NoDisabledLink(w.plane, w.tunnels)
    requires Leftover(w.plane, foreign) && CoversOurs(listing, w.plane.kernel.links)
    ensures Restoring(Swept(f, w, listing), w.tunnels, 0, map[], w.plane.kernel)
    ensures AllOnCourse(Swept(f, w, listing), w.tunnels, 0, w.plane.kernel, foreign) && ForeignKept(Swept(f, w, listing), foreign)
  {
    hide LinksOk, OwnersOk, RoutesOk, ForeignKept, Pending, RemoveOrphans, RouteKeys, Ours, Orphan, OnCourse, Unlinked, NoDisabledLink, CoversOurs, ValidConfig;
    var ts := w.tunnels;
    var q := Swept(f, w, listing);
    LeftoverNumbered(w.plane, foreign);
    assert q.owners == w.plane.owners == map[];
    hide Leftover;
    var gone := Sweep(f, w, listing);
    SweepLinks(w.plane, q, ts, foreign, gone);
    SweepRoutes(w.plane, q, ts, foreign, gone);
    RoutesKeptForeign(q, Pending(ts, 0, w.plane.kernel), foreign);
    Ownerless(q);
    forall k | k !in foreign
      ensures OnCourse(q, ts, 0, w.plane.kernel, k)
    {
      SweptOnCourse(w.plane, q, ts, foreign, gone, k);
    }
    forall m | 0 <= m < |ts|
      ensures SameLink(q.kernel, w.plane.kernel, ts[m].iface)
    {
      KeptByName(w.plane, q, ts, gone, m);
    }
  }

  lemma Ownerless(p: Plane)
    requires p.owners == map[]
    ensures OwnersOk(p, map[])
  {
  }

  lemma RoutesKeptForeign(p: Plane, stale: Roster, foreign: map<RouteKey, nat>)
    requires RoutesOk(p, stale, foreign)
    ensures ForeignKept(p, foreign) && forall k :: k in p.kernel.routes ==> k.dst.Prefix?
  {
  }

  lemma KeptByName(p: Plane, q: Plane, ts: seq<Tunnel>, gone: set<string>, m: nat)
    requires forall n :: n in gone <==> n in p.kernel.links && Orphan(n, ts)
    requires Unlinked(p.kernel, q.kernel, gone) && m < |ts|
    ensures SameLink(q.kernel, p.kernel, ts[m].iface)
  {
    assert ts[m] in ts;
    assert ts[m].iface in IfaceNames(ts);
  }

  lemma SweptOnCourse(p: Plane, q: Plane, ts: seq<Tunnel>, foreign: map<RouteKey, nat>, gone: set<string>, k: RouteKey)
    requires Leftover(p, foreign) && NoDisabledLink(p, ts) && k !in foreign
    requires forall n :: n in gone <==> n in p.kernel.links && Orphan(n, ts)
    requires q.owners == p.owners && Unlinked(p.kernel, q.kernel, gone)
    ensures OnCourse(q, ts, 0, p.kernel, k)
  {
    hide RouteKeys;
    if k in q.kernel.routes {
      var m := SurvivingRoute(p, q, ts, gone, k);
      assert On(q, ts, 0, m, k);
    }
  }

  /** When RestoreAll reports no error after a restart from any leftover links of ours and routes through
      them, the ownership invariant holds again if and only if no disabled tunnel's link was left
      over and every claimed route was rescued. Either condition failing breaks it even if some
      route additions fail; that the conditions suffice needs the additions to work. */
  lemma RestoreHealsExactly(f: Faults, w: World, listing: seq<string>, foreign: map<RouteKey, nat>)
    requires Reliable(f, RouteReplace) && Reliable(f, LinkDelete)
    requires w.disk == w.tunnels && ValidConfig(w.tunnels, foreign)
    requires Leftover(w.plane, foreign) && CoversOurs(listing, w.plane.kernel.links)
    requires RestoreAll(f, w, listing).1
    ensures var v := RestoreAll(f, w, listing).0;
            var heals := NoDisabledLink(w.plane, w.tunnels) && Rescued(w.tunnels, w.plane.kernel);
            && (Settled(v, foreign) ==> heals)
            && (Reliable(f, RouteAdd) && heals ==> Settled(v, foreign) && AllUp(v))
  {
    hide Settled, Leftover, RestoreEach, Restoring, AllOnCourse, ForeignKept, ValidConfig, RemoveOrphans, AllUp, Rescued;
    var ts := w.tunnels;
    var v := RestoreAll(f, w, listing).0;
    if !NoDisabledLink(w.plane, ts) {
      var i: nat :| i < |ts| && !ts[i].enabled && ts[i].iface in w.plane.kernel.links;
      assert Numbered(w.plane.kernel) by {
        LeftoverNumbered(w.plane, foreign);
      }
      DisabledLinkStays(f, w, listing, foreign, i);
    } else if !Rescued(ts, w.plane.kernel) {
      StrandedBreaks(f, w, listing, foreign);
    } else if Reliable(f, RouteAdd) {
      RescuedHeals(f, w, listing, foreign);
    }
  }

  lemma LeftoverNumbered(p: Plane, foreign: map<RouteKey, nat>)
    requires Leftover(p, foreign)
    ensures Numbered(p.kernel)
  {
  }

  lemma RescuedHeals(f: Faults, w: World, listing: seq<string>, foreign: map<RouteKey, nat>)
    requires Reliable(f, RouteReplace) && Reliable(f, LinkDelete) && Reliable(f, RouteAdd)
    requires w.disk == w.tunnels && ValidConfig(w.tunnels, foreign)
    requires Leftover(w.plane, foreign) && CoversOurs(listing, w.plane.kernel.links)
    requires RestoreAll(f, w, listing).1 && NoDisabledLink(w.plane, w.tunnels) && Rescued(w.tunnels, w.plane.kernel)
    ensures Settled(RestoreAll(f, w, listing).0, foreign) && AllUp(RestoreAll(f, w, listing).0)
  {
    hide Leftover, RestoreEach, Restoring, AllOnCourse, ForeignKept, ValidConfig, RemoveOrphans, Rescued, Owned, Agrees, EnabledIn, NoDisabledLink;
    var ts := w.tunnels;
    var v := RestoreAll(f, w, listing).0;
    StartsRestoring(f, w, listing, foreign);
    assert ts[0..] == ts;
    var up := RestoresOwned(f, Swept(f, w, listing), ts, 0, map[], foreign, w.plane.kernel);
    Settle(v, v.plane, up, foreign);
  }

  lemma StrandedBreaks(f: Faults, w: World, listing: seq<string>, foreign: map<RouteKey, nat>)
    requires Reliable(f, RouteReplace) && Reliable(f, LinkDelete)
    requires ValidConfig(w.tunnels, foreign) && Leftover(w.plane, foreign) && CoversOurs(listing, w.plane.kernel.links)
    requires RestoreAll(f, w, listing).1 && NoDisabledLink(w.plane, w.tunnels) && !Rescued(w.tunnels, w.plane.kernel)
    ensures !Settled(RestoreAll(f, w, listing).0, foreign)
  {
    var ts := w.tunnels;
    var kernel := w.plane.kernel;
    var m, j, k :| Claimant(ts, m, k) && m < j < |ts| && ts[j].enabled && k in Through(kernel, ts[j].iface)
                   && !(exists l :: l >= j && Claimant(ts, l, k)) && !HandedOver(ts, kernel, j, k);
    LosesRoute(f, w, listing, foreign, m, j, k);
    hide RestoreAll, RouteKeys;
    var v := RestoreAll(f, w, listing).0;
    if Settled(v, foreign) {
      SettledMeaning(v, foreign, k);
    }
  }

  /** Restarting without an error loses a stranded route for good, although its claimant is up. */
  lemma LosesRoute(f: Faults, w: World, listing: seq<string>, foreign: map<RouteKey, nat>, m: nat, j: nat, k: RouteKey)
    requires Reliable(f, RouteReplace) && Reliable(f, LinkDelete)
    requires ValidConfig(w.tunnels, foreign) && Leftover(w.plane, foreign) && CoversOurs(listing, w.plane.kernel.links)
    requires RestoreAll(f, w, listing).1 && NoDisabledLink(w.plane, w.tunnels) && Stranded(w.tunnels, w.plane.kernel, m, j, k)
    ensures var v := RestoreAll(f, w, listing).0;
            v.tunnels == w.tunnels && k !in v.plane.kernel.routes && v.tunnels[m].iface in v.plane.kernel.links
  {
    var ts := w.tunnels;
    var q := Swept(f, w, listing);
    StartsRestoring(f, w, listing, foreign);
    assert ts[0..] == ts;
    assert On(q, ts, 0, j, k) by {
      LinkSince(q, ts, 0, map[], w.plane.kernel, j);
      var gone := Sweep(f, w, listing);
      hide Restoring, RemoveOrphans, RouteKeys, CoversOurs;
      assert ts[j].iface in IfaceNames(ts) by {
        assert ts[j] in ts;
      }
    }
    hide Restoring, RemoveOrphans, RestoreEach, Stranded, ValidConfig, Leftover;
    LosesStranded(f, q, ts, 0, map[], foreign, w.plane.kernel, m, j, k);
  }

  // ---------- when every call works ----------

  ghost predicate Faultless(f: Faults) {
    forall c :: Reliable(f, c)
  }

  predicate Parses(t: Tunnel) {
    forall c :: c in t.allowed ==> c.net.Some?
  }

  lemma {:induction false} ClaimSucceeds(f: Faults, p: Plane, id: string, ix: nat, cidrs: seq<Cidr>, metric: nat, registered: seq<Cidr>)
    requires Reliable(f, RouteAdd) && ix in p.kernel.links.Values && forall c :: c in cidrs ==> c.net.Some?
    ensures Claim(f, p, id, ix, cidrs, metric, registered).1
    decreases |cidrs|
  {
    if cidrs != [] {
      var key := KeyOf(cidrs[0], metric);
      var q := Plane(AddOwner(p.owners, key, id, ix), AddRoute(f, p.kernel, key, ix).0);
      ClaimSucceeds(f, q, id, ix, cidrs[1..], metric, registered + [cidrs[0]]);
    }
  }

  lemma CleanupSucceeds(f: Faults, p: Plane, id: string, iface: string, cidrs: seq<Cidr>, metric: nat)
    requires Faultless(f) && Numbered(p.kernel)
    ensures var (q, ok) := TearDown(f, p, id, iface, cidrs, metric); ok && Numbered(q.kernel) && iface !in q.kernel.links
  {
    if iface in p.kernel.links {
      var ix := p.kernel.links[iface];
      ReleaseSameLinks(f, p, id, ix, cidrs, metric);
      assert Reliable(f, LinkDelete);
      UnlinkEffect(f, Release(f, p, id, ix, cidrs, metric).kernel, iface);
    }
  }

  lemma BringUpSucceeds(f: Faults, p: Plane, t: Tunnel)
    requires Faultless(f) && Numbered(p.kernel) && Parses(t)
    ensures var (q, ok) := LoadAndBringUpTunnel(f, p, t); ok && Numbered(q.kernel)
  {
    var c := p.(kernel := Called(p.kernel));
    var metric := EffectiveMetric(t.routeMetric);
    CleanupSucceeds(f, c, t.id, t.iface, t.allowed, metric);
    CleanupIsTearDown(f, c, t.id, t.iface, t.allowed, metric);
    hide TearDown, Cleanup, Claim;
    assert Reliable(f, KeyLoad) && Reliable(f, LinkCreate) && Reliable(f, LinkConfigure) && Reliable(f, RouteAdd);
    var q := Cleanup(f, c, t.id, t.iface, t.allowed, metric).0;
    var (kernel, created) := CreateLink(f, q.kernel, t.iface);
    var linked := q.(kernel := Called(kernel));
    assert linked.kernel.links[t.iface] == created.value;
    ClaimSucceeds(f, linked, t.id, created.value, t.allowed, metric, []);
    ClaimSameLinks(f, linked, t.id, created.value, t.allowed, metric, []);
  }

  lemma {:induction false} RestoreEachSucceeds(f: Faults, p: Plane, ts: seq<Tunnel>)
    requires Faultless(f) && Numbered(p.kernel) && forall t :: t in ts && t.enabled ==> Parses(t)
    ensures RestoreEach(f, p, ts).1
    decreases |ts|
  {
    if ts != [] {
      hide LoadAndBringUpTunnel, Numbered, Parses, Faultless;
      if ts[0].enabled {
        BringUpSucceeds(f, p, ts[0]);
        RestoreEachSucceeds(f, LoadAndBringUpTunnel(f, p, ts[0]).0, ts[1..]);
      } else {
        RestoreEachSucceeds(f, p, ts[1..]);
      }
    }
  }

  /** With every call working and every CIDR parseable a restart heals if and only if no disabled tunnel's
      link was left over and every claimed route is rescued; and it reports no error either way. */
  lemma FaultlessRestart(f: Faults, w: World, listing: seq<string>, foreign: map<RouteKey, nat>)
    requires Faultless(f) && forall t :: t in w.tunnels && t.enabled ==> Parses(t)
    requires w.disk == w.tunnels && ValidConfig(w.tunnels, foreign)
    requires Leftover(w.plane, foreign) && CoversOurs(listing, w.plane.kernel.links)
    ensures RestoreAll(f, w, listing).1
    ensures Settled(RestoreAll(f, w, listing).0, foreign) <==>
              NoDisabledLink(w.plane, w.tunnels) && Rescued(w.tunnels, w.plane.kernel)
  {
    assert Reliable(f, LinkDelete) && Reliable(f, RouteReplace) && Reliable(f, RouteAdd);
    LeftoverNumbered(w.plane, foreign);
    hide Leftover, ValidConfig, CoversOurs, RestoreEach, RemoveOrphans, Settled, Rescued, NoDisabledLink;
    SweptNumbered(f, w, listing);
    RestoreEachSucceeds(f, Swept(f, w, listing), w.tunnels);
    RestoreHealsExactly(f, w, listing, foreign);
  }

  lemma SweptNumbered(f: Faults, w: World, listing: seq<string>)
    requires Reliable(f, LinkDelete) && Numbered(w.plane.kernel) && CoversOurs(listing, w.plane.kernel.links)
    ensures Numbered(Swept(f, w, listing).kernel)
  {
    var gone := Sweep(f, w, listing);
  }

  // ---------- a restart that loses a route ----------

  const SHARED := Cidr("10.1.0.0/16", Some(Net(false, 0x0a01_0000, 16)))
  const OWN := Cidr("10.2.0.0/16", Some(Net(false, 0x0a02_0000, 16)))

  function Site(id: string, iface: string, allowed: seq<Cidr>): Tunnel {
    Tunnel(id, id, iface, 51820, "", "", "", allowed, [], DEFAULT_KEEPALIVE, DEFAULT_MTU, DEFAULT_METRIC, true)
  }

  /** Tunnel a claims SHARED and has no link; b claims OWN, and its leftover link carries both routes, as
      when an update dropped SHARED from b and the manager died. */
  const STRANDED := World(
    [Site("a", "wg-s2s0", [SHARED]), Site("b", "wg-s2s1", [OWN])],
    [Site("a", "wg-s2s0", [SHARED]), Site("b", "wg-s2s1", [OWN])],
    Plane(map[], Kernel(map[KeyOf(SHARED, DEFAULT_METRIC) := 7, KeyOf(OWN, DEFAULT_METRIC) := 7], map["wg-s2s1" := 7], 8, 0)))

  /** Although every call works and no error is reported, the route of tunnel a is lost. */
  lemma RestartLosesRoute(f: Faults)
    requires Faultless(f)
    ensures var (v, ok) := RestoreAll(f, STRANDED, ["wg-s2s1"]);
            && ok && v.tunnels == STRANDED.tunnels && v.tunnels[0].iface in v.plane.kernel.links && KeyOf(SHARED, DEFAULT_METRIC) in RouteKeys(v.tunnels[0])
            && KeyOf(SHARED, DEFAULT_METRIC) !in v.plane.kernel.routes
  {
    hide RestoreAll, Rescued, Settled, FindTunnel;
    var w := STRANDED;
    var k := KeyOf(SHARED, DEFAULT_METRIC);
    assert RouteKeys(w.tunnels[0]) == {k};
    assert RouteKeys(w.tunnels[1]) == {KeyOf(OWN, DEFAULT_METRIC)};
    assert Leftover(w.plane, map[]) by {
      assert "wg-s2s1" in w.plane.kernel.links && Ours("wg-s2s1");
      assert forall r :: r in w.plane.kernel.routes ==> w.plane.kernel.routes[r] == w.plane.kernel.links["wg-s2s1"];
    }
    assert ValidConfig(w.tunnels, map[]);
    assert Stranded(w.tunnels, w.plane.kernel, 0, 1, k);
    FaultlessRestart(f, w, ["wg-s2s1"], map[]);
    LosesRoute(f, w, ["wg-s2s1"], map[], 0, 1, k);
  }

  // ---------- unreadable keys ----------

  lemma {:induction false} UnreadableLeaves(f: Faults, p: Plane, ts: seq<Tunnel>)
    requires forall n :: f(KeyLoad, n)
    ensures var q := RestoreEach(f, p, ts).0; q.owners == p.owners && q.kernel.links == p.kernel.links
    decreases |ts|
  {
    if ts != [] {
      UnreadableLeaves(f, if ts[0].enabled then p.(kernel := Called(p.kernel)) else p, ts[1..]);
    }
  }

  lemma HolderListed(p: Plane, up: Roster, id: string, k: RouteKey)
    requires OwnersOk(p, up) && id in up && k in up[id].keys
    ensures k in p.owners
  {
  }

  /** Without readable private keys a leftover link of an enabled tunnel with routes is not cleared and its
      routes have no owners. */
  lemma UnreadableKeysBlockHealing(f: Faults, w: World, listing: seq<string>, foreign: map<RouteKey, nat>, i: nat)
    requires forall n :: f(KeyLoad, n)
    requires ValidConfig(w.tunnels, foreign) && Leftover(w.plane, foreign) && i < |w.tunnels| && w.tunnels[i].enabled
    requires w.tunnels[i].iface in w.plane.kernel.links && RouteKeys(w.tunnels[i]) != {}
    ensures !Settled(RestoreAll(f, w, listing).0, foreign)
  {
    var ts := w.tunnels;
    var v := RestoreAll(f, w, listing).0;
    assert ts[i] in ts && ts[i].iface in IfaceNames(ts);
    RemoveOrphansOther(f, w.plane.kernel, listing, IfaceNames(ts), ts[i].iface);
    UnreadableLeaves(f, Swept(f, w, listing), ts);
    assert v.plane.owners == map[] && ts[i].iface in v.plane.kernel.links;
    FindIs(ts, foreign, i);
    hide RestoreAll, RouteKeys, Leftover, ValidConfig, LinksOk, RoutesOk;
    var k :| k in RouteKeys(ts[i]);
    var up := Up(ts, v.plane.kernel.links);
    assert ts[i].id in up && k in up[ts[i].id].keys;
    if Settled(v, foreign) {
      HolderListed(v.plane, up, ts[i].id, k);
      assert false;
    }
  }
}
