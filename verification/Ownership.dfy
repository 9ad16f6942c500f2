/** The route-ownership invariant: which tunnel owns which kernel route, and what bringing a tunnel up,
    tearing it down and updating it do to it. */
module Ownership {
  import opened Text
  import opened Routes

  const IFACE_PREFIX := "wg-s2s"

  /** Interfaces the manager regards as its own. */
  predicate Ours(iface: string) {
    IFACE_PREFIX <= iface
  }

  /** A tunnel's interface and the routes it is to hold. */
  datatype Claims = Claims(iface: string, keys: set<RouteKey>)

  type Roster = map<string, Claims>

  ghost predicate Belongs(roster: Roster, iface: string) {
    exists id :: id in roster && roster[id].iface == iface
  }

  ghost predicate Apart(roster: Roster) {
    && (forall id :: id in roster ==> Ours(roster[id].iface))
    && (forall i, j :: i in roster && j in roster && roster[i].iface == roster[j].iface ==> i == j)
  }

  /** Index ix is the interface of a stale tunnel that itself claims route k. */
  ghost predicate StaleAt(links: map<string, nat>, stale: Roster, k: RouteKey, ix: nat) {
    exists id :: id in stale && k in stale[id].keys && stale[id].iface in links && links[stale[id].iface] == ix
  }

  /** Link names and indexes are one to one, every tunnel that is up has a live link, and every link of
      ours belongs to a tunnel that is up or stale. */
  ghost predicate LinksOk(p: Plane, up: Roster, stale: Roster) {
    && up.Keys !! stale.Keys
    && Apart(up + stale)
    && Numbered(p.kernel)
    && Linked(p.kernel.links, up)
    && Covered(p.kernel.links, up + stale)
  }

  ghost predicate Numbered(k: Kernel) {
    OneToOne(k.links) && forall n :: n in k.links ==> k.links[n] < k.nextIf
  }

  ghost predicate OneToOne(links: map<string, nat>) {
    forall a, b :: a in links && b in links && links[a] == links[b] ==> a == b
  }

  ghost predicate Linked(links: map<string, nat>, up: Roster) {
    forall id :: id in up ==> up[id].iface in links
  }

  ghost predicate Covered(links: map<string, nat>, all: Roster) {
    forall n :: n in links && Ours(n) ==> Belongs(all, n)
  }

  /** o is registered under k. */
  predicate Lists(owners: Owners, k: RouteKey, o: Owner) {
    k in owners && o in owners[k]
  }

  /** Each owner entry is a tunnel that is up, claims the route, and has that interface. */
  ghost predicate EntriesSound(owners: Owners, links: map<string, nat>, up: Roster) {
    forall k, o {:trigger Lists(owners, k, o)} :: Lists(owners, k, o) ==>
      && k.dst.Prefix? && o.tunnel in up && k in up[o.tunnel].keys
      && up[o.tunnel].iface in links && o.oif == links[up[o.tunnel].iface]
  }

  /** Each tunnel that is up is listed under every route it claims. */
  ghost predicate EntriesComplete(owners: Owners, links: map<string, nat>, up: Roster) {
    forall id, k {:trigger k in up[id].keys} :: id in up && k in up[id].keys ==>
      up[id].iface in links && Lists(owners, k, Owner(id, links[up[id].iface]))
  }

  /** The owner lists name exactly the tunnels that are up, under exactly the routes they claim, each
      with its current interface. */
  ghost predicate OwnersOk(p: Plane, up: Roster) {
    && Tidy(p.owners)
    && EntriesSound(p.owners, p.kernel.links, up)
    && EntriesComplete(p.owners, p.kernel.links, up)
  }

  /** Every owned route is in the kernel and goes through one of its owners (or, during recovery, still
      through a stale tunnel that also claims it); every other route is foreign and untouched (or stale). */
  ghost predicate RoutesOk(p: Plane, stale: Roster, foreign: map<RouteKey, nat>) {
    && (forall k :: k in p.kernel.routes ==> k.dst.Prefix?)
    && (forall k :: k in p.owners ==>
          k in p.kernel.routes && (OifIn(p.owners[k], p.kernel.routes[k]) || StaleAt(p.kernel.links, stale, k, p.kernel.routes[k])))
    && (forall k :: k in p.kernel.routes ==>
          k in p.owners || k in foreign || StaleAt(p.kernel.links, stale, k, p.kernel.routes[k]))
    && (forall k :: k in foreign ==>
          && k !in p.owners && k in p.kernel.routes && p.kernel.routes[k] == foreign[k]
          && foreign[k] < p.kernel.nextIf)
    && (forall k, n :: k in foreign && n in p.kernel.links && Ours(n) ==> p.kernel.links[n] != foreign[k])
  }

  /** The invariant. `up` are the tunnels that hold their routes, `stale` those whose interface and
      routes may linger from before a restart or a failed update, `foreign` the routes of others. */
  ghost predicate Owned(p: Plane, up: Roster, stale: Roster, foreign: map<RouteKey, nat>) {
    LinksOk(p, up, stale) && OwnersOk(p, up) && RoutesOk(p, stale, foreign)
  }

  /** With nothing stale: a route is in the kernel exactly when a tunnel that is up claims it or it is
      foreign, and a claimed route goes through the live interface of a tunnel that is up and claims it. */
  lemma OwnedMeaning(p: Plane, up: Roster, foreign: map<RouteKey, nat>, k: RouteKey)
    requires Owned(p, up, map[], foreign)
    ensures k in p.kernel.routes <==> k in foreign || exists id :: id in up && k in up[id].keys
    ensures k in p.kernel.routes && k !in foreign ==>
              exists id :: id in up && k in up[id].keys && up[id].iface in p.kernel.links
                           && p.kernel.links[up[id].iface] == p.kernel.routes[k]
    ensures k in foreign ==> k in p.kernel.routes && p.kernel.routes[k] == foreign[k] && forall id :: id in up ==> k !in up[id].keys
  {
    forall id | id in up && k in up[id].keys
      ensures k in p.owners
    {
      assert Lists(p.owners, k, Owner(id, p.kernel.links[up[id].iface]));
    }
    if k in p.kernel.routes && k !in foreign {
      assert OifIn(p.owners[k], p.kernel.routes[k]);
      var o :| o in p.owners[k] && o.oif == p.kernel.routes[k];
      assert Lists(p.owners, k, o);
      assert o.tunnel in up && k in up[o.tunnel].keys;
    }
  }

  // ---------- taking a tunnel down ----------

  /** tearDown: release the routes of an existing interface, then delete it. */
  function TearDown(f: Faults, p: Plane, id: string, iface: string, cidrs: seq<Cidr>, metric: nat): (Plane, bool) {
    if iface !in p.kernel.links then (p, true)
    else
      var ix := p.kernel.links[iface];
      var q := Release(f, p, id, ix, cidrs, metric);
      var (kernel, ok) := DeleteLink(f, q.kernel, ix);
      (q.(kernel := kernel), ok)
  }

  /** cleanupExistingInterface: as tearDown, with one retry over a fresh netlink connection. */
  function Cleanup(f: Faults, p: Plane, id: string, iface: string, cidrs: seq<Cidr>, metric: nat): (Plane, bool) {
    var (q, ok) := TearDown(f, p, id, iface, cidrs, metric);
    if ok then (q, true)
    else if f(Reconnect, q.kernel.calls) then (q.(kernel := Called(q.kernel)), false)
    else
      var kernel := Called(q.kernel);
      if iface in kernel.links then
        var (kernel', ok') := DeleteLink(f, kernel, kernel.links[iface]);
        (q.(kernel := kernel'), ok')
      else (q.(kernel := kernel), true)
  }

  /** None of the routes ks, other than those at the given keys, is claimed by another tunnel. */
  ghost predicate Unclaimed(up: Roster, id: string, ks: set<RouteKey>, keys: set<RouteKey>) {
    forall j, k {:trigger k in up[j].keys} :: j in up && j != id && k in up[j].keys && k in ks ==> k in keys
  }

  /** The facts about a tunnel that taking it down relies on: it has the given interface, the given
      routes include all it holds, no other tunnel that is up claims any others left on its interface,
      and no other tunnel has its interface. */
  ghost predicate Configured(up: Roster, stale: Roster, id: string, iface: string, keys: set<RouteKey>) {
    && Ours(iface)
    && (id in up ==> up[id].iface == iface && up[id].keys <= keys)
    && (id in stale ==> stale[id].iface == iface && Unclaimed(up, id, stale[id].keys, keys))
    && (forall j :: j in up + stale && (up + stale)[j].iface == iface ==> j == id)
  }

  lemma RetireLinks(p: Plane, q: Plane, up: Roster, stale: Roster, id: string, iface: string, keys: set<RouteKey>)
    requires LinksOk(p, up, stale) && Configured(up, stale, id, iface, keys)
    requires q.kernel.links == p.kernel.links - {iface} && q.kernel.nextIf == p.kernel.nextIf
    ensures LinksOk(q, up - {id}, stale - {id})
  {
    assert Numbered(q.kernel);
    hide Apart, Covered, Numbered, Linked, Configured;
    RetireRoster(p.kernel.links, up, stale, id, iface, keys);
  }

  lemma RetireRoster(links: map<string, nat>, up: Roster, stale: Roster, id: string, iface: string, keys: set<RouteKey>)
    requires up.Keys !! stale.Keys && Apart(up + stale) && Linked(links, up) && Covered(links, up + stale)
    requires Configured(up, stale, id, iface, keys)
    ensures Apart((up - {id}) + (stale - {id})) && Linked(links - {iface}, up - {id})
    ensures Covered(links - {iface}, (up - {id}) + (stale - {id}))
  {
    hide Ours;
    var all := up + stale;
    assert (up - {id}) + (stale - {id}) == all - {id};
    assert id in all ==> all[id].iface == iface;
    assert forall j :: j in up ==> j in all && all[j] == up[j];
    forall n | n in links - {iface} && Ours(n)
      ensures Belongs(all - {id}, n)
    {
      BelongsElsewhere(all, id, n);
    }
  }

  lemma BelongsElsewhere(all: Roster, id: string, n: string)
    requires Belongs(all, n) && (id in all ==> all[id].iface != n)
    ensures Belongs(all - {id}, n)
  {
    var j :| j in all && all[j].iface == n;
    assert (all - {id})[j].iface == n;
  }

  /** Dropping a tunnel under every key it owns leaves exactly the other tunnels' entries. */
  lemma WithoutEntries(owners: Owners, id: string, keys: set<RouteKey>)
    requires Tidy(owners)
    requires forall k :: k in owners && k !in keys ==> !Owns(owners[k], id)
    ensures Tidy(Without(owners, id, keys))
    ensures forall k, o {:trigger Lists(Without(owners, id, keys), k, o)} {:trigger Lists(owners, k, o)} ::
              Lists(Without(owners, id, keys), k, o) <==> Lists(owners, k, o) && o.tunnel != id
  {
    forall k | k in owners
      ensures Distinct(Drop(owners[k], id))
      ensures forall o :: o in Drop(owners[k], id) <==> o in owners[k] && o.tunnel != id
      ensures k !in keys ==> forall o :: o in owners[k] ==> o.tunnel != id
    {
      DropKeepsOthers(owners[k], id);
    }
  }

  lemma RetireOwners(p: Plane, q: Plane, up: Roster, id: string, iface: string)
    requires forall j :: j in up && j != id ==> up[j].iface != iface
    requires OwnersOk(p, up)
    requires q.kernel.links == p.kernel.links - {iface}
    requires Tidy(q.owners)
    requires forall k, o {:trigger Lists(q.owners, k, o)} {:trigger Lists(p.owners, k, o)} ::
               Lists(q.owners, k, o) <==> Lists(p.owners, k, o) && o.tunnel != id
    ensures OwnersOk(q, up - {id})
  {
    var up' := up - {id};
    forall j, k | j in up' && k in up'[j].keys
      ensures up'[j].iface in q.kernel.links && Lists(q.owners, k, Owner(j, q.kernel.links[up'[j].iface]))
    {
      assert up'[j] == up[j];
      assert Lists(p.owners, k, Owner(j, p.kernel.links[up[j].iface]));
      assert Lists(q.owners, k, Owner(j, p.kernel.links[up[j].iface]));
    }
    forall k, o | Lists(q.owners, k, o)
      ensures k.dst.Prefix? && o.tunnel in up' && k in up'[o.tunnel].keys
      ensures up'[o.tunnel].iface in q.kernel.links && o.oif == q.kernel.links[up'[o.tunnel].iface]
    {
      assert Lists(p.owners, k, o);
      assert up'[o.tunnel] == up[o.tunnel];
    }
  }

  /** Staleness survives the removal of a link unless it was through that link. */
  lemma StaleElsewhere(links: map<string, nat>, up: Roster, stale: Roster, id: string, iface: string, keys: set<RouteKey>, k: RouteKey, i: nat)
    requires OneToOne(links)
    requires Configured(up, stale, id, iface, keys) && up.Keys !! stale.Keys
    requires iface in links
    requires StaleAt(links, stale, k, i)
    requires i != links[iface] || (id in stale ==> k !in stale[id].keys)
    ensures StaleAt(links - {iface}, stale - {id}, k, i) && i != links[iface]
  {
    var j :| j in stale && k in stale[j].keys && stale[j].iface in links && links[stale[j].iface] == i;
    assert j in up + stale && (up + stale)[j] == stale[j];
    var stale' := stale - {id};
    assert j in stale' && stale'[j] == stale[j];
  }

  /** One key after the link is gone. */
  lemma RetireRoute(p: Plane, mid: Plane, q: Plane, up: Roster, stale: Roster, foreign: map<RouteKey, nat>, id: string, iface: string, keys: set<RouteKey>, k: RouteKey)
    requires LinksOk(p, up, stale) && RoutesOk(p, stale, foreign) && Configured(up, stale, id, iface, keys)
    requires iface in p.kernel.links && Released(p, mid, id, p.kernel.links[iface], keys)
    requires q.owners == mid.owners && q.kernel.links == p.kernel.links - {iface}
    requires var ix := p.kernel.links[iface];
             q.kernel.routes == map r | r in mid.kernel.routes && mid.kernel.routes[r] != ix :: mid.kernel.routes[r]
    requires forall o :: Lists(q.owners, k, o) ==> o.oif != p.kernel.links[iface]
    requires forall o {:trigger Lists(q.owners, k, o)} {:trigger Lists(p.owners, k, o)} ::
               Lists(q.owners, k, o) <==> Lists(p.owners, k, o) && o.tunnel != id
    requires forall o :: Lists(p.owners, k, o) && o.tunnel == id ==> o.oif == p.kernel.links[iface]
    requires forall o :: Lists(p.owners, k, o) ==> o.tunnel in up && k in up[o.tunnel].keys
    requires Tidy(p.owners) && Tidy(q.owners)
    requires k !in keys ==> Listed(q.owners, k) == Listed(p.owners, k)
    ensures k in q.owners ==> k in q.kernel.routes
    ensures k in q.owners ==> OifIn(q.owners[k], q.kernel.routes[k]) || StaleAt(q.kernel.links, stale - {id}, k, q.kernel.routes[k])
    ensures k in q.kernel.routes ==> k in q.owners || k in foreign || StaleAt(q.kernel.links, stale - {id}, k, q.kernel.routes[k])
    ensures k in q.kernel.routes ==> k.dst.Prefix?
    ensures k in foreign ==> k !in q.owners && k in q.kernel.routes && q.kernel.routes[k] == foreign[k]
  {
    hide Apart, Covered, Linked;
    var ix := p.kernel.links[iface];
    assert ReleasedAt(p, mid, ix, keys, k);
    hide Released;
    if k in q.owners {
      assert Lists(q.owners, k, q.owners[k][0]);
      assert k in p.owners;
      if k !in keys {
        assert mid.kernel.routes[k] == p.kernel.routes[k];
        assert id in stale ==> k !in stale[id].keys;
        if !OifIn(p.owners[k], p.kernel.routes[k]) {
          StaleElsewhere(p.kernel.links, up, stale, id, iface, keys, k, p.kernel.routes[k]);
        }
      } else {
        assert OifIn(q.owners[k], mid.kernel.routes[k]);
      }
    } else if k in q.kernel.routes && k !in foreign {
      assert p.kernel.routes[k] == q.kernel.routes[k] != ix;
      if k in p.owners {
        assert forall o :: o in p.owners[k] ==> Lists(p.owners, k, o) && o.oif == ix;
        assert !OifIn(p.owners[k], p.kernel.routes[k]);
      }
      StaleElsewhere(p.kernel.links, up, stale, id, iface, keys, k, p.kernel.routes[k]);
    }
    assert k in q.owners ==> Lists(q.owners, k, q.owners[k][0]);
  }

  /** Once the link is gone, the routes still in the kernel are those of the remaining tunnels. */
  lemma RetireRoutes(p: Plane, mid: Plane, q: Plane, up: Roster, stale: Roster, foreign: map<RouteKey, nat>, id: string, iface: string, keys: set<RouteKey>)
    requires Owned(p, up, stale, foreign) && Configured(up, stale, id, iface, keys)
    requires iface in p.kernel.links && Released(p, mid, id, p.kernel.links[iface], keys)
    requires q.owners == mid.owners && q.kernel.links == p.kernel.links - {iface} && q.kernel.nextIf == p.kernel.nextIf
    requires var ix := p.kernel.links[iface];
             q.kernel.routes == map r | r in mid.kernel.routes && mid.kernel.routes[r] != ix :: mid.kernel.routes[r]
    requires forall k, o {:trigger Lists(q.owners, k, o)} {:trigger Lists(p.owners, k, o)} ::
               Lists(q.owners, k, o) <==> Lists(p.owners, k, o) && o.tunnel != id
    requires OwnersOk(q, up - {id})
    ensures RoutesOk(q, stale - {id}, foreign)
  {
    var ix := p.kernel.links[iface];
    forall k
      ensures k in q.owners ==> k in q.kernel.routes
      ensures k in q.owners ==> OifIn(q.owners[k], q.kernel.routes[k]) || StaleAt(q.kernel.links, stale - {id}, k, q.kernel.routes[k])
      ensures k in q.kernel.routes ==> k in q.owners || k in foreign || StaleAt(q.kernel.links, stale - {id}, k, q.kernel.routes[k])
      ensures k in q.kernel.routes ==> k.dst.Prefix?
      ensures k in foreign ==> k !in q.owners && k in q.kernel.routes && q.kernel.routes[k] == foreign[k]
    {
      assert id in up ==> up[id].iface == iface;
      assert forall o :: Lists(q.owners, k, o) ==> o.oif != ix;
      assert forall o :: Lists(p.owners, k, o) && o.tunnel == id ==> o.oif == ix;
      assert k !in keys ==> Listed(q.owners, k) == Listed(p.owners, k);
      assert forall o :: Lists(p.owners, k, o) ==> o.tunnel in up && k in up[o.tunnel].keys;
      RetireRoute(p, mid, q, up, stale, foreign, id, iface, keys, k);
    }
  }

  lemma UnlinkEffect(f: Faults, k: Kernel, iface: string)
    requires OneToOne(k.links) && iface in k.links && Reliable(f, LinkDelete)
    ensures var ix := k.links[iface];
            var (k', ok) := DeleteLink(f, k, ix);
            && ok && k'.links == k.links - {iface} && k'.nextIf == k.nextIf
            && k'.routes == map r | r in k.routes && k.routes[r] != ix :: k.routes[r]
  {
  }

  lemma ReleasedNothing(p: Plane, id: string, ix: nat)
    requires Tidy(p.owners)
    ensures Released(p, p, id, ix, {})
  {
    assert Without(p.owners, id, {}) == p.owners;
  }

  lemma LiveOwners(p: Plane, up: Roster, stale: Roster, foreign: map<RouteKey, nat>)
    requires Owned(p, up, stale, foreign)
    ensures OwnersReachable(p)
  {
    forall k, o | k in p.owners && o in p.owners[k]
      ensures Live(p, o.oif)
    {
      assert Lists(p.owners, k, o);
    }
    forall k | k in p.owners
      ensures k.dst.Prefix?
    {
      assert Lists(p.owners, k, p.owners[k][0]);
    }
  }

  /** The owner lists after a release under every key the tunnel owns. */
  lemma ReleasedEntries(p: Plane, mid: Plane, up: Roster, id: string, ix: nat, keys: set<RouteKey>)
    requires OwnersOk(p, up) && (id in up ==> up[id].keys <= keys)
    requires Released(p, mid, id, ix, keys)
    ensures Tidy(mid.owners)
    ensures forall k, o {:trigger Lists(mid.owners, k, o)} {:trigger Lists(p.owners, k, o)} ::
              Lists(mid.owners, k, o) <==> Lists(p.owners, k, o) && o.tunnel != id
  {
    forall k | k in p.owners && k !in keys
      ensures !Owns(p.owners[k], id)
    {
      assert forall i :: 0 <= i < |p.owners[k]| ==> Lists(p.owners, k, p.owners[k][i]);
    }
    WithoutEntries(p.owners, id, keys);
    assert mid.owners == Without(p.owners, id, keys);
  }

  /** Releasing a tunnel's routes and deleting its link keeps the invariant for the others. */
  lemma RetireKeeps(p: Plane, mid: Plane, q: Plane, up: Roster, stale: Roster, foreign: map<RouteKey, nat>, id: string, iface: string, keys: set<RouteKey>)
    requires Owned(p, up, stale, foreign) && Configured(up, stale, id, iface, keys)
    requires iface in p.kernel.links && Released(p, mid, id, p.kernel.links[iface], keys)
    requires q.owners == mid.owners && q.kernel.links == p.kernel.links - {iface} && q.kernel.nextIf == p.kernel.nextIf
    requires var ix := p.kernel.links[iface];
             q.kernel.routes == map r | r in mid.kernel.routes && mid.kernel.routes[r] != ix :: mid.kernel.routes[r]
    ensures Owned(q, up - {id}, stale - {id}, foreign)
  {
    RetireLinks(p, q, up, stale, id, iface, keys);
    ReleasedEntries(p, mid, up, id, p.kernel.links[iface], keys);
    assert forall j :: j in up ==> j in up + stale && (up + stale)[j] == up[j];
    RetireOwners(p, q, up, id, iface);
    RetireRoutes(p, mid, q, up, stale, foreign, id, iface, keys);
  }

  /** Taking a tunnel down, whether it is up, stale or neither, keeps the invariant for the others. */
  lemma TearDownKeeps(f: Faults, p: Plane, up: Roster, stale: Roster, foreign: map<RouteKey, nat>, id: string, iface: string, cidrs: seq<Cidr>, metric: nat)
    requires Reliable(f, RouteReplace) && Reliable(f, LinkDelete)
    requires Owned(p, up, stale, foreign) && Configured(up, stale, id, iface, Keys(cidrs, metric))
    ensures var (q, ok) := TearDown(f, p, id, iface, cidrs, metric);
            && ok && Owned(q, up - {id}, stale - {id}, foreign)
            && q.kernel.links == p.kernel.links - {iface} && q.kernel.nextIf == p.kernel.nextIf
            && (iface !in p.kernel.links ==> q == p)
  {
    var keys := Keys(cidrs, metric);
    var (q, ok) := TearDown(f, p, id, iface, cidrs, metric);
    if iface !in p.kernel.links {
      assert up - {id} == up;
      AbsentStale(p, up, stale, foreign, id);
      assert p.kernel.links - {iface} == p.kernel.links;
    } else {
      var ix := p.kernel.links[iface];
      var mid := Release(f, p, id, ix, cidrs, metric);
      assert Released(p, mid, id, ix, keys) by {
        LiveOwners(p, up, stale, foreign);
        ReleasedNothing(p, id, ix);
        ReleaseOutcome(f, p, p, id, ix, {}, cidrs, metric);
        assert {} + keys == keys;
      }
      UnlinkEffect(f, mid.kernel, iface);
      RetireKeeps(p, mid, q, up, stale, foreign, id, iface, keys);
    }
  }

  /** A stale tunnel without a link has nothing left to clean. */
  lemma AbsentStale(p: Plane, up: Roster, stale: Roster, foreign: map<RouteKey, nat>, id: string)
    requires Owned(p, up, stale, foreign)
    requires id in stale ==> stale[id].iface !in p.kernel.links
    ensures Owned(p, up, stale - {id}, foreign)
  {
    var stale' := stale - {id};
    forall k, i | StaleAt(p.kernel.links, stale, k, i)
      ensures StaleAt(p.kernel.links, stale', k, i)
    {
      var j :| j in stale && k in stale[j].keys && stale[j].iface in p.kernel.links && p.kernel.links[stale[j].iface] == i;
      assert j in stale';
    }
    forall n | n in p.kernel.links && Ours(n)
      ensures Belongs(up + stale', n)
    {
      var j :| j in up + stale && (up + stale)[j].iface == n;
      assert j in up + stale' && (up + stale')[j].iface == n;
    }
  }

  lemma CleanupIsTearDown(f: Faults, p: Plane, id: string, iface: string, cidrs: seq<Cidr>, metric: nat)
    requires TearDown(f, p, id, iface, cidrs, metric).1
    ensures Cleanup(f, p, id, iface, cidrs, metric) == TearDown(f, p, id, iface, cidrs, metric)
  {
  }

  // ---------- bringing a tunnel up ----------

  /** bringUp: clear any old interface, create and configure a new one, claim the routes; on failure
      delete the new interface again. */
  function BringUp(f: Faults, p: Plane, id: string, iface: string, cidrs: seq<Cidr>, metric: nat): (Plane, bool) {
    var (q, clean) := Cleanup(f, p, id, iface, cidrs, metric);
    if !clean then (q, false)
    else
      var (kernel, created) := CreateLink(f, q.kernel, iface);
      if created.None? then (q.(kernel := kernel), false)
      else
        var ix := created.value;
        if f(LinkConfigure, kernel.calls) then (q.(kernel := DeleteLink(f, Called(kernel), ix).0), false)
        else
          var (r, ok) := Claim(f, q.(kernel := Called(kernel)), id, ix, cidrs, metric, []);
          if ok then (r, true) else (r.(kernel := DeleteLink(f, r.kernel, ix).0), false)
  }

  /** The kernels a bring-up can end with. */
  lemma BringUpEnds(f: Faults, p: Plane, id: string, iface: string, cidrs: seq<Cidr>, metric: nat)
    ensures var q := Cleanup(f, p, id, iface, cidrs, metric).0;
            var kernel := CreateLink(f, q.kernel, iface).0;
            var created := CreateLink(f, q.kernel, iface).1;
            var end := BringUp(f, p, id, iface, cidrs, metric).0.kernel;
            || end == q.kernel || end == kernel
            || (created.Some? &&
                 var r := Claim(f, q.(kernel := Called(kernel)), id, created.value, cidrs, metric, []).0.kernel;
                 end == DeleteLink(f, Called(kernel), created.value).0 || end == r || end == DeleteLink(f, r, created.value).0)
  {
    hide Cleanup, Claim, DeleteLink, CreateLink;
  }

  /** A new tunnel may be added: its interface and its routes are nobody else's. */
  ghost predicate Admissible(up: Roster, stale: Roster, foreign: map<RouteKey, nat>, id: string, iface: string, keys: set<RouteKey>) {
    && id !in up && id !in stale && Ours(iface) && keys !! foreign.Keys
    && (forall j :: j in up + stale ==> (up + stale)[j].iface != iface)
  }

  lemma BelongsPlus(all: Roster, id: string, c: Claims, n: string)
    requires id !in all && (Belongs(all, n) || n == c.iface)
    ensures Belongs(all[id := c], n)
  {
    var all' := all[id := c];
    if n == c.iface {
      assert all'[id].iface == n;
    } else {
      var j :| j in all && all[j].iface == n;
      assert all'[j].iface == n;
    }
  }

  lemma ApartPlus(all: Roster, id: string, c: Claims)
    requires Apart(all) && Ours(c.iface)
    requires forall j :: j in all && j != id ==> all[j].iface != c.iface
    ensures Apart(all[id := c])
  {
  }

  lemma LinkLinks(p: Plane, q: Plane, up: Roster, stale: Roster, id: string, iface: string)
    requires LinksOk(p, up, stale) && Admissible(up, stale, map[], id, iface, {})
    requires iface !in p.kernel.links
    requires q.kernel.links == p.kernel.links[iface := p.kernel.nextIf] && q.kernel.nextIf == p.kernel.nextIf + 1
    ensures LinksOk(q, up[id := Claims(iface, {})], stale)
  {
    var up' := up[id := Claims(iface, {})];
    var all := up + stale;
    var all' := up' + stale;
    assert all' == all[id := Claims(iface, {})];
    ApartPlus(all, id, Claims(iface, {}));
    assert id !in all;
    hide Apart, Admissible, Ours, Belongs;
    assert Numbered(q.kernel);
    assert Linked(q.kernel.links, up');
    hide Numbered, Linked;
    forall n | n in q.kernel.links && Ours(n)
      ensures Belongs(all', n)
    {
      if n != iface {
        assert Belongs(all, n);
      }
      BelongsPlus(all, id, Claims(iface, {}), n);
    }
  }

  lemma LinkOwners(p: Plane, q: Plane, up: Roster, id: string, iface: string)
    requires OwnersOk(p, up) && id !in up && iface !in p.kernel.links
    requires q.owners == p.owners && q.kernel.links == p.kernel.links[iface := p.kernel.nextIf]
    ensures OwnersOk(q, up[id := Claims(iface, {})])
  {
  }

  lemma LinkRoutes(p: Plane, q: Plane, stale: Roster, foreign: map<RouteKey, nat>, iface: string)
    requires RoutesOk(p, stale, foreign) && iface !in p.kernel.links
    requires q.owners == p.owners && q.kernel.routes == p.kernel.routes
    requires q.kernel.links == p.kernel.links[iface := p.kernel.nextIf] && q.kernel.nextIf == p.kernel.nextIf + 1
    ensures RoutesOk(q, stale, foreign)
  {
    forall k, i | StaleAt(p.kernel.links, stale, k, i)
      ensures StaleAt(q.kernel.links, stale, k, i)
    {
      var j :| j in stale && k in stale[j].keys && stale[j].iface in p.kernel.links && p.kernel.links[stale[j].iface] == i;
      assert stale[j].iface in q.kernel.links && q.kernel.links[stale[j].iface] == i;
    }
  }

  /** A tunnel with a fresh link and no routes yet. */
  lemma LinkKeeps(p: Plane, q: Plane, up: Roster, stale: Roster, foreign: map<RouteKey, nat>, id: string, iface: string)
    requires Owned(p, up, stale, foreign) && Admissible(up, stale, foreign, id, iface, {})
    requires iface !in p.kernel.links
    requires q.owners == p.owners && q.kernel.routes == p.kernel.routes
    requires q.kernel.links == p.kernel.links[iface := p.kernel.nextIf] && q.kernel.nextIf == p.kernel.nextIf + 1
    ensures Owned(q, up[id := Claims(iface, {})], stale, foreign)
  {
    LinkLinks(p, q, up, stale, id, iface);
    LinkOwners(p, q, up, id, iface);
    LinkRoutes(p, q, stale, foreign, iface);
  }

  lemma ClaimedEntries(p: Plane, q: Plane, id: string, ix: nat, keys: set<RouteKey>)
    requires Tidy(p.owners) && Unowned(p.owners, id)
    requires q.owners == With(p.owners, id, ix, keys)
    ensures Tidy(q.owners)
    ensures forall k, o {:trigger Lists(q.owners, k, o)} {:trigger Lists(p.owners, k, o)} ::
              Lists(q.owners, k, o) <==> Lists(p.owners, k, o) || (k in keys && o == Owner(id, ix))
  {
    WithIsTidy(p.owners, id, ix, keys);
  }

  lemma NotOwner(p: Plane, up: Roster, id: string)
    requires OwnersOk(p, up) && (id in up ==> up[id].keys == {})
    ensures Unowned(p.owners, id)
  {
    forall k | k in p.owners
      ensures !Owns(p.owners[k], id)
    {
      assert forall i :: 0 <= i < |p.owners[k]| ==> Lists(p.owners, k, p.owners[k][i]);
    }
  }

  lemma ReclaimLinks(p: Plane, q: Plane, up: Roster, stale: Roster, id: string, keys: set<RouteKey>)
    requires LinksOk(p, up, stale) && id in up && SameLinks(p, q)
    ensures LinksOk(q, up[id := Claims(up[id].iface, keys)], stale)
  {
    var up' := up[id := Claims(up[id].iface, keys)];
    hide Apart, Covered, Numbered, SameIfaces, Linked;
    SameNumbered(p, q);
    ReclaimRoster(p.kernel.links, up, stale, id, keys);
    SameIfacesApart(up + stale, up' + stale);
    SameIfacesCover(q.kernel.links, up + stale, up' + stale);
  }

  lemma SameNumbered(p: Plane, q: Plane)
    requires SameLinks(p, q) && Numbered(p.kernel)
    ensures Numbered(q.kernel)
  {
  }

  lemma ReclaimRoster(links: map<string, nat>, up: Roster, stale: Roster, id: string, keys: set<RouteKey>)
    requires id in up && up.Keys !! stale.Keys && Linked(links, up)
    ensures var up' := up[id := Claims(up[id].iface, keys)];
            SameIfaces(up + stale, up' + stale) && Linked(links, up') && up'.Keys !! stale.Keys
  {
    var up' := up[id := Claims(up[id].iface, keys)];
    assert up'.Keys == up.Keys;
  }

  ghost predicate SameIfaces(all: Roster, all': Roster) {
    all'.Keys == all.Keys && forall j :: j in all ==> all'[j].iface == all[j].iface
  }

  lemma SameIfacesApart(all: Roster, all': Roster)
    requires SameIfaces(all, all') && Apart(all)
    ensures Apart(all')
  {
    hide Ours;
  }

  lemma SameIfacesCover(links: map<string, nat>, all: Roster, all': Roster)
    requires SameIfaces(all, all') && Covered(links, all)
    ensures Covered(links, all')
  {
    hide Ours;
    forall n | n in links && Ours(n)
      ensures Belongs(all', n)
    {
      var j :| j in all && all[j].iface == n;
      assert all'[j].iface == n;
    }
  }

  lemma ClaimOwners(p: Plane, q: Plane, up: Roster, id: string, keys: set<RouteKey>)
    requires OwnersOk(p, up) && id in up && up[id].keys == {} && up[id].iface in p.kernel.links
    requires forall k :: k in keys ==> k.dst.Prefix?
    requires SameLinks(p, q) && q.owners == With(p.owners, id, p.kernel.links[up[id].iface], keys)
    ensures OwnersOk(q, up[id := Claims(up[id].iface, keys)])
  {
    NotOwner(p, up, id);
    ClaimedEntries(p, q, id, p.kernel.links[up[id].iface], keys);
  }

  /** One key after a completed claim. */
  lemma ClaimRoute(p: Plane, q: Plane, stale: Roster, foreign: map<RouteKey, nat>, id: string, ix: nat, keys: set<RouteKey>, k: RouteKey)
    requires RoutesOk(p, stale, foreign) && Tidy(p.owners) && Tidy(q.owners)
    requires keys !! foreign.Keys && (k in keys ==> k.dst.Prefix?)
    requires SameLinks(p, q) && Gained(p, q, ix, keys) && (k in keys ==> k in q.kernel.routes)
    requires forall o {:trigger Lists(q.owners, k, o)} {:trigger Lists(p.owners, k, o)} ::
               Lists(q.owners, k, o) <==> Lists(p.owners, k, o) || (k in keys && o == Owner(id, ix))
    ensures k in q.owners ==> k in q.kernel.routes
    ensures k in q.owners ==> OifIn(q.owners[k], q.kernel.routes[k]) || StaleAt(q.kernel.links, stale, k, q.kernel.routes[k])
    ensures k in q.kernel.routes ==> k in q.owners || k in foreign || StaleAt(q.kernel.links, stale, k, q.kernel.routes[k])
    ensures k in q.kernel.routes ==> k.dst.Prefix?
    ensures k in foreign ==> k !in q.owners && k in q.kernel.routes && q.kernel.routes[k] == foreign[k]
  {
    assert k in p.owners ==> Lists(p.owners, k, p.owners[k][0]);
    assert k in q.owners ==> Lists(q.owners, k, q.owners[k][0]);
    assert k in keys ==> Lists(q.owners, k, Owner(id, ix));
    if k in p.owners && OifIn(p.owners[k], p.kernel.routes[k]) {
      var o :| o in p.owners[k] && o.oif == p.kernel.routes[k];
      assert Lists(p.owners, k, o);
    }
  }

  /** A completed claim gives the tunnel exactly the routes it asked for. */
  lemma ClaimKeeps(f: Faults, p: Plane, q: Plane, up: Roster, stale: Roster, foreign: map<RouteKey, nat>, id: string, keys: set<RouteKey>)
    requires Owned(p, up, stale, foreign)
    requires id in up && up[id].keys == {} && keys !! foreign.Keys
    requires forall k :: k in keys ==> k.dst.Prefix?
    requires Claimed(f, p, q, id, p.kernel.links[up[id].iface], keys)
    ensures Owned(q, up[id := Claims(up[id].iface, keys)], stale, foreign)
  {
    var ix := p.kernel.links[up[id].iface];
    ReclaimLinks(p, q, up, stale, id, keys);
    ClaimOwners(p, q, up, id, keys);
    NotOwner(p, up, id);
    ClaimedEntries(p, q, id, ix, keys);
    forall k
      ensures k in q.owners ==> k in q.kernel.routes
      ensures k in q.owners ==> OifIn(q.owners[k], q.kernel.routes[k]) || StaleAt(q.kernel.links, stale, k, q.kernel.routes[k])
      ensures k in q.kernel.routes ==> k in q.owners || k in foreign || StaleAt(q.kernel.links, stale, k, q.kernel.routes[k])
      ensures k in q.kernel.routes ==> k.dst.Prefix?
      ensures k in foreign ==> k !in q.owners && k in q.kernel.routes && q.kernel.routes[k] == foreign[k]
    {
      ClaimRoute(p, q, stale, foreign, id, ix, keys, k);
    }
  }

  lemma RoutesBelowNext(p: Plane, up: Roster, stale: Roster, foreign: map<RouteKey, nat>, k: RouteKey)
    requires Owned(p, up, stale, foreign) && k in p.kernel.routes
    ensures p.kernel.routes[k] < p.kernel.nextIf
  {
    if k in p.owners && OifIn(p.owners[k], p.kernel.routes[k]) {
      var o :| o in p.owners[k] && o.oif == p.kernel.routes[k];
      assert Lists(p.owners, k, o);
    }
  }

  /** The invariant reads the tables only, and index allocation only grows. */
  lemma OwnedExt(p: Plane, q: Plane, up: Roster, stale: Roster, foreign: map<RouteKey, nat>)
    requires Owned(p, up, stale, foreign)
    requires q.owners == p.owners && q.kernel.routes == p.kernel.routes && q.kernel.links == p.kernel.links
    requires p.kernel.nextIf <= q.kernel.nextIf
    ensures Owned(q, up, stale, foreign)
  {
  }

  /** Deleting the fresh link of a failed bring-up gives back exactly the tables from before it. */
  lemma UndoLink(f: Faults, p: Plane, q: Plane, up: Roster, stale: Roster, foreign: map<RouteKey, nat>, iface: string, ix: nat, keys: set<RouteKey>)
    requires Owned(p, up, stale, foreign) && Reliable(f, LinkDelete)
    requires ix == p.kernel.nextIf && iface !in p.kernel.links
    requires q.kernel.links == p.kernel.links[iface := ix]
    requires p.kernel.routes.Keys <= q.kernel.routes.Keys
    requires forall k :: k in p.kernel.routes ==> q.kernel.routes[k] == p.kernel.routes[k]
    requires forall k :: k in q.kernel.routes && k !in p.kernel.routes ==> q.kernel.routes[k] == ix
    ensures var kernel := DeleteLink(f, q.kernel, ix).0;
            kernel.routes == p.kernel.routes && kernel.links == p.kernel.links && kernel.nextIf == q.kernel.nextIf
  {
    forall k | k in p.kernel.routes
      ensures p.kernel.routes[k] != ix
    {
      RoutesBelowNext(p, up, stale, foreign, k);
    }
    assert q.kernel.links[iface] == ix;
    assert ix in q.kernel.links.Values;
  }

  /** The outcome of a bring-up once no interface of that name is left: on success the tunnel holds
      exactly its routes; on failure owner lists, routes and links are exactly what they were. */
  lemma FreshBringUp(f: Faults, p: Plane, up: Roster, stale: Roster, foreign: map<RouteKey, nat>, id: string, iface: string, cidrs: seq<Cidr>, metric: nat)
    requires Reliable(f, LinkDelete)
    requires Owned(p, up, stale, foreign) && Admissible(up, stale, foreign, id, iface, Keys(cidrs, metric))
    requires iface !in p.kernel.links
    ensures var (q, ok) := BringUp(f, p, id, iface, cidrs, metric);
            && (ok ==> Owned(q, up[id := Claims(iface, Keys(cidrs, metric))], stale, foreign) && Parseable(cidrs))
            && (!ok ==> q.owners == p.owners && q.kernel.routes == p.kernel.routes && q.kernel.links == p.kernel.links
                        && p.kernel.nextIf <= q.kernel.nextIf)
  {
    hide Owned;
    var keys := Keys(cidrs, metric);
    var (kernel, created) := CreateLink(f, p.kernel, iface);
    if created.Some? {
      var ix := created.value;
      var linked := p.(kernel := Called(kernel));
      var up' := up[id := Claims(iface, {})];
      LinkKeeps(p, linked, up, stale, foreign, id, iface);
      if f(LinkConfigure, kernel.calls) {
        UndoLink(f, p, linked, up, stale, foreign, iface, ix, keys);
      } else {
        var (r, ok) := Claim(f, linked, id, ix, cidrs, metric, []);
        FreshClaim(f, linked, up', stale, foreign, id, iface, cidrs, metric);
        if ok {
          assert up'[id := Claims(iface, keys)] == up[id := Claims(iface, keys)];
        } else {
          UndoLink(f, p, r, up, stale, foreign, iface, ix, keys);
        }
      }
    }
  }

  /** The facts a claim relies on. */
  lemma ReadyToClaim(f: Faults, p: Plane, up: Roster, stale: Roster, foreign: map<RouteKey, nat>, id: string)
    requires Owned(p, up, stale, foreign)
    requires id in up && up[id].keys == {}
    ensures up[id].iface in p.kernel.links && Live(p, p.kernel.links[up[id].iface])
    ensures Tidy(p.owners) && Unowned(p.owners, id)
    ensures Claimed(f, p, p, id, p.kernel.links[up[id].iface], {})
  {
    var ix := p.kernel.links[up[id].iface];
    NotOwner(p, up, id);
    WithNothing(p.owners, id, ix);
  }

  /** Claiming for a tunnel that is linked but holds no routes yet. */
  lemma FreshClaim(f: Faults, p: Plane, up: Roster, stale: Roster, foreign: map<RouteKey, nat>, id: string, iface: string, cidrs: seq<Cidr>, metric: nat)
    requires Owned(p, up, stale, foreign)
    requires id in up && up[id] == Claims(iface, {}) && Keys(cidrs, metric) !! foreign.Keys
    ensures iface in p.kernel.links
    ensures var ix := p.kernel.links[iface];
            var (q, ok) := Claim(f, p, id, ix, cidrs, metric, []);
            && (ok ==> Owned(q, up[id := Claims(iface, Keys(cidrs, metric))], stale, foreign) && Parseable(cidrs))
            && (!ok ==> ClaimFailed(p, q, ix, Keys(cidrs, metric)))
  {
    hide Owned;
    ReadyToClaim(f, p, up, stale, foreign, id);
    var ix := p.kernel.links[iface];
    var keys := Keys(cidrs, metric);
    assert Keys([], metric) == {};
    ClaimOutcome(f, p, p, id, ix, cidrs, metric, []);
    assert [] + cidrs == cidrs;
    var (q, ok) := Claim(f, p, id, ix, cidrs, metric, []);
    if ok {
      assert forall k :: k in keys ==> k.dst.Prefix?;
      ClaimKeeps(f, p, q, up, stale, foreign, id, keys);
    }
  }

  lemma RosterMinus(up: Roster, stale: Roster, foreign: map<RouteKey, nat>, id: string, iface: string, keys: set<RouteKey>)
    requires Configured(up, stale, id, iface, keys) && keys !! foreign.Keys && up.Keys !! stale.Keys
    ensures Admissible(up - {id}, stale - {id}, foreign, id, iface, keys)
  {
    var rest := (up - {id}) + (stale - {id});
    assert forall j :: j in rest ==> j in up + stale && rest[j] == (up + stale)[j] && j != id;
  }

  /** Bringing a tunnel up from any state of it (up, stale or down). On success it holds exactly its
      routes; on failure it holds none and the other tunnels are undisturbed; and a failed bring-up of
      a tunnel without an interface gives back owner lists, routes and links exactly. */
  lemma BringUpKeeps(f: Faults, p: Plane, up: Roster, stale: Roster, foreign: map<RouteKey, nat>, id: string, iface: string, cidrs: seq<Cidr>, metric: nat)
    requires Reliable(f, RouteReplace) && Reliable(f, LinkDelete)
    requires Owned(p, up, stale, foreign)
    requires Configured(up, stale, id, iface, Keys(cidrs, metric)) && Keys(cidrs, metric) !! foreign.Keys
    ensures var (q, ok) := BringUp(f, p, id, iface, cidrs, metric);
            && (ok ==> Owned(q, (up - {id})[id := Claims(iface, Keys(cidrs, metric))], stale - {id}, foreign) && Parseable(cidrs))
            && (!ok ==> Owned(q, up - {id}, stale - {id}, foreign) && iface !in q.kernel.links)
            && (!ok && iface !in p.kernel.links ==>
                  q.owners == p.owners && q.kernel.routes == p.kernel.routes && q.kernel.links == p.kernel.links)
  {
    TearDownKeeps(f, p, up, stale, foreign, id, iface, cidrs, metric);
    CleanupIsTearDown(f, p, id, iface, cidrs, metric);
    RosterMinus(up, stale, foreign, id, iface, Keys(cidrs, metric));
    hide Owned;
    var mid := TearDown(f, p, id, iface, cidrs, metric).0;
    FreshBringUp(f, mid, up - {id}, stale - {id}, foreign, id, iface, cidrs, metric);
    assert BringUp(f, mid, id, iface, cidrs, metric) == BringUp(f, p, id, iface, cidrs, metric);
    var (q, ok) := BringUp(f, p, id, iface, cidrs, metric);
    if !ok {
      OwnedExt(mid, q, up - {id}, stale - {id}, foreign);
    }
  }

  // ---------- updating a running tunnel ----------

  /** hotUpdate: push the peer settings, then, if the routes or the metric changed, release the old
      routes and claim the new ones on the same interface. */
  function HotUpdate(f: Faults, p: Plane, id: string, iface: string, before: seq<Cidr>, metricBefore: nat, cidrs: seq<Cidr>, metric: nat): (Plane, bool) {
    var q := p.(kernel := Called(p.kernel));
    if f(PeerUpdate, p.kernel.calls) || iface !in q.kernel.links then (q, false)
    else if before == cidrs && metricBefore == metric then (q, true)
    else
      var ix := q.kernel.links[iface];
      Claim(f, Release(f, q, id, ix, before, metricBefore), id, ix, cidrs, metric, [])
  }

  /** recreateTunnel: check the key is there, tear down and bring up again, both with the given routes. */
  function Recreate(f: Faults, p: Plane, id: string, iface: string, cidrs: seq<Cidr>, metric: nat): (Plane, bool) {
    var q := p.(kernel := Called(p.kernel));
    if f(KeyLoad, p.kernel.calls) then (q, false)
    else
      var (r, ok) := TearDown(f, q, id, iface, cidrs, metric);
      if !ok then (r, false) else LoadAndBringUp(f, r, id, iface, cidrs, metric)
  }

  /** bringUpTunnel: load the private key, then bring up. */
  function LoadAndBringUp(f: Faults, p: Plane, id: string, iface: string, cidrs: seq<Cidr>, metric: nat): (Plane, bool) {
    var q := p.(kernel := Called(p.kernel));
    if f(KeyLoad, p.kernel.calls) then (q, false) else BringUp(f, q, id, iface, cidrs, metric)
  }

  /** One key after an in-place release. */
  lemma ReleaseRoute(p: Plane, q: Plane, up: Roster, foreign: map<RouteKey, nat>, id: string, iface: string, keys: set<RouteKey>, k: RouteKey)
    requires RoutesOk(p, map[], foreign) && Tidy(p.owners) && Tidy(q.owners) && Ours(iface)
    requires iface in p.kernel.links && Released(p, q, id, p.kernel.links[iface], keys) && Cleared(q, p.kernel.links[iface], keys)
    requires forall o {:trigger Lists(q.owners, k, o)} {:trigger Lists(p.owners, k, o)} ::
               Lists(q.owners, k, o) <==> Lists(p.owners, k, o) && o.tunnel != id
    requires forall o :: Lists(p.owners, k, o) && o.tunnel == id ==> o.oif == p.kernel.links[iface]
    requires k !in keys ==> Listed(q.owners, k) == Listed(p.owners, k)
    ensures k in q.owners ==> k in q.kernel.routes && OifIn(q.owners[k], q.kernel.routes[k])
    ensures k in q.kernel.routes ==> k in q.owners || k in foreign
    ensures k in q.kernel.routes ==> k.dst.Prefix?
    ensures k in foreign ==> k !in q.owners && k in q.kernel.routes && q.kernel.routes[k] == foreign[k]
  {
    var ix := p.kernel.links[iface];
    assert ReleasedAt(p, q, ix, keys, k);
    assert k in q.owners ==> Lists(q.owners, k, q.owners[k][0]);
    if k in p.owners && k !in q.owners {
      assert k in keys;
      assert forall o :: o in p.owners[k] ==> Lists(p.owners, k, o);
      assert p.kernel.routes[k] == ix;
      assert k !in q.kernel.routes;
    }
  }

  lemma ReleaseOwners(p: Plane, q: Plane, up: Roster, id: string)
    requires OwnersOk(p, up) && id in up && SameLinks(p, q)
    requires Tidy(q.owners)
    requires forall k, o {:trigger Lists(q.owners, k, o)} {:trigger Lists(p.owners, k, o)} ::
               Lists(q.owners, k, o) <==> Lists(p.owners, k, o) && o.tunnel != id
    ensures OwnersOk(q, up[id := Claims(up[id].iface, {})])
  {
  }

  /** Releasing in place leaves the tunnel linked and holding nothing. */
  lemma ReleaseInPlace(f: Faults, p: Plane, up: Roster, foreign: map<RouteKey, nat>, id: string, iface: string, cidrs: seq<Cidr>, metric: nat)
    requires Reliable(f, RouteReplace)
    requires Owned(p, up, map[], foreign) && id in up && up[id] == Claims(iface, Keys(cidrs, metric))
    requires iface in p.kernel.links ==>
               ReliableDuring(f, RouteDelete, p.kernel.calls, Release(f, p, id, p.kernel.links[iface], cidrs, metric).kernel.calls)
    ensures iface in p.kernel.links
    ensures var q := Release(f, p, id, p.kernel.links[iface], cidrs, metric);
            SameLinks(p, q) && Owned(q, up[id := Claims(iface, {})], map[], foreign)
  {
    var ix := p.kernel.links[iface];
    var keys := Keys(cidrs, metric);
    var q := Release(f, p, id, ix, cidrs, metric);
    assert Released(p, q, id, ix, keys) && Cleared(q, ix, keys) by {
      LiveOwners(p, up, map[], foreign);
      ReleasedNothing(p, id, ix);
      ReleaseOutcome(f, p, p, id, ix, {}, cidrs, metric);
      assert {} + keys == keys;
    }
    assert up + map[] == up && Ours(iface);
    assert SameLinks(p, q);
    hide LinksOk, OwnersOk, RoutesOk, Released, Cleared, Release;
    ReleasedEntries(p, q, up, id, ix, keys);
    ReclaimLinks(p, q, up, map[], id, {});
    ReleaseOwners(p, q, up, id);
    ReleaseRoutes(p, q, up, foreign, id, iface, keys);
  }

  lemma ReleaseRoutes(p: Plane, q: Plane, up: Roster, foreign: map<RouteKey, nat>, id: string, iface: string, keys: set<RouteKey>)
    requires RoutesOk(p, map[], foreign) && OwnersOk(p, up) && Tidy(q.owners) && Ours(iface) && SameLinks(p, q)
    requires id in up && up[id].iface == iface
    requires iface in p.kernel.links && Released(p, q, id, p.kernel.links[iface], keys) && Cleared(q, p.kernel.links[iface], keys)
    requires forall k, o {:trigger Lists(q.owners, k, o)} {:trigger Lists(p.owners, k, o)} ::
               Lists(q.owners, k, o) <==> Lists(p.owners, k, o) && o.tunnel != id
    ensures RoutesOk(q, map[], foreign)
  {
    forall k
      ensures k in q.owners ==> k in q.kernel.routes && OifIn(q.owners[k], q.kernel.routes[k])
      ensures k in q.kernel.routes ==> k in q.owners || k in foreign
      ensures k in q.kernel.routes ==> k.dst.Prefix?
      ensures k in foreign ==> k !in q.owners && k in q.kernel.routes && q.kernel.routes[k] == foreign[k]
    {
      ReleaseRoute(p, q, up, foreign, id, iface, keys, k);
    }
  }

  lemma DemoteLinks(p: Plane, q: Plane, up: Roster, id: string, iface: string, keys: set<RouteKey>)
    requires LinksOk(p, up, map[]) && id in up && up[id].iface == iface && SameLinks(p, q)
    ensures LinksOk(q, up - {id}, map[id := Claims(iface, keys)])
  {
    var up' := up - {id};
    var all' := up' + map[id := Claims(iface, keys)];
    assert up + map[] == up;
    assert Numbered(q.kernel);
    hide Apart, Covered, Numbered;
    assert SameIfaces(up, all');
    SameIfacesApart(up, all');
    SameIfacesCover(q.kernel.links, up, all');
  }

  lemma DemoteOwners(p: Plane, q: Plane, up: Roster, id: string)
    requires OwnersOk(p, up) && id in up && up[id].keys == {} && SameLinks(p, q) && q.owners == p.owners
    ensures OwnersOk(q, up - {id})
  {
    var up' := up - {id};
    forall j, k | j in up' && k in up'[j].keys
      ensures up'[j].iface in q.kernel.links && Lists(q.owners, k, Owner(j, q.kernel.links[up'[j].iface]))
    {
      assert up'[j] == up[j];
    }
  }

  lemma DemoteRoutes(p: Plane, q: Plane, foreign: map<RouteKey, nat>, id: string, iface: string, keys: set<RouteKey>)
    requires RoutesOk(p, map[], foreign) && iface in p.kernel.links
    requires ClaimFailed(p, q, p.kernel.links[iface], keys)
    requires forall k :: k in q.kernel.routes ==> k.dst.Prefix?
    ensures RoutesOk(q, map[id := Claims(iface, keys)], foreign)
  {
    var stale := map[id := Claims(iface, keys)];
    assert forall k :: k in keys ==> StaleAt(q.kernel.links, stale, k, p.kernel.links[iface]) by {
      assert id in stale && stale[id].keys == keys && stale[id].iface in q.kernel.links;
    }
  }

  /** After a claim that gave up, the tunnel is stale: it owns nothing, and any routes left behind are
      at keys it was claiming and through its own interface. */
  lemma FailedClaimIsStale(p: Plane, q: Plane, up: Roster, foreign: map<RouteKey, nat>, id: string, iface: string, keys: set<RouteKey>)
    requires Owned(p, up, map[], foreign) && id in up && up[id] == Claims(iface, {})
    requires forall k :: k in q.kernel.routes ==> k.dst.Prefix?
    requires iface in p.kernel.links && ClaimFailed(p, q, p.kernel.links[iface], keys)
    ensures Owned(q, up - {id}, map[id := Claims(iface, keys)], foreign)
  {
    DemoteLinks(p, q, up, id, iface, keys);
    DemoteOwners(p, q, up, id);
    DemoteRoutes(p, q, foreign, id, iface, keys);
  }

  lemma LinkedAndPrefixed(p: Plane, up: Roster, stale: Roster, foreign: map<RouteKey, nat>)
    requires Owned(p, up, stale, foreign)
    ensures forall id :: id in up ==> up[id].iface in p.kernel.links
    ensures forall k :: k in p.kernel.routes ==> k.dst.Prefix?
  {
  }

  lemma {:induction false} ClaimAddsPrefixes(f: Faults, p: Plane, id: string, ix: nat, cidrs: seq<Cidr>, metric: nat, registered: seq<Cidr>)
    requires forall k :: k in p.kernel.routes ==> k.dst.Prefix?
    ensures forall k :: k in Claim(f, p, id, ix, cidrs, metric, registered).0.kernel.routes ==> k.dst.Prefix?
    decreases |cidrs|
  {
    if cidrs != [] && cidrs[0].net.Some? {
      var key := KeyOf(cidrs[0], metric);
      var owners := AddOwner(p.owners, key, id, ix);
      var (kernel, e) := AddRoute(f, p.kernel, key, ix);
      ClaimAddsPrefixes(f, Plane(owners, kernel), id, ix, cidrs[1..], metric, registered + [cidrs[0]]);
    }
  }

  /** Releasing the old routes and claiming the new ones on the same interface. */
  lemma SwapKeeps(f: Faults, p: Plane, up: Roster, foreign: map<RouteKey, nat>, id: string, iface: string,
                  before: seq<Cidr>, metricBefore: nat, cidrs: seq<Cidr>, metric: nat)
    requires Reliable(f, RouteReplace)
    requires Owned(p, up, map[], foreign) && id in up && up[id] == Claims(iface, Keys(before, metricBefore))
    requires Keys(cidrs, metric) !! foreign.Keys
    requires iface in p.kernel.links ==>
               ReliableDuring(f, RouteDelete, p.kernel.calls, Release(f, p, id, p.kernel.links[iface], before, metricBefore).kernel.calls)
    ensures iface in p.kernel.links
    ensures var ix := p.kernel.links[iface];
            var (q, ok) := Claim(f, Release(f, p, id, ix, before, metricBefore), id, ix, cidrs, metric, []);
            && (ok ==> Owned(q, up[id := Claims(iface, Keys(cidrs, metric))], map[], foreign))
            && (!ok ==> Owned(q, up - {id}, map[id := Claims(iface, Keys(cidrs, metric))], foreign))
  {
    hide Owned;
    hide Keys;
    var keys := Keys(cidrs, metric);
    ReleaseInPlace(f, p, up, foreign, id, iface, before, metricBefore);
    var ix := p.kernel.links[iface];
    var mid := Release(f, p, id, ix, before, metricBefore);
    var up' := up[id := Claims(iface, {})];
    LinkedAndPrefixed(mid, up', map[], foreign);
    FreshClaim(f, mid, up', map[], foreign, id, iface, cidrs, metric);
    var (q, ok) := Claim(f, mid, id, ix, cidrs, metric, []);
    if ok {
      assert up'[id := Claims(iface, keys)] == up[id := Claims(iface, keys)];
    } else {
      ClaimAddsPrefixes(f, mid, id, ix, cidrs, metric, []);
      FailedClaimIsStale(mid, q, up', foreign, id, iface, keys);
      assert up' - {id} == up - {id};
    }
  }

  lemma {:induction false} ClaimCounts(f: Faults, p: Plane, id: string, ix: nat, cidrs: seq<Cidr>, metric: nat, registered: seq<Cidr>)
    ensures p.kernel.calls <= Claim(f, p, id, ix, cidrs, metric, registered).0.kernel.calls
    decreases |cidrs|
  {
    if cidrs != [] {
      var key := KeyOf(cidrs[0], metric);
      var q := Plane(AddOwner(p.owners, key, id, ix), AddRoute(f, p.kernel, key, ix).0);
      ClaimCounts(f, q, id, ix, cidrs[1..], metric, registered + [cidrs[0]]);
    }
  }

  /** hotUpdate with any new routes and metric, route deletions working while it runs: on success the tunnel holds exactly the new routes. If
      the claim gives up, the tunnel is stale with the new routes; if it never got that far, nothing
      has changed. */
  lemma HotUpdateKeeps(f: Faults, p: Plane, up: Roster, foreign: map<RouteKey, nat>, id: string, iface: string,
                       before: seq<Cidr>, metricBefore: nat, cidrs: seq<Cidr>, metric: nat)
    requires Reliable(f, RouteReplace)
    requires Owned(p, up, map[], foreign) && id in up && up[id] == Claims(iface, Keys(before, metricBefore))
    requires Keys(cidrs, metric) !! foreign.Keys
    requires ReliableDuring(f, RouteDelete, p.kernel.calls, HotUpdate(f, p, id, iface, before, metricBefore, cidrs, metric).0.kernel.calls)
    ensures var (q, ok) := HotUpdate(f, p, id, iface, before, metricBefore, cidrs, metric);
            && (ok ==> Owned(q, up[id := Claims(iface, Keys(cidrs, metric))], map[], foreign))
            && (!ok && f(PeerUpdate, p.kernel.calls) ==> Owned(q, up, map[], foreign))
            && (!ok && !f(PeerUpdate, p.kernel.calls) ==> Owned(q, up - {id}, map[id := Claims(iface, Keys(cidrs, metric))], foreign))
  {
    hide Owned;
    hide Keys;
    var c := p.(kernel := Called(p.kernel));
    OwnedExt(p, c, up, map[], foreign);
    LinkedAndPrefixed(p, up, map[], foreign);
    if !f(PeerUpdate, p.kernel.calls) {
      if before == cidrs && metricBefore == metric {
        assert up[id := Claims(iface, Keys(cidrs, metric))] == up;
      } else {
        ClaimCounts(f, Release(f, c, id, c.kernel.links[iface], before, metricBefore), id, c.kernel.links[iface], cidrs, metric, []);
        SwapKeeps(f, c, up, foreign, id, iface, before, metricBefore, cidrs, metric);
      }
    }
  }

  /** recreateTunnel from any state of the tunnel whose routes are all among the given ones, with the
      key present at the first check: on success it holds exactly those, on failure it is down. */
  lemma RecreateKeeps(f: Faults, p: Plane, up: Roster, stale: Roster, foreign: map<RouteKey, nat>, id: string, iface: string, cidrs: seq<Cidr>, metric: nat)
    requires Reliable(f, RouteReplace) && Reliable(f, LinkDelete) && !f(KeyLoad, p.kernel.calls)
    requires Owned(p, up, stale, foreign)
    requires Configured(up, stale, id, iface, Keys(cidrs, metric)) && Keys(cidrs, metric) !! foreign.Keys
    ensures var (q, ok) := Recreate(f, p, id, iface, cidrs, metric);
            && (ok ==> Owned(q, (up - {id})[id := Claims(iface, Keys(cidrs, metric))], stale - {id}, foreign) && Parseable(cidrs))
            && (!ok ==> Owned(q, up - {id}, stale - {id}, foreign) && iface !in q.kernel.links)
  {
    var keys := Keys(cidrs, metric);
    var c := p.(kernel := Called(p.kernel));
    OwnedExt(p, c, up, stale, foreign);
    TearDownKeeps(f, c, up, stale, foreign, id, iface, cidrs, metric);
    RosterMinus(up, stale, foreign, id, iface, keys);
    hide Owned;
    var down := TearDown(f, c, id, iface, cidrs, metric).0;
    var c' := down.(kernel := Called(down.kernel));
    OwnedExt(down, c', up - {id}, stale - {id}, foreign);
    FreshBringUp(f, c', up - {id}, stale - {id}, foreign, id, iface, cidrs, metric);
    var (q, ok) := Recreate(f, p, id, iface, cidrs, metric);
    if !ok && !f(KeyLoad, down.kernel.calls) {
      OwnedExt(c', q, up - {id}, stale - {id}, foreign);
    }
  }

  // ---------- when recreating a tunnel loses routes ----------

  lemma {:induction false} RemoveOwnersElsewhere(owners: Owners, id: string, cidrs: seq<Cidr>, metric: nat, k: RouteKey)
    requires k !in Keys(cidrs, metric)
    ensures Listed(RemoveOwners(owners, id, cidrs, metric), k) == Listed(owners, k)
    decreases |cidrs|
  {
    if cidrs != [] {
      assert KeyOf(cidrs[0], metric) in Keys(cidrs, metric);
      assert forall c :: c in cidrs[1..] ==> c in cidrs;
      RemoveOwnersElsewhere(RemoveOwner(owners, KeyOf(cidrs[0], metric), id), id, cidrs[1..], metric, k);
    }
  }

  /** Releasing touches only the released keys. */
  lemma {:induction false} ReleaseElsewhere(f: Faults, p: Plane, id: string, ix: nat, cidrs: seq<Cidr>, metric: nat, k: RouteKey)
    requires k !in Keys(cidrs, metric)
    ensures var q := Release(f, p, id, ix, cidrs, metric);
            && Listed(q.owners, k) == Listed(p.owners, k) && SameLinks(p, q)
            && (k in q.kernel.routes <==> k in p.kernel.routes)
            && (k in p.kernel.routes ==> q.kernel.routes[k] == p.kernel.routes[k])
    decreases |cidrs|
  {
    if cidrs != [] {
      assert KeyOf(cidrs[0], metric) in Keys(cidrs, metric);
      assert forall c :: c in cidrs[1..] ==> c in cidrs;
      ReleaseElsewhere(f, ReleaseCidr(f, p, id, ix, cidrs[0], metric), id, ix, cidrs[1..], metric, k);
    }
  }

  /** Claiming touches only the claimed keys. */
  lemma {:induction false} ClaimElsewhere(f: Faults, p: Plane, id: string, ix: nat, cidrs: seq<Cidr>, metric: nat, registered: seq<Cidr>, k: RouteKey)
    requires k !in Keys(registered + cidrs, metric)
    ensures var q := Claim(f, p, id, ix, cidrs, metric, registered).0;
            Listed(q.owners, k) == Listed(p.owners, k) && (k in q.kernel.routes <==> k in p.kernel.routes)
    decreases |cidrs|
  {
    if cidrs != [] {
      var c := cidrs[0];
      var key := KeyOf(c, metric);
      assert c in registered + cidrs && key in Keys(registered + cidrs, metric);
      var registered' := registered + [c];
      assert registered' + cidrs[1..] == registered + cidrs;
      assert forall x :: x in registered' ==> x in registered + cidrs;
      var owners := AddOwner(p.owners, key, id, ix);
      RemoveOwnersElsewhere(owners, id, registered', metric, k);
      ClaimElsewhere(f, Plane(owners, AddRoute(f, p.kernel, key, ix).0), id, ix, cidrs[1..], metric, registered', k);
    }
  }

  lemma {:induction false} ClaimSameLinks(f: Faults, p: Plane, id: string, ix: nat, cidrs: seq<Cidr>, metric: nat, registered: seq<Cidr>)
    ensures SameLinks(p, Claim(f, p, id, ix, cidrs, metric, registered).0)
    decreases |cidrs|
  {
    if cidrs != [] {
      var key := KeyOf(cidrs[0], metric);
      var q := Plane(AddOwner(p.owners, key, id, ix), AddRoute(f, p.kernel, key, ix).0);
      ClaimSameLinks(f, q, id, ix, cidrs[1..], metric, registered + [cidrs[0]]);
    }
  }

  /** Bringing up touches only the claimed keys; a bring-up that fails leaves no link. */
  lemma BringUpElsewhere(f: Faults, p: Plane, id: string, iface: string, cidrs: seq<Cidr>, metric: nat, k: RouteKey)
    requires Reliable(f, LinkDelete) && iface !in p.kernel.links && k !in Keys(cidrs, metric)
    ensures var (q, ok) := BringUp(f, p, id, iface, cidrs, metric);
            && Listed(q.owners, k) == Listed(p.owners, k) && (k in q.kernel.routes ==> k in p.kernel.routes)
            && (!ok ==> iface !in q.kernel.links)
  {
    var (kernel, created) := CreateLink(f, p.kernel, iface);
    if created.Some? {
      var ix := created.value;
      var linked := p.(kernel := Called(kernel));
      assert linked.kernel.links[iface] == ix && ix in linked.kernel.links.Values;
      Assoc(cidrs, [], []);
      ClaimElsewhere(f, linked, id, ix, cidrs, metric, [], k);
      ClaimSameLinks(f, linked, id, ix, cidrs, metric, []);
    }
  }

  /** A recreate does not look at a route outside the new configuration: its owner list is as before, and,
      once the key was found, it is gone from the kernel if it went through the recreated interface. */
  lemma RecreateElsewhere(f: Faults, p: Plane, id: string, iface: string, cidrs: seq<Cidr>, metric: nat, k: RouteKey)
    requires Reliable(f, LinkDelete) && iface in p.kernel.links && OneToOne(p.kernel.links)
    requires k !in Keys(cidrs, metric)
    ensures var (q, ok) := Recreate(f, p, id, iface, cidrs, metric);
            && Listed(q.owners, k) == Listed(p.owners, k)
            && (!f(KeyLoad, p.kernel.calls) ==>
                  && (!ok ==> iface !in q.kernel.links)
                  && (k in p.kernel.routes && p.kernel.routes[k] == p.kernel.links[iface] ==> k !in q.kernel.routes))
  {
    if !f(KeyLoad, p.kernel.calls) {
      var c := p.(kernel := Called(p.kernel));
      var ix := p.kernel.links[iface];
      ReleaseElsewhere(f, c, id, ix, cidrs, metric, k);
      var mid := Release(f, c, id, ix, cidrs, metric);
      UnlinkEffect(f, mid.kernel, iface);
      var down := TearDown(f, c, id, iface, cidrs, metric).0;
      hide Release, BringUp, Keys;
      BringUpElsewhere(f, down.(kernel := Called(down.kernel)), id, iface, cidrs, metric, k);
    }
  }

  lemma ConfiguredSelf(p: Plane, up: Roster, foreign: map<RouteKey, nat>, id: string, iface: string, keys: set<RouteKey>)
    requires Owned(p, up, map[], foreign) && id in up && up[id].iface == iface && up[id].keys <= keys
    ensures Configured(up, map[], id, iface, keys)
  {
    assert up + map[] == up;
    hide OwnersOk, RoutesOk;
  }

  lemma RecreateLoads(f: Faults, p: Plane, id: string, iface: string, cidrs: seq<Cidr>, metric: nat)
    requires Recreate(f, p, id, iface, cidrs, metric).1
    ensures !f(KeyLoad, p.kernel.calls)
  {
    hide TearDown, BringUp;
  }

  /** Recreating a running tunnel with a changed configuration keeps the invariant exactly when the
      change drops none of the routes the tunnel holds: the tear-down releases the new routes, not
      the old ones. */
  lemma RecreateExact(f: Faults, p: Plane, up: Roster, foreign: map<RouteKey, nat>, id: string, iface: string, cidrs: seq<Cidr>, metric: nat)
    requires Reliable(f, RouteReplace) && Reliable(f, LinkDelete)
    requires Owned(p, up, map[], foreign) && id in up && up[id].iface == iface && Keys(cidrs, metric) !! foreign.Keys
    requires Recreate(f, p, id, iface, cidrs, metric).1
    ensures var q := Recreate(f, p, id, iface, cidrs, metric).0;
            Owned(q, up[id := Claims(iface, Keys(cidrs, metric))], map[], foreign) <==> up[id].keys <= Keys(cidrs, metric)
  {
    var keys := Keys(cidrs, metric);
    var up' := up[id := Claims(iface, keys)];
    hide Owned, Recreate;
    if up[id].keys <= keys {
      ConfiguredSelf(p, up, foreign, id, iface, keys);
      RecreateLoads(f, p, id, iface, cidrs, metric);
      hide Configured, Keys;
      RecreateKeeps(f, p, up, map[], foreign, id, iface, cidrs, metric);
      assert (up - {id})[id := Claims(iface, keys)] == up';
      var none: Roster := map[];
      assert none - {id} == none;
    } else {
      hide Keys;
      var k :| k in up[id].keys && k !in keys;
      RecreateLeavesEntry(f, p, up, foreign, id, iface, cidrs, metric, k, up');
    }
  }

  /** A route the change drops keeps the recreated tunnel on its owner list, whether the recreate succeeds or
      not: no roster with the tunnel at its new routes, or without it, describes what is left. */
  lemma RecreateLeavesEntry(f: Faults, p: Plane, up: Roster, foreign: map<RouteKey, nat>, id: string, iface: string, cidrs: seq<Cidr>, metric: nat, k: RouteKey, up': Roster)
    requires Reliable(f, LinkDelete)
    requires Owned(p, up, map[], foreign) && id in up && up[id].iface == iface
    requires k in up[id].keys && k !in Keys(cidrs, metric)
    requires id in up' ==> k !in up'[id].keys
    ensures var q := Recreate(f, p, id, iface, cidrs, metric).0;
            !Owned(q, up', map[], foreign)
  {
    var q := Recreate(f, p, id, iface, cidrs, metric).0;
    var o := Owner(id, p.kernel.links[iface]);
    assert Lists(p.owners, k, o);
    RecreateElsewhere(f, p, id, iface, cidrs, metric, k);
    hide Recreate;
    assert Lists(q.owners, k, o);
  }

  /** The visible damage: a route shared with another running tunnel disappears from the kernel when it
      went through the recreated interface and the change drops it. */
  lemma RecreateLosesSharedRoute(f: Faults, p: Plane, up: Roster, foreign: map<RouteKey, nat>, id: string, iface: string,
                                 cidrs: seq<Cidr>, metric: nat, other: string, k: RouteKey)
    requires Reliable(f, LinkDelete)
    requires Owned(p, up, map[], foreign) && id in up && up[id].iface == iface
    requires other in up && other != id && k in up[other].keys && k in up[id].keys && k !in Keys(cidrs, metric)
    requires k in p.kernel.routes && p.kernel.routes[k] == p.kernel.links[iface]
    requires Recreate(f, p, id, iface, cidrs, metric).1
    ensures k !in Recreate(f, p, id, iface, cidrs, metric).0.kernel.routes
  {
    RecreateElsewhere(f, p, id, iface, cidrs, metric, k);
  }
}
