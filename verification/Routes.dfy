/** Kernel routes shared by WireGuard site-to-site tunnels: the owner lists kept by the manager
    (route_refs.go), the kernel's route and link tables, and claiming and releasing routes
    (manager.go) with every kernel call free to fail. */
module Routes {
  import opened Text

  // ---------- CIDRs and route keys ----------

  /** A masked network, as net.ParseCIDR returns it. */
  datatype Net = Net(v6: bool, addr: nat, bits: nat)

  /** A CIDR spelling together with what net.ParseCIDR makes of it. */
  datatype Cidr = Cidr(text: string, net: Option<Net>)

  datatype Dst = Prefix(net: Net) | Unparsed(text: string)

  /** What identifies a route, in the owner lists and in the kernel: destination and metric, not the
      outgoing interface. */
  datatype RouteKey = RouteKey(dst: Dst, metric: nat)

  function KeyOf(c: Cidr, metric: nat): RouteKey {
    RouteKey(if c.net.Some? then Prefix(c.net.value) else Unparsed(c.text), metric)
  }

  function Keys(cidrs: seq<Cidr>, metric: nat): set<RouteKey> {
    set c | c in cidrs :: KeyOf(c, metric)
  }

  lemma KeysSnoc(cidrs: seq<Cidr>, c: Cidr, metric: nat)
    ensures Keys(cidrs + [c], metric) == Keys(cidrs, metric) + {KeyOf(c, metric)}
  {
    var all := cidrs + [c];
    assert forall x :: x in all <==> x in cidrs || x == c;
  }

  /** The manager's textual key: the canonical spelling of the network, "@", the metric. */
  function KeyText(render: Net -> string, c: Cidr, metric: nat): string {
    (if c.net.Some? then render(c.net.value) else c.text) + "@" + Itoa(metric)
  }

  /** Two spellings share a textual key exactly when the kernel takes them for the same route, for any
      canonical spelling of networks that keeps distinct networks apart and is itself parseable. */
  lemma KeyTextIdentifiesRoute(render: Net -> string, c: Cidr, metric: nat, c': Cidr, metric': nat)
    requires forall a, b :: render(a) == render(b) ==> a == b
    requires c.net.None? ==> forall a :: render(a) != c.text
    requires c'.net.None? ==> forall a :: render(a) != c'.text
    ensures KeyText(render, c, metric) == KeyText(render, c', metric') <==> KeyOf(c, metric) == KeyOf(c', metric')
  {
    var n := if c.net.Some? then render(c.net.value) else c.text;
    var n' := if c'.net.Some? then render(c'.net.value) else c'.text;
    if KeyText(render, c, metric) == KeyText(render, c', metric') {
      assert n + ['@'] + Itoa(metric) == n' + ['@'] + Itoa(metric');
      CutLast(n, Itoa(metric), n', Itoa(metric'), '@');
      ItoaInjective(metric, metric');
    }
  }

  // ---------- owner lists ----------

  datatype Owner = Owner(tunnel: string, oif: nat)

  type Owners = map<RouteKey, seq<Owner>>

  function Listed(owners: Owners, k: RouteKey): seq<Owner> {
    if k in owners then owners[k] else []
  }

  predicate Owns(os: seq<Owner>, id: string) {
    exists i :: 0 <= i < |os| && os[i].tunnel == id
  }

  /** Register id: refresh its interface if it is listed, append it otherwise. */
  function Put(os: seq<Owner>, id: string, oif: nat): seq<Owner> {
    if os == [] then [Owner(id, oif)]
    else if os[0].tunnel == id then [Owner(id, oif)] + os[1..]
    else [os[0]] + Put(os[1..], id, oif)
  }

  /** Unregister the first entry of id. */
  function Drop(os: seq<Owner>, id: string): seq<Owner> {
    if os == [] then []
    else if os[0].tunnel == id then os[1..]
    else [os[0]] + Drop(os[1..], id)
  }

  function AddOwner(owners: Owners, k: RouteKey, id: string, oif: nat): Owners {
    owners[k := Put(Listed(owners, k), id, oif)]
  }

  /** The list is removed with its last owner; a tunnel that is not listed changes nothing. */
  function RemoveOwner(owners: Owners, k: RouteKey, id: string): Owners {
    if k !in owners || !Owns(owners[k], id) then owners
    else
      var rest := Drop(owners[k], id);
      if rest == [] then owners - {k} else owners[k := rest]
  }

  function RemoveOwners(owners: Owners, id: string, cidrs: seq<Cidr>, metric: nat): Owners {
    if cidrs == [] then owners
    else RemoveOwners(RemoveOwner(owners, KeyOf(cidrs[0], metric), id), id, cidrs[1..], metric)
  }

  ghost predicate Distinct(os: seq<Owner>) {
    forall i, j :: 0 <= i < j < |os| ==> os[i].tunnel != os[j].tunnel
  }

  /** Every list is nonempty and names each tunnel once. */
  ghost predicate Tidy(owners: Owners) {
    forall k :: k in owners ==> owners[k] != [] && Distinct(owners[k])
  }

  ghost predicate Unowned(owners: Owners, id: string) {
    forall k :: k in owners ==> !Owns(owners[k], id)
  }

  lemma {:induction false} PutNew(os: seq<Owner>, id: string, oif: nat)
    requires !Owns(os, id)
    ensures Put(os, id, oif) == os + [Owner(id, oif)]
  {
    if os != [] {
      assert !Owns(os[1..], id) by {
        assert forall i :: 0 <= i < |os[1..]| ==> os[1..][i] == os[i + 1];
      }
      PutNew(os[1..], id, oif);
    }
  }

  lemma {:induction false} PutSelf(os: seq<Owner>, id: string, oif: nat)
    requires !Owns(os, id)
    ensures Put(os + [Owner(id, oif)], id, oif) == os + [Owner(id, oif)]
  {
    var all := os + [Owner(id, oif)];
    if os != [] {
      assert !Owns(os[1..], id) by {
        assert forall i :: 0 <= i < |os[1..]| ==> os[1..][i] == os[i + 1];
      }
      PutSelf(os[1..], id, oif);
      assert os[0].tunnel != id;
      assert all[1..] == os[1..] + [Owner(id, oif)];
    }
  }

  lemma {:induction false} DropAbsent(os: seq<Owner>, id: string)
    requires !Owns(os, id)
    ensures Drop(os, id) == os
  {
    if os != [] {
      assert !Owns(os[1..], id) by {
        assert forall i :: 0 <= i < |os[1..]| ==> os[1..][i] == os[i + 1];
      }
      DropAbsent(os[1..], id);
    }
  }

  lemma {:induction false} DropLast(os: seq<Owner>, id: string, oif: nat)
    requires !Owns(os, id)
    ensures Drop(os + [Owner(id, oif)], id) == os
  {
    var all := os + [Owner(id, oif)];
    if os != [] {
      assert !Owns(os[1..], id) by {
        assert forall i :: 0 <= i < |os[1..]| ==> os[1..][i] == os[i + 1];
      }
      DropLast(os[1..], id, oif);
      assert os[0].tunnel != id;
      assert all[1..] == os[1..] + [Owner(id, oif)];
    }
  }

  lemma {:induction false} DropMembers(os: seq<Owner>, id: string, o: Owner)
    ensures o in Drop(os, id) ==> o in os
    ensures o in os && o.tunnel != id ==> o in Drop(os, id)
  {
    if os != [] && os[0].tunnel != id {
      assert os == [os[0]] + os[1..];
      DropMembers(os[1..], id, o);
    }
  }

  lemma {:induction false} DropKeepsDistinct(os: seq<Owner>, id: string)
    requires Distinct(os)
    ensures Distinct(Drop(os, id)) && !Owns(Drop(os, id), id)
  {
    if os != [] {
      var tail := os[1..];
      assert forall i :: 0 <= i < |tail| ==> tail[i].tunnel != os[0].tunnel;
      if os[0].tunnel != id {
        DropKeepsDistinct(tail, id);
        var d := Drop(tail, id);
        forall i | 0 <= i < |d|
          ensures d[i].tunnel != os[0].tunnel
        {
          DropMembers(tail, id, d[i]);
          var j :| 0 <= j < |tail| && tail[j] == d[i];
        }
        assert forall i :: 1 <= i < |[os[0]] + d| ==> ([os[0]] + d)[i] == d[i - 1];
      }
    }
  }

  /** Dropping keeps exactly the other tunnels' entries. */
  lemma DropKeepsOthers(os: seq<Owner>, id: string)
    requires Distinct(os)
    ensures Distinct(Drop(os, id)) && !Owns(Drop(os, id), id)
    ensures forall o :: o in Drop(os, id) <==> o in os && o.tunnel != id
  {
    DropKeepsDistinct(os, id);
    forall o
      ensures o in Drop(os, id) <==> o in os && o.tunnel != id
    {
      DropMembers(os, id, o);
      if o in Drop(os, id) {
        var i :| 0 <= i < |Drop(os, id)| && Drop(os, id)[i] == o;
      }
    }
  }

  // ---------- closed forms ----------

  /** The owner lists with id appended under each of the given keys. */
  function With(owners: Owners, id: string, oif: nat, keys: set<RouteKey>): Owners {
    map k | k in owners.Keys + keys :: Listed(owners, k) + (if k in keys then [Owner(id, oif)] else [])
  }

  /** The owner lists with id dropped under each of the given keys. */
  function Without(owners: Owners, id: string, keys: set<RouteKey>): Owners {
    map k | k in owners && (k in keys ==> Drop(owners[k], id) != []) ::
      if k in keys then Drop(owners[k], id) else owners[k]
  }

  lemma WithNothing(owners: Owners, id: string, oif: nat)
    ensures With(owners, id, oif, {}) == owners
  {
    assert forall k :: k in owners ==> owners[k] + [] == owners[k];
  }

  lemma AddOwnerWith(owners: Owners, id: string, oif: nat, keys: set<RouteKey>, k: RouteKey)
    requires Unowned(owners, id)
    ensures AddOwner(With(owners, id, oif, keys), k, id, oif) == With(owners, id, oif, keys + {k})
  {
    PutNew(Listed(owners, k), id, oif);
    PutSelf(Listed(owners, k), id, oif);
    assert Listed(owners, k) + [] == Listed(owners, k);
    assert (owners.Keys + keys) + {k} == owners.Keys + (keys + {k});
  }

  lemma RemoveOwnerWithout(owners: Owners, id: string, keys: set<RouteKey>, k: RouteKey)
    requires Tidy(owners)
    ensures RemoveOwner(Without(owners, id, keys), k, id) == Without(owners, id, keys + {k})
  {
    forall x
      ensures x in RemoveOwner(Without(owners, id, keys), k, id) <==> x in Without(owners, id, keys + {k})
      ensures x in Without(owners, id, keys + {k}) ==> RemoveOwner(Without(owners, id, keys), k, id)[x] == Without(owners, id, keys + {k})[x]
    {
      RemoveOwnerAt(owners, id, keys, k, x);
    }
    hide RemoveOwner, Without;
    assert RemoveOwner(Without(owners, id, keys), k, id).Keys == Without(owners, id, keys + {k}).Keys;
  }

  lemma RemoveOwnerAt(owners: Owners, id: string, keys: set<RouteKey>, k: RouteKey, x: RouteKey)
    requires Tidy(owners)
    ensures var l := RemoveOwner(Without(owners, id, keys), k, id);
            var r := Without(owners, id, keys + {k});
            (x in l <==> x in r) && (x in r ==> l[x] == r[x])
  {
    if x == k && k in owners {
      DropKeepsOthers(owners[k], id);
      if !Owns(owners[k], id) {
        DropAbsent(owners[k], id);
      }
      DropAbsent(Drop(owners[k], id), id);
    }
    hide Drop, Owns, Tidy;
  }

  lemma {:induction false} RemoveOwnersWithout(owners: Owners, id: string, keys: set<RouteKey>, cidrs: seq<Cidr>, metric: nat)
    requires Tidy(owners)
    ensures RemoveOwners(Without(owners, id, keys), id, cidrs, metric) == Without(owners, id, keys + Keys(cidrs, metric))
    decreases |cidrs|
  {
    if cidrs == [] {
      assert keys + Keys(cidrs, metric) == keys;
    } else {
      var k := KeyOf(cidrs[0], metric);
      RemoveOwnerWithout(owners, id, keys, k);
      RemoveOwnersWithout(owners, id, keys + {k}, cidrs[1..], metric);
      assert cidrs == [cidrs[0]] + cidrs[1..];
      assert keys + {k} + Keys(cidrs[1..], metric) == keys + Keys(cidrs, metric);
    }
  }

  lemma WithIsTidy(owners: Owners, id: string, oif: nat, keys: set<RouteKey>)
    requires Tidy(owners) && Unowned(owners, id)
    ensures Tidy(With(owners, id, oif, keys))
  {
    forall k | k in With(owners, id, oif, keys)
      ensures With(owners, id, oif, keys)[k] != [] && Distinct(With(owners, id, oif, keys)[k])
    {
      if k in owners {
        assert forall i :: 0 <= i < |owners[k]| ==> owners[k][i].tunnel != id;
      }
    }
  }

  lemma WithoutWith(owners: Owners, id: string, oif: nat, keys: set<RouteKey>)
    requires Tidy(owners) && Unowned(owners, id)
    ensures Without(With(owners, id, oif, keys), id, keys) == owners
  {
    var w := With(owners, id, oif, keys);
    forall k | k in w
      ensures k in keys ==> Drop(w[k], id) == Listed(owners, k)
      ensures k !in keys ==> w[k] == Listed(owners, k)
    {
      DropLast(Listed(owners, k), id, oif);
    }
  }

  /** Registering a tunnel and unregistering it gives the lists back unchanged. */
  lemma UnregisterRestores(owners: Owners, id: string, oif: nat, cidrs: seq<Cidr>, metric: nat)
    requires Tidy(owners) && Unowned(owners, id)
    ensures RemoveOwners(With(owners, id, oif, Keys(cidrs, metric)), id, cidrs, metric) == owners
  {
    var keys := Keys(cidrs, metric);
    var w := With(owners, id, oif, keys);
    WithIsTidy(owners, id, oif, keys);
    assert Without(w, id, {}) == w;
    RemoveOwnersWithout(w, id, {}, cidrs, metric);
    assert {} + keys == keys;
    WithoutWith(owners, id, oif, keys);
  }

  // ---------- the kernel ----------

  /** Calls out of the manager that can fail. */
  datatype Call =
    | RouteAdd | RouteDelete | RouteReplace
    | LinkCreate | LinkDelete | LinkConfigure | Reconnect
    | PeerUpdate | KeyLoad | ConfigSave | Preflight

  /** Which calls fail: whether a call of this kind, made as the n-th kernel call, returns an error
      of its own. A failed call has no effect. */
  type Faults = (Call, nat) -> bool

  ghost predicate Reliable(f: Faults, c: Call) {
    forall n :: !f(c, n)
  }

  /** Calls of this kind work from the lo-th kernel call up to the hi-th. */
  ghost predicate ReliableDuring(f: Faults, c: Call, lo: nat, hi: nat) {
    forall n :: lo <= n < hi ==> !f(c, n)
  }

  /** The main routing table, keyed as the kernel keys it, with the outgoing interface of each route;
      the live links by name; the next interface index; and the number of calls made so far. */
  datatype Kernel = Kernel(routes: map<RouteKey, nat>, links: map<string, nat>, nextIf: nat, calls: nat)

  datatype Errno = Ok | EExist | ESrch | Other

  function Called(k: Kernel): Kernel {
    k.(calls := k.calls + 1)
  }

  function AddRoute(f: Faults, k: Kernel, key: RouteKey, oif: nat): (Kernel, Errno) {
    if f(RouteAdd, k.calls) then (Called(k), Other)
    else if key in k.routes then (Called(k), EExist)
    else if oif !in k.links.Values then (Called(k), Other)
    else (Called(k).(routes := k.routes[key := oif]), Ok)
  }

  /** Deletion matches the outgoing interface: a route through another one is not found. */
  function DeleteRoute(f: Faults, k: Kernel, key: RouteKey, oif: nat): (Kernel, Errno) {
    if f(RouteDelete, k.calls) then (Called(k), Other)
    else if key in k.routes && k.routes[key] == oif then (Called(k).(routes := k.routes - {key}), Ok)
    else (Called(k), ESrch)
  }

  function ReplaceRoute(f: Faults, k: Kernel, key: RouteKey, oif: nat): (Kernel, Errno) {
    if f(RouteReplace, k.calls) || oif !in k.links.Values then (Called(k), Other)
    else (Called(k).(routes := k.routes[key := oif]), Ok)
  }

  function CreateLink(f: Faults, k: Kernel, name: string): (Kernel, Option<nat>) {
    if f(LinkCreate, k.calls) || name in k.links then (Called(k), None)
    else (Called(k).(links := k.links[name := k.nextIf], nextIf := k.nextIf + 1), Some(k.nextIf))
  }

  /** Deleting a link drops every route through it. */
  function DeleteLink(f: Faults, k: Kernel, ix: nat): (Kernel, bool) {
    if f(LinkDelete, k.calls) || ix !in k.links.Values then (Called(k), false)
    else (Called(k).(links := map n | n in k.links && k.links[n] != ix :: k.links[n],
                     routes := map r | r in k.routes && k.routes[r] != ix :: k.routes[r]), true)
  }

  // ---------- claiming and releasing ----------

  /** The manager's owner lists next to the kernel they mirror. */
  datatype Plane = Plane(owners: Owners, kernel: Kernel)

  /** claimRoutes: register each CIDR and install its route. A shared route is only re-asserted, and
      its errors ignored; a first owner tolerates an existing route and gives up on any other error,
      unregistering what it registered. */
  function Claim(f: Faults, p: Plane, id: string, ix: nat, cidrs: seq<Cidr>, metric: nat, registered: seq<Cidr>): (Plane, bool)
    decreases |cidrs|
  {
    if cidrs == [] then (p, true)
    else
      var c := cidrs[0];
      var key := KeyOf(c, metric);
      var owners := AddOwner(p.owners, key, id, ix);
      var registered' := registered + [c];
      if c.net.None? then (p.(owners := RemoveOwners(owners, id, registered', metric)), false)
      else
        var (kernel, e) := AddRoute(f, p.kernel, key, ix);
        if |owners[key]| == 1 && e == Other
        then (Plane(RemoveOwners(owners, id, registered', metric), kernel), false)
        else Claim(f, Plane(owners, kernel), id, ix, cidrs[1..], metric, registered')
  }

  /** One released CIDR: unregister it; the last owner deletes the route, otherwise the route moves to
      the first surviving owner. Errors are logged and skipped. */
  function ReleaseCidr(f: Faults, p: Plane, id: string, ix: nat, c: Cidr, metric: nat): Plane {
    var key := KeyOf(c, metric);
    var owners := RemoveOwner(p.owners, key, id);
    var remaining := Listed(owners, key);
    var kernel :=
      if c.net.None? then p.kernel
      else if remaining == [] then DeleteRoute(f, p.kernel, key, ix).0
      else ReplaceRoute(f, p.kernel, key, remaining[0].oif).0;
    Plane(owners, kernel)
  }

  /** releaseRoutes. */
  function Release(f: Faults, p: Plane, id: string, ix: nat, cidrs: seq<Cidr>, metric: nat): Plane
    decreases |cidrs|
  {
    if cidrs == [] then p
    else Release(f, ReleaseCidr(f, p, id, ix, cidrs[0], metric), id, ix, cidrs[1..], metric)
  }

  ghost predicate Live(p: Plane, ix: nat) {
    ix in p.kernel.links.Values
  }

  ghost predicate SameLinks(p: Plane, q: Plane) {
    p.kernel.links == q.kernel.links && p.kernel.nextIf == q.kernel.nextIf
  }

  /** No route of p is lost or moved, and every new one is at one of the keys and through ix. */
  ghost predicate Gained(p: Plane, q: Plane, ix: nat, keys: set<RouteKey>) {
    && p.kernel.routes.Keys <= q.kernel.routes.Keys
    && (forall k :: k in p.kernel.routes ==> q.kernel.routes[k] == p.kernel.routes[k])
    && (forall k :: k in q.kernel.routes && k !in p.kernel.routes ==> k in keys && q.kernel.routes[k] == ix)
  }

  /** What an unfinished or finished claim of `keys` through ix looks like, seen from p. A claimed route is
      in the kernel, unless it had owners but was not there and adding it failed: that error is ignored. */
  ghost predicate Claimed(f: Faults, p: Plane, q: Plane, id: string, ix: nat, keys: set<RouteKey>) {
    && SameLinks(p, q)
    && q.owners == With(p.owners, id, ix, keys)
    && Gained(p, q, ix, keys)
    && (forall k :: k in keys && k !in q.kernel.routes ==> k in p.owners && !Reliable(f, RouteAdd))
  }

  /** What a failed claim leaves: the owner lists untouched, no route lost, and every new route at one
      of the claimed keys and through ix. */
  ghost predicate ClaimFailed(p: Plane, q: Plane, ix: nat, keys: set<RouteKey>) {
    && SameLinks(p, q)
    && q.owners == p.owners
    && Gained(p, q, ix, keys)
  }

  ghost predicate Parseable(cidrs: seq<Cidr>) {
    forall c :: c in cidrs ==> c.net.Some?
  }

  /** One claimed CIDR: the owner lists gain its key, and so do the routes unless the add failed. */
  lemma ClaimOne(f: Faults, p: Plane, q: Plane, id: string, ix: nat, keys: set<RouteKey>, key: RouteKey)
    requires Unowned(p.owners, id) && Live(p, ix)
    requires forall k :: k in p.owners ==> p.owners[k] != []
    requires Claimed(f, p, q, id, ix, keys)
    ensures var owners := AddOwner(q.owners, key, id, ix);
            var (kernel, e) := AddRoute(f, q.kernel, key, ix);
            && owners == With(p.owners, id, ix, keys + {key})
            && (|owners[key]| == 1 && e == Other ==> kernel.routes == q.kernel.routes)
            && (!(|owners[key]| == 1 && e == Other) ==> Claimed(f, p, Plane(owners, kernel), id, ix, keys + {key}))
  {
    AddOwnerWith(p.owners, id, ix, keys, key);
    hide With, AddOwner, Unowned;
    var owners := AddOwner(q.owners, key, id, ix);
    var (kernel, e) := AddRoute(f, q.kernel, key, ix);
    assert owners[key] == Listed(p.owners, key) + [Owner(id, ix)] by {
      WithAt(p.owners, id, ix, keys + {key}, key);
    }
    assert |owners[key]| != 1 ==> key in p.owners;
    assert ix in q.kernel.links.Values;
  }

  lemma WithAt(owners: Owners, id: string, oif: nat, keys: set<RouteKey>, k: RouteKey)
    requires k in keys
    ensures k in With(owners, id, oif, keys) && With(owners, id, oif, keys)[k] == Listed(owners, k) + [Owner(id, oif)]
  {
  }

  /** Giving up part-way: the owner lists are exactly what they were. */
  lemma ClaimGivesUp(f: Faults, p: Plane, q: Plane, id: string, ix: nat, registered: seq<Cidr>, c: Cidr, metric: nat, kernel: Kernel)
    requires Tidy(p.owners) && Unowned(p.owners, id)
    requires Claimed(f, p, q, id, ix, Keys(registered, metric))
    requires kernel.routes == q.kernel.routes && SameLinks(q, Plane(q.owners, kernel))
    ensures var owners := AddOwner(q.owners, KeyOf(c, metric), id, ix);
            ClaimFailed(p, Plane(RemoveOwners(owners, id, registered + [c], metric), kernel), ix, Keys(registered + [c], metric))
  {
    AddOwnerWith(p.owners, id, ix, Keys(registered, metric), KeyOf(c, metric));
    KeysSnoc(registered, c, metric);
    UnregisterRestores(p.owners, id, ix, registered + [c], metric);
  }

  lemma ClaimFailedMore(p: Plane, q: Plane, ix: nat, keys: set<RouteKey>, more: set<RouteKey>)
    requires ClaimFailed(p, q, ix, keys) && keys <= more
    ensures ClaimFailed(p, q, ix, more)
  {
  }

  /** A claim either completes for all its CIDRs or leaves the owner lists as they were. */
  lemma {:induction false} ClaimOutcome(f: Faults, p: Plane, q: Plane, id: string, ix: nat, cidrs: seq<Cidr>, metric: nat, registered: seq<Cidr>)
    requires Tidy(p.owners) && Unowned(p.owners, id) && Live(p, ix)
    requires Claimed(f, p, q, id, ix, Keys(registered, metric))
    ensures var (r, ok) := Claim(f, q, id, ix, cidrs, metric, registered);
            && (ok ==> Claimed(f, p, r, id, ix, Keys(registered + cidrs, metric)) && Parseable(cidrs))
            && (!ok ==> ClaimFailed(p, r, ix, Keys(registered + cidrs, metric)))
    decreases |cidrs|
  {
    if cidrs == [] {
      assert registered + cidrs == registered;
    } else {
      var c := cidrs[0];
      var key := KeyOf(c, metric);
      var registered' := registered + [c];
      var owners := AddOwner(q.owners, key, id, ix);
      var (kernel, e) := AddRoute(f, q.kernel, key, ix);
      var (r, ok) := Claim(f, q, id, ix, cidrs, metric, registered);
      assert cidrs == [c] + cidrs[1..];
      assert registered + cidrs == registered' + cidrs[1..];
      hide Claimed, ClaimFailed, Unowned, AddOwner;
      if c.net.None? {
        ClaimGivesUp(f, p, q, id, ix, registered, c, metric, q.kernel);
        ClaimFailedMore(p, r, ix, Keys(registered', metric), Keys(registered + cidrs, metric));
      } else {
        ClaimOne(f, p, q, id, ix, Keys(registered, metric), key);
        if |owners[key]| == 1 && e == Other {
          ClaimGivesUp(f, p, q, id, ix, registered, c, metric, kernel);
          ClaimFailedMore(p, r, ix, Keys(registered', metric), Keys(registered + cidrs, metric));
        } else {
          KeysSnoc(registered, c, metric);
          ClaimOutcome(f, p, Plane(owners, kernel), id, ix, cidrs[1..], metric, registered');
        }
      }
    }
  }

  ghost predicate OifIn(os: seq<Owner>, ix: nat) {
    exists o :: o in os && o.oif == ix
  }

  /** Route k after releasing `keys`: with surviving owners it goes through one of them; otherwise it is
      untouched, except that a released route through ix may be gone. */
  ghost predicate ReleasedAt(p: Plane, q: Plane, ix: nat, keys: set<RouteKey>, k: RouteKey) {
    if k in keys && k in q.owners then
      k in q.kernel.routes && OifIn(q.owners[k], q.kernel.routes[k])
    else
      && (k in q.kernel.routes ==> k in p.kernel.routes && q.kernel.routes[k] == p.kernel.routes[k])
      && (k in p.kernel.routes && k !in q.kernel.routes ==> k in keys && p.kernel.routes[k] == ix)
  }

  /** What releasing `keys` from p looks like: id is dropped from their owner lists, and each route is
      as ReleasedAt says. */
  ghost predicate Released(p: Plane, q: Plane, id: string, ix: nat, keys: set<RouteKey>) {
    && SameLinks(p, q)
    && q.owners == Without(p.owners, id, keys)
    && (forall k {:trigger ReleasedAt(p, q, ix, keys, k)} :: ReleasedAt(p, q, ix, keys, k))
  }

  /** With route deletion working, none of the released keys without owners keeps a route through ix. */
  ghost predicate Cleared(q: Plane, ix: nat, keys: set<RouteKey>) {
    forall k :: k in keys && k !in q.owners && k in q.kernel.routes ==> q.kernel.routes[k] != ix
  }

  ghost predicate OwnersReachable(p: Plane) {
    && (forall k, o :: k in p.owners && o in p.owners[k] ==> Live(p, o.oif))
    && (forall k :: k in p.owners ==> k.dst.Prefix?)
    && (forall k :: k in p.kernel.routes ==> k.dst.Prefix?)
  }

  /** The owner lists after releasing one CIDR. */
  lemma ReleaseCidrOwners(f: Faults, p: Plane, q: Plane, id: string, ix: nat, keys: set<RouteKey>, c: Cidr, metric: nat)
    requires Tidy(p.owners) && OwnersReachable(p)
    requires SameLinks(p, q) && q.owners == Without(p.owners, id, keys)
    ensures var key := KeyOf(c, metric);
            var owners := RemoveOwner(q.owners, key, id);
            && owners == Without(p.owners, id, keys + {key})
            && (forall k :: k != key ==> (k in owners <==> k in q.owners) && (k in owners ==> owners[k] == q.owners[k]))
            && (key in owners ==> owners[key] != [] && Live(q, owners[key][0].oif) && key.dst.Prefix?)
            && (key in keys && key in q.owners ==> key in owners)
  {
    var key := KeyOf(c, metric);
    RemoveOwnerWithout(p.owners, id, keys, key);
    var owners := RemoveOwner(q.owners, key, id);
    if key in p.owners {
      DropKeepsOthers(p.owners[key], id);
      DropAbsent(Drop(p.owners[key], id), id);
    }
    if key in owners {
      assert owners[key][0] in owners[key];
      assert owners[key][0] in p.owners[key];
    }
  }

  /** The route table after releasing one CIDR: its own key changes, every other is left alone. */
  lemma ReleaseCidrKernel(f: Faults, q: Plane, id: string, ix: nat, c: Cidr, metric: nat)
    requires Reliable(f, RouteReplace)
    requires var key := KeyOf(c, metric);
             var owners := RemoveOwner(q.owners, key, id);
             key in owners ==> owners[key] != [] && Live(q, owners[key][0].oif) && key.dst.Prefix?
    ensures var key := KeyOf(c, metric);
            var r := ReleaseCidr(f, q, id, ix, c, metric);
            && r.owners == RemoveOwner(q.owners, key, id) && SameLinks(q, r)
            && (key in r.owners ==> r.kernel.routes == q.kernel.routes[key := r.owners[key][0].oif])
            && (key !in r.owners && r.kernel.routes != q.kernel.routes ==>
                  key in q.kernel.routes && q.kernel.routes[key] == ix && r.kernel.routes == q.kernel.routes - {key})
            && (key !in r.owners && key in r.kernel.routes && r.kernel.routes[key] == ix ==> f(RouteDelete, q.kernel.calls) || key.dst.Unparsed?)
            && (key.dst.Prefix? ==> r.kernel.calls == q.kernel.calls + 1) && (key.dst.Unparsed? ==> r.kernel.calls == q.kernel.calls)
  {
    hide RemoveOwner;
  }

  /** What releasing one CIDR does to its own key; every other key is left alone. */
  lemma ReleaseCidrEffect(f: Faults, p: Plane, q: Plane, id: string, ix: nat, keys: set<RouteKey>, c: Cidr, metric: nat)
    requires Tidy(p.owners) && OwnersReachable(p) && Reliable(f, RouteReplace)
    requires SameLinks(p, q) && q.owners == Without(p.owners, id, keys)
    ensures var key := KeyOf(c, metric);
            var r := ReleaseCidr(f, q, id, ix, c, metric);
            && SameLinks(p, r) && r.owners == Without(p.owners, id, keys + {key})
            && (forall k :: k != key ==> (k in r.owners <==> k in q.owners) && (k in r.owners ==> r.owners[k] == q.owners[k]))
            && (key in r.owners ==> r.owners[key] != [] && r.kernel.routes == q.kernel.routes[key := r.owners[key][0].oif]
                                    && r.owners[key][0] in r.owners[key])
            && (key !in r.owners && r.kernel.routes != q.kernel.routes ==>
                  key in q.kernel.routes && q.kernel.routes[key] == ix && r.kernel.routes == q.kernel.routes - {key})
            && (key in keys && key in q.owners ==> key in r.owners)
            && (key !in r.owners && key in r.kernel.routes && r.kernel.routes[key] == ix ==> f(RouteDelete, q.kernel.calls) || key.dst.Unparsed?)
            && (key.dst.Prefix? ==> r.kernel.calls == q.kernel.calls + 1) && (key.dst.Unparsed? ==> r.kernel.calls == q.kernel.calls)
  {
    hide ReleaseCidr, Without, RemoveOwner, OwnersReachable, Tidy;
    ReleaseCidrOwners(f, p, q, id, ix, keys, c, metric);
    ReleaseCidrKernel(f, q, id, ix, c, metric);
  }

  lemma ReleaseOne(f: Faults, p: Plane, q: Plane, id: string, ix: nat, keys: set<RouteKey>, c: Cidr, metric: nat)
    requires Tidy(p.owners) && OwnersReachable(p) && Reliable(f, RouteReplace)
    requires Released(p, q, id, ix, keys)
    ensures var key := KeyOf(c, metric);
            var r := ReleaseCidr(f, q, id, ix, c, metric);
            && Released(p, r, id, ix, keys + {key}) && q.kernel.calls <= r.kernel.calls
            && (ReliableDuring(f, RouteDelete, q.kernel.calls, r.kernel.calls) && Cleared(q, ix, keys) ==> Cleared(r, ix, keys + {key}))
  {
    ReleaseCidrEffect(f, p, q, id, ix, keys, c, metric);
    hide ReleaseCidr, Without, Tidy, KeyOf;
    var key := KeyOf(c, metric);
    var r := ReleaseCidr(f, q, id, ix, c, metric);
    forall k
      ensures ReleasedAt(p, r, ix, keys + {key}, k)
    {
      assert ReleasedAt(p, q, ix, keys, k);
      ReleaseKey(p, q, r, ix, keys, key, k);
    }
    if ReliableDuring(f, RouteDelete, q.kernel.calls, r.kernel.calls) && Cleared(q, ix, keys) {
      assert key.dst.Prefix? ==> !f(RouteDelete, q.kernel.calls);
      assert key in r.kernel.routes ==> key.dst.Prefix? by {
        assert ReleasedAt(p, r, ix, keys + {key}, key);
      }
      hide ReleasedAt, OwnersReachable, ReliableDuring;
      forall k | k in keys + {key} && k !in r.owners && k in r.kernel.routes
        ensures r.kernel.routes[k] != ix
      {
        assert k != key ==> k in keys && k in q.kernel.routes && r.kernel.routes[k] == q.kernel.routes[k];
      }
    }
  }

  lemma ReleaseKey(p: Plane, q: Plane, r: Plane, ix: nat, keys: set<RouteKey>, key: RouteKey, k: RouteKey)
    requires ReleasedAt(p, q, ix, keys, k)
    requires k != key ==> (k in r.owners <==> k in q.owners) && (k in r.owners ==> r.owners[k] == q.owners[k])
    requires key in r.owners ==> r.owners[key] != [] && r.kernel.routes == q.kernel.routes[key := r.owners[key][0].oif]
    requires key !in r.owners && r.kernel.routes != q.kernel.routes ==>
               key in q.kernel.routes && q.kernel.routes[key] == ix && r.kernel.routes == q.kernel.routes - {key}
    requires key in keys && key in q.owners ==> key in r.owners
    ensures ReleasedAt(p, r, ix, keys + {key}, k)
  {
    if k == key && key in r.owners {
      assert r.owners[key][0] in r.owners[key] && OifIn(r.owners[key], r.kernel.routes[key]);
    }
  }

  lemma {:induction false} ReleaseOutcome(f: Faults, p: Plane, q: Plane, id: string, ix: nat, keys: set<RouteKey>, cidrs: seq<Cidr>, metric: nat)
    requires Tidy(p.owners) && OwnersReachable(p) && Reliable(f, RouteReplace)
    requires Released(p, q, id, ix, keys)
    ensures var r := Release(f, q, id, ix, cidrs, metric);
            && Released(p, r, id, ix, keys + Keys(cidrs, metric)) && q.kernel.calls <= r.kernel.calls
            && (ReliableDuring(f, RouteDelete, q.kernel.calls, r.kernel.calls) && Cleared(q, ix, keys) ==>
                  Cleared(r, ix, keys + Keys(cidrs, metric)))
    decreases |cidrs|
  {
    if cidrs == [] {
      assert keys + Keys(cidrs, metric) == keys;
    } else {
      var key := KeyOf(cidrs[0], metric);
      ReleaseOne(f, p, q, id, ix, keys, cidrs[0], metric);
      var one := ReleaseCidr(f, q, id, ix, cidrs[0], metric);
      ReleaseOutcome(f, p, one, id, ix, keys + {key}, cidrs[1..], metric);
      hide ReleaseCidr, Released, Cleared;
      assert cidrs == [cidrs[0]] + cidrs[1..];
      assert keys + {key} + Keys(cidrs[1..], metric) == keys + Keys(cidrs, metric);
    }
  }
}
