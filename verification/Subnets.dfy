/** Conflicts between a tunnel's allowed IPs and the subnets of the device (subnet_validator.go,
    firewall.go). Addresses are their bits, 32 or 128 of them. */
module Subnets {
  import opened Text

  type Address = seq<bool>

  /** A CIDR block as net.ParseCIDR returns it. */
  datatype Subnet = Subnet(ip: Address, bits: nat)

  /** IPNet.Contains: same family, and equal under the mask. */
  predicate Contains(n: Subnet, a: Address) {
    |a| == |n.ip| && forall i :: 0 <= i < |a| && i < n.bits ==> a[i] == n.ip[i]
  }

  /** subnetsOverlap */
  predicate Overlap(a: Subnet, b: Subnet) {
    Contains(a, b.ip) || Contains(b, a.ip)
  }

  /** Some address lies in both blocks. */
  ghost predicate ShareAddress(a: Subnet, b: Subnet) {
    exists x :: Contains(a, x) && Contains(b, x)
  }

  /** Testing the two network addresses is enough: blocks overlap exactly when they share an address. */
  lemma OverlapExact(a: Subnet, b: Subnet)
    ensures Overlap(a, b) <==> ShareAddress(a, b)
  {
    assert Contains(a, a.ip) && Contains(b, b.ip);
    if ShareAddress(a, b) {
      var x :| Contains(a, x) && Contains(b, x);
      if a.bits <= b.bits {
        assert Contains(a, b.ip);
      } else {
        assert Contains(b, a.ip);
      }
    }
  }

  // ---------- validation ----------

  /** How texts parse as CIDRs. */
  type Parser = string -> Option<Subnet>

  datatype InterfaceSubnet = InterfaceSubnet(cidr: string, iface: string)

  datatype RouteSubnet = RouteSubnet(cidr: string, iface: string, gateway: string, protocol: string)

  datatype System = System(interfaces: seq<InterfaceSubnet>, routes: seq<RouteSubnet>, table52: seq<RouteSubnet>, pbrRules: nat)

  datatype Conflict = Conflict(cidr: string, against: string, iface: string, block: bool)

  datatype Validation = Validation(blocked: seq<Conflict>, warnings: seq<Conflict>)

  predicate Hits(parse: Parser, candidate: Subnet, cidr: string) {
    parse(cidr).Some? && Overlap(candidate, parse(cidr).value)
  }

  function FirstInterface(parse: Parser, candidate: Subnet, subs: seq<InterfaceSubnet>): Option<InterfaceSubnet> {
    if subs == [] then None
    else if Hits(parse, candidate, subs[0].cidr) then Some(subs[0])
    else FirstInterface(parse, candidate, subs[1..])
  }

  function FirstRoute(parse: Parser, candidate: Subnet, subs: seq<RouteSubnet>): Option<RouteSubnet> {
    if subs == [] then None
    else if Hits(parse, candidate, subs[0].cidr) then Some(subs[0])
    else FirstRoute(parse, candidate, subs[1..])
  }

  function Via(r: RouteSubnet): string {
    if r.gateway != "" then r.gateway else r.iface
  }

  function Table52Conflict(cidr: string, r: RouteSubnet): Conflict {
    Conflict(cidr, r.cidr + " (table 52 via " + Via(r) + ")", r.iface, false)
  }

  function RouteConflict(cidr: string, r: RouteSubnet): Conflict {
    Conflict(cidr, r.cidr + " (" + r.protocol + " route via " + Via(r) + ")", r.iface, false)
  }

  /** The one conflict reported for a CIDR, if any: an interface blocks; a table-52 route, traffic routes or
      another route only warn, in that order. */
  function Verdict(parse: Parser, cidr: string, sys: System): Option<Conflict> {
    if parse(cidr).None? then None
    else
      var net := parse(cidr).value;
      var i, t, r := FirstInterface(parse, net, sys.interfaces), FirstRoute(parse, net, sys.table52), FirstRoute(parse, net, sys.routes);
      if i.Some? then Some(Conflict(cidr, i.value.cidr, i.value.iface, true))
      else if t.Some? then Some(Table52Conflict(cidr, t.value))
      else if sys.pbrRules > 0 then Some(Conflict(cidr, "Traffic Routes (PBR)", "", false))
      else if r.Some? then Some(RouteConflict(cidr, r.value))
      else None
  }

  function Validated(parse: Parser, cidrs: seq<string>, sys: System): Validation {
    if cidrs == [] then Validation([], [])
    else
      var v := Verdict(parse, cidrs[0], sys);
      var rest := Validated(parse, cidrs[1..], sys);
      if v.None? then rest
      else if v.value.block then Validation([v.value] + rest.blocked, rest.warnings)
      else Validation(rest.blocked, [v.value] + rest.warnings)
  }

  method ScanInterfaces(parse: Parser, candidate: Subnet, subs: seq<InterfaceSubnet>) returns (r: Option<InterfaceSubnet>)
    ensures r == FirstInterface(parse, candidate, subs)
  {
    hide Hits;
    assert subs[0..] == subs;
    for i := 0 to |subs|
      invariant FirstInterface(parse, candidate, subs) == FirstInterface(parse, candidate, subs[i..])
    {
      assert subs[i..][0] == subs[i] && subs[i..][1..] == subs[i + 1..];
      if Hits(parse, candidate, subs[i].cidr) {
        return Some(subs[i]);
      }
    }
    r := None;
  }

  method ScanRoutes(parse: Parser, candidate: Subnet, subs: seq<RouteSubnet>) returns (r: Option<RouteSubnet>)
    ensures r == FirstRoute(parse, candidate, subs)
  {
    hide Hits;
    assert subs[0..] == subs;
    for i := 0 to |subs|
      invariant FirstRoute(parse, candidate, subs) == FirstRoute(parse, candidate, subs[i..])
    {
      assert subs[i..][0] == subs[i] && subs[i..][1..] == subs[i + 1..];
      if Hits(parse, candidate, subs[i].cidr) {
        return Some(subs[i]);
      }
    }
    r := None;
  }

  /** The body of ValidateAllowedIPs for one CIDR. */
  method CheckOne(parse: Parser, cidr: string, sys: System) returns (v: Option<Conflict>)
    ensures v == Verdict(parse, cidr, sys)
  {
    hide FirstInterface, FirstRoute, Via;
    var net := parse(cidr);
    if net.None? {
      return None;
    }
    var iface := ScanInterfaces(parse, net.value, sys.interfaces);
    if iface.Some? {
      return Some(Conflict(cidr, iface.value.cidr, iface.value.iface, true));
    }
    var t := ScanRoutes(parse, net.value, sys.table52);
    if t.Some? {
      return Some(Table52Conflict(cidr, t.value));
    }
    if sys.pbrRules > 0 {
      return Some(Conflict(cidr, "Traffic Routes (PBR)", "", false));
    }
    var r := ScanRoutes(parse, net.value, sys.routes);
    v := if r.Some? then Some(RouteConflict(cidr, r.value)) else None;
  }

  /** ValidateAllowedIPs */
  method ValidateAllowedIPs(parse: Parser, cidrs: seq<string>, sys: System) returns (result: Validation)
    ensures result == Validated(parse, cidrs, sys)
  {
    hide Verdict;
    var blocked, warnings := [], [];
    assert cidrs[0..] == cidrs;
    for i := 0 to |cidrs|
      invariant Validated(parse, cidrs, sys).blocked == blocked + Validated(parse, cidrs[i..], sys).blocked
      invariant Validated(parse, cidrs, sys).warnings == warnings + Validated(parse, cidrs[i..], sys).warnings
    {
      assert cidrs[i..][0] == cidrs[i] && cidrs[i..][1..] == cidrs[i + 1..];
      var v := CheckOne(parse, cidrs[i], sys);
      if v.Some? {
        if v.value.block {
          blocked := blocked + [v.value];
        } else {
          warnings := warnings + [v.value];
        }
      }
    }
    assert blocked == Validated(parse, cidrs, sys).blocked && warnings == Validated(parse, cidrs, sys).warnings;
    result := Validation(blocked, warnings);
  }

  // ---------- the filter ----------

  function BlockedTexts(conflicts: seq<Conflict>): set<string> {
    set c | c in conflicts :: c.cidr
  }

  function Unblocked(cidrs: seq<string>, blocked: set<string>): seq<string> {
    if cidrs == [] then [] else (if cidrs[0] in blocked then [] else [cidrs[0]]) + Unblocked(cidrs[1..], blocked)
  }

  /** The last loop of filterBlockedAllowedIPs. */
  method Keep(cidrs: seq<string>, blocked: set<string>) returns (filtered: seq<string>)
    ensures filtered == Unblocked(cidrs, blocked)
  {
    filtered := [];
    assert cidrs[0..] == cidrs;
    for i := 0 to |cidrs|
      invariant Unblocked(cidrs, blocked) == filtered + Unblocked(cidrs[i..], blocked)
    {
      assert cidrs[i..][0] == cidrs[i] && cidrs[i..][1..] == cidrs[i + 1..];
      Assoc(filtered, if cidrs[i] in blocked then [] else [cidrs[i]], Unblocked(cidrs[i + 1..], blocked));
      if cidrs[i] !in blocked {
        filtered := filtered + [cidrs[i]];
      }
    }
    assert filtered == Unblocked(cidrs, blocked);
  }

  lemma {:induction false} NothingBlocked(cidrs: seq<string>)
    ensures Unblocked(cidrs, {}) == cidrs
  {
    if cidrs != [] {
      NothingBlocked(cidrs[1..]);
    }
  }

  /** filterBlockedAllowedIPs; without the device's subnets nothing is filtered. */
  method FilterBlockedAllowedIPs(parse: Parser, allowed: seq<string>, sys: Option<System>) returns (filtered: seq<string>)
    ensures sys.None? ==> filtered == allowed
    ensures sys.Some? ==> filtered == Unblocked(allowed, BlockedTexts(Validated(parse, allowed, sys.value).blocked))
  {
    NothingBlocked(allowed);
    hide Validated, Verdict;
    if |allowed| == 0 {
      return [];
    }
    hide Unblocked;
    var blocked: set<string> := {};
    if sys.Some? {
      var result := ValidateAllowedIPs(parse, allowed, sys.value);
      for i := 0 to |result.blocked|
        invariant blocked == BlockedTexts(result.blocked[..i])
      {
        assert result.blocked[..i + 1] == result.blocked[..i] + [result.blocked[i]];
        blocked := blocked + {result.blocked[i].cidr};
      }
      assert result.blocked[..|result.blocked|] == result.blocked;
    }
    filtered := Keep(allowed, blocked);
  }

  /** The CIDR parses and shares an address with a subnet of the device's interfaces. */
  ghost predicate Conflicting(parse: Parser, cidr: string, sys: System) {
    parse(cidr).Some? && exists i :: 0 <= i < |sys.interfaces| && parse(sys.interfaces[i].cidr).Some?
                                     && ShareAddress(parse(cidr).value, parse(sys.interfaces[i].cidr).value)
  }

  lemma {:induction false} FirstInterfaceIs(parse: Parser, candidate: Subnet, subs: seq<InterfaceSubnet>)
    ensures FirstInterface(parse, candidate, subs).Some? <==>
            exists i :: 0 <= i < |subs| && Hits(parse, candidate, subs[i].cidr)
  {
    hide Hits;
    if subs != [] {
      FirstInterfaceIs(parse, candidate, subs[1..]);
      if i :| 0 <= i < |subs[1..]| && Hits(parse, candidate, subs[1..][i].cidr) {
        assert subs[i + 1] == subs[1..][i];
      }
      if i :| 0 <= i < |subs| && Hits(parse, candidate, subs[i].cidr) {
        assert i > 0 ==> subs[1..][i - 1] == subs[i];
      }
    }
  }

  /** A CIDR is blocked exactly if it shares an address with an interface's subnet. */
  lemma BlockedIffConflicting(parse: Parser, cidr: string, sys: System)
    ensures Verdict(parse, cidr, sys).Some? && Verdict(parse, cidr, sys).value.block <==> Conflicting(parse, cidr, sys)
    ensures Verdict(parse, cidr, sys).Some? ==> Verdict(parse, cidr, sys).value.cidr == cidr
  {
    if parse(cidr).Some? {
      var net := parse(cidr).value;
      FirstInterfaceIs(parse, net, sys.interfaces);
      forall i | 0 <= i < |sys.interfaces| && parse(sys.interfaces[i].cidr).Some?
        ensures Hits(parse, net, sys.interfaces[i].cidr) <==> ShareAddress(net, parse(sys.interfaces[i].cidr).value)
      {
        OverlapExact(net, parse(sys.interfaces[i].cidr).value);
      }
      hide FirstInterface, FirstRoute, Overlap, ShareAddress;
      if Conflicting(parse, cidr, sys) {
        var i :| 0 <= i < |sys.interfaces| && parse(sys.interfaces[i].cidr).Some?
                 && ShareAddress(net, parse(sys.interfaces[i].cidr).value);
        assert Hits(parse, net, sys.interfaces[i].cidr);
      }
    }
  }

  lemma {:induction false} BlockedTextsAre(parse: Parser, cidrs: seq<string>, sys: System, cidr: string)
    ensures cidr in BlockedTexts(Validated(parse, cidrs, sys).blocked) <==> cidr in cidrs && Conflicting(parse, cidr, sys)
  {
    if cidrs != [] {
      BlockedTextsAre(parse, cidrs[1..], sys, cidr);
      BlockedIffConflicting(parse, cidrs[0], sys);
      hide Verdict, Conflicting;
      assert cidrs == [cidrs[0]] + cidrs[1..];
      var rest := Validated(parse, cidrs[1..], sys).blocked;
      var v := Verdict(parse, cidrs[0], sys);
      if v.Some? {
        assert BlockedTexts([v.value] + rest) == {v.value.cidr} + BlockedTexts(rest);
      }
    }
  }

  lemma {:induction false} UnblockedAre(cidrs: seq<string>, blocked: set<string>, x: string)
    ensures multiset(Unblocked(cidrs, blocked))[x] == if x in blocked then 0 else multiset(cidrs)[x]
  {
    if cidrs != [] {
      UnblockedAre(cidrs[1..], blocked, x);
      assert cidrs == [cidrs[0]] + cidrs[1..];
    }
  }

  /** The filter is exact: of the allowed IPs, just those that share an address with a subnet of an interface are
      dropped, every other one is kept as often as it was there. */
  lemma FilterExact(parse: Parser, allowed: seq<string>, sys: System, x: string)
    ensures var kept := Unblocked(allowed, BlockedTexts(Validated(parse, allowed, sys).blocked));
            multiset(kept)[x] == if Conflicting(parse, x, sys) then 0 else multiset(allowed)[x]
  {
    UnblockedAre(allowed, BlockedTexts(Validated(parse, allowed, sys).blocked), x);
    BlockedTextsAre(parse, allowed, sys, x);
    hide Conflicting, Validated, Unblocked, BlockedTexts;
    assert x in multiset(allowed) <==> x in allowed;
  }
}
