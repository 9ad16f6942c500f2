/** The edits of the ipset calls (ipset.go), and the atomic set operations they stand for. */
module IpsetEdits {
  import opened Text

  /** The document behind /firewall/sets: entries by set name. */
  type Sets = map<string, seq<string>>

  /** EnsureZoneSubnet, EnsureZoneSubnets, RemoveZoneSubnet. */
  datatype Call =
    | EnsureOne(name: string, cidr: string)
    | EnsureMany(name: string, cidrs: seq<string>)
    | RemoveOne(name: string, cidr: string)

  function Missing(cidrs: seq<string>, entries: seq<string>): seq<string> {
    if cidrs == [] then [] else (if cidrs[0] in entries then [] else [cidrs[0]]) + Missing(cidrs[1..], entries)
  }

  function WithoutEntry(entries: seq<string>, cidr: string): seq<string> {
    if entries == [] then [] else (if entries[0] == cidr then [] else [entries[0]]) + WithoutEntry(entries[1..], cidr)
  }

  /** The entries a call writes back; None: there is nothing to write. */
  function Edited(call: Call, entries: seq<string>): Option<seq<string>> {
    match call
    case EnsureOne(_, cidr) => if cidr in entries then None else Some(entries + [cidr])
    case EnsureMany(_, cidrs) => var missing := Missing(cidrs, entries); if missing == [] then None else Some(entries + missing)
    case RemoveOne(_, cidr) => var rest := WithoutEntry(entries, cidr); if |rest| == |entries| then None else Some(rest)
  }

  /** The loop of EnsureZoneSubnet. */
  method AddOne(entries: seq<string>, cidr: string) returns (r: Option<seq<string>>)
    ensures r == Edited(EnsureOne("", cidr), entries)
  {
    for i := 0 to |entries|
      invariant cidr !in entries[..i]
    {
      if entries[i] == cidr {
        return None;
      }
    }
    assert entries[..|entries|] == entries;
    r := Some(entries + [cidr]);
  }

  /** The loops of EnsureZoneSubnets: membership is tested against the entries as read. */
  method AddMany(entries: seq<string>, cidrs: seq<string>) returns (r: Option<seq<string>>)
    ensures r == Edited(EnsureMany("", cidrs), entries)
  {
    var existing: set<string> := {};
    for i := 0 to |entries|
      invariant existing == set e | e in entries[..i]
    {
      assert entries[..i + 1] == entries[..i] + [entries[i]];
      existing := existing + {entries[i]};
    }
    assert entries[..|entries|] == entries && cidrs[0..] == cidrs;
    var appended := [];
    var added := false;
    for i := 0 to |cidrs|
      invariant Missing(cidrs, entries) == appended + Missing(cidrs[i..], entries)
      invariant added == (appended != [])
    {
      assert cidrs[i..][0] == cidrs[i] && cidrs[i..][1..] == cidrs[i + 1..];
      Assoc(appended, if cidrs[i] in entries then [] else [cidrs[i]], Missing(cidrs[i + 1..], entries));
      if cidrs[i] !in existing {
        appended := appended + [cidrs[i]];
        added := true;
      }
    }
    assert appended == Missing(cidrs, entries);
    r := if added then Some(entries + appended) else None;
  }

  /** The loop of RemoveZoneSubnet. */
  method Filter(entries: seq<string>, cidr: string) returns (r: Option<seq<string>>)
    ensures r == Edited(RemoveOne("", cidr), entries)
  {
    var filtered := [];
    assert entries[0..] == entries;
    for i := 0 to |entries|
      invariant WithoutEntry(entries, cidr) == filtered + WithoutEntry(entries[i..], cidr)
    {
      assert entries[i..][0] == entries[i] && entries[i..][1..] == entries[i + 1..];
      Assoc(filtered, if entries[i] != cidr then [entries[i]] else [], WithoutEntry(entries[i + 1..], cidr));
      if entries[i] != cidr {
        filtered := filtered + [entries[i]];
      }
    }
    assert filtered == WithoutEntry(entries, cidr);
    r := if |filtered| == |entries| then None else Some(filtered);
  }

  /** The atomic operation a call stands for; a missing set stays missing. */
  function Apply(sets: Sets, call: Call): Sets {
    if call.name !in sets then sets
    else
      var e := Edited(call, sets[call.name]);
      if e.None? then sets else sets[call.name := e.value]
  }

  ghost function Members(entries: seq<string>): set<string> {
    set e | e in entries
  }

  /** The CIDRs a call makes present, and those it makes absent. */
  ghost function Adds(call: Call): set<string> {
    match call
    case EnsureOne(_, cidr) => {cidr}
    case EnsureMany(_, cidrs) => Members(cidrs)
    case RemoveOne(_, _) => {}
  }

  ghost function Drops(call: Call): set<string> {
    if call.RemoveOne? then {call.cidr} else {}
  }

  lemma {:induction false} MissingMember(cidrs: seq<string>, entries: seq<string>, x: string)
    ensures x in Missing(cidrs, entries) <==> x in cidrs && x !in entries
  {
    if cidrs != [] {
      MissingMember(cidrs[1..], entries, x);
      assert cidrs == [cidrs[0]] + cidrs[1..];
    }
  }

  lemma {:induction false} WithoutMember(entries: seq<string>, cidr: string, x: string)
    ensures x in WithoutEntry(entries, cidr) <==> x in entries && x != cidr
  {
    if entries != [] {
      WithoutMember(entries[1..], cidr, x);
      assert entries == [entries[0]] + entries[1..];
    }
  }

  lemma {:induction false} WithoutLength(entries: seq<string>, cidr: string)
    ensures |WithoutEntry(entries, cidr)| <= |entries|
    ensures |WithoutEntry(entries, cidr)| == |entries| <==> cidr !in entries
  {
    if entries != [] {
      WithoutLength(entries[1..], cidr);
      assert entries == [entries[0]] + entries[1..];
    }
  }

  /** Each call is a union or a removal on its own set, and leaves every other set alone. */
  lemma ApplyIsSetOperation(sets: Sets, call: Call)
    ensures var after := Apply(sets, call);
            && after.Keys == sets.Keys
            && (forall n :: n in sets && n != call.name ==> after[n] == sets[n])
            && (call.name in sets ==> Members(after[call.name]) == Members(sets[call.name]) + Adds(call) - Drops(call))
  {
    if call.name in sets {
      EditedMembers(call, sets[call.name]);
    }
  }

  lemma EditedMembers(call: Call, entries: seq<string>)
    ensures var e := Edited(call, entries);
            Members(if e.None? then entries else e.value) == Members(entries) + Adds(call) - Drops(call)
  {
    match call
    case EnsureOne(_, cidr) =>
      assert Members(entries + [cidr]) == Members(entries) + {cidr};
    case EnsureMany(_, cidrs) =>
      var missing := Missing(cidrs, entries);
      forall x
        ensures x in missing <==> x in cidrs && x !in entries
      {
        MissingMember(cidrs, entries, x);
      }
      assert Members(entries + missing) == Members(entries) + Members(cidrs);
      assert missing == [] ==> entries + missing == entries;
    case RemoveOne(_, cidr) =>
      WithoutLength(entries, cidr);
      forall x
        ensures x in WithoutEntry(entries, cidr) <==> x in entries && x != cidr
      {
        WithoutMember(entries, cidr, x);
      }
      assert Members(WithoutEntry(entries, cidr)) == Members(entries) - {cidr};
      assert cidr !in entries ==> Members(entries) == Members(entries) - {cidr};
  }
}
