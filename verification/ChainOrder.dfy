/** Keeping a Tailscale hook behind the UniFi jump of its base chain (firewall.go). */
module ChainOrder {
  import opened Text

  // ---------- rule lines ----------

  /** The length of the leading stretch of a text without blanks. */
  function WordLength(s: string): (n: nat)
    ensures n <= |s| && (s != "" && !IsSpace(s[0]) ==> n > 0)
  {
    if s == "" || IsSpace(s[0]) then 0 else 1 + WordLength(s[1..])
  }

  /** strings.Fields */
  function Fields(s: string): seq<string>
    decreases |s|
  {
    if s == "" then []
    else if IsSpace(s[0]) then Fields(s[1..])
    else
      var n := WordLength(s);
      [s[..n]] + Fields(s[n..])
  }

  predicate IsField(s: string) {
    s != "" && IsWord(s)
  }

  lemma {:induction false} WordLengthIs(w: string, rest: string)
    requires IsWord(w) && (rest == "" || IsSpace(rest[0]))
    ensures WordLength(w + rest) == |w|
  {
    if w == "" {
      assert w + rest == rest;
    } else {
      WordLengthIs(w[1..], rest);
      assert (w + rest)[1..] == w[1..] + rest;
    }
  }

  lemma FieldsCons(w: string, rest: string)
    requires IsField(w)
    ensures Fields(w + " " + rest) == [w] + Fields(rest)
  {
    var tail := " " + rest;
    var s := w + " " + rest;
    WordLengthIs(w, tail);
    assert s == w + tail && s[..|w|] == w && s[|w|..] == tail;
    assert tail[1..] == rest;
  }

  lemma FieldsLast(w: string)
    requires IsField(w)
    ensures Fields(w) == [w]
  {
    WordLengthIs(w, "");
    assert w + "" == w && w[..|w|] == w && w[|w|..] == "";
  }

  /** lineJumpsTo: the line's last two words are `-j <target>`. */
  predicate JumpsTo(line: string, target: string) {
    var f := Fields(line);
    |f| >= 2 && f[|f| - 2] == "-j" && f[|f| - 1] == target
  }

  /** The line of a rule that does nothing but jump. */
  function Bare(parent: string, target: string): string {
    "-A " + parent + " -j " + target
  }

  function UbiosTarget(parent: string): string {
    "UBIOS_" + parent + "_JUMP"
  }

  /** The bare rule is a jump to its target and to no other. */
  lemma BareJumps(parent: string, target: string, other: string)
    requires IsField(parent) && IsField(target)
    ensures JumpsTo(Bare(parent, target), other) <==> other == target
  {
    hide Fields;
    var jump := "-j" + " " + target;
    var rest := parent + " " + jump;
    assert Bare(parent, target) == "-A" + " " + rest;
    FieldsCons("-A", rest);
    FieldsCons(parent, jump);
    FieldsCons("-j", target);
    FieldsLast(target);
    assert Fields(Bare(parent, target)) == ["-A", parent, "-j", target];
  }

  // ---------- the audit ----------

  /** The rules of a chain, in order, among the lines of a saved table. */
  function ChainOf(lines: seq<string>, parent: string): seq<string> {
    if lines == [] then []
    else (if "-A " + parent + " " <= lines[0] then [lines[0]] else []) + ChainOf(lines[1..], parent)
  }

  /** The position of the first jump to a target. */
  function FirstJump(chain: seq<string>, target: string): Option<nat> {
    if chain == [] then None
    else if JumpsTo(chain[0], target) then Some(0)
    else
      var r := FirstJump(chain[1..], target);
      if r.None? then None else Some(r.value + 1)
  }

  datatype Order = Order(hasTarget: bool, targetPos: nat, hasUbios: bool, ubiosPos: nat)

  predicate Misplaced(o: Order) {
    o.hasUbios && o.hasTarget && o.targetPos < o.ubiosPos
  }

  /** Positions count from 1; 0 means missing. */
  function Position(at: Option<nat>): nat {
    if at.None? then 0 else at.value + 1
  }

  function OrderOf(chain: seq<string>, parent: string, target: string): Order {
    var t, u := FirstJump(chain, target), FirstJump(chain, UbiosTarget(parent));
    Order(t.Some?, Position(t), u.Some?, Position(u))
  }

  lemma {:induction false} FirstJumpSnoc(chain: seq<string>, line: string, target: string)
    ensures FirstJump(chain + [line], target) ==
            if FirstJump(chain, target).Some? then FirstJump(chain, target)
            else if JumpsTo(line, target) then Some(|chain|) else None
  {
    if chain == [] {
      assert chain + [line] == [line];
    } else {
      FirstJumpSnoc(chain[1..], line, target);
      assert (chain + [line])[1..] == chain[1..] + [line];
    }
  }

  /** auditTsChainOrder over the lines of `iptables-save` */
  method AuditTsChainOrder(lines: seq<string>, parent: string, target: string) returns (res: Order)
    ensures res == OrderOf(ChainOf(lines, parent), parent, target)
  {
    hide JumpsTo;
    res := Order(false, 0, false, 0);
    var pos: nat := 0;
    ghost var seen: seq<string> := [];
    assert lines[0..] == lines;
    for i := 0 to |lines|
      invariant ChainOf(lines, parent) == seen + ChainOf(lines[i..], parent)
      invariant pos == |seen| && res == OrderOf(seen, parent, target)
    {
      var line := lines[i];
      assert lines[i..][0] == line && lines[i..][1..] == lines[i + 1..];
      if !("-A " + parent + " " <= line) {
        continue;
      }
      FirstJumpSnoc(seen, line, target);
      FirstJumpSnoc(seen, line, UbiosTarget(parent));
      seen := seen + [line];
      pos := pos + 1;
      if JumpsTo(line, target) && !res.hasTarget {
        res := res.(hasTarget := true, targetPos := pos);
      }
      if JumpsTo(line, UbiosTarget(parent)) && !res.hasUbios {
        res := res.(hasUbios := true, ubiosPos := pos);
      }
    }
    assert seen == ChainOf(lines, parent);
  }

  // ---------- the repair ----------

  function FirstAt(chain: seq<string>, line: string): (r: Option<nat>)
    ensures r.Some? ==> r.value < |chain| && chain[r.value] == line && forall i :: 0 <= i < r.value ==> chain[i] != line
    ensures r.None? ==> line !in chain
  {
    if chain == [] then None
    else if chain[0] == line then Some(0)
    else
      var r := FirstAt(chain[1..], line);
      if r.None? then None else Some(r.value + 1)
  }

  /** `iptables -D <parent> -j <target>`: the first rule that is exactly that jump. */
  function Delete(chain: seq<string>, line: string): Option<seq<string>> {
    var at := FirstAt(chain, line);
    if at.None? then None else Some(chain[..at.value] + chain[at.value + 1..])
  }

  /** `iptables -I <parent> <n> -j <target>` */
  function InsertAt(chain: seq<string>, n: nat, line: string): Option<seq<string>> {
    if 1 <= n <= |chain| + 1 then Some(chain[..n - 1] + [line] + chain[n - 1..]) else None
  }

  /** Which of the commands of one tick work. */
  datatype Commands = Commands(saveOk: bool, deleteOk: bool, insertOk: bool)

  /** auditAndFixTsChainOrder: the chain afterwards, and whether no error is reported. */
  function Fix(chain: seq<string>, parent: string, target: string, env: Commands): (seq<string>, bool) {
    var o := OrderOf(chain, parent, target);
    if !env.saveOk || !Misplaced(o) then (chain, true)
    else
      var deleted := Delete(chain, Bare(parent, target));
      if !env.deleteOk || deleted.None? then (chain, false)
      else
        var inserted := InsertAt(deleted.value, o.ubiosPos, Bare(parent, target));
        if !env.insertOk || inserted.None? then (deleted.value, false) else (inserted.value, true)
  }

  const WORKING := Commands(true, true, true)

  /** The chains the audit is run for: the hook is not the UniFi jump itself. */
  predicate Hook(parent: string, target: string) {
    IsField(parent) && IsField(target) && target != UbiosTarget(parent)
  }

  lemma {:induction false} FirstJumpFacts(chain: seq<string>, target: string)
    ensures var r := FirstJump(chain, target);
            && (r.Some? ==> r.value < |chain| && JumpsTo(chain[r.value], target) && forall i :: 0 <= i < r.value ==> !JumpsTo(chain[i], target))
            && (r.None? ==> forall i :: 0 <= i < |chain| ==> !JumpsTo(chain[i], target))
  {
    hide JumpsTo;
    if chain != [] && !JumpsTo(chain[0], target) {
      FirstJumpFacts(chain[1..], target);
      forall i | 0 <= i < |chain| && (FirstJump(chain, target).Some? ==> i < FirstJump(chain, target).value)
        ensures !JumpsTo(chain[i], target)
      {
        assert i > 0 ==> chain[i] == chain[1..][i - 1];
      }
    }
  }

  lemma FirstJumpIs(chain: seq<string>, target: string, at: nat)
    requires at < |chain| && JumpsTo(chain[at], target) && forall i :: 0 <= i < at ==> !JumpsTo(chain[i], target)
    ensures FirstJump(chain, target) == Some(at)
  {
    hide JumpsTo;
    FirstJumpFacts(chain, target);
  }

  /** The rules that do not jump to the target, in order. */
  function Others(chain: seq<string>, target: string): seq<string> {
    if chain == [] then [] else (if JumpsTo(chain[0], target) then [] else [chain[0]]) + Others(chain[1..], target)
  }

  lemma {:induction false} OthersConcat(a: seq<string>, b: seq<string>, target: string)
    ensures Others(a + b, target) == Others(a, target) + Others(b, target)
  {
    hide JumpsTo;
    if a == [] {
      assert a + b == b;
    } else {
      OthersConcat(a[1..], b, target);
      assert (a + b)[1..] == a[1..] + b;
      Assoc(if JumpsTo(a[0], target) then [] else [a[0]], Others(a[1..], target), Others(b, target));
    }
  }

  function Jumps(chain: seq<string>, target: string): nat {
    if chain == [] then 0 else (if JumpsTo(chain[0], target) then 1 else 0) + Jumps(chain[1..], target)
  }

  lemma {:induction false} JumpsConcat(a: seq<string>, b: seq<string>, target: string)
    ensures Jumps(a + b, target) == Jumps(a, target) + Jumps(b, target)
  {
    hide JumpsTo;
    if a == [] {
      assert a + b == b;
    } else {
      JumpsConcat(a[1..], b, target);
      assert (a + b)[1..] == a[1..] + b;
    }
  }

  lemma {:induction false} SomeJumps(chain: seq<string>, target: string)
    ensures Jumps(chain, target) > 0 <==> FirstJump(chain, target).Some?
  {
    hide JumpsTo;
    if chain != [] {
      SomeJumps(chain[1..], target);
    }
  }

  /** How many jumps to the target precede the UniFi jump. */
  function Early(chain: seq<string>, parent: string, target: string): nat {
    var u := FirstJump(chain, UbiosTarget(parent));
    if u.Some? && u.value <= |chain| then Jumps(chain[..u.value], target) else 0
  }

  lemma {:induction false} FirstJumpPrefix(chain: seq<string>, n: nat, target: string)
    requires n <= |chain|
    ensures var r := FirstJump(chain, target);
            FirstJump(chain[..n], target) == if r.Some? && r.value < n then r else None
  {
    hide JumpsTo;
    if n > 0 && !JumpsTo(chain[0], target) {
      FirstJumpPrefix(chain[1..], n - 1, target);
      assert chain[..n][1..] == chain[1..][..n - 1];
    }
  }

  /** The chain is misplaced exactly when some jump to the target precedes the UniFi jump. */
  lemma MisplacedIffEarly(chain: seq<string>, parent: string, target: string)
    ensures Misplaced(OrderOf(chain, parent, target)) <==> Early(chain, parent, target) > 0
  {
    hide JumpsTo;
    FirstJumpFacts(chain, UbiosTarget(parent));
    var u := FirstJump(chain, UbiosTarget(parent));
    if u.Some? {
      FirstJumpPrefix(chain, u.value, target);
      SomeJumps(chain[..u.value], target);
    }
  }

  /** Taking a jump to the target out of a chain leaves the other rules, in order. */
  lemma OthersWithout(p: seq<string>, x: string, q: seq<string>, target: string)
    requires JumpsTo(x, target)
    ensures Others(p + [x] + q, target) == Others(p + q, target)
  {
    hide JumpsTo;
    assert Others([x], target) == [];
    hide Others;
    OthersConcat(p + [x], q, target);
    OthersConcat(p, [x], target);
    OthersConcat(p, q, target);
  }

  /** A chain with one rule moved: the others keep their order and nothing is lost. */
  lemma Moved(chain: seq<string>, b: nat, deleted: seq<string>, n: nat, target: string)
    requires b < |chain| && JumpsTo(chain[b], target) && deleted == chain[..b] + chain[b + 1..] && n <= |deleted|
    ensures var after := deleted[..n] + [chain[b]] + deleted[n..];
            multiset(after) == multiset(chain) && Others(after, target) == Others(chain, target)
  {
    hide JumpsTo, Others;
    var x := chain[b];
    assert chain == chain[..b] + [x] + chain[b + 1..];
    assert deleted == deleted[..n] + deleted[n..];
    OthersWithout(chain[..b], x, chain[b + 1..], target);
    OthersWithout(deleted[..n], x, deleted[n..], target);
    assert multiset(chain) == multiset(deleted) + multiset{x};
  }

  /** What a repair does to a misplaced chain, given where its first bare rule and its UniFi jump are. */
  lemma FixIs(chain: seq<string>, parent: string, target: string, b: nat, u: nat)
    requires Misplaced(OrderOf(chain, parent, target))
    requires FirstAt(chain, Bare(parent, target)) == Some(b) && FirstJump(chain, UbiosTarget(parent)) == Some(u)
    ensures u < |chain| && b < |chain|
    ensures var deleted := chain[..b] + chain[b + 1..];
            && Delete(chain, Bare(parent, target)) == Some(deleted)
            && (u <= |deleted| ==> Fix(chain, parent, target, WORKING) == (deleted[..u] + [Bare(parent, target)] + deleted[u..], true))
  {
    FirstJumpFacts(chain, UbiosTarget(parent));
    hide JumpsTo, Bare, UbiosTarget, FirstJump;
  }

  /** The jumps before the UniFi jump, once a rule before it is gone. */
  lemma EarlyAfterMoveBack(chain: seq<string>, parent: string, target: string, b: nat, u: nat)
    requires Hook(parent, target) && FirstJump(chain, UbiosTarget(parent)) == Some(u) && b < u < |chain| && chain[b] == Bare(parent, target)
    ensures var deleted := chain[..b] + chain[b + 1..];
            var after := deleted[..u] + [chain[b]] + deleted[u..];
            FirstJump(after, UbiosTarget(parent)) == Some(u - 1) && Early(after, parent, target) == Early(chain, parent, target) - 1
  {
    var ubios := UbiosTarget(parent);
    BareJumps(parent, target, target);
    hide Bare, UbiosTarget, JumpsTo;
    var deleted := chain[..b] + chain[b + 1..];
    var after := deleted[..u] + [chain[b]] + deleted[u..];
    FirstJumpFacts(chain, ubios);
    forall i | 0 <= i < u - 1
      ensures !JumpsTo(after[i], ubios)
    {
      assert after[i] == if i < b then chain[i] else chain[i + 1];
    }
    assert after[u - 1] == chain[u];
    FirstJumpIs(after, ubios, u - 1);
    assert after[..u - 1] == chain[..b] + chain[b + 1..u];
    assert chain[..u] == chain[..b] + [chain[b]] + chain[b + 1..u];
    assert Jumps([chain[b]], target) == 1;
    hide Jumps;
    JumpsConcat(chain[..b], chain[b + 1..u], target);
    JumpsConcat(chain[..b] + [chain[b]], chain[b + 1..u], target);
    JumpsConcat(chain[..b], [chain[b]], target);
  }

  lemma EarlyAfterMoveForward(chain: seq<string>, parent: string, target: string, b: nat, u: nat)
    requires Hook(parent, target) && FirstJump(chain, UbiosTarget(parent)) == Some(u) && u < b < |chain| && chain[b] == Bare(parent, target)
    ensures var deleted := chain[..b] + chain[b + 1..];
            var after := deleted[..u] + [chain[b]] + deleted[u..];
            Early(after, parent, target) == Early(chain, parent, target) + 1
  {
    var ubios := UbiosTarget(parent);
    BareJumps(parent, target, target);
    BareJumps(parent, target, ubios);
    hide Bare, UbiosTarget, JumpsTo;
    var deleted := chain[..b] + chain[b + 1..];
    var after := deleted[..u] + [chain[b]] + deleted[u..];
    FirstJumpFacts(chain, ubios);
    forall i | 0 <= i < u + 1
      ensures !JumpsTo(after[i], ubios)
    {
      assert after[i] == if i < u then chain[i] else chain[b];
    }
    assert after[u + 1] == chain[u];
    FirstJumpIs(after, ubios, u + 1);
    assert after[..u + 1] == chain[..u] + [chain[b]];
    assert Jumps([chain[b]], target) == 1;
    hide Jumps;
    JumpsConcat(chain[..u], [chain[b]], target);
  }

  /** Every tick on a misplaced chain keeps the rules and the order of all the others. Without a rule that is
      just the jump it reports an error and changes nothing. Otherwise it brings the number of
      misplaced hooks down by exactly one if the first such rule stands before the UniFi jump, and
      up by one if it stands behind it. */
  lemma RepairExact(chain: seq<string>, parent: string, target: string)
    requires Hook(parent, target) && Misplaced(OrderOf(chain, parent, target))
    ensures var (after, ok) := Fix(chain, parent, target, WORKING);
            var b, u := FirstAt(chain, Bare(parent, target)), FirstJump(chain, UbiosTarget(parent));
            && u.Some? && multiset(after) == multiset(chain) && Others(after, target) == Others(chain, target)
            && (ok <==> Bare(parent, target) in chain) && (ok <==> b.Some?) && (!ok ==> after == chain)
            && (Early(after, parent, target) == Early(chain, parent, target) - 1 <==> ok && b.value < u.value)
            && (Early(after, parent, target) == Early(chain, parent, target) + 1 <==> ok && b.value > u.value)
  {
    if Bare(parent, target) in chain {
      BareRepair(chain, parent, target);
    } else {
      hide Bare, UbiosTarget, JumpsTo, Early, Others;
    }
  }

  lemma BareRepair(chain: seq<string>, parent: string, target: string)
    requires Hook(parent, target) && Misplaced(OrderOf(chain, parent, target)) && Bare(parent, target) in chain
    ensures var (after, ok) := Fix(chain, parent, target, WORKING);
            var b, u := FirstAt(chain, Bare(parent, target)), FirstJump(chain, UbiosTarget(parent));
            && ok && u.Some? && b.Some? && b.value != u.value
            && multiset(after) == multiset(chain) && Others(after, target) == Others(chain, target)
            && Early(after, parent, target) == Early(chain, parent, target) + (if b.value < u.value then -1 else 1)
  {
    var bare, ubios := Bare(parent, target), UbiosTarget(parent);
    BareJumps(parent, target, target);
    BareJumps(parent, target, ubios);
    FirstJumpFacts(chain, ubios);
    var b, u := FirstAt(chain, bare).value, FirstJump(chain, ubios).value;
    FixIs(chain, parent, target, b, u);
    hide Bare, UbiosTarget, JumpsTo, Fix, FirstJump, Early, Others, FirstAt;
    var deleted := chain[..b] + chain[b + 1..];
    assert b != u;
    Moved(chain, b, deleted, u, target);
    if b < u {
      EarlyAfterMoveBack(chain, parent, target, b, u);
    } else {
      EarlyAfterMoveForward(chain, parent, target, b, u);
    }
  }

  /** A hook for one interface only. */
  function Guarded(parent: string, iface: string, target: string): string {
    "-A " + parent + " -i " + iface + " -j " + target
  }

  lemma GuardedJumps(parent: string, iface: string, target: string, other: string)
    requires IsField(parent) && IsField(iface) && IsField(target)
    ensures JumpsTo(Guarded(parent, iface, target), other) <==> other == target
    ensures Guarded(parent, iface, target) != Bare(parent, target)
  {
    hide Fields;
    var jump := "-j" + " " + target;
    var rest := iface + " " + jump;
    var input := "-i" + " " + rest;
    var all := parent + " " + input;
    assert Guarded(parent, iface, target) == "-A" + " " + all;
    FieldsCons("-A", all);
    FieldsCons(parent, input);
    FieldsCons("-i", rest);
    FieldsCons(iface, jump);
    FieldsCons("-j", target);
    FieldsLast(target);
    assert Fields(Guarded(parent, iface, target)) == ["-A", parent, "-i", iface, "-j", target];
    assert |Guarded(parent, iface, target)| > |Bare(parent, target)|;
  }

  /** For example: a hook for one interface before the UniFi jump and a bare one behind it. The repair moves
      the bare one, to the wrong side. */
  lemma GuardedHookMisleads(parent: string, iface: string, target: string)
    requires Hook(parent, target) && IsField(iface) && IsField(UbiosTarget(parent))
    ensures var chain := [Guarded(parent, iface, target), Bare(parent, UbiosTarget(parent)), Bare(parent, target)];
            Early(Fix(chain, parent, target, WORKING).0, parent, target) == Early(chain, parent, target) + 1
  {
    var ubios := UbiosTarget(parent);
    var g, u, b := Guarded(parent, iface, target), Bare(parent, ubios), Bare(parent, target);
    var chain := [g, u, b];
    GuardedJumps(parent, iface, target, target);
    GuardedJumps(parent, iface, target, ubios);
    BareJumps(parent, ubios, ubios);
    BareJumps(parent, ubios, target);
    BareJumps(parent, target, target);
    BareJumps(parent, target, ubios);
    hide Guarded, Bare, UbiosTarget, JumpsTo, Fields;
    assert chain[0] == g && chain[1] == u && chain[2] == b;
    FirstJumpIs(chain, target, 0);
    FirstJumpIs(chain, ubios, 1);
    assert b in chain && u != b;
    assert FirstAt(chain, b) == Some(2);
    hide Fix, Early, FirstAt, FirstJump;
    RepairExact(chain, parent, target);
  }

  /** Every jump to the target is a bare one. */
  ghost predicate AllBare(chain: seq<string>, parent: string, target: string) {
    forall line :: line in chain && JumpsTo(line, target) ==> line == Bare(parent, target)
  }

  /** With only bare hooks each repair cuts the misplaced ones by exactly one and loses nothing. */
  lemma RepairCutsOne(chain: seq<string>, parent: string, target: string)
    requires Hook(parent, target) && AllBare(chain, parent, target) && Misplaced(OrderOf(chain, parent, target))
    ensures var (after, ok) := Fix(chain, parent, target, WORKING);
            && ok && AllBare(after, parent, target)
            && multiset(after) == multiset(chain) && Others(after, target) == Others(chain, target)
            && Early(after, parent, target) == Early(chain, parent, target) - 1
  {
    FirstJumpFacts(chain, target);
    var t := FirstJump(chain, target).value;
    assert chain[t] in chain && chain[t] == Bare(parent, target);
    RepairExact(chain, parent, target);
    BareJumps(parent, target, target);
    var after := Fix(chain, parent, target, WORKING).0;
    var b := FirstAt(chain, Bare(parent, target)).value;
    hide Bare, UbiosTarget, JumpsTo, Fix, FirstJump, Early, Others, FirstAt;
    assert b <= t;
    forall line | line in after && JumpsTo(line, target)
      ensures line == Bare(parent, target)
    {
      assert line in multiset(after);
      assert line in chain;
    }
  }

  function Ticks(chain: seq<string>, parent: string, target: string, n: nat): seq<string>
    decreases n
  {
    if n == 0 then chain else Ticks(Fix(chain, parent, target, WORKING).0, parent, target, n - 1)
  }

  /** Repeated ticks put every hook behind the UniFi jump: after as many ticks as hooks were misplaced, and
      after any number more, the chain is in order, has the same rules with the others in the same order,
      and further ticks leave it alone. */
  lemma {:induction false} TicksConverge(chain: seq<string>, parent: string, target: string, n: nat)
    requires Hook(parent, target) && AllBare(chain, parent, target) && n >= Early(chain, parent, target)
    ensures var after := Ticks(chain, parent, target, n);
            && !Misplaced(OrderOf(after, parent, target))
            && Fix(after, parent, target, WORKING) == (after, true)
            && multiset(after) == multiset(chain) && Others(after, target) == Others(chain, target)
    decreases n
  {
    MisplacedIffEarly(chain, parent, target);
    if n > 0 {
      if Misplaced(OrderOf(chain, parent, target)) {
        RepairCutsOne(chain, parent, target);
      }
      hide Bare, UbiosTarget, JumpsTo, FirstJump, Early, Others, FirstAt, AllBare, OrderOf;
      TicksConverge(Fix(chain, parent, target, WORKING).0, parent, target, n - 1);
    }
  }

  /** A tick that reports an error changed nothing, or took the hook out and could not put it back. */
  lemma FailedFix(chain: seq<string>, parent: string, target: string, env: Commands)
    requires !Fix(chain, parent, target, env).1
    ensures var after := Fix(chain, parent, target, env).0;
            after == chain || (env.deleteOk && !env.insertOk && Delete(chain, Bare(parent, target)) == Some(after))
  {
    FirstJumpFacts(chain, UbiosTarget(parent));
    hide JumpsTo, Bare, UbiosTarget;
  }

  /** The chain as the manager repairs it, inside a saved table. */
  class FilterTable {
    /** Lines of `iptables-save` that belong to other chains. */
    const rest: seq<string>
    var chain: seq<string>

    constructor (rest: seq<string>, chain: seq<string>)
      ensures this.rest == rest && this.chain == chain
    {
      this.rest, this.chain := rest, chain;
    }

    /** auditAndFixTsChainOrder */
    method AuditAndFix(parent: string, target: string, env: Commands) returns (ok: bool)
      requires ChainOf(rest + chain, parent) == chain
      modifies this
      ensures (chain, ok) == Fix(old(chain), parent, target, env)
    {
      if !env.saveOk {
        return true;
      }
      var res := AuditTsChainOrder(rest + chain, parent, target);
      if !Misplaced(res) {
        return true;
      }
      var deleted := Delete(chain, Bare(parent, target));
      if !env.deleteOk || deleted.None? {
        return false;
      }
      chain := deleted.value;
      var inserted := InsertAt(chain, res.ubiosPos, Bare(parent, target));
      if !env.insertOk || inserted.None? {
        return false;
      }
      chain := inserted.value;
      return true;
    }
  }
}
