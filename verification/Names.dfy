/** Interface names (config.go): wg-s2s0, wg-s2s1, ... handed out lowest free number first. */
module Names {
  import opened Text

  function IfaceName(n: nat): string {
    "wg-s2s" + Itoa(n)
  }

  lemma IfaceNameInjective(m: nat, n: nat)
    requires IfaceName(m) == IfaceName(n)
    ensures m == n
  {
    assert Itoa(m) == IfaceName(m)[6..] && Itoa(n) == IfaceName(n)[6..];
    ItoaInjective(m, n);
  }

  /** No smaller number is free. */
  predicate AllTaken(used: set<string>, n: nat) {
    forall m :: 0 <= m < n ==> IfaceName(m) in used
  }

  predicate LeastFree(used: set<string>, n: nat) {
    IfaceName(n) !in used && AllTaken(used, n)
  }

  lemma {:induction false} SubsetSize<T>(a: set<T>, b: set<T>)
    requires a <= b
    ensures |a| <= |b|
  {
    if a != {} {
      var x :| x in a;
      SubsetSize(a - {x}, b - {x});
    }
  }

  /** Distinct names fit n times into a set only if it has n elements. */
  lemma {:induction false} Pigeonhole(used: set<string>, n: nat)
    requires AllTaken(used, n)
    ensures n <= |used|
  {
    if n > 0 {
      var rest := used - {IfaceName(n - 1)};
      forall m | 0 <= m < n - 1
        ensures IfaceName(m) in rest
      {
        if IfaceName(m) == IfaceName(n - 1) { IfaceNameInjective(m, n - 1); }
      }
      Pigeonhole(rest, n - 1);
    }
  }

  lemma LeastFreeUnique(used: set<string>, m: nat, n: nat)
    requires LeastFree(used, m) && LeastFree(used, n)
    ensures m == n
  {
    assert m < n ==> IfaceName(m) in used;
    assert n < m ==> IfaceName(n) in used;
  }

  function NextFree(used: set<string>, from: nat): (n: nat)
    requires AllTaken(used, from)
    ensures LeastFree(used, n) && n <= |used|
    decreases |used| + 1 - from
  {
    Pigeonhole(used, from);
    if IfaceName(from) !in used then from
    else
      assert AllTaken(used, from + 1);
      Pigeonhole(used, from + 1);
      NextFree(used, from + 1)
  }

  function Used(names: seq<string>): set<string> {
    set s | s in names
  }

  /** nextInterfaceName: the unbounded search stops at the least unused number, after at most one more
      iteration than there are names in use. */
  method NextInterfaceName(existing: seq<string>) returns (name: string, iterations: nat)
    ensures exists n: nat :: LeastFree(Used(existing), n) && name == IfaceName(n) && iterations == n + 1
    ensures name !in existing
    ensures iterations <= |existing| + 1
  {
    var used: set<string> := {};
    for j := 0 to |existing|
      invariant used == Used(existing[..j])
      invariant |used| <= j
    {
      used := used + {existing[j]};
      assert existing[..j + 1] == existing[..j] + [existing[j]];
    }
    assert existing[..|existing|] == existing;
    var i := 0;
    while true
      invariant AllTaken(used, i)
      decreases |used| + 1 - i
    {
      name := IfaceName(i);
      if name !in used {
        Pigeonhole(used, i);
        assert LeastFree(Used(existing), i);
        return name, i + 1;
      }
      assert AllTaken(used, i + 1);
      Pigeonhole(used, i + 1);
      i := i + 1;
    }
  }
}
