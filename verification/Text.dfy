/** Decimal printing and substring search, as the manager's formatted names, keys and parsers use them. */
module Text {

  datatype Option<+T> = None | Some(value: T)

  /** Appending is associative. */
  lemma Assoc<T>(a: seq<T>, b: seq<T>, c: seq<T>)
    ensures (a + b) + c == a + (b + c)
    ensures a + [] == a && [] + a == a
  {
  }

  // ---------- decimal numbers (fmt's %d, strconv.Itoa, strconv.Atoi) ----------

  predicate IsDigit(c: char) {
    '0' <= c <= '9'
  }

  predicate AllDigits(s: string) {
    forall i :: 0 <= i < |s| ==> IsDigit(s[i])
  }

  function DigitChar(d: nat): (c: char)
    requires d < 10
    ensures IsDigit(c)
    ensures c as int - '0' as int == d
  {
    ('0' as int + d) as char
  }

  /** The decimal spelling of a natural number, without leading zeros. */
  function Itoa(n: nat): (s: string)
    ensures |s| > 0 && AllDigits(s)
  {
    if n < 10 then [DigitChar(n)] else Itoa(n / 10) + [DigitChar(n % 10)]
  }

  /** The value of a digit string. */
  function DigitsValue(s: string): nat
    requires AllDigits(s)
  {
    if s == [] then 0
    else DigitsValue(s[..|s| - 1]) * 10 + (s[|s| - 1] as int - '0' as int)
  }

  lemma {:induction false} ItoaValue(n: nat)
    ensures DigitsValue(Itoa(n)) == n
  {
    if n >= 10 {
      ItoaValue(n / 10);
      var s := Itoa(n);
      assert s[..|s| - 1] == Itoa(n / 10);
    } else {
      var s := Itoa(n);
      assert s[..|s| - 1] == [];
      assert DigitsValue([]) == 0;
    }
  }

  /** Distinct numbers have distinct spellings. */
  lemma ItoaInjective(m: nat, n: nat)
    requires Itoa(m) == Itoa(n)
    ensures m == n
  {
    ItoaValue(m);
    ItoaValue(n);
  }

  /** strconv.Atoi on an unsigned spelling: anything but a nonempty digit string is rejected. */
  function Atoi(s: string): (r: Option<nat>) {
    if s != [] && AllDigits(s) then Some(DigitsValue(s)) else None
  }

  lemma AtoiItoa(n: nat)
    ensures Atoi(Itoa(n)) == Some(n)
  {
    ItoaValue(n);
  }

  // ---------- words ----------

  predicate IsSpace(c: char) {
    c == ' ' || c == '\t' || c == '\n' || c == '\r'
  }

  /** Text without blanks or line ends, as interface, table and chain names are. */
  predicate IsWord(s: string) {
    forall i :: 0 <= i < |s| ==> !IsSpace(s[i])
  }

  // ---------- searching ----------

  /** strings.IndexByte: the first position of c, or None. */
  function IndexChar(s: string, c: char): (r: Option<nat>)
    ensures r.Some? ==> r.value < |s| && s[r.value] == c && c !in s[..r.value]
    ensures r.None? ==> c !in s
  {
    if s == [] then None
    else if s[0] == c then Some(0)
    else
      var r := IndexChar(s[1..], c);
      assert r.Some? ==> s[..r.value + 1] == [s[0]] + s[1..][..r.value];
      assert s == [s[0]] + s[1..];
      if r.None? then None else Some(r.value + 1)
  }

  /** strings.LastIndexByte: the last position of c, or None. */
  function LastIndexChar(s: string, c: char): (r: Option<nat>)
    ensures r.Some? ==> r.value < |s| && s[r.value] == c && c !in s[r.value + 1..]
    ensures r.None? ==> c !in s
  {
    if s == [] then None
    else if s[|s| - 1] == c then Some(|s| - 1)
    else
      var r := LastIndexChar(s[..|s| - 1], c);
      assert r.Some? ==> s[r.value + 1..] == s[..|s| - 1][r.value + 1..] + [s[|s| - 1]];
      assert s == s[..|s| - 1] + [s[|s| - 1]];
      r
  }

  predicate HasAt(s: string, pat: string, i: nat) {
    i + |pat| <= |s| && s[i..i + |pat|] == pat
  }

  /** strings.Index: the first position at which pat occurs, or None. */
  function IndexOf(s: string, pat: string): (r: Option<nat>)
    ensures r.Some? ==> HasAt(s, pat, r.value) && forall i: nat :: i < r.value ==> !HasAt(s, pat, i)
    ensures r.None? ==> forall i: nat :: !HasAt(s, pat, i)
  {
    IndexFrom(s, pat, 0)
  }

  function IndexFrom(s: string, pat: string, from: nat): (r: Option<nat>)
    ensures r.Some? ==> from <= r.value && HasAt(s, pat, r.value) && forall i: nat :: from <= i < r.value ==> !HasAt(s, pat, i)
    ensures r.None? ==> forall i: nat :: from <= i ==> !HasAt(s, pat, i)
    decreases |s| - from
  {
    if HasAt(s, pat, from) then Some(from)
    else if from >= |s| then None
    else IndexFrom(s, pat, from + 1)
  }

  /** The first occurrence is determined by its defining property. */
  lemma IndexOfIs(s: string, pat: string, k: nat)
    requires HasAt(s, pat, k)
    requires forall i: nat :: i < k ==> !HasAt(s, pat, i)
    ensures IndexOf(s, pat) == Some(k)
  {
  }

  /** Cutting a string at the first c: both sides are determined. */
  lemma CutFirst(a: string, b: string, a': string, b': string, c: char)
    requires c !in a && c !in a'
    requires a + [c] + b == a' + [c] + b'
    ensures a == a' && b == b'
  {
    var s := a + [c] + b;
    var s' := a' + [c] + b';
    assert s[|a|] == c && s'[|a'|] == c;
    assert forall i :: 0 <= i < |a| ==> s[i] == a[i];
    assert forall i :: 0 <= i < |a'| ==> s'[i] == a'[i];
    assert |a| == |a'|;
    assert a == s[..|a|] && a' == s'[..|a|];
    assert b == s[|a| + 1..] && b' == s'[|a| + 1..];
  }

  /** Cutting a string at the last c: both sides are determined. */
  lemma CutLast(a: string, b: string, a': string, b': string, c: char)
    requires c !in b && c !in b'
    requires a + [c] + b == a' + [c] + b'
    ensures a == a' && b == b'
  {
    var s := a + [c] + b;
    var s' := a' + [c] + b';
    assert s[|a|] == c && s'[|a'|] == c;
    assert forall i :: |a| < i < |s| ==> s[i] == b[i - |a| - 1];
    assert forall i :: |a'| < i < |s| ==> s'[i] == b'[i - |a'| - 1];
    assert |a| == |a'|;
    assert a == s[..|a|] && a' == s'[..|a|];
    assert b == s[|a| + 1..] && b' == s'[|a| + 1..];
  }
}
