/** Exit-node routing rules (exitnode.go): the text `ip rule show` prints and its parser, the rules a
    policy asks for and the commands that install them, and the comparison of the two. */
module ExitRules {
  import opened Text

  const ROUTE_TABLE := "53"
  const BASE_PRIO := 5280
  const MAX_PRIO := 5300
  const MAX_CLIENTS := 20

  datatype ExitRule = ExitRule(priority: nat, family: string, src: string, iif: string)

  predicate InWindow(prio: nat) {
    BASE_PRIO <= prio <= MAX_PRIO
  }

  // ---------- rule text ----------

  /** A rule in the kernel: selectors are empty when absent. */
  datatype KernelRule = KernelRule(priority: nat, src: string, iif: string, detached: bool, table: string)

  /** One line of `ip rule show`. */
  function PrintRule(k: KernelRule): string {
    Itoa(k.priority) + ":\tfrom " + (if k.src == "" then "all" else k.src)
    + (if k.iif == "" then "" else " iif " + k.iif + (if k.detached then " [detached]" else ""))
    + " lookup " + k.table
  }

  function PrintRules(ks: seq<KernelRule>): string {
    if ks == [] then "" else PrintRule(ks[0]) + "\n" + PrintRules(ks[1..])
  }

  /** bufio.ScanLines: a final newline does not start another line. */
  function Lines(s: string): seq<string>
    decreases |s|
  {
    if s == "" then []
    else
      var nl := IndexChar(s, '\n');
      if nl.None? then [s] else [s[..nl.value]] + Lines(s[nl.value + 1..])
  }

  function ParsePriority(line: string): Option<nat> {
    var colon := IndexChar(line, ':');
    if colon.None? || colon.value == 0 then None else Atoi(TrimSpace(line[..colon.value]))
  }

  function TrimSpace(s: string): string {
    if s != "" && IsSpace(s[0]) then TrimSpace(s[1..])
    else if s != "" && IsSpace(s[|s| - 1]) then TrimSpace(s[..|s| - 1])
    else s
  }

  function ParseFrom(line: string): string {
    var at := IndexOf(line, "from ");
    if at.None? then ""
    else
      var rest := line[at.value + 5..];
      var end := IndexChar(rest, ' ');
      if end.None? then rest
      else if rest[..end.value] == "all" then "" else rest[..end.value]
  }

  function ParseIif(line: string): string {
    var at := IndexOf(line, "iif ");
    if at.None? then ""
    else
      var rest := line[at.value + 4..];
      var end := IndexChar(rest, ' ');
      if end.None? then rest else rest[..end.value]
  }

  function ParseLine(line: string, family: string): Option<ExitRule> {
    if IndexOf(line, "lookup " + ROUTE_TABLE).None? then None
    else
      var prio := ParsePriority(line);
      if prio.None? || !InWindow(prio.value) then None
      else Some(ExitRule(prio.value, family, ParseFrom(line), ParseIif(line)))
  }

  function ParseLines(lines: seq<string>, family: string): seq<ExitRule> {
    if lines == [] then []
    else
      var r := ParseLine(lines[0], family);
      (if r.Some? then [r.value] else []) + ParseLines(lines[1..], family)
  }

  /** parseRules */
  method ParseRules(output: string, family: string) returns (rules: seq<ExitRule>)
    ensures rules == ParseLines(Lines(output), family)
  {
    hide ParseLine, Lines;
    rules := [];
    var lines := Lines(output);
    assert lines[0..] == lines;
    for i := 0 to |lines|
      invariant ParseLines(lines, family) == rules + ParseLines(lines[i..], family)
    {
      assert lines[i..][0] == lines[i] && lines[i..][1..] == lines[i + 1..];
      var r := ParseLine(lines[i], family);
      Assoc(rules, if r.Some? then [r.value] else [], ParseLines(lines[i + 1..], family));
      if r.Some? {
        rules := rules + [r.value];
      }
    }
  }

  /** Characters an address or prefix is written with. */
  predicate IsAddressText(s: string) {
    forall i :: 0 <= i < |s| ==> IsDigit(s[i]) || 'a' <= s[i] <= 'f' || s[i] == '.' || s[i] == ':' || s[i] == '/'
  }

  /** A rule whose fields are printed unambiguously; in our priority window, a rule of ours. */
  predicate Printable(k: KernelRule) {
    && IsAddressText(k.src) && IsWord(k.iif) && '/' !in k.iif && IsWord(k.table)
    && (InWindow(k.priority) ==> k.table == ROUTE_TABLE)
  }

  function AsExitRule(k: KernelRule, family: string): ExitRule {
    ExitRule(k.priority, family, k.src, k.iif)
  }

  function SrcText(k: KernelRule): string {
    if k.src == "" then "all" else k.src
  }

  function IifText(k: KernelRule): string {
    if k.iif == "" then "" else " iif " + k.iif + (if k.detached then " [detached]" else "")
  }

  lemma PriorityRoundTrip(k: KernelRule)
    ensures ParsePriority(PrintRule(k)) == Some(k.priority)
  {
    var d := Itoa(k.priority);
    var line := PrintRule(k);
    assert line[..|d|] == d && line[|d|] == ':';
    assert forall i :: 0 <= i < |d| ==> line[i] == d[i] && IsDigit(d[i]);
    var colon := IndexChar(line, ':');
    assert colon == Some(|d|);
    assert TrimSpace(d) == d;
    AtoiItoa(k.priority);
  }

  /** Finding a word behind a marker whose first character does not occur earlier. */
  lemma WordAfter(line: string, pre: string, marker: string, word: string, post: string)
    requires marker != "" && marker[0] !in pre
    requires ' ' !in word
    requires line == pre + marker + word + [' '] + post
    ensures IndexOf(line, marker) == Some(|pre|)
    ensures var rest := line[|pre| + |marker|..];
            IndexChar(rest, ' ') == Some(|word|) && rest[..|word|] == word
  {
    assert line[|pre|..|pre| + |marker|] == marker;
    forall i: nat | i < |pre|
      ensures !HasAt(line, marker, i)
    {
      assert line[i] == pre[i];
      assert i + |marker| <= |line| ==> line[i..i + |marker|][0] == line[i];
    }
    IndexOfIs(line, marker, |pre|);
    var rest := line[|pre| + |marker|..];
    assert rest == word + [' '] + post;
    assert rest[..|word|] == word && rest[|word|] == ' ';
    FirstIs(rest, ' ', |word|);
  }

  lemma FirstIs(s: string, c: char, k: nat)
    requires k < |s| && s[k] == c && c !in s[..k]
    ensures IndexChar(s, c) == Some(k)
  {
    var r := IndexChar(s, c);
    assert s[k] in s;
    assert forall i :: 0 <= i < k ==> s[i] in s[..k];
    assert r.Some?;
    assert forall i :: 0 <= i < r.value ==> s[i] in s[..r.value];
  }

  lemma DigitsHave(n: nat, c: char)
    requires !IsDigit(c)
    ensures c !in Itoa(n)
  {
  }

  lemma AddressHas(s: string, c: char)
    requires IsAddressText(s) && (c == ' ' || c == 'i' || c == 'l' || c == '\n')
    ensures c !in s
  {
  }

  lemma FromRoundTrip(k: KernelRule)
    requires IsAddressText(k.src)
    ensures ParseFrom(PrintRule(k)) == k.src
  {
    var pre := Itoa(k.priority) + ":\t";
    var src := SrcText(k);
    var tail := FromShape(k);
    hide PrintRule, SrcText, IndexOf, IndexChar;
    DigitsHave(k.priority, 'f');
    SrcIsWord(k);
    WordAfter(PrintRule(k), pre, "from ", src, tail);
  }

  lemma FromShape(k: KernelRule) returns (tail: string)
    ensures PrintRule(k) == (Itoa(k.priority) + ":\t") + "from " + SrcText(k) + [' '] + tail
  {
    hide Itoa;
    var rest := IifText(k) + " lookup " + k.table;
    tail := rest[1..];
    var front := Itoa(k.priority) + ":\tfrom " + SrcText(k);
    Assoc(front + IifText(k), " lookup ", k.table);
    Assoc(front, IifText(k), " lookup " + k.table);
    Assoc(IifText(k), " lookup ", k.table);
    assert PrintRule(k) == front + rest;
    hide PrintRule, SrcText;
    assert rest[0] == ' ';
    FromRegroup(Itoa(k.priority), SrcText(k), rest);
  }

  lemma FromRegroup(d: string, src: string, rest: string)
    requires rest != "" && rest[0] == ' '
    ensures d + ":\tfrom " + src + rest == (d + ":\t") + "from " + src + [' '] + rest[1..]
  {
    assert ":\tfrom " == ":\t" + "from ";
    Assoc(d, ":\t", "from ");
    assert rest == [' '] + rest[1..];
    Assoc(d + ":\tfrom " + src, [' '], rest[1..]);
  }

  lemma SrcIsWord(k: KernelRule)
    requires IsAddressText(k.src)
    ensures ' ' !in SrcText(k) && (SrcText(k) == "all" <==> k.src == "") && (k.src != "" ==> SrcText(k) == k.src)
  {
    AddressHas(k.src, ' ');
    AddressHas(k.src, 'l');
    assert "all"[1] == 'l';
  }

  lemma Absent(c: char, a: string, b: string)
    requires c !in a && c !in b
    ensures c !in a + b
  {
  }

  /** Everything in front of the selector's end: priority, "from", source. */
  function Front(k: KernelRule): string {
    Itoa(k.priority) + ":\tfrom " + SrcText(k) + " "
  }

  lemma FrontHasNoI(k: KernelRule)
    requires IsAddressText(k.src)
    ensures 'i' !in Front(k)
  {
    DigitsHave(k.priority, 'i');
    AddressHas(k.src, 'i');
    Absent('i', Itoa(k.priority), ":\tfrom ");
    Absent('i', Itoa(k.priority) + ":\tfrom ", SrcText(k));
    Absent('i', Itoa(k.priority) + ":\tfrom " + SrcText(k), " ");
  }

  lemma Regroup(a: string, word: string, det: string, rest: string)
    ensures a + (" iif " + word + det) + rest == (a + " ") + "iif " + word + (det + rest)
  {
    assert " iif " == " " + "iif ";
    Assoc(" ", "iif ", word);
    Assoc(" ", "iif " + word, det);
    Assoc(a, " ", "iif " + word + det);
    Assoc(a + " ", "iif ", word);
    Assoc(a + " ", "iif " + word, det);
    Assoc(a + " " + ("iif " + word), det, rest);
  }

  lemma IifShape(k: KernelRule) returns (tail: string)
    requires k.iif != ""
    ensures PrintRule(k) == Front(k) + "iif " + k.iif + [' '] + tail
  {
    hide Itoa;
    var a := Itoa(k.priority) + ":\tfrom " + SrcText(k);
    var det := if k.detached then " [detached]" else "";
    var rest := det + (" lookup " + k.table);
    Assoc(a + (" iif " + k.iif + det), " lookup ", k.table);
    assert PrintRule(k) == a + (" iif " + k.iif + det) + (" lookup " + k.table);
    Regroup(a, k.iif, det, " lookup " + k.table);
    assert PrintRule(k) == Front(k) + "iif " + k.iif + rest;
    hide PrintRule, Front;
    tail := rest[1..];
    assert rest == [' '] + tail;
    Assoc(Front(k) + "iif " + k.iif, [' '], tail);
  }

  lemma IifPresent(k: KernelRule)
    requires IsAddressText(k.src) && IsWord(k.iif) && k.iif != ""
    ensures ParseIif(PrintRule(k)) == k.iif
  {
    var tail := IifShape(k);
    hide PrintRule, Front, IndexOf, IndexChar;
    FrontHasNoI(k);
    assert ' ' !in k.iif;
    WordAfter(PrintRule(k), Front(k), "iif ", k.iif, tail);
  }

  lemma FrontThenTable(k: KernelRule)
    requires k.iif == ""
    ensures PrintRule(k) == Front(k) + "lookup " + k.table
  {
    hide Itoa;
    var a := Itoa(k.priority) + ":\tfrom " + SrcText(k);
    assert a + "" == a;
    assert " lookup " == " " + "lookup ";
    Assoc(a, " ", "lookup ");
  }

  lemma IifMissing(k: KernelRule)
    requires IsAddressText(k.src) && k.iif == "" && 'i' !in k.table
    ensures ParseIif(PrintRule(k)) == ""
  {
    var line := PrintRule(k);
    FrontThenTable(k);
    hide PrintRule, Front, IndexOf;
    FrontHasNoI(k);
    Absent('i', Front(k), "lookup ");
    Absent('i', Front(k) + "lookup ", k.table);
    forall i: nat
      ensures !HasAt(line, "iif ", i)
    {
      assert i + 4 <= |line| ==> line[i..i + 4][0] == line[i] && line[i] in line;
    }
  }

  lemma TableFound(k: KernelRule)
    requires k.table == ROUTE_TABLE
    ensures IndexOf(PrintRule(k), "lookup " + ROUTE_TABLE).Some?
  {
    var body := Itoa(k.priority) + ":\tfrom " + SrcText(k) + IifText(k) + " ";
    var marker := "lookup " + ROUTE_TABLE;
    assert PrintRule(k) == body + marker;
    assert (body + marker)[|body|..|body| + |marker|] == marker;
    assert HasAt(body + marker, marker, |body|);
  }

  /** A printed rule parses back to itself if its priority is in our window, and is skipped otherwise. */
  lemma LineRoundTrip(k: KernelRule, family: string)
    requires Printable(k)
    ensures ParseLine(PrintRule(k), family) == if InWindow(k.priority) then Some(AsExitRule(k, family)) else None
  {
    hide PrintRule;
    PriorityRoundTrip(k);
    if InWindow(k.priority) {
      FromRoundTrip(k);
      TableFound(k);
      if k.iif == "" {
        IifMissing(k);
      } else {
        IifPresent(k);
      }
    }
  }

  /** The rules of ours in a table, as the manager reads them. */
  function Window(ks: seq<KernelRule>, family: string): seq<ExitRule> {
    if ks == [] then []
    else (if InWindow(ks[0].priority) then [AsExitRule(ks[0], family)] else []) + Window(ks[1..], family)
  }

  lemma NoNewline(k: KernelRule)
    requires Printable(k)
    ensures '\n' !in PrintRule(k)
  {
    DigitsHave(k.priority, '\n');
    AddressHas(k.src, '\n');
    assert '\n' !in k.iif && '\n' !in k.table;
    Absent('\n', " iif ", k.iif);
    Absent('\n', " iif " + k.iif, if k.detached then " [detached]" else "");
    Absent('\n', Itoa(k.priority), ":\tfrom ");
    Absent('\n', Itoa(k.priority) + ":\tfrom ", SrcText(k));
    Absent('\n', Itoa(k.priority) + ":\tfrom " + SrcText(k), IifText(k));
    Absent('\n', Itoa(k.priority) + ":\tfrom " + SrcText(k) + IifText(k), " lookup ");
    Absent('\n', Itoa(k.priority) + ":\tfrom " + SrcText(k) + IifText(k) + " lookup ", k.table);
  }

  /** Listing a rule table and parsing the listing gives exactly the rules in our window, in order. */
  lemma {:induction false} ListingRoundTrip(ks: seq<KernelRule>, family: string)
    requires forall k :: k in ks ==> Printable(k)
    ensures ParseLines(Lines(PrintRules(ks)), family) == Window(ks, family)
  {
    if ks != [] {
      var line := PrintRule(ks[0]);
      var rest := PrintRules(ks[1..]);
      var all := PrintRules(ks);
      assert ks[0] in ks && forall k :: k in ks[1..] ==> k in ks;
      NoNewline(ks[0]);
      assert all == line + ['\n'] + rest;
      assert all[..|line|] == line && all[|line|] == '\n' && all[|line| + 1..] == rest;
      FirstIs(all, '\n', |line|);
      assert Lines(all) == [line] + Lines(rest);
      assert Lines(all)[1..] == Lines(rest);
      LineRoundTrip(ks[0], family);
      ListingRoundTrip(ks[1..], family);
    }
  }
}
