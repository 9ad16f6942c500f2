/** Concurrent ipset calls under per-name locks (rmw.go, ipset.go): any number of goroutines, their
    steps interleaved in any order. */
module IpsetRmw {
  import opened Text
  import opened IpsetEdits

  datatype Result = Ok | GetFailed | NotFound | PutFailed

  /** Where a goroutine stands in lock, GET, modify, PUT, unlock. */
  datatype Pc =
    | WantMu
    | HasMu
    | WantSet(lock: nat)
    | HasSet(lock: nat)
    | HasRead(lock: nat, copy: Option<seq<string>>)
    | Finishing(lock: nat, result: Result)

  /** A call in flight; `from` is the length of the log when it was invoked. */
  datatype Thread = Thread(id: nat, call: Call, from: nat, pc: Pc)

  /** An operation that took effect on the server. */
  datatype Entry = Entry(id: nat, call: Call)

  /** A call that returned; `until` is the length of the log when it did. */
  datatype Returned = Returned(id: nat, call: Call, from: nat, until: nat, result: Result)

  /** rmwState, the server's sets, the goroutines, and two histories: the order in which operations took
      effect, and the calls that returned. */
  datatype State = State(
    mu: Option<nat>, per: map<string, nat>, held: map<nat, nat>, locks: nat,
    sets: Sets, threads: map<nat, Thread>, log: seq<Entry>, calls: nat, returned: seq<Returned>)

  datatype Action =
    | Invoke(t: nat, call: Call)
    | AcquireMu(t: nat)
    | ReleaseMu(t: nat)
    | AcquireSet(t: nat)
    | Get(t: nat, ok: bool)
    | Put(t: nat, ok: bool, lands: bool)
    | Release(t: nat)

  function Init(sets: Sets): State {
    State(None, map[], map[], 0, sets, map[], [], 0, [])
  }

  function Goto(s: State, t: nat, pc: Pc): State
    requires t in s.threads
  {
    s.(threads := s.threads[t := s.threads[t].(pc := pc)])
  }

  function Lookup(sets: Sets, name: string): Option<seq<string>> {
    if name in sets then Some(sets[name]) else None
  }

  /** An EnsureZoneSubnets of nothing returns before it takes a lock. */
  predicate Trivial(call: Call) {
    call.EnsureMany? && call.cidrs == []
  }

  /** What a goroutine does with the entries it read. A failed PUT may still have landed. */
  function Finish(s: State, t: nat, ok: bool, lands: bool): State
    requires t in s.threads && s.threads[t].pc.HasRead?
  {
    var th := s.threads[t];
    var lock := th.pc.lock;
    var entry := Entry(th.id, th.call);
    if th.pc.copy.None? then
      if th.call.RemoveOne? then Goto(s, t, Finishing(lock, Ok)).(log := s.log + [entry])
      else Goto(s, t, Finishing(lock, NotFound))
    else
      var e := Edited(th.call, th.pc.copy.value);
      if e.None? then Goto(s, t, Finishing(lock, Ok)).(log := s.log + [entry])
      else
        var after := Goto(s, t, Finishing(lock, if ok then Ok else PutFailed));
        if ok || lands then after.(log := s.log + [entry], sets := s.sets[th.call.name := e.value]) else after
  }

  predicate Enabled(s: State, a: Action) {
    match a
    case Invoke(t, _) => t !in s.threads
    case AcquireMu(t) => t in s.threads && s.threads[t].pc.WantMu? && s.mu.None?
    case ReleaseMu(t) => t in s.threads && s.threads[t].pc.HasMu?
    case AcquireSet(t) => t in s.threads && s.threads[t].pc.WantSet? && s.threads[t].pc.lock !in s.held
    case Get(t, _) => t in s.threads && s.threads[t].pc.HasSet?
    case Put(t, _, _) => t in s.threads && s.threads[t].pc.HasRead?
    case Release(t) => t in s.threads && s.threads[t].pc.Finishing?
  }

  function Step(s: State, a: Action): State
    requires Enabled(s, a)
  {
    match a
    case Invoke(t, call) =>
      if Trivial(call) then
        s.(calls := s.calls + 1, log := s.log + [Entry(s.calls, call)],
           returned := s.returned + [Returned(s.calls, call, |s.log|, |s.log| + 1, Ok)])
      else s.(calls := s.calls + 1, threads := s.threads[t := Thread(s.calls, call, |s.log|, WantMu)])
    case AcquireMu(t) => Goto(s, t, HasMu).(mu := Some(t))
    case ReleaseMu(t) =>
      var name := s.threads[t].call.name;
      if name in s.per then Goto(s, t, WantSet(s.per[name])).(mu := None)
      else Goto(s, t, WantSet(s.locks)).(mu := None, per := s.per[name := s.locks], locks := s.locks + 1)
    case AcquireSet(t) =>
      var lock := s.threads[t].pc.lock;
      Goto(s, t, HasSet(lock)).(held := s.held[lock := t])
    case Get(t, ok) =>
      var lock := s.threads[t].pc.lock;
      Goto(s, t, if ok then HasRead(lock, Lookup(s.sets, s.threads[t].call.name)) else Finishing(lock, GetFailed))
    case Put(t, ok, lands) => Finish(s, t, ok, lands)
    case Release(t) =>
      var th := s.threads[t];
      s.(held := s.held - {th.pc.lock}, threads := s.threads - {t},
         returned := s.returned + [Returned(th.id, th.call, th.from, |s.log|, th.pc.result)])
  }

  /** A run takes the enabled steps of a schedule in order; a blocked goroutine just waits. */
  function Run(s: State, schedule: seq<Action>): State
    decreases |schedule|
  {
    if schedule == [] then s
    else Run(if Enabled(s, schedule[0]) then Step(s, schedule[0]) else s, schedule[1..])
  }

  /** The operations of a log, applied one after the other. */
  function Replay(sets: Sets, log: seq<Entry>): Sets
    decreases |log|
  {
    if log == [] then sets else Apply(Replay(sets, log[..|log| - 1]), log[|log| - 1].call)
  }

  // ---------- mutual exclusion ----------

  predicate HasLock(pc: Pc) {
    !pc.WantMu? && !pc.HasMu?
  }

  predicate Holds(pc: Pc) {
    HasLock(pc) && !pc.WantSet?
  }

  ghost predicate ThreadLocks(s: State, t: nat)
    requires t in s.threads
  {
    var th := s.threads[t];
    && (th.pc.HasMu? ==> s.mu == Some(t))
    && (HasLock(th.pc) ==> th.call.name in s.per && s.per[th.call.name] == th.pc.lock)
    && (Holds(th.pc) ==> th.pc.lock in s.held && s.held[th.pc.lock] == t)
    && (th.pc.HasRead? ==> th.pc.copy == Lookup(s.sets, th.call.name))
  }

  ghost predicate Locks(s: State) {
    && (s.mu.Some? ==> s.mu.value in s.threads && s.threads[s.mu.value].pc.HasMu?)
    && (forall n :: n in s.per ==> s.per[n] < s.locks)
    && (forall n, m :: n in s.per && m in s.per && s.per[n] == s.per[m] ==> n == m)
    && (forall l :: l in s.held ==> s.held[l] in s.threads && Holds(s.threads[s.held[l]].pc) && s.threads[s.held[l]].pc.lock == l)
    && (forall t :: t in s.threads ==> ThreadLocks(s, t))
  }

  /** Deciding and writing back touches the goroutine's own record, its own set and the log, no lock. */
  lemma FinishShape(s: State, t: nat, ok: bool, lands: bool)
    requires t in s.threads && s.threads[t].pc.HasRead?
    ensures var s' := Finish(s, t, ok, lands);
            && t in s'.threads && s'.threads == s.threads[t := s.threads[t].(pc := s'.threads[t].pc)]
            && s'.threads[t].pc.Finishing? && s'.threads[t].pc.lock == s.threads[t].pc.lock
            && s' == s.(threads := s'.threads, log := s'.log, sets := s'.sets)
            && (forall n :: n != s.threads[t].call.name ==> Lookup(s'.sets, n) == Lookup(s.sets, n))
  {
    hide Edited;
    var th := s.threads[t];
    var s' := Finish(s, t, ok, lands);
    assert s'.threads[t].pc.Finishing? && s'.threads[t].pc.lock == th.pc.lock;
    assert s'.threads == s.threads[t := th.(pc := s'.threads[t].pc)];
  }

  lemma StepCalls(s: State, a: Action)
    requires Enabled(s, a)
    ensures Step(s, a).calls == if a.Invoke? then s.calls + 1 else s.calls
  {
    if a.Put? {
      FinishShape(s, a.t, a.ok, a.lands);
    }
    hide Finish;
  }

  lemma StepThread(s: State, a: Action, u: nat)
    requires Enabled(s, a) && u != a.t
    ensures u in Step(s, a).threads <==> u in s.threads
    ensures u in s.threads ==> Step(s, a).threads[u] == s.threads[u]
  {
    if a.Put? {
      FinishShape(s, a.t, a.ok, a.lands);
    }
    hide Finish;
  }

  /** Only the stepping goroutine's record changes. */
  lemma StepThreads(s: State, a: Action)
    requires Enabled(s, a)
    ensures var s' := Step(s, a);
            && s'.calls == (if a.Invoke? then s.calls + 1 else s.calls)
            && (forall u :: u in s.threads && u != a.t ==> u in s'.threads && s'.threads[u] == s.threads[u])
            && (forall u :: u in s'.threads && u != a.t ==> u in s.threads)
  {
    hide Step, Enabled;
    StepCalls(s, a);
    var s' := Step(s, a);
    forall u | u != a.t
      ensures u in s'.threads <==> u in s.threads
      ensures u in s.threads ==> s'.threads[u] == s.threads[u]
    {
      StepThread(s, a, u);
    }
  }

  lemma OwnLocksStep(s: State, a: Action)
    requires Enabled(s, a) && a.t in Step(s, a).threads
    requires a.t in s.threads ==> ThreadLocks(s, a.t)
    ensures ThreadLocks(Step(s, a), a.t)
  {
    if a.Put? {
      FinishShape(s, a.t, a.ok, a.lands);
    }
    hide Finish;
  }

  /** Nobody else's locks, nor the set somebody else is working on, change under a step. */
  lemma OthersUntouched(s: State, a: Action, u: nat)
    requires Enabled(s, a) && u in s.threads && u != a.t && ThreadLocks(s, u)
    requires a.t in s.threads ==> ThreadLocks(s, a.t)
    ensures var s' := Step(s, a);
            && u in s'.threads && s'.threads[u] == s.threads[u]
            && (s.mu == Some(u) && !a.AcquireMu? && !a.ReleaseMu? ==> s'.mu == Some(u))
            && (forall n :: n in s.per ==> n in s'.per && s'.per[n] == s.per[n])
            && (forall l :: l in s.held && s.held[l] == u ==> l in s'.held && s'.held[l] == u)
            && (Holds(s.threads[u].pc) ==> Lookup(s'.sets, s.threads[u].call.name) == Lookup(s.sets, s.threads[u].call.name))
  {
    if a.Put? {
      FinishShape(s, a.t, a.ok, a.lands);
    }
    hide Finish;
  }

  lemma OtherLocksStep(s: State, a: Action, u: nat)
    requires Enabled(s, a) && u in s.threads && u != a.t && ThreadLocks(s, u)
    requires a.t in s.threads ==> ThreadLocks(s, a.t)
    ensures u in Step(s, a).threads && ThreadLocks(Step(s, a), u)
  {
    OthersUntouched(s, a, u);
    hide Step, Lookup;
  }

  lemma SharedLocksStep(s: State, a: Action)
    requires Locks(s) && Enabled(s, a)
    ensures var s' := Step(s, a);
            && (s'.mu.Some? ==> s'.mu.value in s'.threads && s'.threads[s'.mu.value].pc.HasMu?)
            && (forall n :: n in s'.per ==> s'.per[n] < s'.locks)
            && (forall n, m :: n in s'.per && m in s'.per && s'.per[n] == s'.per[m] ==> n == m)
  {
    hide Finish, Lookup;
    if a.Put? {
      FinishShape(s, a.t, a.ok, a.lands);
    }
    if a.t in s.threads {
      assert ThreadLocks(s, a.t);
    }
  }

  lemma HeldStep(s: State, a: Action, l: nat)
    requires Enabled(s, a) && l in Step(s, a).held
    requires a.t in s.threads ==> ThreadLocks(s, a.t)
    requires l in s.held ==> s.held[l] in s.threads && Holds(s.threads[s.held[l]].pc) && s.threads[s.held[l]].pc.lock == l
    ensures var s' := Step(s, a);
            s'.held[l] in s'.threads && Holds(s'.threads[s'.held[l]].pc) && s'.threads[s'.held[l]].pc.lock == l
  {
    if a.Put? {
      FinishShape(s, a.t, a.ok, a.lands);
    }
    hide Finish;
    match a
    case Invoke(t, _) =>
    case AcquireMu(t) =>
    case ReleaseMu(t) =>
    case AcquireSet(t) =>
    case Get(t, _) =>
    case Put(t, _, _) =>
    case Release(t) =>
  }

  /** Every step keeps the locks in order and what a goroutine has read current. */
  lemma LocksStep(s: State, a: Action)
    requires Locks(s) && Enabled(s, a)
    ensures Locks(Step(s, a))
  {
    hide Step, Enabled, ThreadLocks;
    var s' := Step(s, a);
    SharedLocksStep(s, a);
    StepThreads(s, a);
    forall u | u in s'.threads
      ensures ThreadLocks(s', u)
    {
      if u == a.t {
        OwnLocksStep(s, a);
      } else {
        OtherLocksStep(s, a, u);
      }
    }
    forall l | l in s'.held
      ensures s'.held[l] in s'.threads && Holds(s'.threads[s'.held[l]].pc) && s'.threads[s'.held[l]].pc.lock == l
    {
      HeldStep(s, a, l);
    }
  }

  // ---------- one call, one place in the log ----------

  ghost predicate Logged(log: seq<Entry>, id: nat) {
    exists i :: 0 <= i < |log| && log[i].id == id
  }

  /** The call is in the log at most between `from` and `until`, as itself. */
  ghost predicate Placed(log: seq<Entry>, id: nat, call: Call, from: nat, until: nat) {
    forall i :: 0 <= i < |log| && log[i].id == id ==> from <= i < until && log[i].call == call
  }

  /** What a result says about the log and the set. */
  ghost predicate Explains(s: State, id: nat, call: Call, result: Result) {
    && (result.Ok? ==> Logged(s.log, id) && (Trivial(call) || call.RemoveOne? || call.name in s.sets))
    && (result.GetFailed? ==> !Logged(s.log, id))
    && (result.NotFound? ==> !Logged(s.log, id) && call.name !in s.sets && !call.RemoveOne?)
  }

  ghost predicate ThreadFits(s: State, t: nat)
    requires t in s.threads
  {
    var th := s.threads[t];
    && th.id < s.calls && th.from <= |s.log| && Placed(s.log, th.id, th.call, th.from, |s.log|)
    && (if th.pc.Finishing? then Explains(s, th.id, th.call, th.pc.result) else !Logged(s.log, th.id))
  }

  ghost predicate ReturnFits(s: State, r: Returned) {
    && r.id < s.calls && r.from <= r.until <= |s.log| && Placed(s.log, r.id, r.call, r.from, r.until)
    && Explains(s, r.id, r.call, r.result)
  }

  ghost predicate Ids(s: State) {
    && (forall t, u :: t in s.threads && u in s.threads && t != u ==> s.threads[t].id != s.threads[u].id)
    && (forall t, i :: t in s.threads && 0 <= i < |s.returned| ==> s.threads[t].id != s.returned[i].id)
    && (forall i, j :: 0 <= i < j < |s.returned| ==> s.returned[i].id != s.returned[j].id)
    && (forall i :: 0 <= i < |s.log| ==> s.log[i].id < s.calls)
    && (forall i, j :: 0 <= i < j < |s.log| ==> s.log[i].id != s.log[j].id)
  }

  ghost predicate Fits(s: State) {
    && (forall t :: t in s.threads ==> ThreadFits(s, t))
    && (forall r :: r in s.returned ==> ReturnFits(s, r))
  }

  /** The call a step logs, if it does. */
  function Appends(s: State, a: Action): Option<Entry>
    requires Enabled(s, a)
  {
    match a
    case Invoke(_, call) => if Trivial(call) then Some(Entry(s.calls, call)) else None
    case Put(t, ok, lands) =>
      var th := s.threads[t];
      if th.pc.copy.None? then (if th.call.RemoveOne? then Some(Entry(th.id, th.call)) else None)
      else if Edited(th.call, th.pc.copy.value).None? || ok || lands then Some(Entry(th.id, th.call))
      else None
    case _ => None
  }

  lemma LogStep(s: State, a: Action)
    requires Enabled(s, a)
    ensures var e := Appends(s, a); Step(s, a).log == if e.Some? then s.log + [e.value] else s.log
  {
    hide Edited;
  }

  /** A step that logs a call applies it, at once, to the sets; any other step leaves them alone. */
  lemma EffectStep(s: State, a: Action)
    requires Locks(s) && Enabled(s, a)
    ensures var e := Appends(s, a); Step(s, a).sets == if e.Some? then Apply(s.sets, e.value.call) else s.sets
  {
    if a.t in s.threads {
      assert ThreadLocks(s, a.t);
    }
    hide Locks, Holds, Edited, Missing;
    if a.Invoke? && Trivial(a.call) {
      TrivialChangesNothing(s.sets, a.call);
    }
  }

  lemma TrivialChangesNothing(sets: Sets, call: Call)
    requires Trivial(call)
    ensures Apply(sets, call) == sets
  {
  }

  lemma Extended(log: seq<Entry>, e: Entry, id: nat)
    requires e.id != id
    ensures Logged(log + [e], id) <==> Logged(log, id)
  {
    if Logged(log, id) {
      var i :| 0 <= i < |log| && log[i].id == id;
      assert (log + [e])[i].id == id;
    }
  }

  lemma JustLogged(log: seq<Entry>, e: Entry)
    ensures Logged(log + [e], e.id)
  {
    assert (log + [e])[|log|].id == e.id;
  }

  /** Who logs: a fresh call, or the stepping goroutine, which has not logged before. */
  lemma AppendsOnce(s: State, a: Action)
    requires Enabled(s, a) && Fits(s) && Ids(s) && Appends(s, a).Some?
    ensures var e := Appends(s, a).value;
            && (a.Invoke? ==> e.id == s.calls)
            && (!a.Invoke? ==> a.Put? && e.id == s.threads[a.t].id && e.id < s.calls)
            && !Logged(s.log, e.id)
  {
    hide Edited;
    if !a.Invoke? {
      assert ThreadFits(s, a.t);
    }
  }

  lemma StepOwnThread(s: State, a: Action)
    requires Enabled(s, a) && a.t in Step(s, a).threads
    ensures var th := Step(s, a).threads[a.t];
            if a.Invoke? then th == Thread(s.calls, a.call, |s.log|, WantMu) && !Trivial(a.call)
            else a.t in s.threads && th == s.threads[a.t].(pc := th.pc) && !a.Release?
  {
    hide Finish, Lookup;
    if a.Put? {
      FinishShape(s, a.t, a.ok, a.lands);
    }
  }

  /** What a step returns to a caller. */
  function Returns(s: State, a: Action): seq<Returned>
    requires Enabled(s, a)
  {
    if a.Invoke? && Trivial(a.call) then [Returned(s.calls, a.call, |s.log|, |s.log| + 1, Ok)]
    else if a.Release? then
      var th := s.threads[a.t];
      [Returned(th.id, th.call, th.from, |s.log|, th.pc.result)]
    else []
  }

  lemma StepReturns(s: State, a: Action)
    requires Enabled(s, a)
    ensures Step(s, a).returned == s.returned + Returns(s, a) && |Returns(s, a)| <= 1
    ensures Returns(s, a) != [] ==> a.t !in Step(s, a).threads
  {
    hide Edited;
  }

  /** The IDs of calls in flight, and of calls that returned, are old and all different. */
  lemma KnownIds(s: State, t: nat, i: nat)
    requires Fits(s) && Ids(s)
    ensures t in s.threads ==> s.threads[t].id < s.calls
    ensures i < |s.returned| ==> s.returned[i].id < s.calls
    ensures t in s.threads && i < |s.returned| ==> s.threads[t].id != s.returned[i].id
  {
    if t in s.threads {
      assert ThreadFits(s, t);
    }
    if i < |s.returned| {
      assert s.returned[i] in s.returned && ReturnFits(s, s.returned[i]);
    }
  }

  lemma LogIdsStep(s: State, a: Action)
    requires Enabled(s, a) && Fits(s) && Ids(s)
    ensures var s' := Step(s, a);
            && (forall i :: 0 <= i < |s'.log| ==> s'.log[i].id < s'.calls)
            && (forall i, j :: 0 <= i < j < |s'.log| ==> s'.log[i].id != s'.log[j].id)
  {
    LogStep(s, a);
    StepCalls(s, a);
    if Appends(s, a).Some? {
      AppendsOnce(s, a);
    }
    hide Step, Appends, Enabled, Fits;
  }

  lemma ThreadIdsStep(s: State, a: Action, t: nat, u: nat)
    requires Enabled(s, a) && Fits(s) && Ids(s) && t in Step(s, a).threads && u in Step(s, a).threads && t != u && u != a.t
    ensures Step(s, a).threads[t].id != Step(s, a).threads[u].id
  {
    StepThreads(s, a);
    if t == a.t {
      StepOwnThread(s, a);
    }
    hide Step, Enabled;
    KnownIds(s, u, 0);
  }

  lemma ReturnIdsStep(s: State, a: Action, i: nat, t: nat)
    requires Enabled(s, a) && Fits(s) && Ids(s) && i < |Step(s, a).returned|
    ensures t in Step(s, a).threads ==> Step(s, a).threads[t].id != Step(s, a).returned[i].id
    ensures i == |s.returned| ==> forall j :: 0 <= j < i ==> Step(s, a).returned[j].id != Step(s, a).returned[i].id
  {
    StepThreads(s, a);
    StepReturns(s, a);
    if a.t in Step(s, a).threads {
      StepOwnThread(s, a);
    }
    hide Step;
    var s' := Step(s, a);
    assert a.t in s.threads <==> !a.Invoke?;
    hide Enabled;
    KnownIds(s, t, i);
    KnownIds(s, a.t, i);
    forall j | 0 <= j < |s.returned|
      ensures s'.returned[j].id == s.returned[j].id < s.calls
      ensures a.t in s.threads ==> s.returned[j].id != s.threads[a.t].id
    {
      KnownIds(s, a.t, j);
    }
  }

  lemma IdsStep(s: State, a: Action)
    requires Enabled(s, a) && Fits(s) && Ids(s)
    ensures Ids(Step(s, a))
  {
    LogIdsStep(s, a);
    StepReturns(s, a);
    hide Step, Enabled, Fits, Returns;
    var s' := Step(s, a);
    forall t, u | t in s'.threads && u in s'.threads && t != u
      ensures s'.threads[t].id != s'.threads[u].id
    {
      if u != a.t {
        ThreadIdsStep(s, a, t, u);
      } else {
        ThreadIdsStep(s, a, u, t);
      }
    }
    forall t, i | t in s'.threads && 0 <= i < |s'.returned|
      ensures s'.threads[t].id != s'.returned[i].id
    {
      ReturnIdsStep(s, a, i, t);
    }
    forall i, j | 0 <= i < j < |s'.returned|
      ensures s'.returned[i].id != s'.returned[j].id
    {
      ReturnIdsStep(s, a, j, 0);
    }
  }

  /** Logging somebody else's call changes nothing about a call. */
  lemma Unaffected(s: State, s': State, e: Option<Entry>, id: nat, call: Call, from: nat, until: nat, result: Result)
    requires s'.log == (if e.Some? then s.log + [e.value] else s.log) && (e.Some? ==> e.value.id != id)
    requires s'.sets.Keys == s.sets.Keys && until <= |s.log|
    requires Placed(s.log, id, call, from, until)
    ensures Placed(s'.log, id, call, from, until) && Placed(s'.log, id, call, from, |s'.log|)
    ensures Logged(s'.log, id) == Logged(s.log, id)
    ensures Explains(s, id, call, result) ==> Explains(s', id, call, result)
  {
    if e.Some? {
      Extended(s.log, e.value, id);
    }
  }

  lemma KeysStep(s: State, a: Action)
    requires Locks(s) && Enabled(s, a)
    ensures Step(s, a).sets.Keys == s.sets.Keys
  {
    EffectStep(s, a);
    hide Step, Appends;
    if Appends(s, a).Some? {
      ApplyIsSetOperation(s.sets, Appends(s, a).value.call);
    }
  }

  lemma OtherThreadFits(s: State, a: Action, u: nat)
    requires Locks(s) && Ids(s) && Fits(s) && Enabled(s, a) && u in s.threads && u != a.t
    ensures u in Step(s, a).threads && ThreadFits(Step(s, a), u)
  {
    LogStep(s, a);
    KeysStep(s, a);
    StepThreads(s, a);
    if Appends(s, a).Some? {
      AppendsOnce(s, a);
      assert !a.Invoke? ==> a.t in s.threads;
    }
    hide Step, Appends, Enabled, Locks;
    assert ThreadFits(s, u);
    var th := s.threads[u];
    Unaffected(s, Step(s, a), Appends(s, a), th.id, th.call, th.from, |s.log|, if th.pc.Finishing? then th.pc.result else Ok);
  }

  lemma OldReturnFits(s: State, a: Action, r: Returned)
    requires Locks(s) && Ids(s) && Fits(s) && Enabled(s, a) && r in s.returned
    ensures ReturnFits(Step(s, a), r)
  {
    LogStep(s, a);
    KeysStep(s, a);
    StepThreads(s, a);
    assert ReturnFits(s, r);
    if Appends(s, a).Some? {
      AppendsOnce(s, a);
      assert !a.Invoke? ==> a.t in s.threads;
      var i :| 0 <= i < |s.returned| && s.returned[i] == r;
    }
    hide Step, Appends, Enabled, Locks;
    Unaffected(s, Step(s, a), Appends(s, a), r.id, r.call, r.from, r.until, r.result);
  }

  /** What the stepping goroutine is told agrees with what it logged. */
  lemma OwnResult(s: State, a: Action)
    requires Locks(s) && Enabled(s, a) && !a.Invoke? && a.t in Step(s, a).threads && ThreadFits(s, a.t)
    ensures var th := Step(s, a).threads[a.t];
            var e := Appends(s, a);
            && (e.Some? ==> th.pc.Finishing? && th.pc.result != GetFailed && th.pc.result != NotFound && e.value == Entry(th.id, th.call))
            && (th.pc.Finishing? ==>
                 && !a.Release? && !s.threads[a.t].pc.Finishing?
                 && (th.pc.result.Ok? ==> e.Some? && (th.call.RemoveOne? || th.call.name in s.sets))
                 && (th.pc.result.NotFound? ==> th.call.name !in s.sets && !th.call.RemoveOne?))
            && (!th.pc.Finishing? ==> !s.threads[a.t].pc.Finishing?)
  {
    hide Finish, Edited, ThreadLocks, Explains, Placed, Logged;
    if a.Put? {
      assert ThreadLocks(s, a.t);
      hide Locks;
      FinishShape(s, a.t, a.ok, a.lands);
      PutResult(s, a);
    } else {
      hide Locks, Lookup;
    }
  }

  lemma PutResult(s: State, a: Action)
    requires a.Put? && Enabled(s, a) && ThreadLocks(s, a.t)
    ensures a.t in Finish(s, a.t, a.ok, a.lands).threads
    ensures var th := s.threads[a.t];
            var pc := Finish(s, a.t, a.ok, a.lands).threads[a.t].pc;
            var e := Appends(s, a);
            && pc.Finishing? && pc.result != GetFailed
            && (e.Some? ==> pc.result != NotFound && e.value == Entry(th.id, th.call))
            && (pc.result.Ok? ==> e.Some? && (th.call.RemoveOne? || th.call.name in s.sets))
            && (pc.result.NotFound? ==> th.call.name !in s.sets && !th.call.RemoveOne?)
  {
    hide Edited;
  }

  lemma OwnThreadFits(s: State, a: Action)
    requires Locks(s) && Ids(s) && Fits(s) && Enabled(s, a) && a.t in Step(s, a).threads
    ensures ThreadFits(Step(s, a), a.t)
  {
    LogStep(s, a);
    KeysStep(s, a);
    StepThreads(s, a);
    StepOwnThread(s, a);
    var s' := Step(s, a);
    var th := s'.threads[a.t];
    if a.Invoke? {
      hide Step, Locks, Fits;
    } else {
      assert ThreadFits(s, a.t);
      OwnResult(s, a);
      var e := Appends(s, a);
      hide Step, Appends, Enabled, Locks, Fits;
      if e.Some? {
        JustLogged(s.log, e.value);
      }
    }
  }

  lemma NewReturnFits(s: State, a: Action, r: Returned)
    requires Locks(s) && Ids(s) && Fits(s) && Enabled(s, a) && r in Returns(s, a)
    ensures ReturnFits(Step(s, a), r)
  {
    LogStep(s, a);
    KeysStep(s, a);
    StepThreads(s, a);
    hide Step, Locks;
    if a.Release? {
      assert ThreadFits(s, a.t);
    } else {
      JustLogged(s.log, Entry(s.calls, a.call));
    }
  }

  lemma FitsStep(s: State, a: Action)
    requires Locks(s) && Ids(s) && Fits(s) && Enabled(s, a)
    ensures Fits(Step(s, a))
  {
    var s' := Step(s, a);
    StepThreads(s, a);
    StepReturns(s, a);
    hide Step, Locks, Ids, Enabled;
    forall u | u in s'.threads
      ensures ThreadFits(s', u)
    {
      if u == a.t {
        OwnThreadFits(s, a);
      } else {
        OtherThreadFits(s, a, u);
      }
    }
    forall r | r in s'.returned
      ensures ReturnFits(s', r)
    {
      if r in s.returned {
        OldReturnFits(s, a, r);
      } else {
        NewReturnFits(s, a, r);
      }
    }
  }

  // ---------- every log entry is somebody's ----------

  ghost predicate InFlight(s: State, e: Entry) {
    exists t :: t in s.threads && s.threads[t].id == e.id && s.threads[t].call == e.call
  }

  ghost predicate Over(s: State, e: Entry) {
    exists r :: r in s.returned && r.id == e.id && r.call == e.call
  }

  /** Every entry is a call that was invoked: it is in flight or has returned. */
  ghost predicate Accounted(s: State) {
    forall i :: 0 <= i < |s.log| ==> InFlight(s, s.log[i]) || Over(s, s.log[i])
  }

  lemma AccountedFor(s: State, a: Action, e: Entry)
    requires Enabled(s, a) && (InFlight(s, e) || Over(s, e))
    ensures InFlight(Step(s, a), e) || Over(Step(s, a), e)
  {
    StepReturns(s, a);
    var s' := Step(s, a);
    if Over(s, e) {
      hide Step, Enabled, Returns;
      var r :| r in s.returned && r.id == e.id && r.call == e.call;
      assert r in s'.returned;
    } else {
      var t :| t in s.threads && s.threads[t].id == e.id && s.threads[t].call == e.call;
      if t != a.t {
        StepThread(s, a, t);
      } else if a.Release? {
        hide Step;
        assert Returns(s, a)[0] in s'.returned;
      } else {
        assert t in s'.threads;
        StepOwnThread(s, a);
      }
    }
  }

  lemma NewEntryAccounted(s: State, a: Action)
    requires Enabled(s, a) && Appends(s, a).Some?
    ensures InFlight(Step(s, a), Appends(s, a).value) || Over(Step(s, a), Appends(s, a).value)
  {
    StepReturns(s, a);
    var s' := Step(s, a);
    if a.Invoke? {
      hide Step;
      assert Returns(s, a)[0] in s'.returned;
    } else {
      FinishShape(s, a.t, a.ok, a.lands);
      hide Finish, Edited;
      assert s'.threads[a.t].id == s.threads[a.t].id;
    }
  }

  lemma AccountedStep(s: State, a: Action)
    requires Enabled(s, a) && Accounted(s)
    ensures Accounted(Step(s, a))
  {
    LogStep(s, a);
    hide Step, Enabled, Appends, InFlight, Over;
    var s' := Step(s, a);
    forall i | 0 <= i < |s'.log|
      ensures InFlight(s', s'.log[i]) || Over(s', s'.log[i])
    {
      if i < |s.log| {
        AccountedFor(s, a, s.log[i]);
      } else {
        NewEntryAccounted(s, a);
      }
    }
  }

  // ---------- every run ----------

  ghost predicate Inv(init: Sets, s: State) {
    Locks(s) && Ids(s) && Fits(s) && Accounted(s) && s.sets == Replay(init, s.log) && s.sets.Keys == init.Keys
  }

  lemma InvStep(init: Sets, s: State, a: Action)
    requires Inv(init, s) && Enabled(s, a)
    ensures Inv(init, Step(s, a))
  {
    LocksStep(s, a);
    IdsStep(s, a);
    FitsStep(s, a);
    AccountedStep(s, a);
    LogStep(s, a);
    EffectStep(s, a);
    KeysStep(s, a);
    hide Step, Locks, Ids, Fits, Accounted, Enabled, Apply;
    var e := Appends(s, a);
    hide Appends;
    if e.Some? {
      var log := s.log + [e.value];
      assert log[..|log| - 1] == s.log && log[|log| - 1] == e.value;
    }
  }

  lemma {:induction false} InvRun(init: Sets, s: State, schedule: seq<Action>)
    requires Inv(init, s)
    ensures Inv(init, Run(s, schedule))
    decreases |schedule|
  {
    hide Inv, Step, Enabled;
    if schedule != [] {
      if Enabled(s, schedule[0]) {
        InvStep(init, s, schedule[0]);
        InvRun(init, Step(s, schedule[0]), schedule[1..]);
      } else {
        InvRun(init, s, schedule[1..]);
      }
    }
  }

  /** The sequential history a run is equivalent to: the sets are the log replayed; every call that returned
      without error is in the log exactly once, after it was invoked and before it returned; a call that
      failed before its PUT is not in it; every entry is a call that returned or is still in flight and
      was made after that was invoked; and a call that was over before another began precedes it. */
  ghost predicate Linearized(init: Sets, s: State) {
    && s.sets == Replay(init, s.log)
    && (forall i, j :: 0 <= i < j < |s.log| ==> s.log[i].id != s.log[j].id)
    && (forall i, j :: 0 <= i < j < |s.returned| ==> s.returned[i].id != s.returned[j].id)
    && (forall r :: r in s.returned ==> ReturnFits(s, r))
    && Accounted(s)
    && (forall t :: t in s.threads ==> ThreadFits(s, t))
    && (forall r, q, i, j :: r in s.returned && q in s.returned && r.until <= q.from && At(s, r, i) && At(s, q, j) ==> i < j)
  }

  ghost predicate At(s: State, r: Returned, i: nat) {
    i < |s.log| && s.log[i].id == r.id
  }

  /** Every interleaving of any number of calls on any sets is linearizable to atomic unions and removals. */
  lemma EveryRunIsLinearizable(init: Sets, schedule: seq<Action>)
    ensures Linearized(init, Run(Init(init), schedule))
  {
    assert Inv(init, Init(init));
    InvRun(init, Init(init), schedule);
    var s := Run(Init(init), schedule);
    hide Run, Locks, Explains, Accounted;
    forall r, q, i: nat, j: nat | r in s.returned && q in s.returned && r.until <= q.from && At(s, r, i) && At(s, q, j)
      ensures i < j
    {
      assert ReturnFits(s, r) && ReturnFits(s, q);
    }
  }

  /** From position k on, the log never removes that CIDR from that set. */
  ghost predicate NeverDropped(log: seq<Entry>, k: nat, name: string, cidr: string) {
    forall i :: k <= i < |log| ==> !(log[i].call.name == name && cidr in Drops(log[i].call))
  }

  lemma {:induction false} ReplayKeys(init: Sets, log: seq<Entry>)
    ensures Replay(init, log).Keys == init.Keys
    decreases |log|
  {
    if log != [] {
      ReplayKeys(init, log[..|log| - 1]);
      ApplyIsSetOperation(Replay(init, log[..|log| - 1]), log[|log| - 1].call);
    }
  }

  /** No update is lost: an entry is in a set after a history if and only if it was ensured and not removed
      since, or it was there from the start and never removed. */
  lemma {:induction false} NoUpdateLost(init: Sets, log: seq<Entry>, name: string, cidr: string)
    requires name in init
    ensures Replay(init, log).Keys == init.Keys
    ensures cidr in Replay(init, log)[name] <==>
              || (cidr in init[name] && NeverDropped(log, 0, name, cidr))
              || (exists k :: 0 <= k < |log| && log[k].call.name == name && cidr in Adds(log[k].call) && NeverDropped(log, k + 1, name, cidr))
    decreases |log|
  {
    ReplayKeys(init, log);
    if log != [] {
      var n := |log| - 1;
      var before := log[..n];
      var last := log[n].call;
      var sets := Replay(init, before);
      NoUpdateLost(init, before, name, cidr);
      LastDecides(init, log, name, cidr);
      NeverDroppedSnoc(log, name, cidr);
      hide Apply, Replay, Adds, Drops, NeverDropped;
      if cidr in Replay(init, log)[name] {
        if last.name == name && cidr in Adds(last) {
          NothingAfter(log, name, cidr);
        } else if !(cidr in init[name] && NeverDropped(before, 0, name, cidr)) {
          var k :| 0 <= k < |before| && before[k].call.name == name && cidr in Adds(before[k].call) && NeverDropped(before, k + 1, name, cidr);
          assert log[k] == before[k] && NeverDropped(log, k + 1, name, cidr);
        }
      }
      if k :| 0 <= k < |log| && log[k].call.name == name && cidr in Adds(log[k].call) && NeverDropped(log, k + 1, name, cidr) {
        if k < n {
          assert before[k] == log[k];
        }
      }
    }
  }

  lemma NothingAfter(log: seq<Entry>, name: string, cidr: string)
    ensures NeverDropped(log, |log|, name, cidr)
  {
  }

  lemma NeverDroppedSnoc(log: seq<Entry>, name: string, cidr: string)
    requires log != []
    ensures var n := |log| - 1;
            var last := log[n].call;
            forall k :: 0 <= k <= n ==> (NeverDropped(log, k, name, cidr) <==>
                                           NeverDropped(log[..n], k, name, cidr) && !(last.name == name && cidr in Drops(last)))
  {
    hide Drops;
  }

  /** The last operation decides about what it adds or drops, and leaves the rest as it was. */
  lemma LastDecides(init: Sets, log: seq<Entry>, name: string, cidr: string)
    requires log != [] && name in init
    ensures var last := log[|log| - 1].call;
            var sets := Replay(init, log[..|log| - 1]);
            && name in sets && name in Replay(init, log)
            && (cidr in Replay(init, log)[name] <==>
                 (cidr in sets[name] || (last.name == name && cidr in Adds(last))) && !(last.name == name && cidr in Drops(last)))
  {
    var last := log[|log| - 1].call;
    var sets := Replay(init, log[..|log| - 1]);
    ReplayKeys(init, log);
    ReplayKeys(init, log[..|log| - 1]);
    ReplaySnoc(init, log);
    hide Apply, Replay, Adds, Drops;
    ApplyIsSetOperation(sets, last);
    if last.name == name {
      assert cidr in Members(Apply(sets, last)[name]) <==> cidr in Apply(sets, last)[name];
      assert cidr in Members(sets[name]) <==> cidr in sets[name];
    }
  }

  lemma ReplaySnoc(init: Sets, log: seq<Entry>)
    requires log != []
    ensures Replay(init, log) == Apply(Replay(init, log[..|log| - 1]), log[|log| - 1].call)
  {
  }

  /** The locks never deadlock: while any call is in flight, some goroutine can take a step. */
  lemma SomebodyCanMove(init: Sets, schedule: seq<Action>)
    ensures var s := Run(Init(init), schedule);
            s.threads != map[] ==> exists a :: Enabled(s, a) && !a.Invoke?
  {
    assert Inv(init, Init(init));
    InvRun(init, Init(init), schedule);
    var s := Run(Init(init), schedule);
    hide Run, Ids, Fits, Accounted, Replay, Locks;
    if s.threads != map[] {
      var t :| t in s.threads;
      CanMove(s, t);
    }
  }

  /** Whoever waits waits for somebody who can move. */
  lemma CanMove(s: State, t: nat)
    requires Locks(s) && t in s.threads
    ensures exists a :: Enabled(s, a) && !a.Invoke?
  {
    assert ThreadLocks(s, t);
    match s.threads[t].pc
    case WantMu =>
      hide ThreadLocks;
      if s.mu.None? {
        assert Enabled(s, AcquireMu(t));
      } else {
        assert Enabled(s, ReleaseMu(s.mu.value));
      }
    case HasMu => assert Enabled(s, ReleaseMu(t));
    case WantSet(l) =>
      if l !in s.held {
        assert Enabled(s, AcquireSet(t));
      } else {
        HolderCanMove(s, s.held[l]);
      }
    case _ => HolderCanMove(s, t);
  }

  lemma HolderCanMove(s: State, t: nat)
    requires t in s.threads && Holds(s.threads[t].pc)
    ensures exists a :: Enabled(s, a) && !a.Invoke?
  {
    match s.threads[t].pc
    case HasSet(_) => assert Enabled(s, Get(t, true));
    case HasRead(_, _) => assert Enabled(s, Put(t, true, true));
    case Finishing(_, _) => assert Enabled(s, Release(t));
  }
}
