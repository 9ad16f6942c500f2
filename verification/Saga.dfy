/** The compose-then-rollback primitive (ops.Run): steps run in order; on a failing step or a
    cancelled context the completed steps are undone in reverse and every error is reported. */
module Saga {
  import opened Text

  /** What one Do or Undo leaves behind: the new state and the error it returned, if any. */
  datatype Outcome<S> = Outcome(state: S, err: Option<string>)

  datatype Op<!S> = Op(name: string, do: S -> Outcome<S>, undo: S -> Outcome<S>)

  datatype Cause =
    | StepFailed(name: string, err: string)
    | CancelledBefore(name: string)
    | CancelledAfter(name: string)

  /** The joined error: the cause first, then each failed undo in the order the undos ran. */
  datatype Failure = Failure(cause: Cause, undoErrs: seq<(string, string)>)

  /** One call the saga made, by step index. */
  datatype Event = Did(step: nat) | DoFailed(step: nat) | Undid(step: nat)

  /** ctx.Err() as the saga sees it: whether the n-th check reports a cancelled context.
      Step i is checked before it runs (check 2i) and after it succeeds (check 2i+1). */
  type Cancellation = nat -> bool

  function NoUndo<S>(s: S): Outcome<S> {
    Outcome(s, None)
  }

  function Noop<S>(name: string, do: S -> Outcome<S>): Op<S> {
    Op(name, do, s => NoUndo(s))
  }

  // ---------- specification ----------

  /** Where the forward pass stopped: the state, how many steps are complete, and why. */
  datatype Stop<S> = Stop(state: S, completed: nat, cause: Option<Cause>)

  function Forward<S>(steps: seq<Op<S>>, ctx: Cancellation, s: S, i: nat): (r: Stop<S>)
    requires i <= |steps|
    ensures i <= r.completed <= |steps|
    decreases |steps| - i
  {
    if i == |steps| then Stop(s, i, None)
    else if ctx(2 * i) then Stop(s, i, Some(CancelledBefore(steps[i].name)))
    else
      var o := steps[i].do(s);
      if o.err.Some? then Stop(o.state, i, Some(StepFailed(steps[i].name, o.err.value)))
      else if ctx(2 * i + 1) then Stop(o.state, i + 1, Some(CancelledAfter(steps[i].name)))
      else Forward(steps, ctx, o.state, i + 1)
  }

  /** Undo steps n-1, ..., 0, whatever errors they return. */
  function Backward<S>(steps: seq<Op<S>>, s: S, n: nat): S
    requires n <= |steps|
  {
    if n == 0 then s else Backward(steps, steps[n - 1].undo(s).state, n - 1)
  }

  function UndoErrors<S>(steps: seq<Op<S>>, s: S, n: nat): seq<(string, string)>
    requires n <= |steps|
  {
    if n == 0 then []
    else
      var o := steps[n - 1].undo(s);
      (if o.err.Some? then [(steps[n - 1].name, o.err.value)] else [])
      + UndoErrors(steps, o.state, n - 1)
  }

  /** The state in which the saga leaves the world. */
  function Final<S>(steps: seq<Op<S>>, ctx: Cancellation, s: S): S {
    var stop := Forward(steps, ctx, s, 0);
    if stop.cause.None? then stop.state else Backward(steps, stop.state, stop.completed)
  }

  function Error<S>(steps: seq<Op<S>>, ctx: Cancellation, s: S): Option<Failure> {
    var stop := Forward(steps, ctx, s, 0);
    if stop.cause.None? then None
    else Some(Failure(stop.cause.value, UndoErrors(steps, stop.state, stop.completed)))
  }

  function Dids(n: nat): seq<Event> {
    seq(n, i requires 0 <= i < n => Did(i))
  }

  function Undids(n: nat): seq<Event> {
    seq(n, i requires 0 <= i < n => Undid(n - 1 - i))
  }

  /** The calls a saga may make: a completed prefix, at most one failing Do, then the prefix undone in reverse. */
  function Calls(completed: nat, cause: Option<Cause>): seq<Event> {
    Dids(completed) +
    match cause
    case None => []
    case Some(StepFailed(_, _)) => [DoFailed(completed)] + Undids(completed)
    case Some(_) => Undids(completed)
  }

  // ---------- ops.Run ----------

  method Run<S>(steps: seq<Op<S>>, ctx: Cancellation, s: S)
    returns (state: S, failure: Option<Failure>, calls: seq<Event>)
    ensures state == Final(steps, ctx, s)
    ensures failure == Error(steps, ctx, s)
    ensures var stop := Forward(steps, ctx, s, 0); calls == Calls(stop.completed, stop.cause)
  {
    var done: seq<Op<S>> := [];
    state, calls := s, [];
    for i := 0 to |steps|
      invariant done == steps[..i]
      invariant calls == Dids(i)
      invariant Forward(steps, ctx, s, 0) == Forward(steps, ctx, state, i)
    {
      var step := steps[i];
      if ctx(2 * i) {
        state, failure, calls := Rollback(steps, done, state, CancelledBefore(step.name), calls);
        return;
      }
      var o := step.do(state);
      state := o.state;
      if o.err.Some? {
        calls := calls + [DoFailed(i)];
        state, failure, calls := Rollback(steps, done, state, StepFailed(step.name, o.err.value), calls);
        assert Calls(i, Some(StepFailed(step.name, o.err.value))) == Dids(i) + [DoFailed(i)] + Undids(i);
        return;
      }
      calls := calls + [Did(i)];
      assert calls == Dids(i + 1);
      if ctx(2 * i + 1) {
        state, failure, calls := Rollback(steps, done + [step], state, CancelledAfter(step.name), calls);
        return;
      }
      done := done + [step];
    }
    failure := None;
  }

  method Rollback<S>(ghost steps: seq<Op<S>>, done: seq<Op<S>>, s: S, cause: Cause, before: seq<Event>)
    returns (state: S, failure: Option<Failure>, calls: seq<Event>)
    requires done <= steps
    ensures state == Backward(steps, s, |done|)
    ensures failure == Some(Failure(cause, UndoErrors(steps, s, |done|)))
    ensures calls == before + Undids(|done|)
  {
    state, calls := s, before;
    var undoErrs := [];
    var i := |done|;
    while i > 0
      invariant 0 <= i <= |done|
      invariant Backward(steps, s, |done|) == Backward(steps, state, i)
      invariant UndoErrors(steps, s, |done|) == undoErrs + UndoErrors(steps, state, i)
      invariant calls == before + Undids(|done|)[..|done| - i]
    {
      i := i - 1;
      var o := done[i].undo(state);
      state := o.state;
      calls := calls + [Undid(i)];
      if o.err.Some? {
        undoErrs := undoErrs + [(done[i].name, o.err.value)];
      }
    }
    assert undoErrs + UndoErrors(steps, state, 0) == undoErrs;
    failure := Some(Failure(cause, undoErrs));
  }

  // ---------- what a saga guarantees ----------

  /** The state after the first n steps, had they all been run. */
  function After<S>(steps: seq<Op<S>>, s: S, n: nat): S
    requires n <= |steps|
  {
    if n == 0 then s else steps[n - 1].do(After(steps, s, n - 1)).state
  }

  /** Step j ran and succeeded, with the context live before it. */
  ghost predicate Succeeds<S>(steps: seq<Op<S>>, ctx: Cancellation, s: S, j: nat)
    requires j < |steps|
  {
    !ctx(2 * j) && steps[j].do(After(steps, s, j)).err.None?
  }

  /** Why the pass stopped with n steps complete, and in which state. */
  ghost predicate Explains<S>(steps: seq<Op<S>>, ctx: Cancellation, s: S, r: Stop<S>)
    requires r.completed <= |steps|
  {
    var n := r.completed;
    match r.cause
    case None => n == |steps| && r.state == After(steps, s, n)
    case Some(CancelledBefore(name)) =>
      n < |steps| && ctx(2 * n) && name == steps[n].name && r.state == After(steps, s, n)
    case Some(CancelledAfter(name)) =>
      n > 0 && ctx(2 * (n - 1) + 1) && name == steps[n - 1].name && r.state == After(steps, s, n)
    case Some(StepFailed(name, err)) =>
      && n < |steps| && !ctx(2 * n) && name == steps[n].name
      && steps[n].do(After(steps, s, n)) == Outcome(r.state, Some(err))
  }

  /** The forward pass stops at the first failing step or cancelled check: everything before it
      succeeded, and the cause says what happened there. */
  lemma {:induction false} StopsAtFirstFailure<S>(steps: seq<Op<S>>, ctx: Cancellation, s: S, i: nat)
    requires i <= |steps|
    ensures var r := Forward(steps, ctx, After(steps, s, i), i);
            Explains(steps, ctx, s, r) && forall j :: i <= j < r.completed ==> Succeeds(steps, ctx, s, j)
    decreases |steps| - i
  {
    if i < |steps| && !ctx(2 * i) {
      var o := steps[i].do(After(steps, s, i));
      if o.err.None? {
        assert After(steps, s, i + 1) == o.state;
        assert Succeeds(steps, ctx, s, i);
        if !ctx(2 * i + 1) {
          StopsAtFirstFailure(steps, ctx, s, i + 1);
        }
      }
    }
  }

  /** op's Undo brings any state that looks like the one its Do left back to one that looks like s. */
  ghost predicate Undoes<S(!new)>(op: Op<S>, s: S, same: (S, S) -> bool) {
    forall t {:trigger op.undo(t)} :: same(t, op.do(s).state) ==> same(op.undo(t).state, s)
  }

  lemma {:induction false} UndoingThePrefix<S(!new)>(steps: seq<Op<S>>, s: S, t: S, n: nat, same: (S, S) -> bool)
    requires n <= |steps|
    requires forall i :: 0 <= i < n ==> Undoes(steps[i], After(steps, s, i), same)
    requires same(t, After(steps, s, n))
    ensures same(Backward(steps, t, n), s)
  {
    if n > 0 {
      UndoingThePrefix(steps, s, steps[n - 1].undo(t).state, n - 1, same);
    }
  }

  /** op run in state s can be taken back as far as `same` can tell: its Undo undoes it when it succeeds,
      and it changes nothing when it fails. */
  ghost predicate TakesBack<S(!new)>(op: Op<S>, s: S, same: (S, S) -> bool) {
    var o := op.do(s);
    if o.err.None? then Undoes(op, s, same) else same(o.state, s)
  }

  /** Step i can be taken back. */
  ghost predicate Reversible<S(!new)>(steps: seq<Op<S>>, s: S, i: nat, same: (S, S) -> bool)
    requires i < |steps|
  {
    TakesBack(steps[i], After(steps, s, i), same)
  }

  /** `same` recognises the state after i steps as itself. */
  ghost predicate Unchanged<S>(steps: seq<Op<S>>, s: S, i: nat, same: (S, S) -> bool)
    requires i <= |steps|
  {
    same(After(steps, s, i), After(steps, s, i))
  }

  /** Step j's Do returned no error. */
  ghost predicate Passed<S>(steps: seq<Op<S>>, s: S, j: nat)
    requires j < |steps|
  {
    steps[j].do(After(steps, s, j)).err.None?
  }

  /** A saga that reports no error has run every step, each successfully. */
  lemma {:induction false} SuccessRunsAll<S>(steps: seq<Op<S>>, ctx: Cancellation, s: S)
    requires Error(steps, ctx, s).None?
    ensures Final(steps, ctx, s) == After(steps, s, |steps|)
    ensures forall j :: 0 <= j < |steps| ==> Passed(steps, s, j)
  {
    StopsAtFirstFailure(steps, ctx, s, 0);
    var r := Forward(steps, ctx, s, 0);
    assert Explains(steps, ctx, s, r);
    forall j | 0 <= j < |steps|
      ensures Passed(steps, s, j)
    {
      assert Succeeds(steps, ctx, s, j);
    }
  }

  /** A saga that reports an error has put back everything `same` can observe, whether a step failed
      or the context was cancelled, and even if some undos return errors. With `same` equality this
      is exact restoration. A saga that reports none has run every step. */
  lemma {:induction false} FailureRestores<S(!new)>(steps: seq<Op<S>>, ctx: Cancellation, s: S, same: (S, S) -> bool)
    requires forall i :: 0 <= i <= |steps| ==> Unchanged(steps, s, i, same)
    requires forall i :: 0 <= i < |steps| ==> Reversible(steps, s, i, same)
    ensures Error(steps, ctx, s).Some? ==> same(Final(steps, ctx, s), s)
    ensures Error(steps, ctx, s).None? ==> Final(steps, ctx, s) == After(steps, s, |steps|)
  {
    var r := Forward(steps, ctx, s, 0);
    assert Explains(steps, ctx, s, r) && forall j :: 0 <= j < r.completed ==> Succeeds(steps, ctx, s, j) by {
      StopsAtFirstFailure(steps, ctx, s, 0);
    }
    if r.cause.Some? {
      forall i | 0 <= i < r.completed
        ensures Undoes(steps[i], After(steps, s, i), same)
      {
        assert Succeeds(steps, ctx, s, i) && Reversible(steps, s, i, same);
      }
      assert Unchanged(steps, s, r.completed, same);
      if r.cause.value.StepFailed? {
        assert Reversible(steps, s, r.completed, same);
      }
      UndoingThePrefix(steps, s, r.state, r.completed, same);
    }
  }

  /** The state in which step i is undone, when steps n-1, ..., 0 are undone from s. */
  function BeforeUndo<S>(steps: seq<Op<S>>, s: S, n: nat, i: nat): S
    requires i < n <= |steps|
  {
    if i == n - 1 then s else BeforeUndo(steps, steps[n - 1].undo(s).state, n - 1, i)
  }

  /** No undo error is lost and none is invented: an entry is reported exactly when some completed
      step's Undo returned it. */
  lemma {:induction false} UndoErrorsExact<S>(steps: seq<Op<S>>, s: S, n: nat, e: (string, string))
    requires n <= |steps|
    ensures e in UndoErrors(steps, s, n) <==>
            exists i: nat :: i < n && steps[i].undo(BeforeUndo(steps, s, n, i)).err == Some(e.1) && steps[i].name == e.0
  {
    if n > 0 {
      var t := steps[n - 1].undo(s).state;
      UndoErrorsExact(steps, t, n - 1, e);
      assert forall i: nat :: i < n - 1 ==> BeforeUndo(steps, s, n, i) == BeforeUndo(steps, t, n - 1, i);
      assert BeforeUndo(steps, s, n, n - 1) == s;
    }
  }
}
