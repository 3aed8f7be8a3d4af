/** Running a fixed sequence of commands where the first failure that
    matters stops the sequence, optionally after cleanup commands whose
    own outcome is ignored: the error-handling shape shared by the image
    pullers and the provisioning steps. Command outcomes are an input:
    `ok(k)` says whether the k-th command issued succeeds. */
module Steps {
  import opened Wrappers
  import opened Exec

  /** One command of a sequence: whether its failure ends the sequence,
      the cleanup commands issued (outcomes ignored) when it does, and the
      error then returned. */
  datatype Step<E> = Step(cmd: Command, critical: bool, onFail: seq<Command>, err: E)

  function Commands<E>(steps: seq<Step<E>>): (r: seq<Command>)
    ensures |r| == |steps| && forall k :: 0 <= k < |steps| ==> r[k] == steps[k].cmd
  {
    seq(|steps|, k requires 0 <= k < |steps| => steps[k].cmd)
  }

  /** Step `k` lets the sequence go on: its failure is ignored or it
      succeeds (`ok(k)` is the outcome of the runner's k-th invocation; a
      step's index is its invocation number, since cleanup commands run
      only after the last step). */
  predicate Passes<E>(steps: seq<Step<E>>, ok: nat -> bool, k: nat)
    requires k < |steps|
  {
    !steps[k].critical || ok(k)
  }

  /** The index of the first step that stops the sequence, or |steps|. */
  function FirstStop<E>(steps: seq<Step<E>>, ok: nat -> bool, i: nat): (n: nat)
    requires i <= |steps|
    ensures i <= n <= |steps|
    ensures forall k :: i <= k < n ==> Passes(steps, ok, k)
    ensures n < |steps| ==> !Passes(steps, ok, n)
    decreases |steps| - i
  {
    if i == |steps| then i
    else if !Passes(steps, ok, i) then i
    else FirstStop(steps, ok, i + 1)
  }

  /** The commands issued and the error returned. */
  datatype Outcome<E> = Outcome(commands: seq<Command>, err: Option<E>)

  /** Runs `steps[i..]` in order: the first critical failure issues its
      cleanup and ends the sequence with its error. */
  function RunSteps<E>(steps: seq<Step<E>>, ok: nat -> bool, i: nat): (r: Outcome<E>)
    requires i <= |steps|
    ensures var n := FirstStop(steps, ok, i);
      if n == |steps| then r == Outcome(Commands(steps[i..]), None)
      else r == Outcome(Commands(steps[i..n + 1]) + steps[n].onFail, Some(steps[n].err))
    decreases |steps| - i
  {
    if i == |steps| then Outcome([], None)
    else if !Passes(steps, ok, i) then
      CommandsCons(steps, i, i + 1);
      Outcome([steps[i].cmd] + steps[i].onFail, Some(steps[i].err))
    else
      var rest := RunSteps(steps, ok, i + 1);
      PassingStep(steps, ok, i, rest);
      Outcome([steps[i].cmd] + rest.commands, rest.err)
  }

  /** The outcome of the steps after a passing step `i`, with step `i`'s
      command in front, is the outcome of the steps from `i`. */
  lemma PassingStep<E>(steps: seq<Step<E>>, ok: nat -> bool, i: nat, rest: Outcome<E>)
    requires i < |steps| && Passes(steps, ok, i)
    requires var n := FirstStop(steps, ok, i + 1);
      if n == |steps| then rest == Outcome(Commands(steps[i + 1..]), None)
      else rest == Outcome(Commands(steps[i + 1..n + 1]) + steps[n].onFail, Some(steps[n].err))
    ensures var n := FirstStop(steps, ok, i);
      var r := Outcome([steps[i].cmd] + rest.commands, rest.err);
      if n == |steps| then r == Outcome(Commands(steps[i..]), None)
      else r == Outcome(Commands(steps[i..n + 1]) + steps[n].onFail, Some(steps[n].err))
  {
    var n := FirstStop(steps, ok, i + 1);
    assert FirstStop(steps, ok, i) == n;
    if n == |steps| {
      CommandsCons(steps, i, n);
    } else {
      CommandsCons(steps, i, n + 1);
      assert [steps[i].cmd] + (Commands(steps[i + 1..n + 1]) + steps[n].onFail)
        == Commands(steps[i..n + 1]) + steps[n].onFail;
    }
  }

  lemma CommandsCons<E>(steps: seq<Step<E>>, i: nat, j: nat)
    requires i < j <= |steps|
    ensures Commands(steps[i..j]) == [steps[i].cmd] + Commands(steps[i + 1..j])
    ensures j == |steps| ==> Commands(steps[i..]) == [steps[i].cmd] + Commands(steps[i + 1..])
  {
    assert steps[i..j] == [steps[i]] + steps[i + 1..j];
  }

  /** FirstStop is the index whose defining facts hold. */
  lemma {:induction false} FirstStopIs<E>(steps: seq<Step<E>>, ok: nat -> bool, i: nat, n: nat)
    requires i <= n <= |steps|
    requires forall k :: i <= k < n ==> Passes(steps, ok, k)
    requires n < |steps| ==> !Passes(steps, ok, n)
    ensures FirstStop(steps, ok, i) == n
    decreases n - i
  {
    if i < n {
      FirstStopIs(steps, ok, i + 1, n);
    }
  }

  /** The commands of a prefix of the steps are a prefix of the commands. */
  lemma CommandsPrefix<E>(steps: seq<Step<E>>, n: nat)
    requires n <= |steps|
    ensures Commands(steps[0..n]) == Commands(steps)[..n]
  {
  }

  /** A whole sequence stopped by step `n`, or completed when `n` is
      |steps|. */
  lemma RunStepsUpTo<E>(steps: seq<Step<E>>, ok: nat -> bool, n: nat)
    requires n <= |steps|
    requires forall k :: 0 <= k < n ==> Passes(steps, ok, k)
    requires n < |steps| ==> !Passes(steps, ok, n)
    ensures n < |steps| ==>
      RunSteps(steps, ok, 0) == Outcome(Commands(steps)[..n + 1] + steps[n].onFail, Some(steps[n].err))
    ensures n == |steps| ==> RunSteps(steps, ok, 0) == Outcome(Commands(steps), None)
  {
    FirstStopIs(steps, ok, 0, n);
    if n < |steps| {
      CommandsPrefix(steps, n + 1);
    } else {
      assert steps[0..] == steps;
    }
  }

  /** Outcomes of steps whose failure is ignored do not affect where the
      sequence stops. */
  lemma {:induction false} FirstStopAgrees<E>(steps: seq<Step<E>>, ok: nat -> bool, ok': nat -> bool, i: nat)
    requires i <= |steps|
    requires forall k :: 0 <= k < |steps| && steps[k].critical ==> ok(k) == ok'(k)
    ensures FirstStop(steps, ok, i) == FirstStop(steps, ok', i)
    decreases |steps| - i
  {
    if i < |steps| {
      FirstStopAgrees(steps, ok, ok', i + 1);
    }
  }

  /** A run of one critical step: its command, and its error exactly when
      it fails. */
  lemma SingleStep<E>(c: Command, err: E, ok: nat -> bool)
    ensures RunSteps([Step(c, true, [], err)], ok, 0) == Outcome([c], if ok(0) then None else Some(err))
  {
    var steps := [Step(c, true, [], err)];
    assert Commands(steps) == [c];
    if ok(0) {
      RunStepsUpTo(steps, ok, 1);
    } else {
      RunStepsUpTo(steps, ok, 0);
      assert Commands(steps)[..1] == [c];
    }
  }
}
