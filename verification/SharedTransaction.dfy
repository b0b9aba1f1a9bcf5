/** One transaction object used by several threads. An operation runs on the worker under its
    lock and, if it fails, sets the abort flag after releasing it; an ending takes the worker
    away first and then reads the flag. */
module SharedTransaction {
  datatype Pc =
    | Checking              // an operation, about to look at the flag
    | Running               // about to run on the worker
    | Noting                // it failed and has left the worker; about to set the flag
    | Taking(commit: bool)  // an ending, about to take the worker
    | Reading(commit: bool) // it has the worker; about to read the flag and finish
    | Done

  datatype Ending = Open | Committed | RolledBack

  /** `failed` are the calls whose operation failed half way, `noted` those that have set the
      flag, and `late` those that had not when the transaction was decided. */
  datatype State = State(
    worker: bool, aborted: bool, ending: Ending, calls: map<nat, Pc>,
    failed: set<nat>, noted: set<nat>, late: set<nat>)

  function Begin(): State {
    State(true, false, Open, map[], {}, {}, {})
  }

  function At(s: State, c: nat, pc: Pc): State {
    s.(calls := s.calls[c := pc])
  }

  /** The next step of call `c`; `fails` says how the operation or the commit itself goes. */
  function Step(s: State, c: nat, fails: bool): State
    requires c in s.calls
  {
    match s.calls[c]
    case Checking => At(s, c, if s.aborted then Done else Running)
    case Running =>
      if s.worker && fails then At(s, c, Noting).(failed := s.failed + {c}) else At(s, c, Done)
    case Noting => At(s, c, Done).(aborted := true, noted := s.noted + {c})
    case Taking(commit) =>
      if s.worker then At(s, c, Reading(commit)).(worker := false) else At(s, c, Done)
    case Reading(commit) =>
      At(s, c, Done).(ending := if commit && !s.aborted && !fails then Committed else RolledBack,
                      late := s.failed - s.noted)
    case Done => s
  }

  predicate Starts(pc: Pc) { pc.Checking? || pc.Taking? }

  ghost predicate Next(s: State, s': State) {
    || (exists c, fails :: c in s.calls && s' == Step(s, c, fails))
    || (exists c, pc :: c !in s.calls && Starts(pc) && s' == At(s, c, pc))
  }

  ghost predicate IsRun(run: seq<State>) {
    && |run| > 0 && run[0] == Begin()
    && forall i, j :: 0 <= i < j < |run| && j == i + 1 ==> Next(run[i], run[j])
  }

  // ---- what every step keeps -----------------------------------------------

  /** Exactly the failed calls that have not set the flag are about to. */
  ghost predicate FlagInv(s: State) {
    && s.noted <= s.failed && (s.aborted <==> s.noted != {})
    && (forall c :: c in s.calls && s.calls[c].Noting? <==> c in s.failed && c !in s.noted)
    && forall c :: c in s.noted ==> c in s.calls && s.calls[c].Done?
  }

  /** At most one ending has the worker, and nothing is decided before it. */
  ghost predicate EndInv(s: State) {
    && (s.ending != Open ==> !s.worker)
    && (forall c :: c in s.calls && s.calls[c].Reading? ==> !s.worker && s.ending == Open)
    && (forall c, d :: c in s.calls && d in s.calls && s.calls[c].Reading? && s.calls[d].Reading? ==> c == d)
  }

  /** A committed transaction holds only failures that came too late to stop it. */
  ghost predicate Inv(s: State) {
    FlagInv(s) && EndInv(s) && (s.ending == Committed ==> s.failed == s.late)
  }

  lemma StepKeepsFlag(s: State, c: nat, fails: bool)
    requires FlagInv(s) && c in s.calls
    ensures FlagInv(Step(s, c, fails))
  {
  }

  lemma StepKeepsEnd(s: State, c: nat, fails: bool)
    requires EndInv(s) && c in s.calls
    ensures EndInv(Step(s, c, fails))
  {
  }

  lemma StepKeepsInv(s: State, c: nat, fails: bool)
    requires Inv(s) && c in s.calls
    ensures Inv(Step(s, c, fails))
  {
    StepKeepsFlag(s, c, fails);
    StepKeepsEnd(s, c, fails);
  }

  lemma NextKeepsInv(s: State, s': State)
    requires Inv(s) && Next(s, s')
    ensures Inv(s')
  {
    if c, fails :| c in s.calls && s' == Step(s, c, fails) {
      StepKeepsInv(s, c, fails);
    }
  }

  lemma {:induction false} RunsKeepInv(run: seq<State>, i: nat)
    requires IsRun(run) && i < |run|
    ensures Inv(run[i])
  {
    if i > 0 {
      RunsKeepInv(run, i - 1);
      NextKeepsInv(run[i - 1], run[i]);
    }
  }

  lemma Follows(run: seq<State>, i: nat)
    requires IsRun(run) && i + 1 < |run|
    ensures EndInv(run[i]) && Next(run[i], run[i + 1])
  {
    RunsKeepInv(run, i);
  }

  // ---- when a commit keeps a failed operation's writes ---------------------

  /** The ending that has the worker commits exactly if it is to commit, the commit itself goes well,
      and every call that has failed is still on its way to the flag: one that got there is enough to
      stop it. Every other ending rolls back. */
  lemma CommitExactly(s: State, c: nat, fails: bool)
    requires Inv(s) && c in s.calls && s.calls[c].Reading?
    ensures Step(s, c, fails).ending == Committed <==>
      s.calls[c].commit && !fails && forall d :: d in s.failed ==> d in s.calls && s.calls[d].Noting?
    ensures Step(s, c, fails).ending != Committed ==> Step(s, c, fails).ending == RolledBack
  {
    if s.aborted {
      var d :| d in s.noted;
      assert s.calls[d].Done?;
    }
  }

  /** An operation runs exactly if the flag is not set when it looks and the worker is still there,
      and the first ending takes the worker. */
  lemma StepsExactly(s: State, c: nat, fails: bool)
    requires Inv(s) && c in s.calls
    ensures s.calls[c].Checking? ==> (Step(s, c, fails).calls[c].Running? <==> s.noted == {})
    ensures s.calls[c].Running? ==> (c in Step(s, c, fails).failed <==> fails && s.worker)
    ensures s.calls[c].Noting? ==> Step(s, c, fails).aborted && c in Step(s, c, fails).noted
    ensures s.calls[c].Taking? ==> (Step(s, c, fails).calls[c] == Reading(s.calls[c].commit) <==> s.worker) && !Step(s, c, fails).worker
  {
    assert s.calls[c].Running? ==> c !in s.failed;
  }

  /** Over every run: what a committed transaction holds of failed operations failed too late
      for the commit to see, and the calls concerned have by now set the flag or are about to. */
  lemma CommittedFailuresWereLate(run: seq<State>, i: nat)
    requires IsRun(run) && i < |run| && run[i].ending == Committed
    ensures run[i].failed == run[i].late
    ensures forall d :: d in run[i].late ==> d in run[i].calls && (run[i].calls[d].Noting? || run[i].calls[d].Done?)
  {
    RunsKeepInv(run, i);
  }

  /** No operation runs any more, and a failure already seen cannot be committed. */
  ghost predicate Sealed(s: State) {
    !s.worker && (s.failed == {} || (s.aborted && s.ending != Committed))
  }

  lemma SealedStays(s: State, s': State)
    requires Sealed(s) && Next(s, s')
    ensures Sealed(s')
  {
  }

  /** If no failed call is on its way to the flag when an ending takes the worker, then a commit
      is all or nothing: it never keeps the writes of an operation that failed. */
  lemma {:induction false} QuietCommitIsSafe(run: seq<State>, i: nat, c: nat, j: nat)
    requires IsRun(run) && i + 1 <= j < |run|
    requires c in run[i].calls && run[i].calls[c].Taking? && run[i].worker && run[i + 1] == Step(run[i], c, false)
    requires forall d :: d in run[i].calls ==> !run[i].calls[d].Noting?
    ensures Sealed(run[j]) && (run[j].ending == Committed ==> run[j].failed == {})
  {
    if j == i + 1 {
      RunsKeepInv(run, i);
      NothingPending(run[i]);
    } else {
      QuietCommitIsSafe(run, i, c, j - 1);
      SealedStays(run[j - 1], run[j]);
    }
  }

  lemma NothingPending(s: State)
    requires Inv(s) && forall d :: d in s.calls ==> !s.calls[d].Noting?
    ensures s.failed == {} || s.aborted
  {
    if d :| d in s.failed {
      assert d in s.noted;
    }
  }

  /** The first ending to take the worker decides, once and for all. */
  lemma {:induction false} EndingIsFinal(run: seq<State>, i: nat, j: nat)
    requires IsRun(run) && i <= j < |run| && run[i].ending != Open
    ensures run[j].ending == run[i].ending
  {
    if i < j {
      EndingIsFinal(run, i, j - 1);
      DecidedStays(run, j);
    }
  }

  lemma DecidedStays(run: seq<State>, j: nat)
    requires IsRun(run) && 0 < j < |run| && run[j - 1].ending != Open
    ensures run[j].ending == run[j - 1].ending
  {
    Follows(run, j - 1);
    EndingStays(run[j - 1], run[j]);
  }

  lemma EndingStays(s: State, s': State)
    requires EndInv(s) && Next(s, s') && s.ending != Open
    ensures s'.ending == s.ending
  {
  }

  /** The race: an operation fails and leaves the worker, another thread commits, and only then
      is the flag set. */
  lemma FailureIsCommitted() returns (run: seq<State>)
    ensures IsRun(run) && run[|run| - 1].ending == Committed
    ensures run[|run| - 1].failed == {0} && run[|run| - 1].aborted
  {
    var s0 := Begin();
    var s1 := At(s0, 0, Checking);
    var s2 := Step(s1, 0, false);
    var s3 := Step(s2, 0, true);
    var s4 := At(s3, 1, Taking(true));
    var s5 := Step(s4, 1, false);
    var s6 := Step(s5, 1, false);
    var s7 := Step(s6, 0, false);
    assert Starts(Checking) && Starts(Taking(true));
    run := [s0, s1, s2, s3, s4, s5, s6, s7];
  }
}
