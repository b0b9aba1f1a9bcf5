/** The Go `DB` and `Tx` handles: goroutines interleaving lock operations, field
    accesses and driver calls. A `DB` uses the shared operations under its RWMutex and
    `Finish(Close)`; a `Tx` uses only exclusive ones under its mutex. The machine allows
    every mixture, so what holds of it holds of both types. */
module GoHandle {
  import opened Bytes

  datatype EndCall = Close | Commit | Rollback

  datatype Op =
    | Shared             // DB.SQL, Stats, Begin, ...: RLock, guard, one driver call
    | Exclusive          // Tx.SQL: Lock, guard, one driver call
    | Finish(call: EndCall) // DB.Close, Tx.Commit, Tx.Rollback: Lock, guard, call, free, clear
    | Finalize           // the finalizer `free`: Lock, free and clear if the handle is set

  datatype Pc =
    | Waiting(op: Op)
    | Checking(op: Op)
    | Calling(op: Op)    // the driver call is in progress
    | Freeing(op: Op)
    | ClearHandle(op: Op)
    | ClearClosed(op: Op)
    | Releasing(op: Op)
    | Done

  /** What reaches the native driver, with the handle value passed. */
  datatype Event = Call(op: Op, h: nat) | Free(h: nat)

  datatype State = State(
    readers: set<nat>, writer: Option<nat>, handle: nat, closed: bool, log: seq<Event>, routines: map<nat, Pc>)

  function Open(h: nat): State {
    State({}, None, h, false, [], map[])
  }

  predicate CanRun(s: State, g: nat) {
    && g in s.routines && s.routines[g] != Done
    && (s.routines[g].Waiting? ==>
          s.writer.None? && (s.routines[g].op.Shared? || s.readers == {}))
  }

  function At(s: State, g: nat, pc: Pc): State {
    s.(routines := s.routines[g := pc])
  }

  /** The next statement of goroutine `g`. */
  function Run(s: State, g: nat): State
    requires CanRun(s, g)
  {
    match s.routines[g]
    case Waiting(op) =>
      if op.Shared? then At(s, g, Checking(op)).(readers := s.readers + {g})
      else At(s, g, Checking(op)).(writer := Some(g))
    case Checking(Finalize) => At(s, g, if s.handle != 0 then Freeing(Finalize) else Releasing(Finalize))
    case Checking(op) =>
      if s.closed || s.handle == 0 then At(s, g, Releasing(op))
      else At(s, g, Calling(op)).(log := s.log + [Call(op, s.handle)])
    case Calling(op) => At(s, g, if op.Finish? then Freeing(op) else Releasing(op))
    case Freeing(op) => At(s, g, ClearHandle(op)).(log := s.log + [Free(s.handle)])
    case ClearHandle(op) => At(s, g, ClearClosed(op)).(handle := 0)
    case ClearClosed(op) => At(s, g, Releasing(op)).(closed := true)
    case Releasing(op) =>
      if op.Shared? then At(s, g, Done).(readers := s.readers - {g}) else At(s, g, Done).(writer := None)
  }

  ghost predicate Next(s: State, s': State) {
    || (exists g :: CanRun(s, g) && s' == Run(s, g))
    || (exists g, op :: g !in s.routines && s' == At(s, g, Waiting(op)))
  }

  ghost predicate IsRun(h: nat, run: seq<State>) {
    && |run| > 0 && run[0] == Open(h)
    && forall i, j :: 0 <= i < j < |run| && j == i + 1 ==> Next(run[i], run[j])
  }

  predicate Holds(pc: Pc) { !pc.Waiting? && pc != Done }

  /** The lock admits many readers or one writer, and its fields say who. */
  ghost predicate LockInv(s: State) {
    && (forall g :: g in s.readers <==> g in s.routines && Holds(s.routines[g]) && s.routines[g].op.Shared?)
    && (forall g :: s.writer == Some(g) <==> g in s.routines && Holds(s.routines[g]) && !s.routines[g].op.Shared?)
    && (s.writer.Some? ==> s.readers == {})
  }

  predicate IsEnd(e: Event) { e.Call? && e.op.Finish? }

  /** Every event names the open handle, nothing follows a free, and only a free may
      follow a close, commit or rollback. */
  predicate GoodLog(log: seq<Event>, h: nat) {
    && (forall i :: 0 <= i < |log| ==> log[i].h == h)
    && (forall i, j :: 0 <= i < j < |log| ==> log[i].Call? && (IsEnd(log[i]) ==> log[j].Free?))
  }

  predicate Freed(log: seq<Event>) { log != [] && log[|log| - 1].Free? }
  predicate Ended(log: seq<Event>) { log != [] && IsEnd(log[|log| - 1]) }

  function WriterPc(s: State): Pc {
    if s.writer.Some? && s.writer.value in s.routines then s.routines[s.writer.value] else Done
  }

  /** The fields agree with what the driver has been told, except inside the writer's
      own critical section. */
  predicate FieldInv(s: State, h: nat) {
    && GoodLog(s.log, h)
    && (s.handle == h || s.handle == 0)
    && (s.closed ==> s.handle == 0)
    && (s.handle == 0 ==> Freed(s.log))
    && (Freed(s.log) && s.handle == h ==> WriterPc(s).ClearHandle?)
    && (Ended(s.log) ==> WriterPc(s).Calling? || WriterPc(s).Freeing?)
  }

  /** Close, commit, rollback and the finalizer leave no handle behind. */
  predicate Ends(op: Op) { op.Finish? || op.Finalize? }

  /** What a goroutine may rely on at each point of its critical section. */
  predicate PcInv(s: State, pc: Pc, h: nat) {
    match pc
    case Calling(op) => s.handle == h && !Freed(s.log) && !op.Finalize? && (op.Finish? <==> Ended(s.log))
    case Freeing(op) => s.handle == h && !Freed(s.log) && !op.Shared?
    case ClearHandle(op) => s.handle == h && Freed(s.log) && !op.Shared?
    case ClearClosed(op) => s.handle == 0 && !op.Shared?
    case Releasing(op) => Ends(op) ==> s.handle == 0
    case _ => true
  }

  ghost predicate Inv(s: State, h: nat) {
    && h != 0 && LockInv(s) && FieldInv(s, h)
    && forall g :: g in s.routines ==> PcInv(s, s.routines[g], h)
  }

  lemma RunKeepsLock(s: State, g: nat)
    requires LockInv(s) && CanRun(s, g)
    ensures LockInv(Run(s, g))
  {
    var s' := Run(s, g);
    var pc := s.routines[g];
    if pc.Waiting? || pc.Releasing? {
      assert forall k :: k != g && k in s.routines ==> s'.routines[k] == s.routines[k];
    } else {
      assert s'.routines[g].op == pc.op && Holds(s'.routines[g]);
      assert s'.readers == s.readers && s'.writer == s.writer;
    }
  }

  lemma StartKeepsInv(s: State, g: nat, op: Op, h: nat)
    requires Inv(s, h) && g !in s.routines
    ensures Inv(At(s, g, Waiting(op)), h)
  {
    assert s.writer != Some(g);
    assert WriterPc(At(s, g, Waiting(op))) == WriterPc(s);
  }

  lemma AppendEvent(log: seq<Event>, e: Event, h: nat)
    requires GoodLog(log, h) && !Freed(log) && e.h == h && (e.Call? ==> !Ended(log))
    ensures GoodLog(log + [e], h) && (Freed(log + [e]) <==> e.Free?) && (Ended(log + [e]) <==> IsEnd(e))
  {
    if log != [] {
      var last := log[|log| - 1];
      forall i | 0 <= i < |log| - 1 ensures log[i].Call? && (IsEnd(log[i]) ==> last.Free?) {
      }
    }
  }

  /** A goroutine holding the lock exclusively is alone in the critical section. */
  lemma WriterAlone(s: State, g: nat, k: nat)
    requires LockInv(s) && g in s.routines && Holds(s.routines[g]) && !s.routines[g].op.Shared?
    requires k in s.routines && Holds(s.routines[k])
    ensures k == g && s.writer == Some(g)
  {
    assert s.writer == Some(g);
    assert k !in s.readers;
    assert s.writer == Some(k);
  }

  lemma ExclusiveKeepsPcs(s: State, g: nat, h: nat)
    requires Inv(s, h) && CanRun(s, g) && Holds(s.routines[g]) && !s.routines[g].op.Shared?
    requires PcInv(Run(s, g), Run(s, g).routines[g], h)
    ensures forall k :: k in Run(s, g).routines ==> PcInv(Run(s, g), Run(s, g).routines[k], h)
  {
    forall k | k in s.routines && k != g ensures PcInv(Run(s, g), s.routines[k], h) {
      if Holds(s.routines[k]) {
        WriterAlone(s, g, k);
      }
    }
  }

  lemma ExclusiveKeepsInv(s: State, g: nat, h: nat)
    requires Inv(s, h) && CanRun(s, g) && Holds(s.routines[g]) && !s.routines[g].op.Shared?
    ensures Inv(Run(s, g), h)
  {
    RunKeepsLock(s, g);
    var s' := Run(s, g);
    assert s.writer == Some(g) && WriterPc(s) == s.routines[g] && PcInv(s, s.routines[g], h);
    if s'.log != s.log {
      AppendEvent(s.log, s'.log[|s.log|], h);
      assert s'.log == s.log + [s'.log[|s.log|]];
    }
    ExclusiveKeepsPcs(s, g, h);
  }

  lemma SharedKeepsInv(s: State, g: nat, h: nat)
    requires Inv(s, h) && CanRun(s, g) && (s.routines[g].Waiting? || s.routines[g].op.Shared?)
    ensures Inv(Run(s, g), h)
  {
    RunKeepsLock(s, g);
    var s' := Run(s, g);
    assert PcInv(s, s.routines[g], h);
    assert Holds(s.routines[g]) ==> g in s.readers;
    assert s.writer.None?;
    if s'.log != s.log {
      AppendEvent(s.log, s'.log[|s.log|], h);
      assert s'.log == s.log + [s'.log[|s.log|]];
    }
  }

  lemma NextKeepsInv(s: State, s': State, h: nat)
    requires Inv(s, h) && Next(s, s')
    ensures Inv(s', h)
  {
    if g :| CanRun(s, g) && s' == Run(s, g) {
      if s.routines[g].Waiting? || s.routines[g].op.Shared? {
        SharedKeepsInv(s, g, h);
      } else {
        ExclusiveKeepsInv(s, g, h);
      }
    } else {
      var g, op :| g !in s.routines && s' == At(s, g, Waiting(op));
      StartKeepsInv(s, g, op, h);
    }
  }

  lemma {:induction false} RunsKeepInv(h: nat, run: seq<State>, i: nat)
    requires h != 0 && IsRun(h, run) && i < |run|
    ensures Inv(run[i], h)
  {
    if i > 0 {
      RunsKeepInv(h, run, i - 1);
      NextKeepsInv(run[i - 1], run[i], h);
    }
  }

  /** At every point of every run: the native handle is freed at most once, no call reaches
      the driver with a zero handle or after the free, at most one of close, commit and
      rollback does, and an exclusive section never overlaps a driver call. */
  lemma GoHandleSafety(h: nat, run: seq<State>, n: nat)
    requires h != 0 && IsRun(h, run) && n < |run|
    ensures var log := run[n].log;
      && (forall i :: 0 <= i < |log| ==> log[i].h == h)
      && (forall i :: 0 <= i < |log| - 1 ==> !log[i].Free?)
      && (forall i, j :: 0 <= i < j < |log| ==> !(IsEnd(log[i]) && IsEnd(log[j])))
    ensures forall g, k :: g in run[n].routines && k in run[n].routines && g != k
                        && Holds(run[n].routines[g]) && !run[n].routines[g].op.Shared?
                        ==> !Holds(run[n].routines[k])
    ensures run[n].closed ==> run[n].handle == 0 && Freed(run[n].log)
  {
    RunsKeepInv(h, run, n);
    var s := run[n];
    forall g, k | g in s.routines && k in s.routines && g != k && Holds(s.routines[g]) && !s.routines[g].op.Shared?
      ensures !Holds(s.routines[k])
    {
      if Holds(s.routines[k]) {
        WriterAlone(s, g, k);
      }
    }
  }

  // ----- what the operations achieve -----

  /** A goroutine that has the lock makes its driver call if the handle is set, with that handle,
      and none if it is not; then the handle has been freed. */
  lemma CheckDecides(h: nat, run: seq<State>, n: nat, g: nat)
    requires h != 0 && IsRun(h, run) && n < |run| && CanRun(run[n], g) && run[n].routines[g].Checking?
    requires !run[n].routines[g].op.Finalize?
    ensures var s, op := run[n], run[n].routines[g].op;
      if s.handle != 0 then Run(s, g) == At(s, g, Calling(op)).(log := s.log + [Call(op, h)])
      else Run(s, g) == At(s, g, Releasing(op)) && Freed(s.log)
  {
    RunsKeepInv(h, run, n);
  }

  /** The operation a goroutine was started with. */
  predicate Performs(s: State, g: nat, op: Op) {
    g in s.routines && s.routines[g] != Done && s.routines[g].op == op
  }

  lemma OthersStand(s: State, k: nat, g: nat)
    requires CanRun(s, k) && k != g && g in s.routines
    ensures g in Run(s, k).routines && Run(s, k).routines[g] == s.routines[g]
  {
  }

  lemma OwnStep(s: State, g: nat, op: Op)
    requires CanRun(s, g) && s.routines[g].op == op
    ensures Performs(Run(s, g), g, op) || (s.routines[g] == Releasing(op) && Run(s, g).handle == s.handle)
  {
  }

  lemma PerformsStep(s: State, s': State, g: nat, op: Op)
    requires Next(s, s') && Performs(s, g, op)
    ensures Performs(s', g, op) || (s.routines[g] == Releasing(op) && s'.handle == s.handle)
  {
    if k :| CanRun(s, k) && s' == Run(s, k) {
      if k == g {
        OwnStep(s, g, op);
      } else {
        OthersStand(s, k, g);
      }
    }
  }

  lemma ClearedStep(s: State, s': State)
    requires Next(s, s') && s.handle == 0
    ensures s'.handle == 0
  {
  }

  lemma EndsStep(s: State, s': State, g: nat, op: Op, h: nat)
    requires Inv(s, h) && Next(s, s') && Ends(op) && (Performs(s, g, op) || s.handle == 0)
    ensures Performs(s', g, op) || s'.handle == 0
  {
    if s.handle == 0 {
      ClearedStep(s, s');
    } else {
      PerformsStep(s, s', g, op);
      assert PcInv(s, s.routines[g], h);
    }
  }

  lemma {:induction false} EndsPath(h: nat, run: seq<State>, g: nat, op: Op, i: nat, j: nat)
    requires h != 0 && IsRun(h, run) && i <= j < |run| && Ends(op) && Performs(run[i], g, op)
    ensures Performs(run[j], g, op) || run[j].handle == 0
  {
    if i < j {
      EndsPath(h, run, g, op, i, j - 1);
      EndsGoesOn(h, run, g, op, j);
    }
  }

  lemma EndsGoesOn(h: nat, run: seq<State>, g: nat, op: Op, j: nat)
    requires h != 0 && IsRun(h, run) && 0 < j < |run| && Ends(op)
    requires Performs(run[j - 1], g, op) || run[j - 1].handle == 0
    ensures Performs(run[j], g, op) || run[j].handle == 0
  {
    Follows(h, run, j - 1);
    EndsStep(run[j - 1], run[j], g, op, h);
  }

  lemma Follows(h: nat, run: seq<State>, i: nat)
    requires h != 0 && IsRun(h, run) && i + 1 < |run|
    ensures Inv(run[i], h) && Next(run[i], run[i + 1])
  {
    RunsKeepInv(h, run, i);
  }

  /** When a close, commit, rollback or finalizer is done, the native handle has been freed and
      the object holds it no more. */
  lemma EndingFrees(h: nat, run: seq<State>, g: nat, op: Op, i: nat, j: nat)
    requires h != 0 && IsRun(h, run) && i <= j < |run| && Ends(op) && Performs(run[i], g, op)
    requires g in run[j].routines && run[j].routines[g] == Done
    ensures run[j].handle == 0 && Freed(run[j].log)
  {
    EndsPath(h, run, g, op, i, j);
    RunsKeepInv(h, run, j);
  }

  predicate Undecided(s: State, g: nat, op: Op) {
    g in s.routines && (s.routines[g] == Waiting(op) || s.routines[g] == Checking(op))
  }

  /** The goroutine gets past its check. */
  predicate Decides(s: State, s': State, g: nat, op: Op) {
    CanRun(s, g) && s.routines[g] == Checking(op) && s' == Run(s, g)
  }

  lemma UndecidedStep(s: State, s': State, g: nat, op: Op)
    requires Next(s, s') && Undecided(s, g, op)
    ensures Undecided(s', g, op) || Decides(s, s', g, op)
  {
    if k :| CanRun(s, k) && s' == Run(s, k) {
      if k != g {
        OthersStand(s, k, g);
      }
    }
  }

  lemma UndecidedGoesOn(h: nat, run: seq<State>, g: nat, op: Op, j: nat)
    requires h != 0 && IsRun(h, run) && 0 < j < |run| && Undecided(run[j - 1], g, op)
    ensures Undecided(run[j], g, op) || Decides(run[j - 1], run[j], g, op)
  {
    Follows(h, run, j - 1);
    UndecidedStep(run[j - 1], run[j], g, op);
  }

  lemma {:induction false} DecisionPath(h: nat, run: seq<State>, g: nat, op: Op, i: nat, j: nat) returns (k: nat)
    requires h != 0 && IsRun(h, run) && i <= j < |run| && Undecided(run[i], g, op)
    ensures i <= k <= j && if k == j then Undecided(run[k], g, op) else Decides(run[k], run[k + 1], g, op)
  {
    k := i;
    if i < j {
      k := DecisionPath(h, run, g, op, i, j - 1);
      if k == j - 1 {
        UndecidedGoesOn(h, run, g, op, j);
        k := if Undecided(run[j], g, op) then j else j - 1;
      }
    }
  }

  /** An operation that is done has made its driver call on the open handle, or found the handle
      freed: in particular a commit that was not preceded by another ending reaches the driver. */
  lemma DoneCalledOrClosed(h: nat, run: seq<State>, g: nat, op: Op, i: nat, j: nat) returns (k: nat)
    requires h != 0 && IsRun(h, run) && i <= j < |run| && !op.Finalize?
    requires g in run[i].routines && run[i].routines[g] == Waiting(op) && g in run[j].routines && run[j].routines[g] == Done
    ensures i <= k < j
    ensures run[k + 1].log == run[k].log + [Call(op, h)] || (run[k].handle == 0 && Freed(run[k].log))
  {
    k := DecisionPath(h, run, g, op, i, j);
    CheckDecides(h, run, k, g);
  }

  // ----- progress -----

  function Distance(pc: Pc): nat {
    match pc
    case Waiting(_) => 7
    case Checking(_) => 6
    case Calling(_) => 5
    case Freeing(_) => 4
    case ClearHandle(_) => 3
    case ClearClosed(_) => 2
    case Releasing(_) => 1
    case Done => 0
  }

  /** While a goroutine is not done, some goroutine can move, and each move brings one closer to
      its end and leaves the others where they are: no operation waits for ever. */
  lemma NoDeadlock(h: nat, run: seq<State>, n: nat, g: nat) returns (k: nat)
    requires h != 0 && IsRun(h, run) && n < |run| && g in run[n].routines && run[n].routines[g] != Done
    ensures CanRun(run[n], k) && MovesOn(run[n], Run(run[n], k), k)
  {
    RunsKeepInv(h, run, n);
    k := SomeCanRun(run[n], g);
    RunMovesOn(run[n], k);
  }

  ghost predicate MovesOn(s: State, s': State, k: nat) {
    k in s.routines && k in s'.routines && Distance(s'.routines[k]) < Distance(s.routines[k])
    && forall i :: i in s.routines && i != k ==> i in s'.routines && s'.routines[i] == s.routines[i]
  }

  lemma RunMovesOn(s: State, k: nat)
    requires CanRun(s, k)
    ensures MovesOn(s, Run(s, k), k)
  {
  }

  lemma SomeCanRun(s: State, g: nat) returns (k: nat)
    requires LockInv(s) && g in s.routines && s.routines[g] != Done
    ensures CanRun(s, k)
  {
    if i :| i in s.routines && Holds(s.routines[i]) {
      k := i;
    } else {
      k := g;
      LockIsFree(s);
    }
  }

  lemma LockIsFree(s: State)
    requires LockInv(s) && forall i :: i in s.routines ==> !Holds(s.routines[i])
    ensures s.readers == {} && s.writer.None?
  {
  }
}
