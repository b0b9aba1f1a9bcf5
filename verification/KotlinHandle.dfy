/** The lifetime of a native handle behind a Kotlin object: `callWithHandle` and
    `destroy` as a step machine. One step is one atomic operation, and any number of
    activities (calls and destroys, on any threads, nested or not) interleave. */
module KotlinHandle {

  const LONG_MAX := 0x7fff_ffff_ffff_ffff

  /** Where one activation of `callWithHandle` or `destroy` stands. */
  datatype Pc =
    | Loading              // call: about to read the counter
    | Loaded(c: int)       // call: read `c`, about to compareAndSet(c, c + 1)
    | InBody               // call: the native call is running on the handle
    | Leaving              // call: in `finally`, about to decrementAndGet
    | Marking              // destroy: about to compareAndSet the destroyed flag
    | Dropping             // destroy: won the flag, about to decrementAndGet
    | Cleaning             // saw the counter reach zero, about to run the cleaner
    | Done

  /** `dropped` records that the decrement matching the initial count has happened. */
  datatype State = State(
    handle: int, counter: int, destroyed: bool, dropped: bool, frees: nat, acts: map<nat, Pc>)

  function Create(handle: int): State {
    State(handle, 1, false, false, 0, map[])
  }

  function At(s: State, a: nat, pc: Pc): State {
    s.(acts := s.acts[a := pc])
  }

  predicate Active(s: State, a: nat) {
    a in s.acts && s.acts[a] != Done
  }

  /** The next atomic operation of activity `a`. */
  function Run(s: State, a: nat): State
    requires Active(s, a)
  {
    match s.acts[a]
    case Loading =>
      if s.counter == 0 || s.counter == LONG_MAX then At(s, a, Done) else At(s, a, Loaded(s.counter))
    case Loaded(c) =>
      if s.counter == c then At(s, a, InBody).(counter := c + 1) else At(s, a, Loading)
    case InBody => At(s, a, Leaving)
    case Leaving =>
      At(s, a, if s.counter - 1 == 0 then Cleaning else Done).(counter := s.counter - 1)
    case Marking =>
      if s.destroyed then At(s, a, Done) else At(s, a, Dropping).(destroyed := true)
    case Dropping =>
      At(s, a, if s.counter - 1 == 0 then Cleaning else Done).(counter := s.counter - 1, dropped := true)
    case Cleaning =>
      At(s, a, Done).(frees := if s.handle == 0 then s.frees else s.frees + 1)
  }

  predicate Starts(s: State, s': State, a: nat) {
    a !in s.acts && (s' == At(s, a, Loading) || s' == At(s, a, Marking))
  }

  predicate Steps(s: State, s': State, a: nat) {
    (Active(s, a) && s' == Run(s, a)) || Starts(s, s', a)
  }

  ghost predicate Next(s: State, s': State) {
    exists a :: Steps(s, s', a)
  }

  /** A run: any interleaving, starting from a fresh object. */
  ghost predicate IsRun(handle: int, run: seq<State>) {
    && |run| > 0 && run[0] == Create(handle)
    && forall i, j :: 0 <= i < j < |run| && j == i + 1 ==> Next(run[i], run[j])
  }

  // ----- the invariant -----

  function InFlight(acts: map<nat, Pc>): set<nat> { set a | a in acts && (acts[a] == InBody || acts[a] == Leaving) }
  function Droppers(acts: map<nat, Pc>): set<nat> { set a | a in acts && acts[a] == Dropping }
  function Cleaners(acts: map<nat, Pc>): set<nat> { set a | a in acts && acts[a] == Cleaning }

  function One(b: bool): nat { if b then 1 else 0 }

  /** The counter is the initial reference plus the calls in flight, and whoever sees it
      reach zero is the one cleaner. */
  predicate Balanced(s: State, inFlight: nat, droppers: nat, cleaners: nat) {
    && s.counter == One(!s.dropped) + inFlight
    && s.counter <= LONG_MAX
    && droppers == One(s.destroyed && !s.dropped)
    && (s.dropped ==> s.destroyed)
    && cleaners <= One(s.counter == 0)
    && s.frees == One(s.handle != 0 && s.counter == 0 && cleaners == 0)
  }

  predicate ReadsInRange(acts: map<nat, Pc>) {
    forall a :: a in acts && acts[a].Loaded? ==> 1 <= acts[a].c < LONG_MAX
  }

  predicate Inv(s: State) {
    && Balanced(s, |InFlight(s.acts)|, |Droppers(s.acts)|, |Cleaners(s.acts)|)
    && ReadsInRange(s.acts)
  }

  lemma InFlightMoves(acts: map<nat, Pc>, a: nat, pc: Pc)
    ensures |InFlight(acts[a := pc])| + One(a in acts && (acts[a] == InBody || acts[a] == Leaving))
         == |InFlight(acts)| + One(pc == InBody || pc == Leaving)
  {
    var rest := InFlight(acts) - {a};
    assert InFlight(acts) == if a in InFlight(acts) then rest + {a} else rest;
    assert InFlight(acts[a := pc]) == if pc == InBody || pc == Leaving then rest + {a} else rest;
  }

  lemma DroppersMove(acts: map<nat, Pc>, a: nat, pc: Pc)
    ensures |Droppers(acts[a := pc])| + One(a in acts && acts[a] == Dropping) == |Droppers(acts)| + One(pc == Dropping)
  {
    var rest := Droppers(acts) - {a};
    assert Droppers(acts) == if a in Droppers(acts) then rest + {a} else rest;
    assert Droppers(acts[a := pc]) == if pc == Dropping then rest + {a} else rest;
  }

  lemma CleanersMove(acts: map<nat, Pc>, a: nat, pc: Pc)
    ensures |Cleaners(acts[a := pc])| + One(a in acts && acts[a] == Cleaning) == |Cleaners(acts)| + One(pc == Cleaning)
  {
    var rest := Cleaners(acts) - {a};
    assert Cleaners(acts) == if a in Cleaners(acts) then rest + {a} else rest;
    assert Cleaners(acts[a := pc]) == if pc == Cleaning then rest + {a} else rest;
  }

  lemma AllMove(acts: map<nat, Pc>, a: nat, pc: Pc)
    ensures |InFlight(acts[a := pc])| + One(a in acts && (acts[a] == InBody || acts[a] == Leaving))
         == |InFlight(acts)| + One(pc == InBody || pc == Leaving)
    ensures |Droppers(acts[a := pc])| + One(a in acts && acts[a] == Dropping) == |Droppers(acts)| + One(pc == Dropping)
    ensures |Cleaners(acts[a := pc])| + One(a in acts && acts[a] == Cleaning) == |Cleaners(acts)| + One(pc == Cleaning)
  {
    InFlightMoves(acts, a, pc);
    DroppersMove(acts, a, pc);
    CleanersMove(acts, a, pc);
  }

  lemma RunKeepsInv(s: State, a: nat)
    requires Inv(s) && Active(s, a)
    ensures Inv(Run(s, a))
  {
    AllMove(s.acts, a, Run(s, a).acts[a]);
  }

  lemma StartKeepsInv(s: State, s': State, a: nat)
    requires Inv(s) && Starts(s, s', a)
    ensures Inv(s')
  {
    AllMove(s.acts, a, s'.acts[a]);
  }

  lemma NextKeepsInv(s: State, s': State)
    requires Inv(s) && Next(s, s')
    ensures Inv(s') && s'.handle == s.handle
    ensures s.counter == 0 ==> s'.counter == 0
  {
    var a :| Steps(s, s', a);
    if Active(s, a) && s' == Run(s, a) {
      RunKeepsInv(s, a);
      AllMove(s.acts, a, Done);
    } else {
      StartKeepsInv(s, s', a);
    }
  }

  // ----- what holds over whole runs -----

  lemma {:induction false} RunsKeepInv(handle: int, run: seq<State>, i: nat)
    requires IsRun(handle, run) && i < |run|
    ensures Inv(run[i]) && run[i].handle == handle
  {
    if i == 0 {
      assert InFlight(map[]) == {} && Droppers(map[]) == {} && Cleaners(map[]) == {};
    } else {
      RunsKeepInv(handle, run, i - 1);
      NextKeepsInv(run[i - 1], run[i]);
    }
  }

  predicate AllDone(s: State) {
    forall a :: a in s.acts ==> s.acts[a] == Done
  }

  lemma AllDoneCounts(s: State)
    requires AllDone(s)
    ensures InFlight(s.acts) == {} && Droppers(s.acts) == {} && Cleaners(s.acts) == {}
  {
  }

  /** At every point of every run: the counter is exact, the handle is freed at most once,
      never while a call is using it, and a destroyed idle object has been freed. */
  lemma HandleSafety(handle: int, run: seq<State>, i: nat)
    requires IsRun(handle, run) && i < |run|
    ensures var s := run[i];
      && s.counter == (if s.dropped then 0 else 1) + |InFlight(s.acts)|
      && s.frees <= 1
      && (s.frees == 1 ==> s.counter == 0 && s.destroyed && forall a :: a in s.acts ==> s.acts[a] != InBody)
      && (handle != 0 && s.destroyed && AllDone(s) ==> s.frees == 1)
      && (!s.destroyed ==> s.counter >= 1 && s.frees == 0)
  {
    RunsKeepInv(handle, run, i);
    var s := run[i];
    if AllDone(s) {
      AllDoneCounts(s);
    }
    if s.counter == 0 {
      assert InFlight(s.acts) == {};
      forall a | a in s.acts ensures s.acts[a] != InBody {
        assert a !in InFlight(s.acts);
      }
    }
  }

  /** Zero is final: no retry loop revives the counter. */
  lemma {:induction false} ZeroIsFinal(handle: int, run: seq<State>, i: nat, j: nat)
    requires IsRun(handle, run) && i <= j < |run|
    requires run[i].counter == 0
    ensures run[j].counter == 0
  {
    if i < j {
      ZeroIsFinal(handle, run, i, j - 1);
      ZeroStays(handle, run, j);
    }
  }

  lemma ZeroStays(handle: int, run: seq<State>, j: nat)
    requires IsRun(handle, run) && 0 < j < |run| && run[j - 1].counter == 0
    ensures run[j].counter == 0
  {
    RunsKeepInv(handle, run, j - 1);
    NextKeepsInv(run[j - 1], run[j]);
  }

  /** Over a whole run at most one decrement observes zero. */
  lemma OneDecrementSeesZero(handle: int, run: seq<State>, i: nat, j: nat)
    requires IsRun(handle, run) && 0 < i < |run| && 0 < j < |run|
    requires run[i - 1].counter != 0 && run[i].counter == 0
    requires run[j - 1].counter != 0 && run[j].counter == 0
    ensures i == j
  {
    if i < j {
      ZeroIsFinal(handle, run, i, j - 1);
    } else if j < i {
      ZeroIsFinal(handle, run, j, i - 1);
    }
  }

  // ----- what a call and a destroy achieve -----

  predicate Trying(s: State, a: nat) {
    a in s.acts && (s.acts[a] == Loading || s.acts[a].Loaded?)
  }

  predicate Entered(s: State, a: nat) {
    a in s.acts && s.acts[a] == InBody
  }

  /** Activity `a` is about to read a counter that refuses it. */
  predicate RefusedAt(s: State, a: nat) {
    a in s.acts && s.acts[a] == Loading && (s.counter == 0 || s.counter == LONG_MAX)
  }

  lemma TryingStep(s: State, s': State, a: nat)
    requires Next(s, s') && Trying(s, a)
    ensures Trying(s', a) || Entered(s', a) || RefusedAt(s, a)
  {
  }

  lemma TryingGoesOn(handle: int, run: seq<State>, a: nat, j: nat)
    requires IsRun(handle, run) && 0 < j < |run| && Trying(run[j - 1], a)
    ensures Trying(run[j], a) || Entered(run[j], a) || RefusedAt(run[j - 1], a)
  {
    TryingStep(run[j - 1], run[j], a);
  }

  /** A call goes on trying until it enters its body or is refused. */
  lemma {:induction false} CallPath(handle: int, run: seq<State>, a: nat, i: nat, j: nat) returns (k: nat)
    requires IsRun(handle, run) && i <= j < |run| && Trying(run[i], a)
    ensures i <= k <= j && ((k == j && Trying(run[k], a)) || Entered(run[k], a) || RefusedAt(run[k], a))
  {
    k := i;
    if i < j {
      k := CallPath(handle, run, a, i, j - 1);
      if !Entered(run[k], a) && !RefusedAt(run[k], a) {
        TryingGoesOn(handle, run, a, j);
        k := j;
      }
    }
  }

  /** A call that ends without having run its body was refused, and that happens only on an object
      that has been destroyed or at the limit of the counter. */
  lemma OnlyDestroyedRefuses(handle: int, run: seq<State>, a: nat, i: nat, j: nat) returns (k: nat)
    requires IsRun(handle, run) && i <= j < |run| && Trying(run[i], a)
    requires a in run[j].acts && run[j].acts[a] == Done && forall n :: i <= n <= j ==> !Entered(run[n], a)
    ensures i <= k <= j && RefusedAt(run[k], a) && (run[k].destroyed || run[k].counter == LONG_MAX)
  {
    k := CallPath(handle, run, a, i, j);
    HandleSafety(handle, run, k);
  }

  /** A call reading the counter of a live object below its limit is in its body two steps of its
      own later, if nobody comes between, and holds the counter one higher. */
  lemma LiveCallRuns(handle: int, run: seq<State>, a: nat, i: nat)
    requires IsRun(handle, run) && i < |run| && a in run[i].acts && run[i].acts[a] == Loading
    requires !run[i].destroyed && run[i].counter < LONG_MAX
    ensures var next := Run(run[i], a);
      Active(next, a) && Run(next, a).acts[a] == InBody && Run(next, a).counter == run[i].counter + 1
  {
    HandleSafety(handle, run, i);
  }

  /** Reading the counter ends the call exactly if it is zero or at its limit. */
  lemma RefusedExactly(s: State, a: nat)
    requires a in s.acts && s.acts[a] == Loading
    ensures Run(s, a).acts[a] == Done <==> s.counter == 0 || s.counter == LONG_MAX
  {
  }

  /** A destroy that has not looked at the flag yet, or the flag set. */
  predicate Destroying(s: State, a: nat) {
    a in s.acts && (s.acts[a] == Marking || s.destroyed)
  }

  lemma DestroyingStep(s: State, s': State, a: nat)
    requires Next(s, s') && Destroying(s, a)
    ensures Destroying(s', a) && (s.destroyed ==> s'.destroyed)
  {
  }

  /** Once a destroy has looked at the flag the object is destroyed, and stays so. */
  lemma {:induction false} DestroyedInTheEnd(handle: int, run: seq<State>, a: nat, i: nat, j: nat)
    requires IsRun(handle, run) && i <= j < |run| && Destroying(run[i], a)
    ensures Destroying(run[j], a) && (run[j].acts[a] != Marking ==> run[j].destroyed)
  {
    if i < j {
      DestroyedInTheEnd(handle, run, a, i, j - 1);
      assert Next(run[j - 1], run[j]);
      DestroyingStep(run[j - 1], run[j], a);
    }
  }

  // ----- progress: without new activities every schedule drains -----

  /** What is summed over the activities to measure how far they are from the end. */
  datatype Weight =
    | Changes             // counter or flag changes still possible
    | Stale(counter: int) // calls whose compareAndSet is bound to fail
    | Distance            // steps left if nothing interferes

  function Weigh(w: Weight, pc: Pc): nat {
    match w
    case Changes =>
      (match pc
       case Loading => 2
       case Loaded(_) => 2
       case InBody => 1
       case Leaving => 1
       case Marking => 1
       case Dropping => 1
       case _ => 0)
    case Stale(counter) => One(pc.Loaded? && pc.c != counter)
    case Distance =>
      (match pc
       case Loading => 2
       case InBody => 2
       case Marking => 2
       case Done => 0
       case _ => 1)
  }

  ghost function Sum(acts: map<nat, Pc>, w: Weight): nat
    decreases |acts|
  {
    if acts == map[] then 0
    else
      var a :| a in acts;
      Weigh(w, acts[a]) + Sum(acts - {a}, w)
  }

  lemma {:induction false} SumRemove(acts: map<nat, Pc>, a: nat, w: Weight)
    requires a in acts
    ensures Sum(acts, w) == Weigh(w, acts[a]) + Sum(acts - {a}, w)
    decreases |acts|
  {
    var b :| b in acts && Sum(acts, w) == Weigh(w, acts[b]) + Sum(acts - {b}, w);
    if a != b {
      SumRemove(acts - {b}, a, w);
      SumRemove(acts - {a}, b, w);
      assert acts - {b} - {a} == acts - {a} - {b};
    }
  }

  lemma SumUpdate(acts: map<nat, Pc>, a: nat, pc: Pc, w: Weight)
    requires a in acts
    ensures Sum(acts[a := pc], w) == Sum(acts, w) - Weigh(w, acts[a]) + Weigh(w, pc)
  {
    SumRemove(acts, a, w);
    SumRemove(acts[a := pc], a, w);
    assert acts[a := pc] - {a} == acts - {a};
  }

  predicate Progress(c: nat, c': nat, t: nat, t': nat, d: nat, d': nat) {
    c' < c || (c' == c && (t' < t || (t' == t && d' < d)))
  }

  /** Each step spends a change, or retires a stale read, or moves an activity forward. */
  lemma RunProgresses(s: State, a: nat)
    requires Active(s, a)
    ensures var s' := Run(s, a);
      Progress(Sum(s.acts, Changes), Sum(s'.acts, Changes),
               Sum(s.acts, Stale(s.counter)), Sum(s'.acts, Stale(s'.counter)),
               Sum(s.acts, Distance), Sum(s'.acts, Distance))
  {
    var s' := Run(s, a);
    var pc, pc' := s.acts[a], s'.acts[a];
    SumUpdate(s.acts, a, pc', Changes);
    if Weigh(Changes, pc') == Weigh(Changes, pc) {
      assert s'.counter == s.counter;
      SumUpdate(s.acts, a, pc', Stale(s.counter));
      SumUpdate(s.acts, a, pc', Distance);
    }
  }

  /** A scheduler: always picks an activity that can move. */
  ghost predicate Schedules(pick: State -> nat) {
    forall s: State :: !AllDone(s) ==> Active(s, pick(s))
  }

  /** Running the activities already started, in the order `pick` chooses, to the end. */
  ghost function Drain(s: State, pick: State -> nat): State
    requires Schedules(pick)
    decreases Sum(s.acts, Changes), Sum(s.acts, Stale(s.counter)), Sum(s.acts, Distance)
  {
    if AllDone(s) then s
    else
      RunProgresses(s, pick(s));
      Drain(Run(s, pick(s)), pick)
  }

  /** Under every scheduler the started activities finish, and if the object was destroyed
      it ends up freed exactly once. */
  lemma {:induction false} DestroyedIsEventuallyFreed(s: State, pick: State -> nat)
    requires Inv(s) && Schedules(pick)
    ensures var end := Drain(s, pick);
      && Inv(end) && AllDone(end) && end.handle == s.handle
      && (s.destroyed ==> end.counter == 0 && end.frees == (if s.handle == 0 then 0 else 1))
    decreases Sum(s.acts, Changes), Sum(s.acts, Stale(s.counter)), Sum(s.acts, Distance)
  {
    if AllDone(s) {
      AllDoneCounts(s);
    } else {
      var a := pick(s);
      RunProgresses(s, a);
      RunKeepsInv(s, a);
      DestroyedIsEventuallyFreed(Run(s, a), pick);
    }
  }
}
