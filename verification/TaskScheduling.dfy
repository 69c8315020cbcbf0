/** Task statuses and run-queue membership on any number of CPUs.

Each step is one critical section of the source: an access to a task's status under its
own lock, an access to the scheduler, or a change to a CPU's private `current` slot.
Steps of all CPUs and of all wakers interleave arbitrarily. The scheduler is a bag, and a
task is linked exactly when it is in the bag.
 */
module TaskScheduling {
  import opened Wrappers

  type Task = nat
  type Cpu = nat

  datatype Status =
    | Runnable
    | Ready(cpu: Cpu)
    | Running(cpu: Cpu)
    | Sleeping
    | ReadyToSleep(cpu: Cpu)
    | Exited

  /** How far a CPU is in `switch_to`. */
  datatype CpuPhase =
    | Settled                       // outside `switch_to`
    | Picked(next: Task)            // about to switch to `next`
    | SwitchedIn(prev: Option<Task>) // `current` replaced, the replaced task not yet dealt with
    | Requeueing(task: Task)         // the replaced task is runnable again and about to be enqueued

  datatype State = State(
    status: map<Task, Status>,
    current: map<Cpu, Task>,
    phase: map<Cpu, CpuPhase>,
    queue: multiset<Task>,
    woken: multiset<Task>,          // `wakeup` returned true, `add_task` not yet called
    unstarted: set<Task>              // built, not yet run
  )

  const INIT: State := State(map[], map[], map[], multiset{}, multiset{}, {})

  datatype Step =
    | Build(t: Task)
    | AddFresh(t: Task)
    | YieldTo(c: Cpu, t: Task)
    | Pick(c: Cpu, t: Task)
    | SwitchIn(c: Cpu)
    | SwitchOut(c: Cpu)
    | Requeue(c: Cpu)
    | Sleep(c: Cpu)
    | Exit(c: Cpu)
    | Wakeup(t: Task)
    | AddWoken(t: Task)

  function PhaseOf(s: State, c: Cpu): CpuPhase {
    if c in s.phase then s.phase[c] else Settled
  }

  predicate Linked(s: State, t: Task) { t in s.queue }

  predicate IsRunning(s: State, t: Task) { t in s.status && s.status[t].Running? }

  predicate HasStatus(s: State, t: Task, st: Status) { t in s.status && s.status[t] == st }

  /** Whether the program can be at the point where it takes this step. A task is run, by
      `add_task` or `yield_to`, once after it is built and once after each effective wakeup. */
  predicate Enabled(s: State, step: Step) {
    match step
    case Build(t) => t !in s.status
    case AddFresh(t) => t in s.unstarted
    case YieldTo(c, t) => PhaseOf(s, c) == Settled && t in s.unstarted
    case Pick(c, t) => PhaseOf(s, c) == Settled && t in s.queue
    case SwitchIn(c) => PhaseOf(s, c).Picked?
    case SwitchOut(c) => PhaseOf(s, c).SwitchedIn?
    case Requeue(c) => PhaseOf(s, c).Requeueing?
    case Sleep(c) => PhaseOf(s, c) == Settled && c in s.current
    case Exit(c) => PhaseOf(s, c) == Settled && c in s.current
    case Wakeup(t) => t in s.status
    case AddWoken(t) => t in s.woken
  }

  predicate CanLeave(s: State, c: Cpu, t: Task) {
    t in s.status && s.status[t] in {Running(c), ReadyToSleep(c), Exited}
  }

  /** Whether one of the source's assertions fires in this step. */
  predicate Panics(s: State, step: Step)
    requires Enabled(s, step)
  {
    match step
    case Build(_) => false
    case AddFresh(t) => !HasStatus(s, t, Runnable)
    case YieldTo(_, _) => false
    case Pick(c, t) => t in s.queue - multiset{t}
    case SwitchIn(c) =>
      var next := PhaseOf(s, c).next;
      Linked(s, next) || (c in s.current && s.current[c] == next) || !HasStatus(s, next, Runnable)
    case SwitchOut(c) =>
      var prev := PhaseOf(s, c).prev;
      prev.Some? && (Linked(s, prev.value) || !CanLeave(s, c, prev.value))
    case Requeue(_) => false
    case Sleep(c) => !IsRunning(s, s.current[c])
    case Exit(_) => false
    case Wakeup(_) => false
    case AddWoken(t) => !HasStatus(s, t, Runnable)
  }

  function Next(s: State, step: Step): State
    requires Enabled(s, step) && !Panics(s, step)
  {
    match step
    case Build(t) => s.(status := s.status[t := Runnable], unstarted := s.unstarted + {t})
    case AddFresh(t) => s.(unstarted := s.unstarted - {t}, queue := s.queue + multiset{t})
    case YieldTo(c, t) => s.(unstarted := s.unstarted - {t}, phase := s.phase[c := Picked(t)])
    case Pick(c, t) => s.(queue := s.queue - multiset{t}, phase := s.phase[c := Picked(t)])
    case SwitchIn(c) =>
      var next := PhaseOf(s, c).next;
      var prev := if c in s.current then Some(s.current[c]) else None;
      s.(status := s.status[next := Running(c)], current := s.current[c := next],
         phase := s.phase[c := SwitchedIn(prev)])
    case SwitchOut(c) =>
      var prev := PhaseOf(s, c).prev;
      if prev.None? then s.(phase := s.phase[c := Settled])
      else
        var t := prev.value;
        (match s.status[t]
         case Running(_) => s.(status := s.status[t := Runnable], phase := s.phase[c := Requeueing(t)])
         case ReadyToSleep(_) => s.(status := s.status[t := Sleeping], phase := s.phase[c := Settled])
         case _ => s.(phase := s.phase[c := Settled]))
    case Requeue(c) =>
      s.(queue := s.queue + multiset{PhaseOf(s, c).task}, phase := s.phase[c := Settled])
    case Sleep(c) =>
      var t := s.current[c];
      s.(status := s.status[t := ReadyToSleep(s.status[t].cpu)])
    case Exit(c) =>
      var t := s.current[c];
      s.(status := s.status[t := Exited], queue := s.queue[t := 0])
    case Wakeup(t) =>
      (match s.status[t]
       case Sleeping => s.(status := s.status[t := Runnable], woken := s.woken + multiset{t})
       case ReadyToSleep(c) => s.(status := s.status[t := Running(c)])
       case _ => s)
    case AddWoken(t) => s.(woken := s.woken - multiset{t}, queue := s.queue + multiset{t})
  }

  // Where a task can be: the place that holds its one token.

  datatype Place =
    | Fresh
    | Queued
    | Woken
    | PickedBy(c: Cpu)
    | CurrentOn(c: Cpu)
    | LeavingFrom(c: Cpu)
    | RequeueingOn(c: Cpu)

  predicate At(s: State, t: Task, p: Place) {
    match p
    case Fresh => t in s.unstarted
    case Queued => t in s.queue
    case Woken => t in s.woken
    case PickedBy(c) => PhaseOf(s, c) == Picked(t)
    case CurrentOn(c) => c in s.current && s.current[c] == t
    case LeavingFrom(c) => PhaseOf(s, c) == SwitchedIn(Some(t))
    case RequeueingOn(c) => PhaseOf(s, c) == CpuPhase.Requeueing(t)
  }

  /** The statuses a task may have while its token is in the given place. */
  predicate Fits(st: Status, p: Place) {
    match p
    case CurrentOn(c) => st in {Running(c), ReadyToSleep(c), Exited}
    case LeavingFrom(c) => st in {Running(c), ReadyToSleep(c), Exited}
    case _ => st == Runnable
  }

  /** A live task that is not asleep. */
  predicate Awake(st: Status) { st.Runnable? || st.Running? || st.ReadyToSleep? }

  ghost predicate Placed(s: State, t: Task) { exists p :: At(s, t, p) }

  ghost predicate TokensFit(s: State) {
    forall t, p :: At(s, t, p) ==> t in s.status && Fits(s.status[t], p)
  }

  ghost predicate TokensUnique(s: State) {
    && (forall t, p, q :: At(s, t, p) && At(s, t, q) ==> p == q)
    && (forall t :: s.queue[t] <= 1 && s.woken[t] <= 1)
  }

  ghost predicate TokensPresent(s: State) {
    forall t :: t in s.status ==> !s.status[t].Ready? && (Awake(s.status[t]) ==> Placed(s, t))
  }

  ghost predicate Inv(s: State) { TokensFit(s) && TokensUnique(s) && TokensPresent(s) }

  /** No assertion of the source ever fires, except that of `sleep`, which fires exactly when
      a task that is not `Running` puts itself to sleep. */
  lemma PanicsOnlyOnDoubleSleep(s: State, step: Step)
    requires Inv(s) && Enabled(s, step)
    ensures Panics(s, step) <==> step.Sleep? && !IsRunning(s, s.current[step.c])
  {
    match step
    case AddFresh(t) => assert At(s, t, Fresh);
    case AddWoken(t) => assert At(s, t, Woken);
    case Pick(c, t) =>
    case SwitchIn(c) =>
      var t := PhaseOf(s, c).next;
      assert At(s, t, PickedBy(c));
      assert !At(s, t, Queued) && !At(s, t, CurrentOn(c));
    case SwitchOut(c) =>
      if PhaseOf(s, c).prev.Some? {
        var t := PhaseOf(s, c).prev.value;
        assert At(s, t, LeavingFrom(c));
        assert !At(s, t, Queued);
      }
    case Sleep(c) => assert At(s, s.current[c], CurrentOn(c));
    case _ =>
  }

  /** The places of tasks other than the one a step moves, which it leaves where they were. */
  ghost predicate OthersStay(s: State, s': State, moved: set<Task>) {
    && (forall t, p :: t !in moved ==> (At(s', t, p) <==> At(s, t, p)))
    && (forall t :: t !in moved ==> s'.queue[t] == s.queue[t] && s'.woken[t] == s.woken[t])
    && (forall t :: t !in moved ==> (t in s'.status <==> t in s.status)
                                    && (t in s.status ==> s'.status[t] == s.status[t]))
  }

  /** The moved task ends in exactly one place, which its new status fits. */
  ghost predicate LandsAt(s': State, t: Task, p: Place) {
    && (forall q :: At(s', t, q) <==> q == p)
    && t in s'.status && Fits(s'.status[t], p)
    && s'.queue[t] <= 1 && s'.woken[t] <= 1
  }

  ghost predicate LandsNowhere(s': State, t: Task) {
    && (forall q :: !At(s', t, q))
    && t in s'.status && s'.status[t] in {Sleeping, Exited}
    && s'.queue[t] == 0 && s'.woken[t] == 0
  }

  ghost predicate Lands(s': State, t: Task) {
    LandsNowhere(s', t) || exists p :: LandsAt(s', t, p)
  }

  /** `p` is the only place that holds the task's token. */
  ghost predicate OnlyAt(s: State, t: Task, p: Place) { forall q :: At(s, t, q) <==> q == p }

  ghost predicate Nowhere(s: State, t: Task) { forall q :: !At(s, t, q) }

  /** From `s` to `s'` the task gets this status and this place, and no other task anything new. */
  ghost predicate Carried(s: State, s': State, t: Task, st: Status, p: Place) {
    HasStatus(s', t, st) && OnlyAt(s', t, p) && OthersStay(s, s', {t})
  }

  lemma MoveKeepsInv(s: State, s': State, moved: set<Task>)
    requires Inv(s) && OthersStay(s, s', moved)
    requires forall t :: t in moved ==> Lands(s', t)
    ensures Inv(s')
  {
    forall t, p | At(s', t, p) ensures t in s'.status && Fits(s'.status[t], p) {
      if t !in moved { assert At(s, t, p); }
    }
    forall t, p, q | At(s', t, p) && At(s', t, q) ensures p == q {
      if t !in moved { assert At(s, t, p) && At(s, t, q); }
    }
    forall t | t in s'.status
      ensures !s'.status[t].Ready? && (Awake(s'.status[t]) ==> Placed(s', t))
    {
      if t !in moved {
        if Awake(s.status[t]) {
          var p :| At(s, t, p);
          assert At(s', t, p);
        }
      } else if !LandsNowhere(s', t) {
        var p :| LandsAt(s', t, p);
        assert At(s', t, p);
      }
    }
    forall t ensures s'.queue[t] <= 1 && s'.woken[t] <= 1 {
    }
  }

  /** A task that leaves its old place, if it had one, and enters `p`, has landed at `p`. */
  lemma Land(s: State, s': State, t: Task, from: Option<Place>, p: Place)
    requires Inv(s)
    requires if from.Some? then At(s, t, from.value) else forall q :: !At(s, t, q)
    requires At(s', t, p)
    requires forall q :: At(s', t, q) ==> q == p || (At(s, t, q) && from != Some(q))
    requires t in s'.status && Fits(s'.status[t], p)
    requires s'.queue[t] <= 1 && s'.woken[t] <= 1
    ensures LandsAt(s', t, p)
  {
  }

  lemma TokenAt(s: State, t: Task, p: Place)
    requires Inv(s) && At(s, t, p)
    ensures t in s.status && Fits(s.status[t], p)
    ensures forall q :: At(s, t, q) ==> q == p
    ensures s.queue[t] == (if p == Queued then 1 else 0)
    ensures s.woken[t] == (if p == Woken then 1 else 0)
  {
    assert p != Queued ==> !At(s, t, Queued);
    assert p != Woken ==> !At(s, t, Woken);
  }

  lemma PlaceOf(s: State, t: Task) returns (p: Place)
    requires Inv(s) && t in s.status && Awake(s.status[t])
    ensures At(s, t, p)
  {
    p :| At(s, t, p);
  }

  lemma NotPlaced(s: State, t: Task)
    requires Inv(s) && (t !in s.status || s.status[t] == Sleeping)
    ensures forall p :: !At(s, t, p)
    ensures s.queue[t] == 0 && s.woken[t] == 0
  {
    assert !At(s, t, Queued) && !At(s, t, Woken);
  }

  lemma BuildKeepsInv(s: State, t: Task)
    requires Inv(s) && Enabled(s, Build(t))
    ensures Inv(Next(s, Build(t))) && Carried(s, Next(s, Build(t)), t, Runnable, Fresh)
  {
    hide Inv;
    var s' := Next(s, Build(t));
    NotPlaced(s, t);
    Land(s, s', t, None, Fresh);
    MoveKeepsInv(s, s', {t});
  }

  lemma AddStepKeepsInv(s: State, step: Step)
    requires Inv(s) && Enabled(s, step) && !Panics(s, step)
    requires step.AddFresh? || step.AddWoken?
    ensures Inv(Next(s, step)) && Carried(s, Next(s, step), step.t, Runnable, Queued)
  {
    hide Inv;
    var s' := Next(s, step);
    var from := if step.AddFresh? then Fresh else Woken;
    TokenAt(s, step.t, from);
    Land(s, s', step.t, Some(from), Queued);
    MoveKeepsInv(s, s', {step.t});
  }

  lemma PickStepKeepsInv(s: State, step: Step)
    requires Inv(s) && Enabled(s, step) && !Panics(s, step)
    requires step.YieldTo? || step.Pick?
    ensures Inv(Next(s, step)) && Carried(s, Next(s, step), step.t, Runnable, PickedBy(step.c))
  {
    hide Inv;
    var s' := Next(s, step);
    var from := if step.YieldTo? then Fresh else Queued;
    TokenAt(s, step.t, from);
    Land(s, s', step.t, Some(from), PickedBy(step.c));
    MoveKeepsInv(s, s', {step.t});
  }

  lemma SwitchInKeepsInv(s: State, c: Cpu)
    requires Inv(s) && Enabled(s, SwitchIn(c)) && !Panics(s, SwitchIn(c))
    ensures Inv(Next(s, SwitchIn(c)))
    ensures var s', t := Next(s, SwitchIn(c)), PhaseOf(s, c).next;
            && HasStatus(s', t, Running(c)) && OnlyAt(s', t, CurrentOn(c))
            && (c !in s.current ==> PhaseOf(s', c) == SwitchedIn(None) && OthersStay(s, s', {t}))
            && (c in s.current ==>
                  var o := s.current[c];
                  && o in s.status && HasStatus(s', o, s.status[o]) && OnlyAt(s', o, LeavingFrom(c))
                  && OthersStay(s, s', {t, o}))
  {
    hide Inv;
    var s' := Next(s, SwitchIn(c));
    var t := PhaseOf(s, c).next;
    TokenAt(s, t, PickedBy(c));
    Land(s, s', t, Some(PickedBy(c)), CurrentOn(c));
    if c in s.current {
      var o := s.current[c];
      TokenAt(s, o, CurrentOn(c));
      Land(s, s', o, Some(CurrentOn(c)), LeavingFrom(c));
      MoveKeepsInv(s, s', {t, o});
    } else {
      MoveKeepsInv(s, s', {t});
    }
  }

  lemma SwitchOutKeepsInv(s: State, c: Cpu)
    requires Inv(s) && Enabled(s, SwitchOut(c)) && !Panics(s, SwitchOut(c))
    ensures Inv(Next(s, SwitchOut(c)))
    ensures var s', prev := Next(s, SwitchOut(c)), PhaseOf(s, c).prev;
            && (prev.None? ==> PhaseOf(s', c) == Settled && OthersStay(s, s', {}))
            && (prev.Some? ==>
                  var o := prev.value;
                  && OthersStay(s, s', {o}) && o in s.status && (s.status[o].Running? <==> PhaseOf(s', c) != Settled)
                  && match s.status[o]
                     case Running(_) => HasStatus(s', o, Runnable) && OnlyAt(s', o, RequeueingOn(c))
                     case ReadyToSleep(_) => HasStatus(s', o, Sleeping) && Nowhere(s', o)
                     case st => HasStatus(s', o, st) && Nowhere(s', o))
  {
    hide Inv;
    var s' := Next(s, SwitchOut(c));
    if PhaseOf(s, c).prev.None? {
      MoveKeepsInv(s, s', {});
    } else {
      var o := PhaseOf(s, c).prev.value;
      TokenAt(s, o, LeavingFrom(c));
      if s.status[o].Running? {
        Land(s, s', o, Some(LeavingFrom(c)), RequeueingOn(c));
      } else {
        forall q ensures !At(s', o, q) {
          assert At(s', o, q) ==> At(s, o, q);
        }
        assert LandsNowhere(s', o);
      }
      MoveKeepsInv(s, s', {o});
    }
  }

  lemma RequeueKeepsInv(s: State, c: Cpu)
    requires Inv(s) && Enabled(s, Requeue(c))
    ensures Inv(Next(s, Requeue(c))) && PhaseOf(Next(s, Requeue(c)), c) == Settled
    ensures Carried(s, Next(s, Requeue(c)), PhaseOf(s, c).task, Runnable, Queued)
  {
    hide Inv;
    var s' := Next(s, Requeue(c));
    var o := PhaseOf(s, c).task;
    TokenAt(s, o, RequeueingOn(c));
    Land(s, s', o, Some(RequeueingOn(c)), Queued);
    MoveKeepsInv(s, s', {o});
  }

  lemma OwnStepKeepsInv(s: State, step: Step)
    requires Inv(s) && Enabled(s, step) && !Panics(s, step)
    requires step.Sleep? || step.Exit?
    ensures Inv(Next(s, step))
    ensures Carried(s, Next(s, step), s.current[step.c], if step.Exit? then Exited else ReadyToSleep(step.c),
                    CurrentOn(step.c))
  {
    hide Inv;
    var s' := Next(s, step);
    var t := s.current[step.c];
    TokenAt(s, t, CurrentOn(step.c));
    assert s'.queue == s.queue;
    LandInPlace(s, s', t, CurrentOn(step.c));
    MoveKeepsInv(s, s', {t});
  }

  lemma LandInPlace(s: State, s': State, t: Task, p: Place)
    requires Inv(s) && At(s, t, p)
    requires s' == s.(status := s'.status) && t in s'.status && Fits(s'.status[t], p)
    ensures LandsAt(s', t, p)
  {
    TokenAt(s, t, p);
    forall q ensures At(s', t, q) <==> q == p {
      assert At(s', t, q) <==> At(s, t, q);
    }
  }

  lemma WakeupKeepsInv(s: State, t: Task)
    requires Inv(s) && Enabled(s, Wakeup(t))
    ensures Inv(Next(s, Wakeup(t)))
    ensures var s' := Next(s, Wakeup(t));
            match s.status[t]
            case Sleeping => Carried(s, s', t, Runnable, Woken)
            case ReadyToSleep(c) =>
              HasStatus(s', t, Running(c)) && OthersStay(s, s', {t}) && forall p :: At(s', t, p) <==> At(s, t, p)
            case _ => s' == s
  {
    hide Inv;
    var s' := Next(s, Wakeup(t));
    match s.status[t]
    case Sleeping =>
      NotPlaced(s, t);
      Land(s, s', t, None, Woken);
      MoveKeepsInv(s, s', {t});
    case ReadyToSleep(c) =>
      var p := PlaceOf(s, t);
      TokenAt(s, t, p);
      LandInPlace(s, s', t, p);
      MoveKeepsInv(s, s', {t});
    case _ =>
  }

  lemma StepKeepsInv(s: State, step: Step)
    requires Inv(s) && Enabled(s, step) && !Panics(s, step)
    ensures Inv(Next(s, step))
  {
    match step
    case Build(t) => BuildKeepsInv(s, t);
    case AddFresh(_) => AddStepKeepsInv(s, step);
    case AddWoken(_) => AddStepKeepsInv(s, step);
    case YieldTo(_, _) => PickStepKeepsInv(s, step);
    case Pick(_, _) => PickStepKeepsInv(s, step);
    case SwitchIn(c) => SwitchInKeepsInv(s, c);
    case SwitchOut(c) => SwitchOutKeepsInv(s, c);
    case Requeue(c) => RequeueKeepsInv(s, c);
    case Sleep(_) => OwnStepKeepsInv(s, step);
    case Exit(_) => OwnStepKeepsInv(s, step);
    case Wakeup(t) => WakeupKeepsInv(s, t);
  }

  // Whole runs.

  predicate ValidRun(s: State, steps: seq<Step>)
    decreases steps
  {
    steps == [] || (Enabled(s, steps[0]) && !Panics(s, steps[0]) && ValidRun(Next(s, steps[0]), steps[1..]))
  }

  function Run(s: State, steps: seq<Step>): State
    requires ValidRun(s, steps)
    decreases steps
  {
    if steps == [] then s else Run(Next(s, steps[0]), steps[1..])
  }

  lemma {:induction false} RunKeepsInv(s: State, steps: seq<Step>)
    requires Inv(s) && ValidRun(s, steps)
    ensures Inv(Run(s, steps))
    decreases steps
  {
    if steps != [] {
      StepKeepsInv(s, steps[0]);
      RunKeepsInv(Next(s, steps[0]), steps[1..]);
    }
  }

  /** In every reachable state each task that is runnable, running or about to sleep has
      exactly one token, a sleeping task has none, and the only assertion that can fire next is
      that of `sleep`. In particular no task is current on two CPUs, queued twice, or queued
      while current. */
  lemma {:induction false} OneTokenPerTask(steps: seq<Step>)
    requires ValidRun(INIT, steps)
    ensures var s := Run(INIT, steps);
            && (forall t :: t in s.status && Awake(s.status[t]) ==> exists p :: OnlyAt(s, t, p))
            && (forall t, p :: t in s.status && s.status[t] == Sleeping ==> !At(s, t, p))
            && (forall t :: s.queue[t] <= 1 && s.woken[t] <= 1)
            && (forall c, d :: c in s.current && d in s.current && s.current[c] == s.current[d] ==> c == d)
            && (forall c :: c in s.current ==> s.current[c] !in s.queue && s.current[c] !in s.woken)
            && (forall step :: Enabled(s, step) ==>
                  (Panics(s, step) <==> step.Sleep? && !IsRunning(s, s.current[step.c])))
  {
    RunKeepsInv(INIT, steps);
    var s := Run(INIT, steps);
    forall t | t in s.status && Awake(s.status[t]) ensures exists p :: OnlyAt(s, t, p) {
      var p :| At(s, t, p);
      TokenAt(s, t, p);
      assert OnlyAt(s, t, p);
    }
    forall t, p | t in s.status && s.status[t] == Sleeping ensures !At(s, t, p) {
      NotPlaced(s, t);
    }
    forall c, d | c in s.current && d in s.current && s.current[c] == s.current[d] ensures c == d {
      TokenAt(s, s.current[c], CurrentOn(c));
      assert At(s, s.current[c], CurrentOn(d));
    }
    forall c | c in s.current ensures s.current[c] !in s.queue && s.current[c] !in s.woken {
      TokenAt(s, s.current[c], CurrentOn(c));
    }
    forall step | Enabled(s, step)
      ensures Panics(s, step) <==> step.Sleep? && !IsRunning(s, s.current[step.c])
    {
      PanicsOnlyOnDoubleSleep(s, step);
    }
  }

  // Wakeups are not lost.

  /** The task has announced that it wants to sleep, or already sleeps. */
  predicate Drowsy(s: State, t: Task) {
    t in s.status && (s.status[t].ReadyToSleep? || s.status[t] == Sleeping)
  }

  predicate WideAwake(s: State, t: Task) {
    t in s.status && (s.status[t].Runnable? || s.status[t].Running?)
  }

  /** A step the task itself takes: going to sleep or exiting. */
  predicate OwnStep(s: State, step: Step, t: Task) {
    (step.Sleep? || step.Exit?) && step.c in s.current && s.current[step.c] == t
  }

  /** The task takes no step of its own during the run and, if `noWakeup`, nobody wakes it. */
  predicate Passive(s: State, steps: seq<Step>, t: Task, noWakeup: bool)
    requires ValidRun(s, steps)
    decreases steps
  {
    steps == [] ||
    (&& !OwnStep(s, steps[0], t)
     && (noWakeup ==> steps[0] != Wakeup(t))
     && Passive(Next(s, steps[0]), steps[1..], t, noWakeup))
  }

  lemma {:induction false} DrowsyUntilWoken(s: State, steps: seq<Step>, t: Task)
    requires Inv(s) && ValidRun(s, steps) && Passive(s, steps, t, true) && Drowsy(s, t)
    ensures Drowsy(Run(s, steps), t)
    decreases steps
  {
    if steps != [] {
      StepKeepsInv(s, steps[0]);
      assert Drowsy(Next(s, steps[0]), t);
      DrowsyUntilWoken(Next(s, steps[0]), steps[1..], t);
    }
  }

  lemma {:induction false} WideAwakeUntilSleep(s: State, steps: seq<Step>, t: Task)
    requires Inv(s) && ValidRun(s, steps) && Passive(s, steps, t, false) && WideAwake(s, t)
    ensures WideAwake(Run(s, steps), t)
    decreases steps
  {
    if steps != [] {
      StepKeepsInv(s, steps[0]);
      assert WideAwake(Next(s, steps[0]), t);
      WideAwakeUntilSleep(Next(s, steps[0]), steps[1..], t);
    }
  }

  /** What one wakeup of a drowsy task does: it catches the task before its CPU lets go of it,
      or it makes the task runnable and owes the scheduler exactly one enqueue. */
  lemma WakeupTakesEffect(s: State, t: Task)
    requires Inv(s) && Drowsy(s, t)
    ensures var s' := Next(s, Wakeup(t));
            || (s'.status[t] == Runnable && OnlyAt(s', t, Woken) && s'.woken[t] == 1)
            || (exists c :: s'.status[t] == Running(c)
                            && (OnlyAt(s', t, CurrentOn(c)) || OnlyAt(s', t, LeavingFrom(c))))
  {
    var s' := Next(s, Wakeup(t));
    WakeupKeepsInv(s, t);
    if s.status[t] == Sleeping {
      TokenAt(s', t, Woken);
      assert OnlyAt(s', t, Woken);
    } else {
      var c := s.status[t].cpu;
      var p :| At(s, t, p);
      TokenAt(s, t, p);
      TokenAt(s', t, p);
      assert OnlyAt(s', t, p);
      assert s'.status[t] == Running(c);
    }
  }

  /** However `sleep`, the switch-out on the task's CPU and wakeups from elsewhere interleave:
      if the task is woken after it announced its sleep, then until it next acts itself it is
      never asleep and holds exactly one token, so it is enqueued once and not forgotten. */
  lemma {:induction false} NoLostWakeup(s: State, before: seq<Step>, after: seq<Step>, t: Task)
    requires Inv(s) && Drowsy(s, t)
    requires ValidRun(s, before) && Passive(s, before, t, true)
    requires Enabled(Run(s, before), Wakeup(t)) && ValidRun(Next(Run(s, before), Wakeup(t)), after)
    requires Passive(Next(Run(s, before), Wakeup(t)), after, t, false)
    ensures var s' := Run(Next(Run(s, before), Wakeup(t)), after);
            WideAwake(s', t) && exists p :: OnlyAt(s', t, p)
  {
    RunKeepsInv(s, before);
    DrowsyUntilWoken(s, before, t);
    var s1 := Run(s, before);
    WakeupKeepsInv(s1, t);
    var s2 := Next(s1, Wakeup(t));
    WideAwakeUntilSleep(s2, after, t);
    RunKeepsInv(s2, after);
    var s3 := Run(s2, after);
    var p :| At(s3, t, p);
    TokenAt(s3, t, p);
    assert OnlyAt(s3, t, p);
  }

  // A woken task gets to run.

  /** Nobody enqueues the task or picks it in these steps. */
  predicate Unclaimed(steps: seq<Step>, t: Task) {
    forall i :: 0 <= i < |steps| ==> steps[i] != AddWoken(t) && !(steps[i].Pick? && steps[i].t == t)
  }

  /** Runnable, and waiting for its enqueue or in the queue. */
  ghost predicate WaitsAt(s: State, t: Task, p: Place) {
    (p == Woken || p == Queued) && HasStatus(s, t, Runnable) && OnlyAt(s, t, p)
  }

  lemma StepLeavesWaiting(s: State, step: Step, t: Task, p: Place)
    requires Inv(s) && Enabled(s, step) && !Panics(s, step) && WaitsAt(s, t, p) && Unclaimed([step], t)
    ensures WaitsAt(Next(s, step), t, p)
  {
    hide Inv, Next;
    assert [step][0] == step;
    match step
    case Build(u) => BuildKeepsInv(s, u);
    case AddFresh(u) =>
      assert At(s, u, Fresh);
      AddStepKeepsInv(s, step);
    case AddWoken(u) => AddStepKeepsInv(s, step);
    case YieldTo(_, u) =>
      assert At(s, u, Fresh);
      PickStepKeepsInv(s, step);
    case Pick(_, _) => PickStepKeepsInv(s, step);
    case SwitchIn(c) =>
      assert At(s, PhaseOf(s, c).next, PickedBy(c)) && (c in s.current ==> At(s, s.current[c], CurrentOn(c)));
      SwitchInKeepsInv(s, c);
    case SwitchOut(c) =>
      assert PhaseOf(s, c).prev.Some? ==> At(s, PhaseOf(s, c).prev.value, LeavingFrom(c));
      SwitchOutKeepsInv(s, c);
    case Requeue(c) =>
      assert At(s, PhaseOf(s, c).task, RequeueingOn(c));
      RequeueKeepsInv(s, c);
    case Sleep(c) =>
      assert At(s, s.current[c], CurrentOn(c));
      OwnStepKeepsInv(s, step);
    case Exit(c) =>
      assert At(s, s.current[c], CurrentOn(c));
      OwnStepKeepsInv(s, step);
    case Wakeup(u) => WakeupKeepsInv(s, u);
  }

  /** A task that waits stays where it is until it is enqueued, or picked. */
  lemma {:induction false} WaitsUntilClaimed(s: State, steps: seq<Step>, t: Task, p: Place)
    requires Inv(s) && ValidRun(s, steps) && WaitsAt(s, t, p) && Unclaimed(steps, t)
    ensures WaitsAt(Run(s, steps), t, p)
    decreases steps
  {
    if steps != [] {
      assert Unclaimed([steps[0]], t) && Unclaimed(steps[1..], t);
      StepLeavesWaiting(s, steps[0], t, p);
      StepKeepsInv(s, steps[0]);
      WaitsUntilClaimed(Next(s, steps[0]), steps[1..], t, p);
    }
  }

  /** An effective wakeup is followed by the enqueue it owes whenever the waker gets to it. */
  lemma {:induction false} WokenCanBeAdded(s: State, steps: seq<Step>, t: Task)
    requires Inv(s) && HasStatus(s, t, Sleeping)
    requires ValidRun(Next(s, Wakeup(t)), steps) && Unclaimed(steps, t)
    ensures var s' := Run(Next(s, Wakeup(t)), steps);
            Enabled(s', AddWoken(t)) && !Panics(s', AddWoken(t))
  {
    var s1 := Next(s, Wakeup(t));
    WakeupKeepsInv(s, t);
    WaitsUntilClaimed(s1, steps, t, Woken);
    assert At(Run(s1, steps), t, Woken);
  }

  /** After that enqueue, for as long as nobody picks the task, every CPU that is not switching
      can pick it, and the switch that follows makes it the running task of that CPU. */
  lemma {:induction false} AddedTaskCanRun(s: State, steps: seq<Step>, t: Task, c: Cpu)
    requires Inv(s) && Enabled(s, AddWoken(t)) && !Panics(s, AddWoken(t))
    requires ValidRun(Next(s, AddWoken(t)), steps) && Unclaimed(steps, t)
    requires PhaseOf(Run(Next(s, AddWoken(t)), steps), c) == Settled
    ensures var s' := Run(Next(s, AddWoken(t)), steps);
            && Enabled(s', Pick(c, t)) && !Panics(s', Pick(c, t))
            && var picked := Next(s', Pick(c, t));
               && SwitchSafe(picked, c) && HasStatus(Switched(picked, c), t, Running(c))
               && At(Switched(picked, c), t, CurrentOn(c))
  {
    var s1 := Next(s, AddWoken(t));
    AddStepKeepsInv(s, AddWoken(t));
    WaitsUntilClaimed(s1, steps, t, Queued);
    RunKeepsInv(s1, steps);
    var s' := Run(s1, steps);
    assert At(s', t, Queued);
    PickedCanRun(s', t, c);
  }

  lemma PickedCanRun(s: State, t: Task, c: Cpu)
    requires Inv(s) && At(s, t, Queued) && PhaseOf(s, c) == Settled
    ensures Enabled(s, Pick(c, t)) && !Panics(s, Pick(c, t))
    ensures var picked := Next(s, Pick(c, t));
            && SwitchSafe(picked, c) && HasStatus(Switched(picked, c), t, Running(c))
            && At(Switched(picked, c), t, CurrentOn(c))
  {
    PanicsOnlyOnDoubleSleep(s, Pick(c, t));
    PickStepKeepsInv(s, Pick(c, t));
    SwitchCompletes(Next(s, Pick(c, t)), c);
  }

  /** A wakeup changes the state exactly when the task has announced its sleep. */
  lemma WakeupMattersIff(s: State, t: Task)
    requires t in s.status
    ensures Next(s, Wakeup(t)) != s <==> Drowsy(s, t)
  {
    if Drowsy(s, t) { assert Next(s, Wakeup(t)).status[t] != s.status[t]; }
  }

  /** The task sleeps next on `c` in this run: until then it is passive. */
  predicate SleepsAfter(s: State, before: seq<Step>, c: Cpu, t: Task)
    requires ValidRun(s, before)
  {
    var s' := Run(s, before);
    Passive(s, before, t, true) && Enabled(s', Sleep(c)) && s'.current[c] == t && !Panics(s', Sleep(c))
  }

  /** A wakeup that arrives before the sleep is not remembered: in every run in which the task is
      woken while it has not announced a sleep, it is about to sleep or asleep after its next
      `sleep`, and stays so until somebody wakes it again. With `NoLostWakeup`, a wakeup keeps a
      task from sleeping exactly when the task is drowsy at that moment. */
  lemma {:induction false} EarlyWakeupIsLost(s: State, before: seq<Step>, c: Cpu, after: seq<Step>, t: Task)
    requires Inv(s) && t in s.status && !Drowsy(s, t)
    requires ValidRun(Next(s, Wakeup(t)), before) && SleepsAfter(Next(s, Wakeup(t)), before, c, t)
    requires ValidRun(Next(Run(Next(s, Wakeup(t)), before), Sleep(c)), after)
    requires Passive(Next(Run(Next(s, Wakeup(t)), before), Sleep(c)), after, t, true)
    ensures var s' := Next(Run(Next(s, Wakeup(t)), before), Sleep(c));
            Next(s, Wakeup(t)) == s && Drowsy(s', t) && Drowsy(Run(s', after), t)
  {
    WakeupMattersIff(s, t);
    RunKeepsInv(s, before);
    OwnStepKeepsInv(Run(s, before), Sleep(c));
    DrowsyUntilWoken(Next(Run(s, before), Sleep(c)), after, t);
  }

  /** A waiter that was woken between testing its condition and calling `sleep` goes on running
      as `ReadyToSleep`, and calling `sleep` again is the double sleep that panics. */
  lemma SecondSleepPanics(s: State, c: Cpu)
    requires PhaseOf(s, c) == Settled && c in s.current && HasStatus(s, s.current[c], Running(c))
    ensures var s' := Next(Next(s, Wakeup(s.current[c])), Sleep(c));
            Enabled(s', Sleep(c)) && Panics(s', Sleep(c))
  {
    WakeupMattersIff(s, s.current[c]);
  }

  // `switch_to` and a waker's turn as a whole, when nothing interleaves.

  /** The status `switch_to` gives the task it switches away from. */
  function LeftBehind(st: Status): Status {
    match st
    case Running(_) => Runnable
    case ReadyToSleep(_) => Sleeping
    case _ => st
  }

  function AfterSwitchOut(s: State, c: Cpu): State {
    if PhaseOf(s, c).Requeueing? then Next(s, Requeue(c)) else s
  }

  predicate SwitchSafe(s: State, c: Cpu) {
    && PhaseOf(s, c).Picked? && !Panics(s, SwitchIn(c))
    && !Panics(Next(s, SwitchIn(c)), SwitchOut(c))
  }

  function Switched(s: State, c: Cpu): State
    requires SwitchSafe(s, c)
  {
    AfterSwitchOut(Next(Next(s, SwitchIn(c)), SwitchOut(c)), c)
  }

  /** A switch never trips an assertion. It makes the next task current and running, and the
      task it replaces goes back to the queue, to sleep, or away, according to its status. */
  lemma SwitchCompletes(s: State, c: Cpu)
    requires Inv(s) && PhaseOf(s, c).Picked?
    ensures SwitchSafe(s, c)
    ensures var s' := Switched(s, c);
            && Inv(s') && PhaseOf(s', c) == Settled
            && At(s', PhaseOf(s, c).next, CurrentOn(c)) && HasStatus(s', PhaseOf(s, c).next, Running(c))
            && (c !in s.current ==> s'.queue == s.queue)
            && (c in s.current ==>
                  var t := s.current[c];
                  && t in s.status && HasStatus(s', t, LeftBehind(s.status[t]))
                  && s'.queue == s.queue + if s.status[t].Running? then multiset{t} else multiset{})
  {
    hide Inv, OthersStay, OnlyAt, Nowhere;
    PanicsOnlyOnDoubleSleep(s, SwitchIn(c));
    SwitchInKeepsInv(s, c);
    var s1 := Next(s, SwitchIn(c));
    PanicsOnlyOnDoubleSleep(s1, SwitchOut(c));
    SwitchOutKeepsInv(s1, c);
    var s2 := Next(s1, SwitchOut(c));
    if PhaseOf(s2, c).Requeueing? { RequeueKeepsInv(s2, c); }
    TokenAt(s, PhaseOf(s, c).next, PickedBy(c));
    if c in s.current { TokenAt(s, s.current[c], CurrentOn(c)); }
  }

  /** The kernel's side of the protocol. The assertions in the bodies are those of the source,
      and they are proved. */
  class Kernel {
    var status: map<Task, Status>
    var current: map<Cpu, Task>
    var phase: map<Cpu, CpuPhase>
    var queue: multiset<Task>
    var woken: multiset<Task>
    var unstarted: set<Task>

    ghost function Abs(): State
      reads this
    {
      State(status, current, phase, queue, woken, unstarted)
    }

    constructor ()
      ensures Abs() == INIT
    {
      status, current, phase := map[], map[], map[];
      queue, woken, unstarted := multiset{}, multiset{}, {};
    }

    /** The first critical section of `switch_to`: claim the next task, replace `current`. */
    method ClaimNext(cpu: Cpu, next: Task) returns (prev: Option<Task>)
      requires Inv(Abs()) && PhaseOf(Abs(), cpu) == Picked(next)
      modifies this
      ensures !Panics(old(Abs()), SwitchIn(cpu)) && Abs() == Next(old(Abs()), SwitchIn(cpu))
      ensures Inv(Abs()) && PhaseOf(Abs(), cpu) == SwitchedIn(prev)
      ensures prev == if cpu in old(current) then Some(old(current)[cpu]) else None
      ensures status == old(status)[next := Running(cpu)] && current == old(current)[cpu := next]
      ensures queue == old(queue) && woken == old(woken) && unstarted == old(unstarted)
    {
      PanicsOnlyOnDoubleSleep(Abs(), SwitchIn(cpu));
      SwitchInKeepsInv(Abs(), cpu);
      assert next !in queue;
      assert cpu in current ==> current[cpu] != next;
      assert status[next] == Runnable;
      prev := if cpu in current then Some(current[cpu]) else None;
      status := status[next := Running(cpu)];
      current := current[cpu := next];
      phase := phase[cpu := SwitchedIn(prev)];
    }

    /** The second critical section: decide from its status what becomes of the replaced task. */
    method Release(cpu: Cpu, t: Task) returns (requeue: bool)
      requires Inv(Abs()) && PhaseOf(Abs(), cpu) == SwitchedIn(Some(t))
      modifies this
      ensures !Panics(old(Abs()), SwitchOut(cpu)) && Abs() == Next(old(Abs()), SwitchOut(cpu))
      ensures Inv(Abs()) && PhaseOf(Abs(), cpu) == if requeue then CpuPhase.Requeueing(t) else Settled
      ensures t in old(status) && (requeue <==> old(status)[t] == Running(cpu))
      ensures status == old(status)[t := if requeue then Runnable else if old(status)[t].Exited? then Exited else Sleeping]
      ensures queue == old(queue) && woken == old(woken) && current == old(current) && unstarted == old(unstarted)
    {
      PanicsOnlyOnDoubleSleep(Abs(), SwitchOut(cpu));
      SwitchOutKeepsInv(Abs(), cpu);
      assert t !in queue;
      match status[t] {
        case Running(c) =>
          assert c == cpu;
          status := status[t := Runnable];
          requeue := true;
        case ReadyToSleep(c) =>
          assert c == cpu;
          status := status[t := Sleeping];
          requeue := false;
        case Exited =>
          requeue := false;
      }
      phase := phase[cpu := if requeue then CpuPhase.Requeueing(t) else Settled];
    }

    /** The replaced task goes back to the queue. */
    method Enqueue(cpu: Cpu, t: Task)
      requires Inv(Abs()) && PhaseOf(Abs(), cpu) == CpuPhase.Requeueing(t)
      modifies this
      ensures Abs() == Next(old(Abs()), Requeue(cpu)) && Inv(Abs())
      ensures queue == old(queue) + multiset{t} && OnlyAt(Abs(), t, Queued) && PhaseOf(Abs(), cpu) == Settled
      ensures status == old(status) && current == old(current) && woken == old(woken) && unstarted == old(unstarted)
    {
      RequeueKeepsInv(Abs(), cpu);
      queue := queue + multiset{t};
      phase := phase[cpu := Settled];
    }

    /** The whole switch, from any state in which the CPU has picked its next task. */
    method SwitchTo(cpu: Cpu, next: Task)
      requires Inv(Abs()) && PhaseOf(Abs(), cpu) == Picked(next)
      modifies this
      ensures SwitchSafe(old(Abs()), cpu) && Abs() == Switched(old(Abs()), cpu) && Inv(Abs())
      ensures HasStatus(Abs(), next, Running(cpu)) && current == old(current)[cpu := next]
      ensures cpu in old(current) ==>
                var t := old(current)[cpu];
                && t in old(status) && HasStatus(Abs(), t, LeftBehind(old(status)[t]))
                && queue == old(queue) + if old(status)[t].Running? then multiset{t} else multiset{}
    {
      SwitchCompletes(Abs(), cpu);
      var prev := ClaimNext(cpu, next);
      if prev.Some? {
        var requeue := Release(cpu, prev.value);
        if requeue { Enqueue(cpu, prev.value); }
      } else {
        phase := phase[cpu := Settled];
      }
    }

    method GoToSleep(cpu: Cpu)
      requires Inv(Abs()) && PhaseOf(Abs(), cpu) == Settled && cpu in current && IsRunning(Abs(), current[cpu])
      modifies this
      ensures !Panics(old(Abs()), Sleep(cpu)) && Abs() == Next(old(Abs()), Sleep(cpu)) && Inv(Abs())
      ensures status == old(status)[current[cpu] := ReadyToSleep(cpu)] && current == old(current)
    {
      OwnStepKeepsInv(Abs(), Sleep(cpu));
      var t := current[cpu];
      status := status[t := ReadyToSleep(status[t].cpu)];
    }

    method WakeUp(t: Task) returns (enqueue: bool)
      requires Inv(Abs()) && t in status
      modifies this
      ensures Abs() == Next(old(Abs()), Wakeup(t)) && Inv(Abs())
      ensures enqueue <==> old(status)[t] == Sleeping
      ensures enqueue ==> HasStatus(Abs(), t, Runnable) && OnlyAt(Abs(), t, Woken)
      ensures old(status)[t].ReadyToSleep? ==> HasStatus(Abs(), t, Running(old(status)[t].cpu))
      ensures !Drowsy(old(Abs()), t) ==> Abs() == old(Abs())
    {
      WakeupKeepsInv(Abs(), t);
      enqueue := false;
      match status[t] {
        case Sleeping =>
          status := status[t := Runnable];
          woken := woken + multiset{t};
          enqueue := true;
        case ReadyToSleep(c) =>
          status := status[t := Running(c)];
        case _ =>
      }
    }

    method AddTask(t: Task)
      requires Inv(Abs()) && t in woken
      modifies this
      ensures !Panics(old(Abs()), AddWoken(t)) && Abs() == Next(old(Abs()), AddWoken(t)) && Inv(Abs())
      ensures queue == old(queue) + multiset{t} && woken == old(woken) - multiset{t} && OnlyAt(Abs(), t, Queued)
      ensures HasStatus(Abs(), t, Runnable) && status == old(status) && current == old(current)
    {
      PanicsOnlyOnDoubleSleep(Abs(), AddWoken(t));
      AddStepKeepsInv(Abs(), AddWoken(t));
      assert status[t] == Runnable;
      woken := woken - multiset{t};
      queue := queue + multiset{t};
    }
  }
}
