/** The supervisor that starts workers one after another and stops them together, as interleaved steps of the
    supervisor, its workers, the caller's context and the timers. */
module Supervisor {
  import opened Wrappers

  /** Start is running; it has returned; its goroutine has cancelled the context; it has left the wait group. */
  datatype Phase = NotStarted | Running | Returned | Cancelling | Done

  datatype Worker = Worker(phase: Phase, ready: bool)

  datatype Control =
    | Starting(i: nat)            // at the head of the loop
    | Waiting(i: nat)             // in the select behind the start of worker i
    | Announcing                  // sending on the caller's ready channel
    | Serving                     // until the context is done
    | Draining(released: bool)    // until the wait group is empty or the timer fires
    | ReturnedNil
    | ReturnedTimeout

  datatype State = State(workers: seq<Worker>, control: Control, cancelled: bool, waitGroup: int)

  datatype Step =
    | StartWorker | LeaveLoop | WorkerReady | WorkerTimeout | ContextDone | CallerReady | StopServing | WaitGroupEmpty
    | ReceiveWait | DrainTimeout
    | Return(i: nat) | Cancel(i: nat) | LeaveGroup(i: nat)
    | CallerCancels

  function Initial(n: nat): State { State(seq(n, _ => Worker(NotStarted, false)), Starting(0), false, 0) }

  function SetPhase(s: State, i: nat, phase: Phase): State
    requires i < |s.workers|
  {
    s.(workers := s.workers[i := s.workers[i].(phase := phase)])
  }

  predicate InPhase(s: State, i: nat, phase: Phase) { i < |s.workers| && s.workers[i].phase == phase }

  /** The state after a step, or None when the step is not possible. */
  function Apply(s: State, step: Step): Option<State> {
    var c := s.control;
    match step
    case StartWorker =>
      if c.Starting? && InPhase(s, c.i, NotStarted)
      then Some(SetPhase(s, c.i, Running).(control := Waiting(c.i), waitGroup := s.waitGroup + 1)) else None
    case LeaveLoop => if c.Starting? && c.i >= |s.workers| then Some(s.(control := Announcing)) else None
    case WorkerReady =>
      // a rendezvous: the worker sends on the channel that the supervisor receives from
      if c.Waiting? && InPhase(s, c.i, Running) && !s.workers[c.i].ready
      then Some(s.(workers := s.workers[c.i := Worker(Running, true)], control := Starting(c.i + 1))) else None
    case WorkerTimeout => if c.Waiting? then Some(s.(control := Announcing, cancelled := true)) else None
    case ContextDone => if c.Waiting? && s.cancelled then Some(s.(control := Announcing)) else None
    case CallerReady => if c.Announcing? then Some(s.(control := Serving)) else None
    case StopServing => if c.Serving? && s.cancelled then Some(s.(control := Draining(false))) else None
    case WaitGroupEmpty =>
      if c == Draining(false) && s.waitGroup == 0 then Some(s.(control := Draining(true))) else None
    case ReceiveWait => if c == Draining(true) then Some(s.(control := ReturnedNil, cancelled := true)) else None
    case DrainTimeout => if c.Draining? then Some(s.(control := ReturnedTimeout, cancelled := true)) else None
    case Return(i) => if InPhase(s, i, Running) then Some(SetPhase(s, i, Returned)) else None
    case Cancel(i) => if InPhase(s, i, Returned) then Some(SetPhase(s, i, Cancelling).(cancelled := true)) else None
    case LeaveGroup(i) =>
      if InPhase(s, i, Cancelling) then Some(SetPhase(s, i, Done).(waitGroup := s.waitGroup - 1)) else None
    case CallerCancels => if !s.cancelled then Some(s.(cancelled := true)) else None
  }

  /** The state after a run, or None when one of its steps is not possible. */
  function Run(s: State, steps: seq<Step>): Option<State>
    decreases |steps|
  {
    if steps == [] then Some(s)
    else
      match Apply(s, steps[0])
      case Some(next) => Run(next, steps[1..])
      case None => None
  }

  // ---------- Safety ----------

  predicate InGroup(w: Worker) { w.phase == Running || w.phase == Returned || w.phase == Cancelling }

  predicate HasCancelled(w: Worker) { w.phase == Cancelling || w.phase == Done }

  function Active(ws: seq<Worker>): nat {
    if ws == [] then 0 else (if InGroup(ws[0]) then 1 else 0) + Active(ws[1..])
  }

  predicate Began(w: Worker) { w.phase != NotStarted }

  predicate AllReady(s: State) { forall j :: 0 <= j < |s.workers| ==> Began(s.workers[j]) && s.workers[j].ready }

  predicate ControlFits(s: State) {
    match s.control
    case Starting(i) =>
      && i <= |s.workers|
      && (forall j :: 0 <= j < i ==> Began(s.workers[j]) && s.workers[j].ready)
      && (forall j :: i <= j < |s.workers| ==> !Began(s.workers[j]))
    case Waiting(i) =>
      && i < |s.workers| && Began(s.workers[i])
      && (forall j :: 0 <= j < i ==> Began(s.workers[j]) && s.workers[j].ready)
      && (forall j :: i < j < |s.workers| ==> !Began(s.workers[j]))
    case Announcing => AllReady(s) || s.cancelled
    case Serving => AllReady(s) || s.cancelled
    case Draining(released) => s.cancelled && (released ==> s.waitGroup == 0)
    case ReturnedNil => s.cancelled && s.waitGroup == 0
    case ReturnedTimeout => s.cancelled
  }

  predicate Inv(s: State) {
    && s.waitGroup == Active(s.workers)
    && ControlFits(s)
    && (forall j :: 0 <= j < |s.workers| && HasCancelled(s.workers[j]) ==> s.cancelled)
  }

  lemma {:induction false} ActiveUpdate(ws: seq<Worker>, i: nat, w: Worker)
    requires i < |ws|
    ensures Active(ws[i := w]) == Active(ws) + Active([w]) - Active([ws[i]])
  {
    if i == 0 {
      assert ws[0 := w][1..] == ws[1..];
    } else {
      ActiveUpdate(ws[1..], i - 1, w);
      assert ws[i := w][1..] == ws[1..][i - 1 := w];
    }
  }

  lemma {:induction false} NoneActive(ws: seq<Worker>)
    ensures Active(ws) == 0 <==> forall j :: 0 <= j < |ws| ==> !InGroup(ws[j])
  {
    if ws != [] {
      NoneActive(ws[1..]);
      assert forall j :: 0 < j < |ws| ==> ws[j] == ws[1..][j - 1];
      assert forall j :: 0 <= j < |ws| - 1 ==> ws[1..][j] == ws[j + 1];
    }
  }

  lemma InitialInv(n: nat)
    ensures Inv(Initial(n))
  {
    NoneActive(Initial(n).workers);
  }

  /** The worker that a step is about. */
  function Subject(s: State, step: Step): int {
    match step
    case Return(i) => i
    case Cancel(i) => i
    case LeaveGroup(i) => i
    case StartWorker => if s.control.Starting? then s.control.i else -1
    case WorkerReady => if s.control.Waiting? then s.control.i else -1
    case _ => -1
  }

  /** Workers only gain: none is unstarted or loses its ready signal. */
  predicate Gains(s: State, t: State) {
    && |t.workers| == |s.workers|
    && (s.cancelled ==> t.cancelled)
    && forall j :: 0 <= j < |s.workers| ==>
         && (Began(s.workers[j]) <==> Began(t.workers[j]))
         && (s.workers[j].ready ==> t.workers[j].ready)
  }

  predicate IsWorkerStep(step: Step) { step.Return? || step.Cancel? || step.LeaveGroup? }

  lemma WorkerStepKeepsInv(s: State, step: Step)
    requires Inv(s) && IsWorkerStep(step) && Apply(s, step).Some?
    ensures Inv(Apply(s, step).value)
  {
    var t := Apply(s, step).value;
    ActiveUpdate(s.workers, step.i, t.workers[step.i]);
    assert Gains(s, t);
    assert ControlFits(t) by {
      if t.control.Draining? || t.control.ReturnedNil? { NoneActive(s.workers); }
    }
  }

  lemma SupervisorStepKeepsInv(s: State, step: Step)
    requires Inv(s) && !IsWorkerStep(step) && Apply(s, step).Some?
    ensures Inv(Apply(s, step).value)
  {
    var t := Apply(s, step).value;
    if step.StartWorker? || step.WorkerReady? { ActiveUpdate(s.workers, s.control.i, t.workers[s.control.i]); }
  }

  lemma StepKeepsInv(s: State, step: Step)
    requires Inv(s) && Apply(s, step).Some?
    ensures Inv(Apply(s, step).value)
  {
    if IsWorkerStep(step) { WorkerStepKeepsInv(s, step); } else { SupervisorStepKeepsInv(s, step); }
  }

  lemma {:induction false} RunKeepsInv(s: State, steps: seq<Step>)
    requires Inv(s) && Run(s, steps).Some?
    ensures Inv(Run(s, steps).value)
    decreases |steps|
  {
    if steps != [] {
      StepKeepsInv(s, steps[0]);
      RunKeepsInv(Apply(s, steps[0]).value, steps[1..]);
    }
  }

  /** Over every interleaving, for any number of workers. A worker is started only when all those before it have
      signalled that they are ready; the wait group counts the workers that were started and have not left it; a
      worker that left it has cancelled the context before; the supervisor returns nil only after every started worker
      has left; and it stops serving only when the context is cancelled. */
  lemma EveryRunIsSafe(n: nat, steps: seq<Step>)
    requires Run(Initial(n), steps).Some?
    ensures var s := Run(Initial(n), steps).value;
            && (Apply(s, StartWorker).Some? ==>
                  s.control.i < n && |s.workers| == n && forall j :: 0 <= j < s.control.i ==> s.workers[j].ready)
            && s.waitGroup == Active(s.workers)
            && (forall j :: 0 <= j < |s.workers| && s.workers[j].phase == Done ==> s.cancelled)
            && (s.control == ReturnedNil ==> forall j :: 0 <= j < |s.workers| ==> !InGroup(s.workers[j]))
            && (s.control.Draining? || s.control.ReturnedNil? || s.control.ReturnedTimeout? ==> s.cancelled)
  {
    InitialInv(n);
    RunKeepsInv(Initial(n), steps);
    RunKeepsCount(Initial(n), steps);
    NoneActive(Run(Initial(n), steps).value.workers);
  }

  lemma {:induction false} RunKeepsCount(s: State, steps: seq<Step>)
    requires Run(s, steps).Some?
    ensures |Run(s, steps).value.workers| == |s.workers|
    decreases |steps|
  {
    if steps != [] { RunKeepsCount(Apply(s, steps[0]).value, steps[1..]); }
  }

  // ---------- What the ready signal means ----------

  predicate InLoop(s: State) { s.control.Starting? || s.control.Waiting? }

  /** No worker from the loop index on has signalled yet. */
  predicate NoneReadyAhead(s: State) {
    InLoop(s) ==> forall j :: s.control.i <= j < |s.workers| ==> !s.workers[j].ready
  }

  /** The two branches of the select that leave the loop. */
  predicate Breaks(step: Step) { step.WorkerTimeout? || step.ContextDone? }

  predicate NoneBreaks(steps: seq<Step>) { forall k :: 0 <= k < |steps| ==> !Breaks(steps[k]) }

  lemma BehindTheLoop(s: State, step: Step)
    requires !InLoop(s) && Apply(s, step).Some?
    ensures var t := Apply(s, step).value; !Breaks(step) && !InLoop(t) && (AllReady(t) <==> AllReady(s))
  {
    var t := Apply(s, step).value;
    assert |t.workers| == |s.workers|;
    assert forall j :: 0 <= j < |s.workers| ==> Began(t.workers[j]) == Began(s.workers[j]);
    assert forall j :: 0 <= j < |s.workers| ==> t.workers[j].ready == s.workers[j].ready;
  }

  lemma LeavingTheLoop(s: State, step: Step)
    requires Inv(s) && NoneReadyAhead(s) && InLoop(s) && Apply(s, step).Some?
    ensures var t := Apply(s, step).value;
            && NoneReadyAhead(t)
            && (Breaks(step) ==> !InLoop(t))
            && (!InLoop(t) ==> (AllReady(t) <==> !Breaks(step)))
  {
    if Breaks(step) { assert !s.workers[s.control.i].ready; }
  }

  lemma {:induction false} ReadyIffFrom(s: State, steps: seq<Step>)
    requires Inv(s) && NoneReadyAhead(s) && Run(s, steps).Some?
    ensures var t := Run(s, steps).value;
            if InLoop(s) then !InLoop(t) ==> (AllReady(t) <==> NoneBreaks(steps))
            else !InLoop(t) && NoneBreaks(steps) && (AllReady(t) <==> AllReady(s))
    decreases |steps|
  {
    if steps != [] {
      var next, rest := Apply(s, steps[0]).value, steps[1..];
      StepKeepsInv(s, steps[0]);
      if InLoop(s) { LeavingTheLoop(s, steps[0]); } else { BehindTheLoop(s, steps[0]); }
      ReadyIffFrom(next, rest);
      assert NoneBreaks(steps) <==> !Breaks(steps[0]) && NoneBreaks(rest) by {
        assert forall k :: 0 < k < |steps| ==> steps[k] == rest[k - 1];
        assert forall k :: 0 <= k < |rest| ==> rest[k] == steps[k + 1];
      }
    }
  }

  /** When the caller is told that the supervisor is ready, all workers are if and only if the loop was left neither
      because a worker timed out nor because the context was done. */
  lemma ReadySignalIsTrueIff(n: nat, steps: seq<Step>)
    requires Run(Initial(n), steps).Some? && Apply(Run(Initial(n), steps).value, CallerReady).Some?
    ensures AllReady(Run(Initial(n), steps).value) <==>
            forall k :: 0 <= k < |steps| ==> !steps[k].WorkerTimeout? && !steps[k].ContextDone?
  {
    InitialInv(n);
    ReadyIffFrom(Initial(n), steps);
    assert NoneBreaks(steps) <==> forall k :: 0 <= k < |steps| ==> !Breaks(steps[k]);
  }

  /** The caller is never told so before all workers are ready, unless the context is cancelled. */
  lemma ReadyMeansReadyOrCancelled(n: nat, steps: seq<Step>)
    requires Run(Initial(n), steps).Some? && Apply(Run(Initial(n), steps).value, CallerReady).Some?
    ensures var s := Run(Initial(n), steps).value; AllReady(s) || s.cancelled
  {
    InitialInv(n);
    RunKeepsInv(Initial(n), steps);
  }

  /** A false signal: one worker, that never is ready. */
  lemma ReadyWithoutAReadyWorker()
    ensures var s := Run(Initial(1), [StartWorker, WorkerTimeout]);
            s.Some? && Apply(s.value, CallerReady).Some? && !s.value.workers[0].ready
  {
    var s1 := Apply(Initial(1), StartWorker).value;
    assert [StartWorker, WorkerTimeout][1..] == [WorkerTimeout];
    assert Apply(s1, WorkerTimeout).Some?;
  }

  // ---------- What the supervisor returns ----------

  lemma {:induction false} ReturnReasonFrom(s: State, steps: seq<Step>)
    requires Run(s, steps).Some?
    ensures var t := Run(s, steps).value;
            && (t.control == ReturnedTimeout <==> s.control == ReturnedTimeout || DrainTimeout in steps)
            && (t.control == ReturnedNil <==> s.control == ReturnedNil || ReceiveWait in steps)
    decreases |steps|
  {
    if steps != [] {
      ReturnReasonFrom(Apply(s, steps[0]).value, steps[1..]);
      assert forall x :: x in steps <==> x == steps[0] || x in steps[1..];
      if s.control == ReturnedTimeout || s.control == ReturnedNil {
        assert steps[0] != DrainTimeout && steps[0] != ReceiveWait;
        assert Apply(s, steps[0]).value.control == s.control;
      }
    }
  }

  /** In every run the supervisor returns the timeout error if and only if the timer fired while it drained, and nil if
      and only if it heard that the wait group was empty. */
  lemma ReturnReason(n: nat, steps: seq<Step>)
    requires Run(Initial(n), steps).Some?
    ensures var s := Run(Initial(n), steps).value;
            && (s.control == ReturnedTimeout <==> DrainTimeout in steps)
            && (s.control == ReturnedNil <==> ReceiveWait in steps)
  {
    ReturnReasonFrom(Initial(n), steps);
  }

  /** The start loop is over and the caller has been told. */
  predicate Told(c: Control) { c.Serving? || c.Draining? || c.ReturnedNil? || c.ReturnedTimeout? }

  lemma {:induction false} ToldFrom(s: State, steps: seq<Step>)
    requires Run(s, steps).Some?
    ensures Told(Run(s, steps).value.control) <==> Told(s.control) || CallerReady in steps
    decreases |steps|
  {
    if steps != [] {
      assert forall x :: x in steps <==> x == steps[0] || x in steps[1..];
      ToldFrom(Apply(s, steps[0]).value, steps[1..]);
    }
  }

  /** In every run the supervisor serves, drains or returns only after it has told the caller that it is ready. */
  lemma CallerIsToldFirst(n: nat, steps: seq<Step>)
    requires Run(Initial(n), steps).Some?
    ensures Told(Run(Initial(n), steps).value.control) <==> CallerReady in steps
  {
    ToldFrom(Initial(n), steps);
  }

  /** Once the context is done, a supervisor that waits for a worker need not wait on: it can tell the caller and
      drain. */
  lemma CancelEndsWaiting(s: State)
    requires s.control.Waiting? && s.cancelled
    ensures Run(s, [ContextDone, CallerReady, StopServing]) == Some(s.(control := Draining(false)))
  {
    var announcing, serving := s.(control := Announcing), s.(control := Serving);
    assert Apply(s, ContextDone) == Some(announcing) && Apply(announcing, CallerReady) == Some(serving);
    assert Run(serving, [StopServing]) == Some(s.(control := Draining(false))) by { assert [StopServing][1..] == []; }
    assert [CallerReady, StopServing][1..] == [StopServing];
    assert [ContextDone, CallerReady, StopServing][1..] == [CallerReady, StopServing];
    assert Run(announcing, [CallerReady, StopServing]) == Run(serving, [StopServing]);
  }

  /** In every run, once the context is done and every started worker has left, the supervisor can return nil, and its
      timer is the only other thing that can end the drain. */
  lemma CleanDrainReturnsNil(n: nat, steps: seq<Step>)
    requires Run(Initial(n), steps).Some?
    requires var s := Run(Initial(n), steps).value;
             s.control == Draining(false) && forall j :: 0 <= j < |s.workers| ==> !InGroup(s.workers[j])
    ensures var s := Run(Initial(n), steps).value;
            Run(s, [WaitGroupEmpty, ReceiveWait]) == Some(s.(control := ReturnedNil))
  {
    InitialInv(n);
    RunKeepsInv(Initial(n), steps);
    var s := Run(Initial(n), steps).value;
    NoneActive(s.workers);
    var released := s.(control := Draining(true));
    assert Apply(s, WaitGroupEmpty) == Some(released);
    assert Apply(released, ReceiveWait) == Some(s.(control := ReturnedNil));
    assert [WaitGroupEmpty, ReceiveWait][1..] == [ReceiveWait] && [ReceiveWait][1..] == [];
    assert Run(released, [ReceiveWait]) == Some(s.(control := ReturnedNil));
  }

  lemma {:induction false} RunOneMore(s: State, steps: seq<Step>, step: Step)
    requires Run(s, steps).Some?
    ensures Run(s, steps + [step]) == Apply(Run(s, steps).value, step)
    decreases |steps|
  {
    if steps == [] {
      assert [] + [step] == [step] && [step][1..] == [];
    } else {
      assert (steps + [step])[0] == steps[0] && (steps + [step])[1..] == steps[1..] + [step];
      RunOneMore(Apply(s, steps[0]).value, steps[1..], step);
    }
  }

  function WithOne(phase: Phase, ready: bool, control: Control, cancelled: bool, waitGroup: int): State {
    State([Worker(phase, ready)], control, cancelled, waitGroup)
  }

  const ONE_WORKER_EXITS := [StartWorker, WorkerReady, LeaveLoop, CallerReady, Return(0), Cancel(0), LeaveGroup(0),
                             StopServing, WaitGroupEmpty, ReceiveWait]

  lemma OneWorkerServes()
    ensures Run(Initial(1), ONE_WORKER_EXITS[..4]) == Some(WithOne(Running, true, Serving, false, 1))
  {
    var steps := ONE_WORKER_EXITS;
    assert forall w: Worker, x: Worker :: [w][0 := x] == [x];
    assert steps[..0] == [] && Initial(1) == WithOne(NotStarted, false, Starting(0), false, 0);
    TakesStep(steps, 0, WithOne(NotStarted, false, Starting(0), false, 0),
              WithOne(Running, false, Waiting(0), false, 1));
    TakesStep(steps, 1, WithOne(Running, false, Waiting(0), false, 1), WithOne(Running, true, Starting(1), false, 1));
    TakesStep(steps, 2, WithOne(Running, true, Starting(1), false, 1), WithOne(Running, true, Announcing, false, 1));
    TakesStep(steps, 3, WithOne(Running, true, Announcing, false, 1), WithOne(Running, true, Serving, false, 1));
  }

  lemma OneWorkerLeaves()
    ensures Run(Initial(1), ONE_WORKER_EXITS[..7]) == Some(WithOne(Done, true, Serving, true, 0))
  {
    var steps := ONE_WORKER_EXITS;
    OneWorkerServes();
    assert forall w: Worker, x: Worker :: [w][0 := x] == [x];
    TakesStep(steps, 4, WithOne(Running, true, Serving, false, 1), WithOne(Returned, true, Serving, false, 1));
    TakesStep(steps, 5, WithOne(Returned, true, Serving, false, 1), WithOne(Cancelling, true, Serving, true, 1));
    TakesStep(steps, 6, WithOne(Cancelling, true, Serving, true, 1), WithOne(Done, true, Serving, true, 0));
  }

  lemma OneWorkerDrains()
    ensures Run(Initial(1), ONE_WORKER_EXITS[..10]) == Some(WithOne(Done, true, ReturnedNil, true, 0))
  {
    var steps := ONE_WORKER_EXITS;
    OneWorkerLeaves();
    TakesStep(steps, 7, WithOne(Done, true, Serving, true, 0), WithOne(Done, true, Draining(false), true, 0));
    TakesStep(steps, 8, WithOne(Done, true, Draining(false), true, 0), WithOne(Done, true, Draining(true), true, 0));
    TakesStep(steps, 9, WithOne(Done, true, Draining(true), true, 0), WithOne(Done, true, ReturnedNil, true, 0));
  }

  /** A whole run with one worker: it starts, the caller is told, the worker exits, and the supervisor returns nil. */
  lemma OneWorkerExits()
    ensures Run(Initial(1), ONE_WORKER_EXITS) == Some(WithOne(Done, true, ReturnedNil, true, 0))
  {
    OneWorkerDrains();
    assert ONE_WORKER_EXITS[..10] == ONE_WORKER_EXITS;
  }

  lemma TakesStep(steps: seq<Step>, k: nat, s: State, t: State)
    requires k < |steps| && Run(Initial(1), steps[..k]) == Some(s) && Apply(s, steps[k]) == Some(t)
    ensures Run(Initial(1), steps[..k + 1]) == Some(t)
  {
    assert steps[..k + 1] == steps[..k] + [steps[k]];
    RunOneMore(Initial(1), steps[..k], steps[k]);
  }

  // ---------- Every run ends ----------

  function WorkerRank(w: Worker): nat {
    match w.phase
    case NotStarted => 5
    case Running => if w.ready then 3 else 4
    case Returned => 2
    case Cancelling => 1
    case Done => 0
  }

  function WorkerRanks(ws: seq<Worker>): nat { if ws == [] then 0 else WorkerRank(ws[0]) + WorkerRanks(ws[1..]) }

  function ControlRank(s: State): int {
    match s.control
    case Starting(i) => 2 * (|s.workers| - i) + 6
    case Waiting(i) => 2 * (|s.workers| - i) + 5
    case Announcing => 4
    case Serving => 3
    case Draining(released) => if released then 1 else 2
    case _ => 0
  }

  /** A bound on the steps that are left. */
  function Rank(s: State): int { WorkerRanks(s.workers) + ControlRank(s) + (if s.cancelled then 0 else 1) }

  lemma {:induction false} RanksUpdate(ws: seq<Worker>, i: nat, w: Worker)
    requires i < |ws|
    ensures WorkerRanks(ws[i := w]) == WorkerRanks(ws) + WorkerRank(w) - WorkerRank(ws[i])
  {
    if i == 0 {
      assert ws[0 := w][1..] == ws[1..];
    } else {
      RanksUpdate(ws[1..], i - 1, w);
      assert ws[i := w][1..] == ws[1..][i - 1 := w];
    }
  }

  lemma {:induction false} InitialRank(n: nat)
    ensures WorkerRanks(Initial(n).workers) == 5 * n
  {
    if n > 0 {
      InitialRank(n - 1);
      assert Initial(n).workers[1..] == Initial(n - 1).workers;
    }
  }

  lemma StepLowersRank(s: State, step: Step)
    requires Inv(s) && Apply(s, step).Some?
    ensures Rank(Apply(s, step).value) < Rank(s)
  {
    var t, i := Apply(s, step).value, Subject(s, step);
    if i >= 0 { RanksUpdate(s.workers, i, t.workers[i]); }
  }

  lemma RankIsNatural(s: State)
    requires Inv(s)
    ensures 0 <= Rank(s)
  {
  }

  lemma {:induction false} RunsAreShort(s: State, steps: seq<Step>)
    requires Inv(s) && Run(s, steps).Some?
    ensures |steps| <= Rank(s)
    decreases |steps|
  {
    RankIsNatural(s);
    if steps != [] {
      StepLowersRank(s, steps[0]);
      StepKeepsInv(s, steps[0]);
      RunsAreShort(Apply(s, steps[0]).value, steps[1..]);
    }
  }

  /** The state is final: nothing is left to happen. */
  predicate Finished(s: State) {
    && (s.control.ReturnedNil? || s.control.ReturnedTimeout?)
    && forall j :: 0 <= j < |s.workers| ==> !InGroup(s.workers[j])
  }

  lemma NothingIsLeft(s: State)
    requires Inv(s) && forall step :: Apply(s, step).None?
    ensures Finished(s) && s.cancelled
  {
    assert Apply(s, CallerCancels).None?;
    assert Apply(s, StartWorker).None? && Apply(s, LeaveLoop).None? && Apply(s, WorkerTimeout).None?;
    assert Apply(s, CallerReady).None? && Apply(s, StopServing).None? && Apply(s, DrainTimeout).None?;
    forall j | 0 <= j < |s.workers| ensures !InGroup(s.workers[j]) {
      assert Apply(s, Return(j)).None? && Apply(s, Cancel(j)).None? && Apply(s, LeaveGroup(j)).None?;
    }
  }

  lemma NothingMoves(s: State, step: Step)
    requires Inv(s) && Finished(s) && s.cancelled
    ensures Apply(s, step).None?
  {
  }

  /** No run is longer than 7n + 7 steps, and only a finished one cannot go on: when the Start of every worker returns
      in the end, then so does the supervisor's, whatever the order of events. */
  lemma EveryRunEnds(n: nat, steps: seq<Step>)
    requires Run(Initial(n), steps).Some?
    ensures |steps| <= 7 * n + 7
    ensures var s := Run(Initial(n), steps).value;
            (forall step :: Apply(s, step).None?) <==> Finished(s) && s.cancelled
  {
    InitialInv(n);
    InitialRank(n);
    RunsAreShort(Initial(n), steps);
    RunKeepsInv(Initial(n), steps);
    var s := Run(Initial(n), steps).value;
    if Finished(s) && s.cancelled {
      forall step ensures Apply(s, step).None? { NothingMoves(s, step); }
    } else if forall step :: Apply(s, step).None? {
      NothingIsLeft(s);
    }
  }
}
