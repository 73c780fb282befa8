/** How often the callback of a request runs. Leaving a queue does not clear a request's links, so a request that was called
    back with ECANCELED can be cancelled again, and is then called back again. */
module ThreadPoolCancel {
  import opened ThreadPool
  import opened ThreadPoolProof

  /** A request that was called back before is cancelled again. */
  predicate CancelledLate(run: seq<State>, steps: seq<Step>, k: nat, id: nat)
    requires k < |steps| < |run|
  {
    steps[k] == Cancel(id) && id in run[k].requests && run[k].requests[id].done != []
  }

  function IsDrained(place: Places, id: nat): nat {
    if id in place && place[id] == Drained then 1 else 0
  }

  /** How often a request was cancelled while in no queue. */
  ghost function LateCancels(n: nat, run: seq<State>, steps: seq<Step>, i: nat, id: nat): nat
    requires IsRun(n, run, steps) && i <= |steps|
  {
    if i == 0 then 0
    else
      LateCancels(n, run, steps, i - 1, id) +
      if steps[i - 1] == Cancel(id) then IsDrained(PlacesAt(run, steps, i - 1), id) else 0
  }

  // ----- step by step -----

  function Callbacks(s: State, id: nat): nat {
    if id in s.requests then |s.requests[id].done| else 0
  }

  /** A callback is given to the request that was taken out of its queue, and to no other. */
  lemma StepCounts(s: State, place: Places, step: Step, id: nat)
    requires InvPlaces(s, place) && Enabled(s, step)
    ensures Callbacks(Apply(s, step), id) + IsDrained(place, id) ==
            Callbacks(s, id) + IsDrained(Placed(s, place, step), id) + if step == Cancel(id) then IsDrained(place, id) else 0
    ensures Callbacks(Apply(s, step), id) >= Callbacks(s, id)
  {
    match step
    case Post(_, _, _, _) => PostCounts(s, place, step, id);
    case Turn(i, who) => TurnCallsNobody(s, i, who, id); TurnDrainsNobody(s, place, i, who, id);
    case HandOver(i) => HandOverCounts(s, place, i, id);
    case FinishCancel(d) => assert IsAt(place, d, HeldByCancel);
    case CallBack(l) => CallBackCounts(s, place, l, id);
    case _ =>
  }

  lemma TurnCallsNobody(s: State, i: nat, who: nat, id: nat)
    requires i < |s.workers|
    ensures Callbacks(Turned(s, i, who), id) == Callbacks(s, id)
  {
  }

  lemma TurnDrainsNobody(s: State, place: Places, i: nat, who: nat, id: nat)
    requires MainHolds(s.wq, place) && ListHolds(s.pendingSlow, place, SlowQueue) && Enabled(s, Turn(i, who))
    ensures IsDrained(Placed(s, place, Turn(i, who)), id) == IsDrained(place, id)
  {
    if !s.MustWait() {
      if s.wq[0].Item? {
        assert Item(s.wq[0].id) in s.wq;
        assert IsAt(place, s.wq[0].id, MainQueue);
      } else if s.pendingSlow != [] {
        assert s.pendingSlow[0] in s.pendingSlow;
        assert IsAt(place, s.pendingSlow[0], SlowQueue);
      }
    }
  }

  lemma PostCounts(s: State, place: Places, step: Step, id: nat)
    requires InvPlaces(s, place) && Enabled(s, step) && step.Post?
    ensures Callbacks(Apply(s, step), id) == Callbacks(s, id)
    ensures IsDrained(Placed(s, place, step), id) == IsDrained(place, id)
  {
  }

  lemma HandOverCounts(s: State, place: Places, i: nat, id: nat)
    requires InvPlaces(s, place) && Enabled(s, HandOver(i))
    ensures Callbacks(HandedOver(s, i), id) == Callbacks(s, id)
    ensures IsDrained(Placed(s, place, HandOver(i)), id) == IsDrained(place, id)
  {
    assert WorksOn(s.workers[i], s.workers[i].id);
    assert IsAt(place, s.workers[i].id, OnWorker(i));
  }

  lemma CallBackCounts(s: State, place: Places, l: nat, id: nat)
    requires InvPlaces(s, place) && Enabled(s, CallBack(l))
    ensures Callbacks(CalledBack(s, l), id) + IsDrained(place, id) ==
            Callbacks(s, id) + IsDrained(Placed(s, place, CallBack(l)), id)
    ensures Callbacks(CalledBack(s, l), id) >= Callbacks(s, id)
  {
    var d := s.Local(l)[0];
    assert d in s.Local(l) && ListHolds(s.Local(l), place, InLocal(l));
    assert IsAt(place, d, InLocal(l));
  }

  // ----- over whole runs -----

  /** Every request is called back once for its submission and once for every time it was cancelled while in no queue, as
      soon as it is out of the pool's hands again. */
  lemma {:induction false} CallbacksCounted(n: nat, run: seq<State>, steps: seq<Step>, i: nat, id: nat)
    requires IsRun(n, run, steps) && i <= |steps|
    ensures Callbacks(run[i], id) == LateCancels(n, run, steps, i, id) + IsDrained(PlacesAt(run, steps, i), id)
  {
    if i > 0 {
      CallbacksCounted(n, run, steps, i - 1, id);
      RunHolds(n, run, steps, i - 1);
      assert StepAt(run, steps, i - 1);
      StepCounts(run[i - 1], PlacesAt(run, steps, i - 1), steps[i - 1], id);
    }
  }

  lemma {:induction false} CallbacksGrow(n: nat, run: seq<State>, steps: seq<Step>, k: nat, i: nat, id: nat)
    requires IsRun(n, run, steps) && k <= i <= |steps|
    ensures Callbacks(run[k], id) <= Callbacks(run[i], id)
  {
    if k < i {
      CallbacksGrow(n, run, steps, k, i - 1, id);
      RunHolds(n, run, steps, i - 1);
      assert StepAt(run, steps, i - 1);
      StepCounts(run[i - 1], PlacesAt(run, steps, i - 1), steps[i - 1], id);
    }
  }

  lemma {:induction false} FirstLateCancel(n: nat, run: seq<State>, steps: seq<Step>, i: nat, id: nat) returns (k: nat)
    requires IsRun(n, run, steps) && i <= |steps| && LateCancels(n, run, steps, i, id) > 0
    ensures k < i && CancelledLate(run, steps, k, id) && Callbacks(run[k], id) == 1
  {
    if LateCancels(n, run, steps, i - 1, id) > 0 {
      k := FirstLateCancel(n, run, steps, i - 1, id);
    } else {
      k := i - 1;
      CallbacksCounted(n, run, steps, k, id);
    }
  }

  /** The callback of a request runs at most once, unless it is cancelled after its callback was given ECANCELED. */
  lemma CalledBackOnce(n: nat, run: seq<State>, steps: seq<Step>, i: nat, id: nat)
    requires IsRun(n, run, steps) && i <= |steps| && id in run[i].requests
    requires forall k | 0 <= k < i :: !CancelledLate(run, steps, k, id)
    ensures |run[i].requests[id].done| <= 1
    ensures run[i].requests[id].done != [] <==> IsAt(PlacesAt(run, steps, i), id, Drained)
  {
    RunHolds(n, run, steps, i);
    CallbacksCounted(n, run, steps, i, id);
    if LateCancels(n, run, steps, i, id) > 0 {
      var k := FirstLateCancel(n, run, steps, i, id);
      assert false;
    }
  }

  /** It runs more than once if and only if the request was cancelled after a callback, and called back since. */
  lemma CalledBackAgainIff(n: nat, run: seq<State>, steps: seq<Step>, i: nat, id: nat)
    requires IsRun(n, run, steps) && i <= |steps|
    ensures Callbacks(run[i], id) > 1 <==>
            exists k :: 0 <= k < i && CancelledLate(run, steps, k, id) && Callbacks(run[k], id) < Callbacks(run[i], id)
  {
    CallbacksCounted(n, run, steps, i, id);
    if Callbacks(run[i], id) > 1 {
      var k := FirstLateCancel(n, run, steps, i, id);
      assert CancelledLate(run, steps, k, id);
    }
  }

  /** Every callback is given status 0 exactly when the work ran, and ECANCELED exactly when it never did. */
  lemma StatusTellsWhetherItRan(n: nat, run: seq<State>, steps: seq<Step>, i: nat, id: nat, k: nat)
    requires IsRun(n, run, steps) && i <= |steps| && id in run[i].requests && k < |run[i].requests[id].done|
    ensures run[i].requests[id].done[k] == if run[i].requests[id].ran then 0 else ECANCELED
  {
    RunHolds(n, run, steps, i);
    assert RequestHolds(run[i].requests[id], PlacesAt(run, steps, i)[id], run[i].workers);
  }

  /** Only a request whose callback was given ECANCELED can be cancelled late: after status 0 the answer is EBUSY. */
  lemma OnlyCancelledAgain(n: nat, run: seq<State>, steps: seq<Step>, i: nat, id: nat)
    requires IsRun(n, run, steps) && i <= |steps| && id in run[i].requests && run[i].requests[id].done != []
    ensures CanCancel(run[i], id) <==> ECANCELED in run[i].requests[id].done
  {
    RunHolds(n, run, steps, i);
    assert RequestHolds(run[i].requests[id], PlacesAt(run, steps, i)[id], run[i].workers);
    StatusTellsWhetherItRan(n, run, steps, i, id, 0);
    if ECANCELED in run[i].requests[id].done {
      var k: nat :| k < |run[i].requests[id].done| && run[i].requests[id].done[k] == ECANCELED;
      StatusTellsWhetherItRan(n, run, steps, i, id, k);
    }
  }

  /** Before its first callback, the links of a request that can be cancelled always lead to neighbours. */
  lemma FirstCancelIsSafe(n: nat, run: seq<State>, steps: seq<Step>, i: nat, id: nat)
    requires IsRun(n, run, steps) && i <= |steps| && id in run[i].requests && id !in run[i].held
    requires run[i].requests[id].done == [] && CanCancel(run[i], id)
    ensures IsQueued(run[i], id)
  {
    RunHolds(n, run, steps, i);
    var s, place := run[i], PlacesAt(run, steps, i);
    var l := s.requests[id].loop;
    assert RequestHolds(s.requests[id], place[id], s.workers);
    assert ListHolds(s.LoopQueue(l), place, InLoopQueue(l)) && ListHolds(s.Local(l), place, InLocal(l));
    assert Item(id) in s.wq <==> IsAt(place, id, MainQueue);
    assert id in s.held <==> IsAt(place, id, HeldByCancel);
  }

  // ----- such a run -----

  /** A run goes on with one more step. */
  lemma Goes(n: nat, run: seq<State>, steps: seq<Step>, step: Step) returns (run': seq<State>, steps': seq<Step>)
    requires IsRun(n, run, steps) && Enabled(run[|steps|], step)
    ensures IsRun(n, run', steps') && steps' == steps + [step] && run'[|steps'|] == Apply(run[|steps|], step)
  {
    run', steps' := run + [Apply(run[|steps|], step)], steps + [step];
    forall i {:trigger StepAt(run', steps', i)} | 0 <= i < |steps'| ensures StepAt(run', steps', i) {
      if i < |steps| {
        assert StepAt(run, steps, i);
      }
    }
  }

  /** Cancelling a request that may be cancelled, when its loop has nothing else to call back, leads to a callback with
      ECANCELED. */
  lemma CancelCallsBack(n: nat, run: seq<State>, steps: seq<Step>, id: nat) returns (run': seq<State>, steps': seq<Step>)
    requires IsRun(n, run, steps) && Enabled(run[|steps|], Cancel(id))
    requires
      var s := run[|steps|];
      var l := s.requests[id].loop;
      s.LoopQueue(l) == [] && s.Local(l) == []
    ensures IsRun(n, run', steps')
    ensures
      var s, s' := run[|steps|], run'[|steps'|];
      var r := s.requests[id];
      && steps' == steps + [Cancel(id), FinishCancel(id), Move(r.loop), CallBack(r.loop)]
      && s'.requests == s.requests[id := Request(r.loop, r.slow, Cancelled, r.ran, true, r.done + [ECANCELED])]
      && s'.LoopQueue(r.loop) == [] && s'.Local(r.loop) == [] && id !in s'.held && !s'.locked && LinksLead(s', id)
  {
    var l := run[|steps|].requests[id].loop;
    run', steps' := Goes(n, run, steps, Cancel(id));
    run', steps' := Goes(n, run', steps', FinishCancel(id));
    run', steps' := Goes(n, run', steps', Move(l));
    run', steps' := Goes(n, run', steps', CallBack(l));
  }

  /** So whoever cancels a request during the callback that was given ECANCELED is called back again. */
  lemma LateCancelCallsBack(n: nat, run: seq<State>, steps: seq<Step>, id: nat) returns (run': seq<State>, steps': seq<Step>)
    requires IsRun(n, run, steps) && id in run[|steps|].requests && ECANCELED in run[|steps|].requests[id].done
    requires !run[|steps|].locked && id !in run[|steps|].held && LinksLead(run[|steps|], id)
    requires var s := run[|steps|]; s.LoopQueue(s.requests[id].loop) == [] && s.Local(s.requests[id].loop) == []
    ensures IsRun(n, run', steps') && |steps| < |steps'| && steps'[..|steps|] == steps && steps'[|steps|] == Cancel(id)
    ensures Callbacks(run'[|steps'|], id) == Callbacks(run[|steps|], id) + 1
  {
    OnlyCancelledAgain(n, run, steps, |steps|, id);
    run', steps' := CancelCallsBack(n, run, steps, id);
  }

  /** One request, cancelled while queued and once more during its callback: it is called back twice. */
  lemma CancelledTwiceCalledTwice(n: nat) returns (run: seq<State>, steps: seq<Step>)
    ensures IsRun(n, run, steps) && 0 in run[|steps|].requests
    ensures run[|steps|].requests[0].done == [ECANCELED, ECANCELED] && !run[|steps|].requests[0].ran
    ensures steps == [Post(0, 0, false, 0)] +
                     [Cancel(0), FinishCancel(0), Move(0), CallBack(0)] + [Cancel(0), FinishCancel(0), Move(0), CallBack(0)]
  {
    assert IsRun(n, [Created(n)], []);
    run, steps := Goes(n, [Created(n)], [], Post(0, 0, false, 0));
    run, steps := CancelCallsBack(n, run, steps, 0);
    run, steps := CancelCallsBack(n, run, steps, 0);
  }
}
