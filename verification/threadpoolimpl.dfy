/** The pool's object: what a poster, a worker and a canceller do while they hold the mutex. */
module ThreadPoolImpl {
  import opened ThreadPool
  import opened ThreadPoolProof

  function Rank(wq: seq<Message>): nat {
    if wq != [] && wq[0] == RunSlow then 1 else 0
  }

  /** The turn ends with the mutex released. */
  predicate Leaves(s: State) {
    s.MustWait() || s.wq[0].Item? || (s.slowRunning < s.Threshold() && s.pendingSlow != [])
  }

  /** The worker loop from where it holds the mutex to where it lets go of it. */
  function Dispatched(s: State, i: nat, who: nat): State
    requires NoDup(s.wq) && i < |s.workers| && s.workers[i].Looping?
    decreases |s.wq|, Rank(s.wq)
  {
    if Leaves(s) then Turned(s, i, who)
    else
      StaysLooping(s, i, who);
      Dispatched(Turned(s, i, who), i, who)
  }

  /** A turn that does not leave gets closer to leaving. */
  lemma StaysLooping(s: State, i: nat, who: nat)
    requires NoDup(s.wq) && i < |s.workers| && s.workers[i].Looping? && !Leaves(s)
    ensures var s' := Turned(s, i, who);
            && s' == s.(wq := s'.wq) && NoDup(s'.wq)
            && (|s'.wq| < |s.wq| || (|s'.wq| == |s.wq| && Rank(s'.wq) < Rank(s.wq)))
  {
    MainRotatedNoDup(s.wq, true);
    PopFront(s.wq);
    assert |s.wq| > 1 ==> s.wq[1] != s.wq[0];
  }

  /** The turns of the loop are steps of the pool, and keep what steps keep. */
  lemma {:induction false} DispatchedHolds(s: State, i: nat, who: nat, place: Places) returns (place': Places)
    requires InvPool(s) && InvPlaces(s, place) && Enabled(s, Turn(i, who))
    ensures InvPool(Dispatched(s, i, who)) && InvPlaces(Dispatched(s, i, who), place')
    decreases |s.wq|, Rank(s.wq)
  {
    var t := Turned(s, i, who);
    place' := Placed(s, place, Turn(i, who));
    StepHolds(s, place, Turn(i, who), t, place');
    if !Leaves(s) {
      StaysLooping(s, i, who);
      place' := DispatchedHolds(t, i, who, place');
    }
  }

  class Pool {
    var wq: seq<Message>
    var pendingSlow: seq<nat>
    var workers: seq<Worker>
    var idle: nat
    var slowRunning: nat
    var locked: bool
    var requests: map<nat, Request>
    var loopQueues: map<nat, seq<nat>>
    var local_: map<nat, seq<nat>>
    var held: set<nat>
    ghost var lastOut: map<nat, nat>

    ghost function Abs(): State
      reads this
    {
      State(wq, pendingSlow, workers, idle, slowRunning, locked, requests, loopQueues, local_, held, lastOut)
    }

    method Signal(who: nat)
      modifies this`workers
      ensures Abs() == ThreadPool.Signal(old(Abs()), who)
    {
      if idle > 0 && who < |workers| && workers[who].Sleeping? {
        workers := workers[who := Woken];
      }
    }

    method Post(id: nat, loop: nat, slow: bool, who: nat)
      modifies this`wq, this`pendingSlow, this`requests, this`workers
      ensures Abs() == Posted(old(Abs()), id, loop, slow, who)
    {
      requests := requests[id := Request(loop, slow, Todo, false, true, [])];
      var message := Item(id);
      if slow {
        pendingSlow := pendingSlow + [id];
        if RunSlow in wq {
          // The worker that runs the pending message will schedule this one as well.
          return;
        }
        message := RunSlow;
      }
      wq := wq + [message];
      Signal(who);
    }

    method TakeItem(i: nat, id: nat, isSlow: bool)
      requires i < |workers|
      modifies this`workers, this`locked, this`requests
      ensures Abs() == old(Abs()).(workers := old(workers)[i := Running(id, isSlow)], locked := false,
                                   requests := Unlinked(old(requests), id))
    {
      if id in requests {
        requests := requests[id := requests[id].(linked := false)];
      }
      workers := workers[i := Running(id, isSlow)];
      locked := false;
    }

    method TakeSlow(i: nat, who: nat)
      requires i < |workers| && pendingSlow != []
      modifies this`wq, this`pendingSlow, this`workers, this`slowRunning, this`locked, this`requests
      ensures var s := old(Abs()); Abs() == SlowTaken(s.(wq := [RunSlow] + s.wq), i, who)
    {
      slowRunning := slowRunning + 1;
      var id := pendingSlow[0];
      pendingSlow := pendingSlow[1..];
      TakeItem(i, id, true);
      if pendingSlow != [] {
        wq := wq + [RunSlow];
        Signal(who);
      }
    }

    method Wait(i: nat)
      requires i < |workers|
      modifies this`workers, this`idle, this`locked
      ensures Abs() == old(Abs()).(idle := old(idle) + 1, locked := false, workers := old(workers)[i := Sleeping])
    {
      idle := idle + 1;
      workers := workers[i := Sleeping];
      locked := false;
    }

    /** One turn of the loop: true when the worker let go of the mutex. */
    method TakeTurn(i: nat, who: nat) returns (left: bool)
      requires i < |workers| && workers[i].Looping?
      modifies this`wq, this`pendingSlow, this`workers, this`idle, this`slowRunning, this`locked, this`requests
      ensures left == Leaves(old(Abs())) && Abs() == Turned(old(Abs()), i, who)
    {
      var threshold := (|workers| + 1) / 2;
      if wq == [] || (wq == [RunSlow] && slowRunning >= threshold) {
        Wait(i);
        return true;
      }
      var q := wq[0];
      assert wq == [q] + wq[1..];
      wq := wq[1..];
      if q.Item? {
        TakeItem(i, q.id, false);
        return true;
      }
      if slowRunning >= threshold {
        // Let the other entries go first.
        wq := wq + [RunSlow];
        return false;
      }
      if pendingSlow == [] {
        // The slow requests were cancelled.
        return false;
      }
      TakeSlow(i, who);
      left := true;
    }

    /** The worker waits, or comes away with a request to run. */
    method NextRequest(i: nat, who: nat)
      requires NoDup(wq) && i < |workers| && workers[i].Looping?
      modifies this`wq, this`pendingSlow, this`workers, this`idle, this`slowRunning, this`locked, this`requests
      ensures Abs() == Dispatched(old(Abs()), i, who)
    {
      var left := false;
      while !left
        invariant if left then Abs() == Dispatched(old(Abs()), i, who)
                  else NoDup(wq) && i < |workers| && workers[i].Looping? && Dispatched(Abs(), i, who) == Dispatched(old(Abs()), i, who)
        decreases !left, |wq|, Rank(wq)
      {
        ghost var s := Abs();
        if !Leaves(s) {
          StaysLooping(s, i, who);
        }
        left := TakeTurn(i, who);
      }
    }

    /** Woken or back from a request, the worker holds the mutex again. */
    method Reacquire(i: nat)
      requires i < |workers| && (workers[i].Woken? || workers[i].Ready? || workers[i].Returning?)
      requires (workers[i].Woken? ==> idle > 0) && (workers[i].Returning? && workers[i].slow ==> slowRunning > 0)
      modifies this`locked, this`workers, this`idle, this`slowRunning
      ensures Abs() == Locked(old(Abs()), i)
    {
      locked := true;
      if workers[i].Woken? {
        idle := idle - 1;
      }
      if workers[i].Returning? && workers[i].slow {
        slowRunning := slowRunning - 1;
      }
      workers := workers[i := Looping];
    }

    /** The request enters the queue of its loop. */
    method Enqueue(id: nat)
      requires id in requests
      modifies this`loopQueues, this`requests
      ensures Abs() == Queued(old(Abs()), id)
    {
      var l := requests[id].loop;
      var queue := if l in loopQueues then loopQueues[l] else [];
      loopQueues := loopQueues[l := queue + [id]];
      requests := requests[id := requests[id].(linked := true)];
    }

    /** Under the loop's mutex: the work field is cleared and the request goes to its loop. */
    method HandOver(i: nat)
      requires i < |workers| && workers[i].Ran? && workers[i].id in requests
      modifies this`workers, this`requests, this`loopQueues
      ensures Abs() == HandedOver(old(Abs()), i)
    {
      var id := workers[i].id;
      requests := requests[id := requests[id].(work := Finished)];
      Enqueue(id);
      workers := workers[i := Returning(workers[i].slow)];
    }

    /** With both mutexes held: a request that is linked and not finished leaves its queue. One that was called back with
        ECANCELED before is still linked, and in no queue. */
    method Cancel(id: nat) returns (rc: int)
      requires id in requests && id !in held
      modifies this`wq, this`pendingSlow, this`loopQueues, this`local_, this`held, this`lastOut
      ensures rc == if CanCancel(old(Abs()), id) then 0 else EBUSY
      ensures rc == 0 && LinksLead(old(Abs()), id) ==> Abs() == Taken(old(Abs()), id)
      ensures rc != 0 ==> Abs() == old(Abs())
    {
      if !requests[id].linked || requests[id].work.Finished? {
        return EBUSY;
      }
      TakeOut(id);
      rc := 0;
    }

    method TakeOut(id: nat)
      requires id in requests
      modifies this`wq, this`pendingSlow, this`loopQueues, this`local_, this`held, this`lastOut
      ensures Abs() == Taken(old(Abs()), id)
    {
      var l := requests[id].loop;
      var queue := if l in loopQueues then loopQueues[l] else [];
      var taken := if l in local_ then local_[l] else [];
      assert queue == Abs().LoopQueue(l) && taken == Abs().Local(l);
      wq, pendingSlow := Without(wq, Item(id)), Without(pendingSlow, id);
      loopQueues, local_ := loopQueues[l := Without(queue, id)], local_[l := Without(taken, id)];
      held := held + {id};
      lastOut := if taken != [] && taken[0] == id then lastOut - {l} else lastOut;
    }

    /** After both mutexes were released, under that of the loop: the request is marked cancelled and goes to its loop. */
    method FinishCancel(id: nat)
      requires id in held && id in requests
      modifies this`requests, this`loopQueues, this`held
      ensures Abs() == CancelFinished(old(Abs()), id)
    {
      requests := requests[id := requests[id].(work := Cancelled)];
      Enqueue(id);
      held := held - {id};
    }

    /** The loop takes over all finished work. */
    method TakeFinished(l: nat)
      modifies this`loopQueues, this`local_, this`lastOut
      ensures Abs() == Moved(old(Abs()), l)
    {
      local_ := local_[l := if l in loopQueues then loopQueues[l] else []];
      loopQueues := loopQueues[l := []];
      lastOut := lastOut - {l};
    }

    /** The next callback, with the status the work field tells. */
    method CallBackNext(l: nat) returns (status: int)
      requires l in local_ && local_[l] != [] && local_[l][0] in requests
      modifies this`local_, this`requests, this`lastOut
      ensures status == StatusOf(old(requests)[old(local_)[l][0]]) && Abs() == CalledBack(old(Abs()), l)
    {
      var id := local_[l][0];
      local_ := local_[l := local_[l][1..]];
      lastOut := lastOut[l := id];
      status := if requests[id].work.Cancelled? then ECANCELED else 0;
      requests := requests[id := requests[id].(done := requests[id].done + [status])];
    }
  }
}
