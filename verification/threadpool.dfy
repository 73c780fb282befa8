/** The thread pool as a protocol between workers, posters, cancellation and the loops that collect finished work.
    A step is a region under a mutex, or the run of a work callback. */
module ThreadPool {

  const ECANCELED: int := -125
  const EBUSY: int := -16

  /** What the work field says: still to run, finished, or cancelled. */
  datatype Work = Todo | Finished | Cancelled

  /** A submitted request. Its queue links lead somewhere while linked holds: entering a queue sets them, leaving one
      does not clear them, only a worker that takes the request points them back at the request itself. done lists the
      statuses its callback was given, ran tells whether the work was started. */
  datatype Request = Request(loop: nat, slow: bool, work: Work, ran: bool, linked: bool, done: seq<int>)

  /** What the main queue holds: requests, and the message that slow requests are pending. */
  datatype Message = Item(id: nat) | RunSlow

  /** Where a worker is. Woken workers were signalled but do not hold the mutex yet; a Looping worker holds it. */
  datatype Worker =
    | Sleeping
    | Woken
    | Ready
    | Looping
    | Running(id: nat, slow: bool)
    | Ran(id: nat, slow: bool)
    | Returning(slow: bool)

  datatype State = State(
    wq: seq<Message>, pendingSlow: seq<nat>, workers: seq<Worker>, idle: nat, slowRunning: nat, locked: bool,
    requests: map<nat, Request>, loopQueues: map<nat, seq<nat>>, local_: map<nat, seq<nat>>, held: set<nat>,
    lastOut: map<nat, nat>)
  {
    function Threshold(): nat {
      (|workers| + 1) / 2
    }

    /** The queue of finished work of a loop. */
    function LoopQueue(l: nat): seq<nat> {
      if l in loopQueues then loopQueues[l] else []
    }

    /** What a loop has taken out of its queue and not called back yet. */
    function Local(l: nat): seq<nat> {
      if l in local_ then local_[l] else []
    }

    /** No request can be taken: the worker loop waits. */
    predicate MustWait() {
      wq == [] || (wq == [RunSlow] && slowRunning >= Threshold())
    }
  }

  function Without<T(==)>(s: seq<T>, x: T): seq<T> {
    if s == [] then [] else if s[0] == x then s[1..] else [s[0]] + Without(s[1..], x)
  }

  // ----- regions -----

  /** uv_cond_signal when some thread counts as idle: wakes one sleeper, if there is one. */
  function Signal(s: State, who: nat): (s': State)
    ensures |s'.workers| == |s.workers| && s' == s.(workers := s'.workers)
  {
    if s.idle > 0 && who < |s.workers| && s.workers[who].Sleeping? then s.(workers := s.workers[who := Woken]) else s
  }

  /** The condition variable wakes a sleeper when there is one. */
  predicate Fair(s: State, who: nat) {
    (exists i :: 0 <= i < |s.workers| && s.workers[i].Sleeping?) ==> who < |s.workers| && s.workers[who].Sleeping?
  }

  function Posted(s: State, id: nat, loop: nat, slow: bool, who: nat): State {
    var s' := s.(requests := s.requests[id := Request(loop, slow, Todo, false, true, [])]);
    if slow then
      var queued := s'.(pendingSlow := s.pendingSlow + [id]);
      if RunSlow in s.wq then queued else Signal(queued.(wq := s.wq + [RunSlow]), who)
    else
      Signal(s'.(wq := s.wq + [Item(id)]), who)
  }

  /** The worker gets the mutex: after sleeping, at its start, or back from a request. */
  function Locked(s: State, i: nat): State
    requires i < |s.workers|
  {
    var w := s.workers[i];
    s.(locked := true, workers := s.workers[i := Looping],
       idle := if w.Woken? && s.idle > 0 then s.idle - 1 else s.idle,
       slowRunning := if w.Returning? && w.slow && s.slowRunning > 0 then s.slowRunning - 1 else s.slowRunning)
  }

  /** The worker's sign for cancellation that the request is executing. */
  function Unlinked(requests: map<nat, Request>, id: nat): map<nat, Request> {
    if id in requests then requests[id := requests[id].(linked := false)] else requests
  }

  function SlowTaken(s: State, i: nat, who: nat): (s': State)
    requires i < |s.workers| && s.pendingSlow != [] && s.wq != []
    ensures |s'.workers| == |s.workers|
  {
    var s' := s.(wq := s.wq[1..] + if |s.pendingSlow| > 1 then [RunSlow] else [], pendingSlow := s.pendingSlow[1..],
                 slowRunning := s.slowRunning + 1, locked := false,
                 workers := s.workers[i := Running(s.pendingSlow[0], true)],
                 requests := Unlinked(s.requests, s.pendingSlow[0]));
    if |s.pendingSlow| > 1 then Signal(s', who) else s'
  }

  /** One turn of the worker loop: wait, take a request, or put the slow message aside and look again. */
  function Turned(s: State, i: nat, who: nat): (s': State)
    requires i < |s.workers|
    ensures |s'.workers| == |s.workers|
  {
    if s.MustWait() then s.(idle := s.idle + 1, locked := false, workers := s.workers[i := Sleeping])
    else if s.wq[0].Item? then
      s.(wq := s.wq[1..], locked := false, workers := s.workers[i := Running(s.wq[0].id, false)],
         requests := Unlinked(s.requests, s.wq[0].id))
    else if s.slowRunning >= s.Threshold() then s.(wq := s.wq[1..] + [RunSlow])
    else if s.pendingSlow == [] then s.(wq := s.wq[1..])
    else SlowTaken(s, i, who)
  }

  function Executed(s: State, i: nat): State
    requires i < |s.workers| && s.workers[i].Running? && s.workers[i].id in s.requests
  {
    var w := s.workers[i];
    s.(workers := s.workers[i := Ran(w.id, w.slow)], requests := s.requests[w.id := s.requests[w.id].(ran := true)])
  }

  function Queued(s: State, id: nat): State
    requires id in s.requests
  {
    var l := s.requests[id].loop;
    s.(loopQueues := s.loopQueues[l := s.LoopQueue(l) + [id]], requests := s.requests[id := s.requests[id].(linked := true)])
  }

  /** Under the loop's mutex: the request is marked finished and handed to its loop. */
  function HandedOver(s: State, i: nat): State
    requires i < |s.workers| && s.workers[i].Ran? && s.workers[i].id in s.requests
  {
    var w := s.workers[i];
    Queued(s.(workers := s.workers[i := Returning(w.slow)],
              requests := s.requests[w.id := s.requests[w.id].(work := Finished)]), w.id)
  }

  /** What uv_cancel asks: the links lead somewhere, and the work field is not cleared. */
  predicate CanCancel(s: State, id: nat)
    requires id in s.requests
  {
    s.requests[id].linked && !s.requests[id].work.Finished?
  }

  predicate IsQueued(s: State, id: nat)
    requires id in s.requests
  {
    var l := s.requests[id].loop;
    Item(id) in s.wq || id in s.pendingSlow || id in s.LoopQueue(l) || id in s.Local(l)
  }

  /** The links lead to items that are neighbours: in a queue, or in what the loop took over, from which the request was
      the last to leave. (lastOut tells which that is while the head behind it is the same.) Then taking the request out
      once more changes no queue. Links that do not lead to neighbours may not be followed. */
  predicate LinksLead(s: State, id: nat)
    requires id in s.requests
  {
    var l := s.requests[id].loop;
    IsQueued(s, id) || (l in s.lastOut && s.lastOut[l] == id)
  }

  /** With both mutexes held: the request leaves the queue it is in, if it is in one. */
  function Taken(s: State, id: nat): State
    requires id in s.requests
  {
    var l := s.requests[id].loop;
    s.(wq := Without(s.wq, Item(id)), pendingSlow := Without(s.pendingSlow, id),
       loopQueues := s.loopQueues[l := Without(s.LoopQueue(l), id)],
       local_ := s.local_[l := Without(s.Local(l), id)], held := s.held + {id},
       lastOut := if s.Local(l) != [] && s.Local(l)[0] == id then s.lastOut - {l} else s.lastOut)
  }

  function CancelFinished(s: State, id: nat): State
    requires id in s.requests
  {
    Queued(s.(requests := s.requests[id := s.requests[id].(work := Cancelled)], held := s.held - {id}), id)
  }

  function Moved(s: State, l: nat): State {
    s.(local_ := s.local_[l := s.LoopQueue(l)], loopQueues := s.loopQueues[l := []], lastOut := s.lastOut - {l})
  }

  function StatusOf(r: Request): int {
    if r.work.Cancelled? then ECANCELED else 0
  }

  function CalledBack(s: State, l: nat): State
    requires s.Local(l) != [] && s.Local(l)[0] in s.requests
  {
    var id := s.Local(l)[0];
    var r := s.requests[id];
    s.(local_ := s.local_[l := s.Local(l)[1..]], lastOut := s.lastOut[l := id],
       requests := s.requests[id := r.(done := r.done + [StatusOf(r)])])
  }

  datatype Step =
    | Post(id: nat, loop: nat, slow: bool, who: nat)
    | WakeUp(i: nat)
    | Lock(i: nat)
    | Turn(i: nat, who: nat)
    | Execute(i: nat)
    | HandOver(i: nat)
    | Cancel(id: nat)
    | FinishCancel(id: nat)
    | Move(l: nat)
    | CallBack(l: nat)

  predicate Enabled(s: State, step: Step) {
    match step
    case Post(id, _, _, who) => !s.locked && id !in s.requests && Fair(s, who)
    case WakeUp(i) => i < |s.workers| && s.workers[i].Sleeping?
    case Lock(i) => !s.locked && i < |s.workers| && (s.workers[i].Woken? || s.workers[i].Ready? || s.workers[i].Returning?)
    case Turn(i, who) => i < |s.workers| && s.workers[i].Looping? && Fair(s, who)
    case Execute(i) => i < |s.workers| && s.workers[i].Running? && s.workers[i].id in s.requests
    case HandOver(i) => i < |s.workers| && s.workers[i].Ran? && s.workers[i].id in s.requests
    case Cancel(id) => !s.locked && id in s.requests && id !in s.held && CanCancel(s, id) && LinksLead(s, id)
    case FinishCancel(id) => id in s.held && id in s.requests
    case Move(l) => s.Local(l) == []
    case CallBack(l) => s.Local(l) != [] && s.Local(l)[0] in s.requests
  }

  function Apply(s: State, step: Step): State
    requires Enabled(s, step)
  {
    match step
    case Post(id, loop, slow, who) => Posted(s, id, loop, slow, who)
    case WakeUp(i) => s.(workers := s.workers[i := Woken])
    case Lock(i) => Locked(s, i)
    case Turn(i, who) => Turned(s, i, who)
    case Execute(i) => Executed(s, i)
    case HandOver(i) => HandedOver(s, i)
    case Cancel(id) => Taken(s, id)
    case FinishCancel(id) => CancelFinished(s, id)
    case Move(l) => Moved(s, l)
    case CallBack(l) => CalledBack(s, l)
  }

  /** A pool of n workers that were just created. */
  function Created(n: nat): State {
    State([], [], seq(n, i => Ready), 0, 0, false, map[], map[], map[], {}, map[])
  }

  ghost predicate IsRun(n: nat, run: seq<State>, steps: seq<Step>) {
    && |run| == |steps| + 1 && run[0] == Created(n)
    && forall i {:trigger StepAt(run, steps, i)} | 0 <= i < |steps| :: StepAt(run, steps, i)
  }

  ghost predicate StepAt(run: seq<State>, steps: seq<Step>, i: nat)
    requires i < |steps| < |run|
  {
    Enabled(run[i], steps[i]) && run[i + 1] == Apply(run[i], steps[i])
  }
}
