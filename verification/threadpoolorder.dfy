/** In which order the pool takes requests, and a loop calls them back. */
module ThreadPoolOrder {
  import opened Common
  import opened ThreadPool
  import opened ThreadPoolProof
  import opened ThreadPoolCancel

  // ----- positions in a queue -----

  ghost predicate Precedes<T>(q: seq<T>, x: T, y: T) {
    exists i, j :: 0 <= i < j < |q| && q[i] == x && q[j] == y
  }

  lemma AppendedBehind<T>(q: seq<T>, x: T, y: T)
    requires x in q
    ensures Precedes(q + [y], x, y)
  {
    var i :| 0 <= i < |q| && q[i] == x;
    assert (q + [y])[i] == x && (q + [y])[|q|] == y;
  }

  lemma AppendKeeps<T>(q: seq<T>, x: T, y: T, more: seq<T>)
    requires Precedes(q, x, y)
    ensures Precedes(q + more, x, y)
  {
    var i, j :| 0 <= i < j < |q| && q[i] == x && q[j] == y;
    assert (q + more)[i] == x && (q + more)[j] == y;
  }

  lemma PopKeeps<T>(q: seq<T>, x: T, y: T)
    requires NoDup(q) && Precedes(q, x, y) && x in q[1..]
    ensures Precedes(q[1..], x, y)
  {
    var i, j :| 0 <= i < j < |q| && q[i] == x && q[j] == y;
    var k :| 0 <= k < |q| - 1 && q[1..][k] == x;
    assert q[k + 1] == x;
    assert q[1..][i - 1] == x && q[1..][j - 1] == y;
  }

  lemma {:induction false} WithoutKeeps<T>(q: seq<T>, x: T, y: T, z: T)
    requires NoDup(q) && Precedes(q, x, y) && z != x && z != y
    ensures Precedes(Without(q, z), x, y)
  {
    var i, j :| 0 <= i < j < |q| && q[i] == x && q[j] == y;
    var rest := q[1..];
    assert q == [q[0]] + rest;
    if q[0] == z {
      assert rest[i - 1] == x && rest[j - 1] == y;
      assert Precedes(rest, x, y);
    } else {
      assert Without(q, z) == [q[0]] + Without(rest, z);
      if i == 0 {
        assert rest[j - 1] == y;
        WithoutMembers(rest, z);
        assert y in Without(rest, z);
        var k :| 0 <= k < |Without(rest, z)| && Without(rest, z)[k] == y;
        assert Without(q, z)[0] == x && Without(q, z)[k + 1] == y;
      } else {
        assert rest[i - 1] == x && rest[j - 1] == y;
        WithoutKeeps(rest, x, y, z);
        var k, l :| 0 <= k < l < |Without(rest, z)| && Without(rest, z)[k] == x && Without(rest, z)[l] == y;
        assert ([q[0]] + Without(rest, z))[k + 1] == x && ([q[0]] + Without(rest, z))[l + 1] == y;
      }
    }
  }

  // ----- the queues of the pool -----

  /** What waits for a worker: slow requests have a queue of their own. */
  function Waiting(s: State, slow: bool): seq<Message> {
    if slow then Items(s.pendingSlow) else s.wq
  }

  function Items(ids: seq<nat>): seq<Message> {
    seq(|ids|, i requires 0 <= i < |ids| => Item(ids[i]))
  }

  lemma ItemsAre(ids: seq<nat>, id: nat)
    ensures Item(id) in Items(ids) <==> id in ids
    ensures NoDup(ids) ==> NoDup(Items(ids))
    ensures Items(ids + [id]) == Items(ids) + [Item(id)]
    ensures ids != [] ==> Items(ids[1..]) == Items(ids)[1..]
  {
    if id in ids {
      var i :| 0 <= i < |ids| && ids[i] == id;
      assert Items(ids)[i] == Item(id);
    }
  }

  lemma {:induction false} ItemsWithout(ids: seq<nat>, id: nat)
    ensures Items(Without(ids, id)) == Without(Items(ids), Item(id))
  {
    if ids != [] {
      ItemsWithout(ids[1..], id);
      ItemsAre(ids, id);
      assert Items([ids[0]] + Without(ids[1..], id)) == [Item(ids[0])] + Items(Without(ids[1..], id));
    }
  }

  /** How a queue changes in one step: what is posted goes to the end, what is taken comes from the front, what is
      cancelled leaves, and the slow message may go from the front to the end. */
  ghost predicate IsQueueStep(q: seq<Message>, q': seq<Message>, step: Step) {
    || q' == q
    || (step.Post? && exists m :: q' == q + [m])
    || (step.Turn? && q != [] && (q' == q[1..] || q' == q[1..] + [RunSlow]))
    || (step.Cancel? && q' == Without(q, Item(step.id)))
  }

  lemma QueueSteps(s: State, step: Step, slow: bool)
    requires Enabled(s, step)
    ensures IsQueueStep(Waiting(s, slow), Waiting(Apply(s, step), slow), step)
  {
    match step
    case Post(id, loop, isSlow, who) => ItemsAre(s.pendingSlow, id);
    case Turn(i, who) => TurnOfQueue(s, i, who, slow);
    case Cancel(id) => ItemsWithout(s.pendingSlow, id);
    case _ =>
  }

  lemma TurnOfQueue(s: State, i: nat, who: nat, slow: bool)
    requires Enabled(s, Turn(i, who))
    ensures IsQueueStep(Waiting(s, slow), Waiting(Turned(s, i, who), slow), Turn(i, who))
  {
    TurnOfMain(s, i, who);
    TurnOfSlow(s, i, who);
    ItemsAre(s.pendingSlow, 0);
  }

  lemma TurnOfMain(s: State, i: nat, who: nat)
    requires Enabled(s, Turn(i, who))
    ensures var q' := Turned(s, i, who).wq;
            q' == s.wq || (s.wq != [] && (q' == s.wq[1..] || q' == s.wq[1..] + [RunSlow]))
  {
    assert s.wq != [] ==> s.wq[1..] + [] == s.wq[1..];
  }

  lemma TurnOfSlow(s: State, i: nat, who: nat)
    requires Enabled(s, Turn(i, who))
    ensures var q' := Turned(s, i, who).pendingSlow;
            q' == s.pendingSlow || (s.pendingSlow != [] && q' == s.pendingSlow[1..])
  {
    if !s.MustWait() && s.wq[0].RunSlow? && s.pendingSlow != [] && s.slowRunning < s.Threshold() {
      FirstSlowIsTaken(s, i, who);
    }
  }

  lemma FirstSlowIsTaken(s: State, i: nat, who: nat)
    requires i < |s.workers| && s.pendingSlow != [] && s.wq != []
    ensures SlowTaken(s, i, who).pendingSlow == s.pendingSlow[1..]
  {
  }

  /** Requests keep their order for as long as the first one waits. */
  lemma OrderKept(q: seq<Message>, q': seq<Message>, step: Step, a: nat, b: nat)
    requires NoDup(q) && IsQueueStep(q, q', step) && Precedes(q, Item(a), Item(b))
    requires Item(a) in q' && step != Cancel(a) && step != Cancel(b)
    ensures Precedes(q', Item(a), Item(b))
  {
    if q' == q {
    } else if step.Post? {
      var m :| q' == q + [m];
      AppendKeeps(q, Item(a), Item(b), [m]);
    } else if step.Cancel? {
      WithoutKeeps(q, Item(a), Item(b), Item(step.id));
    } else {
      assert Item(a) in q[1..];
      PopKeeps(q, Item(a), Item(b));
      AppendKeeps(q[1..], Item(a), Item(b), [RunSlow]);
    }
  }

  // ----- requests are taken in the order of posting -----

  /** A worker has the request, or had it. */
  ghost predicate IsTaken(s: State, id: nat) {
    && id in s.requests
    && (s.requests[id].ran || exists k :: 0 <= k < |s.workers| && WorksOn(s.workers[k], id))
  }

  ghost predicate NeverCancelled(steps: seq<Step>, t: nat, id: nat)
    requires t <= |steps|
  {
    forall k | 0 <= k < t :: steps[k] != Cancel(id)
  }

  /** Where a request is that waits for a worker. */
  function WaitingPlace(slow: bool): Place {
    if slow then SlowQueue else MainQueue
  }

  /** The request was not cancelled, and is in the queue for its kind if it is in one of the two. */
  ghost predicate IsInPlay(place: Places, id: nat, slow: bool) {
    id in place && !place[id].HeldByCancel? && place[id] != WaitingPlace(!slow)
  }

  lemma PostedIsInPlay(s: State, place: Places, step: Step)
    requires Enabled(s, step) && step.Post?
    ensures IsInPlay(Placed(s, place, step), step.id, step.slow)
  {
  }

  /** One step: the request goes on waiting, or to a worker, or on from there. */
  lemma StaysInPlay(s: State, place: Places, step: Step, id: nat, slow: bool)
    requires InvPlaces(s, place) && Enabled(s, step) && step != Cancel(id) && IsInPlay(place, id, slow)
    ensures IsInPlay(Placed(s, place, step), id, slow)
    ensures Placed(s, place, step)[id] == WaitingPlace(slow) ==> place[id] == WaitingPlace(slow)
  {
  }

  lemma {:induction false} RunInPlay(n: nat, run: seq<State>, steps: seq<Step>, i: nat, t: nat, id: nat, slow: bool)
    requires IsRun(n, run, steps) && i < t <= |steps| && NeverCancelled(steps, t, id)
    requires steps[i].Post? && steps[i].id == id && steps[i].slow == slow
    ensures IsInPlay(PlacesAt(run, steps, t), id, slow)
  {
    assert StepAt(run, steps, t - 1);
    if t == i + 1 {
      PostedIsInPlay(run[i], PlacesAt(run, steps, i), steps[i]);
    } else {
      RunInPlay(n, run, steps, i, t - 1, id, slow);
      RunHolds(n, run, steps, t - 1);
      StaysInPlay(run[t - 1], PlacesAt(run, steps, t - 1), steps[t - 1], id, slow);
    }
  }

  lemma {:induction false} NotCancelled(n: nat, run: seq<State>, steps: seq<Step>, t: nat, id: nat)
    requires IsRun(n, run, steps) && t <= |steps| && NeverCancelled(steps, t, id)
    ensures id in run[t].requests ==> !run[t].requests[id].work.Cancelled?
    ensures id !in run[t].held
  {
    if t > 0 {
      NotCancelled(n, run, steps, t - 1, id);
      assert StepAt(run, steps, t - 1);
      StaysUncancelled(run[t - 1], steps[t - 1], id);
    }
  }

  lemma StaysUncancelled(s: State, step: Step, id: nat)
    requires Enabled(s, step) && step != Cancel(id) && id !in s.held
    requires id in s.requests ==> !s.requests[id].work.Cancelled?
    ensures id in Apply(s, step).requests ==> !Apply(s, step).requests[id].work.Cancelled?
    ensures id !in Apply(s, step).held
  {
    if step.Turn? {
      TurnKeepsWork(s, step.i, step.who, id);
    }
  }

  lemma TurnKeepsWork(s: State, i: nat, who: nat, id: nat)
    requires Enabled(s, Turn(i, who))
    ensures id in Turned(s, i, who).requests ==> id in s.requests && Turned(s, i, who).requests[id].work == s.requests[id].work
    ensures Turned(s, i, who).held == s.held
  {
    if !s.MustWait() && s.wq[0].RunSlow? && s.pendingSlow != [] && s.slowRunning < s.Threshold() {
      SlowKeepsWork(s, i, who, id);
    }
  }

  lemma SlowKeepsWork(s: State, i: nat, who: nat, id: nat)
    requires i < |s.workers| && s.pendingSlow != [] && s.wq != []
    ensures var s' := SlowTaken(s, i, who);
            && s'.held == s.held && (id in s'.requests ==> id in s.requests && s'.requests[id].work == s.requests[id].work)
  {
  }

  /** A request that was posted and not cancelled waits in its queue until a worker takes it. */
  lemma WaitsUntilTaken(n: nat, run: seq<State>, steps: seq<Step>, i: nat, t: nat, id: nat, slow: bool)
    requires IsRun(n, run, steps) && i < t <= |steps| && NeverCancelled(steps, t, id)
    requires steps[i].Post? && steps[i].id == id && steps[i].slow == slow
    ensures Item(id) in Waiting(run[t], slow) <==> !IsTaken(run[t], id)
    ensures Item(id) in Waiting(run[t], slow) <==> IsAt(PlacesAt(run, steps, t), id, WaitingPlace(slow))
  {
    RunHolds(n, run, steps, t);
    RunInPlay(n, run, steps, i, t, id, slow);
    NotCancelled(n, run, steps, t, id);
    WaitsOrIsTaken(run[t], PlacesAt(run, steps, t), id, slow);
  }

  lemma WaitsOrIsTaken(s: State, place: Places, id: nat, slow: bool)
    requires InvPlaces(s, place) && IsInPlay(place, id, slow) && id in s.requests && !s.requests[id].work.Cancelled?
    ensures Item(id) in Waiting(s, slow) <==> !IsTaken(s, id)
    ensures Item(id) in Waiting(s, slow) <==> IsAt(place, id, WaitingPlace(slow))
  {
    ItemsAre(s.pendingSlow, id);
    assert RequestHolds(s.requests[id], place[id], s.workers);
    assert Item(id) in s.wq <==> IsAt(place, id, MainQueue);
    assert id in s.pendingSlow <==> IsAt(place, id, SlowQueue);
    assert forall k | 0 <= k < |s.workers| :: WorksOn(s.workers[k], id) <==> IsAt(place, id, OnWorker(k));
  }

  lemma PostedLast(s: State, step: Step, slow: bool)
    requires Enabled(s, step) && step.Post? && step.slow == slow
    ensures Waiting(Apply(s, step), slow) == Waiting(s, slow) + [Item(step.id)]
  {
    ItemsAre(s.pendingSlow, step.id);
  }

  lemma {:induction false} WaitsBehind(
      n: nat, run: seq<State>, steps: seq<Step>, i: nat, j: nat, t: nat, a: nat, b: nat, slow: bool)
    requires IsRun(n, run, steps) && i < j < t <= |steps|
    requires steps[i].Post? && steps[i].id == a && steps[i].slow == slow
    requires steps[j].Post? && steps[j].id == b && steps[j].slow == slow
    requires NeverCancelled(steps, t, a) && NeverCancelled(steps, t, b) && Item(a) in Waiting(run[t], slow)
    ensures Precedes(Waiting(run[t], slow), Item(a), Item(b))
  {
    assert StepAt(run, steps, t - 1);
    StillWaits(n, run, steps, i, t, a, slow);
    if t == j + 1 {
      PostedLast(run[j], steps[j], slow);
      AppendedBehind(Waiting(run[j], slow), Item(a), Item(b));
    } else {
      WaitsBehind(n, run, steps, i, j, t - 1, a, b, slow);
      QueueSteps(run[t - 1], steps[t - 1], slow);
      WaitingHasNoDup(n, run, steps, t - 1, slow);
      OrderKept(Waiting(run[t - 1], slow), Waiting(run[t], slow), steps[t - 1], a, b);
    }
  }

  lemma WaitingHasNoDup(n: nat, run: seq<State>, steps: seq<Step>, t: nat, slow: bool)
    requires IsRun(n, run, steps) && t <= |steps|
    ensures NoDup(Waiting(run[t], slow))
  {
    RunHolds(n, run, steps, t);
    ItemsAre(run[t].pendingSlow, 0);
  }

  /** What waits after a step, and was there before, waited before. */
  lemma StillWaits(n: nat, run: seq<State>, steps: seq<Step>, i: nat, t: nat, id: nat, slow: bool)
    requires IsRun(n, run, steps) && i + 1 < t <= |steps| && NeverCancelled(steps, t, id)
    requires steps[i].Post? && steps[i].id == id && steps[i].slow == slow && Item(id) in Waiting(run[t], slow)
    ensures Item(id) in Waiting(run[t - 1], slow)
  {
    WaitsUntilTaken(n, run, steps, i, t - 1, id, slow);
    WaitsUntilTaken(n, run, steps, i, t, id, slow);
    assert StepAt(run, steps, t - 1);
    RunHolds(n, run, steps, t - 1);
    RunInPlay(n, run, steps, i, t - 1, id, slow);
    StaysInPlay(run[t - 1], PlacesAt(run, steps, t - 1), steps[t - 1], id, slow);
  }

  /** Of two requests posted one after the other, both slow or both not, and not cancelled, no worker has taken the second
      before one took the first. */
  lemma FirstComeFirstServed(n: nat, run: seq<State>, steps: seq<Step>, i: nat, j: nat, t: nat, a: nat, b: nat)
    requires IsRun(n, run, steps) && i < j < t <= |steps|
    requires steps[i].Post? && steps[i].id == a && steps[j].Post? && steps[j].id == b && steps[i].slow == steps[j].slow
    requires NeverCancelled(steps, t, a) && NeverCancelled(steps, t, b) && IsTaken(run[t], b)
    ensures IsTaken(run[t], a)
  {
    var slow := steps[i].slow;
    WaitsUntilTaken(n, run, steps, i, t, a, slow);
    WaitsUntilTaken(n, run, steps, j, t, b, slow);
    if !IsTaken(run[t], a) {
      WaitsBehind(n, run, steps, i, j, t, a, b, slow);
      assert false;
    }
  }

  // ----- callbacks come in the order of handing over -----

  /** What a loop is to call back: what it took over, and behind that its queue. */
  function Handed(s: State, l: nat): seq<nat> {
    s.Local(l) + s.LoopQueue(l)
  }

  /** The request that enters its loop's queue in this step. */
  function Entering(s: State, step: Step): Option<nat>
    requires Enabled(s, step)
  {
    match step
    case HandOver(i) => Some(s.workers[i].id)
    case FinishCancel(id) => Some(id)
    case _ => None
  }

  lemma HandedHasNoDup(s: State, place: Places, l: nat)
    requires InvPlaces(s, place)
    ensures NoDup(Handed(s, l))
    ensures forall id :: id in Handed(s, l) <==> IsAt(place, id, InLocal(l)) || IsAt(place, id, InLoopQueue(l))
  {
    assert ListHolds(s.LoopQueue(l), place, InLoopQueue(l)) && ListHolds(s.Local(l), place, InLocal(l));
    forall i, j | 0 <= i < |s.Local(l)| && 0 <= j < |s.LoopQueue(l)| ensures s.Local(l)[i] != s.LoopQueue(l)[j] {
      assert s.Local(l)[i] in s.Local(l) && s.LoopQueue(l)[j] in s.LoopQueue(l);
    }
  }

  /** How this changes in one step. */
  ghost predicate IsHandedStep(s: State, l: nat, s': State, step: Step)
    requires Enabled(s, step)
  {
    var q, q' := Handed(s, l), Handed(s', l);
    || q' == q
    || (Entering(s, step).Some? && q' == q + [Entering(s, step).value])
    || (step == CallBack(l) && q != [] && q' == q[1..])
    || (step.Cancel? && q' == Without(q, step.id))
  }

  lemma {:induction false} WithoutBoth(p: seq<nat>, q: seq<nat>, id: nat)
    requires NoDup(p + q)
    ensures Without(p, id) + Without(q, id) == Without(p + q, id)
  {
    if p == [] {
      assert p + q == q;
    } else {
      var rest := p[1..];
      assert p + q == [p[0]] + (rest + q) && (p + q)[1..] == rest + q;
      assert NoDup(rest + q);
      if p[0] == id {
        NotIn(q, id, p);
        assert Without(p + q, id) == rest + q;
      } else {
        WithoutBoth(rest, q, id);
      }
    }
  }

  lemma NotIn(q: seq<nat>, id: nat, p: seq<nat>)
    requires NoDup(p + q) && p != [] && p[0] == id
    ensures Without(q, id) == q
  {
    forall i | 0 <= i < |q| ensures q[i] != id {
      assert (p + q)[|p| + i] == q[i] && (p + q)[0] == id;
    }
    WithoutNothing(q, id);
  }

  lemma {:induction false} WithoutNothing(q: seq<nat>, id: nat)
    requires id !in q
    ensures Without(q, id) == q
  {
    if q != [] {
      WithoutNothing(q[1..], id);
      assert q == [q[0]] + q[1..];
    }
  }

  lemma HandedSteps(s: State, place: Places, step: Step, l: nat)
    requires InvPlaces(s, place) && Enabled(s, step)
    ensures IsHandedStep(s, l, Apply(s, step), step)
  {
    match step
    case Cancel(id) => CancelLeaves(s, place, id, l);
    case Move(k) => assert k == l ==> [] + s.LoopQueue(l) == s.LoopQueue(l) + [];
    case CallBack(k) => assert k == l ==> Handed(s, l)[1..] == s.Local(l)[1..] + s.LoopQueue(l);
    case Turn(i, who) => TurnKeepsLoops(s, i, who, l);
    case HandOver(i) => EntersAtEnd(s, Apply(s, step), s.workers[i].id, l);
    case FinishCancel(id) => EntersAtEnd(s, Apply(s, step), id, l);
    case _ => OthersKeepLoops(s, step);
  }

  lemma OthersKeepLoops(s: State, step: Step)
    requires Enabled(s, step) && (step.Post? || step.WakeUp? || step.Lock? || step.Execute?)
    ensures Apply(s, step).loopQueues == s.loopQueues && Apply(s, step).local_ == s.local_
  {
  }

  lemma TurnKeepsLoops(s: State, i: nat, who: nat, l: nat)
    requires Enabled(s, Turn(i, who))
    ensures Handed(Turned(s, i, who), l) == Handed(s, l)
  {
    if !s.MustWait() && s.wq[0].RunSlow? && s.pendingSlow != [] && s.slowRunning < s.Threshold() {
      SlowKeepsLoops(s, i, who);
    }
  }

  lemma SlowKeepsLoops(s: State, i: nat, who: nat)
    requires i < |s.workers| && s.pendingSlow != [] && s.wq != []
    ensures SlowTaken(s, i, who).loopQueues == s.loopQueues && SlowTaken(s, i, who).local_ == s.local_
  {
  }

  lemma EntersAtEnd(s: State, s': State, id: nat, l: nat)
    requires id in s.requests && s'.local_ == s.local_
    requires s'.loopQueues == s.loopQueues[s.requests[id].loop := s.LoopQueue(s.requests[id].loop) + [id]]
    ensures Handed(s', l) == if l == s.requests[id].loop then Handed(s, l) + [id] else Handed(s, l)
  {
    assert l == s.requests[id].loop ==> s.Local(l) + (s.LoopQueue(l) + [id]) == Handed(s, l) + [id];
  }

  lemma CancelLeaves(s: State, place: Places, id: nat, l: nat)
    requires InvPlaces(s, place) && Enabled(s, Cancel(id))
    ensures Handed(Taken(s, id), l) == Without(Handed(s, l), id) || Handed(Taken(s, id), l) == Handed(s, l)
  {
    HandedHasNoDup(s, place, l);
    WithoutBoth(s.Local(l), s.LoopQueue(l), id);
  }

  /** Requests keep their order until the first one is called back. */
  lemma HandedOrderKept(s: State, place: Places, step: Step, l: nat, a: nat, b: nat)
    requires InvPlaces(s, place) && Enabled(s, step) && Precedes(Handed(s, l), a, b)
    requires a in Handed(Apply(s, step), l) && step != Cancel(a) && step != Cancel(b)
    ensures Precedes(Handed(Apply(s, step), l), a, b)
  {
    HandedHasNoDup(s, place, l);
    HandedSteps(s, place, step, l);
    var q, q' := Handed(s, l), Handed(Apply(s, step), l);
    if q' == q {
    } else if step.Cancel? {
      WithoutKeeps(q, a, b, step.id);
    } else if step.CallBack? {
      PopKeeps(q, a, b);
    } else {
      AppendKeeps(q, a, b, [Entering(s, step).value]);
    }
  }

  /** A request that waits for its callback goes on waiting, or is called back. */
  lemma WaitsForCallback(s: State, place: Places, step: Step, l: nat, id: nat)
    requires InvPlaces(s, place) && Enabled(s, step) && id in Handed(s, l) && step != Cancel(id)
    ensures if id in Handed(Apply(s, step), l) then Callbacks(Apply(s, step), id) == Callbacks(s, id)
            else Callbacks(Apply(s, step), id) > Callbacks(s, id)
  {
    StepCounts(s, place, step, id);
    PlacesKept(s, place, step);
    HandedHasNoDup(s, place, l);
    HandedHasNoDup(Apply(s, step), Placed(s, place, step), l);
    HandedGoesOn(s, place, step, l, id);
  }

  lemma HandedGoesOn(s: State, place: Places, step: Step, l: nat, id: nat)
    requires InvPlaces(s, place) && Enabled(s, step) && step != Cancel(id)
    requires IsAt(place, id, InLocal(l)) || IsAt(place, id, InLoopQueue(l))
    ensures var place' := Placed(s, place, step);
            IsAt(place', id, InLocal(l)) || IsAt(place', id, InLoopQueue(l)) || IsAt(place', id, Drained)
  {
    match step
    case Post(d, _, _, _) => assert s.requests.Keys == place.Keys;
    case Turn(i, who) => TurnTakesWaiting(s, place, i, who);
    case HandOver(i) => assert WorksOn(s.workers[i], s.workers[i].id) && IsAt(place, s.workers[i].id, OnWorker(i));
    case FinishCancel(d) => assert IsAt(place, d, HeldByCancel);
    case _ =>
  }

  /** A turn moves nothing but a request that waits. */
  lemma TurnTakesWaiting(s: State, place: Places, i: nat, who: nat)
    requires InvPlaces(s, place) && Enabled(s, Turn(i, who))
    ensures forall id | id in place && !place[id].MainQueue? && !place[id].SlowQueue? ::
              id in Placed(s, place, Turn(i, who)) && Placed(s, place, Turn(i, who))[id] == place[id]
  {
    if !s.MustWait() {
      if s.wq[0].Item? {
        assert Item(s.wq[0].id) in s.wq;
        assert IsAt(place, s.wq[0].id, MainQueue);
      } else if s.pendingSlow != [] {
        assert s.pendingSlow[0] in s.pendingSlow;
        assert IsAt(place, s.pendingSlow[0], SlowQueue);
      }
    }
  }

  lemma {:induction false} CallbackComes(n: nat, run: seq<State>, steps: seq<Step>, i: nat, t: nat, l: nat, id: nat)
    requires IsRun(n, run, steps) && i <= t <= |steps| && id in Handed(run[i], l)
    requires forall k | i <= k < t :: steps[k] != Cancel(id)
    ensures if Callbacks(run[t], id) == Callbacks(run[i], id) then id in Handed(run[t], l)
            else Callbacks(run[t], id) > Callbacks(run[i], id)
  {
    if t > i {
      CallbackComes(n, run, steps, i, t - 1, l, id);
      RunHolds(n, run, steps, t - 1);
      assert StepAt(run, steps, t - 1);
      StepCounts(run[t - 1], PlacesAt(run, steps, t - 1), steps[t - 1], id);
      if id in Handed(run[t - 1], l) {
        WaitsForCallback(run[t - 1], PlacesAt(run, steps, t - 1), steps[t - 1], l, id);
      }
    }
  }

  lemma {:induction false} StaysBehind(
      n: nat, run: seq<State>, steps: seq<Step>, j: nat, t: nat, l: nat, a: nat, b: nat)
    requires IsRun(n, run, steps) && j <= t <= |steps| && Precedes(Handed(run[j], l), a, b)
    requires forall k | j <= k < t :: steps[k] != Cancel(a) && steps[k] != Cancel(b)
    requires Callbacks(run[t], a) == Callbacks(run[j], a)
    ensures Precedes(Handed(run[t], l), a, b) && Callbacks(run[t], b) == Callbacks(run[j], b)
  {
    if t > j {
      CallbacksGrow(n, run, steps, j, t - 1, a);
      CallbacksGrow(n, run, steps, t - 1, t, a);
      StaysBehind(n, run, steps, j, t - 1, l, a, b);
      RunHolds(n, run, steps, t - 1);
      assert StepAt(run, steps, t - 1);
      StepStaysBehind(run[t - 1], PlacesAt(run, steps, t - 1), steps[t - 1], l, a, b);
    }
  }

  lemma StepStaysBehind(s: State, place: Places, step: Step, l: nat, a: nat, b: nat)
    requires InvPlaces(s, place) && Enabled(s, step) && Precedes(Handed(s, l), a, b)
    requires step != Cancel(a) && step != Cancel(b) && Callbacks(Apply(s, step), a) == Callbacks(s, a)
    ensures Precedes(Handed(Apply(s, step), l), a, b) && Callbacks(Apply(s, step), b) == Callbacks(s, b)
  {
    assert a in Handed(s, l) && b in Handed(s, l);
    WaitsForCallback(s, place, step, l, a);
    HandedOrderKept(s, place, step, l, a, b);
    assert b in Handed(Apply(s, step), l);
    WaitsForCallback(s, place, step, l, b);
  }

  /** A request that enters the queue of a loop is called back after all that are there already. */
  lemma EntersBehind(n: nat, run: seq<State>, steps: seq<Step>, j: nat, l: nat, a: nat, b: nat)
    requires IsRun(n, run, steps) && j < |steps| && a in Handed(run[j], l)
    requires Enabled(run[j], steps[j]) && Entering(run[j], steps[j]) == Some(b) && b in run[j].requests && run[j].requests[b].loop == l
    ensures Precedes(Handed(run[j + 1], l), a, b)
  {
    assert StepAt(run, steps, j);
    EntersAtEnd(run[j], run[j + 1], b, l);
    AppendedBehind(Handed(run[j], l), a, b);
  }

  /** Of two requests of a loop, if the first waits for its callback when the second enters the loop's queue, and neither is
      cancelled after that, then the second is not called back before the first. */
  lemma CalledBackInOrder(n: nat, run: seq<State>, steps: seq<Step>, j: nat, t: nat, l: nat, a: nat, b: nat)
    requires IsRun(n, run, steps) && j < t <= |steps| && a in Handed(run[j], l)
    requires Enabled(run[j], steps[j]) && Entering(run[j], steps[j]) == Some(b) && b in run[j].requests && run[j].requests[b].loop == l
    requires forall k | j < k < t :: steps[k] != Cancel(a) && steps[k] != Cancel(b)
    requires Callbacks(run[t], b) > Callbacks(run[j + 1], b)
    ensures Callbacks(run[t], a) > Callbacks(run[j + 1], a)
  {
    EntersBehind(n, run, steps, j, l, a, b);
    if Callbacks(run[t], a) == Callbacks(run[j + 1], a) {
      StaysBehind(n, run, steps, j + 1, t, l, a, b);
      assert false;
    }
    CallbacksGrow(n, run, steps, j + 1, t, a);
  }
}
