/** What the thread pool keeps under every interleaving. */
module ThreadPoolProof {
  import opened ThreadPool

  // ----- sequences -----

  ghost predicate NoDup<T>(s: seq<T>) {
    forall i, j | 0 <= i < j < |s| :: s[i] != s[j]
  }

  lemma {:induction false} WithoutMembers<T>(s: seq<T>, x: T)
    requires NoDup(s)
    ensures NoDup(Without(s, x)) && forall y :: y in Without(s, x) <==> y in s && y != x
    ensures |Without(s, x)| == if x in s then |s| - 1 else |s|
  {
    if s != [] {
      var rest := s[1..];
      assert s == [s[0]] + rest;
      assert s[0] !in rest;
      WithoutMembers(rest, x);
    }
  }

  lemma PushBack<T>(s: seq<T>, x: T)
    requires NoDup(s) && x !in s
    ensures NoDup(s + [x]) && forall y :: y in s + [x] <==> y in s || y == x
  {
  }

  lemma PopFront<T>(s: seq<T>)
    requires NoDup(s) && s != []
    ensures NoDup(s[1..]) && forall y :: y in s[1..] <==> y in s && y != s[0]
  {
    assert s == [s[0]] + s[1..];
  }

  // ----- every request is in exactly one place -----

  datatype Place =
    | MainQueue
    | SlowQueue
    | OnWorker(i: nat)
    | HeldByCancel
    | InLoopQueue(l: nat)
    | InLocal(l: nat)
    | Drained

  type Places = map<nat, Place>

  predicate WorksOn(w: Worker, id: nat) {
    (w.Running? || w.Ran?) && w.id == id
  }

  ghost predicate IsAt(place: Places, id: nat, p: Place) {
    id in place && place[id] == p
  }

  ghost predicate MainHolds(wq: seq<Message>, place: Places) {
    NoDup(wq) && forall id :: Item(id) in wq <==> IsAt(place, id, MainQueue)
  }

  ghost predicate ListHolds(q: seq<nat>, place: Places, p: Place) {
    NoDup(q) && forall id :: id in q <==> IsAt(place, id, p)
  }

  ghost predicate WorkersHold(workers: seq<Worker>, place: Places) {
    && (forall i, id | 0 <= i < |workers| :: WorksOn(workers[i], id) <==> IsAt(place, id, OnWorker(i)))
    && (forall id | id in place && place[id].OnWorker? :: place[id].i < |workers|)
  }

  ghost predicate RequestHolds(r: Request, p: Place, workers: seq<Worker>) {
    && (r.linked <==> !p.OnWorker?)
    && (forall k | 0 <= k < |r.done| :: r.done[k] == StatusOf(r))
    && (r.done != [] ==> p.Drained? || r.work.Cancelled?)
    && match p
       case MainQueue => r.work.Todo? && !r.ran
       case SlowQueue => r.work.Todo? && !r.ran
       case OnWorker(i) => r.work.Todo? && i < |workers| && (r.ran <==> workers[i].Ran?)
       case HeldByCancel => !r.work.Finished? && !r.ran
       case InLoopQueue(l) => l == r.loop && !r.work.Todo? && (r.ran <==> r.work.Finished?)
       case InLocal(l) => l == r.loop && !r.work.Todo? && (r.ran <==> r.work.Finished?)
       case Drained => r.done != [] && !r.work.Todo? && (r.ran <==> r.work.Finished?)
  }

  ghost predicate RequestsHold(requests: map<nat, Request>, workers: seq<Worker>, place: Places) {
    && requests.Keys == place.Keys
    && forall id | id in requests :: RequestHolds(requests[id], place[id], workers)
  }

  ghost predicate InvPlaces(s: State, place: Places) {
    && MainHolds(s.wq, place) && ListHolds(s.pendingSlow, place, SlowQueue) && WorkersHold(s.workers, place)
    && (forall l :: ListHolds(s.LoopQueue(l), place, InLoopQueue(l)))
    && (forall l :: ListHolds(s.Local(l), place, InLocal(l)))
    && (forall id :: id in s.held <==> IsAt(place, id, HeldByCancel))
    && RequestsHold(s.requests, s.workers, place)
  }

  // ----- one request changes its place -----

  lemma OtherList(q: seq<nat>, place: Places, p: Place, id: nat, to: Place)
    requires ListHolds(q, place, p) && id !in q && p != to
    ensures ListHolds(q, place[id := to], p)
  {
  }

  lemma LongerList(q: seq<nat>, place: Places, p: Place, id: nat)
    requires ListHolds(q, place, p) && id !in q
    ensures ListHolds(q + [id], place[id := p], p)
  {
    PushBack(q, id);
  }

  lemma ShorterList(q: seq<nat>, place: Places, p: Place, to: Place)
    requires ListHolds(q, place, p) && q != [] && p != to
    ensures ListHolds(q[1..], place[q[0] := to], p) && q[0] in place && place[q[0]] == p
  {
    PopFront(q);
    assert q[0] in q;
  }

  lemma CutList(q: seq<nat>, place: Places, p: Place, id: nat, to: Place)
    requires ListHolds(q, place, p) && p != to
    ensures ListHolds(Without(q, id), place[id := to], p)
  {
    WithoutMembers(q, id);
  }

  lemma MainRotated(wq: seq<Message>, place: Places, id: nat, to: Place, again: bool)
    requires MainHolds(wq, place) && wq != [] && wq[0] == RunSlow && !IsAt(place, id, MainQueue) && to != MainQueue
    ensures MainHolds(wq[1..] + (if again then [RunSlow] else []), place[id := to])
  {
    PopFront(wq);
    if again {
      PushBack(wq[1..], RunSlow);
    } else {
      assert wq[1..] + [] == wq[1..];
    }
  }

  /** The lists of all loops after one request went elsewhere. */
  lemma LoopListsCut(s: State, place: Places, id: nat, to: Place, s': State)
    requires InvPlaces(s, place) && id in s.requests && !to.InLoopQueue? && !to.InLocal?
    requires var l := s.requests[id].loop;
             && s'.loopQueues == s.loopQueues[l := Without(s.LoopQueue(l), id)]
             && s'.local_ == s.local_[l := Without(s.Local(l), id)]
    ensures forall k :: ListHolds(s'.LoopQueue(k), place[id := to], InLoopQueue(k))
    ensures forall k :: ListHolds(s'.Local(k), place[id := to], InLocal(k))
  {
    assert RequestHolds(s.requests[id], place[id], s.workers);
    forall k
      ensures ListHolds(s'.LoopQueue(k), place[id := to], InLoopQueue(k))
      ensures ListHolds(s'.Local(k), place[id := to], InLocal(k))
    {
      ListCut(s.LoopQueue(k), s'.LoopQueue(k), place, InLoopQueue(k), id, to);
      ListCut(s.Local(k), s'.Local(k), place, InLocal(k), id, to);
    }
  }

  lemma ListCut(q: seq<nat>, q': seq<nat>, place: Places, p: Place, id: nat, to: Place)
    requires ListHolds(q, place, p) && p != to && (q' == Without(q, id) || (q' == q && !IsAt(place, id, p)))
    ensures ListHolds(q', place[id := to], p)
  {
    if q' == q && !IsAt(place, id, p) {
      OtherList(q, place, p, id, to);
    } else {
      CutList(q, place, p, id, to);
    }
  }

  lemma LoopListsGrown(s: State, place: Places, id: nat, s': State)
    requires InvPlaces(s, place) && id in s.requests && !place[id].InLoopQueue? && !place[id].InLocal?
    requires var l := s.requests[id].loop;
             s'.loopQueues == s.loopQueues[l := s.LoopQueue(l) + [id]] && s'.local_ == s.local_
    ensures forall k :: ListHolds(s'.LoopQueue(k), place[id := InLoopQueue(s.requests[id].loop)], InLoopQueue(k))
    ensures forall k :: ListHolds(s'.Local(k), place[id := InLoopQueue(s.requests[id].loop)], InLocal(k))
  {
    var l := s.requests[id].loop;
    forall k
      ensures ListHolds(s'.LoopQueue(k), place[id := InLoopQueue(l)], InLoopQueue(k))
      ensures ListHolds(s'.Local(k), place[id := InLoopQueue(l)], InLocal(k))
    {
      assert ListHolds(s.LoopQueue(k), place, InLoopQueue(k)) && ListHolds(s.Local(k), place, InLocal(k));
      OtherList(s.Local(k), place, InLocal(k), id, InLoopQueue(l));
      if k == l {
        LongerList(s.LoopQueue(k), place, InLoopQueue(k), id);
      } else {
        OtherList(s.LoopQueue(k), place, InLoopQueue(k), id, InLoopQueue(l));
      }
    }
  }

  /** Where the requests are after a step. */
  function Placed(s: State, place: Places, step: Step): Places
    requires Enabled(s, step)
  {
    match step
    case Post(id, _, slow, _) => place[id := if slow then SlowQueue else MainQueue]
    case Turn(i, _) =>
      if s.MustWait() then place
      else if s.wq[0].Item? then place[s.wq[0].id := OnWorker(i)]
      else if s.slowRunning >= s.Threshold() || s.pendingSlow == [] then place
      else place[s.pendingSlow[0] := OnWorker(i)]
    case HandOver(i) => place[s.workers[i].id := InLoopQueue(s.requests[s.workers[i].id].loop)]
    case Cancel(id) => place[id := HeldByCancel]
    case FinishCancel(id) => place[id := InLoopQueue(s.requests[id].loop)]
    case Move(l) => map id | id in place :: if place[id] == InLoopQueue(l) then InLocal(l) else place[id]
    case CallBack(l) => place[s.Local(l)[0] := Drained]
    case _ => place
  }

  // ----- step by step -----

  /** A worker that is not on a request may do something else that is not on a request. */
  lemma OffWorkHolds(workers: seq<Worker>, i: nat, w: Worker, place: Places, requests: map<nat, Request>)
    requires WorkersHold(workers, place) && RequestsHold(requests, workers, place)
    requires i < |workers| && !(workers[i].Running? || workers[i].Ran?) && !(w.Running? || w.Ran?)
    ensures WorkersHold(workers[i := w], place) && RequestsHold(requests, workers[i := w], place)
  {
    forall id | id in requests ensures RequestHolds(requests[id], place[id], workers[i := w]) {
      if place[id].OnWorker? {
        assert IsAt(place, id, OnWorker(place[id].i));
        assert WorksOn(workers[place[id].i], id);
      }
    }
  }

  lemma SignalPlaces(s: State, who: nat, place: Places)
    requires InvPlaces(s, place)
    ensures InvPlaces(Signal(s, who), place)
  {
    if who < |s.workers| && s.workers[who].Sleeping? {
      OffWorkHolds(s.workers, who, Woken, place, s.requests);
    }
  }

  /** A request enters the pool. */
  lemma EnterPlaces(s: State, id: nat, loop: nat, p: Place, place: Places, s': State)
    requires InvPlaces(s, place) && id !in s.requests && (p == MainQueue || p == SlowQueue)
    requires s' == s.(requests := s.requests[id := Request(loop, p.SlowQueue?, Todo, false, true, [])], wq := s'.wq, pendingSlow := s'.pendingSlow)
    requires MainHolds(s'.wq, place[id := p]) && ListHolds(s'.pendingSlow, place[id := p], SlowQueue)
    ensures InvPlaces(s', place[id := p])
  {
    EnteredRequests(s, id, loop, p, place);
    forall k
      ensures ListHolds(s.LoopQueue(k), place[id := p], InLoopQueue(k)) && ListHolds(s.Local(k), place[id := p], InLocal(k))
    {
      assert ListHolds(s.LoopQueue(k), place, InLoopQueue(k)) && ListHolds(s.Local(k), place, InLocal(k));
    }
  }

  lemma EnteredRequests(s: State, id: nat, loop: nat, p: Place, place: Places)
    requires InvPlaces(s, place) && id !in s.requests && (p == MainQueue || p == SlowQueue)
    ensures RequestsHold(s.requests[id := Request(loop, p.SlowQueue?, Todo, false, true, [])], s.workers, place[id := p])
    ensures WorkersHold(s.workers, place[id := p])
  {
  }

  lemma PostPlaces(s: State, id: nat, loop: nat, slow: bool, who: nat, place: Places)
    requires InvPlaces(s, place) && id !in s.requests
    ensures InvPlaces(Posted(s, id, loop, slow, who), place[id := if slow then SlowQueue else MainQueue])
  {
    var s' := s.(requests := s.requests[id := Request(loop, slow, Todo, false, true, [])]);
    if slow {
      PushBack(s.pendingSlow, id);
      var queued := s'.(pendingSlow := s.pendingSlow + [id]);
      if RunSlow in s.wq {
        EnterPlaces(s, id, loop, SlowQueue, place, queued);
      } else {
        PushBack(s.wq, RunSlow);
        EnterPlaces(s, id, loop, SlowQueue, place, queued.(wq := s.wq + [RunSlow]));
        SignalPlaces(queued.(wq := s.wq + [RunSlow]), who, place[id := SlowQueue]);
      }
    } else {
      PushBack(s.wq, Item(id));
      EnterPlaces(s, id, loop, MainQueue, place, s'.(wq := s.wq + [Item(id)]));
      SignalPlaces(s'.(wq := s.wq + [Item(id)]), who, place[id := MainQueue]);
    }
  }

  /** A worker takes a request out of one of the two queues. */
  lemma TakePlaces(s: State, i: nat, id: nat, slow: bool, place: Places, s': State)
    requires InvPlaces(s, place) && i < |s.workers| && s.workers[i].Looping?
    requires id in s.requests && (place[id] == MainQueue || place[id] == SlowQueue)
    requires s' == s.(wq := s'.wq, pendingSlow := s'.pendingSlow, slowRunning := s'.slowRunning, locked := s'.locked,
                      workers := s.workers[i := Running(id, slow)], requests := Unlinked(s.requests, id))
    requires MainHolds(s'.wq, place[id := OnWorker(i)]) && ListHolds(s'.pendingSlow, place[id := OnWorker(i)], SlowQueue)
    ensures InvPlaces(s', place[id := OnWorker(i)])
  {
    TakeWorkers(s.workers, i, id, slow, place, s.requests);
    assert RequestHolds(s.requests[id], place[id], s.workers);
  }

  lemma TakeWorkers(workers: seq<Worker>, i: nat, id: nat, slow: bool, place: Places, requests: map<nat, Request>)
    requires WorkersHold(workers, place) && RequestsHold(requests, workers, place)
    requires i < |workers| && workers[i].Looping? && id in requests && (place[id] == MainQueue || place[id] == SlowQueue)
    ensures WorkersHold(workers[i := Running(id, slow)], place[id := OnWorker(i)])
    ensures RequestsHold(Unlinked(requests, id), workers[i := Running(id, slow)], place[id := OnWorker(i)])
  {
    var workers' := workers[i := Running(id, slow)];
    var place' := place[id := OnWorker(i)];
    forall k, d | 0 <= k < |workers'| ensures WorksOn(workers'[k], d) <==> IsAt(place', d, OnWorker(k)) {
      assert WorksOn(workers[k], d) <==> IsAt(place, d, OnWorker(k));
    }
    forall d | d in requests ensures RequestHolds(Unlinked(requests, id)[d], place'[d], workers') {
      assert RequestHolds(requests[d], place[d], workers);
      if place[d].OnWorker? {
        assert WorksOn(workers[place[d].i], d) <==> IsAt(place, d, OnWorker(place[d].i));
      }
    }
  }

  lemma SlowTakenPlaces(s: State, i: nat, who: nat, place: Places)
    requires InvPlaces(s, place) && i < |s.workers| && s.workers[i].Looping?
    requires s.pendingSlow != [] && s.wq != [] && s.wq[0] == RunSlow
    ensures InvPlaces(SlowTaken(s, i, who), place[s.pendingSlow[0] := OnWorker(i)])
  {
    var id := s.pendingSlow[0];
    ShorterList(s.pendingSlow, place, SlowQueue, OnWorker(i));
    MainRotated(s.wq, place, id, OnWorker(i), |s.pendingSlow| > 1);
    var s' := s.(wq := s.wq[1..] + if |s.pendingSlow| > 1 then [RunSlow] else [], pendingSlow := s.pendingSlow[1..],
                 slowRunning := s.slowRunning + 1, locked := false, workers := s.workers[i := Running(id, true)],
                 requests := Unlinked(s.requests, id));
    TakePlaces(s, i, id, true, place, s');
    SignalPlaces(s', who, place[id := OnWorker(i)]);
  }

  lemma ItemTakenPlaces(s: State, i: nat, place: Places, s': State)
    requires InvPlaces(s, place) && i < |s.workers| && s.workers[i].Looping? && s.wq != [] && s.wq[0].Item?
    requires s' == s.(wq := s.wq[1..], locked := false, workers := s.workers[i := Running(s.wq[0].id, false)],
                      requests := Unlinked(s.requests, s.wq[0].id))
    ensures InvPlaces(s', place[s.wq[0].id := OnWorker(i)])
  {
    var id := s.wq[0].id;
    PopFront(s.wq);
    assert Item(id) in s.wq;
    OtherList(s.pendingSlow, place, SlowQueue, id, OnWorker(i));
    TakePlaces(s, i, id, false, place, s');
  }

  lemma MessagePlaces(s: State, place: Places, s': State)
    requires InvPlaces(s, place) && s.wq != [] && s.wq[0] == RunSlow
    requires s' == s.(wq := s'.wq) && (s'.wq == s.wq[1..] || s'.wq == s.wq[1..] + [RunSlow])
    ensures InvPlaces(s', place)
  {
    PopFront(s.wq);
    if s'.wq != s.wq[1..] {
      PushBack(s.wq[1..], RunSlow);
    }
  }

  lemma TurnPlaces(s: State, i: nat, who: nat, place: Places)
    requires InvPlaces(s, place) && Enabled(s, Turn(i, who))
    ensures InvPlaces(Turned(s, i, who), Placed(s, place, Turn(i, who)))
  {
    if s.MustWait() {
      OffWorkHolds(s.workers, i, Sleeping, place, s.requests);
    } else if s.wq[0].Item? {
      ItemTakenPlaces(s, i, place, Turned(s, i, who));
    } else if s.slowRunning >= s.Threshold() || s.pendingSlow == [] {
      MessagePlaces(s, place, Turned(s, i, who));
    } else {
      SlowTakenPlaces(s, i, who, place);
    }
  }

  lemma LockPlaces(s: State, i: nat, place: Places)
    requires InvPlaces(s, place) && Enabled(s, Lock(i))
    ensures InvPlaces(Locked(s, i), place)
  {
    OffWorkHolds(s.workers, i, Looping, place, s.requests);
  }

  lemma ExecutePlaces(s: State, i: nat, place: Places)
    requires InvPlaces(s, place) && Enabled(s, Execute(i))
    ensures InvPlaces(Executed(s, i), place)
  {
    var s' := Executed(s, i);
    assert WorksOn(s.workers[i], s.workers[i].id);
    forall k, d | 0 <= k < |s'.workers| ensures WorksOn(s'.workers[k], d) <==> IsAt(place, d, OnWorker(k)) {
      assert WorksOn(s.workers[k], d) <==> IsAt(place, d, OnWorker(k));
    }
    forall d | d in s'.requests ensures RequestHolds(s'.requests[d], place[d], s'.workers) {
      if place[d].OnWorker? {
        assert WorksOn(s.workers[place[d].i], d) <==> IsAt(place, d, OnWorker(place[d].i));
      }
    }
  }

  /** A request arrives in the queue of its loop. */
  lemma ArrivePlaces(s: State, id: nat, place: Places, workers: seq<Worker>, r: Request, held: set<nat>, s': State)
    requires InvPlaces(s, place) && id in s.requests && |workers| == |s.workers|
    requires !place[id].MainQueue? && !place[id].SlowQueue? && !place[id].InLoopQueue? && !place[id].InLocal? && !place[id].Drained?
    requires r.loop == s.requests[id].loop && !r.work.Todo? && (r.ran <==> r.work.Finished?)
    requires (r.done != [] ==> r.work.Cancelled?) && forall k | 0 <= k < |r.done| :: r.done[k] == StatusOf(r)
    requires s' == Queued(s.(workers := workers, requests := s.requests[id := r], held := held), id)
    requires held == s.held - {id}
    requires forall k, d | 0 <= k < |workers| :: WorksOn(workers[k], d) <==> WorksOn(s.workers[k], d) && d != id
    requires forall k | 0 <= k < |workers| && !WorksOn(s.workers[k], id) :: workers[k] == s.workers[k]
    ensures InvPlaces(s', place[id := InLoopQueue(r.loop)])
  {
    var place' := place[id := InLoopQueue(r.loop)];
    LoopListsGrown(s, place, id, s');
    OtherList(s.pendingSlow, place, SlowQueue, id, InLoopQueue(r.loop));
    forall d | d in s'.requests ensures RequestHolds(s'.requests[d], place'[d], workers) {
      if place'[d].OnWorker? {
        assert WorksOn(s.workers[place[d].i], d) <==> IsAt(place, d, OnWorker(place[d].i));
        assert !WorksOn(s.workers[place[d].i], id);
      }
    }
  }

  lemma HandOverPlaces(s: State, i: nat, place: Places)
    requires InvPlaces(s, place) && Enabled(s, HandOver(i))
    ensures InvPlaces(HandedOver(s, i), Placed(s, place, HandOver(i)))
  {
    var w := s.workers[i];
    assert WorksOn(w, w.id);
    assert forall k | 0 <= k < |s.workers| && k != i :: WorksOn(s.workers[k], w.id) <==> IsAt(place, w.id, OnWorker(k));
    assert RequestHolds(s.requests[w.id], place[w.id], s.workers);
    ArrivePlaces(s, w.id, place, s.workers[i := Returning(w.slow)], s.requests[w.id].(work := Finished), s.held, HandedOver(s, i));
  }

  lemma FinishCancelPlaces(s: State, id: nat, place: Places)
    requires InvPlaces(s, place) && Enabled(s, FinishCancel(id))
    ensures InvPlaces(CancelFinished(s, id), Placed(s, place, FinishCancel(id)))
  {
    assert IsAt(place, id, HeldByCancel);
    assert RequestHolds(s.requests[id], place[id], s.workers);
    assert forall k | 0 <= k < |s.workers| :: !WorksOn(s.workers[k], id);
    ArrivePlaces(s, id, place, s.workers, s.requests[id].(work := Cancelled), s.held - {id}, CancelFinished(s, id));
  }

  lemma CancelPlaces(s: State, id: nat, place: Places)
    requires InvPlaces(s, place) && Enabled(s, Cancel(id))
    ensures InvPlaces(Taken(s, id), Placed(s, place, Cancel(id)))
  {
    var s' := Taken(s, id);
    var place' := place[id := HeldByCancel];
    LoopListsCut(s, place, id, HeldByCancel, s');
    WithoutMembers(s.wq, Item(id));
    CutList(s.pendingSlow, place, SlowQueue, id, HeldByCancel);
    CancelledRequests(s, id, place);
  }

  lemma CancelledRequests(s: State, id: nat, place: Places)
    requires InvPlaces(s, place) && Enabled(s, Cancel(id))
    ensures RequestsHold(s.requests, s.workers, place[id := HeldByCancel])
    ensures WorkersHold(s.workers, place[id := HeldByCancel])
    ensures !place[id].OnWorker? && !place[id].HeldByCancel?
  {
    assert RequestHolds(s.requests[id], place[id], s.workers);
    assert id in s.held <==> IsAt(place, id, HeldByCancel);
  }

  /** The lists of all loops after one loop took its queue over. */
  lemma MovedLists(s: State, l: nat, place: Places, k: nat)
    requires InvPlaces(s, place) && Enabled(s, Move(l))
    ensures ListHolds(Moved(s, l).LoopQueue(k), Placed(s, place, Move(l)), InLoopQueue(k))
    ensures ListHolds(Moved(s, l).Local(k), Placed(s, place, Move(l)), InLocal(k))
  {
    var place' := Placed(s, place, Move(l));
    assert ListHolds(s.LoopQueue(k), place, InLoopQueue(k)) && ListHolds(s.Local(k), place, InLocal(k));
    if k == l {
      forall id ensures IsAt(place', id, InLocal(l)) <==> id in s.LoopQueue(l) {
        assert id in s.Local(l) <==> IsAt(place, id, InLocal(l));
      }
      forall id ensures !IsAt(place', id, InLoopQueue(l)) {}
    } else {
      forall id ensures IsAt(place', id, InLocal(k)) <==> id in s.Local(k) {}
      forall id ensures IsAt(place', id, InLoopQueue(k)) <==> id in s.LoopQueue(k) {}
    }
  }

  lemma MovePlaces(s: State, l: nat, place: Places)
    requires InvPlaces(s, place) && Enabled(s, Move(l))
    ensures InvPlaces(Moved(s, l), Placed(s, place, Move(l)))
  {
    forall k { MovedLists(s, l, place, k); }
    MovedRequests(s, l, place);
    OthersStay(s, l, place);
  }

  lemma MovedRequests(s: State, l: nat, place: Places)
    requires InvPlaces(s, place) && Enabled(s, Move(l))
    ensures RequestsHold(s.requests, s.workers, Placed(s, place, Move(l)))
  {
    var place' := Placed(s, place, Move(l));
    forall d | d in s.requests ensures RequestHolds(s.requests[d], place'[d], s.workers) {
      assert RequestHolds(s.requests[d], place[d], s.workers);
    }
  }

  /** Requests outside the queue of a loop stay where they are when the loop takes its queue over. */
  lemma OthersStay(s: State, l: nat, place: Places)
    requires InvPlaces(s, place) && Enabled(s, Move(l))
    ensures var place' := Placed(s, place, Move(l));
            && MainHolds(s.wq, place') && ListHolds(s.pendingSlow, place', SlowQueue) && WorkersHold(s.workers, place')
            && forall id :: id in s.held <==> IsAt(place', id, HeldByCancel)
  {
    var place' := Placed(s, place, Move(l));
    assert forall id, p: Place | !p.InLoopQueue? && !p.InLocal? :: IsAt(place', id, p) <==> IsAt(place, id, p);
  }

  lemma CalledBackLists(s: State, l: nat, place: Places, k: nat)
    requires InvPlaces(s, place) && Enabled(s, CallBack(l))
    ensures ListHolds(CalledBack(s, l).LoopQueue(k), place[s.Local(l)[0] := Drained], InLoopQueue(k))
    ensures ListHolds(CalledBack(s, l).Local(k), place[s.Local(l)[0] := Drained], InLocal(k))
    ensures IsAt(place, s.Local(l)[0], InLocal(l))
  {
    var id := s.Local(l)[0];
    assert ListHolds(s.Local(l), place, InLocal(l));
    ShorterList(s.Local(l), place, InLocal(l), Drained);
    assert ListHolds(s.LoopQueue(k), place, InLoopQueue(k)) && ListHolds(s.Local(k), place, InLocal(k));
    OtherList(s.LoopQueue(k), place, InLoopQueue(k), id, Drained);
    if k != l {
      OtherList(s.Local(k), place, InLocal(k), id, Drained);
    }
  }

  lemma CallBackPlaces(s: State, l: nat, place: Places)
    requires InvPlaces(s, place) && Enabled(s, CallBack(l))
    ensures InvPlaces(CalledBack(s, l), Placed(s, place, CallBack(l)))
  {
    CalledBackLists(s, l, place, l);
    forall k { CalledBackLists(s, l, place, k); }
    OtherList(s.pendingSlow, place, SlowQueue, s.Local(l)[0], Drained);
    CalledBackRequests(s, l, place);
  }

  lemma CalledBackRequests(s: State, l: nat, place: Places)
    requires InvPlaces(s, place) && Enabled(s, CallBack(l)) && IsAt(place, s.Local(l)[0], InLocal(l))
    ensures RequestsHold(CalledBack(s, l).requests, s.workers, place[s.Local(l)[0] := Drained])
  {
    var id := s.Local(l)[0];
    assert RequestHolds(s.requests[id], place[id], s.workers);
  }

  lemma PlacesKept(s: State, place: Places, step: Step)
    requires InvPlaces(s, place) && Enabled(s, step)
    ensures InvPlaces(Apply(s, step), Placed(s, place, step))
  {
    match step
    case Post(id, loop, slow, who) => PostPlaces(s, id, loop, slow, who, place);
    case WakeUp(i) => OffWorkHolds(s.workers, i, Woken, place, s.requests);
    case Lock(i) => LockPlaces(s, i, place);
    case Turn(i, who) => TurnPlaces(s, i, who, place);
    case Execute(i) => ExecutePlaces(s, i, place);
    case HandOver(i) => HandOverPlaces(s, i, place);
    case Cancel(id) => CancelPlaces(s, id, place);
    case FinishCancel(id) => FinishCancelPlaces(s, id, place);
    case Move(l) => MovePlaces(s, l, place);
    case CallBack(l) => CallBackPlaces(s, l, place);
  }

  // ----- workers counted -----

  datatype Kind = Asleep | Idle | Awake | Holding | Slow

  predicate Is(w: Worker, k: Kind) {
    match k
    case Asleep => w.Sleeping?
    case Idle => w.Sleeping? || w.Woken?
    case Awake => w.Woken? || w.Ready? || w.Looping?
    case Holding => w.Looping?
    case Slow => (w.Running? || w.Ran? || w.Returning?) && w.slow
  }

  function One(w: Worker, k: Kind): nat {
    if Is(w, k) then 1 else 0
  }

  function Count(workers: seq<Worker>, k: Kind): nat {
    if workers == [] then 0 else One(workers[0], k) + Count(workers[1..], k)
  }

  lemma {:induction false} CountChanged(workers: seq<Worker>, i: nat, w: Worker, k: Kind)
    requires i < |workers|
    ensures Count(workers[i := w], k) == Count(workers, k) - One(workers[i], k) + One(w, k)
    ensures One(workers[i], k) <= Count(workers, k)
  {
    if i > 0 {
      CountChanged(workers[1..], i - 1, w, k);
      assert workers[i := w][1..] == workers[1..][i - 1 := w];
    }
  }

  lemma {:induction false} CountNone(workers: seq<Worker>, k: Kind)
    ensures Count(workers, k) == 0 <==> forall i | 0 <= i < |workers| :: !Is(workers[i], k)
  {
    if workers != [] {
      CountNone(workers[1..], k);
      assert forall i | 0 < i < |workers| :: workers[i] == workers[1..][i - 1];
    }
  }

  /** Entries of the main queue that an awake worker could take now. */
  function Runnable(s: State): nat {
    if RunSlow !in s.wq then |s.wq| else |s.wq| - 1 + if s.slowRunning < s.Threshold() then 1 else 0
  }

  /** While a worker sleeps, every runnable entry has an awake worker coming for it. */
  predicate Balanced(s: State) {
    Count(s.workers, Asleep) == 0 || Runnable(s) <= Count(s.workers, Awake)
  }

  predicate InvCounts(s: State) {
    && s.idle == Count(s.workers, Idle)
    && s.slowRunning == Count(s.workers, Slow) <= s.Threshold()
    && Count(s.workers, Holding) == (if s.locked then 1 else 0)
  }

  ghost predicate InvQueues(s: State) {
    NoDup(s.wq) && (s.pendingSlow != [] ==> RunSlow in s.wq)
  }

  ghost predicate InvPool(s: State) {
    InvCounts(s) && InvQueues(s) && Balanced(s)
  }

  lemma CountsChanged(workers: seq<Worker>, i: nat, w: Worker)
    requires i < |workers|
    ensures forall k :: Count(workers[i := w], k) == Count(workers, k) - One(workers[i], k) + One(w, k)
    ensures forall k :: One(workers[i], k) <= Count(workers, k)
  {
    forall k
      ensures Count(workers[i := w], k) == Count(workers, k) - One(workers[i], k) + One(w, k)
      ensures One(workers[i], k) <= Count(workers, k)
    {
      CountChanged(workers, i, w, k);
    }
  }

  /** One more runnable entry is balanced by the wake-up that follows. */
  lemma SignalBalances(s: State, who: nat)
    requires InvCounts(s) && InvQueues(s) && Fair(s, who)
    requires Count(s.workers, Asleep) == 0 || Runnable(s) <= Count(s.workers, Awake) + 1
    ensures InvPool(Signal(s, who))
  {
    CountNone(s.workers, Asleep);
    CountNone(s.workers, Idle);
    if Count(s.workers, Asleep) > 0 {
      CountsChanged(s.workers, who, Woken);
      assert Is(s.workers[who], Idle);
    } else {
      assert Signal(s, who) == s;
    }
  }

  lemma PostPool(s: State, id: nat, loop: nat, slow: bool, who: nat)
    requires InvPool(s) && Fair(s, who) && Item(id) !in s.wq
    ensures InvPool(Posted(s, id, loop, slow, who))
  {
    var s' := s.(requests := s.requests[id := Request(loop, slow, Todo, false, true, [])]);
    if slow {
      var queued := s'.(pendingSlow := s.pendingSlow + [id]);
      if RunSlow !in s.wq {
        PushBack(s.wq, RunSlow);
        SignalBalances(queued.(wq := s.wq + [RunSlow]), who);
      }
    } else {
      PushBack(s.wq, Item(id));
      SignalBalances(s'.(wq := s.wq + [Item(id)]), who);
    }
  }

  lemma WakeUpPool(s: State, i: nat)
    requires InvPool(s) && Enabled(s, WakeUp(i))
    ensures InvPool(s.(workers := s.workers[i := Woken]))
  {
    CountsChanged(s.workers, i, Woken);
  }

  lemma LockPool(s: State, i: nat)
    requires InvPool(s) && Enabled(s, Lock(i))
    ensures InvPool(Locked(s, i))
  {
    CountsChanged(s.workers, i, Looping);
    assert One(s.workers[i], Idle) <= s.idle && One(s.workers[i], Slow) <= s.slowRunning;
  }

  /** A worker that held the mutex goes off with a slow request. */
  lemma SlowTakenCounts(s: State, i: nat, id: nat, s': State)
    requires InvCounts(s) && i < |s.workers| && s.workers[i].Looping? && s.slowRunning < s.Threshold()
    requires s'.workers == s.workers[i := Running(id, true)] && s'.slowRunning == s.slowRunning + 1
    requires s'.idle == s.idle && !s'.locked
    ensures InvCounts(s') && Count(s'.workers, Asleep) == Count(s.workers, Asleep)
    ensures Count(s'.workers, Awake) + 1 == Count(s.workers, Awake)
  {
    CountsChanged(s.workers, i, Running(id, true));
  }

  lemma SlowTakenPool(s: State, i: nat, who: nat)
    requires InvPool(s) && Enabled(s, Turn(i, who)) && !s.MustWait() && s.wq[0] == RunSlow
    requires s.slowRunning < s.Threshold() && s.pendingSlow != []
    ensures InvPool(SlowTaken(s, i, who))
  {
    MainRotatedNoDup(s.wq, |s.pendingSlow| > 1);
    var s' := s.(wq := s.wq[1..] + if |s.pendingSlow| > 1 then [RunSlow] else [], pendingSlow := s.pendingSlow[1..],
                 slowRunning := s.slowRunning + 1, locked := false,
                 workers := s.workers[i := Running(s.pendingSlow[0], true)],
                 requests := Unlinked(s.requests, s.pendingSlow[0]));
    SlowTakenCounts(s, i, s.pendingSlow[0], s');
    if |s.pendingSlow| > 1 {
      SignalBalances(s', who);
    }
  }

  lemma MainRotatedNoDup(wq: seq<Message>, again: bool)
    requires NoDup(wq) && wq != [] && wq[0] == RunSlow
    ensures NoDup(wq[1..] + (if again then [RunSlow] else []))
    ensures RunSlow in wq[1..] + (if again then [RunSlow] else []) <==> again
    ensures RunSlow !in wq[1..]
  {
    PopFront(wq);
    if !again {
      assert wq[1..] + [] == wq[1..];
    }
  }

  lemma TurnPool(s: State, i: nat, who: nat)
    requires InvPool(s) && Enabled(s, Turn(i, who))
    ensures InvPool(Turned(s, i, who))
  {
    if s.MustWait() {
      CountsChanged(s.workers, i, Sleeping);
      assert Runnable(s) == 0;
    } else if s.wq[0].Item? {
      ItemTakenPool(s, i, who);
    } else if s.slowRunning < s.Threshold() && s.pendingSlow != [] {
      SlowTakenPool(s, i, who);
    } else {
      MessagePool(s, Turned(s, i, who));
    }
  }

  lemma ItemTakenPool(s: State, i: nat, who: nat)
    requires InvPool(s) && Enabled(s, Turn(i, who)) && !s.MustWait() && s.wq[0].Item?
    ensures InvPool(Turned(s, i, who))
  {
    PopFront(s.wq);
    CountsChanged(s.workers, i, Running(s.wq[0].id, false));
  }

  /** The message goes to the end while the quota is used up, and away while nothing is pending. */
  lemma MessagePool(s: State, s': State)
    requires InvPool(s) && !s.MustWait() && s.wq[0] == RunSlow && s' == s.(wq := s'.wq)
    requires if s.slowRunning >= s.Threshold() then s'.wq == s.wq[1..] + [RunSlow]
             else s.pendingSlow == [] && s'.wq == s.wq[1..]
    ensures InvPool(s')
  {
    PopFront(s.wq);
    if s.slowRunning >= s.Threshold() {
      MainRotatedNoDup(s.wq, true);
    }
  }

  lemma ExecutePool(s: State, i: nat)
    requires InvPool(s) && Enabled(s, Execute(i))
    ensures InvPool(Executed(s, i))
  {
    CountsChanged(s.workers, i, Ran(s.workers[i].id, s.workers[i].slow));
  }

  lemma HandOverPool(s: State, i: nat)
    requires InvPool(s) && Enabled(s, HandOver(i))
    ensures InvPool(HandedOver(s, i))
  {
    CountsChanged(s.workers, i, Returning(s.workers[i].slow));
  }

  lemma CancelPool(s: State, id: nat)
    requires InvPool(s) && NoDup(s.pendingSlow) && Enabled(s, Cancel(id))
    ensures InvPool(Taken(s, id))
  {
    WithoutMembers(s.wq, Item(id));
    WithoutMembers(s.pendingSlow, id);
  }

  lemma PoolKept(s: State, place: Places, step: Step)
    requires InvPool(s) && InvPlaces(s, place) && Enabled(s, step)
    ensures InvPool(Apply(s, step))
  {
    match step
    case Post(id, loop, slow, who) => PostPool(s, id, loop, slow, who);
    case WakeUp(i) => WakeUpPool(s, i);
    case Lock(i) => LockPool(s, i);
    case Turn(i, who) => TurnPool(s, i, who);
    case Execute(i) => ExecutePool(s, i);
    case HandOver(i) => HandOverPool(s, i);
    case Cancel(id) => CancelPool(s, id);
    case _ =>
  }

  // ----- over whole runs -----

  ghost function PlacesAt(run: seq<State>, steps: seq<Step>, i: nat): Places
    requires i <= |steps| < |run| && forall k | 0 <= k < |steps| :: StepAt(run, steps, k)
  {
    if i == 0 then map[]
    else
      assert StepAt(run, steps, i - 1);
      Placed(run[i - 1], PlacesAt(run, steps, i - 1), steps[i - 1])
  }

  lemma CreatedHolds(n: nat)
    ensures InvPool(Created(n)) && InvPlaces(Created(n), map[])
  {
    var s := Created(n);
    CountNone(s.workers, Asleep);
    CountNone(s.workers, Idle);
    CountNone(s.workers, Holding);
    CountNone(s.workers, Slow);
  }

  lemma CrewKept(s: State, step: Step)
    requires Enabled(s, step)
    ensures |Apply(s, step).workers| == |s.workers|
  {
  }

  lemma StepHolds(s: State, place: Places, step: Step, s': State, place': Places)
    requires InvPool(s) && InvPlaces(s, place) && Enabled(s, step)
    requires s' == Apply(s, step) && place' == Placed(s, place, step)
    ensures InvPool(s') && InvPlaces(s', place')
  {
    PoolKept(s, place, step);
    PlacesKept(s, place, step);
  }

  lemma {:induction false} RunHolds(n: nat, run: seq<State>, steps: seq<Step>, i: nat)
    requires IsRun(n, run, steps) && i <= |steps|
    ensures InvPool(run[i]) && InvPlaces(run[i], PlacesAt(run, steps, i)) && |run[i].workers| == n
  {
    if i == 0 {
      CreatedHolds(n);
    } else {
      RunHolds(n, run, steps, i - 1);
      assert StepAt(run, steps, i - 1);
      CrewKept(run[i - 1], steps[i - 1]);
      StepHolds(run[i - 1], PlacesAt(run, steps, i - 1), steps[i - 1], run[i], PlacesAt(run, steps, i));
    }
  }

  /** Every submitted request is in exactly one place, the one that PlacesAt tells. */
  lemma ExactlyOnePlace(n: nat, run: seq<State>, steps: seq<Step>, i: nat, id: nat)
    requires IsRun(n, run, steps) && i <= |steps| && id in run[i].requests
    ensures id in PlacesAt(run, steps, i)
    ensures
      var s, p := run[i], PlacesAt(run, steps, i)[id];
      && (Item(id) in s.wq <==> p == MainQueue)
      && (id in s.pendingSlow <==> p == SlowQueue)
      && (forall k | 0 <= k < |s.workers| :: WorksOn(s.workers[k], id) <==> p == OnWorker(k))
      && (id in s.held <==> p == HeldByCancel)
      && (forall l :: id in s.LoopQueue(l) <==> p == InLoopQueue(l))
      && (forall l :: id in s.Local(l) <==> p == InLocal(l))
      && (p == Drained ==> s.requests[id].done != [])
    ensures NoDup(run[i].wq) && NoDup(run[i].pendingSlow) && forall l :: NoDup(run[i].LoopQueue(l)) && NoDup(run[i].Local(l))
  {
    RunHolds(n, run, steps, i);
    var s, place := run[i], PlacesAt(run, steps, i);
    assert RequestHolds(s.requests[id], place[id], s.workers);
    assert forall k | 0 <= k < |s.workers| :: WorksOn(s.workers[k], id) <==> IsAt(place, id, OnWorker(k));
    assert forall l :: ListHolds(s.LoopQueue(l), place, InLoopQueue(l)) && ListHolds(s.Local(l), place, InLocal(l));
  }

  /** A request can be cancelled exactly when its work never ran and no worker has it: while it is queued, and also after
      its callback was given ECANCELED. */
  lemma CancelledUnlessStarted(n: nat, run: seq<State>, steps: seq<Step>, i: nat, id: nat)
    requires IsRun(n, run, steps) && i <= |steps| && id in run[i].requests
    ensures CanCancel(run[i], id) <==>
            !run[i].requests[id].ran && forall k | 0 <= k < |run[i].workers| :: !WorksOn(run[i].workers[k], id)
  {
    RunHolds(n, run, steps, i);
    var s, place := run[i], PlacesAt(run, steps, i);
    assert RequestHolds(s.requests[id], place[id], s.workers);
    assert forall k | 0 <= k < |s.workers| :: WorksOn(s.workers[k], id) <==> IsAt(place, id, OnWorker(k));
  }

  /** No wake-up is lost: while a worker sleeps, the entries that could run now are no more than the workers on their
      way to the queue; and the slow work running is what its counter says, within its quota. */
  lemma NoLostWakeUp(n: nat, run: seq<State>, steps: seq<Step>, i: nat)
    requires IsRun(n, run, steps) && i <= |steps|
    ensures Balanced(run[i])
    ensures run[i].slowRunning == Count(run[i].workers, Slow) <= (n + 1) / 2
    ensures run[i].pendingSlow != [] ==> exists k :: 0 <= k < |run[i].wq| && run[i].wq[k] == RunSlow
    ensures forall j, k | 0 <= j < k < |run[i].wq| :: run[i].wq[j] != run[i].wq[k]
  {
    RunHolds(n, run, steps, i);
  }

  /** When all workers sleep and none was woken, there is nothing left to do. */
  lemma NoStuckPool(n: nat, run: seq<State>, steps: seq<Step>, i: nat)
    requires IsRun(n, run, steps) && i <= |steps| && n > 0
    requires forall k | 0 <= k < n :: k < |run[i].workers| && run[i].workers[k].Sleeping?
    ensures run[i].wq == [] && run[i].pendingSlow == []
  {
    RunHolds(n, run, steps, i);
    var s := run[i];
    CountNone(s.workers, Asleep);
    CountNone(s.workers, Awake);
    CountNone(s.workers, Slow);
    assert Is(s.workers[0], Asleep);
  }
}
