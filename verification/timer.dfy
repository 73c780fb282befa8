/** Timers of an event loop, kept in a heap ordered by deadline. */
module Timers {
  import opened Common
  import opened BinaryHeap

  const MAX_UINT64: nat := 0xFFFF_FFFF_FFFF_FFFF
  const INT_MAX: nat := 0x7FFF_FFFF

  /** startId is the second index to be compared: it grows with every start. */
  datatype TimerKey = TimerKey(timeout: nat, startId: nat)

  predicate LessThan(a: TimerKey, b: TimerKey) {
    if a.timeout < b.timeout then true
    else if b.timeout < a.timeout then false
    else a.startId < b.startId
  }

  const LESS: (TimerKey, TimerKey) -> bool := (a, b) => LessThan(a, b)

  lemma LessIsOrder()
    ensures IsStrictWeakOrder(LESS)
  {
  }

  /** The part of a handle that is not in the heap. */
  class Handle {
    var hasCallback: bool
    var repeat_: nat
    var active: bool
    var closing: bool

    constructor ()
      ensures !hasCallback && repeat_ == 0 && !active && !closing
    {
      hasCallback, repeat_, active, closing := false, 0, false, false;
    }
  }

  /** A timer handle: its heap node, whose key is (timeout, start_id), and the rest. */
  type Timer = Node<TimerKey, Handle>

  /** Adding with 64-bit wrap-around, a sum that wrapped is taken for the largest time. */
  function Deadline(time: nat, timeout: nat): (d: nat)
    requires time <= MAX_UINT64 && timeout <= MAX_UINT64
    ensures d == if time + timeout <= MAX_UINT64 then time + timeout else MAX_UINT64
  {
    var clamped := (time + timeout) % (MAX_UINT64 + 1);
    if clamped < timeout then MAX_UINT64 else clamped
  }

  class Loop {
    var time: nat
    var timerCounter: nat
    const heap: Heap<TimerKey, Handle>
    ghost var timers: set<Timer>

    ghost function Owners(): set<Handle>
      reads this`timers
    {
      set t | t in timers :: t.owner
    }

    ghost predicate Queued()
      reads this`timers, heap, heap.nodes, heap.members
    {
      heap.Valid() && heap.Ordered(LESS) && heap.members <= timers
    }

    /** A handle knows whether it is armed, and an armed one has what it takes to run. */
    static ghost predicate Knows(t: Timer, armed: set<Timer>, counter: nat)
      reads t`key, t.owner
    {
      && t.owner.repeat_ <= MAX_UINT64 && (t.owner.active <==> t in armed)
      && (t in armed ==> t.owner.hasCallback && !t.owner.closing && t.key.startId < counter)
    }

    /** No two timers share a handle. */
    static ghost predicate Separate(timers: set<Timer>) {
      forall t, u | t in timers && u in timers && t.owner == u.owner :: t == u
    }

    ghost predicate Consistent(armed: set<Timer>)
      reads this`time, this`timers, this`timerCounter, timers, Owners()
    {
      && time <= MAX_UINT64 && Separate(timers)
      && forall t {:trigger Knows(t, armed, timerCounter)} | t in timers :: Knows(t, armed, timerCounter)
    }

    /** No two armed timers were started by the same call. */
    static ghost predicate DistinctIds(armed: set<Timer>)
      reads armed
    {
      forall t, u | t in armed && u in armed && t.key.startId == u.key.startId :: t == u
    }

    ghost predicate Valid()
      reads this, heap, heap.nodes, heap.members, timers, Owners()
    {
      Queued() && Consistent(heap.members) && DistinctIds(heap.members)
    }

    /** The armed timers with their deadlines. */
    ghost function Armed(): map<Timer, TimerKey>
      reads this, heap, heap.members
    {
      map t | t in heap.members :: t.key
    }

    constructor (now: nat)
      requires now <= MAX_UINT64
      ensures Valid() && time == now && timers == {} && fresh(heap)
    {
      time, timerCounter, timers := now, 0, {};
      heap := new Heap();
    }

    /** uv_timer_init: the handle becomes known to the loop. */
    ghost method Init(timer: Timer)
      requires Valid() && timer !in timers && timer.owner !in Owners()
      requires !timer.owner.active && timer.owner.repeat_ == 0
      modifies this`timers
      ensures Valid() && timers == old(timers) + {timer} && Armed() == old(Armed())
    {
      timers := timers + {timer};
    }

    method Detach(timer: Timer)
      requires Queued() && timer in heap.members
      modifies heap, timers`left, timers`right, timers`parent, timers`index
      ensures Queued() && heap.members == old(heap.members) - {timer}
    {
      LessIsOrder();
      var sank, rose := heap.Remove(timer, LESS);
    }

    method Attach(timer: Timer)
      requires Queued() && timer in timers && timer !in heap.members
      modifies heap, timers`left, timers`right, timers`parent, timers`index
      ensures Queued() && heap.members == old(heap.members) + {timer}
    {
      LessIsOrder();
      heap.Insert(timer, LESS);
    }

    method SetActive(timer: Timer, active: bool)
      requires Queued()
      modifies timer.owner`active
      ensures Queued() && timer.owner.active == active
    {
      timer.owner.active := active;
    }

    method Stop(timer: Timer)
      requires Valid() && timer in timers
      modifies heap, timers`left, timers`right, timers`parent, timers`index, timer.owner`active
      ensures Valid() && !timer.owner.active
      ensures heap.members == old(heap.members) - {timer}
    {
      assert Knows(timer, heap.members, timerCounter);
      if timer.owner.active {
        Detach(timer);
        SetActive(timer, false);
        forall t | t in timers ensures Knows(t, heap.members, timerCounter) {
          assert old(Knows(t, heap.members, timerCounter));
        }
      }
    }

    method SetKey(timer: Timer, key: TimerKey)
      requires Queued() && timer in timers && timer !in heap.members
      modifies timer`key
      ensures Queued() && timer.key == key
    {
      ghost var keys := Keys(heap.nodes);
      timer.key := key;
      assert Keys(heap.nodes) == keys;
    }

    method SetRepeat(timer: Timer, repeats: nat)
      requires Queued()
      modifies this`timerCounter, timer.owner`hasCallback, timer.owner`repeat_
      ensures Queued() && timer.owner.hasCallback && timer.owner.repeat_ == repeats && timerCounter == old(timerCounter) + 1
    {
      timer.owner.hasCallback := true;
      timer.owner.repeat_ := repeats;
      timerCounter := timerCounter + 1;
    }

    method Enqueue(timer: Timer, key: TimerKey, repeats: nat)
      requires Queued() && timer in timers && timer !in heap.members
      modifies this`timerCounter, heap, timers`left, timers`right, timers`parent, timers`index, timer`key
      modifies timer.owner`hasCallback, timer.owner`repeat_, timer.owner`active
      ensures Queued() && heap.members == old(heap.members) + {timer} && timer.key == key
      ensures timer.owner.hasCallback && timer.owner.active && timer.owner.repeat_ == repeats
      ensures timerCounter == old(timerCounter) + 1
    {
      SetKey(timer, key);
      SetRepeat(timer, repeats);
      Attach(timer);
      SetActive(timer, true);
    }

    twostate lemma {:induction false} Joined(timer: Timer)
      requires old(Consistent(heap.members)) && old(DistinctIds(heap.members))
      requires timer in timers && timers == old(timers) && timer !in old(heap.members) && old(heap.members) <= timers && !old(timer.owner.closing)
      requires time == old(time) && timerCounter == old(timerCounter) + 1
      requires heap.members == old(heap.members) + {timer}
      requires forall t | t in timers && t != timer :: unchanged(t`key, t.owner)
      requires timer.key.startId == old(timerCounter) && unchanged(timer.owner`closing)
      requires timer.owner.hasCallback && timer.owner.active && timer.owner.repeat_ <= MAX_UINT64
      ensures Consistent(heap.members) && DistinctIds(heap.members)
    {
      forall t | t in timers
        ensures Knows(t, heap.members, timerCounter)
        ensures t in old(heap.members) ==> t.key.startId < old(timerCounter)
      {
        assert old(Knows(t, heap.members, timerCounter));
      }
    }

    /** A stopped handle takes its new deadline and joins the heap. */
    method Arm(timer: Timer, timeout: nat, repeats: nat)
      requires Valid() && timer in timers && !timer.owner.active && !timer.owner.closing
      requires timeout <= MAX_UINT64 && repeats <= MAX_UINT64
      modifies this`timerCounter, heap, timers`left, timers`right, timers`parent, timers`index, timer`key
      modifies timer.owner`hasCallback, timer.owner`repeat_, timer.owner`active
      ensures Valid() && heap.members == old(heap.members) + {timer}
      ensures timer.key == TimerKey(Deadline(time, timeout), old(timerCounter))
      ensures timer.owner.repeat_ == repeats && timerCounter == old(timerCounter) + 1
    {
      assert Knows(timer, heap.members, timerCounter);
      assert forall t | t in timers && t != timer :: t.owner != timer.owner;
      Enqueue(timer, TimerKey(Deadline(time, timeout), timerCounter), repeats);
      Joined(timer);
    }

    /** A handle that is being closed, or without a callback, is refused and stays as it was; any other is armed anew. */
    method Start(timer: Timer, hasCallback: bool, timeout: nat, repeats: nat) returns (err: int)
      requires Valid() && timer in timers && timeout <= MAX_UINT64 && repeats <= MAX_UINT64
      modifies this`timerCounter, heap, timers`left, timers`right, timers`parent, timers`index, timer`key
      modifies timer.owner`hasCallback, timer.owner`repeat_, timer.owner`active
      ensures Valid()
      ensures err == if timer.owner.closing || !hasCallback then EINVAL else 0
      ensures err != 0 ==> heap.members == old(heap.members) && timer.key == old(timer.key) && timerCounter == old(timerCounter)
      ensures err != 0 ==> timer.owner.repeat_ == old(timer.owner.repeat_)
      ensures err == 0 ==>
                && heap.members == old(heap.members) + {timer}
                && timer.key == TimerKey(Deadline(time, timeout), old(timerCounter))
                && timer.owner.repeat_ == repeats && timerCounter == old(timerCounter) + 1
    {
      if timer.owner.closing || !hasCallback {
        return EINVAL;
      }
      if timer.owner.active {
        Stop(timer);
      }
      Arm(timer, timeout, repeats);
      err := 0;
    }

    /** A repeating handle is armed again, one repeat interval from now; one that is being closed is only stopped. */
    method Again(timer: Timer) returns (err: int)
      requires Valid() && timer in timers
      modifies this`timerCounter, heap, timers`left, timers`right, timers`parent, timers`index, timer`key
      modifies timer.owner`hasCallback, timer.owner`repeat_, timer.owner`active
      ensures Valid()
      ensures err == if old(timer.owner.hasCallback) then 0 else EINVAL
      ensures timer.owner.repeat_ == old(timer.owner.repeat_) <= MAX_UINT64
      ensures if err == 0 && timer.owner.repeat_ != 0 && !timer.owner.closing
              then heap.members == old(heap.members) + {timer} && timerCounter == old(timerCounter) + 1
                   && timer.key == TimerKey(Deadline(time, timer.owner.repeat_), old(timerCounter))
              else timer.key == old(timer.key) && timerCounter == old(timerCounter)
                   && heap.members == old(heap.members) - (if err == 0 && timer.owner.repeat_ != 0 then {timer} else {})
    {
      assert Knows(timer, heap.members, timerCounter);
      if !timer.owner.hasCallback {
        return EINVAL;
      }
      if timer.owner.repeat_ != 0 {
        Stop(timer);
        var started := Start(timer, timer.owner.hasCallback, timer.owner.repeat_, timer.owner.repeat_);
      }
      err := 0;
    }

    /** How long the loop may sleep: not at all when a timer is due, forever when none is armed, and never past
        the earliest deadline. */
    method NextTimeout() returns (r: int)
      requires Valid()
      ensures r == -1 <==> heap.members == {}
      ensures r == 0 <==> exists t :: t in heap.members && t.key.timeout <= time
      ensures r > 0 ==> r <= INT_MAX && forall t | t in heap.members :: time + r <= t.key.timeout
      ensures 0 < r < INT_MAX ==> exists t :: t in heap.members && t.key.timeout == time + r
    {
      LessIsOrder();
      var timer := heap.Min(LESS);
      if timer == null {
        return -1;
      }
      assert forall t | t in heap.members :: timer.key.timeout <= t.key.timeout;
      if timer.key.timeout <= time {
        return 0;
      }
      var diff := timer.key.timeout - time;
      r := if diff > INT_MAX then INT_MAX else diff;
    }

    // ----- one pass over the timers -----

    static ghost function Due(keys: map<Timer, TimerKey>, now: nat): set<Timer> {
      set t | t in keys && keys[t].timeout <= now
    }

    static ghost function Unfired(fired: seq<Timer>, keys: map<Timer, TimerKey>, now: nat): set<Timer> {
      set t | t in keys && keys[t].timeout <= now && t !in fired
    }

    /** The callbacks run so far, in the order of the deadlines at the start of the pass, before all that are left. */
    static ghost predicate InOrder(fired: seq<Timer>, keys: map<Timer, TimerKey>, now: nat) {
      && (forall i | 0 <= i < |fired| :: fired[i] in Due(keys, now))
      && (forall i, j | 0 <= i < j < |fired| :: LessThan(keys[fired[i]], keys[fired[j]]))
      && (forall i, t | 0 <= i < |fired| && t in Due(keys, now) && t !in fired :: LessThan(keys[fired[i]], keys[t]))
    }

    /** Timers whose callback ran were armed again if they repeat; the others are as they were. */
    ghost predicate Passed(fired: seq<Timer>, keys: map<Timer, TimerKey>)
      reads this`time, heap, heap.members, keys.Keys, set t | t in keys :: t.owner
    {
      && (forall t | t in keys && t !in fired :: t in heap.members && t.key == keys[t])
      && (forall t | t in keys && t in fired ::
            if t.owner.repeat_ == 0 then t !in heap.members
            else t in heap.members && time < t.key.timeout && t.key.timeout <= time + t.owner.repeat_)
      && (forall t | t in heap.members :: t in keys)
    }

    /** Stops the timer, arms it again if it repeats, and so makes it not due. */
    method Rearm(timer: Timer)
      requires Valid() && timer in heap.members && time < MAX_UINT64
      modifies this`timerCounter, heap, timers`left, timers`right, timers`parent, timers`index, timer`key
      modifies timer.owner`hasCallback, timer.owner`repeat_, timer.owner`active
      ensures Valid() && timer.owner.repeat_ == old(timer.owner.repeat_) <= MAX_UINT64
      ensures if timer.owner.repeat_ == 0 then heap.members == old(heap.members) - {timer}
              else heap.members == old(heap.members) && timer.key == TimerKey(Deadline(time, timer.owner.repeat_), old(timerCounter))
    {
      assert Knows(timer, heap.members, timerCounter);
      Stop(timer);
      var again := Again(timer);
      assert timer.owner.repeat_ != 0 ==> heap.members == old(heap.members);
    }

    /** The earliest timer is the next one due. */
    ghost predicate IsNext(timer: Timer, fired: seq<Timer>, keys: map<Timer, TimerKey>)
      reads this`time
    {
      && timer in Due(keys, time) && timer !in fired
      && forall t | t in Due(keys, time) && t !in fired && t != timer :: LessThan(keys[timer], keys[t])
    }

    lemma EarliestIsNext(timer: Timer, fired: seq<Timer>, keys: map<Timer, TimerKey>)
      requires Valid() && Passed(fired, keys) && timer in heap.members
      requires forall t | t in heap.members :: !LessThan(t.key, timer.key)
      ensures timer.key.timeout <= time ==> IsNext(timer, fired, keys)
      ensures timer.key.timeout > time ==> forall t | t in Due(keys, time) :: t in fired
    {
      if timer.key.timeout <= time {
        assert timer !in fired;
        forall t | t in Due(keys, time) && t !in fired && t != timer ensures LessThan(keys[timer], keys[t]) {
          assert t in heap.members && t.key.startId != timer.key.startId;
        }
      }
    }

    static lemma {:induction false} OneMore(timer: Timer, fired: seq<Timer>, keys: map<Timer, TimerKey>, now: nat)
      requires InOrder(fired, keys, now) && timer in Due(keys, now) && timer !in fired
      requires forall t | t in Due(keys, now) && t !in fired && t != timer :: LessThan(keys[timer], keys[t])
      ensures InOrder(fired + [timer], keys, now)
    {
    }

    /** The next timer is stopped, armed again if it repeats, and its callback runs. */
    method Fire(timer: Timer, fired: seq<Timer>, ghost keys: map<Timer, TimerKey>) returns (fired': seq<Timer>)
      requires Valid() && time < MAX_UINT64 && timer in heap.members && keys.Keys <= timers
      requires Passed(fired, keys) && timer in keys && timer !in fired
      modifies this`timerCounter, heap, timers`left, timers`right, timers`parent, timers`index, timer`key
      modifies timer.owner`hasCallback, timer.owner`repeat_, timer.owner`active
      ensures Valid() && fired' == fired + [timer] && forall t | t in timers :: t.owner.repeat_ == old(t.owner.repeat_)
      ensures Passed(fired', keys)
    {
      assert forall t | t in timers && t != timer :: t.owner != timer.owner;
      Rearm(timer);
      fired' := fired + [timer];
    }

    /** One turn of the pass: the earliest timer fires, unless none is due any more. */
    method Turn(fired: seq<Timer>, ghost keys: map<Timer, TimerKey>) returns (fired': seq<Timer>, done: bool)
      requires Valid() && time < MAX_UINT64 && keys.Keys <= timers
      requires InOrder(fired, keys, time) && Passed(fired, keys)
      modifies this`timerCounter, heap, timers`left, timers`right, timers`parent, timers`index, timers`key, Owners()
      ensures Valid() && InOrder(fired', keys, time) && Passed(fired', keys)
      ensures forall t | t in timers :: t.owner.repeat_ == old(t.owner.repeat_)
      ensures if done then fired' == fired && Unfired(fired, keys, time) == {}
              else |fired'| == |fired| + 1 && fired' == fired + [fired'[|fired|]]
                   && Unfired(fired', keys, time) < Unfired(fired, keys, time)
    {
      fired', done := fired, true;
      LessIsOrder();
      var timer := heap.Min(LESS);
      if timer == null {
        assert Unfired(fired, keys, time) == {};
        return;
      }
      EarliestIsNext(timer, fired, keys);
      if timer.key.timeout > time {
        return;
      }
      OneMore(timer, fired, keys, time);
      assert timer in Unfired(fired, keys, time);
      fired' := Fire(timer, fired, keys);
      done := false;
    }

    /** Runs the callback of every timer that is due when the pass starts, once each, in the order of deadline and
        then of start; a callback that starts no timer is recorded as an entry of the result. */
    method RunTimers() returns (fired: seq<Timer>)
      requires Valid() && time < MAX_UINT64
      modifies this`timerCounter, heap, timers`left, timers`right, timers`parent, timers`index, timers`key, Owners()
      ensures Valid() && time == old(time)
      ensures InOrder(fired, old(Armed()), time)
      ensures forall t :: t in fired <==> t in Due(old(Armed()), time)
      ensures Passed(fired, old(Armed()))
      ensures forall t | t in timers :: t.owner.repeat_ == old(t.owner.repeat_)
    {
      fired := [];
      ghost var keys := Armed();
      var done := false;
      while !done
        invariant Valid() && InOrder(fired, keys, time) && Passed(fired, keys)
        invariant forall t | t in timers :: t.owner.repeat_ == old(t.owner.repeat_)
        invariant done ==> Unfired(fired, keys, time) == {}
        decreases !done, Unfired(fired, keys, time)
      {
        fired, done := Turn(fired, keys);
      }
      assert forall t | t in Due(keys, time) && t !in fired :: t in Unfired(fired, keys, time);
    }
  }
}
