/**
 * The first-in-first-out lock and the manager of locks by key (src/utils/lock.ts), as interleaved steps.
 * A caller is known by its ticket; being granted the lock is what resolves the caller's promise.
 */
module Lock {
  import opened Wrappers

  type Ticket = nat

  datatype LockState = LockState(locked: bool, waiters: seq<Ticket>)

  const UNLOCKED := LockState(false, [])

  function Acquired(s: LockState, t: Ticket): LockState {
    if !s.locked then s.(locked := true) else s.(waiters := s.waiters + [t])
  }

  /** None when the lock is not held: the source throws and changes nothing. */
  function Released(s: LockState): Option<LockState> {
    if !s.locked then None
    else if |s.waiters| > 0 then Some(s.(waiters := s.waiters[1..]))
    else Some(s.(locked := false))
  }

  // ---- Interleavings -----------------------------------------------------------------------------------

  datatype Event = Acquire(ticket: Ticket) | Release

  /** A lock together with all that has happened to it: requests and grants in order, and successful releases. */
  datatype History = History(lock: LockState, requests: seq<Ticket>, grants: seq<Ticket>, releases: nat)

  const START := History(UNLOCKED, [], [], 0)

  function Step(h: History, e: Event): History {
    match e
    case Acquire(t) =>
      History(Acquired(h.lock, t), h.requests + [t], if h.lock.locked then h.grants else h.grants + [t], h.releases)
    case Release =>
      match Released(h.lock)
      case None => h
      case Some(s) =>
        History(s, h.requests, if |h.lock.waiters| > 0 then h.grants + [h.lock.waiters[0]] else h.grants, h.releases + 1)
  }

  function Run(h: History, events: seq<Event>): History
    decreases |events|
  {
    if events == [] then h else Run(Step(h, events[0]), events[1..])
  }

  /**
   * Grants are made in the order of the requests and no request is dropped; all grants but one have been released
   * while the lock is held and all of them when it is not, so there is one holder at most; nobody waits for a free lock.
   */
  ghost predicate Fair(h: History) {
    && h.requests == h.grants + h.lock.waiters
    && |h.grants| == h.releases + (if h.lock.locked then 1 else 0)
    && (!h.lock.locked ==> h.lock.waiters == [])
  }

  lemma StepIsFair(h: History, e: Event)
    requires Fair(h)
    ensures Fair(Step(h, e))
  {
    match e
    case Acquire(t) =>
      assert h.lock.locked ==> h.requests + [t] == h.grants + (h.lock.waiters + [t]);
    case Release =>
      if h.lock.locked && |h.lock.waiters| > 0 {
        assert h.lock.waiters == [h.lock.waiters[0]] + h.lock.waiters[1..];
      }
  }

  lemma {:induction false} EveryInterleavingIsFair(h: History, events: seq<Event>)
    requires Fair(h)
    ensures Fair(Run(h, events))
    decreases |events|
  {
    if events != [] {
      StepIsFair(h, events[0]);
      EveryInterleavingIsFair(Step(h, events[0]), events[1..]);
    }
  }

  /** As many releases as requests empty the lock, whatever the order in which they were made. */
  lemma EveryRequestIsServed(events: seq<Event>)
    requires Run(START, events).releases == |Run(START, events).requests|
    ensures Run(START, events).grants == Run(START, events).requests
    ensures Run(START, events).lock == UNLOCKED
  {
    EveryInterleavingIsFair(START, events);
  }

  // ---- Locks by key ------------------------------------------------------------------------------------

  datatype KeyEvent = AcquireKey(key: string, ticket: Ticket) | ReleaseKey(key: string)

  function LockFor(locks: map<string, LockState>, key: string): LockState {
    if key in locks then locks[key] else UNLOCKED
  }

  /** None when there is no lock for the key: the source throws. */
  function ManagerReleased(locks: map<string, LockState>, key: string): Option<map<string, LockState>> {
    if key !in locks then None
    else
      match Released(locks[key])
      case None => None
      case Some(s) => Some(if s.locked then locks[key := s] else locks - {key})
  }

  function ManagerStep(locks: map<string, LockState>, e: KeyEvent): map<string, LockState> {
    match e
    case AcquireKey(key, t) => locks[key := Acquired(LockFor(locks, key), t)]
    case ReleaseKey(key) =>
      match ManagerReleased(locks, key)
      case None => locks
      case Some(after) => after
  }

  function ManagerRun(locks: map<string, LockState>, events: seq<KeyEvent>): map<string, LockState>
    decreases |events|
  {
    if events == [] then locks else ManagerRun(ManagerStep(locks, events[0]), events[1..])
  }

  /** The events that concern one key. */
  function Project(events: seq<KeyEvent>, key: string): seq<Event> {
    if events == [] then []
    else
      var rest := Project(events[1..], key);
      if events[0].key != key then rest
      else [if events[0].AcquireKey? then Acquire(events[0].ticket) else Release] + rest
  }

  /** There is an entry exactly for the keys whose lock is held. */
  ghost predicate OnlyHeld(locks: map<string, LockState>) {
    forall key :: key in locks ==> locks[key].locked
  }

  /** Every interleaving over all keys does to each key what that key's own events do to a single lock. */
  lemma {:induction false} KeysAreIndependent(locks: map<string, LockState>, events: seq<KeyEvent>, key: string, h: History)
    requires OnlyHeld(locks) && Fair(h) && LockFor(locks, key) == h.lock
    ensures OnlyHeld(ManagerRun(locks, events))
    ensures LockFor(ManagerRun(locks, events), key) == Run(h, Project(events, key)).lock
    ensures key in ManagerRun(locks, events) <==> Run(h, Project(events, key)).lock.locked
    decreases |events|
  {
    if events != [] {
      var e, rest := events[0], Project(events[1..], key);
      var after := ManagerStep(locks, e);
      if e.key == key {
        var own := if e.AcquireKey? then Acquire(e.ticket) else Release;
        assert ([own] + rest)[1..] == rest;
        StepIsFair(h, own);
        KeysAreIndependent(after, events[1..], key, Step(h, own));
      } else {
        KeysAreIndependent(after, events[1..], key, h);
      }
    }
  }

  // ---- The objects -------------------------------------------------------------------------------------

  class FifoLock {
    var locked: bool
    var waiters: seq<Ticket>

    constructor ()
      ensures State() == UNLOCKED
    {
      locked, waiters := false, [];
    }

    ghost function State(): LockState
      reads this
    {
      LockState(locked, waiters)
    }

    /** `granted` tells whether the caller may go on at once. */
    method Acquire(t: Ticket) returns (granted: bool)
      modifies this
      ensures State() == Acquired(old(State()), t)
      ensures granted == !old(locked)
    {
      if !locked {
        locked := true;
        return true;
      }
      waiters := waiters + [t];
      return false;
    }

    /** `next` is the waiter to whom the lock passes, if any. */
    method Release() returns (fault: bool, next: Option<Ticket>)
      modifies this
      ensures fault <==> Released(old(State())).None?
      ensures State() == if fault then old(State()) else Released(old(State())).value
      ensures next == if !fault && |old(waiters)| > 0 then Some(old(waiters)[0]) else None
    {
      if !locked {
        return true, None;
      }
      if |waiters| > 0 {
        next := Some(waiters[0]);
        waiters := waiters[1..];
        fault := false;
      } else {
        locked := false;
        return false, None;
      }
    }
  }

  class LockManager {
    var locks: map<string, FifoLock>

    constructor ()
      ensures Valid() && Abstract() == map[]
    {
      locks := map[];
    }

    /** Keys do not share a lock object, and there are objects only for held keys. */
    ghost predicate Valid()
      reads this, locks.Values
    {
      && (forall a, b :: a in locks && b in locks && a != b ==> locks[a] != locks[b])
      && (forall key :: key in locks ==> locks[key].locked)
    }

    ghost function Abstract(): map<string, LockState>
      reads this, locks.Values
    {
      map key | key in locks :: locks[key].State()
    }

    method Acquire(key: string, t: Ticket) returns (granted: bool)
      requires Valid()
      modifies this, locks.Values
      ensures Valid() && fresh(locks.Values - old(locks.Values))
      ensures Abstract() == ManagerStep(old(Abstract()), AcquireKey(key, t))
      ensures granted <==> key !in old(locks)
    {
      if key !in locks {
        var lock := new FifoLock();
        locks := locks[key := lock];
      }
      granted := locks[key].Acquire(t);
    }

    method Release(key: string) returns (fault: bool, next: Option<Ticket>)
      requires Valid()
      modifies this, locks.Values
      ensures Valid() && locks.Values <= old(locks.Values)
      ensures fault <==> ManagerReleased(old(Abstract()), key).None?
      ensures Abstract() == ManagerStep(old(Abstract()), ReleaseKey(key))
      ensures next == if key in old(locks) && |old(locks[key].waiters)| > 0 then Some(old(locks[key].waiters)[0]) else None
    {
      if key !in locks {
        return true, None;
      }
      fault, next := locks[key].Release();
      if !locks[key].locked {
        locks := locks - {key};
      }
    }
  }
}
