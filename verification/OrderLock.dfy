/**
 The per-order lock of controller/topup.go: a reference-counted mutex kept in a
 concurrent map.

 Every statement of `LockOrder` and `UnlockOrder` that touches shared memory is
 one atomic step, and any number of threads interleave over any number of trade
 numbers. A run is a finite list of scheduling choices: scheduling a blocked
 thread changes nothing, so quantifying over all lists quantifies over all
 interleavings.
 */
module OrderLock {
  import opened Wrappers

  type Tid = nat
  type Obj = nat

  /**
   A mutex. The Go mutex does not record who locked it and neither does the
   protocol's behaviour depend on it: `owner` only remembers it for the proofs.
   */
  datatype Mutex = Free | Held(owner: Tid)

  /** `refCountedMutex`; `order` remembers, for the proofs, which order it was created for. */
  datatype Rcm = Rcm(mu: Mutex, refCount: int, order: string)

  /** The next statement of a thread inside the protocol. */
  datatype At =
    | WantCreate    // LockOrder: createLock.Lock()
    | Lookup        // orderLocks.Load, else Store of a new mutex
    | Counting      // rcm.refCount++
    | LeaveCreate   // createLock.Unlock()
    | Waiting       // rcm.mu.Lock()
    | Crit          // LockOrder has returned
    | Loading       // UnlockOrder: orderLocks.Load
    | Releasing     // rcm.mu.Unlock()
    | WantRelease   // createLock.Lock()
    | Uncounting    // rcm.refCount--
    | Reaping       // if rcm.refCount == 0 { orderLocks.Delete }
    | LeaveRelease  // createLock.Unlock()

  /**
   A thread: the trade number `t` it was called with and its local `rcm`. In
   `UnlockOrder` the local is `found`, and until the release `rcm` only remembers
   which mutex `LockOrder` acquired.
   */
  datatype Thread = Thread(at: At, t: string, rcm: Obj, found: Obj)

  /**
   `pcs` holds the threads inside the protocol; a thread not in it is elsewhere.
   `heap` holds every mutex ever allocated, the n-th being n. `crashed` records a
   run-time fault: unlocking a mutex that is not locked.
   */
  datatype State = State(
    pcs: map<Tid, Thread>,
    createLock: Mutex,
    orderLocks: map<string, Obj>,
    heap: seq<Rcm>,
    crashed: bool)

  const Init := State(map[], Free, map[], [], false)

  /** One scheduling choice; `trade` is the argument if the thread now calls `LockOrder`. */
  datatype Choice = Choice(tid: Tid, trade: string)

  /** What a statement leaves behind: the thread, unless it has left, and the shared memory. */
  datatype Effect = Effect(
    next: Option<Thread>,
    createLock: Mutex,
    orderLocks: map<string, Obj>,
    heap: seq<Rcm>,
    crashed: bool := false)

  /** The statement at which thread `i`, in local state `p`, stands. A blocked statement changes nothing. */
  function Act(s: State, i: Tid, p: Thread): Effect {
    match p.at
    case WantCreate =>
      if s.createLock.Held? then Effect(Some(p), s.createLock, s.orderLocks, s.heap)
      else Effect(Some(p.(at := Lookup)), Held(i), s.orderLocks, s.heap)
    case Lookup =>
      if p.t in s.orderLocks
      then Effect(Some(p.(at := Counting, rcm := s.orderLocks[p.t])), s.createLock, s.orderLocks, s.heap)
      else Effect(Some(p.(at := Counting, rcm := |s.heap|)), s.createLock,
                  s.orderLocks[p.t := |s.heap|], s.heap + [Rcm(Free, 0, p.t)])
    case Counting => Effect(Some(p.(at := LeaveCreate)), s.createLock, s.orderLocks, AddRef(s.heap, p.rcm, 1))
    case LeaveCreate => Effect(Some(p.(at := Waiting)), Free, s.orderLocks, s.heap)
    case Waiting =>
      if IsFree(s.heap, p.rcm)
      then Effect(Some(p.(at := Crit)), s.createLock, s.orderLocks, SetMu(s.heap, p.rcm, Held(i)))
      else Effect(Some(p), s.createLock, s.orderLocks, s.heap)
    case Crit => Effect(Some(p.(at := Loading)), s.createLock, s.orderLocks, s.heap)
    case Loading =>
      Effect(if p.t in s.orderLocks then Some(p.(at := Releasing, found := s.orderLocks[p.t])) else None,
             s.createLock, s.orderLocks, s.heap)
    case Releasing =>
      if IsFree(s.heap, p.found)
      then Effect(Some(p), s.createLock, s.orderLocks, s.heap, crashed := true)
      else Effect(Some(p.(at := WantRelease, rcm := p.found)), s.createLock, s.orderLocks, SetMu(s.heap, p.found, Free))
    case WantRelease =>
      if s.createLock.Held? then Effect(Some(p), s.createLock, s.orderLocks, s.heap)
      else Effect(Some(p.(at := Uncounting)), Held(i), s.orderLocks, s.heap)
    case Uncounting => Effect(Some(p.(at := Reaping)), s.createLock, s.orderLocks, AddRef(s.heap, p.rcm, -1))
    case Reaping =>
      Effect(Some(p.(at := LeaveRelease)), s.createLock,
             if p.rcm < |s.heap| && s.heap[p.rcm].refCount == 0 then s.orderLocks - {p.t} else s.orderLocks, s.heap)
    case LeaveRelease => Effect(None, Free, s.orderLocks, s.heap)
  }

  function Step(s: State, c: Choice): State {
    if c.tid !in s.pcs then s.(pcs := s.pcs[c.tid := Thread(WantCreate, c.trade, 0, 0)]) else
    var e := Act(s, c.tid, s.pcs[c.tid]);
    State(if e.next.Some? then s.pcs[c.tid := e.next.value] else s.pcs - {c.tid},
          e.createLock, e.orderLocks, e.heap, s.crashed || e.crashed)
  }

  predicate IsFree(heap: seq<Rcm>, m: Obj) { m < |heap| && heap[m].mu.Free? }

  function SetMu(heap: seq<Rcm>, m: Obj, mu: Mutex): seq<Rcm> {
    if m < |heap| then heap[m := heap[m].(mu := mu)] else heap
  }

  function AddRef(heap: seq<Rcm>, m: Obj, d: int): seq<Rcm> {
    if m < |heap| then heap[m := heap[m].(refCount := heap[m].refCount + d)] else heap
  }

  function Run(cs: seq<Choice>): State {
    if cs == [] then Init else Step(Run(cs[..|cs| - 1]), cs[|cs| - 1])
  }

  // ----- What the program points mean -----

  /** Between the return of `LockOrder` and the mutex release in `UnlockOrder`. */
  predicate HoldsMu(p: Thread) { p.at.Crit? || p.at.Loading? || p.at.Releasing? }

  /** Between the acquisition and the release of `createLock`. */
  predicate InCreate(p: Thread) {
    || p.at.Lookup? || p.at.Counting? || p.at.LeaveCreate?
    || p.at.Uncounting? || p.at.Reaping? || p.at.LeaveRelease?
  }

  /** Waiting on, holding or releasing mutex `m`, and counted in its `refCount`. */
  predicate Refers(p: Thread, m: Obj) {
    (p.at.LeaveCreate? || p.at.Waiting? || HoldsMu(p) || p.at.WantRelease? || p.at.Uncounting?) && p.rcm == m
  }

  /** Using the map entry of its trade number. */
  predicate Uses(p: Thread) { !p.at.WantCreate? && !p.at.Lookup? && !p.at.LeaveRelease? }

  function Users(s: State, m: Obj): set<Tid> { set i | i in s.pcs && Refers(s.pcs[i], m) }

  // ----- The invariant -----

  /**
   A thread holds `createLock` exactly inside its region, holds the mutex inside
   the section, and works with the mutex the map has for its order.
   */
  predicate ThreadOk(s: State, i: Tid) {
    i in s.pcs ==>
      var p := s.pcs[i];
      && (InCreate(p) <==> s.createLock == Held(i))
      && (Uses(p) ==> p.t in s.orderLocks && s.orderLocks[p.t] == p.rcm && p.rcm < |s.heap|)
      && (p.at.Releasing? ==> p.found == p.rcm)
      && (HoldsMu(p) ==> p.rcm < |s.heap| && s.heap[p.rcm].mu == Held(i))
  }

  /** A mutex is held by a thread inside the section it guards, and its count is exact. */
  predicate MutexOk(s: State, m: Obj) {
    m < |s.heap| ==>
      && s.heap[m].refCount == |Users(s, m)|
      && (s.heap[m].mu.Held? ==>
            var i := s.heap[m].mu.owner; i in s.pcs && HoldsMu(s.pcs[i]) && s.pcs[i].rcm == m)
  }

  /** The owner of `createLock` is creating or reaping the entry of `t`. */
  predicate InTransit(s: State, t: string) {
    && s.createLock.Held? && s.createLock.owner in s.pcs
    && var p := s.pcs[s.createLock.owner];
    (p.at.Counting? || p.at.Reaping?) && p.t == t
  }

  /** An entry holds a mutex made for its order, and only an entry in transit may be unused. */
  predicate EntryOk(s: State, t: string) {
    t in s.orderLocks ==>
      var m := s.orderLocks[t];
      m < |s.heap| && s.heap[m].order == t && (s.heap[m].refCount == 0 ==> InTransit(s, t))
  }

  ghost predicate Inv(s: State) {
    && !s.crashed
    && (s.createLock.Held? ==> s.createLock.owner in s.pcs)
    && (forall i {:trigger ThreadOk(s, i)} :: ThreadOk(s, i))
    && (forall m {:trigger MutexOk(s, m)} :: MutexOk(s, m))
    && (forall t {:trigger EntryOk(s, t)} :: EntryOk(s, t))
  }

  // ----- Preservation -----

  lemma OwnThreadStep(s: State, c: Choice)
    requires Inv(s)
    ensures ThreadOk(Step(s, c), c.tid)
  {
    assert ThreadOk(s, c.tid);
    if c.tid in s.pcs { assert EntryOk(s, s.pcs[c.tid].t); }
  }

  lemma OtherThreadStep(s: State, c: Choice, j: Tid)
    requires Inv(s) && j != c.tid
    ensures ThreadOk(Step(s, c), j)
  {
    assert ThreadOk(s, c.tid) && ThreadOk(s, j);
    if c.tid in s.pcs && s.pcs[c.tid].at.Reaping? {
      // A thread still using the order is counted on its mutex, so the entry stays.
      assert MutexOk(s, s.pcs[c.tid].rcm);
      assert s.heap[s.pcs[c.tid].rcm].refCount == 0 ==> j !in Users(s, s.pcs[c.tid].rcm);
    }
  }

  /** How one step changes the users of a mutex. */
  lemma UsersStep(s: State, c: Choice, m: Obj)
    requires ThreadOk(s, c.tid)
    ensures Users(Step(s, c), m) ==
            if c.tid in s.pcs && s.pcs[c.tid].at.Counting? && s.pcs[c.tid].rcm == m then Users(s, m) + {c.tid}
            else if c.tid in s.pcs && s.pcs[c.tid].at.Uncounting? && s.pcs[c.tid].rcm == m then Users(s, m) - {c.tid}
            else Users(s, m)
  { }

  /** How one step changes the count of a mutex, a new one starting from zero. */
  lemma RefCountStep(s: State, c: Choice, m: Obj)
    requires ThreadOk(s, c.tid) && m < |Step(s, c).heap|
    ensures var before := if m < |s.heap| then s.heap[m].refCount else 0;
            Step(s, c).heap[m].refCount ==
            if c.tid in s.pcs && s.pcs[c.tid].at.Counting? && s.pcs[c.tid].rcm == m then before + 1
            else if c.tid in s.pcs && s.pcs[c.tid].at.Uncounting? && s.pcs[c.tid].rcm == m then before - 1
            else before
  { }

  lemma NewMutexUnused(s: State, m: Obj)
    requires Inv(s) && m >= |s.heap|
    ensures Users(s, m) == {}
  {
    forall i ensures i !in Users(s, m) { assert ThreadOk(s, i); }
  }

  lemma CountStep(s: State, c: Choice, m: Obj)
    requires Inv(s) && m < |Step(s, c).heap|
    ensures Step(s, c).heap[m].refCount == |Users(Step(s, c), m)|
  {
    assert ThreadOk(s, c.tid) && MutexOk(s, m);
    UsersStep(s, c, m);
    RefCountStep(s, c, m);
    if m >= |s.heap| { NewMutexUnused(s, m); }
    if c.tid in s.pcs && s.pcs[c.tid].rcm == m {
      if s.pcs[c.tid].at.Uncounting? { assert c.tid in Users(s, m); }
      if s.pcs[c.tid].at.Counting? { assert c.tid !in Users(s, m); }
    }
  }

  lemma HolderStep(s: State, c: Choice, m: Obj)
    requires Inv(s) && m < |Step(s, c).heap| && Step(s, c).heap[m].mu.Held?
    ensures var s' := Step(s, c); var i := s'.heap[m].mu.owner;
            i in s'.pcs && HoldsMu(s'.pcs[i]) && s'.pcs[i].rcm == m
  {
    assert ThreadOk(s, c.tid) && MutexOk(s, m);
  }

  lemma EntryStep(s: State, c: Choice, t: string)
    requires Inv(s)
    ensures EntryOk(Step(s, c), t)
  {
    assert ThreadOk(s, c.tid) && EntryOk(s, t);
    if c.tid in s.pcs {
      assert EntryOk(s, s.pcs[c.tid].t) && MutexOk(s, s.pcs[c.tid].rcm);
    }
  }

  lemma InvStep(s: State, c: Choice)
    requires Inv(s)
    ensures Inv(Step(s, c))
  {
    assert ThreadOk(s, c.tid);
    forall j ensures ThreadOk(Step(s, c), j) {
      if j == c.tid { OwnThreadStep(s, c); } else { OtherThreadStep(s, c, j); }
    }
    forall m: Obj ensures MutexOk(Step(s, c), m) {
      if m < |Step(s, c).heap| {
        CountStep(s, c, m);
        if Step(s, c).heap[m].mu.Held? { HolderStep(s, c, m); }
      }
    }
    forall t ensures EntryOk(Step(s, c), t) { EntryStep(s, c, t); }
  }

  lemma {:induction false} InvRun(cs: seq<Choice>)
    ensures Inv(Run(cs))
  {
    if cs != [] {
      InvRun(cs[..|cs| - 1]);
      InvStep(Run(cs[..|cs| - 1]), cs[|cs| - 1]);
    }
  }

  /** A step moves only the scheduled thread, and never changes the order it works on. */
  lemma StepFrame(s: State, c: Choice, j: Tid)
    ensures j != c.tid ==> (j in Step(s, c).pcs <==> j in s.pcs)
    ensures j != c.tid && j in s.pcs ==> Step(s, c).pcs[j] == s.pcs[j]
    ensures j in s.pcs && j in Step(s, c).pcs ==> Step(s, c).pcs[j].t == s.pcs[j].t
  { }

  /** The invariant excludes two threads inside the section of one order. */
  lemma Exclusive(s: State, i: Tid, j: Tid)
    requires Inv(s) && i in s.pcs && j in s.pcs && HoldsMu(s.pcs[i]) && HoldsMu(s.pcs[j])
    requires s.pcs[i].t == s.pcs[j].t
    ensures i == j
  {
    assert ThreadOk(s, i) && ThreadOk(s, j);
  }

  // ----- The theorems -----

  /** In every interleaving at most one thread is inside the section of a given order. */
  lemma MutualExclusion(cs: seq<Choice>, i: Tid, j: Tid)
    requires var s := Run(cs); i in s.pcs && j in s.pcs && HoldsMu(s.pcs[i]) && HoldsMu(s.pcs[j])
    requires Run(cs).pcs[i].t == Run(cs).pcs[j].t
    ensures i == j
  {
    InvRun(cs);
    Exclusive(Run(cs), i, j);
  }

  /**
   `UnlockOrder` finds, and unlocks, the very mutex its thread locked, even though
   it loads the entry without `createLock`; and no run faults.
   */
  lemma UnlockFindsOwnMutex(cs: seq<Choice>, i: Tid)
    requires i in Run(cs).pcs && (Run(cs).pcs[i].at.Loading? || Run(cs).pcs[i].at.Releasing?)
    ensures var s := Run(cs); var p := s.pcs[i];
            && !s.crashed
            && p.t in s.orderLocks && s.orderLocks[p.t] == p.rcm && p.rcm < |s.heap| && s.heap[p.rcm].mu == Held(i)
            && (p.at.Releasing? ==> p.found == p.rcm)
  {
    InvRun(cs);
    assert ThreadOk(Run(cs), i);
  }

  /** A reference count is the number of threads waiting on, holding or releasing the mutex. */
  lemma RefCountExact(cs: seq<Choice>, m: Obj)
    requires m < |Run(cs).heap|
    ensures Run(cs).heap[m].refCount == |Users(Run(cs), m)|
  {
    InvRun(cs);
    assert MutexOk(Run(cs), m);
  }

  /** The map holds exactly the trade numbers in use. */
  lemma MapHoldsOrdersInUse(cs: seq<Choice>, t: string)
    ensures var s := Run(cs); t in s.orderLocks <==> exists i :: i in s.pcs && Uses(s.pcs[i]) && s.pcs[i].t == t
  {
    InvRun(cs);
    var s := Run(cs);
    if t in s.orderLocks {
      var m := s.orderLocks[t];
      assert EntryOk(s, t) && MutexOk(s, m);
      var i := if s.heap[m].refCount == 0 then s.createLock.owner else (assert Users(s, m) != {}; var i :| i in Users(s, m); i);
      assert ThreadOk(s, i) && EntryOk(s, s.pcs[i].t);
      assert Uses(s.pcs[i]) && s.pcs[i].t == t;
    } else {
      forall i | i in s.pcs ensures !(Uses(s.pcs[i]) && s.pcs[i].t == t) { assert ThreadOk(s, i); }
    }
  }

  /** Once every thread has left, nothing remains in the map: entries do not leak. */
  lemma QuiescentMapIsEmpty(cs: seq<Choice>)
    requires Run(cs).pcs == map[]
    ensures Run(cs).orderLocks == map[] && Run(cs).createLock == Free
  {
    forall t | t in Run(cs).orderLocks ensures false { MapHoldsOrdersInUse(cs, t); }
    InvRun(cs);
  }

  /** Whoever a thread is blocked on, or the thread itself when nothing blocks it. */
  function Blocker(s: State, i: Tid): Tid
    requires i in s.pcs
  {
    var p := s.pcs[i];
    if (p.at.WantCreate? || p.at.WantRelease?) && s.createLock.Held? then s.createLock.owner
    else if p.at.Waiting? && p.rcm < |s.heap| && s.heap[p.rcm].mu.Held? then s.heap[p.rcm].mu.owner
    else i
  }

  /** No deadlock: a thread inside the protocol can step, or the one it is blocked on, or the next. */
  lemma DeadlockFree(cs: seq<Choice>, i: Tid)
    requires i in Run(cs).pcs
    ensures var s := Run(cs);
            && Blocker(s, i) in s.pcs && Blocker(s, Blocker(s, i)) == Blocker(s, i)
            && Step(s, Choice(Blocker(s, i), "")) != s
  {
    InvRun(cs);
    var s := Run(cs);
    assert ThreadOk(s, i) && MutexOk(s, s.pcs[i].rcm);
    var k := Blocker(s, i);
    assert ThreadOk(s, k);
    var s' := Step(s, Choice(k, ""));
    assert k !in s'.pcs || s'.pcs[k] != s.pcs[k];
  }

  // ----- A lone thread -----

  /** One thread inside, and nobody else. */
  function Lone(at: At, t: string, create: Mutex, entry: bool, rcm: Rcm): State {
    State(map[0 := Thread(at, t, 0, 0)], create, if entry then map[t := 0] else map[], [rcm], false)
  }

  lemma Scheduled(s: State, t: string, n: nat)
    ensures Steps(s, t, n + 1) == Steps(Step(s, Choice(0, t)), t, n)
  { }

  /** The state after scheduling thread 0 a number of times. */
  function Steps(s: State, t: string, n: nat): State
    decreases n
  {
    if n == 0 then s else Steps(Step(s, Choice(0, t)), t, n - 1)
  }

  /** Six steps take a lone thread into the section of its order, which then has one entry, counted once and held. */
  lemma EntersAlone(t: string)
    ensures Steps(Init, t, 6) == Lone(Crit, t, Free, true, Rcm(Held(0), 1, t))
  {
    var s1 := Step(Init, Choice(0, t));
    assert s1 == State(map[0 := Thread(WantCreate, t, 0, 0)], Free, map[], [], false);
    var s2 := Step(s1, Choice(0, t));
    assert s2 == State(map[0 := Thread(Lookup, t, 0, 0)], Held(0), map[], [], false);
    var s3 := Step(s2, Choice(0, t));
    assert s3 == Lone(Counting, t, Held(0), true, Rcm(Free, 0, t));
    var s4 := Step(s3, Choice(0, t));
    assert s4 == Lone(LeaveCreate, t, Held(0), true, Rcm(Free, 1, t));
    var s5 := Step(s4, Choice(0, t));
    assert s5 == Lone(Waiting, t, Free, true, Rcm(Free, 1, t));
    var s6 := Step(s5, Choice(0, t));
    assert s6 == Lone(Crit, t, Free, true, Rcm(Held(0), 1, t));
    Scheduled(Init, t, 5);
    Scheduled(s1, t, 4);
    Scheduled(s2, t, 3);
    Scheduled(s3, t, 2);
    Scheduled(s4, t, 1);
    Scheduled(s5, t, 0);
  }

  lemma {:induction false} StepsSum(s: State, t: string, m: nat, n: nat)
    ensures Steps(s, t, m + n) == Steps(Steps(s, t, m), t, n)
    decreases m
  {
    if m > 0 { StepsSum(Step(s, Choice(0, t)), t, m - 1, n); }
  }

  lemma ReleasesAlone(t: string)
    ensures Steps(Lone(Crit, t, Free, true, Rcm(Held(0), 1, t)), t, 3) == Lone(WantRelease, t, Free, true, Rcm(Free, 1, t))
  {
    var s0 := Lone(Crit, t, Free, true, Rcm(Held(0), 1, t));
    var s1 := Step(s0, Choice(0, t));
    assert s1 == Lone(Loading, t, Free, true, Rcm(Held(0), 1, t));
    var s2 := Step(s1, Choice(0, t));
    assert s2 == Lone(Releasing, t, Free, true, Rcm(Held(0), 1, t));
    Scheduled(s0, t, 2);
    Scheduled(s1, t, 1);
    Scheduled(s2, t, 0);
  }

  lemma UncountsAlone(t: string)
    ensures Steps(Lone(WantRelease, t, Free, true, Rcm(Free, 1, t)), t, 2) == Lone(Reaping, t, Held(0), true, Rcm(Free, 0, t))
  {
    var s0 := Lone(WantRelease, t, Free, true, Rcm(Free, 1, t));
    var s1 := Step(s0, Choice(0, t));
    assert s1 == Lone(Uncounting, t, Held(0), true, Rcm(Free, 1, t));
    Scheduled(s0, t, 1);
    Scheduled(s1, t, 0);
  }

  lemma DepartsAlone(t: string)
    ensures Steps(Lone(Reaping, t, Held(0), true, Rcm(Free, 0, t)), t, 2) == State(map[], Free, map[], [Rcm(Free, 0, t)], false)
  {
    var s0 := Lone(Reaping, t, Held(0), true, Rcm(Free, 0, t));
    var s1 := Step(s0, Choice(0, t));
    assert s1 == Lone(LeaveRelease, t, Held(0), false, Rcm(Free, 0, t));
    Scheduled(s0, t, 1);
    Scheduled(s1, t, 0);
  }

  /** Seven more take it out again, and the entry with it; the mutex is left free and uncounted. */
  lemma PassesAlone(t: string)
    ensures Steps(Init, t, 13) == State(map[], Free, map[], [Rcm(Free, 0, t)], false)
  {
    EntersAlone(t);
    ReleasesAlone(t);
    UncountsAlone(t);
    DepartsAlone(t);
    StepsSum(Init, t, 6, 3);
    StepsSum(Init, t, 9, 2);
    StepsSum(Init, t, 11, 2);
  }
}
