/**
 The payment handlers that rely on the order lock (controller/topup_creem.go,
 controller/topup_stripe.go, controller/topup.go), run by any number of threads
 over any number of orders, together with what writes an order without taking the
 lock: two webhooks, and the Waffo creation handlers, which insert an order, call out,
 and save their own copy as failed if that fails.

 A handler takes the order lock step by step as in `OrderLock`; inside it, every
 database access is one atomic step. The row-locked transactions of model/topup.go
 are atomic and may fail; `topUp.Update()` is a plain save of the whole row.
 */
module Payments {
  import Lock = OrderLock

  type Tid = Lock.Tid

  datatype Provider = Stripe | Creem | Epay | Waffo | Pancake
  datatype Status = Pending | Success | Failed | Expired

  /** A top-up row; `quota` is the amount its completion credits. */
  datatype Order = Order(provider: Provider, status: Status, quota: int)

  /** The orders, and the wallet credits granted so far, by trade number. */
  datatype Db = Db(orders: map<string, Order>, credits: multiset<string>)

  // ----- model/topup.go -----

  /** A recharge transaction for orders `accepts` admits; it fails when `ok` is false. */
  function Recharge(db: Db, t: string, accepts: Provider -> bool, ok: bool): Db {
    if t in db.orders && accepts(db.orders[t].provider) && db.orders[t].status == Pending
       && db.orders[t].quota > 0 && ok
    then Db(db.orders[t := db.orders[t].(status := Success)], db.credits + multiset{t})
    else db
  }

  /** `UpdatePendingTopUpStatus` */
  function UpdatePending(db: Db, t: string, want: Provider, target: Status, ok: bool): Db {
    if t in db.orders && db.orders[t].provider == want && db.orders[t].status == Pending && ok
    then db.(orders := db.orders[t := db.orders[t].(status := target)])
    else db
  }

  /** `topUp.Update()`: saves the row as the caller last saw and changed it. */
  function Save(db: Db, t: string, row: Order, ok: bool): Db {
    if ok then db.(orders := db.orders[t := row]) else db
  }

  /** `topUp.Insert()` of a new pending order; trade numbers are unique. */
  function Insert(db: Db, t: string, provider: Provider, quota: int): Db {
    if t in db.orders then db else db.(orders := db.orders[t := Order(provider, Pending, quota)])
  }

  // ----- The handlers -----

  datatype Kind = CreemPaid | StripePaid | StripeAsyncFailed | StripeExpired | WaffoPaid | PancakePaid | AdminComplete

  /** What a handler does next once it holds the lock. */
  datatype Phase = Start | Checked | Saving(row: Order) | Done

  datatype Job = Job(kind: Kind, trade: string, phase: Phase)

  /** The next database access of a handler, and the phase after it. */
  function Access(db: Db, job: Job, ok: bool): (Db, Phase) {
    var t := job.trade;
    match job.kind
    case CreemPaid =>
      if job.phase == Start then
        (db, if t in db.orders && db.orders[t].status == Pending then Checked else Done)
      else (Recharge(db, t, p => p == Creem, ok), Done)
    case StripePaid => (Recharge(db, t, p => p == Stripe, ok), Done)
    case StripeAsyncFailed =>
      if job.phase.Saving? then (Save(db, t, job.phase.row.(status := Failed), ok), Done)
      else (db, if t in db.orders && db.orders[t].provider == Stripe && db.orders[t].status == Pending
                then Saving(db.orders[t]) else Done)
    case StripeExpired => (UpdatePending(db, t, Stripe, Expired, ok), Done)
    case WaffoPaid => (Recharge(db, t, p => p == Waffo, ok), Done)
    case PancakePaid => (Recharge(db, t, p => p == Pancake, ok), Done)
    case AdminComplete => (Recharge(db, t, p => true, ok), Done)
  }

  /** `creating` holds the copies of the creation handlers still waiting for the provider. */
  datatype State = State(lock: Lock.State, jobs: map<Tid, Job>, creating: map<string, Order>, db: Db)

  /**
   A scheduling choice: a handler thread moves, a webhook that takes no lock is served, or
   a creation handler inserts its order or hears from the provider.
   */
  datatype Event =
    | Move(tid: Tid, kind: Kind, trade: string, ok: bool)
    | Created(trade: string, provider: Provider, quota: int)
    | Answered(trade: string, failed: bool, ok: bool)
    | EpayNotified(trade: string, ok: bool)
    | WaffoRejected(trade: string, ok: bool)

  /** The providers whose creation handler inserts before it calls out, and saves if that fails. */
  predicate SavesOnFailure(p: Provider) { p == Waffo || p == Pancake }

  function LockMove(s: State, tid: Tid, trade: string): State {
    var lock := Lock.Step(s.lock, Lock.Choice(tid, trade));
    s.(lock := lock, jobs := if tid in lock.pcs then s.jobs else s.jobs - {tid})
  }

  function Step(s: State, e: Event): State {
    match e
    case Created(t, provider, quota) =>
      var db := Insert(s.db, t, provider, quota);
      s.(db := db, creating := if t !in s.db.orders && SavesOnFailure(provider) then s.creating[t := db.orders[t]] else s.creating)
    case Answered(t, failed, ok) =>
      if t !in s.creating then s
      else s.(db := if failed then Save(s.db, t, s.creating[t].(status := Failed), ok) else s.db, creating := s.creating - {t})
    case EpayNotified(t, ok) => s.(db := Recharge(s.db, t, p => p == Epay, ok))
    case WaffoRejected(t, ok) => s.(db := UpdatePending(s.db, t, Waffo, Failed, ok))
    case Move(i, kind, t, ok) =>
      if i !in s.jobs then
        if i in s.lock.pcs then s
        else LockMove(s.(jobs := s.jobs[i := Job(kind, t, Start)]), i, t)
      else if Working(s, i) then
        var (db, phase) := Access(s.db, s.jobs[i], ok);
        s.(db := db, jobs := s.jobs[i := s.jobs[i].(phase := phase)])
      else LockMove(s, i, t)
  }

  /** Inside the section with database work left to do. */
  predicate Working(s: State, i: Tid) {
    i in s.jobs && s.jobs[i].phase != Done && i in s.lock.pcs && s.lock.pcs[i].at.Crit?
  }

  function Init(db: Db): State { State(Lock.Init, map[], map[], db) }

  function Run(s: State, es: seq<Event>): State
    decreases |es|
  {
    if es == [] then s else Run(Step(s, es[0]), es[1..])
  }

  // ----- The invariant -----

  predicate Succeeded(db: Db, t: string) { t in db.orders && db.orders[t].status == Success }

  predicate Decided(db: Db, t: string) { t in db.orders && db.orders[t].status != Pending }

  /** An order has been credited once if it succeeded, and never while it is open. */
  predicate OrderOk(s: State, t: string) {
    && s.db.credits[t] <= 1
    && (Succeeded(s.db, t) ==> s.db.credits[t] == 1)
    && (s.db.credits[t] == 1 ==> Decided(s.db, t))
  }

  /** A creation handler's copy is the order as it was inserted. */
  predicate CreatingOk(s: State, t: string) {
    t in s.creating ==>
      && SavesOnFailure(s.creating[t].provider) && s.creating[t].status == Pending
      && t in s.db.orders && s.db.orders[t] == s.creating[t].(status := s.db.orders[t].status)
      && s.db.orders[t].status != Expired
  }

  /** A handler is in the protocol for its order; what it is about to save is still what is stored. */
  predicate JobOk(s: State, i: Tid) {
    i in s.jobs ==>
      && i in s.lock.pcs && s.lock.pcs[i].t == s.jobs[i].trade
      && (s.jobs[i].phase.Saving? ==>
            && s.lock.pcs[i].at.Crit?
            && s.jobs[i].trade in s.db.orders && s.db.orders[s.jobs[i].trade] == s.jobs[i].phase.row
            && s.jobs[i].phase.row.provider == Stripe && s.jobs[i].phase.row.status == Pending)
  }

  ghost predicate Inv(s: State) {
    && Lock.Inv(s.lock)
    && (forall t {:trigger OrderOk(s, t)} :: OrderOk(s, t))
    && (forall t {:trigger CreatingOk(s, t)} :: CreatingOk(s, t))
    && (forall i {:trigger JobOk(s, i)} :: JobOk(s, i))
  }

  lemma JobStep(s: State, e: Event, j: Tid)
    requires Inv(s)
    ensures JobOk(Step(s, e), j)
  {
    assert JobOk(s, j);
    if e.Move? {
      assert JobOk(s, e.tid);
      Lock.StepFrame(s.lock, Lock.Choice(e.tid, e.trade), j);
      if j != e.tid && Working(s, e.tid) && Working(s, j) && s.jobs[j].trade == s.jobs[e.tid].trade {
        Lock.Exclusive(s.lock, e.tid, j);
      }
    }
    if e.Answered? { assert CreatingOk(s, e.trade); }
  }

  lemma OrderStep(s: State, e: Event, t: string)
    requires Inv(s)
    ensures OrderOk(Step(s, e), t)
  {
    assert OrderOk(s, t) && CreatingOk(s, t);
    if e.Move? {
      assert JobOk(s, e.tid);
      MoveKeepsOrder(s, e, t);
    }
  }

  lemma CreatingStep(s: State, e: Event, t: string)
    requires Inv(s)
    ensures CreatingOk(Step(s, e), t)
  {
    assert CreatingOk(s, t);
    if e.Move? {
      assert JobOk(s, e.tid);
      MoveKeepsCreating(s, e, t);
    }
  }

  lemma MoveKeepsCreating(s: State, e: Event, t: string)
    requires e.Move? && CreatingOk(s, t) && JobOk(s, e.tid)
    ensures CreatingOk(Step(s, e), t)
  { }

  lemma MoveKeepsOrder(s: State, e: Event, t: string)
    requires e.Move? && OrderOk(s, t) && JobOk(s, e.tid)
    ensures OrderOk(Step(s, e), t)
  { }

  /** A handler under the lock leaves a decided order alone. */
  lemma MoveKeepsDecided(s: State, e: Event, t: string)
    requires e.Move? && Decided(s.db, t) && JobOk(s, e.tid)
    ensures t in Step(s, e).db.orders && Step(s, e).db.orders[t] == s.db.orders[t]
    ensures Step(s, e).db.credits[t] == s.db.credits[t] && Step(s, e).creating == s.creating
  { }

  lemma InvStep(s: State, e: Event)
    requires Inv(s)
    ensures Inv(Step(s, e))
  {
    forall j ensures JobOk(Step(s, e), j) { JobStep(s, e, j); }
    forall t ensures OrderOk(Step(s, e), t) { OrderStep(s, e, t); }
    forall t ensures CreatingOk(Step(s, e), t) { CreatingStep(s, e, t); }
    if e.Move? { Lock.InvStep(s.lock, Lock.Choice(e.tid, e.trade)); }
  }

  lemma {:induction false} InvRun(s: State, es: seq<Event>)
    requires Inv(s)
    ensures Inv(Run(s, es))
    decreases |es|
  {
    if es != [] {
      InvStep(s, es[0]);
      InvRun(Step(s, es[0]), es[1..]);
    }
  }

  /** A database whose books are in order: each order credited once if it succeeded, and not otherwise. */
  ghost predicate Conserved(db: Db) {
    forall t :: db.credits[t] == if Succeeded(db, t) then 1 else 0
  }

  lemma InitInv(db: Db)
    requires Conserved(db)
    ensures Inv(Init(db))
  {
    forall t ensures OrderOk(Init(db), t) { assert db.credits[t] == if Succeeded(db, t) then 1 else 0; }
  }

  // ----- The theorems -----

  /** However deliveries repeat and interleave, an order is credited at most once, and has been if it succeeded. */
  lemma CreditedAtMostOnce(db: Db, es: seq<Event>, t: string)
    requires Conserved(db)
    ensures var d := Run(Init(db), es).db; d.credits[t] <= 1 && (Succeeded(d, t) ==> d.credits[t] == 1)
  {
    InitInv(db);
    InvRun(Init(db), es);
    assert OrderOk(Run(Init(db), es), t);
  }

  /** When Stripe's asynchronous failure is about to be saved, the stored order is still the pending one it read. */
  lemma FailureSavedOverPending(db: Db, es: seq<Event>, i: Tid)
    requires Conserved(db)
    requires i in Run(Init(db), es).jobs && Run(Init(db), es).jobs[i].phase.Saving?
    ensures var s := Run(Init(db), es); var job := s.jobs[i];
            job.trade in s.db.orders && s.db.orders[job.trade] == job.phase.row && job.phase.row.status == Pending
  {
    InitInv(db);
    InvRun(Init(db), es);
    assert JobOk(Run(Init(db), es), i);
  }

  // ----- What each handler is for -----

  /** What a handler alone, with a database that works, makes of the database. */
  function Handled(db: Db, kind: Kind, t: string): Db {
    var (db1, phase) := Access(db, Job(kind, t, Start), true);
    if phase == Done then db1 else Access(db1, Job(kind, t, phase), true).0
  }

  /** The handler of a payment by `kind` and the provider whose orders it may complete; an administrator may complete any. */
  predicate Pays(kind: Kind, provider: Provider) {
    || (kind == CreemPaid && provider == Creem) || (kind == StripePaid && provider == Stripe)
    || (kind == WaffoPaid && provider == Waffo) || (kind == PancakePaid && provider == Pancake)
    || kind == AdminComplete
  }

  /** An order that can be completed: pending, and worth something. */
  predicate Payable(db: Db, t: string) { t in db.orders && db.orders[t].status == Pending && db.orders[t].quota > 0 }

  /** A paid delivery completes and credits its order once, if it is payable and of that provider, and otherwise changes nothing. */
  lemma PaidCompletes(db: Db, kind: Kind, t: string)
    requires kind == CreemPaid || kind == StripePaid || kind == WaffoPaid || kind == PancakePaid || kind == AdminComplete
    ensures Handled(db, kind, t) ==
            if Payable(db, t) && Pays(kind, db.orders[t].provider)
            then Db(db.orders[t := Order(db.orders[t].provider, Success, db.orders[t].quota)], db.credits[t := db.credits[t] + 1])
            else db
  { }

  /** A Creem delivery looks first: it goes on to the credit exactly when the order is pending. */
  lemma CreemLooksFirst(db: Db, t: string, ok: bool)
    ensures Access(db, Job(CreemPaid, t, Start), ok).0 == db
    ensures Access(db, Job(CreemPaid, t, Start), ok).1 == Checked <==> t in db.orders && db.orders[t].status == Pending
  { }

  /** An expired or failed session marks a pending Stripe order, and nothing else. */
  lemma SessionEnds(db: Db, t: string)
    ensures var open := t in db.orders && db.orders[t].provider == Stripe && db.orders[t].status == Pending;
            && Handled(db, StripeExpired, t)
               == (if open then db.(orders := db.orders[t := Order(Stripe, Expired, db.orders[t].quota)]) else db)
            && Handled(db, StripeAsyncFailed, t)
               == (if open then db.(orders := db.orders[t := Order(Stripe, Failed, db.orders[t].quota)]) else db)
  { }

  /** The webhooks without the lock: Epay completes its own orders, Waffo marks its own as failed. */
  lemma WebhooksWrite(s: State, t: string)
    ensures Step(s, EpayNotified(t, true)).db ==
            if Payable(s.db, t) && s.db.orders[t].provider == Epay
            then Db(s.db.orders[t := Order(Epay, Success, s.db.orders[t].quota)], s.db.credits[t := s.db.credits[t] + 1]) else s.db
    ensures Step(s, WaffoRejected(t, true)).db ==
            if t in s.db.orders && s.db.orders[t].provider == Waffo && s.db.orders[t].status == Pending
            then s.db.(orders := s.db.orders[t := Order(Waffo, Failed, s.db.orders[t].quota)]) else s.db
  { }

  /** A creation inserts a pending order unless the trade number is taken; its failure is saved, and its success writes nothing. */
  lemma CreationWrites(s: State, t: string, provider: Provider, quota: int)
    requires t !in s.db.orders && t !in s.creating
    ensures var s1 := Step(s, Created(t, provider, quota));
            && s1.db == s.db.(orders := s.db.orders[t := Order(provider, Pending, quota)])
            && Step(s1, Created(t, Stripe, 7)) == s1
            && Step(s1, Answered(t, false, true)).db == s1.db
            && Step(s1, Answered(t, true, true)).db
               == (if provider == Waffo || provider == Pancake
                   then s.db.(orders := s.db.orders[t := Order(provider, Failed, quota)]) else s1.db)
  { }

  /** A database that fails leaves everything as it was. */
  lemma FailuresWriteNothing(s: State, e: Event)
    requires (e.Move? || e.EpayNotified? || e.WaffoRejected? || e.Answered?) && !e.ok
    ensures Step(s, e).db == s.db
  { }

  /** In the machine: inside the section, two moves of a handler do its work. */
  lemma HandlerWorks(s: State, i: Tid, kind: Kind, t: string)
    requires Working(s, i) && s.jobs[i] == Job(kind, t, Start)
    ensures Run(s, [Move(i, kind, t, true), Move(i, kind, t, true)]).db == Handled(s.db, kind, t)
  {
    var e := Move(i, kind, t, true);
    var s1 := Step(s, e);
    RunOne(s1, e);
    RunCons(s, e, [e]);
    assert [e] + [e] == [e, e];
    assert s1.lock == s.lock && s1.jobs[i].kind == kind && s1.jobs[i].trade == t;
  }

  // ----- What the lock is for -----

  /** A handler holds the lock of a Stripe or Creem order. */
  predicate Guards(s: State, i: Tid, t: string) {
    && i in s.jobs && s.jobs[i].trade == t && i in s.lock.pcs && s.lock.pcs[i].at.Crit?
    && t in s.db.orders && (s.db.orders[t].provider == Stripe || s.db.orders[t].provider == Creem)
  }

  predicate MovesOf(e: Event, i: Tid) { e.Move? && e.tid == i }

  lemma GuardStep(s: State, e: Event, i: Tid, t: string)
    requires Inv(s) && Guards(s, i, t) && !MovesOf(e, i)
    ensures Guards(Step(s, e), i, t) && Step(s, e).jobs[i] == s.jobs[i]
    ensures Step(s, e).db.orders[t] == s.db.orders[t] && Step(s, e).db.credits[t] == s.db.credits[t]
  {
    assert CreatingOk(s, t);
    if e.Move? {
      assert JobOk(s, i) && JobOk(s, e.tid);
      Lock.StepFrame(s.lock, Lock.Choice(e.tid, e.trade), i);
      if Working(s, e.tid) {
        if s.jobs[e.tid].trade == t { Lock.Exclusive(s.lock, e.tid, i); }
        OtherOrderWorked(s, e, t);
      } else {
        NotWorking(s, e);
      }
    }
  }

  /** A handler at work writes its own order only. */
  lemma OtherOrderWorked(s: State, e: Event, t: string)
    requires e.Move? && Working(s, e.tid) && s.jobs[e.tid].trade != t
    ensures t in s.db.orders ==> t in Step(s, e).db.orders && Step(s, e).db.orders[t] == s.db.orders[t]
    ensures Step(s, e).db.credits[t] == s.db.credits[t] && Step(s, e).lock == s.lock
    ensures forall j :: j in s.jobs && j != e.tid ==> j in Step(s, e).jobs && Step(s, e).jobs[j] == s.jobs[j]
  { }

  /** One that is not at work only moves in the lock's protocol. */
  lemma NotWorking(s: State, e: Event)
    requires e.Move? && !Working(s, e.tid)
    ensures Step(s, e).db == s.db
    ensures Step(s, e).lock == s.lock || Step(s, e).lock == Lock.Step(s.lock, Lock.Choice(e.tid, e.trade))
    ensures forall j :: j in s.jobs && j != e.tid ==> j in Step(s, e).jobs && Step(s, e).jobs[j] == s.jobs[j]
  { }

  /** While a handler holds the lock of a Stripe or Creem order, nothing that others do changes the order. */
  lemma {:induction false} GuardedOrderStays(s: State, es: seq<Event>, i: Tid, t: string)
    requires Inv(s) && Guards(s, i, t) && forall k :: 0 <= k < |es| ==> !MovesOf(es[k], i)
    ensures Inv(Run(s, es)) && Guards(Run(s, es), i, t) && Run(s, es).jobs[i] == s.jobs[i]
    ensures Run(s, es).db.orders[t] == s.db.orders[t] && Run(s, es).db.credits[t] == s.db.credits[t]
    decreases |es|
  {
    if es != [] {
      InvStep(s, es[0]);
      GuardStep(s, es[0], i, t);
      GuardedOrderStays(Step(s, es[0]), es[1..], i, t);
    }
  }

  /** So a paid Creem order that was found pending is credited when its handler gets to it, whatever happens in between. */
  lemma CheckedOrderIsCredited(s: State, es: seq<Event>, i: Tid, t: string)
    requires Inv(s) && Guards(s, i, t) && s.jobs[i] == Job(CreemPaid, t, Checked) && (forall k :: 0 <= k < |es| ==> !MovesOf(es[k], i))
    requires Payable(s.db, t) && s.db.orders[t].provider == Creem
    ensures var d := Step(Run(s, es), Move(i, CreemPaid, t, true)).db;
            Succeeded(d, t) && d.credits[t] == s.db.credits[t] + 1
  {
    GuardedOrderStays(s, es, i, t);
  }

  // ----- A decided order, and the late failure that changes one -----

  /** A creation handler saves its failure over an order that has succeeded meanwhile. */
  predicate LateSave(s: State, e: Event, t: string) {
    e == Answered(t, true, true) && t in s.creating && Succeeded(s.db, t)
  }

  /** A step changes a decided order exactly when it is such a save, and then marks it failed. */
  lemma DecidedStepIff(s: State, e: Event, t: string)
    requires Inv(s) && Decided(s.db, t)
    ensures Decided(Step(s, e).db, t) && Step(s, e).db.credits[t] == s.db.credits[t]
    ensures Step(s, e).db.orders[t] == s.db.orders[t] <==> !LateSave(s, e, t)
    ensures LateSave(s, e, t) ==> Step(s, e).db.orders[t].status == Failed && t !in Step(s, e).creating
    ensures t in Step(s, e).creating ==> t in s.creating
  {
    assert OrderOk(s, t) && CreatingOk(s, t);
    if e.Move? {
      assert JobOk(s, e.tid);
      MoveKeepsDecided(s, e, t);
    }
  }

  /** No creation handler can still change the order. */
  predicate Settled(s: State, t: string) { t !in s.creating || (t in s.db.orders && s.db.orders[t].status == Failed) }

  lemma {:induction false} SettledRun(s: State, es: seq<Event>, t: string)
    requires Inv(s) && Decided(s.db, t) && Settled(s, t)
    ensures var s' := Run(s, es);
            t in s'.db.orders && s'.db.orders[t] == s.db.orders[t] && s'.db.credits[t] == s.db.credits[t]
    decreases |es|
  {
    if es != [] {
      InvStep(s, es[0]);
      DecidedStepIff(s, es[0], t);
      SettledRun(Step(s, es[0]), es[1..], t);
    }
  }

  /** The order stays as it is, whatever happens next. */
  ghost predicate Forever(s: State, t: string) {
    forall more: seq<Event> :: t in Run(s, more).db.orders && t in s.db.orders && Run(s, more).db.orders[t] == s.db.orders[t]
  }

  /**
   In every reachable state, a decided order never changes again exactly when no creation
   handler of it is still waiting for the provider, or it is marked failed already.
   */
  lemma DecidedForeverIff(db: Db, es: seq<Event>, t: string)
    requires Conserved(db) && Decided(Run(Init(db), es).db, t)
    ensures Forever(Run(Init(db), es), t) <==> Settled(Run(Init(db), es), t)
  {
    InitInv(db);
    InvRun(Init(db), es);
    var s := Run(Init(db), es);
    if Settled(s, t) {
      forall more: seq<Event> ensures t in Run(s, more).db.orders && Run(s, more).db.orders[t] == s.db.orders[t] {
        SettledRun(s, more, t);
      }
    } else {
      var e := Answered(t, true, true);
      assert CreatingOk(s, t);
      DecidedStepIff(s, e, t);
      RunOne(s, e);
    }
  }

  lemma RunOne(s: State, e: Event)
    ensures Run(s, [e]) == Step(s, e)
  {
    assert [e][1..] == [];
    assert Run(Step(s, e), []) == Step(s, e);
  }

  // ----- Credited exactly when it succeeded -----

  predicate LateSaves(s: State, es: seq<Event>, t: string)
    decreases |es|
  {
    es != [] && (LateSave(s, es[0], t) || LateSaves(Step(s, es[0]), es[1..], t))
  }

  predicate InOrder(db: Db, t: string) { db.credits[t] == 1 <==> Succeeded(db, t) }

  /** A step credits only the order it marks as succeeded. */
  lemma CreditStep(s: State, e: Event, t: string)
    requires s.db.credits[t] != Step(s, e).db.credits[t]
    ensures Succeeded(Step(s, e).db, t)
  { }

  lemma OpenStep(s: State, e: Event, t: string)
    requires Inv(s) && InOrder(s.db, t) && !LateSave(s, e, t)
    ensures InOrder(Step(s, e).db, t)
  {
    assert OrderOk(s, t);
    OrderStep(s, e, t);
    if Decided(s.db, t) {
      DecidedStepIff(s, e, t);
    } else if s.db.credits[t] != Step(s, e).db.credits[t] {
      CreditStep(s, e, t);
    }
  }

  lemma {:induction false} InOrderRun(s: State, es: seq<Event>, t: string)
    requires Inv(s) && InOrder(s.db, t)
    ensures InOrder(Run(s, es).db, t) <==> !LateSaves(s, es, t)
    decreases |es|
  {
    if es != [] {
      InvStep(s, es[0]);
      if LateSave(s, es[0], t) {
        assert OrderOk(s, t);
        DecidedStepIff(s, es[0], t);
        SettledRun(Step(s, es[0]), es[1..], t);
      } else {
        OpenStep(s, es[0], t);
        InOrderRun(Step(s, es[0]), es[1..], t);
      }
    }
  }

  /** On every run, an order is credited exactly when it succeeded, unless a creation handler saved its failure over the success. */
  lemma CreditedIffSucceededIff(db: Db, es: seq<Event>, t: string)
    requires Conserved(db)
    ensures InOrder(Run(Init(db), es).db, t) <==> !LateSaves(Init(db), es, t)
  {
    InitInv(db);
    InOrderRun(Init(db), es, t);
  }

  /** The late failure happens: a Waffo order is completed by an administrator while its creation handler waits. */
  lemma LateFailureHappens(t: string)
    ensures var move := Move(0, AdminComplete, t, true);
            var es := [Created(t, Waffo, 1), move, move, move, move, move, move, move, Answered(t, true, true)];
            var d := Run(Init(Db(map[], multiset{})), es).db;
            d.credits[t] == 1 && t in d.orders && d.orders[t].status == Failed
  {
    var move, answer := Move(0, AdminComplete, t, true), Answered(t, true, true);
    var s0 := Init(Db(map[], multiset{}));
    var s1 := Step(s0, Created(t, Waffo, 1));
    assert s1.db == Db(map[t := Order(Waffo, Pending, 1)], multiset{}) && s1.creating == map[t := Order(Waffo, Pending, 1)];
    var s4 := Counts(s1, t);
    var s7 := Enters(s4, t);
    LateSaved(s7, t);
    RunParts(s0, Created(t, Waffo, 1), move, answer);
  }

  lemma RunParts(s: State, e: Event, m: Event, a: Event)
    ensures Run(s, [e, m, m, m, m, m, m, m, a]) == Run(Run(Run(Step(s, e), [m, m, m]), [m, m, m]), [m, a])
  {
    var three, six := [m, m, m], [m, m, m, m, a];
    Spelled(e, m, a);
    RunCons(s, e, three + six);
    RunSplit(Step(s, e), three, six);
    RunSplit(Run(Step(s, e), three), three, [m, a]);
  }

  lemma Spelled(e: Event, m: Event, a: Event)
    ensures [e, m, m, m, m, m, m, m, a] == [e] + ([m, m, m] + [m, m, m, m, a])
    ensures [m, m, m, m, a] == [m, m, m] + [m, a]
  { }

  lemma LateSaved(s: State, t: string)
    requires s.db == Db(map[t := Order(Waffo, Pending, 1)], multiset{}) && s.creating == map[t := Order(Waffo, Pending, 1)]
    requires s.jobs == map[0 := Job(AdminComplete, t, Start)] && 0 in s.lock.pcs && s.lock.pcs[0].at == Lock.Crit
    ensures var d := Run(s, [Move(0, AdminComplete, t, true), Answered(t, true, true)]).db;
            d.credits[t] == 1 && t in d.orders && d.orders[t].status == Failed
  {
    var move, answer := Move(0, AdminComplete, t, true), Answered(t, true, true);
    var s' := Step(s, move);
    assert Working(s, 0);
    assert s'.db == Db(map[t := Order(Waffo, Success, 1)], multiset{t}) && s'.creating == s.creating;
    RunOne(s', answer);
    RunCons(s, move, [answer]);
    assert [move] + [answer] == [move, answer];
  }

  /** A lone thread, three moves into the protocol. */
  predicate Alone(s: State, p: Lock.Thread, heap: seq<Lock.Rcm>) {
    s.lock == Lock.State(map[0 := p], Lock.Held(0), map[p.t := 0], heap, false) && s.jobs == map[0 := Job(AdminComplete, p.t, Start)]
  }

  lemma Counts(s: State, t: string) returns (r: State)
    requires s.lock == Lock.Init && s.jobs == map[]
    ensures var move := Move(0, AdminComplete, t, true); r == Run(s, [move, move, move])
    ensures r.db == s.db && r.creating == s.creating
    ensures Alone(r, Lock.Thread(Lock.Counting, t, 0, 0), [Lock.Rcm(Lock.Free, 0, t)])
  {
    var move := Move(0, AdminComplete, t, true);
    var a := Step(s, move);
    assert a.lock == Lock.Init.(pcs := map[0 := Lock.Thread(Lock.WantCreate, t, 0, 0)]) && a.jobs == map[0 := Job(AdminComplete, t, Start)];
    var b := Step(a, move);
    assert b.lock == Lock.State(map[0 := Lock.Thread(Lock.Lookup, t, 0, 0)], Lock.Held(0), map[], [], false) && b.jobs == a.jobs;
    r := Step(b, move);
    RunThree(s, move);
  }

  lemma Enters(s: State, t: string) returns (r: State)
    requires Alone(s, Lock.Thread(Lock.Counting, t, 0, 0), [Lock.Rcm(Lock.Free, 0, t)])
    ensures var move := Move(0, AdminComplete, t, true); r == Run(s, [move, move, move])
    ensures r.db == s.db && r.creating == s.creating && r.jobs == s.jobs
    ensures 0 in r.lock.pcs && r.lock.pcs[0].at == Lock.Crit
  {
    var move := Move(0, AdminComplete, t, true);
    var a := Step(s, move);
    assert Alone(a, Lock.Thread(Lock.LeaveCreate, t, 0, 0), [Lock.Rcm(Lock.Free, 1, t)]);
    var b := Step(a, move);
    assert b.lock.pcs == map[0 := Lock.Thread(Lock.Waiting, t, 0, 0)] && b.lock.heap == [Lock.Rcm(Lock.Free, 1, t)] && b.jobs == a.jobs;
    r := Step(b, move);
    RunThree(s, move);
  }

  lemma RunThree(s: State, e: Event)
    ensures Run(s, [e, e, e]) == Step(Step(Step(s, e), e), e)
  {
    RunOne(Step(Step(s, e), e), e);
    RunCons(Step(s, e), e, [e]);
    RunCons(s, e, [e, e]);
    assert [e] + [e] == [e, e] && [e] + [e, e] == [e, e, e];
  }

  lemma RunCons(s: State, e: Event, es: seq<Event>)
    ensures Run(s, [e] + es) == Run(Step(s, e), es)
  {
    assert ([e] + es)[1..] == es;
  }

  lemma {:induction false} RunSplit(s: State, es: seq<Event>, more: seq<Event>)
    ensures Run(s, es + more) == Run(Run(s, es), more)
    decreases |es|
  {
    if es == [] {
      assert es + more == more;
    } else {
      assert (es + more)[1..] == es[1..] + more;
      RunSplit(Step(s, es[0]), es[1..], more);
    }
  }

  /**
   Without the lock the failure handler loses an update: it reads the pending order,
   a paid delivery credits it, and the late save leaves a credited order marked failed.
   */
  lemma LockIsNeeded(t: string)
    ensures exists db, failing: Job, paid: Job ::
              && Conserved(db) && failing.trade == t && paid.trade == t
              && var (db1, phase) := Access(db, failing, true);
              var (db2, _) := Access(db1, paid, true);
              var (db3, _) := Access(db2, failing.(phase := phase), true);
              !Conserved(db3) && db3.credits[t] == 1 && t in db3.orders && db3.orders[t].status == Failed
  {
    var db := Db(map[t := Order(Stripe, Pending, 1)], multiset{});
    var failing, paid := Job(StripeAsyncFailed, t, Start), Job(StripePaid, t, Start);
    assert !Succeeded(db, t);
    var (db1, phase) := Access(db, failing, true);
    var (db2, p2) := Access(db1, paid, true);
    var (db3, p3) := Access(db2, failing.(phase := phase), true);
    assert !Succeeded(db3, t) && db3.credits[t] == 1;
    assert Conserved(db) && !Conserved(db3);
  }
}
