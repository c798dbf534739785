/**
 Midjourney polling (controller/midjourney.go): any number of pollers read the
 unfinished rows, compute transitions on their copies and write them back with a
 compare-and-swap on the status.

 A step is one statement that reaches the database, together with the local
 computation before it. `UpdateWithStatus` and the transaction behind
 `FinalizeMidjourneyTransition` are atomic (model/midjourney.go,
 model/task_billing_operation.go); both may fail and then change nothing.
 */
module Midjourney {
  import opened Wrappers

  /** A status text: the two the program compares with, or any other. */
  datatype Status = FAILURE | SUCCESS | Other(text: string)

  /** A progress text: "100%", or any other. */
  datatype Progress = DONE | Partial(text: string)

  /**
   A row. `rest` stands for the response fields that `checkMjTaskNeedUpdate`
   compares besides those named here, `extra` for those it does not.
   */
  datatype Row = Row(mjId: string, code: int, progress: Progress, status: Status, failReason: string,
                     submitTime: int, rest: string, extra: string, quota: int)

  /** One entry of an upstream response. */
  datatype Item = Item(mjId: string, progress: Progress, status: Status, failReason: string,
                       submitTime: int, rest: string, extra: Option<string>)

  const TIMEOUT_MS := 3600000
  const TIMEOUT_REASON := "upstream task timed out"

  // ----- The computation on a poller's copy -----

  /** A task unfinished for over an hour is treated as failed, whatever upstream says. */
  function WithTimeout(task: Row, item: Item, now: int): Item {
    if now - task.submitTime > TIMEOUT_MS && task.progress != DONE
    then item.(failReason := TIMEOUT_REASON, status := FAILURE) else item
  }

  /** `checkMjTaskNeedUpdate` */
  predicate NeedsUpdate(task: Row, item: Item) {
    || task.code != 1 || task.progress != item.progress || task.submitTime != item.submitTime
    || task.status != item.status || task.failReason != item.failReason || task.rest != item.rest
    || (task.progress != DONE && item.failReason != "")
  }

  /** The copy overwritten by a response entry. */
  function Updated(task: Row, item: Item): Row {
    var r := Row(task.mjId, 1, item.progress, item.status, item.failReason, item.submitTime, item.rest,
                 if item.extra.Some? then item.extra.value else task.extra, task.quota);
    if r.status == FAILURE || item.failReason != "" then r.(progress := DONE, status := FAILURE) else r
  }

  /** The copy overwritten by `failMidjourneyTask`. */
  function Failed(task: Row, reason: string): Row {
    task.(status := FAILURE, progress := DONE, failReason := reason)
  }

  // ----- The database -----

  /** `midjourneyBillingOperationKey`, before it is shortened; task ids carry no surrounding space. */
  datatype Key = ByTask(mjId: string) | ByRow(id: int)

  function KeyOf(id: int, mjId: string): Key {
    if mjId == "" then ByRow(id) else ByTask(mjId)
  }

  /** Rows by id, the keys of the billing operations, and the refunds granted, by row. */
  datatype Db = Db(rows: map<int, Row>, outbox: set<Key>, refunds: multiset<int>)

  /** `UpdateWithStatus` */
  function UpdateWithStatus(db: Db, id: int, task: Row, from: Status): Db {
    if id in db.rows && db.rows[id].status == from then db.(rows := db.rows[id := task]) else db
  }

  /** `FinalizeMidjourneyTransition`: with a refund, a used operation key aborts the transaction. */
  function Finalize(db: Db, id: int, task: Row, from: Status, refund: bool): Db {
    if !refund || task.quota == 0 then UpdateWithStatus(db, id, task, from)
    else if id in db.rows && db.rows[id].status == from && KeyOf(id, task.mjId) !in db.outbox
    then Db(db.rows[id := task], db.outbox + {KeyOf(id, task.mjId)}, db.refunds + multiset{id})
    else db
  }

  /** How the poller writes an updated copy back. */
  function Write(db: Db, id: int, before: Row, after: Row): Db {
    if (after.status == FAILURE || after.status == SUCCESS) && before.status != after.status
    then Finalize(db, id, after, before.status, after.status == FAILURE && after.quota != 0)
    else UpdateWithStatus(db, id, after, before.status)
  }

  // ----- The system -----

  /**
   A polling round: the copies read, and which of them the round has marked failed since,
   by `failMidjourneyTask` (`givenUp`) or because a response said so (`refused`).
   */
  datatype Poller = Poller(mem: map<int, Row>, givenUp: set<int>, refused: set<int>)

  /** `born` remembers, for the proofs, the rows inserted with the status FAILURE. */
  datatype State = State(db: Db, pollers: map<nat, Poller>, born: set<int>)

  const Init := State(Db(map[], {}, multiset{}), map[], {})

  /**
   `Fail` is `failMidjourneyTask`, `Respond` the handling of one response entry.
   `ok` is false when the database reports an error.
   */
  datatype Event =
    | Insert(id: int, row: Row)
    | Begin(poller: nat)
    | Fail(poller: nat, id: int, reason: string, ok: bool)
    | Respond(poller: nat, id: int, item: Item, now: int, ok: bool)

  function Unfinished(db: Db): map<int, Row> {
    map id | id in db.rows && db.rows[id].progress != DONE :: db.rows[id]
  }

  predicate HasCopy(s: State, p: nat, id: int) { p in s.pollers && id in s.pollers[p].mem }

  function Step(s: State, e: Event): State {
    match e
    case Insert(id, row) =>
      if id in s.db.rows then s
      else s.(db := s.db.(rows := s.db.rows[id := row]), born := if row.status == FAILURE then s.born + {id} else s.born)
    case Begin(p) => s.(pollers := s.pollers[p := Poller(Unfinished(s.db), {}, {})])
    case Fail(p, id, reason, ok) =>
      if !HasCopy(s, p, id) then s else
      var task := s.pollers[p].mem[id];
      if task.status == FAILURE || task.status == SUCCESS then s else
      var after := Failed(task, reason);
      s.(db := if ok then Finalize(s.db, id, after, task.status, true) else s.db, pollers := Remember(s, e, after))
    case Respond(p, id, item, now, ok) =>
      if !HasCopy(s, p, id) then s else
      var task := s.pollers[p].mem[id];
      if item.mjId == "" || item.mjId != task.mjId then s else
      var item' := WithTimeout(task, item, now);
      if !NeedsUpdate(task, item') then s else
      var after := Updated(task, item');
      s.(db := if ok then Write(s.db, id, task, after) else s.db, pollers := Remember(s, e, after))
  }

  /** The copy is changed in place, won or lost. */
  function Remember(s: State, e: Event, task: Row): map<nat, Poller>
    requires (e.Fail? || e.Respond?) && e.poller in s.pollers
  {
    var q := s.pollers[e.poller];
    s.pollers[e.poller := Poller(q.mem[e.id := task],
                                 if e.Fail? then q.givenUp + {e.id} else q.givenUp,
                                 if e.Respond? && task.status == FAILURE then q.refused + {e.id} else q.refused)]
  }

  function Run(s: State, es: seq<Event>): State
    decreases |es|
  {
    if es == [] then s else Run(Step(s, es[0]), es[1..])
  }

  // ----- What a round does to a row -----

  /** A poller's copy of a row that is still what is stored, unfinished and not failed. */
  predicate Current(s: State, p: nat, id: int) {
    && HasCopy(s, p, id) && id in s.db.rows && s.db.rows[id] == s.pollers[p].mem[id]
    && s.db.rows[id].progress != DONE && s.db.rows[id].status != FAILURE
  }

  /** The refund of a row has not been granted. */
  predicate Refundable(s: State, id: int) {
    id in s.db.rows && (s.db.rows[id].quota == 0 || KeyOf(id, s.db.rows[id].mjId) !in s.db.outbox)
  }

  /** More than an hour old. */
  predicate Overdue(row: Row, now: int) { now - row.submitTime > 3600000 }

  /** A row as it is stored when a task has failed. */
  predicate StoredAsFailed(d: Db, was: Db, id: int, reason: string) {
    && id in d.rows && id in was.rows
    && d.rows[id].status == FAILURE && d.rows[id].progress == DONE && d.rows[id].failReason == reason
    && d.rows[id].mjId == was.rows[id].mjId && d.rows[id].quota == was.rows[id].quota
    && d.refunds == (if was.rows[id].quota != 0 then was.refunds + multiset{id} else was.refunds)
    && d.rows == was.rows[id := d.rows[id]]
  }

  /**
   An entry for a current copy: the row is failed, finished and refunded if the task is
   overdue or the entry reports a failure; otherwise it says just what the entry says.
   */
  lemma EntryIsStored(s: State, p: nat, id: int, item: Item, now: int)
    requires Current(s, p, id) && Refundable(s, id) && item.mjId == s.db.rows[id].mjId != ""
    ensures var was := s.db.rows[id]; var d := Step(s, Respond(p, id, item, now, true)).db;
            if Overdue(was, now) then StoredAsFailed(d, s.db, id, "upstream task timed out")
            else if item.status == FAILURE || item.failReason != "" then StoredAsFailed(d, s.db, id, item.failReason)
            else
              && id in d.rows && d == s.db.(rows := s.db.rows[id := d.rows[id]])
              && d.rows[id] == Row(was.mjId, 1, item.progress, item.status, "", item.submitTime, item.rest, d.rows[id].extra, was.quota)
              && (d.rows[id] != was ==> d.rows[id].extra == if item.extra.Some? then item.extra.value else was.extra)
  { }

  /** The task is polled again exactly when the entry leaves it unfinished. */
  lemma PolledAgainIff(s: State, p: nat, id: int, item: Item, now: int)
    requires Current(s, p, id) && Refundable(s, id) && item.mjId == s.db.rows[id].mjId != ""
    ensures id in Unfinished(Step(s, Respond(p, id, item, now, true)).db)
            <==> !Overdue(s.db.rows[id], now) && item.status != FAILURE && item.failReason == "" && item.progress != DONE
  { }

  /** A task given up is stored as failed and refunded, unless it was decided. */
  lemma GivenUpIsStored(s: State, p: nat, id: int, reason: string)
    requires Current(s, p, id) && Refundable(s, id)
    ensures var d := Step(s, Fail(p, id, reason, true)).db;
            if s.db.rows[id].status == SUCCESS then d == s.db else StoredAsFailed(d, s.db, id, reason)
  { }

  /** A write loses, and changes nothing, when the row's status is no longer the copy's, when the database fails, or when the refund was granted before. */
  lemma LostWrites(s: State, e: Event)
    requires (e.Fail? || e.Respond?) && HasCopy(s, e.poller, e.id) && e.id in s.db.rows
    ensures s.db.rows[e.id].status != s.pollers[e.poller].mem[e.id].status || !e.ok ==> Step(s, e).db == s.db
    ensures var task := s.pollers[e.poller].mem[e.id];
            e.Fail? && task.quota != 0 && KeyOf(e.id, task.mjId) in s.db.outbox ==> Step(s, e).db == s.db
  { }

  /** A round reads exactly the rows not at 100%, as they are, and a new row is stored as it is given. */
  lemma RoundReads(s: State, p: nat, id: int, row: Row)
    ensures var s' := Step(s, Begin(p));
            && s'.db == s.db && p in s'.pollers
            && (HasCopy(s', p, id) <==> id in s.db.rows && s.db.rows[id].progress != DONE)
            && (HasCopy(s', p, id) ==> s'.pollers[p].mem[id] == s.db.rows[id])
            && (forall q :: q != p ==> (q in s'.pollers <==> q in s.pollers) && (q in s.pollers ==> s'.pollers[q] == s.pollers[q]))
    ensures id !in s.db.rows ==> Step(s, Insert(id, row)).db == s.db.(rows := s.db.rows[id := row])
    ensures id in s.db.rows ==> Step(s, Insert(id, row)) == s
  { }

  /** A task reported as done leaves the rounds for good in one round: read, reported, not read again. */
  lemma SuccessLeavesTheRounds(s: State, p: nat, id: int, item: Item, now: int)
    requires id in s.db.rows && s.db.rows[id].progress != DONE && s.db.rows[id].status != FAILURE && Refundable(s, id)
    requires item.mjId == s.db.rows[id].mjId != "" && item.status == SUCCESS && item.progress == DONE && item.failReason == ""
    requires now - s.db.rows[id].submitTime <= 3600000
    ensures var s1 := Step(Step(s, Begin(p)), Respond(p, id, item, now, true)); var s2 := Step(s1, Begin(p));
            id in s1.db.rows && s1.db.rows[id].status == SUCCESS && s1.db.rows[id].progress == DONE && !HasCopy(s2, p, id)
  {
    RoundReads(s, p, id, s.db.rows[id]);
    PolledAgainIff(Step(s, Begin(p)), p, id, item, now);
  }

  // ----- Refunded at most once: every run -----

  /** A row refunded has used its key, and was refunded once. */
  predicate RefundOk(s: State, id: int) {
    s.db.refunds[id] > 0 ==>
      s.db.refunds[id] == 1 && id in s.db.rows && KeyOf(id, s.db.rows[id].mjId) in s.db.outbox
  }

  /** A copy keeps the identity and the quota of its row. */
  predicate CopyOk(s: State, p: nat, id: int) {
    HasCopy(s, p, id) ==>
      && id in s.db.rows
      && s.pollers[p].mem[id].mjId == s.db.rows[id].mjId && s.pollers[p].mem[id].quota == s.db.rows[id].quota
  }

  ghost predicate BaseInv(s: State) {
    && (forall id {:trigger RefundOk(s, id)} :: RefundOk(s, id))
    && (forall p, id {:trigger CopyOk(s, p, id)} :: CopyOk(s, p, id))
  }

  /** What acting on a copy does to the database: nothing, or one row won by comparing its status. */
  predicate Acted(db: Db, db': Db, id: int, before: Row, after: Row) {
    || db' == db
    || (&& id in db.rows && db.rows[id].status == before.status && db'.rows == db.rows[id := after]
        && (|| (db'.outbox == db.outbox && db'.refunds == db.refunds
                && (after.status == FAILURE && before.status != FAILURE ==> after.quota == 0))
            || (&& KeyOf(id, after.mjId) !in db.outbox && db'.outbox == db.outbox + {KeyOf(id, after.mjId)}
                && db'.refunds == db.refunds + multiset{id}
                && after.status == FAILURE && before.status != FAILURE && after.quota != 0)))
  }

  /** The copy an event acts on, before and after. */
  lemma Acts(s: State, e: Event) returns (before: Row, after: Row)
    requires e.Fail? || e.Respond?
    requires Step(s, e) != s
    ensures HasCopy(s, e.poller, e.id) && before == s.pollers[e.poller].mem[e.id]
    ensures Step(s, e).pollers == Remember(s, e, after) && Step(s, e).born == s.born
    ensures Acted(s.db, Step(s, e).db, e.id, before, after)
    ensures after.mjId == before.mjId && after.quota == before.quota
    ensures after.status == FAILURE ==> after.progress == DONE
    ensures e.Fail? ==> before.status != FAILURE && after.status == FAILURE
  {
    before := s.pollers[e.poller].mem[e.id];
    after := if e.Fail? then Failed(before, e.reason) else Updated(before, WithTimeout(before, e.item, e.now));
  }

  /** `Acts` keeps the invariant: a refund uses up the key of its row. */
  lemma ActedBase(s: State, s': State, e: Event, after: Row)
    requires BaseInv(s) && (e.Fail? || e.Respond?) && HasCopy(s, e.poller, e.id)
    requires s'.pollers == Remember(s, e, after) && Acted(s.db, s'.db, e.id, s.pollers[e.poller].mem[e.id], after)
    requires after.mjId == s.pollers[e.poller].mem[e.id].mjId && after.quota == s.pollers[e.poller].mem[e.id].quota
    ensures BaseInv(s')
  {
    assert CopyOk(s, e.poller, e.id) && RefundOk(s, e.id);
    forall k ensures RefundOk(s', k) { assert RefundOk(s, k); }
    forall q, k ensures CopyOk(s', q, k) { assert CopyOk(s, q, k); }
  }

  lemma BaseStep(s: State, e: Event)
    requires BaseInv(s)
    ensures BaseInv(Step(s, e))
  {
    var s' := Step(s, e);
    match e
    case Insert(i, row) =>
      forall k ensures RefundOk(s', k) { assert RefundOk(s, k); }
      forall q, k ensures CopyOk(s', q, k) { assert CopyOk(s, q, k); }
    case Begin(p) =>
      forall k ensures RefundOk(s', k) { assert RefundOk(s, k); }
      forall q, k ensures CopyOk(s', q, k) { assert CopyOk(s, q, k); }
    case _ =>
      if s' != s {
        var before, after := Acts(s, e);
        ActedBase(s, s', e, after);
      }
  }

  lemma {:induction false} BaseRun(s: State, es: seq<Event>)
    requires BaseInv(s)
    ensures BaseInv(Run(s, es))
    decreases |es|
  {
    if es != [] { BaseStep(s, es[0]); BaseRun(Step(s, es[0]), es[1..]); }
  }

  /** Across any number of pollers, and however upstream answers, a row is refunded at most once. */
  lemma RefundedAtMostOnce(es: seq<Event>, id: int)
    ensures Run(Init, es).db.refunds[id] <= 1
  {
    BaseRun(Init, es);
    assert RefundOk(Run(Init, es), id);
  }

  /** Rows share a billing key exactly when they share a task id, or are one row without one. */
  lemma KeysSharedIff(i: int, a: string, j: int, b: string)
    ensures KeyOf(i, a) == KeyOf(j, b) <==> if a == "" then b == "" && i == j else a == b
  { }

  /** Two rows for one task have at most one refund between them. */
  predicate PairOk(s: State, i: int, j: int) {
    i != j && i in s.db.rows && j in s.db.rows && s.db.rows[i].mjId == s.db.rows[j].mjId != "" ==>
      s.db.refunds[i] == 0 || s.db.refunds[j] == 0
  }

  lemma PairStep(s: State, e: Event, i: int, j: int)
    requires BaseInv(s) && PairOk(s, i, j)
    ensures PairOk(Step(s, e), i, j)
  {
    assert RefundOk(s, i) && RefundOk(s, j);
    if (e.Fail? || e.Respond?) && Step(s, e) != s {
      var before, after := Acts(s, e);
      assert CopyOk(s, e.poller, e.id);
    }
  }

  lemma {:induction false} PairRun(s: State, es: seq<Event>, i: int, j: int)
    requires BaseInv(s) && PairOk(s, i, j)
    ensures PairOk(Run(s, es), i, j)
    decreases |es|
  {
    if es != [] {
      BaseStep(s, es[0]);
      PairStep(s, es[0], i, j);
      PairRun(Step(s, es[0]), es[1..], i, j);
    }
  }

  /** In every run a task submitted twice, and so in two rows, is refunded at most once. */
  lemma TaskRefundedAtMostOnce(es: seq<Event>, i: int, j: int)
    ensures PairOk(Run(Init, es), i, j)
  {
    PairRun(Init, es, i, j);
  }

  // ----- How a row leaves FAILURE -----

  predicate HasFailed(db: Db, id: int) { id in db.rows && db.rows[id].status == FAILURE }

  /** A response entry says, of a task whose copy holds FAILURE, that it has not failed. */
  predicate Revives(s: State, e: Event, id: int) {
    && e.Respond? && e.id == id && e.ok && HasCopy(s, e.poller, id) && s.pollers[e.poller].mem[id].status == FAILURE
    && e.item.mjId != "" && e.item.mjId == s.pollers[e.poller].mem[id].mjId
    && var item := WithTimeout(s.pollers[e.poller].mem[id], e.item, e.now);
    item.status != FAILURE && item.failReason == ""
  }

  /** In any state, a step takes a row out of FAILURE exactly when it is such an entry. */
  lemma LeavesFailureIff(s: State, e: Event, id: int)
    requires HasFailed(s.db, id)
    ensures !HasFailed(Step(s, e).db, id) <==> Revives(s, e, id)
  { }

  // ----- FAILURE is absorbing: which runs -----

  /** A row is inserted as failed, yet unfinished. */
  predicate InsertsUnfinishedFailure(s: State, e: Event) {
    e.Insert? && e.id !in s.db.rows && e.row.status == FAILURE && e.row.progress != DONE
  }

  /** An entry lists a task that the round gave up before. */
  predicate ListsGivenUp(s: State, e: Event) { e.Respond? && e.poller in s.pollers && e.id in s.pollers[e.poller].givenUp }

  /** An entry lists a task that an entry of the same round said has failed. */
  predicate ListsRefused(s: State, e: Event) { e.Respond? && e.poller in s.pollers && e.id in s.pollers[e.poller].refused }

  /** What may happen in a run. */
  datatype Env = Env(insertsUnfinishedFailure: bool, listsGivenUp: bool, listsRefused: bool)

  const CALM := Env(false, false, false)

  predicate PermitsStep(env: Env, s: State, e: Event) {
    && (InsertsUnfinishedFailure(s, e) ==> env.insertsUnfinishedFailure)
    && (ListsGivenUp(s, e) ==> env.listsGivenUp)
    && (ListsRefused(s, e) ==> env.listsRefused)
  }

  predicate Permits(env: Env, s: State, es: seq<Event>)
    decreases |es|
  {
    es != [] ==> PermitsStep(env, s, es[0]) && Permits(env, Step(s, es[0]), es[1..])
  }

  /**
   A failed row is finished, and refunded exactly when it had a quota and was not inserted
   that way; no other row is refunded.
   */
  predicate RowOk(s: State, id: int) {
    && (HasFailed(s.db, id) ==> s.db.rows[id].progress == DONE)
    && s.db.refunds[id] ==
       if HasFailed(s.db, id) && s.db.rows[id].quota != 0 && id !in s.born then 1 else 0
  }

  /** A copy holds FAILURE only because its own round put it there. */
  predicate FreshOk(s: State, p: nat, id: int) {
    HasCopy(s, p, id) && s.pollers[p].mem[id].status == FAILURE ==> id in s.pollers[p].givenUp || id in s.pollers[p].refused
  }

  ghost predicate Inv(s: State) {
    && BaseInv(s)
    && (forall id {:trigger RowOk(s, id)} :: RowOk(s, id))
    && (forall p, id {:trigger FreshOk(s, p, id)} :: FreshOk(s, p, id))
    && (forall id :: id in s.born ==> HasFailed(s.db, id))
  }

  /** Comparing with a status other than FAILURE cannot touch a failed row. */
  lemma ActedInv(s: State, s': State, e: Event, after: Row)
    requires Inv(s) && (e.Fail? || e.Respond?) && HasCopy(s, e.poller, e.id) && s'.born == s.born
    requires s'.pollers == Remember(s, e, after) && Acted(s.db, s'.db, e.id, s.pollers[e.poller].mem[e.id], after)
    requires after.quota == s.pollers[e.poller].mem[e.id].quota && s.pollers[e.poller].mem[e.id].status != FAILURE
    requires after.status == FAILURE ==> after.progress == DONE
    ensures forall k :: RowOk(s', k)
    ensures forall q, k :: FreshOk(s', q, k)
    ensures forall k :: HasFailed(s.db, k) ==> HasFailed(s'.db, k) && s'.db.rows[k] == s.db.rows[k]
  {
    assert CopyOk(s, e.poller, e.id) && RowOk(s, e.id);
    forall k ensures RowOk(s', k) { assert RowOk(s, k); }
    forall q, k ensures FreshOk(s', q, k) { assert FreshOk(s, q, k); }
  }

  lemma InvStep(s: State, e: Event)
    requires Inv(s) && PermitsStep(CALM, s, e)
    ensures Inv(Step(s, e))
    ensures forall id :: HasFailed(s.db, id) ==> HasFailed(Step(s, e).db, id) && Step(s, e).db.rows[id] == s.db.rows[id]
  {
    var s' := Step(s, e);
    BaseStep(s, e);
    match e
    case Insert(_, _) =>
      forall k ensures RowOk(s', k) { assert RowOk(s, k) && RefundOk(s, k); }
      forall q, k ensures FreshOk(s', q, k) { assert FreshOk(s, q, k); }
    case Begin(_) =>
      forall k ensures RowOk(s', k) { assert RowOk(s, k); }
      forall q, k ensures FreshOk(s', q, k) { assert FreshOk(s, q, k) && RowOk(s, k); }
    case _ =>
      if s' != s {
        var before, after := Acts(s, e);
        assert FreshOk(s, e.poller, e.id);
        ActedInv(s, s', e, after);
      }
  }

  lemma {:induction false} InvRun(s: State, es: seq<Event>)
    requires Inv(s) && Permits(CALM, s, es)
    ensures Inv(Run(s, es))
    ensures forall id :: HasFailed(s.db, id) ==> HasFailed(Run(s, es).db, id) && Run(s, es).db.rows[id] == s.db.rows[id]
    decreases |es|
  {
    if es != [] { InvStep(s, es[0]); InvRun(Step(s, es[0]), es[1..]); }
  }

  /** In calm runs every row in FAILURE is finished and was refunded exactly once if it had a quota and failed here, and nothing else was. */
  lemma FailedExactlyRefunded(es: seq<Event>, id: int)
    requires Permits(CALM, Init, es)
    ensures RowOk(Run(Init, es), id)
  {
    InvRun(Init, es);
  }

  /** In calm runs a row in FAILURE stays exactly as it is. */
  lemma FailedRowsStay(es: seq<Event>, more: seq<Event>, id: int)
    requires Permits(CALM, Init, es) && Permits(CALM, Run(Init, es), more) && HasFailed(Run(Init, es).db, id)
    ensures var s := Run(Init, es); id in Run(s, more).db.rows && Run(s, more).db.rows[id] == s.db.rows[id]
  {
    InvRun(Init, es);
    InvRun(Run(Init, es), more);
  }

  /** Once a row is in FAILURE it stays in it, in every permitted continuation of every permitted run. */
  ghost predicate FailureAbsorbs(env: Env) {
    forall es: seq<Event>, more: seq<Event>, id: int ::
      var s := Run(Init, es);
      Permits(env, Init, es) && Permits(env, s, more) && HasFailed(s.db, id) ==> HasFailed(Run(s, more).db, id)
  }

  /**
   FAILURE is absorbing exactly when no row is inserted as failed yet unfinished, no entry
   lists a task its round gave up, and none lists one its round was told has failed.
   */
  lemma FailureAbsorbsIff(env: Env)
    ensures FailureAbsorbs(env) <==> env == CALM
  {
    if env == CALM {
      forall es: seq<Event>, more: seq<Event>, id: int |
        var s := Run(Init, es); Permits(env, Init, es) && Permits(env, s, more) && HasFailed(s.db, id)
        ensures HasFailed(Run(Run(Init, es), more).db, id)
      {
        FailedRowsStay(es, more, id);
      }
    } else if env.insertsUnfinishedFailure {
      InsertedFailureRevives(env);
    } else if env.listsRefused {
      TwiceListedFailureRevives(env);
    } else {
      GivenUpFailureRevives(env);
    }
  }

  const NEW := Row("m", 1, Partial("0%"), Other(""), "", 0, "", "", 5)
  const RUNNING := Item("m", Partial("50%"), Other("IN_PROGRESS"), "", 0, "", None)

  /** A run that gets a row into FAILURE and, one entry later, out of it. */
  lemma Revived(env: Env, es: seq<Event>, e: Event, id: int)
    requires Permits(env, Init, es) && PermitsStep(env, Run(Init, es), e)
    requires HasFailed(Run(Init, es).db, id) && Revives(Run(Init, es), e, id)
    ensures !FailureAbsorbs(env)
  {
    var s := Run(Init, es);
    LeavesFailureIff(s, e, id);
    RunCons(env, s, e, []);
    RunCons(env, Step(s, e), e, []);
  }

  /** A row inserted as failed but unfinished is read again, and leaves FAILURE without a refund. */
  lemma InsertedFailureRevives(env: Env)
    requires env.insertsUnfinishedFailure
    ensures !FailureAbsorbs(env)
  {
    var e0, e1, e2 := Insert(1, NEW.(status := FAILURE)), Begin(0), Respond(0, 1, RUNNING, 0, true);
    var s := Step(Init, e0);
    var s1 := Step(s, e1);
    assert s1.pollers[0].mem[1] == NEW.(status := FAILURE);
    RunTwo(env, e0, e1);
    Revived(env, [e0, e1], e2, 1);
  }

  /** A response that lists a task as failed and again as running takes it out of FAILURE. */
  lemma TwiceListedFailureRevives(env: Env)
    requires env.listsRefused
    ensures !FailureAbsorbs(env)
  {
    var e1, e2, e3 := Insert(1, NEW), Begin(0), Respond(0, 1, RUNNING.(status := FAILURE), 0, true);
    FailsFirst(env, e3);
    Revived(env, [e1, e2, e3], Respond(0, 1, RUNNING, 0, true), 1);
  }

  /** A task given up because its channel cannot be loaded, and then listed as running by another channel, leaves FAILURE. */
  lemma GivenUpFailureRevives(env: Env)
    requires env.listsGivenUp
    ensures !FailureAbsorbs(env)
  {
    var e1, e2, e3 := Insert(1, NEW), Begin(0), Fail(0, 1, "no channel", true);
    FailsFirst(env, e3);
    Revived(env, [e1, e2, e3], Respond(0, 1, RUNNING, 0, true), 1);
  }

  /** The row inserted, read and failed in one round. */
  lemma FailsFirst(env: Env, e3: Event)
    requires e3 == Respond(0, 1, RUNNING.(status := FAILURE), 0, true) || e3 == Fail(0, 1, "no channel", true)
    ensures var es := [Insert(1, NEW), Begin(0), e3]; var s := Run(Init, es);
            && Permits(env, Init, es) && HasFailed(s.db, 1) && HasCopy(s, 0, 1)
            && s.pollers[0].mem[1].status == FAILURE && s.pollers[0].mem[1].mjId == "m" && s.pollers[0].mem[1].progress == DONE
            && s.pollers[0].givenUp == (if e3.Fail? then {1} else {}) && s.pollers[0].refused == (if e3.Fail? then {} else {1})
  {
    var e1, e2 := Insert(1, NEW), Begin(0);
    var s1 := Step(Init, e1);
    var s2 := Step(s1, e2);
    assert s2.pollers[0] == Poller(map[1 := NEW], {}, {});
    RunThree(env, e1, e2, e3);
  }

  lemma RunTwo(env: Env, a: Event, b: Event)
    ensures Run(Init, [a, b]) == Step(Step(Init, a), b)
    ensures Permits(env, Init, [a, b]) <==> PermitsStep(env, Init, a) && PermitsStep(env, Step(Init, a), b)
  {
    RunCons(env, Step(Init, a), b, []);
    RunCons(env, Init, a, [b]);
    assert [a] + [b] == [a, b];
  }

  lemma RunThree(env: Env, a: Event, b: Event, c: Event)
    ensures Run(Init, [a, b, c]) == Step(Step(Step(Init, a), b), c)
    ensures Permits(env, Init, [a, b, c]) <==>
              PermitsStep(env, Init, a) && PermitsStep(env, Step(Init, a), b) && PermitsStep(env, Step(Step(Init, a), b), c)
  {
    RunCons(env, Step(Step(Init, a), b), c, []);
    RunCons(env, Step(Init, a), b, [c]);
    RunCons(env, Init, a, [b, c]);
    assert [a] + [b, c] == [a, b, c] && [b] + [c] == [b, c];
  }

  lemma RunCons(env: Env, s: State, e: Event, es: seq<Event>)
    ensures Run(s, [e] + es) == Run(Step(s, e), es)
    ensures Permits(env, s, [e] + es) <==> PermitsStep(env, s, e) && Permits(env, Step(s, e), es)
    ensures [e] + [] == [e] && Run(s, []) == s && Permits(env, s, [])
  {
    assert ([e] + es)[1..] == es;
  }
}
