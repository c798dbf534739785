/**
 The in-memory rate limiter (common/rate-limit.go) against a specification over
 the whole history of accepted requests: accept a request exactly when fewer than
 the limit were accepted for its key in the last `duration` seconds.

 The clock is a parameter of every operation. The clean-up goroutine may run at
 any moment, so it is an event like a request.
 */
module RateLimit {

  type Store = map<string, seq<int>>

  datatype Limit = Limit(max: int, duration: int)

  /** Each key is always used with one limit. */
  type Config = string -> Limit

  // ----- The implementation, as functions of the store -----

  /** `Request`; a queue holds the oldest time first. */
  function Ask(store: Store, key: string, lim: Limit, now: int): (Store, bool) {
    if key !in store then (store[key := [now]], true)
    else
      var q := store[key];
      if |q| < lim.max then (store[key := q + [now]], true)
      else if q != [] && now - q[0] >= lim.duration then (store[key := q[1..] + [now]], true)
      else (store, false)
  }

  /** Whether clean-up drops a queue. */
  predicate Stale(q: seq<int>, expiration: int, now: int) { q == [] || now - q[|q| - 1] > expiration }

  /** One pass of `clearExpiredItems` */
  function Clean(store: Store, expiration: int, now: int): Store {
    map k | k in store && !Stale(store[k], expiration, now) :: store[k]
  }

  // ----- The specification -----

  datatype Accepted = Accepted(key: string, time: int)

  /** How many requests for `key` were accepted at a time `t` with `from < t`. */
  function Since(log: seq<Accepted>, key: string, from: int): nat {
    if log == [] then 0
    else
      var e := log[|log| - 1];
      Since(log[..|log| - 1], key, from) + if e.key == key && from < e.time then 1 else 0
  }

  /** Fewer than the limit were accepted in the last `duration` seconds. */
  predicate Allowed(log: seq<Accepted>, key: string, lim: Limit, now: int) {
    Since(log, key, now - lim.duration) < lim.max
  }

  // ----- Runs -----

  datatype Event = Request(key: string, now: int) | CleanUp(now: int)

  /** The answers the limiter gives. */
  function Answers(cfg: Config, expiration: int, store: Store, es: seq<Event>): seq<bool>
    decreases |es|
  {
    if es == [] then []
    else match es[0]
      case CleanUp(now) => Answers(cfg, expiration, Clean(store, expiration, now), es[1..])
      case Request(key, now) =>
        var (store', ok) := Ask(store, key, cfg(key), now);
        [ok] + Answers(cfg, expiration, store', es[1..])
  }

  /** The answers the specification demands. */
  function Demanded(cfg: Config, log: seq<Accepted>, es: seq<Event>): seq<bool>
    decreases |es|
  {
    if es == [] then []
    else match es[0]
      case CleanUp(now) => Demanded(cfg, log, es[1..])
      case Request(key, now) =>
        var ok := Allowed(log, key, cfg(key), now);
        [ok] + Demanded(cfg, if ok then log + [Accepted(key, now)] else log, es[1..])
  }

  /** The requests the limiter accepts, after those of `log`. */
  function Served(cfg: Config, expiration: int, store: Store, log: seq<Accepted>, es: seq<Event>): seq<Accepted>
    decreases |es|
  {
    if es == [] then log
    else match es[0]
      case CleanUp(now) => Served(cfg, expiration, Clean(store, expiration, now), log, es[1..])
      case Request(key, now) =>
        var (store', ok) := Ask(store, key, cfg(key), now);
        Served(cfg, expiration, store', if ok then log + [Accepted(key, now)] else log, es[1..])
  }

  /** The requests the specification accepts, after those of `log`. */
  function History(cfg: Config, log: seq<Accepted>, es: seq<Event>): seq<Accepted>
    decreases |es|
  {
    if es == [] then log
    else match es[0]
      case CleanUp(_) => History(cfg, log, es[1..])
      case Request(key, now) =>
        History(cfg, if Allowed(log, key, cfg(key), now) then log + [Accepted(key, now)] else log, es[1..])
  }

  const NANOSECONDS := 1_000_000_000

  /** `int64(expirationDuration.Seconds())` of a period in nanoseconds */
  function Seconds(period: nat): nat { period / NANOSECONDS }

  /** A run that can happen: the clock never goes back, and there is no clean-up when the period is zero. */
  ghost predicate Possible(period: nat, es: seq<Event>) {
    && (forall i, j :: 0 <= i < j < |es| ==> es[i].now <= es[j].now)
    && (period == 0 ==> forall i :: 0 <= i < |es| ==> es[i].Request?)
  }

  // ----- How the store relates to the history -----

  /** The accepted times of a key. */
  function Times(log: seq<Accepted>, key: string): seq<int> {
    if log == [] then []
    else
      var e := log[|log| - 1];
      if e.key == key then Times(log[..|log| - 1], key) + [e.time] else Times(log[..|log| - 1], key)
  }

  function After(ts: seq<int>, from: int): nat {
    if ts == [] then 0 else After(ts[..|ts| - 1], from) + if from < ts[|ts| - 1] then 1 else 0
  }

  lemma {:induction false} SinceTimes(log: seq<Accepted>, key: string, from: int)
    ensures Since(log, key, from) == After(Times(log, key), from)
  {
    if log != [] {
      var ts := Times(log[..|log| - 1], key);
      SinceTimes(log[..|log| - 1], key, from);
      if log[|log| - 1].key == key {
        assert Times(log, key) == ts + [log[|log| - 1].time];
        assert Times(log, key)[..|ts|] == ts;
      }
    }
  }

  ghost predicate Sorted(ts: seq<int>) { forall i, j :: 0 <= i < j < |ts| ==> ts[i] <= ts[j] }

  /** In a sorted list, if the `k`-th time is not after `from`, at most the rest are. */
  lemma {:induction false} AfterSorted(ts: seq<int>, from: int, k: nat)
    requires Sorted(ts) && k <= |ts|
    requires k > 0 ==> ts[k - 1] <= from
    ensures After(ts, from) <= |ts| - k
  {
    if ts != [] {
      var init := ts[..|ts| - 1];
      if k == |ts| {
        AfterSorted(init, from, k - 1);
        if k > 1 { assert init[k - 2] == ts[k - 2] <= ts[k - 1]; }
      } else {
        AfterSorted(init, from, k);
      }
    }
  }

  /**
   A queue is the end of the history of its key: at most `max` times, and if fewer,
   everything older has left the window.
   */
  ghost predicate Fits(ts: seq<int>, q: seq<int>, lim: Limit, now: int) {
    && Sorted(ts) && (ts != [] ==> ts[|ts| - 1] <= now)
    && |q| <= |ts| && q == ts[|ts| - |q|..] && |q| <= lim.max
    && (|q| < lim.max && |q| < |ts| ==> ts[|ts| - |q| - 1] <= now - lim.duration)
  }

  /** A fitting queue decides rightly. */
  lemma FitsDecides(ts: seq<int>, q: seq<int>, lim: Limit, now: int)
    requires Fits(ts, q, lim, now) && lim.max >= 1
    ensures |q| < lim.max || now - q[0] >= lim.duration <==> After(ts, now - lim.duration) < lim.max
  {
    var k := |ts| - |q|;
    if |q| < lim.max {
      AfterSorted(ts, now - lim.duration, k);
    } else if now - q[0] >= lim.duration {
      assert q[0] == ts[k];
      AfterSorted(ts, now - lim.duration, k + 1);
    } else {
      assert q[0] == ts[k];
      AfterAtLeast(ts, now - lim.duration, k);
    }
  }

  lemma SortedPush(ts: seq<int>, now: int)
    requires Sorted(ts) && (ts != [] ==> ts[|ts| - 1] <= now)
    ensures Sorted(ts + [now])
  {
    forall i | 0 <= i < |ts| ensures ts[i] <= now { assert i < |ts| - 1 ==> ts[i] <= ts[|ts| - 1]; }
  }

  /** Appending an accepted time keeps a queue with room fitting. */
  lemma FitsGrow(ts: seq<int>, q: seq<int>, lim: Limit, now: int)
    requires Fits(ts, q, lim, now) && |q| < lim.max
    ensures Fits(ts + [now], q + [now], lim, now)
  {
    var k := |ts| - |q|;
    SortedPush(ts, now);
    assert (ts + [now])[k..] == ts[k..] + [now];
    assert 0 < k ==> (ts + [now])[k - 1] == ts[k - 1];
  }

  /** Appending an accepted time and dropping the oldest keeps a full queue fitting. */
  lemma FitsSlide(ts: seq<int>, q: seq<int>, lim: Limit, now: int)
    requires Fits(ts, q, lim, now) && |q| == lim.max && lim.max >= 1
    ensures Fits(ts + [now], q[1..] + [now], lim, now)
  {
    var k := |ts| - |q|;
    SortedPush(ts, now);
    assert (ts + [now])[k + 1..] == ts[k + 1..] + [now] && ts[k..][1..] == ts[k + 1..];
  }

  /** The queue of a key, empty when there is none. */
  function Queue(store: Store, key: string): seq<int> { if key in store then store[key] else [] }

  ghost predicate KeyOk(cfg: Config, store: Store, log: seq<Accepted>, now: int, key: string) {
    Fits(Times(log, key), Queue(store, key), cfg(key), now) && (key in store ==> store[key] != [])
  }

  ghost predicate Inv(cfg: Config, store: Store, log: seq<Accepted>, now: int) {
    forall key {:trigger KeyOk(cfg, store, log, now, key)} :: KeyOk(cfg, store, log, now, key)
  }

  /** A usable limit, given the clean-up period. */
  predicate Usable(lim: Limit, period: nat) { lim.max >= 1 && (period > 0 ==> (lim.duration - 1) * 1_000_000_000 <= period) }

  /** In whole seconds, as the clean-up compares them. */
  lemma UsableInSeconds(lim: Limit, period: nat)
    ensures (lim.duration - 1) * 1_000_000_000 <= period <==> lim.duration <= Seconds(period) + 1
  {
    var s := Seconds(period);
    assert period == s * NANOSECONDS + period % NANOSECONDS;
  }

  lemma FitsLater(ts: seq<int>, q: seq<int>, lim: Limit, now: int, now': int)
    requires Fits(ts, q, lim, now) && now <= now'
    ensures Fits(ts, q, lim, now')
  { }

  lemma Later(cfg: Config, store: Store, log: seq<Accepted>, now: int, now': int)
    requires Inv(cfg, store, log, now) && now <= now'
    ensures Inv(cfg, store, log, now')
  {
    forall key ensures KeyOk(cfg, store, log, now', key) {
      assert KeyOk(cfg, store, log, now, key);
      FitsLater(Times(log, key), Queue(store, key), cfg(key), now, now');
    }
  }

  /** The limiter's answer is the demanded one. */
  lemma AskIsAllowed(cfg: Config, store: Store, log: seq<Accepted>, key: string, now: int)
    requires KeyOk(cfg, store, log, now, key) && cfg(key).max >= 1
    ensures Ask(store, key, cfg(key), now).1 == Allowed(log, key, cfg(key), now)
  {
    SinceTimes(log, key, now - cfg(key).duration);
    FitsDecides(Times(log, key), Queue(store, key), cfg(key), now);
  }

  lemma {:induction false} AfterAtLeast(ts: seq<int>, from: int, k: nat)
    requires Sorted(ts) && k < |ts| && from < ts[k]
    ensures After(ts, from) >= |ts| - k
  {
    if k < |ts| - 1 { AfterAtLeast(ts[..|ts| - 1], from, k); }
  }

  lemma TimesPush(log: seq<Accepted>, key: string, now: int, k: string)
    ensures Times(log + [Accepted(key, now)], k) == if k == key then Times(log, k) + [now] else Times(log, k)
  {
    assert (log + [Accepted(key, now)])[..|log|] == log;
  }

  /** An accepted request leaves the queues of other keys, and extends its own. */
  lemma AskQueue(store: Store, key: string, lim: Limit, now: int, k: string)
    requires Ask(store, key, lim, now).1
    ensures var q', q := Queue(Ask(store, key, lim, now).0, k), Queue(store, k);
            q' == if k != key then q else if key !in store || |q| < lim.max then q + [now] else q[1..] + [now]
  { }

  lemma AskKeepsKey(cfg: Config, store: Store, log: seq<Accepted>, key: string, now: int, k: string)
    requires KeyOk(cfg, store, log, now, k) && cfg(k).max >= 1 && Ask(store, key, cfg(key), now).1
    ensures KeyOk(cfg, Ask(store, key, cfg(key), now).0, log + [Accepted(key, now)], now, k)
  {
    var lim, q, ts := cfg(k), Queue(store, k), Times(log, k);
    TimesPush(log, key, now, k);
    AskQueue(store, key, cfg(key), now, k);
    if k == key {
      if |q| < lim.max { FitsGrow(ts, q, lim, now); } else { FitsSlide(ts, q, lim, now); }
    }
  }

  lemma CleanKeepsKey(cfg: Config, store: Store, log: seq<Accepted>, period: nat, now: int, k: string)
    requires KeyOk(cfg, store, log, now, k) && Usable(cfg(k), period) && period > 0
    ensures KeyOk(cfg, Clean(store, Seconds(period), now), log, now, k)
  {
    UsableInSeconds(cfg(k), period);
  }

  /** Whatever one request or clean-up does, a usable key's queue stays the end of its history. */
  lemma StepKeepsKey(cfg: Config, period: nat, store: Store, log: seq<Accepted>, e: Event, k: string)
    requires KeyOk(cfg, store, log, e.now, k) && Usable(cfg(k), period) && (e.CleanUp? ==> period > 0)
    ensures match e
            case CleanUp(now) => KeyOk(cfg, Clean(store, Seconds(period), now), log, now, k)
            case Request(key, now) =>
              var (store', ok) := Ask(store, key, cfg(key), now);
              KeyOk(cfg, store', if ok then log + [Accepted(key, now)] else log, now, k)
  {
    match e
    case CleanUp(now) => CleanKeepsKey(cfg, store, log, period, now, k);
    case Request(key, now) => if Ask(store, key, cfg(key), now).1 { AskKeepsKey(cfg, store, log, key, now, k); }
  }

  lemma {:induction false} Simulates(cfg: Config, period: nat, store: Store, log: seq<Accepted>, clock: int, es: seq<Event>)
    requires Inv(cfg, store, log, clock) && (forall key :: Usable(cfg(key), period))
    requires Possible(period, es) && (es != [] ==> clock <= es[0].now)
    ensures Answers(cfg, Seconds(period), store, es) == Demanded(cfg, log, es)
    decreases |es|
  {
    if es != [] {
      var e, rest, x := es[0], es[1..], Seconds(period);
      Later(cfg, store, log, clock, e.now);
      var store', log' := store, log;
      match e {
        case CleanUp(now) => store' := Clean(store, x, now);
        case Request(key, now) =>
          assert KeyOk(cfg, store, log, now, key) && Usable(cfg(key), period);
          AskIsAllowed(cfg, store, log, key, now);
          store' := Ask(store, key, cfg(key), now).0;
          if Ask(store, key, cfg(key), now).1 { log' := log + [Accepted(key, now)]; }
      }
      forall k ensures KeyOk(cfg, store', log', e.now, k) {
        assert KeyOk(cfg, store, log, e.now, k) && Usable(cfg(k), period);
        StepKeepsKey(cfg, period, store, log, e, k);
      }
      Simulates(cfg, period, store', log', e.now, rest);
    }
  }

  // ----- The theorems -----

  /** On every run of requests and clean-ups, the limiter answers as the specification demands. */
  ghost predicate Faithful(cfg: Config, period: nat) {
    forall es: seq<Event> :: Possible(period, es) ==> Answers(cfg, Seconds(period), map[], es) == Demanded(cfg, [], es)
  }

  /**
   That is so exactly when every limit is at least one and, unless there is no clean-up, no
   window outlives the clean-up period by more than a second.
   */
  lemma FaithfulIff(cfg: Config, period: nat)
    ensures Faithful(cfg, period) <==> forall key :: Usable(cfg(key), period)
  {
    if forall key :: Usable(cfg(key), period) {
      forall es: seq<Event> | Possible(period, es) ensures Answers(cfg, Seconds(period), map[], es) == Demanded(cfg, [], es) {
        var clock := if es == [] then 0 else es[0].now;
        forall key ensures KeyOk(cfg, map[], [], clock, key) { assert Usable(cfg(key), period); }
        Simulates(cfg, period, map[], [], clock, es);
      }
    } else {
      var key :| !Usable(cfg(key), period);
      UsableInSeconds(cfg(key), period);
      if cfg(key).max < 1 { FirstAlwaysPasses(cfg, period, key); }
      else { ForgottenTooSoon(cfg, period, key); }
    }
  }

  /** With a limit below one the first request is still accepted. */
  lemma FirstAlwaysPasses(cfg: Config, period: nat, key: string)
    requires cfg(key).max < 1
    ensures !Faithful(cfg, period)
  {
    var es := [Request(key, 0)];
    assert es[1..] == [];
    assert Answers(cfg, Seconds(period), map[], es)[0] != Demanded(cfg, [], es)[0];
    assert Possible(period, es);
  }

  /** The same answers accept the same requests. */
  lemma {:induction false} SameAnswersSameLog(cfg: Config, expiration: int, store: Store, log: seq<Accepted>, es: seq<Event>)
    requires Answers(cfg, expiration, store, es) == Demanded(cfg, log, es)
    ensures Served(cfg, expiration, store, log, es) == History(cfg, log, es)
    decreases |es|
  {
    if es != [] {
      match es[0]
      case CleanUp(now) => SameAnswersSameLog(cfg, expiration, Clean(store, expiration, now), log, es[1..]);
      case Request(key, now) =>
        var (store', ok) := Ask(store, key, cfg(key), now);
        var log' := if Allowed(log, key, cfg(key), now) then log + [Accepted(key, now)] else log;
        var a, d := Answers(cfg, expiration, store', es[1..]), Demanded(cfg, log', es[1..]);
        assert ([ok] + a)[0] == ([Allowed(log, key, cfg(key), now)] + d)[0];
        assert ([ok] + a)[1..] == a && ([Allowed(log, key, cfg(key), now)] + d)[1..] == d;
        SameAnswersSameLog(cfg, expiration, store', log', es[1..]);
    }
  }

  // ----- No window holds more than the limit -----

  /** How many requests for `key` were accepted from `lo` up to, not including, `hi`. */
  function Within(log: seq<Accepted>, key: string, lo: int, hi: int): nat {
    if log == [] then 0
    else
      var e := log[|log| - 1];
      Within(log[..|log| - 1], key, lo, hi) + if e.key == key && lo <= e.time < hi then 1 else 0
  }

  /** Every request for `key` in the log was allowed by what came before it. */
  ghost predicate Lawful(cfg: Config, log: seq<Accepted>, key: string) {
    forall i :: 0 <= i < |log| && log[i].key == key ==> Allowed(log[..i], key, cfg(key), log[i].time)
  }

  lemma {:induction false} WithinSince(log: seq<Accepted>, key: string, lo: int, hi: int, from: int)
    requires from < lo
    ensures Within(log, key, lo, hi) <= Since(log, key, from)
  {
    if log != [] { WithinSince(log[..|log| - 1], key, lo, hi, from); }
  }

  lemma {:induction false} LawfulWindow(cfg: Config, log: seq<Accepted>, key: string, lo: int)
    requires Lawful(cfg, log, key) && cfg(key).max >= 0
    ensures Within(log, key, lo, lo + cfg(key).duration) <= cfg(key).max
  {
    if log != [] {
      var init, e := log[..|log| - 1], log[|log| - 1];
      assert forall i :: 0 <= i < |init| ==> log[..i] == init[..i];
      LawfulWindow(cfg, init, key, lo);
      if e.key == key && lo <= e.time < lo + cfg(key).duration {
        WithinSince(init, key, lo, lo + cfg(key).duration, e.time - cfg(key).duration);
      }
    }
  }

  lemma LawfulPush(cfg: Config, log: seq<Accepted>, key: string, e: Accepted)
    requires Lawful(cfg, log, key) && (e.key == key ==> Allowed(log, key, cfg(key), e.time))
    ensures Lawful(cfg, log + [e], key)
  {
    var log' := log + [e];
    forall i | 0 <= i < |log'| && log'[i].key == key ensures Allowed(log'[..i], key, cfg(key), log'[i].time) {
      assert log'[..i] == log[..i];
      assert log[..|log|] == log;
    }
  }

  lemma {:induction false} HistoryLawful(cfg: Config, log: seq<Accepted>, es: seq<Event>, k: string)
    requires Lawful(cfg, log, k)
    ensures Lawful(cfg, History(cfg, log, es), k)
    decreases |es|
  {
    if es != [] {
      match es[0]
      case CleanUp(_) => HistoryLawful(cfg, log, es[1..], k);
      case Request(key, now) =>
        if Allowed(log, key, cfg(key), now) {
          LawfulPush(cfg, log, k, Accepted(key, now));
          HistoryLawful(cfg, log + [Accepted(key, now)], es[1..], k);
        } else {
          HistoryLawful(cfg, log, es[1..], k);
        }
    }
  }

  /** What the limiter accepts for a usable key is lawful, whatever the limits of the other keys. */
  lemma {:induction false} ServedLawful(cfg: Config, period: nat, store: Store, log: seq<Accepted>, clock: int, es: seq<Event>, k: string)
    requires KeyOk(cfg, store, log, clock, k) && Usable(cfg(k), period) && Lawful(cfg, log, k)
    requires Possible(period, es) && (es != [] ==> clock <= es[0].now)
    ensures Lawful(cfg, Served(cfg, Seconds(period), store, log, es), k)
    decreases |es|
  {
    if es != [] {
      var e, rest, x := es[0], es[1..], Seconds(period);
      FitsLater(Times(log, k), Queue(store, k), cfg(k), clock, e.now);
      StepKeepsKey(cfg, period, store, log, e, k);
      match e
      case CleanUp(now) => ServedLawful(cfg, period, Clean(store, x, now), log, now, rest, k);
      case Request(key, now) =>
        var (store', ok) := Ask(store, key, cfg(key), now);
        if ok {
          if key == k { AskIsAllowed(cfg, store, log, key, now); }
          LawfulPush(cfg, log, k, Accepted(key, now));
        }
        ServedLawful(cfg, period, store', if ok then log + [Accepted(key, now)] else log, now, rest, k);
    }
  }

  /** How many of the requests the limiter accepts on a run for a key fall into the window that starts at `lo`. */
  function InWindow(cfg: Config, period: nat, es: seq<Event>, key: string, lo: int): nat {
    Within(Served(cfg, Seconds(period), map[], [], es), key, lo, lo + cfg(key).duration)
  }

  /** Whatever is requested, no stretch of `duration` seconds holds more accepted requests for a usable key than its limit. */
  lemma NoWindowExceedsLimit(cfg: Config, period: nat, es: seq<Event>, key: string, lo: int)
    requires Possible(period, es) && Usable(cfg(key), period)
    ensures InWindow(cfg, period, es, key, lo) <= cfg(key).max
  {
    ServedLawful(cfg, period, map[], [], if es == [] then 0 else es[0].now, es, key);
    LawfulWindow(cfg, Served(cfg, Seconds(period), map[], [], es), key, lo);
  }

  /** On every run, no window of a key's requests holds more than its limit. */
  ghost predicate WindowsHold(cfg: Config, period: nat, key: string) {
    forall es: seq<Event>, lo: int :: Possible(period, es) ==> InWindow(cfg, period, es, key, lo) <= cfg(key).max
  }

  /** That is so exactly when the key's limit is usable, or its window empty and its limit not negative. */
  lemma WindowsHoldIff(cfg: Config, period: nat, key: string)
    ensures WindowsHold(cfg, period, key) <==> if cfg(key).duration >= 1 then Usable(cfg(key), period) else cfg(key).max >= 0
  {
    if cfg(key).duration < 1 {
      forall es: seq<Event>, lo: int ensures InWindow(cfg, period, es, key, lo) == 0 {
        EmptyWindow(Served(cfg, Seconds(period), map[], [], es), key, lo, lo + cfg(key).duration);
      }
      assert Possible(period, []) && InWindow(cfg, period, [], key, 0) == 0;
    } else if Usable(cfg(key), period) {
      forall es: seq<Event>, lo: int | Possible(period, es) ensures InWindow(cfg, period, es, key, lo) <= cfg(key).max {
        NoWindowExceedsLimit(cfg, period, es, key, lo);
      }
    } else if cfg(key).max < 1 {
      OneServed(cfg, Seconds(period), key);
      assert Possible(period, [Request(key, 0)]) && InWindow(cfg, period, [Request(key, 0)], key, 0) > cfg(key).max;
    } else {
      UsableInSeconds(cfg(key), period);
      TooManyServed(cfg, Seconds(period), key);
      OverflowPossible(cfg(key).max, period, key);
      assert InWindow(cfg, period, Overflow(cfg(key).max, Seconds(period), key), key, 0) > cfg(key).max;
    }
  }

  lemma {:induction false} EmptyWindow(log: seq<Accepted>, key: string, lo: int, hi: int)
    requires hi <= lo
    ensures Within(log, key, lo, hi) == 0
  {
    if log != [] { EmptyWindow(log[..|log| - 1], key, lo, hi); }
  }

  lemma OneServed(cfg: Config, expiration: nat, key: string)
    requires cfg(key).max < 1 <= cfg(key).duration
    ensures Within(Served(cfg, expiration, map[], [], [Request(key, 0)]), key, 0, cfg(key).duration) > cfg(key).max
  {
    assert [Request(key, 0)][1..] == [];
    var log := [Accepted(key, 0)];
    assert Served(cfg, expiration, map[], [], [Request(key, 0)]) == Served(cfg, expiration, map[key := [0]], [] + log, []);
    assert [] + log == log && log[..0] == [];
  }

  function Repeat<T>(x: T, n: nat): (r: seq<T>)
    ensures |r| == n && forall i :: 0 <= i < n ==> r[i] == x
  {
    seq(n, _ => x)
  }

  /** As many requests as the limit at once, then a clean-up that forgets them, then one more. */
  function Overflow(max: nat, expiration: nat, key: string): seq<Event> {
    Repeat(Request(key, 0), max) + [CleanUp(expiration + 1), Request(key, expiration + 1)]
  }

  lemma OverflowPossible(max: nat, period: nat, key: string)
    requires period > 0
    ensures Possible(period, Overflow(max, Seconds(period), key))
  {
    var es := Overflow(max, Seconds(period), key);
    forall i | 0 <= i < |es| ensures es[i].now == if i < max then 0 else Seconds(period) + 1 { }
  }

  /** The limiter after `k` requests at time 0. */
  function Filled(key: string, k: nat): Store { if k == 0 then map[] else map[key := Repeat(0, k)] }

  lemma FillStep(key: string, lim: Limit, k: nat)
    requires k < lim.max
    ensures Ask(Filled(key, k), key, lim, 0) == (Filled(key, k + 1), true)
  {
    if k == 0 {
      assert [0] == Repeat(0, 1);
    } else {
      assert Repeat(0, k) + [0] == Repeat(0, k + 1);
      assert Filled(key, k)[key := Repeat(0, k + 1)] == Filled(key, k + 1);
    }
  }

  /** Requests at once below the limit are all served. */
  lemma {:induction false} FillsUp(cfg: Config, expiration: nat, key: string, k: nat, n: nat, rest: seq<Event>)
    requires k + n <= cfg(key).max
    ensures Served(cfg, expiration, Filled(key, k), Repeat(Accepted(key, 0), k), Repeat(Request(key, 0), n) + rest)
            == Served(cfg, expiration, Filled(key, k + n), Repeat(Accepted(key, 0), k + n), rest)
    decreases n
  {
    var es := Repeat(Request(key, 0), n) + rest;
    if n == 0 {
      assert es == rest;
    } else {
      assert es[0] == Request(key, 0) && es[1..] == Repeat(Request(key, 0), n - 1) + rest;
      FillStep(key, cfg(key), k);
      assert Repeat(Accepted(key, 0), k) + [Accepted(key, 0)] == Repeat(Accepted(key, 0), k + 1);
      FillsUp(cfg, expiration, key, k + 1, n - 1, rest);
    }
  }

  lemma ServedAfterCleanUp(cfg: Config, expiration: nat, key: string, n: nat, log: seq<Accepted>)
    requires n >= 1
    ensures Served(cfg, expiration, Filled(key, n), log, [CleanUp(expiration + 1), Request(key, expiration + 1)])
            == log + [Accepted(key, expiration + 1)]
  {
    var t := expiration + 1;
    var es := [CleanUp(t), Request(key, t)];
    var store := Clean(Filled(key, n), expiration, t);
    assert es[1..] == [Request(key, t)] && [Request(key, t)][1..] == [];
    assert key !in store;
    assert Served(cfg, expiration, Filled(key, n), log, es) == Served(cfg, expiration, store, log, [Request(key, t)]);
    assert Served(cfg, expiration, store, log, [Request(key, t)]) == Served(cfg, expiration, store[key := [t]], log + [Accepted(key, t)], []);
  }

  lemma {:induction false} WithinRepeat(key: string, n: nat, hi: int)
    requires hi > 0
    ensures Within(Repeat(Accepted(key, 0), n), key, 0, hi) == n
  {
    if n > 0 {
      assert Repeat(Accepted(key, 0), n)[..n - 1] == Repeat(Accepted(key, 0), n - 1);
      WithinRepeat(key, n - 1, hi);
    }
  }

  /** A window longer than the clean-up period by more than a second lets one request too many through. */
  lemma TooManyServed(cfg: Config, expiration: nat, key: string)
    requires cfg(key).max >= 1 && cfg(key).duration > expiration + 1
    ensures Within(Served(cfg, expiration, map[], [], Overflow(cfg(key).max, expiration, key)), key, 0, 0 + cfg(key).duration) > cfg(key).max
  {
    var max, t := cfg(key).max, expiration + 1;
    FillsUp(cfg, expiration, key, 0, max, [CleanUp(t), Request(key, t)]);
    assert Repeat(Accepted(key, 0), 0) == [] && Filled(key, 0) == map[];
    var log := Repeat(Accepted(key, 0), max);
    ServedAfterCleanUp(cfg, expiration, key, max, log);
    WithinRepeat(key, max, cfg(key).duration);
    assert (log + [Accepted(key, t)])[..max] == log;
  }

  /** So the limiter does not answer as demanded: the specification's own log is lawful. */
  lemma ForgottenTooSoon(cfg: Config, period: nat, key: string)
    requires period > 0 && cfg(key).max >= 1 && cfg(key).duration > Seconds(period) + 1
    ensures !Faithful(cfg, period)
  {
    var es, x := Overflow(cfg(key).max, Seconds(period), key), Seconds(period);
    OverflowPossible(cfg(key).max, period, key);
    TooManyServed(cfg, x, key);
    HistoryLawful(cfg, [], es, key);
    LawfulWindow(cfg, History(cfg, [], es), key, 0);
    if Answers(cfg, x, map[], es) == Demanded(cfg, [], es) {
      SameAnswersSameLog(cfg, x, map[], [], es);
      assert false;
    }
  }

  // ----- The limiter as the program updates it -----

  class InMemoryRateLimiter {
    var store: Store
    const period: nat

    ghost predicate Valid()
      reads this
    {
      forall k :: k in store ==> store[k] != []
    }

    constructor (period: nat)
      ensures Valid() && store == map[] && this.period == period
    {
      store := map[];
      this.period := period;
    }

    method Request(key: string, maxRequestNum: int, duration: int, now: int) returns (ok: bool)
      requires Valid()
      modifies this
      ensures Valid()
      ensures (store, ok) == Ask(old(store), key, Limit(maxRequestNum, duration), now)
    {
      if key in store {
        var queue := store[key];
        if |queue| < maxRequestNum {
          store := store[key := queue + [now]];
          return true;
        }
        if now - queue[0] >= duration {
          store := store[key := queue[1..] + [now]];
          return true;
        }
        return false;
      }
      store := store[key := [now]];
      return true;
    }

    method ClearExpiredItems(now: int)
      requires Valid()
      modifies this
      ensures Valid()
      ensures store == Clean(old(store), Seconds(period), now)
    {
      var all, todo := store, store.Keys;
      while todo != {}
        invariant todo <= all.Keys && store.Keys <= all.Keys
        invariant forall k :: k in store ==> store[k] == all[k]
        invariant forall k :: k in all ==> (k in store <==> k in todo || !Stale(all[k], Seconds(period), now))
        decreases |todo|
      {
        var k :| k in todo;
        if Stale(all[k], Seconds(period), now) { store := store - {k}; }
        todo := todo - {k};
      }
    }
  }
}
