/**
 The verification-code store (common/verification.go) against a specification over
 the whole history: a code is accepted exactly when it is the one last registered
 for that key and purpose, has not been deleted since and is young enough.

 Times are in nanoseconds and a parameter of every operation.
 */
module Verification {
  import opened Wrappers

  datatype Value = Value(code: string, time: int)

  type Store = map<string, Value>

  const EMAIL_PURPOSE := "v"
  const RESET_PURPOSE := "r"
  const NANOSECONDS := 1_000_000_000

  /** The two sizes the program fixes: the validity in minutes and the size that triggers a sweep. */
  datatype Config = Config(validMinutes: int, maxSize: int)

  // ----- The implementation, as functions of the store -----

  /** `int(d.Seconds()) >= VerificationValidMinutes*60`, truncating towards zero */
  predicate Expired(cfg: Config, d: int) {
    (if d >= 0 then d / NANOSECONDS else -(-d / NANOSECONDS)) >= cfg.validMinutes * 60
  }

  /** `removeExpiredPairs` */
  function Sweep(cfg: Config, m: Store, now: int): Store {
    map k | k in m && !Expired(cfg, now - m[k].time) :: m[k]
  }

  /** `RegisterVerificationCodeWithKey` */
  function Register(cfg: Config, m: Store, key: string, code: string, purpose: string, now: int): Store {
    var m' := m[purpose + key := Value(code, now)];
    if |m'| > cfg.maxSize then Sweep(cfg, m', now) else m'
  }

  /** `VerifyCodeWithKey` */
  predicate Verify(cfg: Config, m: Store, key: string, code: string, purpose: string, now: int) {
    var k := purpose + key;
    k in m && !Expired(cfg, now - m[k].time) && code == m[k].code
  }

  /** `DeleteKey` */
  function Delete(m: Store, key: string, purpose: string): Store { m - {purpose + key} }

  // ----- The specification -----

  datatype Event =
    | Registered(key: string, purpose: string, code: string, now: int)
    | Deleted(key: string, purpose: string, now: int)
    | Asked(key: string, purpose: string, code: string, now: int)

  /** The latest registration for a key and purpose, unless it was deleted. */
  function Latest(h: seq<Event>, key: string, purpose: string): Option<Value> {
    if h == [] then None
    else
      var e := h[|h| - 1];
      if e.key == key && e.purpose == purpose && e.Registered? then Some(Value(e.code, e.now))
      else if e.key == key && e.purpose == purpose && e.Deleted? then None
      else Latest(h[..|h| - 1], key, purpose)
  }

  /** The code last registered, and younger than the validity, to the nanosecond. */
  predicate Valid(cfg: Config, h: seq<Event>, key: string, purpose: string, code: string, now: int) {
    var v := Latest(h, key, purpose);
    v.Some? && v.value.code == code && now - v.value.time < cfg.validMinutes * 60 * 1_000_000_000
  }

  // ----- Runs -----

  function After(cfg: Config, m: Store, e: Event): Store {
    match e
    case Registered(key, purpose, code, now) => Register(cfg, m, key, code, purpose, now)
    case Deleted(key, purpose, _) => Delete(m, key, purpose)
    case Asked(_, _, _, _) => m
  }

  function Run(cfg: Config, h: seq<Event>): Store {
    if h == [] then map[] else After(cfg, Run(cfg, h[..|h| - 1]), h[|h| - 1])
  }

  /** The program only uses its two purposes. */
  predicate Proper(e: Event) { e.purpose == EMAIL_PURPOSE || e.purpose == RESET_PURPOSE }

  /** A history with proper purposes in which the clock never goes back. */
  ghost predicate History(h: seq<Event>) {
    && (forall i :: 0 <= i < |h| ==> Proper(h[i]))
    && (forall i, j :: 0 <= i < j < |h| ==> h[i].now <= h[j].now)
  }

  /** The two purposes never share an entry, whatever the keys. */
  lemma PrefixesNeverCollide(key: string, purpose: string, key': string, purpose': string)
    requires purpose in {EMAIL_PURPOSE, RESET_PURPOSE} && purpose' in {EMAIL_PURPOSE, RESET_PURPOSE}
    ensures purpose + key == purpose' + key' <==> purpose == purpose' && key == key'
  {
    if purpose + key == purpose' + key' {
      assert (purpose + key)[0] == purpose[0] && (purpose' + key')[0] == purpose'[0];
      assert (purpose + key)[1..] == key && (purpose' + key')[1..] == key';
    }
  }

  /** Other purposes could: the entry does not record where the purpose ends. */
  lemma OtherPrefixesCollide(key: string)
    ensures EMAIL_PURPOSE + (RESET_PURPOSE + key) == (EMAIL_PURPOSE + RESET_PURPOSE) + key
  { }

  /** The store holds the latest registration, or that has expired. */
  predicate EntryOk(cfg: Config, m: Store, h: seq<Event>, now: int, key: string, purpose: string) {
    var k, v := purpose + key, Latest(h, key, purpose);
    if k in m then v == Some(m[k]) else v.Some? ==> Expired(cfg, now - v.value.time)
  }

  ghost predicate Inv(cfg: Config, m: Store, h: seq<Event>, now: int) {
    forall key, purpose {:trigger EntryOk(cfg, m, h, now, key, purpose)} ::
      purpose in {EMAIL_PURPOSE, RESET_PURPOSE} ==> EntryOk(cfg, m, h, now, key, purpose)
  }

  lemma ExpiredStays(cfg: Config, d: int, d': int)
    requires Expired(cfg, d) && d <= d'
    ensures Expired(cfg, d')
  { }

  /** Truncating to seconds does not matter: a code expires when its age reaches the validity. */
  lemma ExpiredIff(cfg: Config, d: int)
    requires d >= 0
    ensures Expired(cfg, d) <==> d >= cfg.validMinutes * 60 * 1_000_000_000
  {
    assert d == (d / NANOSECONDS) * NANOSECONDS + d % NANOSECONDS;
  }

  lemma {:induction false} LatestTime(h: seq<Event>, key: string, purpose: string, now: int)
    requires forall i :: 0 <= i < |h| ==> h[i].now <= now
    ensures Latest(h, key, purpose).Some? ==> Latest(h, key, purpose).value.time <= now
  {
    if h != [] { LatestTime(h[..|h| - 1], key, purpose, now); }
  }

  /** What an event does to the entry of a key and purpose, before any sweep. */
  lemma LatestStep(h: seq<Event>, e: Event, key: string, purpose: string)
    ensures var v := Latest(h + [e], key, purpose);
            if e.Asked? || e.key != key || e.purpose != purpose then v == Latest(h, key, purpose)
            else if e.Registered? then v == Some(Value(e.code, e.now)) else v == None
  {
    assert (h + [e])[..|h|] == h;
  }

  lemma StepKeepsInv(cfg: Config, m: Store, h: seq<Event>, now: int, e: Event)
    requires Inv(cfg, m, h, now) && Proper(e) && now <= e.now
    ensures Inv(cfg, After(cfg, m, e), h + [e], e.now)
  {
    var m' := After(cfg, m, e);
    Wait(cfg, m, h, now, e.now);
    forall key, purpose | purpose in {EMAIL_PURPOSE, RESET_PURPOSE} ensures EntryOk(cfg, m', h + [e], e.now, key, purpose) {
      assert EntryOk(cfg, m, h, e.now, key, purpose);
      LatestStep(h, e, key, purpose);
      PrefixesNeverCollide(key, purpose, e.key, e.purpose);
    }
  }

  lemma EmptyInv(cfg: Config, now: int)
    ensures Inv(cfg, map[], [], now)
  { }

  lemma {:induction false} RunInv(cfg: Config, h: seq<Event>, now: int)
    requires History(h) && (h != [] ==> h[|h| - 1].now <= now)
    ensures Inv(cfg, Run(cfg, h), h, now)
  {
    if h == [] {
      EmptyInv(cfg, now);
    } else {
      var init, e := h[..|h| - 1], h[|h| - 1];
      HistoryInit(h);
      RunInv(cfg, init, e.now);
      StepKeepsInv(cfg, Run(cfg, init), init, e.now, e);
      Wait(cfg, Run(cfg, h), h, e.now, now);
    }
  }

  lemma HistoryInit(h: seq<Event>)
    requires History(h) && h != []
    ensures var init, e := h[..|h| - 1], h[|h| - 1];
            History(init) && (init != [] ==> init[|init| - 1].now <= e.now) && Proper(e) && init + [e] == h
  { }

  lemma Wait(cfg: Config, m: Store, h: seq<Event>, now: int, now': int)
    requires Inv(cfg, m, h, now) && now <= now'
    ensures Inv(cfg, m, h, now')
  {
    forall key, purpose | purpose in {EMAIL_PURPOSE, RESET_PURPOSE} ensures EntryOk(cfg, m, h, now', key, purpose) {
      assert EntryOk(cfg, m, h, now, key, purpose);
      var v := Latest(h, key, purpose);
      if v.Some? && Expired(cfg, now - v.value.time) { ExpiredStays(cfg, now - v.value.time, now' - v.value.time); }
    }
  }

  // ----- The theorems -----

  /** After every history, a code is accepted exactly when the specification says so. */
  lemma VerifyIsValid(cfg: Config, h: seq<Event>, key: string, purpose: string, code: string, now: int)
    requires History(h + [Asked(key, purpose, code, now)])
    ensures Verify(cfg, Run(cfg, h), key, code, purpose, now) <==> Valid(cfg, h, key, purpose, code, now)
  {
    var all := h + [Asked(key, purpose, code, now)];
    assert forall i :: 0 <= i < |h| ==> all[i] == h[i];
    assert Proper(all[|h|]) && (h != [] ==> all[|h| - 1].now <= all[|h|].now);
    RunInv(cfg, h, now);
    assert EntryOk(cfg, Run(cfg, h), h, now, key, purpose);
    assert forall i :: 0 <= i < |h| ==> all[i].now <= all[|h|].now;
    LatestTime(h, key, purpose, now);
    var v := Latest(h, key, purpose);
    if v.Some? { ExpiredIff(cfg, now - v.value.time); }
  }

  /** Sweeping changes no answer: whatever size triggers it, the same codes are accepted. */
  lemma SweepingIsInvisible(minutes: int, size: int, size': int, h: seq<Event>, key: string, purpose: string, code: string, now: int)
    requires History(h + [Asked(key, purpose, code, now)])
    ensures Verify(Config(minutes, size), Run(Config(minutes, size), h), key, code, purpose, now)
            <==> Verify(Config(minutes, size'), Run(Config(minutes, size'), h), key, code, purpose, now)
  {
    VerifyIsValid(Config(minutes, size), h, key, purpose, code, now);
    VerifyIsValid(Config(minutes, size'), h, key, purpose, code, now);
  }

  // ----- The store as the program updates it -----

  class VerificationMap {
    var entries: Store
    const cfg: Config

    constructor (cfg: Config)
      ensures entries == map[] && this.cfg == cfg
    {
      entries := map[];
      this.cfg := cfg;
    }

    method RegisterCode(key: string, code: string, purpose: string, now: int)
      modifies this
      ensures entries == Register(cfg, old(entries), key, code, purpose, now)
    {
      entries := entries[purpose + key := Value(code, now)];
      if |entries| > cfg.maxSize { RemoveExpiredPairs(now); }
    }

    method VerifyCode(key: string, code: string, purpose: string, now: int) returns (ok: bool)
      ensures ok <==> Verify(cfg, entries, key, code, purpose, now)
    {
      var k := purpose + key;
      if k !in entries || Expired(cfg, now - entries[k].time) { return false; }
      return code == entries[k].code;
    }

    method DeleteKey(key: string, purpose: string)
      modifies this
      ensures entries == Delete(old(entries), key, purpose)
    {
      entries := entries - {purpose + key};
    }

    method RemoveExpiredPairs(now: int)
      modifies this
      ensures entries == Sweep(cfg, old(entries), now)
    {
      var all, todo := entries, entries.Keys;
      while todo != {}
        invariant todo <= all.Keys && entries.Keys <= all.Keys
        invariant forall k :: k in entries ==> entries[k] == all[k]
        invariant forall k :: k in all ==> (k in entries <==> k in todo || !Expired(cfg, now - all[k].time))
        decreases |todo|
      {
        var k :| k in todo;
        if Expired(cfg, now - all[k].time) { entries := entries - {k}; }
        todo := todo - {k};
      }
    }
  }
}
