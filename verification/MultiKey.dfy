/**
 Multi-key channel management (`ManageMultiKeys` in controller/channel.go): three
 sparse maps indexed by key position, re-indexed when keys are deleted.

 The key text is kept as the list of lines it is read as, and a nil map as an empty one.
 Every action is a function of the channel, applied by a method of `Channel`; it ends with
 `Update`, which stores the text, reads it again and recomputes the size.
 */
module MultiKey {
  import opened Wrappers
  import opened Lists
  import Text

  const ENABLED := 1
  const MANUAL := 2
  const AUTO := 3

  /** The keys and `ChannelInfo`; positions without an entry are enabled. */
  datatype Info = Info(keys: seq<string>, size: int, status: map<int, int>, time: map<int, int>, reason: map<int, string>)

  function StatusOf(c: Info, i: int): int { if i in c.status then c.status[i] else ENABLED }

  // ----- What get_key_status shows -----

  datatype KeyStatus = KeyStatus(key: string, status: int, time: int, reason: string)

  function Entry(c: Info, i: int): KeyStatus
    requires 0 <= i < |c.keys|
  {
    var s := StatusOf(c, i);
    KeyStatus(c.keys[i], s,
              if s != ENABLED && i in c.time then c.time[i] else 0,
              if s != ENABLED && i in c.reason then c.reason[i] else "")
  }

  function View(c: Info): (v: seq<KeyStatus>)
    ensures |v| == |c.keys| && forall i :: 0 <= i < |v| ==> v[i] == Entry(c, i)
  {
    seq(|c.keys|, i requires 0 <= i < |c.keys| => Entry(c, i))
  }

  // ----- Storing the channel -----

  /** The keys are stored as lines and read by `GetKeys`; JSON arrays apart. */
  function WriteKeys(keys: seq<string>): string { Text.JoinWith('\n', keys) }

  function ReadKeys(text: string): seq<string> { Text.SplitOn('\n', text) }

  function Below<V>(m: map<int, V>, n: int): map<int, V> { map i | i in m && i < n :: m[i] }

  /** `Update` of a channel whose key text is as it was: the size is recomputed and the status map cut. */
  function Saved(c: Info): Info { c.(size := |c.keys|, status := Below(c.status, |c.keys|)) }

  /** `Update` of channel `c` rewritten as `r`: an empty key text is not written, so the old keys stay. */
  function Stored(c: Info, r: Info): Info {
    var text := WriteKeys(r.keys);
    Saved(r.(keys := if text == "" then c.keys else ReadKeys(text)))
  }

  // ----- The actions; a refused action changes nothing -----

  function DisableKey(c: Info, i: int): Info {
    if 0 <= i < c.size then Saved(c.(status := c.status[i := MANUAL])) else c
  }

  function EnableKey(c: Info, i: int): Info {
    if 0 <= i < c.size then Saved(c.(status := c.status - {i}, time := c.time - {i}, reason := c.reason - {i})) else c
  }

  function EnableAll(c: Info): Info { Saved(c.(status := map[], time := map[], reason := map[])) }

  /** `disable_all_keys`, refused when there is none to disable. */
  function DisableAll(c: Info): Info {
    var n := if c.size < 0 then 0 else c.size;
    if EnabledBelow(c, n) == 0 then c else Saved(c.(status := DisableUpTo(c, n)))
  }

  /** The status map once the enabled keys below `n` are disabled. */
  function DisableUpTo(c: Info, n: nat): map<int, int> {
    if n == 0 then c.status
    else
      var st := DisableUpTo(c, n - 1);
      if StatusOf(c, n - 1) == ENABLED then st[n - 1 := MANUAL] else st
  }

  /** Exactly the enabled keys become manually disabled. */
  lemma {:induction false} DisableSpec(c: Info, n: nat, i: int)
    ensures var st := DisableUpTo(c, n);
            && (i in st <==> i in c.status || 0 <= i < n)
            && (i in st ==> st[i] == if 0 <= i < n && StatusOf(c, i) == ENABLED then MANUAL else c.status[i])
  {
    if n > 0 { DisableSpec(c, n - 1, i); }
  }

  /** One turn of the deletion loops: position `i` is copied behind what is kept so far. */
  function Carry(r: Info, keys: seq<string>, st: map<int, int>, tm: map<int, int>, rs: map<int, string>, i: int): Info {
    Info(r.keys + (if 0 <= i < |keys| then [keys[i]] else []), r.size + 1,
         if i in st then r.status[r.size := st[i]] else r.status,
         if i in tm then r.time[r.size := tm[i]] else r.time,
         if i in rs then r.reason[r.size := rs[i]] else r.reason)
  }

  const NOTHING := Info([], 0, map[], map[], map[])

  /** The channel the deletion loops build by carrying over the positions `k`. */
  function Rebuild(keys: seq<string>, st: map<int, int>, tm: map<int, int>, rs: map<int, string>, k: seq<int>): Info {
    if k == [] then NOTHING else Carry(Rebuild(keys, st, tm, rs, k[..|k| - 1]), keys, st, tm, rs, k[|k| - 1])
  }

  lemma RebuildNext(keys: seq<string>, st: map<int, int>, tm: map<int, int>, rs: map<int, string>, k: seq<int>, i: int)
    ensures Rebuild(keys, st, tm, rs, k + [i]) == Carry(Rebuild(keys, st, tm, rs, k), keys, st, tm, rs, i)
  {
    assert (k + [i])[..|k|] == k;
  }

  /** `m'` has at position `j` what `m` has at position `k[j]`. */
  ghost predicate Reindexed<V>(m: map<int, V>, m': map<int, V>, k: seq<int>) {
    && (forall j :: j in m' ==> 0 <= j < |k|)
    && (forall j :: 0 <= j < |k| ==> (j in m' <==> k[j] in m) && (j in m' ==> m'[j] == m[k[j]]))
  }

  /** The rebuilt channel has exactly the chosen positions, in order. */
  lemma {:induction false} RebuildSpec(keys: seq<string>, st: map<int, int>, tm: map<int, int>, rs: map<int, string>, k: seq<int>)
    requires forall j :: 0 <= j < |k| ==> 0 <= k[j] < |keys|
    ensures var r := Rebuild(keys, st, tm, rs, k);
            && r.size == |r.keys| == |k| && (forall j :: 0 <= j < |k| ==> r.keys[j] == keys[k[j]])
            && Reindexed(st, r.status, k) && Reindexed(tm, r.time, k) && Reindexed(rs, r.reason, k)
  {
    if k != [] {
      var init, i := k[..|k| - 1], k[|k| - 1];
      RebuildSpec(keys, st, tm, rs, init);
      var r := Rebuild(keys, st, tm, rs, init);
      ReindexedNext(st, r.status, init, i);
      ReindexedNext(tm, r.time, init, i);
      ReindexedNext(rs, r.reason, init, i);
      assert init + [i] == k;
      assert Rebuild(keys, st, tm, rs, k) == Carry(r, keys, st, tm, rs, i);
      forall j | 0 <= j < |k| ensures (r.keys + [keys[i]])[j] == keys[k[j]] { if j < |init| { assert init[j] == k[j]; } }
    }
  }

  lemma RebuildSize(keys: seq<string>, st: map<int, int>, tm: map<int, int>, rs: map<int, string>, k: seq<int>)
    requires forall j :: 0 <= j < |k| ==> 0 <= k[j] < |keys|
    ensures Rebuild(keys, st, tm, rs, k).size == |Rebuild(keys, st, tm, rs, k).keys| == |k|
    ensures k == [] ==> Rebuild(keys, st, tm, rs, k) == NOTHING
  {
    RebuildSpec(keys, st, tm, rs, k);
  }

  lemma ReindexedNext<V>(m: map<int, V>, m': map<int, V>, k: seq<int>, i: int)
    requires Reindexed(m, m', k)
    ensures Reindexed(m, if i in m then m'[|k| := m[i]] else m', k + [i])
  { }

  /** The entries of a sparse map at positions that are not enabled. */
  function OfDisabled<V>(c: Info, m: map<int, V>): map<int, V> {
    map i | i in m && StatusOf(c, i) != ENABLED :: m[i]
  }

  /** The positions below `n` other than `i`. */
  function Others(i: int, n: nat): (k: seq<int>)
    ensures |k| == if 0 <= i < n then n - 1 else n
    ensures forall j :: 0 <= j < |k| ==> k[j] == From(i, j) && 0 <= k[j] < n
  {
    if n == 0 then [] else Others(i, n - 1) + if n - 1 == i then [] else [n - 1]
  }

  /** Where position `j` came from, once position `i` is gone. */
  function From(i: int, j: int): int { if 0 <= i <= j then j + 1 else j }

  /** `delete_key`; the last key is not deleted. */
  function DeleteKey(c: Info, i: int): Info {
    var k := Others(i, |c.keys|);
    if !(0 <= i < c.size) || k == [] then c else Stored(c, Rebuild(c.keys, OfDisabled(c, c.status), c.time, c.reason, k))
  }

  /** The positions below `n` that bulk deletion keeps. */
  function Kept(c: Info, n: nat): (k: seq<int>)
    ensures |k| <= n && forall j :: 0 <= j < |k| ==> 0 <= k[j] < n && StatusOf(c, k[j]) != AUTO
  {
    if n == 0 then [] else Kept(c, n - 1) + if StatusOf(c, n - 1) == AUTO then [] else [n - 1]
  }

  /** `delete_disabled_keys` */
  function DeleteDisabled(c: Info): Info {
    var k := Kept(c, |c.keys|);
    if |k| == |c.keys| then c
    else Stored(c, Rebuild(c.keys, OfDisabled(c, c.status), OfDisabled(c, c.time), OfDisabled(c, c.reason), k))
  }

  /** The first position of a key, if it has one. */
  function Find(keys: seq<string>, key: string): (i: int)
    ensures -1 <= i < |keys|
    ensures i >= 0 ==> keys[i] == key
    ensures key in keys <==> i >= 0
  {
    if keys == [] then -1
    else if keys[0] == key then 0
    else
      var i := Find(keys[1..], key);
      if i < 0 then -1 else i + 1
  }

  /** A relay request reports on the key it used (`handlerMultiKeyUpdate` in model/channel.go). */
  function Report(c: Info, key: string, status: int, reason: string, now: int): Info {
    var i := Find(c.keys, key);
    if i < 0 then c
    else if status == ENABLED then c.(status := c.status - {i})
    else c.(status := c.status[i := status], time := c.time[i := now], reason := c.reason[i := reason])
  }

  /** How many of the first `n` positions are enabled. */
  function EnabledBelow(c: Info, n: nat): nat {
    if n == 0 then 0 else EnabledBelow(c, n - 1) + if StatusOf(c, n - 1) == ENABLED then 1 else 0
  }

  /** The loop of `disable_all_keys`. */
  method MarkManual(c: Info) returns (status: map<int, int>, disabled: nat)
    ensures status == DisableUpTo(c, if c.size < 0 then 0 else c.size)
    ensures disabled == EnabledBelow(c, if c.size < 0 then 0 else c.size)
  {
    status, disabled := c.status, 0;
    var i := 0;
    while i < c.size
      invariant 0 <= i && (i <= c.size || i == 0)
      invariant status == DisableUpTo(c, i)
      invariant disabled == EnabledBelow(c, i)
    {
      assert DisableUpTo(c, i + 1) == if StatusOf(c, i) == ENABLED then status[i := MANUAL] else status;
      if StatusOf(c, i) == ENABLED {
        status := status[i := MANUAL];
        disabled := disabled + 1;
      }
      i := i + 1;
    }
  }

  // ----- What every run keeps -----

  /** Lines as they are read from a text: at the ends none is empty, unless it is the only one. */
  ghost predicate Readable(keys: seq<string>) {
    && (forall k :: k in keys ==> '\n' !in k)
    && (keys == [] || keys == [""] || (keys[0] != "" && keys[|keys| - 1] != ""))
  }

  lemma ReadKeysReadable(text: string)
    ensures Readable(ReadKeys(text))
  {
    if text != "" { Text.SplitFromNone('\n', "", Text.TrimChar('\n', text)); }
    Text.ReadEnds('\n', text);
  }

  predicate Known(status: int) { status == ENABLED || status == MANUAL || status == AUTO }

  /** The size is the number of keys, and the status map is about keys there are. */
  ghost predicate Sane(c: Info) {
    && Readable(c.keys) && c.size == |c.keys|
    && (forall i :: i in c.status ==> 0 <= i < c.size && Known(c.status[i]))
  }

  /** All three maps are about keys there are. */
  ghost predicate Valid(c: Info) {
    && Sane(c)
    && (forall i :: i in c.time ==> 0 <= i < c.size)
    && (forall i :: i in c.reason ==> 0 <= i < c.size)
  }

  datatype Action =
    | Disable(i: int) | Enable(i: int) | EnablingAll | DisablingAll | Delete(i: int) | DeletingDisabled
    | Reporting(key: string, status: int, why: string, now: int)

  /** What the program reports a key as. */
  predicate Sensible(a: Action) { a.Reporting? ==> Known(a.status) }

  function Act(c: Info, a: Action): Info {
    match a
    case Disable(i) => DisableKey(c, i)
    case Enable(i) => EnableKey(c, i)
    case EnablingAll => EnableAll(c)
    case DisablingAll => DisableAll(c)
    case Delete(i) => DeleteKey(c, i)
    case DeletingDisabled => DeleteDisabled(c)
    case Reporting(key, status, why, now) => Report(c, key, status, why, now)
  }

  function Run(c: Info, acts: seq<Action>): Info
    decreases |acts|
  {
    if acts == [] then c else Run(Act(c, acts[0]), acts[1..])
  }

  ghost predicate AllSensible(acts: seq<Action>) { forall i :: 0 <= i < |acts| ==> Sensible(acts[i]) }

  /** The rebuilt channel, before it is stored. */
  lemma RebuiltValid(keys: seq<string>, st: map<int, int>, tm: map<int, int>, rs: map<int, string>, k: seq<int>)
    requires forall j :: 0 <= j < |k| ==> 0 <= k[j] < |keys|
    requires forall i :: i in st ==> Known(st[i])
    ensures var r := Rebuild(keys, st, tm, rs, k);
            && r.size == |r.keys| == |k|
            && (forall j :: j in r.status ==> 0 <= j < |k| && Known(r.status[j]))
            && (forall j :: j in r.time ==> 0 <= j < |k|) && (forall j :: j in r.reason ==> 0 <= j < |k|)
            && (forall x :: x in r.keys ==> x in keys)
  {
    RebuildSpec(keys, st, tm, rs, k);
    var r := Rebuild(keys, st, tm, rs, k);
    forall j | j in r.status ensures Known(r.status[j]) { assert r.status[j] == st[k[j]]; }
    forall x | x in r.keys ensures x in keys { var j :| 0 <= j < |r.keys| && r.keys[j] == x; assert x == keys[k[j]]; }
  }

  lemma StoredSane(c: Info, r: Info)
    requires Readable(c.keys) && forall i :: i in r.status ==> 0 <= i && Known(r.status[i])
    ensures Sane(Stored(c, r))
  {
    ReadKeysReadable(WriteKeys(r.keys));
  }

  lemma DisableAllSane(c: Info)
    requires Sane(c)
    ensures Sane(DisableAll(c))
  {
    var st := DisableUpTo(c, c.size);
    forall i | i in st ensures 0 <= i < c.size && Known(st[i]) { DisableSpec(c, c.size, i); }
  }

  lemma ActSane(c: Info, a: Action)
    requires Sane(c) && Sensible(a)
    ensures Sane(Act(c, a))
  {
    if a.DisablingAll? {
      DisableAllSane(c);
    } else if a.Delete? && Act(c, a) != c {
      RebuiltValid(c.keys, OfDisabled(c, c.status), c.time, c.reason, Others(a.i, |c.keys|));
      StoredSane(c, Rebuild(c.keys, OfDisabled(c, c.status), c.time, c.reason, Others(a.i, |c.keys|)));
    } else if a.DeletingDisabled? && Act(c, a) != c {
      var st, tm, rs := OfDisabled(c, c.status), OfDisabled(c, c.time), OfDisabled(c, c.reason);
      RebuiltValid(c.keys, st, tm, rs, Kept(c, |c.keys|));
      StoredSane(c, Rebuild(c.keys, st, tm, rs, Kept(c, |c.keys|)));
    }
  }

  /** Over every run of actions the size is the number of keys and the status map about keys there are. */
  lemma {:induction false} RunSane(c: Info, acts: seq<Action>)
    requires Sane(c) && AllSensible(acts)
    ensures Sane(Run(c, acts))
    decreases |acts|
  {
    if acts != [] {
      ActSane(c, acts[0]);
      RunSane(Act(c, acts[0]), acts[1..]);
    }
  }

  // ----- When the times and reasons stay in range too -----

  /** Keys none of which is empty, or a single one. */
  predicate Solid(keys: seq<string>) { "" !in keys || keys == [""] }

  /** Lines that are stored and read again as they are. */
  predicate Lasting(keys: seq<string>) { keys != [] && keys[0] != "" && keys[|keys| - 1] != "" }

  lemma LastingReadBack(keys: seq<string>)
    requires keys != [] && forall k :: k in keys ==> '\n' !in k
    ensures WriteKeys(keys) != "" && ReadKeys(WriteKeys(keys)) == keys <==> Lasting(keys)
  {
    Text.JoinEnds('\n', keys);
    Text.ReadBackIff('\n', keys);
  }

  /** A lasting channel is stored as it is. */
  lemma StoredExactly(c: Info, r: Info)
    requires Lasting(r.keys) && (forall k :: k in r.keys ==> '\n' !in k)
    requires r.size == |r.keys| && forall i :: i in r.status ==> i < r.size
    ensures Stored(c, r) == r
  {
    LastingReadBack(r.keys);
    assert Below(r.status, r.size) == r.status;
  }

  lemma StoredNothing(c: Info)
    ensures Stored(c, NOTHING) == Info(c.keys, |c.keys|, map[], map[], map[])
  {
    assert Below<int>(map[], |c.keys|) == map[];
  }

  /** Deleting from solid keys leaves lasting keys, or none. */
  lemma SolidStored(c: Info, st: map<int, int>, tm: map<int, int>, rs: map<int, string>, k: seq<int>)
    requires Valid(c) && "" !in c.keys && (forall i :: i in st ==> Known(st[i])) && forall j :: 0 <= j < |k| ==> 0 <= k[j] < |c.keys|
    ensures var d := Stored(c, Rebuild(c.keys, st, tm, rs, k)); Valid(d) && "" !in d.keys
  {
    var r := Rebuild(c.keys, st, tm, rs, k);
    RebuiltValid(c.keys, st, tm, rs, k);
    if k == [] {
      StoredNothing(c);
    } else {
      assert r.keys[0] in r.keys && r.keys[|r.keys| - 1] in r.keys;
      StoredExactly(c, r);
    }
  }

  lemma DeleteValid(c: Info, i: int)
    requires Valid(c) && Solid(c.keys)
    ensures Valid(DeleteKey(c, i)) && Solid(DeleteKey(c, i).keys)
  {
    if DeleteKey(c, i) != c { SolidStored(c, OfDisabled(c, c.status), c.time, c.reason, Others(i, |c.keys|)); }
  }

  lemma DeleteDisabledValid(c: Info)
    requires Valid(c) && Solid(c.keys)
    ensures Valid(DeleteDisabled(c)) && Solid(DeleteDisabled(c).keys)
  {
    var k := Kept(c, |c.keys|);
    if c.keys == [""] {
      if k == [] { StoredNothing(c); }
    } else if |k| != |c.keys| {
      SolidStored(c, OfDisabled(c, c.status), OfDisabled(c, c.time), OfDisabled(c, c.reason), k);
    }
  }

  lemma ActValid(c: Info, a: Action)
    requires Valid(c) && Solid(c.keys) && Sensible(a)
    ensures Valid(Act(c, a)) && Solid(Act(c, a).keys)
  {
    match a
    case DisablingAll => DisableAllSane(c);
    case Delete(i) => DeleteValid(c, i);
    case DeletingDisabled => DeleteDisabledValid(c);
    case _ =>
  }

  lemma {:induction false} SolidRunValid(c: Info, acts: seq<Action>)
    requires Valid(c) && Solid(c.keys) && AllSensible(acts)
    ensures Valid(Run(c, acts))
    decreases |acts|
  {
    if acts != [] {
      ActValid(c, acts[0]);
      SolidRunValid(Act(c, acts[0]), acts[1..]);
    }
  }

  /** Deleting the last key moves no other, and may take empty lines before it along. */
  lemma DeleteLast(c: Info) returns (m: nat)
    requires Sane(c) && |c.keys| > 1
    ensures var d := DeleteKey(c, |c.keys| - 1);
            && 1 <= m < |c.keys| && d.keys == c.keys[..m] && d.size == m
            && forall i :: 0 <= i < |c.keys| - 1 && i in c.time ==> i in d.time
  {
    var n := |c.keys| - 1;
    var k := Others(n, |c.keys|);
    var r := Rebuild(c.keys, OfDisabled(c, c.status), c.time, c.reason, k);
    RestKeys(c, n);
    assert Without(c.keys, n) == c.keys[..n];
    m := ShortenedKeys(c.keys[..n]);
    assert c.keys[..n][..m] == c.keys[..m];
    RebuildSpec(c.keys, OfDisabled(c, c.status), c.time, c.reason, k);
    forall i | 0 <= i < n && i in c.time ensures i in r.time { assert k[i] == i; }
  }

  lemma ShortenedKeys(keys: seq<string>) returns (m: nat)
    requires keys != [] && keys[0] != "" && forall k :: k in keys ==> '\n' !in k
    ensures 1 <= m <= |keys| && WriteKeys(keys) != "" && ReadKeys(WriteKeys(keys)) == keys[..m]
  {
    m := Text.ReadBackPrefix('\n', keys);
    Text.JoinEnds('\n', keys);
  }

  /** A time noted for an empty line is left behind once the keys after it are deleted. */
  lemma {:induction false} LeftBehind(c: Info, e: nat) returns (acts: seq<Action>)
    requires Sane(c) && e < |c.keys| && |c.keys| > 1 && c.keys[e] == "" && e in c.time
    ensures AllSensible(acts) && !Valid(Run(c, acts))
    decreases |c.keys|
  {
    var a := Delete(|c.keys| - 1);
    var m := DeleteLast(c);
    ActSane(c, a);
    var d := Act(c, a);
    assert e in d.time;
    if m <= e {
      acts := [a];
      assert acts[1..] == [] && Run(d, []) == d;
    } else {
      assert m > 1 by { assert d.keys[0] == c.keys[0] != ""; }
      var rest := LeftBehind(d, e);
      acts := [a] + rest;
      assert acts[1..] == rest;
    }
  }

  /** Every run from this channel keeps all indices below the key count. */
  ghost predicate AlwaysValid(c: Info) { forall acts :: AllSensible(acts) ==> Valid(Run(c, acts)) }

  /** That is so exactly when none of its keys is an empty line, or that is its only key. */
  lemma RunValidIff(c: Info)
    requires Valid(c)
    ensures AlwaysValid(c) <==> Solid(c.keys)
  {
    if Solid(c.keys) {
      forall acts | AllSensible(acts) ensures Valid(Run(c, acts)) { SolidRunValid(c, acts); }
    } else {
      var a := Reporting("", AUTO, "", 0);
      var e := Find(c.keys, "");
      ActSane(c, a);
      var rest := LeftBehind(Act(c, a), e);
      var acts := [a] + rest;
      assert acts[1..] == rest;
      assert AllSensible(acts) && !Valid(Run(c, acts));
    }
  }

  // ----- What each action shows -----

  /** A channel freshly read, with nothing noted, shows its keys as enabled (1). */
  lemma NothingNotedView(keys: seq<string>, i: int)
    requires 0 <= i < |keys|
    ensures View(Info(keys, |keys|, map[], map[], map[]))[i] == KeyStatus(keys[i], 1, 0, "")
  { }

  /** Two channels show the same everywhere but at one position. */
  ghost predicate SameButAt(c: Info, d: Info, i: int) {
    |View(d)| == |View(c)| && forall j :: 0 <= j < |View(c)| && j != i ==> View(d)[j] == View(c)[j]
  }

  /** A key disabled by hand is shown as such (2), and the rest as before. */
  lemma DisableKeyView(c: Info, i: int)
    requires Sane(c) && 0 <= i < |c.keys|
    ensures var d := DisableKey(c, i); SameButAt(c, d, i) && View(d)[i].key == c.keys[i] && View(d)[i].status == 2
  {
    forall j | 0 <= j < |c.keys| && j != i ensures Entry(DisableKey(c, i), j) == Entry(c, j) { }
  }

  /** A key enabled is shown as new, and the rest as before. */
  lemma EnableKeyView(c: Info, i: int)
    requires Sane(c) && 0 <= i < |c.keys|
    ensures SameButAt(c, EnableKey(c, i), i) && View(EnableKey(c, i))[i] == KeyStatus(c.keys[i], 1, 0, "")
  {
    forall j | 0 <= j < |c.keys| && j != i ensures Entry(EnableKey(c, i), j) == Entry(c, j) { }
  }

  /** What was noted of a key is forgotten when it is enabled: disabled by hand later, it has no time and no reason. */
  lemma EnablingForgets(c: Info, i: int)
    requires Sane(c) && 0 <= i < |c.keys|
    ensures View(DisableKey(EnableKey(c, i), i))[i] == KeyStatus(c.keys[i], 2, 0, "")
    ensures View(DisableKey(EnableAll(c), i))[i] == KeyStatus(c.keys[i], 2, 0, "")
  { }

  /** Enabling all shows every key as new. */
  lemma EnableAllView(c: Info, i: int)
    requires 0 <= i < |c.keys|
    ensures |View(EnableAll(c))| == |c.keys| && View(EnableAll(c))[i] == KeyStatus(c.keys[i], 1, 0, "")
  { }

  /** Disabling all turns just the enabled keys into keys disabled by hand. */
  lemma DisableAllView(c: Info, i: int)
    requires Sane(c) && 0 <= i < |c.keys|
    ensures var v, w := View(c), View(DisableAll(c));
            && |w| == |v| && w[i].key == v[i].key && w[i].status == (if v[i].status == 1 then 2 else v[i].status)
            && (v[i].status != 1 ==> w[i] == v[i])
  {
    DisableSpec(c, c.size, i);
    DisableAllSane(c);
    if EnabledBelow(c, c.size) == 0 { NoneEnabled(c, c.size, i); }
  }

  lemma {:induction false} NoneEnabled(c: Info, n: nat, i: int)
    requires EnabledBelow(c, n) == 0 && 0 <= i < n
    ensures StatusOf(c, i) != ENABLED
  {
    if i < n - 1 { NoneEnabled(c, n - 1, i); }
  }

  /** A refused action, with an index out of range, shows nothing new. */
  lemma RefusedView(c: Info, i: int)
    requires Sane(c) && !(0 <= i < |c.keys|)
    ensures DisableKey(c, i) == c && EnableKey(c, i) == c && DeleteKey(c, i) == c
  { }

  /** The position is the first that holds the key. */
  lemma {:induction false} FindFirst(keys: seq<string>, key: string, j: int)
    requires 0 <= j < Find(keys, key)
    ensures keys[j] != key
  {
    if j > 0 { FindFirst(keys[1..], key, j - 1); }
  }

  /** A report is shown at the first position of its key: the status with the time and the reason, or enabled; the rest as before. */
  lemma ReportView(c: Info, key: string, status: int, why: string, now: int, i: int)
    requires 0 <= i < |c.keys| && c.keys[i] == key && forall j :: 0 <= j < i ==> c.keys[j] != key
    ensures var d := Report(c, key, status, why, now);
            && SameButAt(c, d, i)
            && View(d)[i] == if status == 1 then KeyStatus(key, 1, 0, "") else KeyStatus(key, status, now, why)
  {
    var f := Find(c.keys, key);
    if i < f { FindFirst(c.keys, key, i); }
    var d := Report(c, key, status, why, now);
    forall j | 0 <= j < |c.keys| && j != i ensures Entry(d, j) == Entry(c, j) { }
  }

  /** A report on a key the channel does not have is not taken. */
  lemma UnknownKeyView(c: Info, key: string, status: int, why: string, now: int)
    requires key !in c.keys
    ensures Report(c, key, status, why, now) == c
  { }

  // ----- Deleting one key -----

  lemma DeleteKeyEntry(c: Info, i: int, j: int)
    requires 0 <= i < |c.keys| && 0 <= j < |c.keys| - 1
    ensures var r := Rebuild(c.keys, OfDisabled(c, c.status), c.time, c.reason, Others(i, |c.keys|));
            |r.keys| == |c.keys| - 1 && Entry(r, j) == Entry(c, From(i, j))
  {
    var k := Others(i, |c.keys|);
    RebuildSpec(c.keys, OfDisabled(c, c.status), c.time, c.reason, k);
    var r := Rebuild(c.keys, OfDisabled(c, c.status), c.time, c.reason, k);
    assert k[j] == From(i, j) && r.keys[j] == c.keys[k[j]];
    assert StatusOf(r, j) == StatusOf(c, k[j]);
  }

  /** The channel rebuilt without a key, before it is stored, shows what was shown before, without that key. */
  lemma RestView(c: Info, i: int)
    requires 0 <= i < |c.keys| && |c.keys| > 1
    ensures var r := Rebuild(c.keys, OfDisabled(c, c.status), c.time, c.reason, Others(i, |c.keys|));
            View(r) == Without(View(c), i)
  {
    var r := Rebuild(c.keys, OfDisabled(c, c.status), c.time, c.reason, Others(i, |c.keys|));
    var v := View(c);
    DeleteKeyEntry(c, i, 0);
    forall j | 0 <= j < |v| - 1 ensures |r.keys| == |v| - 1 && Entry(r, j) == Without(v, i)[j] {
      DeleteKeyEntry(c, i, j);
      WithoutAt(v, i, j);
    }
    SameView(r, Without(v, i));
  }

  lemma SameView(r: Info, w: seq<KeyStatus>)
    requires |r.keys| == |w| && forall j :: 0 <= j < |w| ==> Entry(r, j) == w[j]
    ensures View(r) == w
  { }

  lemma WithoutAt<T>(xs: seq<T>, i: int, j: int)
    requires 0 <= i < |xs| && 0 <= j < |xs| - 1
    ensures Without(xs, i)[j] == xs[From(i, j)]
  { }

  lemma RestKeys(c: Info, i: int)
    requires 0 <= i < |c.keys|
    ensures Rebuild(c.keys, OfDisabled(c, c.status), c.time, c.reason, Others(i, |c.keys|)).keys == Without(c.keys, i)
  {
    RebuiltKeys(c.keys, OfDisabled(c, c.status), c.time, c.reason, i);
  }

  lemma RebuiltKeys(keys: seq<string>, st: map<int, int>, tm: map<int, int>, rs: map<int, string>, i: int)
    requires 0 <= i < |keys|
    ensures Rebuild(keys, st, tm, rs, Others(i, |keys|)).keys == Without(keys, i)
  {
    var k, rest := Others(i, |keys|), Without(keys, i);
    RebuildSpec(keys, st, tm, rs, k);
    var r := Rebuild(keys, st, tm, rs, k).keys;
    assert |r| == |rest|;
    forall j | 0 <= j < |r| ensures r[j] == rest[j] {
      WithoutAt(keys, i, j);
      assert r[j] == keys[k[j]];
    }
  }

  /** A channel shows as stored what it showed before exactly when its keys last. */
  lemma StoredViewIff(c: Info, r: Info)
    requires |r.keys| < |c.keys| && (forall k :: k in r.keys ==> '\n' !in k)
    requires r.size == |r.keys| && forall i :: i in r.status ==> i < r.size
    ensures View(Stored(c, r)) == View(r) <==> Lasting(r.keys)
  {
    ViewKeys(Stored(c, r), r);
    if Lasting(r.keys) {
      StoredExactly(c, r);
    } else if r.keys != [] {
      LastingReadBack(r.keys);
    }
  }

  /** The keys can be told from what is shown. */
  lemma ViewKeys(d: Info, r: Info)
    ensures View(d) == View(r) ==> d.keys == r.keys
  {
    if View(d) == View(r) {
      assert |d.keys| == |View(d)| == |r.keys|;
      forall j | 0 <= j < |r.keys| ensures d.keys[j] == r.keys[j] { assert View(d)[j].key == View(r)[j].key; }
    }
  }

  /** What is shown after deleting a key is what was shown before, without that key, exactly when the keys left neither start nor end with an empty one. */
  lemma DeleteKeyViewIff(c: Info, i: int)
    requires Sane(c) && 0 <= i < |c.keys| && |c.keys| > 1
    ensures View(DeleteKey(c, i)) == Without(View(c), i) <==> Lasting(Without(c.keys, i))
  {
    var k := Others(i, |c.keys|);
    var r := Rebuild(c.keys, OfDisabled(c, c.status), c.time, c.reason, k);
    RestView(c, i);
    RestKeys(c, i);
    RebuiltValid(c.keys, OfDisabled(c, c.status), c.time, c.reason, k);
    StoredViewIff(c, r);
  }

  // ----- Deleting the disabled keys at once -----

  predicate Survives(e: KeyStatus) { e.status != AUTO }

  lemma {:induction false} FilterView(c: Info, n: nat)
    requires n <= |c.keys|
    ensures var k := Kept(c, n);
            && |Filter(View(c)[..n], Survives)| == |k|
            && forall j :: 0 <= j < |k| ==> 0 <= k[j] < n && Filter(View(c)[..n], Survives)[j] == Entry(c, k[j])
  {
    if n > 0 {
      FilterView(c, n - 1);
      assert View(c)[..n][..n - 1] == View(c)[..n - 1];
    }
  }

  /** Rebuilding from some positions shows what those positions showed. */
  lemma RebuiltView(c: Info, k: seq<int>, w: seq<KeyStatus>)
    requires |w| == |k| && forall j :: 0 <= j < |k| ==> 0 <= k[j] < |c.keys| && w[j] == Entry(c, k[j])
    ensures View(Rebuild(c.keys, OfDisabled(c, c.status), OfDisabled(c, c.time), OfDisabled(c, c.reason), k)) == w
  {
    var r := Rebuild(c.keys, OfDisabled(c, c.status), OfDisabled(c, c.time), OfDisabled(c, c.reason), k);
    if k != [] { PickedEntry(c, k, 0); }
    forall j | 0 <= j < |k| ensures |r.keys| == |k| && Entry(r, j) == w[j] { PickedEntry(c, k, j); }
    assert |View(r)| == |w|;
  }

  /** The keys bulk deletion keeps. */
  function KeptKeys(c: Info): seq<string> {
    var k := Kept(c, |c.keys|);
    seq(|k|, j requires 0 <= j < |k| => c.keys[k[j]])
  }

  /** The channel rebuilt from the kept keys, before it is stored. */
  lemma KeptView(c: Info)
    ensures var r := Rebuild(c.keys, OfDisabled(c, c.status), OfDisabled(c, c.time), OfDisabled(c, c.reason), Kept(c, |c.keys|));
            View(r) == Filter(View(c), Survives)
  {
    FilterView(c, |c.keys|);
    assert View(c)[..|c.keys|] == View(c);
    RebuiltView(c, Kept(c, |c.keys|), Filter(View(c), Survives));
  }

  lemma KeptKeysSpec(c: Info)
    ensures Rebuild(c.keys, OfDisabled(c, c.status), OfDisabled(c, c.time), OfDisabled(c, c.reason), Kept(c, |c.keys|)).keys == KeptKeys(c)
  {
    RebuildSpec(c.keys, OfDisabled(c, c.status), OfDisabled(c, c.time), OfDisabled(c, c.reason), Kept(c, |c.keys|));
  }

  /**
   What is shown after deleting the disabled keys is what was shown, without the auto-disabled
   ones, exactly when there are none or the keys left neither start nor end with an empty one.
   */
  lemma DeleteDisabledViewIff(c: Info)
    requires Sane(c)
    ensures View(DeleteDisabled(c)) == Filter(View(c), Survives) <==> |KeptKeys(c)| == |c.keys| || Lasting(KeptKeys(c))
  {
    var k := Kept(c, |c.keys|);
    if |k| == |c.keys| {
      NoneAuto(c, |c.keys|);
      FilterAll(View(c), Survives);
    } else {
      var st, tm, rs := OfDisabled(c, c.status), OfDisabled(c, c.time), OfDisabled(c, c.reason);
      KeptView(c);
      KeptKeysSpec(c);
      RebuiltValid(c.keys, st, tm, rs, k);
      StoredViewIff(c, Rebuild(c.keys, st, tm, rs, k));
    }
  }

  lemma PickedEntry(c: Info, k: seq<int>, j: int)
    requires 0 <= j < |k| && forall i :: 0 <= i < |k| ==> 0 <= k[i] < |c.keys|
    ensures var r := Rebuild(c.keys, OfDisabled(c, c.status), OfDisabled(c, c.time), OfDisabled(c, c.reason), k);
            |r.keys| == |k| && Entry(r, j) == Entry(c, k[j])
  {
    RebuildSpec(c.keys, OfDisabled(c, c.status), OfDisabled(c, c.time), OfDisabled(c, c.reason), k);
  }

  lemma {:induction false} NoneAuto(c: Info, n: nat)
    requires |Kept(c, n)| == n
    ensures forall i :: 0 <= i < n ==> StatusOf(c, i) != AUTO
  {
    if n > 0 {
      NoneAuto(c, n - 1);
    }
  }

  /** Bulk deletion keeps, in order, what is enabled or disabled by hand (1, 2), and drops what was disabled automatically (3). */
  lemma HandDisabledSurvives(c: Info, i: int)
    requires Sane(c) && Lasting(KeptKeys(c)) && 0 <= i < |c.keys|
    ensures View(c)[i].status != 3 ==> View(c)[i] in View(DeleteDisabled(c))
    ensures forall e :: e in View(DeleteDisabled(c)) ==> e in View(c) && e.status != 3
  {
    DeleteDisabledViewIff(c);
    assert View(c)[i] in View(c);
    forall e ensures e in View(DeleteDisabled(c)) <==> e in View(c) && e.status != 3 { FilterMembers(View(c), Survives, e); }
  }

  /** What bulk deletion carries over of a position, before it is stored: a time and a reason only with a status. */
  lemma KeptNotes(c: Info, j: int)
    requires 0 <= j < |Kept(c, |c.keys|)|
    ensures var k := Kept(c, |c.keys|);
            var r := Rebuild(c.keys, OfDisabled(c, c.status), OfDisabled(c, c.time), OfDisabled(c, c.reason), k);
            && (StatusOf(c, k[j]) == 1 ==> j !in r.status && j !in r.time && j !in r.reason)
            && (StatusOf(c, k[j]) != 1 ==> j in r.status && (j in r.time <==> k[j] in c.time) && (j in r.reason <==> k[j] in c.reason))
  {
    RebuildSpec(c.keys, OfDisabled(c, c.status), OfDisabled(c, c.time), OfDisabled(c, c.reason), Kept(c, |c.keys|));
  }

  /** Single deletion carries every time and reason over, also of a key that was enabled again. */
  lemma RestNotes(c: Info, i: int, j: int)
    requires 0 <= i < |c.keys| && 0 <= j < |c.keys| - 1
    ensures var r := Rebuild(c.keys, OfDisabled(c, c.status), c.time, c.reason, Others(i, |c.keys|)); var k := From(i, j);
            && (j in r.time <==> k in c.time) && (j in r.time ==> r.time[j] == c.time[k])
            && (j in r.reason <==> k in c.reason) && (j in r.reason ==> r.reason[j] == c.reason[k])
            && (j in r.status <==> StatusOf(c, k) != 1)
  {
    RebuildSpec(c.keys, OfDisabled(c, c.status), c.time, c.reason, Others(i, |c.keys|));
    assert Others(i, |c.keys|)[j] == From(i, j);
  }

  // ----- Deleting them one by one -----

  function DeleteEach(c: Info, order: seq<int>): Info
    decreases |order|
  {
    if order == [] then c else DeleteEach(DeleteKey(c, order[0]), order[1..])
  }

  /** Each deletion of `order` is of a key that is auto-disabled when its turn comes, and is not refused. */
  ghost predicate Deletes(c: Info, order: seq<int>)
    decreases |order|
  {
    order != [] ==>
      && 0 <= order[0] < |c.keys| && |c.keys| > 1 && StatusOf(c, order[0]) == AUTO
      && Deletes(DeleteKey(c, order[0]), order[1..])
  }

  /** No deletion of an auto-disabled key is left that would not be refused. */
  ghost predicate Finished(c: Info) {
    |c.keys| <= 1 || forall i :: 0 <= i < |c.keys| ==> StatusOf(c, i) != AUTO
  }

  /** No deletion of `order` leaves keys that start or end with an empty one. */
  ghost predicate Lossless(c: Info, order: seq<int>)
    decreases |order|
  {
    order != [] ==>
      && 0 <= order[0] < |c.keys| && Lasting(Without(c.keys, order[0]))
      && Lossless(DeleteKey(c, order[0]), order[1..])
  }

  lemma {:induction false} DeleteEachView(c: Info, order: seq<int>)
    requires Sane(c) && Deletes(c, order) && Lossless(c, order)
    ensures Sane(DeleteEach(c, order))
    ensures Filter(View(DeleteEach(c, order)), Survives) == Filter(View(c), Survives)
    ensures if order == [] then DeleteEach(c, order) == c else Lasting(DeleteEach(c, order).keys)
    decreases |order|
  {
    if order != [] {
      DeleteOne(c, order[0]);
      DeleteEachView(DeleteKey(c, order[0]), order[1..]);
    }
  }

  lemma DeleteOne(c: Info, i: int)
    requires Sane(c) && 0 <= i < |c.keys| && |c.keys| > 1 && StatusOf(c, i) == AUTO && Lasting(Without(c.keys, i))
    ensures Sane(DeleteKey(c, i)) && Lasting(DeleteKey(c, i).keys)
    ensures Filter(View(DeleteKey(c, i)), Survives) == Filter(View(c), Survives)
  {
    ActSane(c, Delete(i));
    DeleteKeyViewIff(c, i);
    LastingDelete(c, i);
    FilterWithout(View(c), i, Survives);
  }

  /** A deletion that leaves lasting keys leaves just them. */
  lemma LastingDelete(c: Info, i: int)
    requires Sane(c) && 0 <= i < |c.keys| && |c.keys| > 1 && Lasting(Without(c.keys, i))
    ensures DeleteKey(c, i).keys == Without(c.keys, i)
  {
    RestKeys(c, i);
    RebuiltValid(c.keys, OfDisabled(c, c.status), c.time, c.reason, Others(i, |c.keys|));
    StoredExactly(c, Rebuild(c.keys, OfDisabled(c, c.status), c.time, c.reason, Others(i, |c.keys|)));
  }

  /** Some key is not auto-disabled, or there are no keys. */
  predicate HasSurvivor(c: Info) { c.keys == [] || exists i :: 0 <= i < |c.keys| && StatusOf(c, i) != AUTO }

  lemma {:induction false} KeptHas(c: Info, n: nat, i: nat)
    requires i < n && StatusOf(c, i) != AUTO
    ensures i in Kept(c, n)
  {
    if i < n - 1 { KeptHas(c, n - 1, i); }
  }

  /** Once nothing more can be deleted, what is left of the survivors is all that is left. */
  lemma FinishedView(d: Info)
    requires Finished(d) && (d.keys != [] ==> Filter(View(d), Survives) != [])
    ensures Filter(View(d), Survives) == View(d)
  {
    if |d.keys| == 1 {
      SoleKept(View(d), Survives);
    } else {
      forall e | e in View(d) ensures Survives(e) { }
      FilterAll(View(d), Survives);
    }
  }

  lemma SurvivorKept(c: Info)
    requires HasSurvivor(c) && c.keys != []
    ensures Filter(View(c), Survives) != []
  {
    var i :| 0 <= i < |c.keys| && StatusOf(c, i) != AUTO;
    FilterMembers(View(c), Survives, View(c)[i]);
  }

  /** If a channel shows just the survivors, its keys are those that bulk deletion keeps. */
  lemma ShowsKept(c: Info, d: Info)
    requires View(d) == Filter(View(c), Survives)
    ensures d.keys == KeptKeys(c)
  {
    KeptView(c);
    KeptKeysSpec(c);
    ViewKeys(d, Rebuild(c.keys, OfDisabled(c, c.status), OfDisabled(c, c.time), OfDisabled(c, c.reason), Kept(c, |c.keys|)));
  }

  lemma BulkWithSurvivor(c: Info, order: seq<int>)
    requires Sane(c) && Deletes(c, order) && Lossless(c, order) && Finished(DeleteEach(c, order)) && HasSurvivor(c)
    ensures View(DeleteEach(c, order)) == View(DeleteDisabled(c))
  {
    var d := DeleteEach(c, order);
    DeleteEachView(c, order);
    if c.keys != [] { SurvivorKept(c); }
    FinishedView(d);
    ShowsKept(c, d);
    DeleteDisabledViewIff(c);
  }

  lemma BulkWithoutSurvivor(c: Info, order: seq<int>)
    requires Sane(c) && Deletes(c, order) && Lossless(c, order) && !HasSurvivor(c)
    ensures View(DeleteEach(c, order)) != View(DeleteDisabled(c))
  {
    DeleteEachView(c, order);
    AllRevived(c);
    FilterNone(View(c), Survives);
    NoneSurvives(View(DeleteEach(c, order)));
    assert View(DeleteDisabled(c))[0].status == ENABLED;
  }

  lemma NoneSurvives(v: seq<KeyStatus>)
    requires Filter(v, Survives) == []
    ensures v == [] || v[0].status == AUTO
  {
    if v != [] {
      FilterMembers(v, Survives, v[0]);
      assert v[0] in v;
    }
  }

  /**
   Deleting the disabled keys at once shows the same as deleting them one by one, in any
   order that loses no empty line and until nothing more can be deleted, exactly when some
   key survives.
   */
  lemma BulkIsOneByOneIff(c: Info, order: seq<int>)
    requires Sane(c) && Deletes(c, order) && Lossless(c, order) && Finished(DeleteEach(c, order))
    ensures View(DeleteEach(c, order)) == View(DeleteDisabled(c)) <==> HasSurvivor(c)
  {
    if HasSurvivor(c) { BulkWithSurvivor(c, order); } else { BulkWithoutSurvivor(c, order); }
  }

  lemma {:induction false} SolidLossless(c: Info, order: seq<int>)
    requires Valid(c) && "" !in c.keys && Deletes(c, order)
    ensures Lossless(c, order)
    decreases |order|
  {
    if order != [] {
      var rest := Without(c.keys, order[0]);
      assert rest[0] in c.keys && rest[|rest| - 1] in c.keys;
      SolidStored(c, OfDisabled(c, c.status), c.time, c.reason, Others(order[0], |c.keys|));
      SolidLossless(DeleteKey(c, order[0]), order[1..]);
    }
  }

  /** In any order at all, when no key is empty. */
  lemma SolidBulkIff(c: Info, order: seq<int>)
    requires Valid(c) && "" !in c.keys && Deletes(c, order) && Finished(DeleteEach(c, order))
    ensures View(DeleteEach(c, order)) == View(DeleteDisabled(c)) <==> HasSurvivor(c)
  {
    SolidLossless(c, order);
    BulkIsOneByOneIff(c, order);
  }

  // ----- Empty lines -----

  predicate Line(x: string) { x != "" && '\n' !in x }

  /** Two keys with an empty line between them, both auto-disabled. */
  function Lines(a: string, b: string): Info {
    Info([a, "", b], 3, map[0 := AUTO, 2 := AUTO], map[0 := 1, 2 := 1], map[0 := "x", 2 := "x"])
  }

  lemma LinesValid(a: string, b: string)
    requires Line(a) && Line(b)
    ensures Valid(Lines(a, b)) && ReadKeys(WriteKeys(Lines(a, b).keys)) == Lines(a, b).keys
  {
    Text.ReadBackIff('\n', [a, "", b]);
  }

  /** An empty line at either end is lost. */
  lemma EmptyLineLost(x: string)
    requires Line(x)
    ensures WriteKeys([x, ""]) != "" && ReadKeys(WriteKeys([x, ""])) == [x]
    ensures WriteKeys(["", x]) != "" && ReadKeys(WriteKeys(["", x])) == [x]
    ensures WriteKeys([""]) == ""
  {
    Text.JoinEnds('\n', [x]);
    Text.SplitStep('\n', x, "");
    assert x[0] in x && x[|x| - 1] in x;
    assert Text.TrimChar('\n', x) == x;
    assert ["", x][1..] == [x] && [x, ""][1..] == [""];
    assert WriteKeys(["", x]) == ['\n'] + x by { assert "" + ['\n'] + x == ['\n'] + x; }
    assert (['\n'] + x)[1..] == x;
    assert WriteKeys([""]) == "" && WriteKeys([x, ""]) == x + ['\n'] + WriteKeys([""]);
    assert x + ['\n'] + "" == x + ['\n'];
    assert (x + ['\n'])[..|x|] == x && (x + ['\n'])[0] == x[0];
  }

  /** All that is noted of those lines is of disabled ones. */
  lemma LinesDisabled(a: string, b: string)
    ensures var c := Lines(a, b); OfDisabled(c, c.status) == c.status && OfDisabled(c, c.time) == c.time && OfDisabled(c, c.reason) == c.reason
  { }

  /** Two positions carried over, and one. */
  lemma RebuildTwo(keys: seq<string>, st: map<int, int>, tm: map<int, int>, rs: map<int, string>, p: int, q: int)
    ensures Rebuild(keys, st, tm, rs, [p]) == Carry(NOTHING, keys, st, tm, rs, p)
    ensures Rebuild(keys, st, tm, rs, [p, q]) == Carry(Carry(NOTHING, keys, st, tm, rs, p), keys, st, tm, rs, q)
  {
    RebuildNext(keys, st, tm, rs, [], p);
    RebuildNext(keys, st, tm, rs, [p], q);
    assert [] + [p] == [p] && [p] + [q] == [p, q];
  }

  /** What single deletion carries over of those lines, before it is stored. */
  lemma LinesWithoutFirst(a: string, b: string)
    ensures var c := Lines(a, b);
            Rebuild(c.keys, OfDisabled(c, c.status), c.time, c.reason, Others(0, 3)) == Info(["", b], 2, map[1 := AUTO], map[1 := 1], map[1 := "x"])
  {
    var c := Lines(a, b);
    LinesDisabled(a, b);
    assert Others(0, 3) == [1, 2] by { assert Others(0, 3)[0] == From(0, 0) && Others(0, 3)[1] == From(0, 1); }
    RebuildTwo(c.keys, c.status, c.time, c.reason, 1, 2);
  }

  lemma LinesWithoutLast(a: string, b: string)
    ensures var c := Lines(a, b);
            Rebuild(c.keys, OfDisabled(c, c.status), c.time, c.reason, Others(2, 3)) == Info([a, ""], 2, map[0 := AUTO], map[0 := 1], map[0 := "x"])
  {
    var c := Lines(a, b);
    LinesDisabled(a, b);
    assert Others(2, 3) == [0, 1] by { assert Others(2, 3)[0] == From(2, 0) && Others(2, 3)[1] == From(2, 1); }
    RebuildTwo(c.keys, c.status, c.time, c.reason, 0, 1);
  }

  /** What bulk deletion carries over: the empty line alone. */
  lemma LinesKept(a: string, b: string)
    ensures var c := Lines(a, b);
            && Kept(c, 3) == [1]
            && Rebuild(c.keys, OfDisabled(c, c.status), OfDisabled(c, c.time), OfDisabled(c, c.reason), [1]) == Info([""], 1, map[], map[], map[])
  {
    var c := Lines(a, b);
    LinesDisabled(a, b);
    assert Kept(c, 1) == [] && Kept(c, 2) == [1];
    RebuildTwo(c.keys, c.status, c.time, c.reason, 1, 1);
  }

  /**
   A survivor that is an empty line does not save bulk deletion: it deletes nothing and
   enables every key, where one by one the first key is left, disabled.
   */
  lemma EmptySurvivorRevives(a: string, b: string)
    requires Line(a) && Line(b)
    ensures var c := Lines(a, b);
            && HasSurvivor(c) && Deletes(c, [2]) && Finished(DeleteEach(c, [2]))
            && DeleteDisabled(c) == Info([a, "", b], 3, map[], map[], map[])
            && DeleteEach(c, [2]) == Info([a], 1, map[0 := AUTO], map[0 := 1], map[0 := "x"])
            && View(DeleteEach(c, [2])) != View(DeleteDisabled(c))
  {
    var c := Lines(a, b);
    EmptyLineLost(a);
    LinesKept(a, b);
    LinesWithoutLast(a, b);
    assert StatusOf(c, 1) != AUTO;
    var d := DeleteKey(c, 2);
    assert Others(2, 3) != [];
    assert d == Info([a], 1, map[0 := AUTO], map[0 := 1], map[0 := "x"]);
    assert [2][1..] == [] && DeleteEach(d, []) == d && Deletes(d, []);
    assert |View(d)| == 1 && |View(DeleteDisabled(c))| == 3;
  }

  /** An empty line lost at the front shifts the keys against their statuses: deleting the first key enables the last and leaves its time behind. */
  lemma EmptyLineShifts(a: string, b: string)
    requires Line(a) && Line(b)
    ensures DeleteKey(Lines(a, b), 0) == Info([b], 1, map[], map[1 := 1], map[1 := "x"])
    ensures !Valid(DeleteKey(Lines(a, b), 0)) && View(DeleteKey(Lines(a, b), 0)) == [KeyStatus(b, ENABLED, 0, "")]
  {
    EmptyLineLost(b);
    LinesWithoutFirst(a, b);
    assert Others(0, 3) != [];
    var d := DeleteKey(Lines(a, b), 0);
    assert d.status == map[];
    assert d == Info([b], 1, map[], map[1 := 1], map[1 := "x"]);
    assert 1 in d.time;
  }

  /** When every key is auto-disabled, deleting the disabled keys deletes none and enables all. */
  lemma AllRevived(c: Info)
    requires !HasSurvivor(c)
    ensures DeleteDisabled(c).keys == c.keys
    ensures forall i :: 0 <= i < |c.keys| ==> View(DeleteDisabled(c))[i] == KeyStatus(c.keys[i], ENABLED, 0, "")
  {
    NoneKept(c, |c.keys|);
    StoredNothing(c);
  }

  lemma {:induction false} NoneKept(c: Info, n: nat)
    requires forall i :: 0 <= i < n ==> StatusOf(c, i) == AUTO
    ensures Kept(c, n) == []
  {
    if n > 0 { NoneKept(c, n - 1); }
  }

  // ----- Counting and paging -----

  function Count(v: seq<KeyStatus>, status: int): nat {
    if v == [] then 0 else Count(v[..|v| - 1], status) + if v[|v| - 1].status == status then 1 else 0
  }

  lemma {:induction false} CountsOfKnown(v: seq<KeyStatus>)
    requires forall i :: 0 <= i < |v| ==> Known(v[i].status)
    ensures Count(v, ENABLED) + Count(v, MANUAL) + Count(v, AUTO) == |v|
  {
    if v != [] { CountsOfKnown(v[..|v| - 1]); }
  }

  /** The positions that show a status. */
  ghost function Positions(v: seq<KeyStatus>, status: int): set<int> {
    set i | 0 <= i < |v| && v[i].status == status
  }

  /** A count is the number of keys that show the status. */
  lemma {:induction false} CountIsNumber(v: seq<KeyStatus>, status: int)
    ensures Count(v, status) == |Positions(v, status)|
  {
    if v != [] {
      var n := |v| - 1;
      CountIsNumber(v[..n], status);
      var all, init := Positions(v, status), Positions(v[..n], status);
      assert all == if v[n].status == status then init + {n} else init;
    } else {
      assert Positions(v, status) == {};
    }
  }

  /** The number `disable_all_keys` reports is the number of keys shown as enabled. */
  lemma {:induction false} EnabledBelowIsCount(c: Info, n: nat)
    requires n <= |c.keys|
    ensures EnabledBelow(c, n) == Count(View(c)[..n], 1)
  {
    if n > 0 {
      EnabledBelowIsCount(c, n - 1);
      assert View(c)[..n][..n - 1] == View(c)[..n - 1];
    }
  }

  /** Over every run of actions the three counts shown sum to the number of keys. */
  lemma CountsSumToKeys(c: Info, acts: seq<Action>)
    requires Sane(c) && AllSensible(acts)
    ensures var v := View(Run(c, acts));
            Count(v, ENABLED) + Count(v, MANUAL) + Count(v, AUTO) == |Run(c, acts).keys|
  {
    RunSane(c, acts);
    CountsOfKnown(View(Run(c, acts)));
  }

  function TotalPages(n: nat, size: nat): nat
    requires size >= 1
  {
    var p := (n + size - 1) / size;
    if p == 0 then 1 else p
  }

  /** One page of a list, counting from 1. */
  function Page<T>(xs: seq<T>, page: nat, size: nat): seq<T>
    requires page >= 1
  {
    var start := (page - 1) * size;
    if start < |xs| then xs[start..if start + size > |xs| then |xs| else start + size] else []
  }

  function PagesUpTo<T>(xs: seq<T>, size: nat, k: nat): seq<T> {
    if k == 0 then [] else PagesUpTo(xs, size, k - 1) + Page(xs, k, size)
  }

  lemma {:induction false} PagesArePrefix<T>(xs: seq<T>, size: nat, k: nat)
    ensures PagesUpTo(xs, size, k) == if k * size < |xs| then xs[..k * size] else xs
  {
    if k > 0 {
      PagesArePrefix(xs, size, k - 1);
      assert k * size == (k - 1) * size + size;
    }
  }

  lemma EnoughPages(n: nat, size: nat)
    requires size >= 1
    ensures TotalPages(n, size) * size >= n
  {
    var m := n + size - 1;
    assert m == (m / size) * size + m % size;
  }

  /** There is no page too many: the last one holds something, unless nothing does. */
  lemma LastPageIsNeeded(n: nat, size: nat)
    requires size >= 1
    ensures n == 0 ==> TotalPages(n, size) == 1
    ensures n > 0 ==> (TotalPages(n, size) - 1) * size < n
  {
    if n > 0 {
      var p := (n + size - 1) / size;
      assert p * size <= n + size - 1;
      assert (p - 1) * size == p * size - size;
    }
  }

  /** Reading page after page, from the first to the last, gives exactly the list. */
  lemma PagesCover<T>(xs: seq<T>, size: nat)
    requires size >= 1
    ensures PagesUpTo(xs, size, TotalPages(|xs|, size)) == xs
  {
    EnoughPages(|xs|, size);
    PagesArePrefix(xs, size, TotalPages(|xs|, size));
  }

  // ----- The channel as the program updates it -----

  datatype StatusPage = StatusPage(keys: seq<KeyStatus>, total: nat, page: nat, pageSize: nat, totalPages: nat,
                                   enabled: nat, manual: nat, auto: nat)

  /** The loop of `delete_key`: everything but position `at`, re-indexed. */
  method CopyOthers(c: Info, at: int) returns (r: Info)
    ensures r == Rebuild(c.keys, OfDisabled(c, c.status), c.time, c.reason, Others(at, |c.keys|))
  {
    r := NOTHING;
    var st := OfDisabled(c, c.status);
    for i := 0 to |c.keys|
      invariant r == Rebuild(c.keys, st, c.time, c.reason, Others(at, i))
    {
      ghost var k := Others(at, i);
      assert Others(at, i + 1) == if i == at then k else k + [i];
      if i != at {
        RebuildNext(c.keys, st, c.time, c.reason, k, i);
        r := Carry(r, c.keys, st, c.time, c.reason, i);
      }
    }
  }

  /** The loop of `delete_disabled_keys`: everything not auto-disabled, re-indexed. */
  method CopyKept(c: Info) returns (r: Info, deleted: nat)
    ensures deleted == |c.keys| - |Kept(c, |c.keys|)|
    ensures r == Rebuild(c.keys, OfDisabled(c, c.status), OfDisabled(c, c.time), OfDisabled(c, c.reason), Kept(c, |c.keys|))
  {
    r, deleted := NOTHING, 0;
    var st, tm, rs := OfDisabled(c, c.status), OfDisabled(c, c.time), OfDisabled(c, c.reason);
    for i := 0 to |c.keys|
      invariant |Kept(c, i)| + deleted == i && r == Rebuild(c.keys, st, tm, rs, Kept(c, i))
    {
      ghost var k := Kept(c, i);
      assert Kept(c, i + 1) == if StatusOf(c, i) == AUTO then k else k + [i];
      if StatusOf(c, i) == AUTO {
        deleted := deleted + 1;
      } else {
        RebuildNext(c.keys, st, tm, rs, k, i);
        r := Carry(r, c.keys, st, tm, rs, i);
      }
    }
  }

  /** The loop of `Update` that cuts the status map. */
  method CutStatus(st: map<int, int>, size: int) returns (r: map<int, int>)
    ensures r == Below(st, size)
  {
    r := st;
    var todo := st.Keys;
    while todo != {}
      invariant todo <= st.Keys && r.Keys <= st.Keys
      invariant forall i :: i in r ==> r[i] == st[i]
      invariant forall i :: i in st ==> (i in r <==> i in todo || i < size)
      decreases |todo|
    {
      Inhabited(todo);
      var i :| i in todo;
      if i >= size { r := r - {i}; }
      todo := todo - {i};
    }
    assert forall i :: i in r <==> i in Below(st, size);
  }

  lemma Inhabited(s: set<int>)
    ensures s == {} || exists i :: i in s
  {
    if forall i: int :: i !in s { assert s == {}; }
  }

  class Channel {
    var keys: seq<string>
    var size: int
    var status: map<int, int>
    var time: map<int, int>
    var reason: map<int, string>

    ghost function Value(): Info
      reads this
    {
      Info(keys, size, status, time, reason)
    }

    constructor (c: Info)
      ensures Value() == c
    {
      keys, size, status, time, reason := c.keys, c.size, c.status, c.time, c.reason;
    }

    /** `Update`; `text` is the new key text, if it was changed. */
    method Update(text: Option<string>)
      modifies this`keys, this`size, this`status
      ensures Value() == Saved(old(Value()).(keys := if text.None? || text.value == "" then old(keys) else ReadKeys(text.value)))
    {
      if text.Some? && text.value != "" { keys := ReadKeys(text.value); }
      size := |keys|;
      var kept := CutStatus(status, size);
      status := kept;
    }

    /** `delete_key` */
    method DeleteKeyAt(index: Option<int>) returns (ok: bool)
      modifies this
      ensures ok <==> index.Some? && 0 <= index.value < old(size) && Others(index.value, |old(keys)|) != []
      ensures Value() == if index.Some? then DeleteKey(old(Value()), index.value) else old(Value())
    {
      if index.None? || index.value < 0 || index.value >= size { return false; }
      var rest := CopyOthers(Info(keys, size, status, time, reason), index.value);
      RebuildSize(keys, OfDisabled(Value(), status), time, reason, Others(index.value, |keys|));
      if |rest.keys| == 0 { return false; }
      size, status, time, reason := rest.size, rest.status, rest.time, rest.reason;
      Update(Some(WriteKeys(rest.keys)));
      return true;
    }

    /** `delete_disabled_keys` */
    method DeleteDisabledKeys() returns (deleted: nat)
      modifies this
      ensures Value() == DeleteDisabled(old(Value()))
      ensures deleted == |old(keys)| - |Kept(old(Value()), |old(keys)|)|
    {
      var rest;
      rest, deleted := CopyKept(Info(keys, size, status, time, reason));
      if deleted == 0 { return; }
      size, status, time, reason := rest.size, rest.status, rest.time, rest.reason;
      Update(Some(WriteKeys(rest.keys)));
    }

    /** `disable_all_keys` */
    method DisableAllKeys() returns (disabled: nat)
      modifies this
      ensures Value() == DisableAll(old(Value()))
      ensures disabled == EnabledBelow(old(Value()), if old(size) < 0 then 0 else old(size))
    {
      var marked;
      marked, disabled := MarkManual(Info(keys, size, status, time, reason));
      if disabled == 0 { return; }
      status := marked;
      Update(None);
    }

    /** `disable_key` and `enable_key` */
    method SetKey(index: Option<int>, enable: bool) returns (ok: bool)
      modifies this
      ensures ok <==> index.Some? && 0 <= index.value < old(size)
      ensures Value() == if index.None? then old(Value())
                         else if enable then EnableKey(old(Value()), index.value) else DisableKey(old(Value()), index.value)
    {
      if index.None? || index.value < 0 || index.value >= size { return false; }
      if enable {
        status, time, reason := status - {index.value}, time - {index.value}, reason - {index.value};
      } else {
        status := status[index.value := MANUAL];
      }
      Update(None);
      return true;
    }

    /** `get_key_status` */
    method GetKeyStatus(page: int, pageSize: int, filter: Option<int>) returns (r: StatusPage)
      ensures var all := View(Value());
              var shown := if filter.Some? then Filter(all, (e: KeyStatus) => e.status == filter.value) else all;
              && r.pageSize == (if pageSize <= 0 then 50 else pageSize) && r.total == |shown|
              && r.totalPages == TotalPages(|shown|, r.pageSize)
              && r.page == (if page <= 0 then 1 else if page > r.totalPages then r.totalPages else page)
              && r.keys == Page(shown, r.page, r.pageSize)
              && r.enabled == Count(all, ENABLED) && r.manual == Count(all, MANUAL) && r.auto == Count(all, AUTO)
    {
      var c := Info(keys, size, status, time, reason);
      var pageSize' := if pageSize <= 0 then 50 else pageSize;
      var enabled, manual, auto := 0, 0, 0;
      var all: seq<KeyStatus>, shown: seq<KeyStatus> := [], [];
      var p := (e: KeyStatus) => filter.Some? ==> e.status == filter.value;
      for i := 0 to |keys|
        invariant all == View(c)[..i] && shown == Filter(all, p)
        invariant enabled == Count(all, ENABLED) && manual == Count(all, MANUAL) && auto == Count(all, AUTO)
      {
        var e := Entry(c, i);
        if e.status == ENABLED { enabled := enabled + 1; }
        else if e.status == MANUAL { manual := manual + 1; }
        else if e.status == AUTO { auto := auto + 1; }
        assert (all + [e])[..|all|] == all;
        all := all + [e];
        if p(e) { shown := shown + [e]; }
      }
      assert View(c)[..|keys|] == View(c);
      if filter.Some? { FilterEq(all, p, (e: KeyStatus) => e.status == filter.value); } else { FilterAll(all, p); }
      var totalPages := TotalPages(|shown|, pageSize');
      var page' := if page <= 0 then 1 else if page > totalPages then totalPages else page;
      r := StatusPage(Page(shown, page', pageSize'), |shown|, page', pageSize', totalPages, enabled, manual, auto);
    }
  }
}
