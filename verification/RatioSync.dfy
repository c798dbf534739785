/**
 The pricing difference table (`buildDifferences` in controller/ratio_sync.go): local
 prices against those of several upstream channels, built cell by cell, then pruned of
 channels that differ nowhere.

 The nested table of the program is kept flat, by model and field. `Null` is Go's nil.
 */
module RatioSync {
  import opened Wrappers
  import ModelsDev

  datatype Field =
    | ModelRatio | CompletionRatio | CacheRatio | CreateCacheRatio | ImageRatio
    | AudioRatio | AudioCompletionRatio | ModelPrice | BillingMode | BillingExpr

  const FIELDS: set<Field> := {ModelRatio, CompletionRatio, CacheRatio, CreateCacheRatio, ImageRatio,
                               AudioRatio, AudioCompletionRatio, ModelPrice, BillingMode, BillingExpr}

  predicate Numeric(f: Field) { !f.BillingMode? && !f.BillingExpr? }

  /** A scalar as JSON or the settings deliver it. */
  datatype Val = Null | Num(r: real) | Int(n: int) | Text(s: string) | Flag(b: bool)

  const SAME := Text("same")

  type Data = map<Field, map<string, Val>>

  datatype Channel = Channel(name: string, data: Data)

  /** `asFloat64` */
  function AsFloat(v: Val): Option<real> {
    match v
    case Num(r) => Some(r)
    case Int(n) => Some(n as real)
    case _ => None
  }

  /** `normalizeSyncValue` */
  function Normalize(f: Field, v: Val): Val {
    if Numeric(f) && AsFloat(v).Some? then Num(AsFloat(v).value) else v
  }

  /** `valuesEqual` */
  predicate ValuesEqual(a: Val, b: Val) { if a.Num? && b.Num? then ModelsDev.NearlyEqual(a.r, b.r) else a == b }

  /** The normalised value for a model, if there is one. */
  function Lookup(d: Data, f: Field, m: string): Option<Val> {
    if f in d && m in d[f] then Some(Normalize(f, d[f][m])) else None
  }

  function OrNull(v: Option<Val>): Val { if v.Some? then v.value else Null }

  // ----- One cell -----

  /** What a cell shows for a channel, given the local and the channel's value. */
  function Shown(local: Val, up: Option<Val>): Val {
    var v := if up.Some? && ValuesEqual(local, up.value) then SAME else OrNull(up);
    if v == Null && local == Null then SAME else v
  }

  /** Whether the loop raises `hasDifference` for a channel. */
  predicate Raises(local: Val, up: Option<Val>) {
    || (up.Some? && local != Null && !ValuesEqual(local, up.value))
    || (local == Null && Shown(local, up) != Null && Shown(local, up) != SAME)
  }

  /** The pricing endpoint's placeholder values make a channel's entry untrustworthy. */
  predicate Confident(ch: Channel, m: string) {
    !(&& ModelRatio in ch.data && m in ch.data[ModelRatio] && CompletionRatio in ch.data && m in ch.data[CompletionRatio]
      && var r, c := AsFloat(ch.data[ModelRatio][m]), AsFloat(ch.data[CompletionRatio][m]);
      r.Some? && c.Some? && ModelsDev.NearlyEqual(r.value, 37.5) && ModelsDev.NearlyEqual(c.value, 1.0))
  }

  datatype Item = Item(current: Val, upstreams: map<string, Val>, confidence: map<string, bool>)

  function Upstreams(local: Val, chans: seq<Channel>, f: Field, m: string): map<string, Val> {
    if chans == [] then map[]
    else
      var ch := chans[|chans| - 1];
      Upstreams(local, chans[..|chans| - 1], f, m)[ch.name := Shown(local, Lookup(ch.data, f, m))]
  }

  function Confidence(chans: seq<Channel>, m: string): map<string, bool> {
    if chans == [] then map[]
    else
      var ch := chans[|chans| - 1];
      Confidence(chans[..|chans| - 1], m)[ch.name := Confident(ch, m)]
  }

  predicate RaisesAt(local: Val, ch: Channel, f: Field, m: string) { Raises(local, Lookup(ch.data, f, m)) }

  predicate AnyRaises(local: Val, chans: seq<Channel>, f: Field, m: string) {
    exists i :: 0 <= i < |chans| && RaisesAt(local, chans[i], f, m)
  }

  predicate AnyHas(chans: seq<Channel>, f: Field, m: string) {
    exists i :: 0 <= i < |chans| && Lookup(chans[i].data, f, m).Some?
  }

  /** The cell for a model and field, if it is included. */
  function Cell(local: Data, chans: seq<Channel>, f: Field, m: string): Option<Item> {
    var l := OrNull(Lookup(local, f, m));
    if (if l != Null then AnyRaises(l, chans, f, m) else AnyHas(chans, f, m))
    then Some(Item(l, Upstreams(l, chans, f, m), Confidence(chans, m))) else None
  }

  // ----- The table -----

  type Table = map<(string, Field), Item>

  function ModelsOf(d: Data): set<string> { set f, m | f in d && m in d[f] :: m }

  function AllModels(local: Data, chans: seq<Channel>): set<string> {
    if chans == [] then ModelsOf(local) else AllModels(local, chans[..|chans| - 1]) + ModelsOf(chans[|chans| - 1].data)
  }

  function FullTable(local: Data, chans: seq<Channel>): Table {
    map m, f | m in AllModels(local, chans) && f in FIELDS && Cell(local, chans, f, m).Some? ::
      (m, f) := Cell(local, chans, f, m).value
  }

  /** A cell shows a value of its own for a channel: neither nothing nor "same". */
  predicate ShowsOwn(item: Item, ch: string) {
    ch in item.upstreams && item.upstreams[ch] != Null && item.upstreams[ch] != SAME
  }

  /** The channels that show a value of their own somewhere. */
  function ShowsDifference(t: Table): set<string> {
    set k, ch | k in t && ch in t[k].upstreams && ShowsOwn(t[k], ch) :: ch
  }

  /** A cell without the columns not kept. */
  function Narrow(item: Item, keep: set<string>): Item {
    item.(upstreams := item.upstreams - (item.upstreams.Keys - keep), confidence := item.confidence - (item.upstreams.Keys - keep))
  }

  /** A cell that shows "same" everywhere, or has no column left. */
  predicate Dull(item: Item) { forall ch :: ch in item.upstreams ==> item.upstreams[ch] == SAME }

  function Prune(t: Table, keep: set<string>): Table {
    map k | k in t && !Dull(Narrow(t[k], keep)) :: Narrow(t[k], keep)
  }

  function Differences(local: Data, chans: seq<Channel>): Table {
    var t := FullTable(local, chans);
    Prune(t, ShowsDifference(t))
  }

  // ----- The one-line specification -----

  /** A channel has a value that differs from the local one, or that has no local counterpart. */
  predicate Differs(local: Data, ch: Channel, f: Field, m: string) {
    var l, u := Lookup(local, f, m), Lookup(ch.data, f, m);
    u.Some? && (l.None? || !ValuesEqual(l.value, u.value))
  }

  predicate SomeDiffers(local: Data, chans: seq<Channel>, f: Field, m: string) {
    exists i :: 0 <= i < |chans| && Differs(local, chans[i], f, m)
  }

  /** A channel that differs somewhere. */
  ghost predicate DiffersSomewhere(local: Data, ch: Channel) { exists f: Field, m: string :: Differs(local, ch, f, m) }

  predicate Ordinary(d: Data) { forall f, m :: f in d && m in d[f] ==> d[f][m] != Null && d[f][m] != SAME }

  /** No nulls, no value that reads "same", and channels with names of their own. */
  ghost predicate Tame(local: Data, chans: seq<Channel>) {
    && Ordinary(local) && (forall i :: 0 <= i < |chans| ==> Ordinary(chans[i].data))
    && (forall i, j :: 0 <= i < j < |chans| ==> chans[i].name != chans[j].name)
  }

  /** A value that is a number, in either form. */
  predicate IsNumber(v: Val, r: real) { v == Num(r) || (v.Int? && v.n as real == r) }

  predicate Has(d: Data, f: Field, m: string) { f in d && m in d[f] }

  /** In the eight numeric fields, numbers differ when they are 1e-9 or more apart. */
  lemma NumbersDifferIff(local: Data, ch: Channel, f: Field, m: string, a: real, b: real)
    requires f != BillingMode && f != BillingExpr && Has(local, f, m) && Has(ch.data, f, m)
    requires IsNumber(local[f][m], a) && IsNumber(ch.data[f][m], b)
    ensures Differs(local, ch, f, m) <==> a - b >= 0.000000001 || b - a >= 0.000000001
  { }

  /** Texts differ when they are not the same text; a value without a local one differs, and a missing one never does. */
  lemma OtherValuesDifferIff(local: Data, ch: Channel, f: Field, m: string)
    ensures !Has(ch.data, f, m) ==> !Differs(local, ch, f, m)
    ensures Has(ch.data, f, m) && !Has(local, f, m) ==> Differs(local, ch, f, m)
    ensures Has(ch.data, f, m) && Has(local, f, m) && local[f][m].Text? && ch.data[f][m].Text? ==>
              (Differs(local, ch, f, m) <==> local[f][m].s != ch.data[f][m].s)
  { }

  /** A channel's entry for a model is not trusted exactly when its model ratio is 37.5 and its completion ratio 1, up to 1e-9. */
  lemma ConfidentIff(ch: Channel, m: string, r: real, c: real)
    ensures !Has(ch.data, ModelRatio, m) || !Has(ch.data, CompletionRatio, m) ==> Confident(ch, m)
    ensures Has(ch.data, ModelRatio, m) && Has(ch.data, CompletionRatio, m)
            && IsNumber(ch.data[ModelRatio][m], r) && IsNumber(ch.data[CompletionRatio][m], c) ==>
              (Confident(ch, m) <==> !(37.499999999 < r < 37.500000001 && 0.999999999 < c < 1.000000001))
  { }

  lemma LookupOrdinary(d: Data, f: Field, m: string)
    requires Ordinary(d)
    ensures var v := Lookup(d, f, m); v.Some? ==> v.value != Null && v.value != SAME
  { }

  /** A column shows a value of its own exactly where its channel differs. */
  lemma ShownSpec(local: Data, ch: Channel, f: Field, m: string)
    requires Ordinary(local) && Ordinary(ch.data)
    ensures var l := OrNull(Lookup(local, f, m)); var s := Shown(l, Lookup(ch.data, f, m));
            && (s != Null && s != SAME <==> Differs(local, ch, f, m))
            && (Differs(local, ch, f, m) ==> s == Lookup(ch.data, f, m).value)
            && (Raises(l, Lookup(ch.data, f, m)) <==> Differs(local, ch, f, m))
  {
    LookupOrdinary(local, f, m);
    LookupOrdinary(ch.data, f, m);
  }

  lemma CellIff(local: Data, chans: seq<Channel>, f: Field, m: string)
    requires Tame(local, chans)
    ensures Cell(local, chans, f, m).Some? <==> SomeDiffers(local, chans, f, m)
  {
    forall i | 0 <= i < |chans|
      ensures RaisesAt(OrNull(Lookup(local, f, m)), chans[i], f, m) <==> Differs(local, chans[i], f, m)
    {
      ShownSpec(local, chans[i], f, m);
    }
    LookupOrdinary(local, f, m);
  }

  lemma {:induction false} UpstreamsSpec(local: Val, chans: seq<Channel>, f: Field, m: string)
    requires forall i, j :: 0 <= i < j < |chans| ==> chans[i].name != chans[j].name
    ensures var u := Upstreams(local, chans, f, m);
            forall i :: 0 <= i < |chans| ==> chans[i].name in u && u[chans[i].name] == Shown(local, Lookup(chans[i].data, f, m))
  {
    if chans != [] {
      var init := chans[..|chans| - 1];
      UpstreamsSpec(local, init, f, m);
      var u, v := Upstreams(local, chans, f, m), Upstreams(local, init, f, m);
      forall i | 0 <= i < |chans| ensures chans[i].name in u && u[chans[i].name] == Shown(local, Lookup(chans[i].data, f, m)) {
        if i < |init| { assert init[i] == chans[i] && init[i].name in v; }
      }
    }
  }

  lemma {:induction false} ConfidenceSpec(chans: seq<Channel>, m: string, i: nat)
    requires (forall i, j :: 0 <= i < j < |chans| ==> chans[i].name != chans[j].name) && i < |chans|
    ensures chans[i].name in Confidence(chans, m) && Confidence(chans, m)[chans[i].name] == Confident(chans[i], m)
  {
    if i < |chans| - 1 { ConfidenceSpec(chans[..|chans| - 1], m, i); }
  }

  lemma {:induction false} ModelsCovered(local: Data, chans: seq<Channel>, i: nat, f: Field, m: string)
    requires i < |chans| && f in chans[i].data && m in chans[i].data[f]
    ensures m in AllModels(local, chans)
  {
    if i < |chans| - 1 { ModelsCovered(local, chans[..|chans| - 1], i, f, m); }
  }

  lemma AllFields(f: Field)
    ensures f in FIELDS
  { }

  /** Before pruning, the table already has exactly the cells where some channel differs. */
  lemma FullTableIff(local: Data, chans: seq<Channel>, f: Field, m: string)
    requires Tame(local, chans)
    ensures (m, f) in FullTable(local, chans) <==> SomeDiffers(local, chans, f, m)
  {
    CellIff(local, chans, f, m);
    if SomeDiffers(local, chans, f, m) { DifferingListed(local, chans, f, m); }
    AllFields(f);
  }

  lemma DifferingListed(local: Data, chans: seq<Channel>, f: Field, m: string)
    requires SomeDiffers(local, chans, f, m)
    ensures m in AllModels(local, chans)
  {
    var i :| 0 <= i < |chans| && Differs(local, chans[i], f, m);
    ModelsCovered(local, chans, i, f, m);
  }

  /** The channels found to show a difference are exactly those that differ somewhere. */
  lemma ShowsIff(local: Data, chans: seq<Channel>, i: nat)
    requires Tame(local, chans) && i < |chans|
    ensures chans[i].name in ShowsDifference(FullTable(local, chans)) <==> DiffersSomewhere(local, chans[i])
  {
    var t := FullTable(local, chans);
    forall f, m | (m, f) in t
      ensures chans[i].name in t[(m, f)].upstreams
      ensures var v := t[(m, f)].upstreams[chans[i].name]; v != Null && v != SAME <==> Differs(local, chans[i], f, m)
    {
      UpstreamsSpec(OrNull(Lookup(local, f, m)), chans, f, m);
      ShownSpec(local, chans[i], f, m);
    }
    forall f, m | Differs(local, chans[i], f, m) ensures (m, f) in t { FullTableIff(local, chans, f, m); }
    if DiffersSomewhere(local, chans[i]) {
      var f, m :| Differs(local, chans[i], f, m);
      var k := (m, f);
      assert k in t && ShowsOwn(t[k], chans[i].name);
    }
  }

  // ----- What is reported, for all inputs -----

  /** Of the channels with its name, the last: the one whose values the columns hold. */
  predicate LastOf(chans: seq<Channel>, i: nat) {
    i < |chans| && forall j :: i < j < |chans| ==> chans[j].name != chans[i].name
  }

  /** What the column of a channel shows in a cell. */
  function Column(local: Data, ch: Channel, f: Field, m: string): Val {
    Shown(OrNull(Lookup(local, f, m)), Lookup(ch.data, f, m))
  }

  /** A channel shows a value of its own in some cell that is included. */
  ghost predicate ShowsSomewhere(local: Data, chans: seq<Channel>, i: nat)
    requires i < |chans|
  {
    exists f: Field, m: string :: Cell(local, chans, f, m).Some? && Own(Column(local, chans[i], f, m))
  }

  predicate Own(v: Val) { v != Null && v != SAME }

  lemma {:induction false} UpstreamsAt(local: Val, chans: seq<Channel>, i: nat, f: Field, m: string)
    requires LastOf(chans, i)
    ensures var u := Upstreams(local, chans, f, m);
            chans[i].name in u && u[chans[i].name] == Shown(local, Lookup(chans[i].data, f, m))
  {
    if i < |chans| - 1 {
      var init := chans[..|chans| - 1];
      assert LastOf(init, i);
      UpstreamsAt(local, init, i, f, m);
    }
  }

  lemma {:induction false} ColumnLast(local: Val, chans: seq<Channel>, f: Field, m: string, n: string) returns (i: nat)
    requires n in Upstreams(local, chans, f, m)
    ensures LastOf(chans, i) && chans[i].name == n
  {
    if chans[|chans| - 1].name == n {
      i := |chans| - 1;
    } else {
      i := ColumnLast(local, chans[..|chans| - 1], f, m, n);
    }
  }

  /** Only models that are listed have cells. */
  lemma CellListed(local: Data, chans: seq<Channel>, f: Field, m: string)
    requires Cell(local, chans, f, m).Some?
    ensures (m, f) in FullTable(local, chans)
  {
    var l := OrNull(Lookup(local, f, m));
    if l != Null {
      var i :| 0 <= i < |chans| && RaisesAt(l, chans[i], f, m);
      ModelsCovered(local, chans, i, f, m);
    } else {
      var i :| 0 <= i < |chans| && Lookup(chans[i].data, f, m).Some?;
      ModelsCovered(local, chans, i, f, m);
    }
    AllFields(f);
  }

  /** The channels kept are those that, last of their name, show a value of their own somewhere. */
  lemma KeptIff(local: Data, chans: seq<Channel>, i: nat)
    requires LastOf(chans, i)
    ensures chans[i].name in ShowsDifference(FullTable(local, chans)) <==> ShowsSomewhere(local, chans, i)
  {
    var t, n := FullTable(local, chans), chans[i].name;
    if n in ShowsDifference(t) {
      var k :| k in t && ShowsOwn(t[k], n);
      OwnColumn(local, chans, i, k.1, k.0);
    }
    if ShowsSomewhere(local, chans, i) {
      var f, m :| Cell(local, chans, f, m).Some? && Own(Column(local, chans[i], f, m));
      CellListed(local, chans, f, m);
      OwnColumn(local, chans, i, f, m);
    }
  }

  lemma OwnColumn(local: Data, chans: seq<Channel>, i: nat, f: Field, m: string)
    requires LastOf(chans, i) && (m, f) in FullTable(local, chans)
    ensures Cell(local, chans, f, m).Some?
    ensures ShowsOwn(FullTable(local, chans)[(m, f)], chans[i].name) <==> Own(Column(local, chans[i], f, m))
  {
    UpstreamsAt(OrNull(Lookup(local, f, m)), chans, i, f, m);
  }

  /** A column that keeps a cell: kept itself, and not showing "same" there. */
  ghost predicate KeepsCell(local: Data, chans: seq<Channel>, f: Field, m: string, i: nat) {
    LastOf(chans, i) && ShowsSomewhere(local, chans, i) && Column(local, chans[i], f, m) != SAME
  }

  /** For all inputs: a cell is reported exactly when it is included and some kept column does not show "same" in it. */
  lemma ReportedExactly(local: Data, chans: seq<Channel>, f: Field, m: string)
    ensures (m, f) in Differences(local, chans)
            <==> Cell(local, chans, f, m).Some? && exists i :: 0 <= i < |chans| && KeepsCell(local, chans, f, m, i)
  {
    var t, l := FullTable(local, chans), OrNull(Lookup(local, f, m));
    var keep := ShowsDifference(t);
    if (m, f) in Differences(local, chans) {
      var item := Narrow(t[(m, f)], keep);
      var n :| n in item.upstreams && item.upstreams[n] != SAME;
      var i := ColumnLast(l, chans, f, m, n);
      UpstreamsAt(l, chans, i, f, m);
      KeptIff(local, chans, i);
      assert KeepsCell(local, chans, f, m, i);
    }
    if Cell(local, chans, f, m).Some? && exists i :: 0 <= i < |chans| && KeepsCell(local, chans, f, m, i) {
      var i :| 0 <= i < |chans| && KeepsCell(local, chans, f, m, i);
      CellListed(local, chans, f, m);
      UpstreamsAt(l, chans, i, f, m);
      KeptIff(local, chans, i);
      var item := Narrow(t[(m, f)], keep);
      assert chans[i].name in item.upstreams && item.upstreams[chans[i].name] != SAME;
    }
  }

  /** For all inputs: what is reported does differ. */
  lemma ReportedDiffers(local: Data, chans: seq<Channel>, f: Field, m: string)
    ensures (m, f) in Differences(local, chans) ==> SomeDiffers(local, chans, f, m)
  {
    ReportedExactly(local, chans, f, m);
    if (m, f) in Differences(local, chans) {
      var l := OrNull(Lookup(local, f, m));
      if l != Null {
        var i :| 0 <= i < |chans| && RaisesAt(l, chans[i], f, m);
        assert Differs(local, chans[i], f, m);
      } else {
        var i :| 0 <= i < |chans| && KeepsCell(local, chans, f, m, i);
        assert Differs(local, chans[i], f, m);
      }
    }
  }

  /** So, on tame inputs, a cell is reported exactly when some channel's value differs from the local one. */
  lemma ReportedIff(local: Data, chans: seq<Channel>, f: Field, m: string)
    requires Tame(local, chans)
    ensures (m, f) in Differences(local, chans) <==> SomeDiffers(local, chans, f, m)
  {
    ReportedExactly(local, chans, f, m);
    CellIff(local, chans, f, m);
    if SomeDiffers(local, chans, f, m) {
      var i :| 0 <= i < |chans| && Differs(local, chans[i], f, m);
      ShownSpec(local, chans[i], f, m);
      assert Own(Column(local, chans[i], f, m));
      assert KeepsCell(local, chans, f, m, i);
    }
  }

  /** A reported cell has exactly the columns of channels that differ somewhere, each showing its own value or "same" or nothing. */
  lemma ReportedCell(local: Data, chans: seq<Channel>, f: Field, m: string, i: nat)
    requires Tame(local, chans) && i < |chans|
    ensures (m, f) in Differences(local, chans) ==>
            var item := Differences(local, chans)[(m, f)];
            && item.current == OrNull(Lookup(local, f, m))
            && (chans[i].name in item.upstreams <==> DiffersSomewhere(local, chans[i]))
            && (chans[i].name in item.upstreams ==>
                  item.upstreams[chans[i].name] ==
                    if Differs(local, chans[i], f, m) then Lookup(chans[i].data, f, m).value
                    else if Lookup(local, f, m).Some? && Lookup(chans[i].data, f, m).None? then Null else SAME)
            && (chans[i].name in item.confidence <==> DiffersSomewhere(local, chans[i]))
            && (chans[i].name in item.confidence ==> item.confidence[chans[i].name] == Confident(chans[i], m))
  {
    ConfidenceSpec(chans, m, i);
    ShowsIff(local, chans, i);
    UpstreamsSpec(OrNull(Lookup(local, f, m)), chans, f, m);
    ShownSpec(local, chans[i], f, m);
    LookupOrdinary(local, f, m);
    LookupOrdinary(chans[i].data, f, m);
  }

  lemma {:induction false} ColumnNames(local: Val, chans: seq<Channel>, f: Field, m: string, n: string)
    requires n in Upstreams(local, chans, f, m) || n in Confidence(chans, m)
    ensures exists i :: 0 <= i < |chans| && chans[i].name == n
  {
    var init := chans[..|chans| - 1];
    if chans[|chans| - 1].name != n {
      ColumnNames(local, init, f, m, n);
      var i :| 0 <= i < |init| && init[i].name == n;
      assert chans[i].name == n;
    }
  }

  /** A reported cell has no other columns. */
  lemma NoOtherColumns(local: Data, chans: seq<Channel>, f: Field, m: string, n: string)
    ensures (m, f) in Differences(local, chans)
            && (n in Differences(local, chans)[(m, f)].upstreams || n in Differences(local, chans)[(m, f)].confidence) ==>
              exists i :: 0 <= i < |chans| && chans[i].name == n
  {
    var l := OrNull(Lookup(local, f, m));
    if n in Upstreams(l, chans, f, m) || n in Confidence(chans, m) { ColumnNames(l, chans, f, m, n); }
  }

  // ----- Each condition is needed -----

  /** A channel that shows no value of its own anywhere. */
  ghost predicate Silent(local: Data, ch: Channel) { forall f: Field, m: string :: !Own(Column(local, ch, f, m)) }

  /** Without a channel that, last of its name, shows a value of its own, nothing is reported. */
  lemma NothingReported(local: Data, chans: seq<Channel>, f: Field, m: string)
    requires forall i: nat :: LastOf(chans, i) ==> Silent(local, chans[i])
    ensures (m, f) !in Differences(local, chans)
  {
    ReportedExactly(local, chans, f, m);
  }

  function OneValue(f: Field, m: string, v: Val): Data { map[f := map[m := v]] }

  /** A value that reads "same" differs and is not reported. */
  lemma SameTextIsLost(f: Field, m: string, name: string)
    ensures var ch := Channel(name, OneValue(f, m, SAME));
            Differs(map[], ch, f, m) && (m, f) !in Differences(map[], [ch])
  {
    var ch := Channel(name, OneValue(f, m, SAME));
    assert Silent(map[], ch);
    NothingReported(map[], [ch], f, m);
  }

  /** A null against a local value differs and is not reported, if its channel shows nothing else. */
  lemma NullIsLost(f: Field, m: string, name: string, v: Val)
    requires v != Null
    ensures var local, ch := OneValue(f, m, v), Channel(name, OneValue(f, m, Null));
            Differs(local, ch, f, m) && (m, f) !in Differences(local, [ch])
  {
    var local, ch := OneValue(f, m, v), Channel(name, OneValue(f, m, Null));
    assert Silent(local, ch);
    NothingReported(local, [ch], f, m);
  }

  /** Of two channels with one name the later hides what the earlier shows. */
  lemma SharedNameHides(f: Field, m: string, name: string, v: Val, u: Val)
    requires v != Null && !ValuesEqual(Normalize(f, v), Normalize(f, u))
    ensures var local, ch, other := OneValue(f, m, v), Channel(name, OneValue(f, m, u)), Channel(name, map[]);
            Differs(local, ch, f, m) && (m, f) !in Differences(local, [ch, other])
  {
    var local, other := OneValue(f, m, v), Channel(name, map[]);
    var chans := [Channel(name, OneValue(f, m, u)), other];
    assert Silent(local, other);
    assert !LastOf(chans, 0) by { assert chans[1].name == chans[0].name; }
    NothingReported(local, chans, f, m);
  }

  // ----- The loops -----

  const FIELD_LIST := [ModelRatio, CompletionRatio, CacheRatio, CreateCacheRatio, ImageRatio,
                       AudioRatio, AudioCompletionRatio, ModelPrice, BillingMode, BillingExpr]

  lemma Listed(f: Field)
    ensures exists i :: 0 <= i < |FIELD_LIST| && FIELD_LIST[i] == f
  {
    match f
    case ModelRatio => assert FIELD_LIST[0] == f;
    case CompletionRatio => assert FIELD_LIST[1] == f;
    case CacheRatio => assert FIELD_LIST[2] == f;
    case CreateCacheRatio => assert FIELD_LIST[3] == f;
    case ImageRatio => assert FIELD_LIST[4] == f;
    case AudioRatio => assert FIELD_LIST[5] == f;
    case AudioCompletionRatio => assert FIELD_LIST[6] == f;
    case ModelPrice => assert FIELD_LIST[7] == f;
    case BillingMode => assert FIELD_LIST[8] == f;
    case BillingExpr => assert FIELD_LIST[9] == f;
  }

  /** The body of the loop over the channels: the value to show, and whether it raises `hasDifference`. */
  method Compare(l: Val, d: Data, f: Field, m: string) returns (v: Val, has: bool, raised: bool)
    ensures v == Shown(l, Lookup(d, f, m)) && (raised <==> Raises(l, Lookup(d, f, m))) && has == Lookup(d, f, m).Some?
  {
    v, has, raised := Null, false, false;
    if f in d && m in d[f] {
      v, has := Normalize(f, d[f][m]), true;
      if l != Null && !ValuesEqual(l, v) { raised := true; } else if ValuesEqual(l, v) { v := SAME; }
    }
    if v == Null && l == Null { v := SAME; }
    if l == Null && v != Null && v != SAME { raised := true; }
  }

  lemma HasStep(chans: seq<Channel>, i: nat, f: Field, m: string)
    requires i < |chans|
    ensures AnyHas(chans[..i + 1], f, m) <==> AnyHas(chans[..i], f, m) || Lookup(chans[i].data, f, m).Some?
  {
    var pre, post := chans[..i], chans[..i + 1];
    assert post[i] == chans[i] && forall j :: 0 <= j < i ==> post[j] == pre[j];
    if AnyHas(pre, f, m) {
      var j :| 0 <= j < |pre| && Lookup(pre[j].data, f, m).Some?;
      assert Lookup(post[j].data, f, m).Some?;
    }
  }

  lemma RaisesStep(l: Val, chans: seq<Channel>, i: nat, f: Field, m: string)
    requires i < |chans|
    ensures AnyRaises(l, chans[..i + 1], f, m) <==> AnyRaises(l, chans[..i], f, m) || RaisesAt(l, chans[i], f, m)
  {
    var pre, post := chans[..i], chans[..i + 1];
    if AnyRaises(l, pre, f, m) {
      var j :| 0 <= j < |pre| && RaisesAt(l, pre[j], f, m);
      assert RaisesAt(l, post[j], f, m);
    }
    if RaisesAt(l, chans[i], f, m) { assert RaisesAt(l, post[i], f, m); }
    if AnyRaises(l, post, f, m) {
      var j :| 0 <= j < |post| && RaisesAt(l, post[j], f, m);
      if j < i { assert RaisesAt(l, pre[j], f, m); }
    }
  }

  lemma MapsStep(l: Val, chans: seq<Channel>, i: nat, f: Field, m: string)
    requires i < |chans|
    ensures Upstreams(l, chans[..i + 1], f, m) == Upstreams(l, chans[..i], f, m)[chans[i].name := Shown(l, Lookup(chans[i].data, f, m))]
    ensures Confidence(chans[..i + 1], m) == Confidence(chans[..i], m)[chans[i].name := Confident(chans[i], m)]
  {
    assert chans[..i + 1][..i] == chans[..i];
  }

  /** What the loop has gathered from some channels. */
  ghost predicate SoFar(l: Val, chans: seq<Channel>, f: Field, m: string, upstreams: map<string, Val>, confidence: map<string, bool>,
                        hasUpstream: bool, hasDifference: bool) {
    && upstreams == Upstreams(l, chans, f, m) && confidence == Confidence(chans, m)
    && hasUpstream == AnyHas(chans, f, m) && hasDifference == AnyRaises(l, chans, f, m)
  }

  lemma SoFarStep(l: Val, chans: seq<Channel>, i: nat, f: Field, m: string, upstreams: map<string, Val>, confidence: map<string, bool>,
                  hasUpstream: bool, hasDifference: bool)
    requires i < |chans| && SoFar(l, chans[..i], f, m, upstreams, confidence, hasUpstream, hasDifference)
    ensures var ch := chans[i]; var up := Lookup(ch.data, f, m);
            SoFar(l, chans[..i + 1], f, m, upstreams[ch.name := Shown(l, up)], confidence[ch.name := Confident(ch, m)],
                  hasUpstream || up.Some?, hasDifference || Raises(l, up))
  {
    HasStep(chans, i, f, m);
    RaisesStep(l, chans, i, f, m);
    MapsStep(l, chans, i, f, m);
  }

  /** The loop over the channels that fills one cell. */
  method BuildCell(local: Data, chans: seq<Channel>, f: Field, m: string) returns (cell: Option<Item>)
    ensures cell == Cell(local, chans, f, m)
  {
    var l := OrNull(Lookup(local, f, m));
    var upstreams, confidence := map[], map[];
    var hasUpstream, hasDifference := false, false;
    for i := 0 to |chans|
      invariant SoFar(l, chans[..i], f, m, upstreams, confidence, hasUpstream, hasDifference)
    {
      SoFarStep(l, chans, i, f, m, upstreams, confidence, hasUpstream, hasDifference);
      var ch := chans[i];
      var v, has, raised := Compare(l, ch.data, f, m);
      hasUpstream := hasUpstream || has;
      hasDifference := hasDifference || raised;
      upstreams := upstreams[ch.name := v];
      confidence := confidence[ch.name := Confident(ch, m)];
    }
    assert chans[..|chans|] == chans;
    if (if l != Null then hasDifference else hasUpstream) {
      cell := Some(Item(l, upstreams, confidence));
    } else {
      cell := None;
    }
  }

  /** The cell a table has at a key. */
  function At(t: Table, k: (string, Field)): Option<Item> { if k in t then Some(t[k]) else None }

  /** A table with the cells of one model for some fields added. */
  function Row(t: Table, local: Data, chans: seq<Channel>, m: string, fs: seq<Field>): Table {
    if fs == [] then t
    else
      var r, f := Row(t, local, chans, m, fs[..|fs| - 1]), fs[|fs| - 1];
      var cell := Cell(local, chans, f, m);
      if cell.Some? then r[(m, f) := cell.value] else r
  }

  lemma {:induction false} RowSpec(t: Table, local: Data, chans: seq<Channel>, m: string, fs: seq<Field>, k: (string, Field))
    requires forall f: Field :: (m, f) !in t
    ensures At(Row(t, local, chans, m, fs), k) == if k.0 == m && k.1 in fs then Cell(local, chans, k.1, m) else At(t, k)
  {
    if fs != [] {
      RowSpec(t, local, chans, m, fs[..|fs| - 1], k);
      assert fs == fs[..|fs| - 1] + [fs[|fs| - 1]];
    }
  }

  /** The loop over the fields of one model. */
  method BuildRow(t: Table, local: Data, chans: seq<Channel>, m: string) returns (r: Table)
    requires forall f: Field :: (m, f) !in t
    ensures forall k :: At(r, k) == if k.0 == m then Cell(local, chans, k.1, m) else At(t, k)
  {
    r := t;
    ghost var fs := FIELD_LIST;
    for i := 0 to |FIELD_LIST|
      invariant fs == FIELD_LIST && r == Row(t, local, chans, m, fs[..i])
    {
      assert fs[..i + 1][..i] == fs[..i];
      var cell := BuildCell(local, chans, FIELD_LIST[i], m);
      if cell.Some? { r := r[(m, FIELD_LIST[i]) := cell.value]; }
    }
    assert fs[..|fs|] == fs;
    forall k: (string, Field) ensures At(r, k) == if k.0 == m then Cell(local, chans, k.1, m) else At(t, k) {
      Listed(k.1);
      RowSpec(t, local, chans, m, fs, k);
    }
  }

  /** The loop over the models. */
  method BuildTable(local: Data, chans: seq<Channel>) returns (t: Table)
    ensures t == FullTable(local, chans)
  {
    t := map[];
    var models := AllModels(local, chans);
    var todo := models;
    while todo != {}
      invariant todo <= models
      invariant forall k :: At(t, k) == if k.0 in models - todo then Cell(local, chans, k.1, k.0) else None
    {
      var m :| m in todo;
      t := BuildRow(t, local, chans, m);
      todo := todo - {m};
    }
    var full := FullTable(local, chans);
    forall k: (string, Field) ensures At(t, k) == At(full, k) { AllFields(k.1); }
    Extensional(t, full);
  }

  lemma Extensional(t: Table, u: Table)
    requires forall k :: At(t, k) == At(u, k)
    ensures t == u
  {
    assert forall k :: k in t <==> At(t, k).Some?;
    assert forall k :: k in u <==> At(u, k).Some?;
  }

  /** The loops that note the channels showing a value of their own. */
  method CollectDiffering(t: Table) returns (keep: set<string>)
    ensures keep == ShowsDifference(t)
  {
    var todo := t.Keys;
    keep := {};
    while todo != {}
      invariant todo <= t.Keys
      invariant forall ch :: ch in keep <==> exists k :: k in t.Keys - todo && ShowsOwn(t[k], ch)
    {
      var k :| k in todo;
      var own := set ch | ch in t[k].upstreams && ShowsOwn(t[k], ch);
      assert forall ch :: ch in own <==> ShowsOwn(t[k], ch);
      keep := keep + own;
      todo := todo - {k};
    }
  }

  function PrunedAt(t: Table, keep: set<string>, k: (string, Field)): Option<Item> {
    if k in t && !Dull(Narrow(t[k], keep)) then Some(Narrow(t[k], keep)) else None
  }

  /** The loops that drop the columns not kept and then the dull cells. */
  method PruneTable(full: Table, keep: set<string>) returns (t: Table)
    ensures t == Prune(full, keep)
  {
    t := full;
    var todo := full.Keys;
    while todo != {}
      invariant todo <= full.Keys
      invariant forall k :: At(t, k) == if k in todo then At(full, k) else PrunedAt(full, keep, k)
    {
      var k :| k in todo;
      var item := Narrow(full[k], keep);
      if Dull(item) { t := t - {k}; } else { t := t[k := item]; }
      todo := todo - {k};
    }
    assert forall k :: At(Prune(full, keep), k) == PrunedAt(full, keep, k);
    Extensional(t, Prune(full, keep));
  }

  /** Build the table, note the channels that show a difference, prune. */
  method BuildDifferences(local: Data, chans: seq<Channel>) returns (t: Table)
    ensures t == Differences(local, chans)
  {
    var full := BuildTable(local, chans);
    var keep := CollectDiffering(full);
    t := PruneTable(full, keep);
  }
}
