/**
 Choosing one price per model from the models.dev listing (`convertModelsDevToRatioData`
 in controller/ratio_sync.go): a fold over the providers in name order, whose price
 comparison treats values closer than 1e-9 as equal.

 Prices are exact reals; what is not a finite number is `NotFinite`.
 */
module ModelsDev {
  import opened Wrappers
  import Lists

  datatype Float = Num(v: real) | NotFinite

  /** The costs a provider lists for a model. */
  datatype Cost = Cost(input: Option<Float>, output: Option<Float>, cacheRead: Option<Float>)

  datatype Candidate = Candidate(provider: string, input: real, output: Option<real>, cacheRead: Option<real>)

  const EPSILON := 0.000000001

  /** `nearlyEqual` */
  predicate NearlyEqual(a: real, b: real) { if a > b then a - b < EPSILON else b - a < EPSILON }

  /** `isValidNonNegativeCost` */
  predicate ValidCost(f: Float) { f.Num? && f.v >= 0.0 }

  /** `buildModelsDevCandidate` */
  function Build(provider: string, cost: Cost): Option<Candidate> {
    if cost.input.None? || !ValidCost(cost.input.value) then None
    else if cost.output.Some? && !ValidCost(cost.output.value) then None
    else
      var input := cost.input.value.v;
      var output := if cost.output.Some? then Some(cost.output.value.v) else None;
      if input == 0.0 && output.Some? && output.value > 0.0 then None
      else Some(Candidate(provider, input, output,
                          if cost.cacheRead.Some? && ValidCost(cost.cacheRead.value) then Some(cost.cacheRead.value.v) else None))
  }

  // ----- Name order -----

  /** Go's `<` on strings */
  predicate Less(a: string, b: string) {
    b != [] && (a == [] || a[0] < b[0] || (a[0] == b[0] && Less(a[1..], b[1..])))
  }

  lemma {:induction false} LessIrreflexive(a: string)
    ensures !Less(a, a)
  {
    if a != [] { LessIrreflexive(a[1..]); }
  }

  lemma {:induction false} LessTransitive(a: string, b: string, c: string)
    requires Less(a, b) && Less(b, c)
    ensures Less(a, c)
  {
    if a != [] && a[0] == b[0] && b[0] == c[0] { LessTransitive(a[1..], b[1..], c[1..]); }
  }

  lemma {:induction false} LessTotal(a: string, b: string)
    ensures a == b || Less(a, b) || Less(b, a)
  {
    if a != [] && b != [] && a[0] == b[0] {
      LessTotal(a[1..], b[1..]);
      assert a == [a[0]] + a[1..] && b == [b[0]] + b[1..];
    }
  }

  ghost predicate Ascending(xs: seq<string>) { forall i, j :: 0 <= i < j < |xs| ==> Less(xs[i], xs[j]) }

  /** `sort.Strings` of distinct names, by insertion */
  function Insert(xs: seq<string>, x: string): seq<string> {
    if xs == [] || Less(x, xs[0]) then [x] + xs else [xs[0]] + Insert(xs[1..], x)
  }

  function Sort(xs: seq<string>): seq<string> { if xs == [] then [] else Insert(Sort(xs[1..]), xs[0]) }

  lemma {:induction false} InsertAscends(xs: seq<string>, x: string)
    requires Ascending(xs) && x !in xs
    ensures Ascending(Insert(xs, x)) && forall y :: y in Insert(xs, x) <==> y == x || y in xs
  {
    if xs == [] {
    } else if Less(x, xs[0]) {
      forall j | 0 <= j < |xs| ensures Less(x, xs[j]) { if j > 0 { LessTransitive(x, xs[0], xs[j]); } }
    } else {
      InsertAscends(xs[1..], x);
      LessTotal(x, xs[0]);
      var rest := Insert(xs[1..], x);
      forall j | 0 <= j < |rest| ensures Less(xs[0], rest[j]) { assert rest[j] in rest; }
    }
  }

  lemma {:induction false} SortAscends(xs: seq<string>)
    requires forall i, j :: 0 <= i < j < |xs| ==> xs[i] != xs[j]
    ensures Ascending(Sort(xs)) && forall y :: y in Sort(xs) <==> y in xs
  {
    if xs != [] {
      SortAscends(xs[1..]);
      assert xs[0] !in xs[1..];
      InsertAscends(Sort(xs[1..]), xs[0]);
    }
  }

  /** The first name is below all the others. */
  lemma FirstIsLeast(xs: seq<string>, x: string)
    requires Ascending(xs) && x in xs
    ensures x == xs[0] || Less(xs[0], x)
  { }

  /** There is one ascending list of a given set of names. */
  lemma {:induction false} AscendingUnique(xs: seq<string>, ys: seq<string>)
    requires Ascending(xs) && Ascending(ys) && forall x :: x in xs <==> x in ys
    ensures xs == ys
  {
    Lists.FirstIn(xs);
    Lists.FirstIn(ys);
    if xs != [] && ys != [] {
      FirstIsLeast(xs, ys[0]);
      FirstIsLeast(ys, xs[0]);
      if Less(xs[0], ys[0]) && Less(ys[0], xs[0]) { LessTransitive(xs[0], ys[0], xs[0]); }
      LessIrreflexive(xs[0]);
      assert xs[0] == ys[0];
      TailMembers(xs);
      TailMembers(ys);
      AscendingUnique(xs[1..], ys[1..]);
    }
  }

  lemma TailMembers(xs: seq<string>)
    requires Ascending(xs) && xs != []
    ensures forall x :: x in xs[1..] <==> x in xs && x != xs[0]
  {
    LessIrreflexive(xs[0]);
    assert xs == [xs[0]] + xs[1..];
  }

  // ----- The selection -----

  /** `shouldReplaceModelsDevCandidate` */
  predicate Replaces(current: Candidate, next: Candidate) {
    if (current.input > 0.0) != (next.input > 0.0) then next.input > 0.0
    else if next.input > 0.0 && !NearlyEqual(next.input, current.input) then next.input < current.input
    else Less(next.provider, current.provider)
  }

  function Better(current: Option<Candidate>, next: Candidate): Candidate {
    if current.None? || Replaces(current.value, next) then next else current.value
  }

  /** The fold over candidates in the order given. */
  function Select(cs: seq<Candidate>): Option<Candidate> {
    if cs == [] then None else Some(Better(Select(cs[..|cs| - 1]), cs[|cs| - 1]))
  }

  /** Candidates as the sorted providers yield them. */
  ghost predicate InOrder(cs: seq<Candidate>) {
    && (forall i :: 0 <= i < |cs| ==> cs[i].input >= 0.0)
    && (forall i, j :: 0 <= i < j < |cs| ==> Less(cs[i].provider, cs[j].provider))
  }

  /** Nothing non-zero among `cs` undercuts `best` by the tolerance or more. */
  ghost predicate Cheapest(best: Candidate, cs: seq<Candidate>) {
    && best in cs
    && forall i :: 0 <= i < |cs| && cs[i].input > 0.0 ==> best.input > 0.0 && best.input < cs[i].input + EPSILON
  }

  /** In name order the fold picks a cheapest non-zero candidate, up to the tolerance. */
  lemma {:induction false} SelectsCheapest(cs: seq<Candidate>)
    requires InOrder(cs) && cs != []
    ensures Cheapest(Select(cs).value, cs)
  {
    var init, next := cs[..|cs| - 1], cs[|cs| - 1];
    assert cs == init + [next];
    if init != [] {
      SelectsCheapest(init);
      StaysCheapest(init, Select(init).value, next);
    }
  }

  lemma StaysCheapest(init: seq<Candidate>, current: Candidate, next: Candidate)
    requires InOrder(init + [next]) && Cheapest(current, init)
    ensures Cheapest(Better(Some(current), next), init + [next])
  {
    var cs, best := init + [next], Better(Some(current), next);
    var i :| 0 <= i < |init| && init[i] == current;
    assert cs[i] == current && cs[|init|] == next;
    LaterName(current.provider, next.provider);
    forall j | 0 <= j < |cs| && cs[j].input > 0.0 ensures best.input > 0.0 && best.input < cs[j].input + EPSILON {
      if j < |init| { assert cs[j] == init[j]; }
    }
  }

  lemma LaterName(a: string, b: string)
    requires Less(a, b)
    ensures !Less(b, a)
  {
    if Less(b, a) {
      LessTransitive(a, b, a);
      LessIrreflexive(a);
    }
  }

  /**
   Out of name order the tolerance drifts: each of three candidates is nearly equal to
   the one before, ties go to the smaller name, and the dearest wins.
   */
  lemma OutOfOrderDrifts()
    ensures exists cs: seq<Candidate> ::
              |cs| == 3 && (forall i :: 0 <= i < 3 ==> cs[i].input > 0.0) && !Cheapest(Select(cs).value, cs)
              && Select(cs) != Select([cs[2], cs[1], cs[0]])
  {
    var a := Candidate("a", 1.0 + 1.8 * EPSILON, None, None);
    var b := Candidate("b", 1.0 + 0.9 * EPSILON, None, None);
    var c := Candidate("c", 1.0, None, None);
    SelectThree(c, b, a);
    SelectThree(a, b, c);
    LessLetters();
    assert Replaces(c, b) && Replaces(b, a);
    assert !Replaces(a, b) && Replaces(a, c);
    var cs := [c, b, a];
    assert cs[0].input > 0.0 && !(a.input < cs[0].input + EPSILON);
    assert [cs[2], cs[1], cs[0]] == [a, b, c];
  }

  lemma LessLetters()
    ensures Less("a", "b") && Less("b", "c") && !Less("b", "a") && !Less("c", "a")
  { }

  lemma SelectThree(x: Candidate, y: Candidate, z: Candidate)
    ensures Select([x, y, z]) == Some(Better(Some(Better(Some(x), y)), z))
  {
    SelectNext([], x);
    SelectNext([x], y);
    SelectNext([x, y], z);
    assert [x] + [y] == [x, y] && [x, y] + [z] == [x, y, z];
  }

  lemma SelectNext(cs: seq<Candidate>, next: Candidate)
    ensures Select(cs + [next]) == Some(Better(Select(cs), next))
    ensures [] + [next] == [next]
  {
    assert (cs + [next])[..|cs|] == cs;
  }

  // ----- The whole listing -----

  type Listing = map<string, map<string, Cost>>

  /** The candidates for a model, provider by provider. */
  function Candidates(data: Listing, providers: seq<string>, model: string): seq<Candidate> {
    if providers == [] then []
    else
      var p := providers[|providers| - 1];
      var cs := Candidates(data, providers[..|providers| - 1], model);
      if p in data && model in data[p] && Build(p, data[p][model]).Some? then cs + [Build(p, data[p][model]).value] else cs
  }

  lemma {:induction false} CandidatesInOrder(data: Listing, providers: seq<string>, model: string)
    requires Ascending(providers)
    ensures InOrder(Candidates(data, providers, model))
    ensures forall i :: 0 <= i < |Candidates(data, providers, model)| ==> Candidates(data, providers, model)[i].provider in providers
  {
    if providers != [] {
      var init := providers[..|providers| - 1];
      CandidatesInOrder(data, init, model);
      assert providers == init + [providers[|providers| - 1]];
    }
  }

  /** A provider's valid candidate for a model, if it has one. */
  function Offer(data: Listing, provider: string, model: string): Option<Candidate> {
    if provider in data && model in data[provider] then Build(provider, data[provider][model]) else None
  }

  lemma {:induction false} OffersAreCandidates(data: Listing, providers: seq<string>, model: string, p: string)
    requires p in providers && Offer(data, p, model).Some?
    ensures Offer(data, p, model).value in Candidates(data, providers, model)
  {
    if p != providers[|providers| - 1] { OffersAreCandidates(data, providers[..|providers| - 1], model, p); }
  }

  /**
   The price chosen for a model is some provider's valid offer; it is non-zero if any
   valid offer is, and no valid non-zero offer undercuts it by the tolerance or more.
   */
  lemma ChosenPrice(data: Listing, providers: seq<string>, model: string, p: string)
    requires Ascending(providers) && p in providers && Offer(data, p, model).Some?
    ensures var best := Select(Candidates(data, providers, model)); var offer := Offer(data, p, model).value;
            && best.Some? && best.value in Candidates(data, providers, model)
            && (offer.input > 0.0 ==> best.value.input > 0.0 && best.value.input < offer.input + EPSILON)
  {
    CandidatesInOrder(data, providers, model);
    OffersAreCandidates(data, providers, model, p);
    SelectsCheapest(Candidates(data, providers, model));
  }

  lemma NearlyEqualIff(a: real, b: real)
    ensures NearlyEqual(a, b) <==> -0.000000001 < a - b < 0.000000001
  { }

  /** A listing that can be used: a finite input cost of at least 0, an output cost like it if there is one, and not free input with paid output. */
  predicate Usable(cost: Cost) {
    && cost.input.Some? && cost.input.value.Num? && cost.input.value.v >= 0.0
    && (cost.output.Some? ==> cost.output.value.Num? && cost.output.value.v >= 0.0)
    && !(cost.input.value.v == 0.0 && cost.output.Some? && cost.output.value.v > 0.0)
  }

  /** A usable listing becomes a candidate at its listed costs, and no other does. */
  lemma BuildExactly(p: string, cost: Cost)
    ensures Build(p, cost).Some? <==> Usable(cost)
    ensures Usable(cost) ==>
              var c := Build(p, cost).value;
              && c.provider == p && c.input == cost.input.value.v
              && (if cost.output.Some? then c.output == Some(cost.output.value.v) else c.output == None)
              && (if cost.cacheRead.Some? && cost.cacheRead.value.Num? && cost.cacheRead.value.v >= 0.0
                  then c.cacheRead == Some(cost.cacheRead.value.v) else c.cacheRead == None)
  { }

  predicate Listed(data: Listing, p: string, model: string) { p in data && model in data[p] && Usable(data[p][model]) }

  lemma {:induction false} CandidatesListed(data: Listing, providers: seq<string>, model: string, c: Candidate)
    requires c in Candidates(data, providers, model)
    ensures c.provider in providers && Listed(data, c.provider, model) && c.input == data[c.provider][model].input.value.v
  {
    var last, init := providers[|providers| - 1], providers[..|providers| - 1];
    if c in Candidates(data, init, model) { CandidatesListed(data, init, model, c); } else { BuildExactly(last, data[last][model]); }
  }

  /** The price chosen is one that a provider lists; if any lists a non-zero one it is non-zero, and below each such plus 1e-9. */
  lemma ChosenListedPrice(data: Listing, providers: seq<string>, model: string, p: string)
    requires Ascending(providers) && p in providers && Listed(data, p, model)
    ensures var best, price := Select(Candidates(data, providers, model)), data[p][model].input.value.v;
            && best.Some? && best.value.provider in providers && Listed(data, best.value.provider, model)
            && best.value.input == data[best.value.provider][model].input.value.v
            && (price > 0.0 ==> 0.0 < best.value.input < price + 0.000000001)
  {
    BuildExactly(p, data[p][model]);
    ChosenPrice(data, providers, model, p);
    CandidatesListed(data, providers, model, Select(Candidates(data, providers, model)).value);
  }

  /** Without a usable listing nothing is chosen. */
  lemma {:induction false} NothingListed(data: Listing, providers: seq<string>, model: string)
    requires forall p :: p in providers ==> !Listed(data, p, model)
    ensures Candidates(data, providers, model) == [] && Select(Candidates(data, providers, model)) == None
  {
    if providers != [] {
      var last := providers[|providers| - 1];
      NothingListed(data, providers[..|providers| - 1], model);
      assert last in providers;
      if last in data && model in data[last] { BuildExactly(last, data[last][model]); }
    }
  }

  /** Ties go to the provider that comes first in name order: among free offers, the first of all. */
  lemma {:induction false} FreeOffersKeepFirst(cs: seq<Candidate>)
    requires InOrder(cs) && cs != [] && forall i :: 0 <= i < |cs| ==> cs[i].input == 0.0
    ensures Select(cs) == Some(cs[0])
  {
    var init, next := cs[..|cs| - 1], cs[|cs| - 1];
    if init != [] {
      FreeOffersKeepFirst(init);
      LaterName(cs[0].provider, next.provider);
    }
  }

  function Get(m: map<string, Candidate>, model: string): Option<Candidate> { if model in m then Some(m[model]) else None }

  function Pick(current: Option<Candidate>, offer: Option<Candidate>): Option<Candidate> {
    if offer.None? then current else Some(Better(current, offer.value))
  }

  /** Names listed once each. */
  ghost predicate Enumerates(order: seq<string>, names: set<string>) {
    && (forall i, j :: 0 <= i < j < |order| ==> order[i] != order[j])
    && (forall x :: x in order <==> x in names)
  }

  /** `selected` is `before` with one provider's offers taken into account. */
  ghost predicate Merged(before: map<string, Candidate>, p: string, offers: map<string, Cost>, selected: map<string, Candidate>) {
    forall m :: Get(selected, m) == if m in offers then Pick(Get(before, m), Build(p, offers[m])) else Get(before, m)
  }

  /** `selected` holds, for every model, what the fold over `providers` selects. */
  ghost predicate Agrees(selected: map<string, Candidate>, data: Listing, providers: seq<string>) {
    forall m :: Get(selected, m) == Select(Candidates(data, providers, m))
  }

  lemma MergedAgrees(before: map<string, Candidate>, data: Listing, providers: seq<string>, p: string, selected: map<string, Candidate>)
    requires Agrees(before, data, providers) && p in data && Merged(before, p, data[p], selected)
    ensures Agrees(selected, data, providers + [p])
  {
    forall m ensures Get(selected, m) == Select(Candidates(data, providers + [p], m)) {
      CandidatesNext(data, providers, p, m);
    }
  }

  /** The inner loop: one provider's models, `order` being the order in which Go ranges over them. */
  method MergeProvider(before: map<string, Candidate>, p: string, offers: map<string, Cost>, order: seq<string>)
    returns (selected: map<string, Candidate>)
    requires Enumerates(order, offers.Keys)
    ensures Merged(before, p, offers, selected)
  {
    var models := Sort(order);
    SortAscends(order);
    selected := before;
    for j := 0 to |models|
      invariant forall m :: Get(selected, m) ==
                  if m in models[..j] then Pick(Get(before, m), Build(p, offers[m])) else Get(before, m)
    {
      var candidate := Build(p, offers[models[j]]);
      assert models[j] !in models[..j] by { LessIrreflexive(models[j]); }
      if candidate.Some? && (models[j] !in selected || Replaces(selected[models[j]], candidate.value)) {
        selected := selected[models[j] := candidate.value];
      }
    }
  }

  /** Sorting forgets the order in which Go happens to range over a map. */
  lemma SortForgetsOrder(order: seq<string>, order': seq<string>, names: set<string>)
    requires Enumerates(order, names) && Enumerates(order', names)
    ensures Sort(order) == Sort(order') && Ascending(Sort(order))
  {
    SortAscends(order);
    SortAscends(order');
    AscendingUnique(Sort(order), Sort(order'));
  }

  /** So does the selection: whatever orders Go ranges in, the result is one and the same map. */
  lemma SelectionForgetsOrder(data: Listing, order: seq<string>, order': seq<string>, sel: map<string, Candidate>, sel': map<string, Candidate>)
    requires Enumerates(order, data.Keys) && Enumerates(order', data.Keys)
    requires Agrees(sel, data, Sort(order)) && Agrees(sel', data, Sort(order'))
    ensures sel == sel'
  {
    SortForgetsOrder(order, order', data.Keys);
    forall m ensures Get(sel, m) == Get(sel', m) {
      assert Get(sel, m) == Select(Candidates(data, Sort(order), m));
      assert Get(sel', m) == Select(Candidates(data, Sort(order'), m));
    }
    forall m ensures m in sel <==> m in sel' { assert Get(sel, m) == Get(sel', m); }
    forall m | m in sel ensures sel[m] == sel'[m] { assert Get(sel, m) == Get(sel', m); }
  }

  /**
   The selection loops of `convertModelsDevToRatioData`; `order` and `modelOrder` are the
   orders in which Go ranges over the maps. By `SortForgetsOrder` they do not matter.
   */
  method SelectAll(data: Listing, order: seq<string>, modelOrder: map<string, seq<string>>) returns (selected: map<string, Candidate>)
    requires Enumerates(order, data.Keys)
    requires forall p :: p in data ==> p in modelOrder && Enumerates(modelOrder[p], data[p].Keys)
    ensures Agrees(selected, data, Sort(order))
  {
    SortAscends(order);
    selected := SelectOver(data, Sort(order), modelOrder);
  }

  /** The loop over the sorted providers. */
  method SelectOver(data: Listing, providers: seq<string>, modelOrder: map<string, seq<string>>) returns (selected: map<string, Candidate>)
    requires forall p :: p in providers ==> p in data && p in modelOrder && Enumerates(modelOrder[p], data[p].Keys)
    ensures Agrees(selected, data, providers)
  {
    selected := map[];
    for i := 0 to |providers|
      invariant Agrees(selected, data, providers[..i])
    {
      var p := providers[i];
      assert p in providers && p in data;
      var merged := MergeProvider(selected, p, data[p], modelOrder[p]);
      MergedAgrees(selected, data, providers[..i], p, merged);
      assert providers[..i + 1] == providers[..i] + [p];
      selected := merged;
    }
    assert providers[..|providers|] == providers;
  }

  lemma CandidatesNext(data: Listing, providers: seq<string>, p: string, m: string)
    ensures Select(Candidates(data, providers + [p], m)) == Pick(Select(Candidates(data, providers, m)), Offer(data, p, m))
  {
    var cs := Candidates(data, providers, m);
    assert (providers + [p])[..|providers|] == providers;
    if Offer(data, p, m).Some? { SelectNext(cs, Offer(data, p, m).value); }
  }
}
