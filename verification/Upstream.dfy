/**
 Upstream model reconciliation (controller/channel_upstream_update.go): detecting
 models to add and remove, applying an administrator's selection, and keeping the
 stored remainder in step with what a fresh detection would find.
 */
module Upstream {
  import opened Wrappers
  import opened Text
  import opened Lists

  type Names = seq<string>

  // ----- Name lists -----

  /** A name as the lists hold it: trimmed and not empty. */
  predicate Clean(x: string) { x != "" && Trimmed(x) }

  /** What `normalizeModelNames` produces. */
  ghost predicate Normal(xs: Names) { Distinct(xs) && forall x :: x in xs ==> Clean(x) }

  /** `normalizeModelNames` */
  function Normalize(xs: Names): Names { Uniq(FilterMap(xs, TrimSpace, x => x != "")) }

  /** `mergeModelNames` */
  function Merge(base: Names, appended: Names): Names {
    var merged := Normalize(base);
    merged + Filter(Normalize(appended), x => x !in merged)
  }

  /** `subtractModelNames` */
  function Subtract(base: Names, removed: Names): Names {
    var r := Normalize(removed);
    Filter(Normalize(base), x => x !in r)
  }

  /** `intersectModelNames` */
  function Intersect(base: Names, allowed: Names): Names {
    var a := Normalize(allowed);
    Filter(Normalize(base), x => x in a)
  }

  /** `applySelectedModelChanges` */
  function ApplySelected(origin: Names, add: Names, remove: Names): Names {
    var a := Normalize(add);
    Subtract(Merge(origin, a), Subtract(Normalize(remove), a))
  }

  lemma NormalizeNormal(xs: Names)
    ensures Normal(Normalize(xs))
  {
    forall x | x in xs && TrimSpace(x) != "" ensures Clean(TrimSpace(x)) { TrimSpaceSpec(x); }
    FilterMapAll(xs, TrimSpace, x => x != "", Clean);
    UniqSpec(FilterMap(xs, TrimSpace, x => x != ""));
  }

  lemma NormalizeOfNormal(xs: Names)
    requires Normal(xs)
    ensures Normalize(xs) == xs
  {
    forall x | x in xs ensures TrimSpace(x) == x { TrimSpaceSpec(x); }
    FilterMapFixed(xs, TrimSpace, x => x != "");
    UniqOfDistinct(xs);
  }

  /** What normalising leaves: the trimmed names that are not empty, each where it first occurs. */
  lemma NormalizeSpec(xs: Names, ys: Names, x: string)
    ensures x in Normalize(xs) <==> x != "" && exists y :: y in xs && TrimSpace(y) == x
    ensures Distinct(Normalize(xs)) && Normalize(xs) <= Normalize(xs + ys)
  {
    var names: string -> bool := y => y != "";
    FilterMapMembers(xs, TrimSpace, names, x);
    UniqSpec(FilterMap(xs, TrimSpace, names));
    FilterMapConcat(xs, ys, TrimSpace, names);
    UniqPrefix(FilterMap(xs, TrimSpace, names), FilterMap(ys, TrimSpace, names));
  }

  lemma FilterNormal(xs: Names, p: string -> bool)
    requires Normal(xs)
    ensures Normal(Filter(xs, p)) && forall x :: x in Filter(xs, p) <==> x in xs && p(x)
  {
    FilterDistinct(xs, p);
    forall x ensures x in Filter(xs, p) <==> x in xs && p(x) { FilterMembers(xs, p, x); }
  }

  /** On normal lists the helpers are plain filters. */
  lemma SubtractNormal(base: Names, removed: Names)
    requires Normal(base) && Normal(removed)
    ensures Subtract(base, removed) == Filter(base, x => x !in removed)
    ensures Normal(Subtract(base, removed))
    ensures forall x :: x in Subtract(base, removed) <==> x in base && x !in removed
  {
    NormalizeOfNormal(base);
    NormalizeOfNormal(removed);
    FilterNormal(base, x => x !in removed);
    FilterEq(base, x => x !in removed, x => x !in Normalize(removed));
  }

  lemma IntersectNormal(input: Names, allowed: Names)
    requires Normal(allowed)
    ensures Normal(Intersect(input, allowed))
    ensures forall x :: x in Intersect(input, allowed) <==> x in Normalize(input) && x in allowed
  {
    NormalizeNormal(input);
    NormalizeOfNormal(allowed);
    FilterNormal(Normalize(input), x => x in allowed);
    FilterEq(Normalize(input), x => x in allowed, x => x in Normalize(allowed));
  }

  lemma MergeNormal(base: Names, appended: Names)
    requires Normal(base) && Normal(appended)
    ensures Merge(base, appended) == base + Filter(appended, x => x !in base)
    ensures Normal(Merge(base, appended))
    ensures forall x :: x in Merge(base, appended) <==> x in base || x in appended
  {
    NormalizeOfNormal(base);
    NormalizeOfNormal(appended);
    FilterNormal(appended, x => x !in base);
    FilterEq(appended, x => x !in base, x => x !in Normalize(base));
    DistinctConcat(base, Filter(appended, x => x !in base));
  }

  // ----- Detection -----

  /** Whether a regular expression matches a name; an invalid one matches nothing. */
  type Regex = (string, string) -> bool

  predicate IsPattern(x: string) { "regex:" <= x }

  /** Whether one entry of the ignore list covers a name. */
  predicate Covers(re: Regex, entry: string, name: string) {
    if IsPattern(entry) then re(TrimSpace(entry[6..]), name) else entry == name
  }

  predicate Ignored(re: Regex, entries: Names, name: string) {
    exists i :: 0 <= i < |entries| && Covers(re, entries[i], name)
  }

  /** An upstream name the channel neither has, nor maps to, nor ignores. */
  predicate Addable(re: Regex, local: Names, ignored: Names, mapping: map<string, string>, x: string) {
    x !in local && x !in mapping.Values && !Ignored(re, ignored, x)
  }

  /** A local name that is no alias and that upstream no longer offers. */
  predicate Removable(upstream: Names, mapping: map<string, string>, x: string) {
    x !in mapping.Keys && x !in upstream
  }

  /** `collectPendingUpstreamModelChangesFromModels` */
  function Collect(re: Regex, local: Names, upstream: Names, ignored: Names, mapping: map<string, string>): (Names, Names) {
    var l, u, g := Normalize(local), Normalize(upstream), Normalize(ignored);
    (Normalize(Filter(u, x => Addable(re, l, g, mapping, x))), Normalize(Filter(l, x => Removable(u, mapping, x))))
  }

  // ----- The channel -----

  /** The fields of a channel that reconciliation reads and writes. */
  datatype Chan = Chan(models: string, mapping: map<string, string>, autoSync: bool,
                       ignored: Names, detected: Names, removed: Names, lastCheck: int)

  function Detect(re: Regex, ch: Chan, upstream: Names): (Names, Names) {
    Collect(re, SplitList(ch.models), upstream, ch.ignored, ch.mapping)
  }

  /** Whether a check that is not forced comes too soon after the last one. */
  predicate TooSoon(ch: Chan, force: bool, now: int, minInterval: int) {
    !force && ch.lastCheck > 0 && now - ch.lastCheck < minInterval
  }

  /**
   `checkAndPersistChannelUpstreamModelUpdates`: the channel after it, and the
   number of models added. `fetched` is `None` when upstream cannot be read.
   */
  function Check(re: Regex, ch: Chan, fetched: Option<Names>, force: bool, allowAuto: bool, now: int, minInterval: int): (Chan, nat) {
    if TooSoon(ch, force, now, minInterval) then (ch, 0)
    else if fetched.None? then (ch.(lastCheck := now), 0)
    else
      var (add, remove) := Detect(re, ch, fetched.value);
      Record(ch, add, remove, allowAuto, now)
  }

  /** What a check stores, given what it detected. */
  function Record(ch: Chan, add: Names, remove: Names, allowAuto: bool, now: int): (Chan, nat) {
    if allowAuto && ch.autoSync && |add| > 0 then
      var origin := Normalize(SplitList(ch.models));
      var merged := Merge(origin, add);
      if |merged| > |origin|
      then (ch.(models := Join(merged), detected := [], removed := remove, lastCheck := now), |merged| - |origin|)
      else (ch.(detected := [], removed := remove, lastCheck := now), 0)
    else (ch.(detected := add, removed := remove, lastCheck := now), 0)
  }

  /** The selection an administrator makes, cut down to what is pending. */
  datatype Selection = Selection(add: Names, ignore: Names, remove: Names)

  function Select(ch: Chan, add: Names, ignore: Names, remove: Names): Selection {
    var p := Normalize(ch.detected);
    var a := Intersect(add, p);
    Selection(a, Intersect(ignore, p), Subtract(Intersect(remove, Normalize(ch.removed)), a))
  }

  /** `applyChannelUpstreamModelUpdates` */
  function Apply(ch: Chan, add: Names, ignore: Names, remove: Names, now: int): Chan {
    Settle(ch, Select(ch, add, ignore, remove), now)
  }

  /** The model list once a selection is put into effect; it is rewritten only when the names change. */
  function ModelsAfter(models: string, s: Selection): string {
    var origin := Normalize(SplitList(models));
    var next := ApplySelected(origin, s.add, s.remove);
    if origin != next then Join(next) else models
  }

  /** The ignore list once a selection is put into effect. */
  function IgnoredNow(ignored: Names, add: Names, ignore: Names): Names {
    var kept := Merge(ignored, ignore);
    if |add| > 0 then Subtract(kept, add) else kept
  }

  /** What stays pending once some names are dealt with. */
  function LeftOver(pending: Names, done: Names): Names { Subtract(Normalize(pending), done) }

  /** The channel once a selection is put into effect. */
  function Settle(ch: Chan, s: Selection, now: int): Chan {
    Chan(ModelsAfter(ch.models, s), ch.mapping, ch.autoSync,
         IgnoredNow(ch.ignored, s.add, s.ignore), LeftOver(ch.detected, s.add + s.ignore), LeftOver(ch.removed, s.remove), now)
  }

  // ----- The stored remainder is what a fresh detection finds -----

  /** The stored lists are exactly those a detection against `upstream` would return now. */
  ghost predicate Synced(re: Regex, ch: Chan, upstream: Names) {
    (ch.detected, ch.removed) == Detect(re, ch, upstream)
  }

  /** Detection on normal lists, as two filters. */
  lemma CollectNormal(re: Regex, local: Names, upstream: Names, ignored: Names, mapping: map<string, string>)
    ensures var l, u, g := Normalize(local), Normalize(upstream), Normalize(ignored);
            && Normal(l) && Normal(u) && Normal(g)
            && Collect(re, local, upstream, ignored, mapping) ==
               (Filter(u, x => Addable(re, l, g, mapping, x)), Filter(l, x => Removable(u, mapping, x)))
            && Normal(Filter(u, x => Addable(re, l, g, mapping, x)))
            && Normal(Filter(l, x => Removable(u, mapping, x)))
  {
    var l, u, g := Normalize(local), Normalize(upstream), Normalize(ignored);
    NormalizeNormal(local);
    NormalizeNormal(upstream);
    NormalizeNormal(ignored);
    FilterNormal(u, x => Addable(re, l, g, mapping, x));
    FilterNormal(l, x => Removable(u, mapping, x));
    NormalizeOfNormal(Filter(u, x => Addable(re, l, g, mapping, x)));
    NormalizeOfNormal(Filter(l, x => Removable(u, mapping, x)));
  }

  /** An entry of the ignore list, plain or after "regex:", covers a name. */
  predicate Matches(re: Regex, entry: string, name: string) {
    if |entry| >= 6 && entry[..6] == "regex:" then re(TrimSpace(entry[6..]), name) else entry == name
  }

  lemma IgnoredIff(re: Regex, entries: Names, name: string)
    ensures Ignored(re, entries, name) <==> exists e :: e in entries && Matches(re, e, name)
  {
    if Ignored(re, entries, name) {
      var i :| 0 <= i < |entries| && Covers(re, entries[i], name);
      assert entries[i] in entries && Matches(re, entries[i], name);
    }
    if exists e :: e in entries && Matches(re, e, name) {
      var e :| e in entries && Matches(re, e, name);
      var i :| 0 <= i < |entries| && entries[i] == e;
      assert Covers(re, entries[i], name);
    }
  }

  /**
   To be added: the upstream names that are neither local, nor a target of the mapping, nor
   matched by an entry of the ignore list. To be removed: the local names that are neither a
   source of the mapping nor offered upstream.
   */
  lemma DetectsExactly(re: Regex, local: Names, upstream: Names, ignored: Names, mapping: map<string, string>, x: string)
    ensures var (add, remove) := Collect(re, local, upstream, ignored, mapping);
            && (x in add <==> && x in Normalize(upstream) && x !in Normalize(local) && (forall k :: k in mapping ==> mapping[k] != x)
                              && forall e :: e in Normalize(ignored) ==> !Matches(re, e, x))
            && (x in remove <==> x in Normalize(local) && x !in mapping && x !in Normalize(upstream))
  {
    var l, u, g := Normalize(local), Normalize(upstream), Normalize(ignored);
    CollectNormal(re, local, upstream, ignored, mapping);
    FilterMembers(u, y => Addable(re, l, g, mapping, y), x);
    FilterMembers(l, y => Removable(u, mapping, y), x);
    IgnoredIff(re, g, x);
  }

  /** Both in the order of the list they come from, each name once. */
  lemma DetectsInOrder(re: Regex, local: Names, upstream: Names, ignored: Names, mapping: map<string, string>)
    ensures var (add, remove) := Collect(re, local, upstream, ignored, mapping);
            && Distinct(add) && Filter(Normalize(upstream), x => x in add) == add
            && Distinct(remove) && Filter(Normalize(local), x => x in remove) == remove
  {
    var l, u, g := Normalize(local), Normalize(upstream), Normalize(ignored);
    CollectNormal(re, local, upstream, ignored, mapping);
    FilterKeepsOrder(u, x => Addable(re, l, g, mapping, x));
    FilterKeepsOrder(l, x => Removable(u, mapping, x));
  }

  /** A check is skipped exactly when it is not forced and the last one was less than the interval ago; one that cannot read upstream only notes the time. */
  lemma CheckPaths(re: Regex, ch: Chan, fetched: Option<Names>, force: bool, allowAuto: bool, now: int, minInterval: int)
    ensures var (ch', added) := Check(re, ch, fetched, force, allowAuto, now, minInterval);
            if !force && ch.lastCheck > 0 && now - ch.lastCheck < minInterval then ch' == ch && added == 0
            else ch'.lastCheck == now && (fetched.None? ==> ch' == ch.(lastCheck := now) && added == 0)
    ensures TooSoon(ch, force, now, minInterval) <==> !force && ch.lastCheck > 0 && now - ch.lastCheck < minInterval
  { }

  lemma LocalListable(models: string)
    ensures forall x :: x in Normalize(SplitList(models)) ==> Listable(x)
  {
    var xs := SplitList(models);
    SplitFromNone(',', "", TrimChar(',', models));
    forall x | x in xs && TrimSpace(x) != "" ensures Listable(TrimSpace(x)) {
      TrimLeftChars(x, ',');
      TrimRightChars(TrimLeft(x), ',');
    }
    FilterMapAll(xs, TrimSpace, x => x != "", Listable);
    UniqSpec(FilterMap(xs, TrimSpace, x => x != ""));
  }

  /** Storing a normal list of comma-free names and reading it back. */
  lemma StoredNames(xs: Names)
    requires Normal(xs) && forall x :: x in xs ==> Listable(x)
    ensures Normalize(SplitList(Join(xs))) == xs
  {
    SplitListJoin(xs);
    NormalizeOfNormal(xs);
  }

  lemma NextModels(l: Names, a: Names, r: Names)
    requires Normal(l) && Normal(a) && Normal(r) && forall x :: x in r ==> x !in a
    ensures ApplySelected(l, a, r) == Filter(l + Filter(a, x => x !in l), x => x !in r)
    ensures Normal(ApplySelected(l, a, r))
    ensures forall x :: x in ApplySelected(l, a, r) <==> (x in l || x in a) && x !in r
  {
    NormalizeOfNormal(a);
    NormalizeOfNormal(r);
    SubtractNormal(r, a);
    FilterAll(r, x => x !in a);
    MergeNormal(l, a);
    SubtractNormal(Merge(l, a), r);
  }

  /** After applying, a name is ignored if it was, or if it was selected to be and not added. */
  lemma IgnoredAfter(re: Regex, g: Names, a: Names, i: Names, g': Names, x: string)
    requires forall y :: y in g' <==> (y in g || y in i) && y !in a
    requires x !in a && forall y :: y in a || y in i ==> !IsPattern(y)
    ensures Ignored(re, g', x) <==> Ignored(re, g, x) || x in i
  {
    if Ignored(re, g', x) {
      var k :| 0 <= k < |g'| && Covers(re, g'[k], x);
      assert g'[k] in g';
      if g'[k] in g { var j :| 0 <= j < |g| && g[j] == g'[k]; assert Covers(re, g[j], x); }
    }
    if Ignored(re, g, x) {
      var k :| 0 <= k < |g| && Covers(re, g[k], x);
      assert g[k] in g && g[k] in g';
      var j :| 0 <= j < |g'| && g'[j] == g[k];
      assert Covers(re, g'[j], x);
    } else if x in i {
      assert x in g';
      var j :| 0 <= j < |g'| && g'[j] == x;
      assert Covers(re, g'[j], x);
    }
  }

  /**
   Of the upstream names that are neither local, added nor mapped to, the new ignore list
   `g'` covers exactly those the old one `g` does and those chosen to be ignored.
   */
  ghost predicate Coverage(re: Regex, mapping: map<string, string>, l: Names, u: Names, g: Names, a: Names, i: Names, g': Names) {
    forall x :: x in u && x !in l && x !in a && x !in mapping.Values ==> (Ignored(re, g', x) <==> Ignored(re, g, x) || x in i)
  }

  /** The adds a fresh detection finds are those left over, exactly when the ignore list covers what it should. */
  lemma FreshAddsIff(re: Regex, mapping: map<string, string>, l: Names, u: Names, g: Names, a: Names, i: Names, r: Names, l': Names, g': Names)
    requires Normal(u) && Normal(a) && Normal(i)
    requires forall x :: x in r ==> x !in u
    requires forall x :: x in l' <==> (x in l || x in a) && x !in r
    requires Normal(Filter(u, x => Addable(re, l, g, mapping, x)))
    ensures Filter(u, x => Addable(re, l', g', mapping, x)) == Subtract(Filter(u, x => Addable(re, l, g, mapping, x)), a + i)
            <==> Coverage(re, mapping, l, u, g, a, i, g')
  {
    var was, now: string -> bool := x => Addable(re, l, g, mapping, x), x => Addable(re, l', g', mapping, x);
    var left: string -> bool := x => was(x) && x !in a + i;
    FilterFilter(u, was, x => x !in a + i, left);
    SubtractSum(Filter(u, was), a, i);
    FilterEqIff(u, now, left);
    forall x | x in u
      ensures now(x) == left(x) <==>
                (x !in l && x !in a && x !in mapping.Values ==> (Ignored(re, g', x) <==> Ignored(re, g, x) || x in i))
    { }
  }

  /** Plain names cover what they should. */
  lemma PlainCoverage(re: Regex, mapping: map<string, string>, l: Names, u: Names, g: Names, a: Names, i: Names, g': Names)
    requires forall x :: x in g' <==> (x in g || x in i) && x !in a
    requires forall x :: x in a || x in i ==> !IsPattern(x)
    ensures Coverage(re, mapping, l, u, g, a, i, g')
  {
    forall x | x !in a ensures Ignored(re, g', x) <==> Ignored(re, g, x) || x in i { IgnoredAfter(re, g, a, i, g', x); }
  }

  /** Subtracting two normal lists at once. */
  lemma SubtractSum(p: Names, a: Names, i: Names)
    requires Normal(p) && Normal(a) && Normal(i)
    ensures Subtract(p, a + i) == Filter(p, x => x !in a + i)
  {
    var ai := a + i;
    NormalizeOfNormal(p);
    forall x | x in ai ensures TrimSpace(x) == x { TrimSpaceSpec(x); }
    FilterMapFixed(ai, TrimSpace, x => x != "");
    UniqSpec(ai);
    FilterEq(p, x => x !in ai, x => x !in Normalize(ai));
  }

  /** The removals a fresh detection finds are those left over. */
  lemma FreshRemoves(mapping: map<string, string>, l: Names, u: Names, a: Names, r: Names)
    requires Normal(l) && Normal(r) && forall x :: x in a ==> x in u
    requires Normal(Filter(l, x => Removable(u, mapping, x)))
    ensures Filter(Filter(l + Filter(a, x => x !in l), x => x !in r), x => Removable(u, mapping, x)) ==
            Subtract(Filter(l, x => Removable(u, mapping, x)), r)
  {
    var gone, kept: string -> bool := x => Removable(u, mapping, x), x => x !in r;
    var both: string -> bool := x => kept(x) && gone(x);
    var added := Filter(a, x => x !in l);
    forall x ensures x in added ==> x in a { FilterMembers(a, x => x !in l, x); }
    FilterFilter(l + added, kept, gone, both);
    FilterConcat(l, added, both);
    FilterNone(added, both);
    FilterFilter(l, gone, kept, both);
    SubtractNormal(Filter(l, gone), r);
  }

  /** Names that can be stored: a comma would break one up. */
  predicate CommaFree(xs: Names) { forall x :: x in xs ==> ',' !in x }

  /** No name selected for adding or ignoring looks like a pattern. */
  ghost predicate PlainSelection(s: Selection) { forall x :: x in s.add || x in s.ignore ==> !IsPattern(x) }

  lemma SelectNormal(ch: Chan, add: Names, ignore: Names, remove: Names)
    requires Normal(ch.detected) && Normal(ch.removed)
    ensures var s := Select(ch, add, ignore, remove);
            && Normal(s.add) && Normal(s.ignore) && Normal(s.remove)
            && (forall x :: x in s.add <==> x in Normalize(add) && x in ch.detected)
            && (forall x :: x in s.ignore <==> x in Normalize(ignore) && x in ch.detected)
            && (forall x :: x in s.remove <==> x in Normalize(remove) && x in ch.removed && x !in s.add)
  {
    NormalizeOfNormal(ch.detected);
    NormalizeOfNormal(ch.removed);
    IntersectNormal(add, ch.detected);
    IntersectNormal(ignore, ch.detected);
    IntersectNormal(remove, ch.removed);
    SubtractNormal(Intersect(remove, ch.removed), Intersect(add, ch.detected));
  }

  /** Once the new model list is stored, a fresh detection reads it back. */
  lemma ModelsStored(ch: Chan, s: Selection)
    requires Normal(s.add) && Normal(s.remove) && CommaFree(s.add) && forall x :: x in s.remove ==> x !in s.add
    ensures var l := Normalize(SplitList(ch.models)); var next := ApplySelected(l, s.add, s.remove);
            Normalize(SplitList(ModelsAfter(ch.models, s))) == next
  {
    var l := Normalize(SplitList(ch.models));
    NormalizeNormal(SplitList(ch.models));
    NextModels(l, s.add, s.remove);
    LocalListable(ch.models);
    var next := ApplySelected(l, s.add, s.remove);
    if next != l { StoredNames(next); }
  }

  /** What an administrator's selection covers once it is put into effect. */
  ghost predicate SelectionCovers(re: Regex, ch: Chan, upstream: Names, s: Selection) {
    Coverage(re, ch.mapping, Normalize(SplitList(ch.models)), Normalize(upstream), Normalize(ch.ignored), s.add, s.ignore,
             IgnoredNow(ch.ignored, s.add, s.ignore))
  }

  /**
   Each upstream name that is not mapped to is in the model list as it is read back, or
   ignored, exactly when it was before or was chosen to be added or ignored.
   */
  ghost predicate Handled(re: Regex, ch: Chan, upstream: Names, s: Selection) {
    var l, l' := Normalize(SplitList(ch.models)), Normalize(SplitList(ModelsAfter(ch.models, s)));
    var g, g' := Normalize(ch.ignored), IgnoredNow(ch.ignored, s.add, s.ignore);
    forall x :: x in Normalize(upstream) && x !in ch.mapping.Values ==>
      (x in l' || Ignored(re, g', x) <==> x in l || Ignored(re, g, x) || x in s.add || x in s.ignore)
  }

  /** Of the model list as it is read back, and of the one that was meant, the same names are to be removed. */
  ghost predicate SameRemovals(ch: Chan, upstream: Names, s: Selection) {
    var gone: string -> bool := x => Removable(Normalize(upstream), ch.mapping, x);
    Filter(Normalize(SplitList(ModelsAfter(ch.models, s))), gone)
      == Filter(ApplySelected(Normalize(SplitList(ch.models)), s.add, s.remove), gone)
  }

  /** Whatever is selected, the stored remainder is what re-running the detection returns exactly when both hold. */
  lemma ApplySyncedIff(re: Regex, ch: Chan, upstream: Names, add: Names, ignore: Names, remove: Names, now: int)
    requires Synced(re, ch, upstream)
    ensures Synced(re, Apply(ch, add, ignore, remove, now), upstream) <==>
              var s := Select(ch, add, ignore, remove); Handled(re, ch, upstream, s) && SameRemovals(ch, upstream, s)
  {
    var ch', s := Apply(ch, add, ignore, remove, now), Select(ch, add, ignore, remove);
    var l, u, g := Normalize(SplitList(ch.models)), Normalize(upstream), Normalize(ch.ignored);
    WhatIsLeft(re, ch, upstream, add, ignore, remove, now);
    CollectNormal(re, SplitList(ch'.models), upstream, ch'.ignored, ch'.mapping);
    NormalizeOfNormal(ch'.ignored);
    FreshHandledIff(re, ch.mapping, l, u, g, s.add, s.ignore, Normalize(SplitList(ch'.models)), ch'.ignored);
  }

  /** The lists a selection leaves, as filters of those a detection starts from. */
  lemma WhatIsLeft(re: Regex, ch: Chan, upstream: Names, add: Names, ignore: Names, remove: Names, now: int)
    requires Synced(re, ch, upstream)
    ensures var ch', s := Apply(ch, add, ignore, remove, now), Select(ch, add, ignore, remove);
            var l, u, g := Normalize(SplitList(ch.models)), Normalize(upstream), Normalize(ch.ignored);
            var add := Filter(u, x => Addable(re, l, g, ch.mapping, x));
            && Normal(s.add) && Normal(s.ignore) && Normal(add) && Normal(ch'.ignored)
            && ch'.detected == Subtract(add, s.add + s.ignore)
            && ch'.removed == Filter(ApplySelected(l, s.add, s.remove), x => Removable(u, ch.mapping, x))
  {
    var l, u, g := Normalize(SplitList(ch.models)), Normalize(upstream), Normalize(ch.ignored);
    CollectNormal(re, SplitList(ch.models), upstream, ch.ignored, ch.mapping);
    FilterNormal(u, x => Addable(re, l, g, ch.mapping, x));
    SelectNormal(ch, add, ignore, remove);
    var s := Select(ch, add, ignore, remove);
    NormalizeOfNormal(ch.detected);
    NormalizeOfNormal(ch.removed);
    NextModels(l, s.add, s.remove);
    IgnoreList(ch, s);
    FreshRemoves(ch.mapping, l, u, s.add, s.remove);
  }

  lemma FreshHandledIff(re: Regex, mapping: map<string, string>, l: Names, u: Names, g: Names, a: Names, i: Names, l': Names, g': Names)
    requires Normal(a) && Normal(i) && Normal(Filter(u, x => Addable(re, l, g, mapping, x)))
    ensures Filter(u, x => Addable(re, l', g', mapping, x)) == Subtract(Filter(u, x => Addable(re, l, g, mapping, x)), a + i)
            <==> forall x :: x in u && x !in mapping.Values ==>
                   (x in l' || Ignored(re, g', x) <==> x in l || Ignored(re, g, x) || x in a || x in i)
  {
    var was, now: string -> bool := x => Addable(re, l, g, mapping, x), x => Addable(re, l', g', mapping, x);
    var left: string -> bool := x => was(x) && x !in a + i;
    FilterFilter(u, was, x => x !in a + i, left);
    SubtractSum(Filter(u, was), a, i);
    FilterEqIff(u, now, left);
    forall x | x in u
      ensures now(x) == left(x) <==>
                (x !in mapping.Values ==> (x in l' || Ignored(re, g', x) <==> x in l || Ignored(re, g, x) || x in a || x in i))
    { }
  }

  /**
   Whatever is selected, as long as no name added has a comma, the stored remainder is what
   re-running the detection returns exactly when the ignore list covers what it should.
   */
  lemma ApplySyncedIffCovers(re: Regex, ch: Chan, upstream: Names, add: Names, ignore: Names, remove: Names, now: int)
    requires Synced(re, ch, upstream) && CommaFree(Select(ch, add, ignore, remove).add)
    ensures Synced(re, Apply(ch, add, ignore, remove, now), upstream)
            <==> SelectionCovers(re, ch, upstream, Select(ch, add, ignore, remove))
  {
    var ch' := Apply(ch, add, ignore, remove, now);
    var l, u, g := Normalize(SplitList(ch.models)), Normalize(upstream), Normalize(ch.ignored);
    CollectNormal(re, SplitList(ch.models), upstream, ch.ignored, ch.mapping);
    FilterNormal(u, x => Addable(re, l, g, ch.mapping, x));
    FilterNormal(l, x => Removable(u, ch.mapping, x));
    SelectNormal(ch, add, ignore, remove);
    var s := Select(ch, add, ignore, remove);
    NormalizeOfNormal(ch.detected);
    NormalizeOfNormal(ch.removed);
    NextModels(l, s.add, s.remove);
    ModelsStored(ch, s);
    var next := ApplySelected(l, s.add, s.remove);
    IgnoreList(ch, s);
    CollectNormal(re, SplitList(ch'.models), upstream, ch'.ignored, ch'.mapping);
    NormalizeOfNormal(ch'.ignored);
    FreshAddsIff(re, ch.mapping, l, u, g, s.add, s.ignore, s.remove, next, ch'.ignored);
    FreshRemoves(ch.mapping, l, u, s.add, s.remove);
  }

  /**
   Whatever is selected, as long as no name added or ignored reads as a pattern, the stored
   remainder is what re-running the detection returns exactly when no name added has a comma.
   */
  lemma ApplySyncedIffCommaFree(re: Regex, ch: Chan, upstream: Names, add: Names, ignore: Names, remove: Names, now: int)
    requires Synced(re, ch, upstream) && PlainSelection(Select(ch, add, ignore, remove))
    ensures Synced(re, Apply(ch, add, ignore, remove, now), upstream) <==> CommaFree(Select(ch, add, ignore, remove).add)
  {
    var s := Select(ch, add, ignore, remove);
    if CommaFree(s.add) {
      SyncedNormal(re, ch, upstream);
      SelectNormal(ch, add, ignore, remove);
      IgnoreList(ch, s);
      PlainCoverage(re, ch.mapping, Normalize(SplitList(ch.models)), Normalize(upstream), Normalize(ch.ignored), s.add, s.ignore,
                    IgnoredNow(ch.ignored, s.add, s.ignore));
      ApplySyncedIffCovers(re, ch, upstream, add, ignore, remove, now);
    } else {
      var x :| x in s.add && ',' in x;
      CommaAddBreaks(re, ch, upstream, add, ignore, remove, now, x);
    }
  }

  lemma SyncedNormal(re: Regex, ch: Chan, upstream: Names)
    requires Synced(re, ch, upstream)
    ensures Normal(ch.detected) && Normal(ch.removed)
    ensures forall x :: x in ch.detected <==>
              x in Normalize(upstream) && Addable(re, Normalize(SplitList(ch.models)), Normalize(ch.ignored), ch.mapping, x)
  {
    var l, u, g := Normalize(SplitList(ch.models)), Normalize(upstream), Normalize(ch.ignored);
    CollectNormal(re, SplitList(ch.models), upstream, ch.ignored, ch.mapping);
    FilterNormal(u, x => Addable(re, l, g, ch.mapping, x));
  }

  /** What a selection comes to: the pending names chosen are added, ignored or removed, and the rest stays as it was, in order. */
  lemma ApplySpec(ch: Chan, add: Names, ignore: Names, remove: Names, now: int)
    requires Normal(ch.detected) && Normal(ch.removed)
    ensures var s, ch' := Select(ch, add, ignore, remove), Apply(ch, add, ignore, remove, now);
            && (forall x :: x in s.add <==> x in Normalize(add) && x in ch.detected)
            && (forall x :: x in s.ignore <==> x in Normalize(ignore) && x in ch.detected)
            && (forall x :: x in s.remove <==> x in Normalize(remove) && x in ch.removed && x !in s.add)
            && ch'.detected == Filter(ch.detected, x => x !in s.add + s.ignore)
            && ch'.removed == Filter(ch.removed, x => x !in s.remove)
            && ch'.mapping == ch.mapping && ch'.autoSync == ch.autoSync && ch'.lastCheck == now
            && (forall x :: x in ch'.ignored <==> (x in Normalize(ch.ignored) || x in s.ignore) && x !in s.add)
    ensures var s, ch' := Select(ch, add, ignore, remove), Apply(ch, add, ignore, remove, now);
            var l := Normalize(SplitList(ch.models));
            CommaFree(s.add) ==> Normalize(SplitList(ch'.models)) == Filter(l + Filter(s.add, x => x !in l), x => x !in s.remove)
  {
    var s, l := Select(ch, add, ignore, remove), Normalize(SplitList(ch.models));
    SelectNormal(ch, add, ignore, remove);
    IgnoreList(ch, s);
    NormalizeOfNormal(ch.detected);
    NormalizeOfNormal(ch.removed);
    SubtractSum(ch.detected, s.add, s.ignore);
    SubtractNormal(ch.removed, s.remove);
    NormalizeNormal(SplitList(ch.models));
    NextModels(l, s.add, s.remove);
    if CommaFree(s.add) { ModelsStored(ch, s); }
  }

  /** A name with a comma is found missing whatever the model list says, unless it is ignored or mapped to. */
  lemma CommaNameMissing(re: Regex, ch: Chan, upstream: Names, x: string)
    requires x in Normalize(upstream) && ',' in x && x !in ch.mapping.Values && !Ignored(re, Normalize(ch.ignored), x)
    ensures x in Detect(re, ch, upstream).0
  {
    var l, u, g := Normalize(SplitList(ch.models)), Normalize(upstream), Normalize(ch.ignored);
    LocalListable(ch.models);
    CollectNormal(re, SplitList(ch.models), upstream, ch.ignored, ch.mapping);
    FilterMembers(u, y => Addable(re, l, g, ch.mapping, y), x);
  }

  lemma CommaAddBreaks(re: Regex, ch: Chan, upstream: Names, add: Names, ignore: Names, remove: Names, now: int, x: string)
    requires Synced(re, ch, upstream) && forall y :: y in Select(ch, add, ignore, remove).ignore ==> !IsPattern(y)
    requires x in Select(ch, add, ignore, remove).add && ',' in x
    ensures !Synced(re, Apply(ch, add, ignore, remove, now), upstream)
  {
    var s, ch' := Select(ch, add, ignore, remove), Apply(ch, add, ignore, remove, now);
    var g := Normalize(ch.ignored);
    SyncedNormal(re, ch, upstream);
    ApplyLists(ch, add, ignore, remove, now);
    NormalizeOfNormal(ch'.ignored);
    AddedNotCovered(re, g, s.add, s.ignore, ch'.ignored, x);
    CommaNameMissing(re, ch', upstream, x);
  }

  /** Plain names chosen to be ignored do not cover a name that is added. */
  lemma AddedNotCovered(re: Regex, g: Names, a: Names, i: Names, g': Names, x: string)
    requires forall y :: y in g' ==> (y in g || y in i) && y !in a
    requires x in a && forall y :: y in i ==> !IsPattern(y)
    ensures Ignored(re, g', x) ==> Ignored(re, g, x)
  {
    if Ignored(re, g', x) {
      var k :| 0 <= k < |g'| && Covers(re, g'[k], x);
      assert g'[k] in g' && g'[k] in g;
      var j :| 0 <= j < |g| && g[j] == g'[k];
      assert Covers(re, g[j], x);
    }
  }

  lemma IgnoreList(ch: Chan, s: Selection)
    requires Normal(s.add) && Normal(s.ignore)
    ensures var ignored := IgnoredNow(ch.ignored, s.add, s.ignore);
            && Normal(ignored)
            && forall x :: x in ignored <==> (x in Normalize(ch.ignored) || x in s.ignore) && x !in s.add
  {
    var g := Normalize(ch.ignored);
    NormalizeNormal(ch.ignored);
    NormalizeOfNormal(g);
    MergeNormal(g, s.ignore);
    SubtractNormal(Merge(g, s.ignore), s.add);
  }

  /** Selecting everything pending leaves nothing pending. */
  lemma ApplyAllLeavesNothing(re: Regex, ch: Chan, upstream: Names, now: int)
    requires Synced(re, ch, upstream)
    ensures var ch' := Apply(ch, ch.detected, [], ch.removed, now); ch'.detected == [] && ch'.removed == []
  {
    var l, u, g := Normalize(SplitList(ch.models)), Normalize(upstream), Normalize(ch.ignored);
    CollectNormal(re, SplitList(ch.models), upstream, ch.ignored, ch.mapping);
    FilterNormal(u, x => Addable(re, l, g, ch.mapping, x));
    FilterNormal(l, x => Removable(u, ch.mapping, x));
    SelectNormal(ch, ch.detected, [], ch.removed);
    var s := Select(ch, ch.detected, [], ch.removed);
    NormalizeOfNormal(ch.detected);
    NormalizeOfNormal(ch.removed);
    SubtractSum(ch.detected, s.add, s.ignore);
    SubtractNormal(ch.removed, s.remove);
    FilterNone(ch.detected, x => x !in s.add + s.ignore);
    FilterNone(ch.removed, x => x !in s.remove);
  }

  // ----- Checking -----

  /** Adding everything pending leaves nothing to add, and the same removals. */
  lemma AllAdded(re: Regex, mapping: map<string, string>, l: Names, u: Names, g: Names)
    requires Normal(l) && Normal(u)
    ensures var add := Filter(u, x => Addable(re, l, g, mapping, x));
            && Merge(l, add) == l + add
            && Filter(u, x => Addable(re, l + add, g, mapping, x)) == []
            && Filter(l + add, x => Removable(u, mapping, x)) == Filter(l, x => Removable(u, mapping, x))
  {
    var add := Filter(u, x => Addable(re, l, g, mapping, x));
    FilterNormal(u, x => Addable(re, l, g, mapping, x));
    MergeNormal(l, add);
    FilterAll(add, x => x !in l);
    FilterNone(u, x => Addable(re, l + add, g, mapping, x));
    FilterConcat(l, add, x => Removable(u, mapping, x));
    FilterNone(add, x => Removable(u, mapping, x));
  }

  /**
   A completed check finds the same removals, adds and reports exactly the pending adds when
   automatic adding is on, and leaves the channel in step with upstream exactly when none of
   the names it added has a comma.
   */
  lemma CheckSyncsIff(re: Regex, ch: Chan, upstream: Names, force: bool, allowAuto: bool, now: int, minInterval: int)
    requires !TooSoon(ch, force, now, minInterval)
    ensures var (ch', added) := Check(re, ch, Some(upstream), force, allowAuto, now, minInterval);
            var (add, remove) := Detect(re, ch, upstream);
            && ch'.removed == remove
            && ch'.mapping == ch.mapping && ch'.autoSync == ch.autoSync && ch'.ignored == ch.ignored
            && (allowAuto && ch.autoSync ==> added == |add| && ch'.detected == [])
            && (!(allowAuto && ch.autoSync) ==> added == 0 && ch'.models == ch.models)
            && (Synced(re, ch', upstream) <==> (allowAuto && ch.autoSync ==> CommaFree(add)))
            && (allowAuto && ch.autoSync && CommaFree(add) ==>
                  Normalize(SplitList(ch'.models)) == Normalize(SplitList(ch.models)) + add)
  {
    var (ch', added) := Check(re, ch, Some(upstream), force, allowAuto, now, minInterval);
    var (add, remove) := Detect(re, ch, upstream);
    if allowAuto && ch.autoSync && |add| > 0 {
      var l, u, g := Normalize(SplitList(ch.models)), Normalize(upstream), Normalize(ch.ignored);
      CollectNormal(re, SplitList(ch.models), upstream, ch.ignored, ch.mapping);
      FilterNormal(u, x => Addable(re, l, g, ch.mapping, x));
      AllAdded(re, ch.mapping, l, u, g);
      MergeNormal(l, add);
      if CommaFree(add) {
        LocalListable(ch.models);
        StoredNames(l + add);
        CollectNormal(re, SplitList(Join(l + add)), upstream, ch.ignored, ch.mapping);
      } else {
        var x :| x in add && ',' in x;
        CommaNameMissing(re, ch', upstream, x);
      }
    }
  }

  // ----- Every run -----

  datatype Op =
    | DoCheck(readable: bool, force: bool, allowAuto: bool, now: int, minInterval: int)
    | DoApply(add: Names, ignore: Names, remove: Names, now: int)

  /** The channel after an operation, and the number of models a check added. */
  function Do(re: Regex, ch: Chan, upstream: Names, op: Op): (Chan, nat) {
    match op
    case DoCheck(readable, force, allowAuto, now, minInterval) =>
      Check(re, ch, if readable then Some(upstream) else None, force, allowAuto, now, minInterval)
    case DoApply(add, ignore, remove, now) => (Apply(ch, add, ignore, remove, now), 0)
  }

  function RunOps(re: Regex, ch: Chan, upstream: Names, ops: seq<Op>): Chan
    decreases |ops|
  {
    if ops == [] then ch else RunOps(re, Do(re, ch, upstream, ops[0]).0, upstream, ops[1..])
  }

  /** The number of models all the checks of a run add. */
  function TotalAdded(re: Regex, ch: Chan, upstream: Names, ops: seq<Op>): nat
    decreases |ops|
  {
    if ops == [] then 0
    else Do(re, ch, upstream, ops[0]).1 + TotalAdded(re, Do(re, ch, upstream, ops[0]).0, upstream, ops[1..])
  }

  /** An operation ignores or adds, by choice, no name that reads as a pattern. */
  ghost predicate PlainOp(ch: Chan, op: Op) { op.DoApply? ==> PlainSelection(Select(ch, op.add, op.ignore, op.remove)) }

  /** An operation adds, by choice or automatically, no name with a comma. */
  predicate AddsStorable(re: Regex, ch: Chan, upstream: Names, op: Op) {
    match op
    case DoCheck(readable, force, allowAuto, now, minInterval) =>
      readable && !TooSoon(ch, force, now, minInterval) && allowAuto && ch.autoSync ==> CommaFree(Detect(re, ch, upstream).0)
    case DoApply(add, ignore, remove, now) => CommaFree(Select(ch, add, ignore, remove).add)
  }

  ghost predicate PlainRun(re: Regex, ch: Chan, upstream: Names, ops: seq<Op>)
    decreases |ops|
  {
    ops != [] ==> PlainOp(ch, ops[0]) && PlainRun(re, Do(re, ch, upstream, ops[0]).0, upstream, ops[1..])
  }

  predicate RunAddsStorable(re: Regex, ch: Chan, upstream: Names, ops: seq<Op>)
    decreases |ops|
  {
    ops != [] ==> AddsStorable(re, ch, upstream, ops[0]) && RunAddsStorable(re, Do(re, ch, upstream, ops[0]).0, upstream, ops[1..])
  }

  /** In step with upstream now, and after every operation of a run. */
  ghost predicate StaysSynced(re: Regex, ch: Chan, upstream: Names, ops: seq<Op>)
    decreases |ops|
  {
    Synced(re, ch, upstream) && (ops != [] ==> StaysSynced(re, Do(re, ch, upstream, ops[0]).0, upstream, ops[1..]))
  }

  /** The exact condition for an operation to leave the channel in step. */
  ghost predicate KeepsStep(re: Regex, ch: Chan, upstream: Names, op: Op) {
    if op.DoCheck? then AddsStorable(re, ch, upstream, op)
    else
      var s := Select(ch, op.add, op.ignore, op.remove);
      Handled(re, ch, upstream, s) && SameRemovals(ch, upstream, s)
  }

  ghost predicate RunKeepsStep(re: Regex, ch: Chan, upstream: Names, ops: seq<Op>)
    decreases |ops|
  {
    ops != [] ==> KeepsStep(re, ch, upstream, ops[0]) && RunKeepsStep(re, Do(re, ch, upstream, ops[0]).0, upstream, ops[1..])
  }

  lemma OpSyncedIff(re: Regex, ch: Chan, upstream: Names, op: Op)
    requires Synced(re, ch, upstream)
    ensures Synced(re, Do(re, ch, upstream, op).0, upstream) <==> KeepsStep(re, ch, upstream, op)
  {
    match op
    case DoCheck(readable, force, allowAuto, now, minInterval) =>
      if readable && !TooSoon(ch, force, now, minInterval) {
        CheckSyncsIff(re, ch, upstream, force, allowAuto, now, minInterval);
      }
    case DoApply(add, ignore, remove, now) => ApplySyncedIff(re, ch, upstream, add, ignore, remove, now);
  }

  /**
   A channel in step with upstream stays in step through every run of checks and selections
   in which each automatic add is comma-free and each selection is read back as it was meant;
   through no other.
   */
  lemma {:induction false} SyncedForeverIff(re: Regex, ch: Chan, upstream: Names, ops: seq<Op>)
    requires Synced(re, ch, upstream)
    ensures StaysSynced(re, ch, upstream, ops) <==> RunKeepsStep(re, ch, upstream, ops)
    decreases |ops|
  {
    if ops != [] {
      OpSyncedIff(re, ch, upstream, ops[0]);
      if KeepsStep(re, ch, upstream, ops[0]) {
        SyncedForeverIff(re, Do(re, ch, upstream, ops[0]).0, upstream, ops[1..]);
      }
    }
  }

  /** On runs that handle no pattern-like name, exactly those that add no name with a comma. */
  lemma {:induction false} PlainSyncedForeverIff(re: Regex, ch: Chan, upstream: Names, ops: seq<Op>)
    requires Synced(re, ch, upstream) && PlainRun(re, ch, upstream, ops)
    ensures StaysSynced(re, ch, upstream, ops) <==> RunAddsStorable(re, ch, upstream, ops)
    decreases |ops|
  {
    if ops != [] {
      var op := ops[0];
      OpSyncedIff(re, ch, upstream, op);
      if op.DoApply? { ApplySyncedIffCommaFree(re, ch, upstream, op.add, op.ignore, op.remove, op.now); }
      if AddsStorable(re, ch, upstream, op) {
        PlainSyncedForeverIff(re, Do(re, ch, upstream, op).0, upstream, ops[1..]);
      }
    }
  }

  // ----- Checks repeated -----

  predicate OnlyChecks(ops: seq<Op>) { forall i :: 0 <= i < |ops| ==> ops[i].DoCheck? }

  /** A channel with nothing to add: a run of checks, readable or not, forced or not, adds nothing and changes only the check time. */
  lemma {:induction false} ChecksChangeNothing(re: Regex, ch: Chan, upstream: Names, ops: seq<Op>)
    requires Synced(re, ch, upstream) && ch.detected == [] && OnlyChecks(ops)
    ensures TotalAdded(re, ch, upstream, ops) == 0
    ensures RunOps(re, ch, upstream, ops) == ch.(lastCheck := RunOps(re, ch, upstream, ops).lastCheck)
    decreases |ops|
  {
    if ops != [] {
      var ch' := Do(re, ch, upstream, ops[0]).0;
      assert ch' == ch.(lastCheck := ch'.lastCheck) && Do(re, ch, upstream, ops[0]).1 == 0;
      ChecksChangeNothing(re, ch', upstream, ops[1..]);
    }
  }

  /** No later run of checks adds anything. */
  ghost predicate AddsNothingMore(re: Regex, ch: Chan, upstream: Names) {
    forall ops: seq<Op> :: OnlyChecks(ops) ==> TotalAdded(re, ch, upstream, ops) == 0
  }

  /**
   With automatic adding on and a fixed upstream, the first completed check adds exactly what
   is pending; every later check adds nothing exactly when none of it has a comma.
   */
  lemma LaterChecksAddNothingIff(re: Regex, ch: Chan, upstream: Names, force: bool, now: int, minInterval: int)
    requires ch.autoSync && !TooSoon(ch, force, now, minInterval)
    ensures var (ch1, added) := Check(re, ch, Some(upstream), force, true, now, minInterval);
            && added == |Detect(re, ch, upstream).0|
            && (AddsNothingMore(re, ch1, upstream) <==> CommaFree(Detect(re, ch, upstream).0))
  {
    CheckSyncsIff(re, ch, upstream, force, true, now, minInterval);
    var ch1 := Check(re, ch, Some(upstream), force, true, now, minInterval).0;
    if CommaFree(Detect(re, ch, upstream).0) {
      forall ops: seq<Op> | OnlyChecks(ops) ensures TotalAdded(re, ch1, upstream, ops) == 0 { ChecksChangeNothing(re, ch1, upstream, ops); }
    } else {
      var x :| x in Detect(re, ch, upstream).0 && ',' in x;
      DetectedNames(re, ch, upstream, x);
      CommaNameMissing(re, ch1, upstream, x);
      AddsPending(re, ch1, upstream, x);
    }
  }

  /** One more check adds what is still pending. */
  lemma AddsPending(re: Regex, ch: Chan, upstream: Names, x: string)
    requires ch.autoSync && x in Detect(re, ch, upstream).0
    ensures !AddsNothingMore(re, ch, upstream)
  {
    var op := DoCheck(true, true, true, 0, 0);
    CheckSyncsIff(re, ch, upstream, true, true, 0, 0);
    assert Do(re, ch, upstream, op).1 > 0;
    TotalOfOne(re, ch, upstream, op);
    assert OnlyChecks([op]);
  }

  lemma TotalOfOne(re: Regex, ch: Chan, upstream: Names, op: Op)
    ensures TotalAdded(re, ch, upstream, [op]) == Do(re, ch, upstream, op).1
  {
    assert [op][1..] == [];
    assert TotalAdded(re, Do(re, ch, upstream, op).0, upstream, []) == 0;
  }

  lemma DetectedNames(re: Regex, ch: Chan, upstream: Names, x: string)
    requires x in Detect(re, ch, upstream).0
    ensures x in Normalize(upstream) && Addable(re, Normalize(SplitList(ch.models)), Normalize(ch.ignored), ch.mapping, x)
  {
    var l, u, g := Normalize(SplitList(ch.models)), Normalize(upstream), Normalize(ch.ignored);
    CollectNormal(re, SplitList(ch.models), upstream, ch.ignored, ch.mapping);
    FilterMembers(u, y => Addable(re, l, g, ch.mapping, y), x);
  }

  // ----- Names that break it -----

  /** A channel with no models that has just detected the one upstream name `x`. */
  function Awaiting(x: string): Chan { Chan("", map[], false, [], [x], [], 1) }

  lemma AwaitingSynced(re: Regex, x: string)
    requires Clean(x)
    ensures Synced(re, Awaiting(x), [x]) && Normal([x])
    ensures Normalize([]) == [] && Normalize([x]) == [x]
  {
    assert Normal([x]) && Normal([]);
    NormalizeOfNormal([x]);
    NormalizeOfNormal([]);
    assert SplitList("") == [];
    CollectNormal(re, [], [x], [], map[]);
    FilterAll([x], y => Addable(re, [], [], map[], y));
  }

  /** Which names applying a selection leaves ignored and pending. */
  lemma ApplyLists(ch: Chan, add: Names, ignore: Names, remove: Names, now: int)
    requires Normal(ch.detected) && Normal(ch.removed)
    ensures var s, ch' := Select(ch, add, ignore, remove), Apply(ch, add, ignore, remove, now);
            && (forall x :: x in s.add <==> x in Normalize(add) && x in ch.detected)
            && (forall x :: x in s.ignore <==> x in Normalize(ignore) && x in ch.detected)
            && Normal(ch'.ignored)
            && (forall x :: x in ch'.ignored <==> (x in Normalize(ch.ignored) || x in s.ignore) && x !in s.add)
            && (forall x :: x in ch'.detected <==> x in ch.detected && x !in s.add && x !in s.ignore)
  {
    var s := Select(ch, add, ignore, remove);
    SelectNormal(ch, add, ignore, remove);
    IgnoreList(ch, s);
    NormalizeOfNormal(ch.detected);
    SubtractSum(ch.detected, s.add, s.ignore);
    forall x ensures x in Subtract(ch.detected, s.add + s.ignore) <==> x in ch.detected && x !in s.add && x !in s.ignore {
      FilterMembers(ch.detected, y => y !in s.add + s.ignore, x);
    }
  }

  /** Ignoring a name that reads as a pattern, and does not match itself, stores a remainder detection disagrees with. */
  lemma IgnoringAPatternNameBreaks(re: Regex, x: string, now: int)
    requires Clean(x) && IsPattern(x) && !re(TrimSpace(x[6..]), x)
    ensures Synced(re, Awaiting(x), [x]) && !Synced(re, Apply(Awaiting(x), [], [x], [], now), [x])
  {
    var ch, s := Awaiting(x), Select(Awaiting(x), [], [x], []);
    AwaitingSynced(re, x);
    ApplyLists(ch, [], [x], [], now);
    ApplySyncedIffCovers(re, ch, [x], [], [x], [], now);
    var g' := IgnoredNow(ch.ignored, s.add, s.ignore);
    assert x in s.ignore && forall y :: y in g' ==> y == x;
    NotSelfCovering(re, g', x);
  }

  lemma NotSelfCovering(re: Regex, g: Names, x: string)
    requires IsPattern(x) && !re(TrimSpace(x[6..]), x) && forall y :: y in g ==> y == x
    ensures !Ignored(re, g, x)
  {
    forall k | 0 <= k < |g| ensures !Covers(re, g[k], x) { assert g[k] in g; }
  }

  /** Adding a name that contains a comma breaks it up, and detection finds it missing again. */
  lemma AddingACommaNameBreaks(re: Regex, x: string, now: int)
    requires Clean(x) && ',' in x
    ensures Synced(re, Awaiting(x), [x]) && !Synced(re, Apply(Awaiting(x), [x], [], [], now), [x])
  {
    AwaitingSynced(re, x);
    ApplyLists(Awaiting(x), [x], [], [], now);
    CommaAddBreaks(re, Awaiting(x), [x], [x], [], [], now, x);
  }

  // ----- The channel as the program updates it -----

  /** A channel object whose fields the two operations overwrite one by one. */
  class Channel {
    var models: string
    const mapping: map<string, string>
    const autoSync: bool
    var ignored: Names
    var detected: Names
    var removed: Names
    var lastCheck: int

    ghost function Value(): Chan
      reads this
    {
      Chan(models, mapping, autoSync, ignored, detected, removed, lastCheck)
    }

    constructor (ch: Chan)
      ensures Value() == ch
    {
      models, mapping, autoSync := ch.models, ch.mapping, ch.autoSync;
      ignored, detected, removed, lastCheck := ch.ignored, ch.detected, ch.removed, ch.lastCheck;
    }

    /** `checkAndPersistChannelUpstreamModelUpdates` */
    method CheckAndPersist(re: Regex, fetched: Option<Names>, force: bool, allowAuto: bool, now: int, minInterval: int)
      returns (modelsChanged: bool, autoAdded: nat)
      modifies this
      ensures (Value(), autoAdded) == Check(re, old(Value()), fetched, force, allowAuto, now, minInterval)
      ensures modelsChanged <==> autoAdded > 0
    {
      modelsChanged, autoAdded := false, 0;
      if !force && lastCheck > 0 && now - lastCheck < minInterval { return; }
      if fetched.None? {
        lastCheck := now;
        return;
      }
      var (add, remove) := Detect(re, Chan(models, mapping, autoSync, ignored, detected, removed, lastCheck), fetched.value);
      modelsChanged, autoAdded := Store(add, remove, allowAuto, now);
    }

    /** The part of the check after the detection. */
    method Store(add: Names, remove: Names, allowAuto: bool, now: int) returns (modelsChanged: bool, autoAdded: nat)
      modifies this
      ensures (Value(), autoAdded) == Record(old(Value()), add, remove, allowAuto, now)
      ensures modelsChanged <==> autoAdded > 0
    {
      modelsChanged, autoAdded := false, 0;
      lastCheck := now;
      if allowAuto && autoSync && |add| > 0 {
        var origin := Normalize(SplitList(models));
        var merged := Merge(origin, add);
        if |merged| > |origin| {
          models := Join(merged);
          autoAdded := |merged| - |origin|;
          modelsChanged := true;
        }
        detected := [];
      } else {
        detected := add;
      }
      removed := remove;
    }

    /** `applyChannelUpstreamModelUpdates` */
    method ApplyUpdates(addInput: Names, ignoreInput: Names, removeInput: Names, now: int)
      returns (added: Names, dropped: Names, modelsChanged: bool)
      modifies this
      ensures Value() == Apply(old(Value()), addInput, ignoreInput, removeInput, now)
      ensures var s := Select(old(Value()), addInput, ignoreInput, removeInput); added == s.add && dropped == s.remove
      ensures !modelsChanged ==> models == old(models)
    {
      var ch := Chan(models, mapping, autoSync, ignored, detected, removed, lastCheck);
      var pendingAdd, pendingRemove := Normalize(ch.detected), Normalize(ch.removed);
      added := Intersect(addInput, pendingAdd);
      var ignoring := Intersect(ignoreInput, pendingAdd);
      dropped := Subtract(Intersect(removeInput, pendingRemove), added);
      assert Selection(added, ignoring, dropped) == Select(ch, addInput, ignoreInput, removeInput);
      var origin := Normalize(SplitList(ch.models));
      var next := ApplySelected(origin, added, dropped);
      modelsChanged := origin != next;
      var kept := Merge(ch.ignored, ignoring);
      if |added| > 0 { kept := Subtract(kept, added); }
      var leftAdd, leftRemove := Subtract(pendingAdd, added + ignoring), Subtract(pendingRemove, dropped);
      assert Apply(ch, addInput, ignoreInput, removeInput, now)
          == Chan(if modelsChanged then Join(next) else ch.models, ch.mapping, ch.autoSync, kept, leftAdd, leftRemove, now);
      if modelsChanged { models := Join(next); }
      ignored, detected, removed, lastCheck := kept, leftAdd, leftRemove, now;
    }
  }
}
