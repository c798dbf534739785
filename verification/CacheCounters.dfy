/**
 The usage counters of the request-body cache (common/disk_cache_config.go) under
 concurrent creation and closing of storages (common/body_storage.go).

 Each atomic instruction on a counter is a step of its own: a creation adds to the count
 and then to the bytes; a close wins or loses the compare-and-swap on the closed flag, and
 the winner subtracts from the count and then from the bytes, each subtraction followed by
 a store of zero if it came out negative (disk only). Any number of storages are created
 and closed, each closed any number of times, with the steps interleaved at will.
 */
module CacheCounters {
  import opened Wrappers

  datatype Kind = Disk | Memory

  /** How far a storage is. The two `Clamp` phases lie between a subtraction that came out negative and its store of zero. */
  datatype Phase = New | Counted | Open | Closing | ClampCount | Uncounted | ClampBytes | Closed

  datatype Storage = Storage(kind: Kind, size: nat, phase: Phase)

  /** `ActiveDiskFiles` and `CurrentDiskUsageBytes`, or their memory counterparts. */
  datatype Usage = Usage(count: int, bytes: int)

  datatype State = State(storages: seq<Storage>, disk: Usage, memory: Usage, subtracted: seq<nat>)

  const START := State([], Usage(0, 0), Usage(0, 0), [])

  datatype Act =
    | Create(kind: Kind, size: nat)
    | Advance(id: nat)    // the next instruction of the creator or the closer
    | Close(id: nat)      // someone calls Close on a storage
    | Reset               // ResetDiskCacheUsage

  function UsageOf(s: State, k: Kind): Usage { if k.Disk? then s.disk else s.memory }

  function SetUsage(s: State, k: Kind, u: Usage): State { if k.Disk? then s.(disk := u) else s.(memory := u) }

  function SetPhase(s: State, i: nat, p: Phase): State
    requires i < |s.storages|
  {
    s.(storages := s.storages[i := s.storages[i].(phase := p)])
  }

  function AdvanceStep(s: State, i: nat): State
    requires i < |s.storages|
  {
    var st := s.storages[i];
    var u := UsageOf(s, st.kind);
    match st.phase
    case New => SetPhase(SetUsage(s, st.kind, u.(count := u.count + 1)), i, Counted)
    case Counted => SetPhase(SetUsage(s, st.kind, u.(bytes := u.bytes + st.size)), i, Open)
    case Closing =>
      var t := SetUsage(s, st.kind, u.(count := u.count - 1)).(subtracted := s.subtracted + [i]);
      SetPhase(t, i, if st.kind.Disk? && u.count - 1 < 0 then ClampCount else Uncounted)
    case ClampCount => SetPhase(SetUsage(s, st.kind, u.(count := 0)), i, Uncounted)
    case Uncounted =>
      var t := SetUsage(s, st.kind, u.(bytes := u.bytes - st.size));
      SetPhase(t, i, if st.kind.Disk? && u.bytes - st.size < 0 then ClampBytes else Closed)
    case ClampBytes => SetPhase(SetUsage(s, st.kind, u.(bytes := 0)), i, Closed)
    case _ => s
  }

  function Step(s: State, a: Act): State {
    match a
    case Create(k, n) => s.(storages := s.storages + [Storage(k, n, New)])
    case Advance(i) => if i < |s.storages| then AdvanceStep(s, i) else s
    case Close(i) => if i < |s.storages| && s.storages[i].phase.Open? then SetPhase(s, i, Closing) else s
    case Reset => s.(disk := Usage(0, 0))
  }

  function Run(acts: seq<Act>): State {
    if acts == [] then START else Step(Run(acts[..|acts| - 1]), acts[|acts| - 1])
  }

  // ----- What the counters should hold -----

  /** What a storage adds to the count, and to the bytes, of a kind at its phase. */
  function Unit(st: Storage, k: Kind): nat {
    if st.kind == k && (st.phase.Counted? || st.phase.Open? || st.phase.Closing?) then 1 else 0
  }

  function Weight(st: Storage, k: Kind): nat {
    if st.kind == k && (st.phase.Open? || st.phase.Closing? || st.phase.ClampCount? || st.phase.Uncounted?) then st.size else 0
  }

  /** What the storages together should make the counters of a kind show. */
  function Due(ss: seq<Storage>, k: Kind): (u: Usage)
    ensures u.count >= 0 && u.bytes >= 0
  {
    if ss == [] then Usage(0, 0)
    else
      var u, st := Due(ss[..|ss| - 1], k), ss[|ss| - 1];
      Usage(u.count + Unit(st, k), u.bytes + Weight(st, k))
  }

  predicate Balanced(s: State, k: Kind) { UsageOf(s, k) == Due(s.storages, k) }

  predicate Past(st: Storage) { st.phase.ClampCount? || st.phase.Uncounted? || st.phase.ClampBytes? || st.phase.Closed? }

  predicate StorageOk(s: State, i: nat) {
    && i < |s.storages|
    && !s.storages[i].phase.ClampCount? && !s.storages[i].phase.ClampBytes?
    && multiset(s.subtracted)[i] == (if Past(s.storages[i]) then 1 else 0)
  }

  ghost predicate Inv(s: State) {
    && Balanced(s, Disk) && Balanced(s, Memory)
    && (forall i :: 0 <= i < |s.storages| ==> StorageOk(s, i))
    && (forall i :: i in s.subtracted ==> i < |s.storages|)
  }

  // ----- The invariant -----

  lemma {:induction false} DueUpdate(ss: seq<Storage>, i: nat, x: Storage, k: Kind)
    requires i < |ss|
    ensures var u, v := Due(ss, k), Due(ss[i := x], k);
            && v.count == u.count - Unit(ss[i], k) + Unit(x, k) && v.bytes == u.bytes - Weight(ss[i], k) + Weight(x, k)
            && Unit(ss[i], k) <= u.count && Weight(ss[i], k) <= u.bytes
  {
    var n := |ss| - 1;
    if i == n {
      assert ss[i := x][..n] == ss[..n];
    } else {
      DueUpdate(ss[..n], i, x, k);
      assert ss[i := x][..n] == ss[..n][i := x];
    }
  }

  /** A step of one storage leaves the others and their history alone. */
  lemma AdvanceFrame(s: State, i: nat)
    requires Inv(s) && i < |s.storages|
    ensures var t := AdvanceStep(s, i);
            && |t.storages| == |s.storages| && t.storages == s.storages[i := s.storages[i].(phase := t.storages[i].phase)]
            && t.subtracted == (if s.storages[i].phase.Closing? then s.subtracted + [i] else s.subtracted)
  {
    assert s.storages[i := s.storages[i]] == s.storages;
  }

  lemma AdvanceBalanced(s: State, i: nat, k: Kind)
    requires Inv(s) && i < |s.storages|
    ensures Balanced(AdvanceStep(s, i), k)
    ensures !AdvanceStep(s, i).storages[i].phase.ClampCount? && !AdvanceStep(s, i).storages[i].phase.ClampBytes?
  {
    assert StorageOk(s, i);
    var t := AdvanceStep(s, i);
    AdvanceFrame(s, i);
    DueUpdate(s.storages, i, t.storages[i], k);
    DueUpdate(s.storages, i, t.storages[i], s.storages[i].kind);
  }

  lemma AdvanceInv(s: State, i: nat)
    requires Inv(s) && i < |s.storages|
    ensures Inv(AdvanceStep(s, i))
  {
    var t := AdvanceStep(s, i);
    AdvanceFrame(s, i);
    AdvanceBalanced(s, i, Disk);
    AdvanceBalanced(s, i, Memory);
    forall j | 0 <= j < |t.storages| ensures StorageOk(t, j) { assert StorageOk(s, j); }
  }

  lemma CloseInv(s: State, i: nat)
    requires Inv(s) && i < |s.storages| && s.storages[i].phase.Open?
    ensures Inv(SetPhase(s, i, Closing))
  {
    var t := SetPhase(s, i, Closing);
    DueUpdate(s.storages, i, t.storages[i], Disk);
    DueUpdate(s.storages, i, t.storages[i], Memory);
    forall j | 0 <= j < |t.storages| ensures StorageOk(t, j) { assert StorageOk(s, j); }
  }

  lemma DueAppend(ss: seq<Storage>, k: Kind, n: nat, k': Kind)
    ensures Due(ss + [Storage(k, n, New)], k') == Due(ss, k')
  {
    assert (ss + [Storage(k, n, New)])[..|ss|] == ss;
  }

  lemma CreateInv(s: State, k: Kind, n: nat)
    requires Inv(s)
    ensures Inv(Step(s, Create(k, n)))
  {
    var t := Step(s, Create(k, n));
    DueAppend(s.storages, k, n, Disk);
    DueAppend(s.storages, k, n, Memory);
    forall j | 0 <= j < |t.storages| ensures StorageOk(t, j) {
      if j < |s.storages| {
        assert StorageOk(s, j) && t.storages[j] == s.storages[j];
      } else {
        assert t.storages[j].phase == New;
        assert j !in s.subtracted;
        assert multiset(s.subtracted)[j] == 0;
      }
    }
  }

  lemma InvStep(s: State, a: Act)
    requires Inv(s) && !a.Reset?
    ensures Inv(Step(s, a))
  {
    match a
    case Create(k, n) => CreateInv(s, k, n);
    case Advance(i) => if i < |s.storages| { AdvanceInv(s, i); }
    case Close(i) => if i < |s.storages| && s.storages[i].phase.Open? { CloseInv(s, i); }
  }

  ghost predicate NoReset(acts: seq<Act>) { forall i :: 0 <= i < |acts| ==> !acts[i].Reset? }

  lemma {:induction false} InvRun(acts: seq<Act>)
    requires NoReset(acts)
    ensures Inv(Run(acts))
  {
    if acts != [] {
      InvRun(acts[..|acts| - 1]);
      InvStep(Run(acts[..|acts| - 1]), acts[|acts| - 1]);
    }
  }

  // ----- Theorems -----

  /** Each storage is subtracted once, when its close gets that far, and never before or again. */
  lemma SubtractedOnce(acts: seq<Act>, i: nat)
    requires NoReset(acts) && i < |Run(acts).storages|
    ensures multiset(Run(acts).subtracted)[i] == if Past(Run(acts).storages[i]) then 1 else 0
  {
    InvRun(acts);
    assert StorageOk(Run(acts), i);
  }

  /** No subtraction comes out negative: the store of zero never happens, and the counters are never below zero. */
  lemma ClampNeverFires(acts: seq<Act>, i: nat, k: Kind)
    requires NoReset(acts) && i < |Run(acts).storages|
    ensures !Run(acts).storages[i].phase.ClampCount? && !Run(acts).storages[i].phase.ClampBytes?
    ensures UsageOf(Run(acts), k).count >= 0 && UsageOf(Run(acts), k).bytes >= 0
  {
    InvRun(acts);
    assert StorageOk(Run(acts), i) && Balanced(Run(acts), k);
  }

  /** No creation or close is under way. */
  predicate Quiescent(s: State) { forall i :: 0 <= i < |s.storages| ==> s.storages[i].phase.Open? || s.storages[i].phase.Closed? }

  /** The sizes of the open storages of a kind. */
  function OpenSizes(ss: seq<Storage>, k: Kind): seq<nat> {
    if ss == [] then []
    else
      var st := ss[|ss| - 1];
      OpenSizes(ss[..|ss| - 1], k) + if st.kind == k && st.phase.Open? then [st.size] else []
  }

  lemma {:induction false} DueWhenQuiet(ss: seq<Storage>, k: Kind)
    requires forall i :: 0 <= i < |ss| ==> ss[i].phase.Open? || ss[i].phase.Closed?
    ensures Due(ss, k) == Usage(|OpenSizes(ss, k)|, Sum(OpenSizes(ss, k)))
  {
    if ss != [] {
      var init, last := ss[..|ss| - 1], ss[|ss| - 1];
      DueWhenQuiet(init, k);
      if last.kind == k && last.phase.Open? {
        assert OpenSizes(ss, k)[..|OpenSizes(init, k)|] == OpenSizes(init, k);
      } else {
        assert OpenSizes(ss, k) == OpenSizes(init, k);
      }
    }
  }

  /** When nothing is under way the counters are the number and the total size of the open storages. */
  lemma CountersConserved(acts: seq<Act>, k: Kind)
    requires NoReset(acts) && Quiescent(Run(acts))
    ensures UsageOf(Run(acts), k) == Usage(|OpenSizes(Run(acts).storages, k)|, Sum(OpenSizes(Run(acts).storages, k)))
  {
    InvRun(acts);
    assert Balanced(Run(acts), k);
    DueWhenQuiet(Run(acts).storages, k);
  }

  /** A creation, left to itself, opens a storage and counts it; a close, left to itself, closes it and takes it back. */
  lemma OpensAndCloses(s: State, k: Kind, n: nat)
    requires Inv(s)
    ensures var i, u := |s.storages|, UsageOf(s, k);
            var live := Step(Step(Step(s, Create(k, n)), Advance(i)), Advance(i));
            var closed := Step(Step(Step(live, Close(i)), Advance(i)), Advance(i));
            && live.storages == s.storages + [Storage(k, n, Open)] && UsageOf(live, k) == Usage(u.count + 1, u.bytes + n)
            && closed.storages == s.storages + [Storage(k, n, Closed)] && UsageOf(closed, k) == u
            && Step(closed, Close(i)) == closed
  {
    var i := |s.storages|;
    assert Balanced(s, Disk) && Balanced(s, Memory);
    var a := Step(s, Create(k, n));
    assert a.storages == s.storages + [Storage(k, n, New)];
    var b := Step(a, Advance(i));
    assert b.storages == s.storages + [Storage(k, n, Counted)];
    var c := Step(b, Advance(i));
    assert c.storages == s.storages + [Storage(k, n, Open)];
    var d := Step(c, Close(i));
    assert d.storages == s.storages + [Storage(k, n, Closing)];
    var e := Step(d, Advance(i));
    assert e.storages == s.storages + [Storage(k, n, Uncounted)];
  }

  /** A reset keeps the books exactly when no disk file is counted at that moment. */
  lemma ResetKeepsIff(acts: seq<Act>)
    requires NoReset(acts)
    ensures Inv(Step(Run(acts), Reset)) <==> Run(acts).disk == Usage(0, 0)
  {
    InvRun(acts);
    var s, t := Run(acts), Step(Run(acts), Reset);
    assert Balanced(s, Disk) && Balanced(s, Memory);
    if s.disk == Usage(0, 0) { assert t == s; }
    if Inv(t) { assert Balanced(t, Disk); }
  }
}
