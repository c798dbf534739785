/**
 The duration of an Opus file (`getOpusDuration` in common/audio.go): a scan over Ogg
 pages that keeps the largest granule position and looks for the next page marker when it
 is not at one. The reader is a byte sequence and a position; a read fills its buffer as
 far as the data goes, and seeking past the end is allowed.
 */
module OggScan {
  import opened Wrappers
  import Lists

  /** The bytes of "OggS". */
  const MAGIC: seq<Byte> := [0x4F, 0x67, 0x67, 0x53]
  const HEADER := 27

  // ----- Granule positions: 64-bit little-endian two's complement -----

  function Pow256(k: nat): nat { if k == 0 then 1 else 256 * Pow256(k - 1) }

  function FromLe(b: seq<Byte>): nat { if b == [] then 0 else b[0] + 256 * FromLe(b[1..]) }

  function ToLe(n: nat, k: nat): (b: seq<Byte>)
    ensures |b| == k
  {
    if k == 0 then [] else [n % 256] + ToLe(n / 256, k - 1)
  }

  predicate IsInt64(g: int) { -0x8000_0000_0000_0000 <= g < 0x8000_0000_0000_0000 }

  /** int64(Uint64(b)) */
  function Signed(u: nat): int { if u < 0x8000_0000_0000_0000 then u else u - 0x1_0000_0000_0000_0000 }

  function Unsigned(g: int): nat
    requires IsInt64(g)
  {
    if g >= 0 then g else g + 0x1_0000_0000_0000_0000
  }

  lemma {:induction false} LeRoundTrip(n: nat, k: nat)
    requires n < Pow256(k)
    ensures FromLe(ToLe(n, k)) == n
  {
    if k > 0 {
      LeRoundTrip(n / 256, k - 1);
      assert ToLe(n, k)[1..] == ToLe(n / 256, k - 1);
    }
  }

  lemma GranuleRoundTrip(g: int)
    requires IsInt64(g)
    ensures Signed(FromLe(ToLe(Unsigned(g), 8))) == g
  {
    assert Pow256(8) == 256 * Pow256(7) == 256 * 256 * Pow256(6) == 256 * 256 * 256 * Pow256(5);
    assert Pow256(5) == 256 * Pow256(4) == 256 * 256 * Pow256(3) == 256 * 256 * 256 * Pow256(2);
    assert Pow256(8) == 0x1_0000_0000_0000_0000;
    LeRoundTrip(Unsigned(g), 8);
  }

  // ----- The scan -----

  predicate MagicAt(data: seq<Byte>, pos: nat) {
    pos + 4 <= |data| && data[pos] == MAGIC[0] && data[pos + 1] == MAGIC[1] && data[pos + 2] == MAGIC[2] && data[pos + 3] == MAGIC[3]
  }

  function GranuleAt(data: seq<Byte>, pos: nat): int
    requires pos + HEADER <= |data|
  {
    Signed(FromLe(data[pos + 6..pos + 14]))
  }

  /** Where the page at a position ends; a page whose segment table is cut short takes all the rest. */
  function PageEnd(data: seq<Byte>, pos: nat): (end: nat)
    requires pos + HEADER <= |data|
    ensures end >= pos + HEADER
  {
    var body := pos + HEADER + data[pos + 26];
    if body > |data| then |data| else body + Sum(data[pos + HEADER..body])
  }

  /** A page the scan takes: where it starts, its granule position and where it ends. */
  datatype Mark = Mark(at: nat, granule: int, end: nat)

  /** The pages taken from a position on. */
  function Trace(data: seq<Byte>, pos: nat): seq<Mark>
    decreases if pos < |data| then |data| - pos else 0
  {
    if pos + HEADER > |data| then []
    else if !MagicAt(data, pos) then Trace(data, pos + 1)
    else [Mark(pos, GranuleAt(data, pos), PageEnd(data, pos))] + Trace(data, PageEnd(data, pos))
  }

  /** The largest granule position, or 0 when none is positive. */
  function Largest(t: seq<Mark>): int {
    if t == [] then 0 else Max(t[0].granule, Largest(t[1..]))
  }

  function Max(a: int, b: int): int { if a > b then a else b }

  lemma {:induction false} LargestSpec(t: seq<Mark>)
    ensures Largest(t) >= 0 && forall i :: 0 <= i < |t| ==> t[i].granule <= Largest(t)
    ensures Largest(t) == 0 || exists i :: 0 <= i < |t| && t[i].granule == Largest(t)
  {
    if t != [] {
      LargestSpec(t[1..]);
      if Largest(t) == t[0].granule {
      } else if Largest(t) != 0 {
        var i :| 0 <= i < |t[1..]| && t[1..][i].granule == Largest(t[1..]);
        assert t[i + 1].granule == Largest(t);
      }
    }
  }

  method PageSize(table: seq<Byte>) returns (size: nat)
    ensures size == Sum(table)
  {
    size := 0;
    for i := 0 to |table|
      invariant size == Sum(table[..i])
    {
      assert table[..i + 1][..i] == table[..i];
      size := size + table[i];
    }
    assert table[..|table|] == table;
  }

  lemma SameHeader(data: seq<Byte>, pos: nat, buf: seq<Byte>)
    requires pos + HEADER <= |data| && buf == data[pos..pos + HEADER]
    ensures MagicAt(buf, 0) == MagicAt(data, pos) && GranuleAt(buf, 0) == GranuleAt(data, pos) && buf[26] == data[pos + 26]
  {
    Lists.SubSlice(data, pos, pos + HEADER, 6, 14);
  }

  /** The scan itself: every round moves the position on, whatever the bytes are. */
  method OpusDuration(data: seq<Byte>) returns (duration: real)
    ensures duration == Largest(Trace(data, 0)) as real / 48000.0
  {
    var total := 0;
    var pos := 0;
    LargestSpec(Trace(data, 0));
    while true
      invariant total >= 0 && Largest(Trace(data, 0)) == Max(total, Largest(Trace(data, pos)))
      decreases if pos < |data| then |data| - pos else 0
    {
      if pos + 27 > |data| { break; }
      var buf := data[pos..pos + 27];
      SameHeader(data, pos, buf);
      ghost var start := pos;
      pos := pos + 27;
      if !MagicAt(buf, 0) {
        pos := pos - 26;
        continue;
      }
      assert Trace(data, start) == [Mark(start, GranuleAt(data, start), PageEnd(data, start))] + Trace(data, PageEnd(data, start));
      var granule := GranuleAt(buf, 0);
      if granule > total { total := granule; }
      var segments := buf[26];
      if pos + segments > |data| {
        pos := |data|;
        break;
      }
      var size := PageSize(data[pos..pos + segments]);
      pos := pos + segments + size;
    }
    LargestSpec(Trace(data, pos));
    duration := total as real / 48000.0;
  }

  // ----- Arbitrary bytes -----

  predicate Faithful(data: seq<Byte>, k: Mark) {
    && k.at + HEADER <= |data| && MagicAt(data, k.at)
    && k.granule == GranuleAt(data, k.at) && k.end == PageEnd(data, k.at)
  }

  predicate InOrder(t: seq<Mark>) { forall i, j :: 0 <= i < j < |t| ==> t[i].end <= t[j].at }

  lemma InOrderCons(m: Mark, t: seq<Mark>)
    requires InOrder(t) && forall k :: k in t ==> m.end <= k.at
    ensures InOrder([m] + t)
  {
    var u := [m] + t;
    forall i, j | 0 <= i < j < |u| ensures u[i].end <= u[j].at {
      assert u[j] == t[j - 1];
      if i > 0 { assert u[i] == t[i - 1]; }
    }
  }

  /** The pages taken lie one behind the other, each at a marker. */
  lemma {:induction false} TraceSpec(data: seq<Byte>, pos: nat)
    ensures forall k :: k in Trace(data, pos) ==> pos <= k.at && Faithful(data, k)
    ensures InOrder(Trace(data, pos))
    decreases if pos < |data| then |data| - pos else 0
  {
    if pos + HEADER > |data| {
    } else if !MagicAt(data, pos) {
      TraceSpec(data, pos + 1);
    } else {
      var first := Mark(pos, GranuleAt(data, pos), PageEnd(data, pos));
      var rest := Trace(data, first.end);
      TraceSpec(data, first.end);
      InOrderCons(first, rest);
      assert Trace(data, pos) == [first] + rest;
    }
  }

  ghost predicate TakenAt(t: seq<Mark>, k: nat) { exists i :: 0 <= i < |t| && t[i].at == k }

  ghost predicate InsidePage(t: seq<Mark>, k: nat) { exists i :: 0 <= i < |t| && t[i].at < k < t[i].end }

  /** No marker is overlooked: each one with a header's length of data is taken, unless it lies inside a page taken before it. */
  lemma {:induction false} NoMarkOverlooked(data: seq<Byte>, pos: nat, k: nat)
    requires pos <= k && k + HEADER <= |data| && MagicAt(data, k)
    ensures var t := Trace(data, pos); TakenAt(t, k) || InsidePage(t, k)
    decreases if pos < |data| then |data| - pos else 0
  {
    var t := Trace(data, pos);
    if !MagicAt(data, pos) {
      NoMarkOverlooked(data, pos + 1, k);
    } else if k == pos {
      assert t[0].at == k;
    } else if k < PageEnd(data, pos) {
      assert t[0].at < k < t[0].end;
    } else {
      var rest := Trace(data, PageEnd(data, pos));
      NoMarkOverlooked(data, PageEnd(data, pos), k);
      if TakenAt(rest, k) {
        var i :| 0 <= i < |rest| && rest[i].at == k;
        assert t[i + 1].at == k;
      } else {
        var i :| 0 <= i < |rest| && rest[i].at < k < rest[i].end;
        assert t[i + 1].at < k < t[i + 1].end;
      }
    }
  }

  // ----- Well-formed pages (section 6 of RFC 3533) -----

  datatype Page = Page(version: Byte, flags: Byte, granule: int, ids: seq<Byte>, table: seq<Byte>, body: seq<Byte>)

  predicate WellFormed(p: Page) {
    IsInt64(p.granule) && |p.ids| == 12 && |p.table| < 256 && |p.body| == Sum(p.table)
  }

  function Head(p: Page): (b: seq<Byte>)
    requires WellFormed(p)
    ensures |b| == HEADER
  {
    MAGIC + [p.version, p.flags] + ToLe(Unsigned(p.granule), 8) + p.ids + [|p.table|]
  }

  function Encode(p: Page): (b: seq<Byte>)
    requires WellFormed(p)
    ensures |b| == HEADER + |p.table| + |p.body|
  {
    Head(p) + p.table + p.body
  }

  /** A page with bytes before it that belong to no page. */
  datatype Chunk = Chunk(junk: seq<Byte>, page: Page)

  predicate Clean(junk: seq<Byte>) { forall k :: 0 <= k < |junk| ==> !MagicAt(junk, k) }

  predicate Proper(cs: seq<Chunk>) { forall i :: 0 <= i < |cs| ==> Clean(cs[i].junk) && WellFormed(cs[i].page) }

  function Stream(cs: seq<Chunk>, tail: seq<Byte>): seq<Byte>
    requires Proper(cs)
  {
    if cs == [] then tail
    else cs[0].junk + Encode(cs[0].page) + Stream(cs[1..], tail)
  }

  /** Where the pages of a stream really are. */
  function Pages(cs: seq<Chunk>, pos: nat): seq<Mark>
    requires Proper(cs)
  {
    if cs == [] then []
    else
      var at := pos + |cs[0].junk|;
      var end := at + |Encode(cs[0].page)|;
      [Mark(at, cs[0].page.granule, end)] + Pages(cs[1..], end)
  }

  lemma HeadRead(p: Page)
    requires WellFormed(p)
    ensures MagicAt(Head(p), 0) && GranuleAt(Head(p), 0) == p.granule && Head(p)[26] == |p.table|
  {
    assert Head(p)[6..14] == ToLe(Unsigned(p.granule), 8);
    GranuleRoundTrip(p.granule);
  }

  lemma SamePage(data: seq<Byte>, pos: nat, head: seq<Byte>, table: seq<Byte>, body: seq<Byte>)
    requires |head| == HEADER && head[26] == |table|
    requires pos + HEADER + |table| + |body| <= |data| && data[pos..pos + HEADER + |table| + |body|] == head + table + body
    ensures data[pos..pos + HEADER] == head && data[pos + HEADER..pos + HEADER + |table|] == table && data[pos + 26] == |table|
  {
    var e := head + table + body;
    Lists.SubSlice(data, pos, pos + |e|, 0, HEADER);
    Lists.SubSlice(data, pos, pos + |e|, HEADER, HEADER + |table|);
    assert e[0..HEADER] == head && e[HEADER..HEADER + |table|] == table;
    assert data[pos..pos + |e|][26] == data[pos + 26];
  }

  /** A page is read back as it was written. */
  lemma PageRead(data: seq<Byte>, pos: nat, p: Page)
    requires WellFormed(p) && pos + |Encode(p)| <= |data| && data[pos..pos + |Encode(p)|] == Encode(p)
    ensures MagicAt(data, pos) && GranuleAt(data, pos) == p.granule && PageEnd(data, pos) == pos + |Encode(p)|
  {
    HeadRead(p);
    SamePage(data, pos, Head(p), p.table, p.body);
    SameHeader(data, pos, Head(p));
  }

  /** No marker starts in clean bytes that come before a page. */
  lemma JunkHasNoMark(junk: seq<Byte>, rest: seq<Byte>, k: nat)
    requires Clean(junk) && MagicAt(rest, 0) && k < |junk|
    ensures !MagicAt(junk + rest, k)
  {
    assert !MagicAt(junk, k);
    assert (junk + rest)[|junk|] == MAGIC[0];
  }

  /** The scan walks over bytes that hold no marker. */
  lemma {:induction false} Skip(data: seq<Byte>, pos: nat, to: nat)
    requires pos <= to && to + HEADER <= |data|
    requires forall k :: pos <= k < to ==> !MagicAt(data, k)
    ensures Trace(data, pos) == Trace(data, to)
    decreases if pos < to then to - pos else 0
  {
    if pos < to { Skip(data, pos + 1, to); }
  }

  /** A tail without markers holds no page. */
  lemma {:induction false} CleanTail(data: seq<Byte>, pos: nat)
    requires forall k :: pos <= k ==> !MagicAt(data, k)
    ensures Trace(data, pos) == []
    decreases if pos < |data| then |data| - pos else 0
  {
    if pos + HEADER <= |data| { CleanTail(data, pos + 1); }
  }

  lemma MagicShift(pre: seq<Byte>, data: seq<Byte>, k: nat)
    ensures MagicAt(pre + data, |pre| + k) <==> MagicAt(data, k)
  { }

  /** From anywhere in front of a page, over clean bytes, the scan gets to that page. */
  lemma ReachesPage(pre: seq<Byte>, junk: seq<Byte>, page: seq<Byte>)
    requires Clean(junk) && MagicAt(page, 0) && HEADER <= |page|
    ensures Trace(pre + (junk + page), |pre|) == Trace(pre + (junk + page), |pre| + |junk|)
  {
    var data, at := pre + (junk + page), |pre| + |junk|;
    forall k | |pre| <= k < at ensures !MagicAt(data, k) {
      JunkHasNoMark(junk, page, k - |pre|);
      MagicShift(pre, junk + page, k - |pre|);
    }
    Skip(data, |pre|, at);
  }

  predicate PageAt(data: seq<Byte>, at: nat, granule: int, end: nat) {
    at + HEADER <= |data| && MagicAt(data, at) && GranuleAt(data, at) == granule && PageEnd(data, at) == end
  }

  /** A page is read back wherever it stands. */
  lemma PageInPlace(pre: seq<Byte>, p: Page, rest: seq<Byte>)
    requires WellFormed(p)
    ensures PageAt(pre + (Encode(p) + rest), |pre|, p.granule, |pre| + |Encode(p)|) && MagicAt(Encode(p) + rest, 0)
  {
    var e := Encode(p);
    InTheMiddle(pre, e, rest);
    PageRead(pre + (e + rest), |pre|, p);
    MagicShift(pre, e + rest, 0);
  }

  lemma TakesPage(data: seq<Byte>, at: nat, granule: int, end: nat)
    requires at + HEADER <= |data| && MagicAt(data, at) && GranuleAt(data, at) == granule && PageEnd(data, at) == end
    ensures Trace(data, at) == [Mark(at, granule, end)] + Trace(data, end)
  { }

  /** Then it takes the page and goes on behind it. */
  lemma TakesNextPage(data: seq<Byte>, pre: seq<Byte>, junk: seq<Byte>, page: seq<Byte>, granule: int, end: nat)
    requires data == pre + (junk + page) && Clean(junk) && MagicAt(page, 0) && HEADER <= |page|
    requires PageAt(data, |pre| + |junk|, granule, end)
    ensures Trace(data, |pre|) == [Mark(|pre| + |junk|, granule, end)] + Trace(data, end)
  {
    ReachesPage(pre, junk, page);
    TakesReached(data, |pre|, |pre| + |junk|, granule, end);
  }

  lemma TakesReached(data: seq<Byte>, from: nat, at: nat, granule: int, end: nat)
    requires PageAt(data, at, granule, end) && Trace(data, from) == Trace(data, at)
    ensures Trace(data, from) == [Mark(at, granule, end)] + Trace(data, end)
  {
    TakesPage(data, at, granule, end);
  }

  lemma InTheMiddle(pre: seq<Byte>, e: seq<Byte>, rest: seq<Byte>)
    ensures (pre + (e + rest))[|pre|..|pre| + |e|] == e
  { }

  lemma Reassociate(pre: seq<Byte>, junk: seq<Byte>, e: seq<Byte>, rest: seq<Byte>)
    ensures pre + (junk + e + rest) == pre + (junk + (e + rest)) == (pre + junk + e) + rest == (pre + junk) + (e + rest)
  { }

  lemma NothingInTail(pre: seq<Byte>, tail: seq<Byte>)
    requires Clean(tail)
    ensures Trace(pre + tail, |pre|) == []
  {
    forall k | |pre| <= k ensures !MagicAt(pre + tail, k) { MagicShift(pre, tail, k - |pre|); }
    CleanTail(pre + tail, |pre|);
  }

  lemma Placed(pre: seq<Byte>, junk: seq<Byte>, e: seq<Byte>, rest: seq<Byte>, data: seq<Byte>, granule: int)
    requires data == pre + (junk + e + rest) && PageAt(pre + junk + (e + rest), |pre + junk|, granule, |pre + junk| + |e|)
    ensures data == pre + (junk + (e + rest)) && PageAt(data, |pre| + |junk|, granule, |pre| + |junk| + |e|)
  {
    Reassociate(pre, junk, e, rest);
  }

  lemma PageInChunk(pre: seq<Byte>, c: Chunk, rest: seq<Byte>, data: seq<Byte>) returns (page: seq<Byte>)
    requires WellFormed(c.page) && data == pre + (c.junk + Encode(c.page) + rest)
    ensures data == pre + (c.junk + page) && MagicAt(page, 0) && HEADER <= |page|
    ensures PageAt(data, |pre| + |c.junk|, c.page.granule, |pre| + |c.junk| + |Encode(c.page)|)
  {
    page := Encode(c.page) + rest;
    PageInPlace(pre + c.junk, c.page, rest);
    Placed(pre, c.junk, Encode(c.page), rest, data, c.page.granule);
  }

  lemma TakesChunk(pre: seq<Byte>, c: Chunk, rest: seq<Byte>, data: seq<Byte>)
    requires Clean(c.junk) && WellFormed(c.page) && data == pre + (c.junk + Encode(c.page) + rest)
    ensures var at, end := |pre| + |c.junk|, |pre| + |c.junk| + |Encode(c.page)|;
            Trace(data, |pre|) == [Mark(at, c.page.granule, end)] + Trace(data, end)
  {
    var page := PageInChunk(pre, c, rest, data);
    TakesNextPage(data, pre, c.junk, page, c.page.granule, |pre| + |c.junk| + |Encode(c.page)|);
  }

  lemma {:induction false} FindsPages(pre: seq<Byte>, cs: seq<Chunk>, tail: seq<Byte>)
    requires Proper(cs) && Clean(tail)
    ensures Trace(pre + Stream(cs, tail), |pre|) == Pages(cs, |pre|)
    decreases |cs|
  {
    if cs == [] {
      NothingInTail(pre, tail);
    } else {
      var here, rest := cs[0].junk + Encode(cs[0].page), Stream(cs[1..], tail);
      UnfoldStream(cs, tail, |pre|, here, rest);
      TakesChunk(pre, cs[0], rest, pre + (here + rest));
      FindsPages(pre + here, cs[1..], tail);
      assert pre + here + rest == pre + (here + rest);
    }
  }

  lemma UnfoldStream(cs: seq<Chunk>, tail: seq<Byte>, pos: nat, here: seq<Byte>, rest: seq<Byte>)
    requires Proper(cs) && cs != [] && here == cs[0].junk + Encode(cs[0].page) && rest == Stream(cs[1..], tail)
    ensures Stream(cs, tail) == here + rest
    ensures Pages(cs, pos) == [Mark(pos + |cs[0].junk|, cs[0].page.granule, pos + |here|)] + Pages(cs[1..], pos + |here|)
  { }

  /**
   On any run of well-formed pages, with bytes before, between and after them that hold no
   marker, the scan takes exactly the pages, each where it is.
   */
  lemma VisitsExactlyThePages(cs: seq<Chunk>, tail: seq<Byte>)
    requires Proper(cs) && Clean(tail)
    ensures Trace(Stream(cs, tail), 0) == Pages(cs, 0)
  {
    FindsPages([], cs, tail);
    assert [] + Stream(cs, tail) == Stream(cs, tail);
  }

  lemma {:induction false} PagesGranules(cs: seq<Chunk>, pos: nat)
    requires Proper(cs)
    ensures |Pages(cs, pos)| == |cs| && forall i :: 0 <= i < |cs| ==> Pages(cs, pos)[i].granule == cs[i].page.granule
  {
    if cs != [] { PagesGranules(cs[1..], pos + |cs[0].junk| + |Encode(cs[0].page)|); }
  }

  /** The result is the largest granule position of the pages; those marked -1, and every negative one, are ignored. */
  lemma LargestGranule(cs: seq<Chunk>, tail: seq<Byte>)
    requires Proper(cs) && Clean(tail)
    ensures var g := Largest(Trace(Stream(cs, tail), 0));
            && g >= 0 && (forall i :: 0 <= i < |cs| ==> cs[i].page.granule <= g)
            && (g == 0 || exists i :: 0 <= i < |cs| && cs[i].page.granule == g)
  {
    VisitsExactlyThePages(cs, tail);
    PagesGranules(cs, 0);
    var t := Pages(cs, 0);
    LargestSpec(t);
    if Largest(t) != 0 {
      var i :| 0 <= i < |t| && t[i].granule == Largest(t);
      assert cs[i].page.granule == Largest(t);
    }
  }
}
