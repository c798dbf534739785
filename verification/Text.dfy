/** The few string operations of Go's `strings` package that the models use. */
module Text {

  /** `unicode.IsSpace` */
  predicate IsSpace(c: char) {
    var u := c as int;
    || 0x09 <= u <= 0x0D || u == 0x20 || u == 0x85 || u == 0xA0 || u == 0x1680 || 0x2000 <= u <= 0x200A
    || u == 0x2028 || u == 0x2029 || u == 0x202F || u == 0x205F || u == 0x3000
  }

  function TrimLeft(s: string): string {
    if s != [] && IsSpace(s[0]) then TrimLeft(s[1..]) else s
  }

  function TrimRight(s: string): string {
    if s != [] && IsSpace(s[|s| - 1]) then TrimRight(s[..|s| - 1]) else s
  }

  /** `strings.TrimSpace` */
  function TrimSpace(s: string): string { TrimRight(TrimLeft(s)) }

  /** Nothing left to trim. */
  predicate Trimmed(s: string) { s != [] ==> !IsSpace(s[0]) && !IsSpace(s[|s| - 1]) }

  lemma {:induction false} TrimLeftStarts(s: string)
    ensures TrimLeft(s) == [] || !IsSpace(TrimLeft(s)[0])
  {
    if s != [] && IsSpace(s[0]) { TrimLeftStarts(s[1..]); }
  }

  lemma {:induction false} TrimRightEnds(s: string)
    ensures TrimRight(s) == [] || (!IsSpace(TrimRight(s)[|TrimRight(s)| - 1]) && TrimRight(s)[0] == s[0])
    ensures |TrimRight(s)| <= |s|
  {
    if s != [] && IsSpace(s[|s| - 1]) { TrimRightEnds(s[..|s| - 1]); }
  }

  /** Trimming leaves nothing to trim, and a trimmed string alone. */
  lemma TrimSpaceSpec(s: string)
    ensures Trimmed(TrimSpace(s))
    ensures Trimmed(s) ==> TrimSpace(s) == s
  {
    TrimLeftStarts(s);
    TrimRightEnds(TrimLeft(s));
  }

  predicate Blank(s: string) { forall c :: c in s ==> IsSpace(c) }

  lemma {:induction false} TrimLeftTakes(s: string) returns (a: string)
    ensures Blank(a) && s == a + TrimLeft(s)
  {
    if s != [] && IsSpace(s[0]) {
      a := TrimLeftTakes(s[1..]);
      a := [s[0]] + a;
    } else {
      a := "";
    }
  }

  lemma {:induction false} TrimRightTakes(s: string) returns (b: string)
    ensures Blank(b) && s == TrimRight(s) + b
  {
    if s != [] && IsSpace(s[|s| - 1]) {
      b := TrimRightTakes(s[..|s| - 1]);
      assert s == TrimRight(s) + (b + [s[|s| - 1]]);
      b := b + [s[|s| - 1]];
    } else {
      b := "";
    }
  }

  /** Only space is taken away, at the ends. */
  lemma TrimSpaceTakes(s: string) returns (a: string, b: string)
    ensures Blank(a) && Blank(b) && s == a + TrimSpace(s) + b
  {
    a := TrimLeftTakes(s);
    b := TrimRightTakes(TrimLeft(s));
  }

  // ----- Lists in a text -----

  /** `strings.Join(xs, sep)` */
  function JoinWith(sep: char, xs: seq<string>): string {
    if xs == [] then "" else if |xs| == 1 then xs[0] else xs[0] + [sep] + JoinWith(sep, xs[1..])
  }

  /** `strings.Split(s, sep)`, with `field` the part of the current field already read */
  function SplitFrom(sep: char, field: string, s: string): seq<string>
    decreases |s|
  {
    if s == [] then [field]
    else if s[0] == sep then [field] + SplitFrom(sep, "", s[1..])
    else SplitFrom(sep, field + [s[0]], s[1..])
  }

  /** `strings.Trim(s, sep)` */
  function TrimChar(sep: char, s: string): string {
    if s != [] && s[0] == sep then TrimChar(sep, s[1..])
    else if s != [] && s[|s| - 1] == sep then TrimChar(sep, s[..|s| - 1])
    else s
  }

  /** How the program reads a list kept in a text. */
  function SplitOn(sep: char, s: string): seq<string> { if s == "" then [] else SplitFrom(sep, "", TrimChar(sep, s)) }

  /** `strings.Join(xs, ",")` */
  function Join(xs: seq<string>): string { JoinWith(',', xs) }

  /** `GetModels` of model/channel.go */
  function SplitList(s: string): seq<string> { SplitOn(',', s) }

  /** A name that can stand in a comma-separated list. */
  predicate Listable(x: string) { x != "" && ',' !in x }

  lemma {:induction false} SplitField(sep: char, field: string, x: string, s: string)
    requires sep !in x
    ensures SplitFrom(sep, field, x + s) == SplitFrom(sep, field + x, s)
    decreases |x|
  {
    if x == [] {
      assert x + s == s && field + x == field;
    } else {
      assert (x + s)[0] == x[0] && (x + s)[1..] == x[1..] + s;
      assert field + x == (field + [x[0]]) + x[1..];
      SplitField(sep, field + [x[0]], x[1..], s);
    }
  }

  lemma SplitStep(sep: char, x: string, t: string)
    requires sep !in x
    ensures SplitFrom(sep, "", x + [sep] + t) == [x] + SplitFrom(sep, "", t) && SplitFrom(sep, "", x) == [x]
  {
    SplitField(sep, "", x, [sep] + t);
    SplitField(sep, "", x, "");
    assert x + ([sep] + t) == x + [sep] + t && ([sep] + t)[1..] == t;
    assert "" + x == x && x + "" == x;
  }

  lemma {:induction false} SplitJoin(sep: char, xs: seq<string>)
    requires xs != [] && forall x :: x in xs ==> sep !in x
    ensures SplitFrom(sep, "", JoinWith(sep, xs)) == xs
  {
    if |xs| == 1 {
      SplitStep(sep, xs[0], "");
    } else {
      SplitJoin(sep, xs[1..]);
      SplitStep(sep, xs[0], JoinWith(sep, xs[1..]));
      assert xs == [xs[0]] + xs[1..];
    }
  }

  function Count(c: char, s: string): nat {
    if s == [] then 0 else (if s[0] == c then 1 else 0) + Count(c, s[1..])
  }

  lemma {:induction false} SplitCount(sep: char, field: string, s: string)
    ensures |SplitFrom(sep, field, s)| == 1 + Count(sep, s)
    decreases |s|
  {
    if s != [] { SplitCount(sep, if s[0] == sep then "" else field + [s[0]], s[1..]); }
  }

  lemma {:induction false} CountConcat(c: char, s: string, t: string)
    ensures Count(c, s + t) == Count(c, s) + Count(c, t)
  {
    if s == [] {
      assert s + t == t;
    } else {
      assert (s + t)[1..] == s[1..] + t;
      CountConcat(c, s[1..], t);
    }
  }

  /** Trimming takes separators away exactly when there is one at an end. */
  lemma {:induction false} TrimCount(sep: char, s: string)
    ensures TrimChar(sep, s) == s || Count(sep, TrimChar(sep, s)) < Count(sep, s)
    ensures TrimChar(sep, s) == s <==> s == [] || (s[0] != sep && s[|s| - 1] != sep)
    decreases |s|
  {
    if s != [] {
      var n := |s| - 1;
      assert s == s[..n] + [s[n]];
      CountConcat(sep, s[..n], [s[n]]);
      if s[0] == sep { TrimCount(sep, s[1..]); } else if s[n] == sep { TrimCount(sep, s[..n]); }
    }
  }

  /** The joined text starts and ends with a separator where its first and last names are empty. */
  lemma {:induction false} JoinEnds(sep: char, xs: seq<string>)
    requires xs != [] && forall x :: x in xs ==> sep !in x
    ensures var s := JoinWith(sep, xs);
            && (s == "" <==> xs == [""])
            && (s != "" ==> (s[0] == sep <==> xs[0] == "") && (s[|s| - 1] == sep <==> xs[|xs| - 1] == ""))
  {
    var x := xs[0];
    assert x in xs;
    if x != "" { assert x[0] in x && x[|x| - 1] in x; }
    if |xs| == 1 {
      assert xs == [x];
    } else {
      var rest := xs[1..];
      JoinEnds(sep, rest);
      assert JoinWith(sep, xs) == x + [sep] + JoinWith(sep, rest);
      assert xs[|xs| - 1] == rest[|rest| - 1];
    }
  }

  /** A list joined is read back exactly when its first and its last name are not empty. */
  lemma ReadBackIff(sep: char, xs: seq<string>)
    requires forall x :: x in xs ==> sep !in x
    ensures SplitOn(sep, JoinWith(sep, xs)) == xs <==> (xs != [] ==> xs[0] != "" && xs[|xs| - 1] != "")
  {
    if xs != [] {
      var s := JoinWith(sep, xs);
      JoinEnds(sep, xs);
      SplitJoin(sep, xs);
      TrimCount(sep, s);
      SplitCount(sep, "", s);
      SplitCount(sep, "", TrimChar(sep, s));
    }
  }

  /** What is read from a text, if it is more than one empty name, starts and ends with a name that is not empty. */
  lemma {:induction false} SplitEnds(sep: char, field: string, s: string)
    ensures var xs := SplitFrom(sep, field, s);
            && xs != [] && (field != "" || (s != [] && s[0] != sep) ==> xs[0] != "")
            && (s != [] && s[|s| - 1] != sep ==> xs[|xs| - 1] != "")
            && (s == [] && field != "" ==> xs[|xs| - 1] != "")
    decreases |s|
  {
    if s != [] {
      var rest := SplitFrom(sep, if s[0] == sep then "" else field + [s[0]], s[1..]);
      SplitEnds(sep, if s[0] == sep then "" else field + [s[0]], s[1..]);
      if s[0] == sep { assert SplitFrom(sep, field, s) == [field] + rest; }
    }
  }

  lemma {:induction false} TrimEnds(sep: char, s: string)
    ensures var t := TrimChar(sep, s); t == [] || (t[0] != sep && t[|t| - 1] != sep)
    decreases |s|
  {
    if s != [] {
      if s[0] == sep { TrimEnds(sep, s[1..]); } else if s[|s| - 1] == sep { TrimEnds(sep, s[..|s| - 1]); }
    }
  }

  lemma ReadEnds(sep: char, s: string)
    ensures var xs := SplitOn(sep, s); xs == [] || xs == [""] || (xs[0] != "" && xs[|xs| - 1] != "")
  {
    if s != "" {
      TrimEnds(sep, s);
      SplitEnds(sep, "", TrimChar(sep, s));
    }
  }

  lemma {:induction false} JoinSnoc(sep: char, xs: seq<string>, x: string)
    requires xs != []
    ensures JoinWith(sep, xs + [x]) == JoinWith(sep, xs) + [sep] + x
  {
    if |xs| == 1 {
      assert (xs + [x])[1..] == [x];
    } else {
      assert (xs + [x])[1..] == xs[1..] + [x];
      JoinSnoc(sep, xs[1..], x);
      var a, b := xs[0] + [sep], JoinWith(sep, xs[1..]);
      assert a + (b + [sep] + x) == (a + b) + [sep] + x;
    }
  }

  /** Reading back a list that starts with a name loses at most names at its end. */
  lemma {:induction false} ReadBackPrefix(sep: char, xs: seq<string>) returns (m: nat)
    requires xs != [] && xs[0] != "" && forall x :: x in xs ==> sep !in x
    ensures 1 <= m <= |xs| && SplitOn(sep, JoinWith(sep, xs)) == xs[..m]
  {
    if xs[|xs| - 1] != "" {
      ReadBackIff(sep, xs);
      m := |xs|;
      assert xs[..m] == xs;
    } else {
      var init := xs[..|xs| - 1];
      m := ReadBackPrefix(sep, init);
      assert xs == init + [""];
      JoinSnoc(sep, init, "");
      JoinEnds(sep, init);
      var s := JoinWith(sep, init);
      assert JoinWith(sep, xs) == s + [sep];
      assert (s + [sep])[..|s|] == s;
      assert TrimChar(sep, s + [sep]) == TrimChar(sep, s);
      assert xs[..m] == init[..m];
    }
  }

  /** Reading back what was joined. */
  lemma SplitListJoin(xs: seq<string>)
    requires forall x :: x in xs ==> Listable(x)
    ensures SplitList(Join(xs)) == xs
  {
    if xs != [] { assert Listable(xs[0]) && Listable(xs[|xs| - 1]); }
    ReadBackIff(',', xs);
  }

  lemma {:induction false} SplitFromNone(sep: char, field: string, s: string)
    requires sep !in field
    ensures forall x :: x in SplitFrom(sep, field, s) ==> sep !in x
    decreases |s|
  {
    if s != [] { SplitFromNone(sep, if s[0] == sep then "" else field + [s[0]], s[1..]); }
  }

  lemma {:induction false} TrimLeftChars(s: string, c: char)
    requires c !in s
    ensures c !in TrimLeft(s)
  {
    if s != [] && IsSpace(s[0]) { TrimLeftChars(s[1..], c); }
  }

  lemma {:induction false} TrimRightChars(s: string, c: char)
    requires c !in s
    ensures c !in TrimRight(s)
  {
    if s != [] && IsSpace(s[|s| - 1]) { TrimRightChars(s[..|s| - 1], c); }
  }
}
