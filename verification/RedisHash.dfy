/**
 Objects kept as Redis hashes (`RedisHSetObj` and `RedisHGetObj` in common/redis.go): one
 text per struct field on the way in, parsed by the field's type on the way out.

 A struct type is a list of field declarations, a struct the list of its values. Both the
 integer types are 64 bits wide. A struct inside the struct, which the reader passes over,
 is a `Record`, known by the text between its printed braces, empty for the zero one. A
 type the reader has no case for is `Other`, a value of it whatever text it is printed as.
 Go's time parser is a parameter.
 */
module RedisHash {
  import opened Wrappers

  datatype Kind = StringKind | IntKind | BoolKind | RecordKind | OtherKind

  datatype Decl = Field(name: string, pointer: bool, kind: Kind) | DeletedAt(name: string)

  datatype Scalar = Str(s: string) | Int(n: Int64) | Bool(b: bool) | Record(inside: string) | Other(text: string)

  datatype Value = Plain(v: Scalar) | Ptr(target: Option<Scalar>) | Time(at: Option<int>)

  datatype Error = NotFound | BadInt(name: string) | BadBool(name: string) | BadTime(name: string) | Unsupported(name: string)

  predicate Is(x: Scalar, k: Kind) {
    match x
    case Str(_) => k.StringKind?
    case Int(_) => k.IntKind?
    case Bool(_) => k.BoolKind?
    case Record(_) => k.RecordKind?
    case Other(_) => k.OtherKind?
  }

  predicate Fits(d: Decl, v: Value) {
    match v
    case Plain(x) => d.Field? && !d.pointer && Is(x, d.kind)
    case Ptr(t) => d.Field? && d.pointer && (t.Some? ==> Is(t.value, d.kind))
    case Time(_) => d.DeletedAt?
  }

  ghost predicate WellTyped(shape: seq<Decl>, o: seq<Value>) {
    |o| == |shape| && forall i :: 0 <= i < |shape| ==> Fits(shape[i], o[i])
  }

  ghost predicate DistinctNames(shape: seq<Decl>) {
    forall i, j :: 0 <= i < j < |shape| ==> shape[i].name != shape[j].name
  }

  function Zero(k: Kind): Scalar {
    match k
    case StringKind => Str("")
    case IntKind => Int(0)
    case BoolKind => Bool(false)
    case RecordKind => Record("")
    case OtherKind => Other("")
  }

  function ZeroValue(d: Decl): Value {
    match d case DeletedAt(_) => Time(None) case Field(_, p, k) => if p then Ptr(None) else Plain(Zero(k))
  }

  /** A new struct. */
  function Blank(shape: seq<Decl>): (o: seq<Value>)
    ensures WellTyped(shape, o)
  {
    seq(|shape|, i requires 0 <= i < |shape| => ZeroValue(shape[i]))
  }

  // ----- Decimal numbers -----

  function DigitChar(d: nat): char
    requires d < 10
  {
    ('0' as int + d) as char
  }

  function Digits(n: nat): (s: string)
    ensures s != [] && '0' <= s[0] <= '9'
  {
    if n < 10 then [DigitChar(n)] else Digits(n / 10) + [DigitChar(n % 10)]
  }

  /** strconv.FormatInt in base 10 */
  function FormatInt(n: int): string { if n < 0 then ['-'] + Digits(-n) else Digits(n) }

  function ParseDigits(s: string): Option<nat> {
    if s == [] then Some(0)
    else
      var high, c := ParseDigits(s[..|s| - 1]), s[|s| - 1];
      if high.None? || c < '0' || c > '9' then None else Some(10 * high.value + (c as int - '0' as int))
  }

  /** strconv.ParseInt in base 10 for 64 bits */
  function ParseInt(s: string): Option<Int64> {
    var signed := s != [] && (s[0] == '-' || s[0] == '+');
    var digits := if signed then s[1..] else s;
    var n := ParseDigits(digits);
    if digits == [] || n.None? then None
    else
      var v: int := if signed && s[0] == '-' then 0 - n.value else n.value;
      if -MAX_INT64 - 1 <= v <= MAX_INT64 then Some(v) else None
  }

  lemma {:induction false} DigitsRoundTrip(n: nat)
    ensures ParseDigits(Digits(n)) == Some(n)
  {
    var s := Digits(n);
    if n < 10 {
      assert s[..0] == [] && ParseDigits(s[..0]) == Some(0);
    } else {
      DigitsRoundTrip(n / 10);
      assert s[..|s| - 1] == Digits(n / 10);
    }
  }

  /** Every 64-bit integer survives being printed and parsed. */
  lemma IntRoundTrip(n: Int64)
    ensures ParseInt(FormatInt(n)) == Some(n)
  {
    if n < 0 {
      DigitsRoundTrip(0 - n as int);
      assert FormatInt(n)[1..] == Digits(0 - n as int);
    } else {
      DigitsRoundTrip(n);
    }
  }

  function FormatBool(b: bool): string { if b then "true" else "false" }

  const TRUE_TEXTS := {"1", "t", "T", "true", "TRUE", "True"}
  const FALSE_TEXTS := {"0", "f", "F", "false", "FALSE", "False"}

  /** strconv.ParseBool */
  function ParseBool(s: string): Option<bool> {
    if s in TRUE_TEXTS then Some(true) else if s in FALSE_TEXTS then Some(false) else None
  }

  lemma BoolRoundTrip(b: bool)
    ensures ParseBool(FormatBool(b)) == Some(b)
  {
    assert "false"[0] != "true"[0] && "false"[0] != "TRUE"[0] && "false"[0] != "True"[0];
    assert |"false"| == 5;
  }

  // ----- Writing -----

  function Print(x: Scalar): string {
    match x
    case Str(s) => s
    case Int(n) => FormatInt(n)
    case Bool(b) => FormatBool(b)
    case Record(inside) => "{" + inside + "}"
    case Other(t) => t
  }

  /** The text for a field; DeletedAt is skipped and a nil pointer is the empty text. */
  function FieldText(d: Decl, v: Value): Option<string> {
    match v
    case Time(_) => None
    case Plain(x) => Some(Print(x))
    case Ptr(t) => if t.None? then Some("") else Some(Print(t.value))
  }

  function Encode(shape: seq<Decl>, o: seq<Value>): map<string, string>
    requires |o| == |shape|
  {
    if shape == [] then map[]
    else
      var n := |shape| - 1;
      var text := FieldText(shape[n], o[n]);
      var m := Encode(shape[..n], o[..n]);
      if text.None? then m else m[shape[n].name := text.value]
  }

  // ----- Reading -----

  /** The new value of a scalar and the error, if its text cannot be parsed. */
  function Parse(k: Kind, name: string, text: string, was: Scalar): (Scalar, Option<Error>) {
    match k
    case StringKind => (Str(text), None)
    case IntKind => var n := ParseInt(text); if n.None? then (was, Some(BadInt(name))) else (Int(n.value), None)
    case BoolKind => var b := ParseBool(text); if b.None? then (was, Some(BadBool(name))) else (Bool(b.value), None)
    case RecordKind => (was, None)
    case OtherKind => (was, Some(Unsupported(name)))
  }

  /** One round of the reader: a nil pointer is allocated before its text is parsed. */
  function ReadField(d: Decl, hash: map<string, string>, was: Value, parseTime: string -> Option<int>): (Value, Option<Error>)
    requires Fits(d, was)
  {
    if d.name !in hash then (was, None)
    else
      var text := hash[d.name];
      match was
      case Plain(x) => var (y, e) := Parse(d.kind, d.name, text, x); (Plain(y), e)
      case Ptr(t) =>
        if text == "" then (was, None)
        else
          var (y, e) := Parse(d.kind, d.name, text, if t.None? then Zero(d.kind) else t.value);
          (Ptr(Some(y)), e)
      case Time(_) =>
        if text == "" then (was, None)
        else if parseTime(text).None? then (was, Some(BadTime(d.name)))
        else (Time(parseTime(text)), None)
  }

  /** The fields one after the other, up to the first that cannot be parsed. */
  function ReadFields(shape: seq<Decl>, hash: map<string, string>, was: seq<Value>, parseTime: string -> Option<int>): (r: (seq<Value>, Option<Error>))
    requires WellTyped(shape, was)
    ensures |r.0| == |shape|
  {
    if shape == [] then ([], None)
    else
      var (v, e) := ReadField(shape[0], hash, was[0], parseTime);
      if e.Some? then ([v] + was[1..], e)
      else Behind([v], ReadFields(shape[1..], hash, was[1..], parseTime))
  }

  /** Fields read already, put before the outcome of reading on. */
  function Behind(vs: seq<Value>, r: (seq<Value>, Option<Error>)): (seq<Value>, Option<Error>) { (vs + r.0, r.1) }

  lemma BehindBehind(a: seq<Value>, b: seq<Value>, r: (seq<Value>, Option<Error>))
    ensures Behind([], r) == r && Behind(a, Behind(b, r)) == Behind(a + b, r)
  {
    assert [] + r.0 == r.0 && a + (b + r.0) == a + b + r.0;
  }

  /** The struct after `RedisHGetObj`, and its error. */
  function Decode(shape: seq<Decl>, hash: map<string, string>, was: seq<Value>, parseTime: string -> Option<int>): (seq<Value>, Option<Error>)
    requires WellTyped(shape, was)
  {
    if |hash| == 0 then (was, Some(NotFound)) else ReadFields(shape, hash, was, parseTime)
  }

  // ----- The round trip -----

  function Lookup(hash: map<string, string>, name: string): Option<string> {
    if name in hash then Some(hash[name]) else None
  }

  /** A hash that says of each field what the object's own encoding says, and maybe more. */
  ghost predicate Agrees(shape: seq<Decl>, o: seq<Value>, hash: map<string, string>)
    requires |o| == |shape|
  {
    forall i :: 0 <= i < |shape| ==> Lookup(hash, shape[i].name) == FieldText(shape[i], o[i])
  }

  lemma {:induction false} EncodeNames(shape: seq<Decl>, o: seq<Value>, name: string)
    requires |o| == |shape| && name in Encode(shape, o)
    ensures exists i :: 0 <= i < |shape| && shape[i].name == name
  {
    var n := |shape| - 1;
    if shape[n].name != name {
      EncodeNames(shape[..n], o[..n], name);
      var i :| 0 <= i < n && shape[..n][i].name == name;
      assert shape[i].name == name;
    }
  }

  lemma {:induction false} EncodeAgreesAt(shape: seq<Decl>, o: seq<Value>, i: nat)
    requires |o| == |shape| && DistinctNames(shape) && i < |shape|
    ensures Lookup(Encode(shape, o), shape[i].name) == FieldText(shape[i], o[i])
  {
    var n := |shape| - 1;
    if i < n {
      EncodeAgreesAt(shape[..n], o[..n], i);
    } else if shape[n].name in Encode(shape[..n], o[..n]) {
      EncodeNames(shape[..n], o[..n], shape[n].name);
    }
  }

  lemma EncodeAgrees(shape: seq<Decl>, o: seq<Value>)
    requires |o| == |shape| && DistinctNames(shape)
    ensures Agrees(shape, o, Encode(shape, o))
  {
    forall i | 0 <= i < |shape| ensures Lookup(Encode(shape, o), shape[i].name) == FieldText(shape[i], o[i]) {
      EncodeAgreesAt(shape, o, i);
    }
  }

  /**
   What a field holds after the round trip: what was written, except that an empty text leaves
   a pointer, and a skipped field or inner struct, as it was; a nil pointer to one gets a zero one.
   */
  function Kept(v: Value, was: Value): Value {
    match v
    case Plain(x) => if x.Record? then was else v
    case Ptr(t) =>
      if t.None? || Print(t.value) == "" then was
      else if !t.value.Record? then v
      else if was == Ptr(None) then Ptr(Some(Record(""))) else was
    case Time(_) => was
  }

  /** The reader has a case for the field's type. */
  predicate Supported(d: Decl) { d.DeletedAt? || !d.kind.OtherKind? }

  lemma ParsePrint(k: Kind, name: string, x: Scalar, was: Scalar)
    requires Is(x, k) && !k.OtherKind?
    ensures Parse(k, name, Print(x), was) == (if x.Record? then was else x, None)
  {
    match x
    case Int(n) => IntRoundTrip(n);
    case Bool(b) => BoolRoundTrip(b);
    case _ =>
  }

  lemma FieldRoundTrip(d: Decl, v: Value, was: Value, hash: map<string, string>, parseTime: string -> Option<int>)
    requires Fits(d, v) && Fits(d, was) && Lookup(hash, d.name) == FieldText(d, v)
    ensures Supported(d) ==> ReadField(d, hash, was, parseTime) == (Kept(v, was), None)
    ensures !Supported(d) ==>
              var skipped := v.Ptr? && (v.target.None? || Print(v.target.value) == "");
              var (r, e) := ReadField(d, hash, was, parseTime);
              if skipped then (r, e) == (was, None) else e == Some(Unsupported(d.name))
  {
    if Supported(d) {
      match v
      case Plain(x) => ParsePrint(d.kind, d.name, x, was.v);
      case Ptr(t) =>
        if t.Some? { ParsePrint(d.kind, d.name, t.value, if was.target.None? then Zero(d.kind) else was.target.value); }
      case Time(_) =>
    }
  }

  /** Reading back into any struct of the type. */
  lemma {:induction false} ReadsBack(shape: seq<Decl>, o: seq<Value>, was: seq<Value>, hash: map<string, string>, parseTime: string -> Option<int>)
    requires WellTyped(shape, o) && WellTyped(shape, was) && Agrees(shape, o, hash)
    requires forall i :: 0 <= i < |shape| ==> Supported(shape[i])
    ensures ReadFields(shape, hash, was, parseTime).1 == None
    ensures forall i :: 0 <= i < |shape| ==> ReadFields(shape, hash, was, parseTime).0[i] == Kept(o[i], was[i])
  {
    if shape != [] {
      FieldRoundTrip(shape[0], o[0], was[0], hash, parseTime);
      ReadsBack(shape[1..], o[1..], was[1..], hash, parseTime);
    }
  }

  /** A field that a new struct gets back as it was. */
  predicate Restorable(d: Decl, v: Value) {
    if d.DeletedAt? then v == Time(None)
    else match d.kind
      case OtherKind => v == Ptr(None)
      case RecordKind => v == Ptr(None) || v == Ptr(Some(Record(""))) || v == Plain(Record(""))
      case _ => v != Ptr(Some(Str("")))
  }

  lemma FieldRestoredIff(d: Decl, v: Value, hash: map<string, string>, parseTime: string -> Option<int>)
    requires Fits(d, v) && Lookup(hash, d.name) == FieldText(d, v)
    ensures Fits(d, ZeroValue(d))
    ensures ReadField(d, hash, ZeroValue(d), parseTime) == (v, None) <==> Restorable(d, v)
  {
    FieldRoundTrip(d, v, ZeroValue(d), hash, parseTime);
    if v.Ptr? && v.target.Some? && v.target.value.Bool? { assert |FormatBool(v.target.value.b)| > 0; }
  }

  lemma {:induction false} RestoredIff(shape: seq<Decl>, o: seq<Value>, hash: map<string, string>, parseTime: string -> Option<int>)
    requires WellTyped(shape, o) && Agrees(shape, o, hash)
    ensures ReadFields(shape, hash, Blank(shape), parseTime) == (o, None) <==> forall i :: 0 <= i < |shape| ==> Restorable(shape[i], o[i])
  {
    if shape != [] {
      FieldRestoredIff(shape[0], o[0], hash, parseTime);
      assert Blank(shape)[1..] == Blank(shape[1..]);
      RestoredIff(shape[1..], o[1..], hash, parseTime);
      assert o == [o[0]] + o[1..];
      assert (forall i :: 0 <= i < |shape| ==> Restorable(shape[i], o[i]))
        <==> Restorable(shape[0], o[0]) && forall i :: 0 <= i < |shape[1..]| ==> Restorable(shape[1..][i], o[1..][i]);
    }
  }

  // ----- Texts that cannot be read -----

  predicate Digit(c: char) { '0' <= c <= '9' }

  lemma {:induction false} DigitsIff(s: string)
    ensures ParseDigits(s).Some? <==> forall c :: c in s ==> Digit(c)
  {
    if s != [] {
      var init, last := s[..|s| - 1], s[|s| - 1];
      DigitsIff(init);
      assert s == init + [last] && last in s;
      assert (forall c :: c in s ==> Digit(c)) <==> (forall c :: c in init ==> Digit(c)) && Digit(last);
    }
  }

  /** A text is read as an integer only if it is digits, at least one, after at most one sign. */
  lemma ReadableInt(s: string)
    ensures ParseInt(s).Some? ==>
              var digits := if s != [] && (s[0] == '-' || s[0] == '+') then s[1..] else s;
              digits != [] && forall c :: c in digits ==> Digit(c)
  {
    DigitsIff(if s != [] && (s[0] == '-' || s[0] == '+') then s[1..] else s);
  }

  /** Twelve texts are read as a boolean, and no other. */
  lemma ReadableBool(s: string)
    ensures ParseBool(s).Some? <==> s in {"1", "t", "T", "true", "TRUE", "True", "0", "f", "F", "false", "FALSE", "False"}
    ensures ParseBool(s) == Some(true) ==> s in {"1", "t", "T", "true", "TRUE", "True"}
  { }

  /** A text that cannot be read is reported by the kind and the name of its field, which keeps its value. */
  lemma UnreadableField(d: Decl, hash: map<string, string>, x: Scalar, parseTime: string -> Option<int>)
    requires Fits(d, Plain(x)) && d.name in hash
    ensures d.kind == IntKind && ParseInt(hash[d.name]).None? ==> ReadField(d, hash, Plain(x), parseTime) == (Plain(x), Some(BadInt(d.name)))
    ensures d.kind == BoolKind && ParseBool(hash[d.name]).None? ==> ReadField(d, hash, Plain(x), parseTime) == (Plain(x), Some(BadBool(d.name)))
    ensures d.kind == OtherKind ==> ReadField(d, hash, Plain(x), parseTime) == (Plain(x), Some(Unsupported(d.name)))
  { }

  /** A deletion time is kept for an empty text, read if the text is a time, and reported if it is not. */
  lemma TimeField(d: Decl, hash: map<string, string>, at: Option<int>, parseTime: string -> Option<int>)
    requires d.DeletedAt?
    ensures var was := Time(at); var (v, e) := ReadField(d, hash, was, parseTime);
            if d.name !in hash || hash[d.name] == "" then (v, e) == (was, None)
            else if parseTime(hash[d.name]).Some? then (v, e) == (Time(parseTime(hash[d.name])), None)
            else (v, e) == (was, Some(BadTime(d.name)))
  { }

  /** The first field that cannot be read stops the reading with its error: those before it are set, those after it as they were. */
  lemma {:induction false} FirstUnreadable(shape: seq<Decl>, hash: map<string, string>, was: seq<Value>, parseTime: string -> Option<int>, i: nat)
    requires WellTyped(shape, was) && i < |shape| && ReadField(shape[i], hash, was[i], parseTime).1.Some?
    requires forall j :: 0 <= j < i ==> ReadField(shape[j], hash, was[j], parseTime).1.None?
    ensures var (r, e) := ReadFields(shape, hash, was, parseTime);
            && e == ReadField(shape[i], hash, was[i], parseTime).1
            && (forall j :: 0 <= j <= i ==> r[j] == ReadField(shape[j], hash, was[j], parseTime).0)
            && (forall j :: i < j < |shape| ==> r[j] == was[j])
    decreases |shape|
  {
    if i > 0 {
      var (r, e) := ReadFields(shape[1..], hash, was[1..], parseTime);
      FirstUnreadable(shape[1..], hash, was[1..], parseTime, i - 1);
      assert ReadFields(shape, hash, was, parseTime).0 == [ReadField(shape[0], hash, was[0], parseTime).0] + r;
      forall j | 0 <= j <= i ensures ReadFields(shape, hash, was, parseTime).0[j] == ReadField(shape[j], hash, was[j], parseTime).0 {
        if j > 0 { assert shape[1..][j - 1] == shape[j] && was[1..][j - 1] == was[j]; }
      }
    }
  }

  ghost predicate HasField(shape: seq<Decl>) { exists i :: 0 <= i < |shape| && shape[i].Field? }

  /** What the key holds after HSET: the texts written replace those there, and the rest stays. */
  function Stored(before: map<string, string>, shape: seq<Decl>, o: seq<Value>): map<string, string>
    requires |o| == |shape|
  {
    before + Encode(shape, o)
  }

  /** Nothing at the key claims to be a deletion time. */
  ghost predicate NoTimes(shape: seq<Decl>, hash: map<string, string>) {
    forall i :: 0 <= i < |shape| && shape[i].DeletedAt? ==> shape[i].name !in hash
  }

  lemma StoredAgrees(before: map<string, string>, shape: seq<Decl>, o: seq<Value>)
    requires WellTyped(shape, o) && DistinctNames(shape) && NoTimes(shape, before)
    ensures Agrees(shape, o, Stored(before, shape, o))
    ensures |Stored(before, shape, o)| == 0 <==> |before| == 0 && !HasField(shape)
  {
    EncodeAgrees(shape, o);
    var hash := Stored(before, shape, o);
    forall i | 0 <= i < |shape| ensures Lookup(hash, shape[i].name) == FieldText(shape[i], o[i]) {
      assert Lookup(Encode(shape, o), shape[i].name) == FieldText(shape[i], o[i]) && Fits(shape[i], o[i]);
    }
    if HasField(shape) {
      var i :| 0 <= i < |shape| && shape[i].Field?;
      assert Fits(shape[i], o[i]) && shape[i].name in hash;
    }
    if name :| name in Encode(shape, o) {
      EncodeNames(shape, o, name);
      var i :| 0 <= i < |shape| && shape[i].name == name;
      assert Fits(shape[i], o[i]) && shape[i].Field?;
    } else {
      assert Encode(shape, o) == map[];
    }
    if name :| name in before { assert name in hash; }
  }

  /** Reading back into a struct already in use: nil pointers, pointers to the empty text and the deletion time leave it as it was. */
  lemma RoundTripInto(before: map<string, string>, shape: seq<Decl>, o: seq<Value>, was: seq<Value>, parseTime: string -> Option<int>)
    requires WellTyped(shape, o) && WellTyped(shape, was) && DistinctNames(shape) && NoTimes(shape, before) && HasField(shape)
    requires forall i :: 0 <= i < |shape| ==> Supported(shape[i])
    ensures var (r, e) := Decode(shape, Stored(before, shape, o), was, parseTime);
            e == None && |r| == |shape| && forall i :: 0 <= i < |shape| ==> r[i] == Kept(o[i], was[i])
  {
    StoredAgrees(before, shape, o);
    ReadsBack(shape, o, was, Stored(before, shape, o), parseTime);
  }

  /**
   Reading back into a new struct returns every field, exactly when there is something to
   read and no field is a pointer to the empty text, a set deletion time, an inner struct that
   is not zero or of a type the reader has no case for (other than a nil pointer to one).
   */
  lemma RoundTripIff(before: map<string, string>, shape: seq<Decl>, o: seq<Value>, parseTime: string -> Option<int>)
    requires WellTyped(shape, o) && DistinctNames(shape) && NoTimes(shape, before)
    ensures Decode(shape, Stored(before, shape, o), Blank(shape), parseTime) == (o, None)
            <==> (before != map[] || HasField(shape)) && forall i :: 0 <= i < |shape| ==> Restorable(shape[i], o[i])
  {
    StoredAgrees(before, shape, o);
    RestoredIff(shape, o, Stored(before, shape, o), parseTime);
  }

  // ----- The loops -----

  /** `RedisHSetObj` up to the transaction. */
  method HSetObj(shape: seq<Decl>, o: seq<Value>) returns (data: map<string, string>)
    requires WellTyped(shape, o)
    ensures data == Encode(shape, o)
  {
    data := map[];
    for i := 0 to |shape|
      invariant data == Encode(shape[..i], o[..i])
    {
      assert shape[..i + 1][..i] == shape[..i] && o[..i + 1][..i] == o[..i];
      assert Fits(shape[i], o[i]);
      if shape[i].DeletedAt? { continue; }
      var value := o[i];
      var scalar: Scalar;
      if value.Ptr? {
        if value.target.None? {
          data := data[shape[i].name := ""];
          continue;
        }
        scalar := value.target.value;
      } else {
        scalar := value.v;
      }
      data := data[shape[i].name := Print(scalar)];
    }
    assert shape[..|shape|] == shape && o[..|o|] == o;
  }

  /** One round of the loop, from position `i` with the fields before it set. */
  lemma ReadNext(shape: seq<Decl>, hash: map<string, string>, was: seq<Value>, parseTime: string -> Option<int>, done: seq<Value>, i: nat)
    requires |was| == |shape| && i < |shape| && WellTyped(shape[i..], was[i..])
    ensures Fits(shape[i], was[i]) && WellTyped(shape[i + 1..], was[i + 1..])
    ensures var (v, e) := ReadField(shape[i], hash, was[i], parseTime);
            var all := Behind(done, ReadFields(shape[i..], hash, was[i..], parseTime));
            if e.Some? then all == (done + [v] + was[i + 1..], e)
            else all == Behind(done + [v], ReadFields(shape[i + 1..], hash, was[i + 1..], parseTime))
  {
    var s, w := shape[i..], was[i..];
    assert s[0] == shape[i] && w[0] == was[i] && Fits(s[0], w[0]);
    assert s[1..] == shape[i + 1..] && w[1..] == was[i + 1..];
    forall j | 0 <= j < |s[1..]| ensures Fits(s[1..][j], w[1..][j]) { assert Fits(s[j + 1], w[j + 1]); }
    var (v, e) := ReadField(s[0], hash, w[0], parseTime);
    if e.Some? {
      assert done + ([v] + w[1..]) == done + [v] + w[1..];
    } else {
      BehindBehind(done, [v], ReadFields(s[1..], hash, w[1..], parseTime));
    }
  }

  /** `RedisHGetObj` after the hash is loaded; it sets the fields of the struct one by one. */
  method HGetObj(shape: seq<Decl>, hash: map<string, string>, obj: array<Value>, parseTime: string -> Option<int>) returns (err: Option<Error>)
    requires WellTyped(shape, obj[..])
    modifies obj
    ensures (obj[..], err) == Decode(shape, hash, old(obj[..]), parseTime)
  {
    if |hash| == 0 { return Some(NotFound); }
    ghost var was := obj[..];
    ghost var all := ReadFields(shape, hash, was, parseTime);
    BehindBehind([], [], all);
    for i := 0 to |shape|
      invariant obj[i..] == was[i..] && WellTyped(shape[i..], was[i..])
      invariant all == Behind(obj[..i], ReadFields(shape[i..], hash, was[i..], parseTime))
    {
      ReadNext(shape, hash, was, parseTime, obj[..i], i);
      assert obj[i] == was[i];
      var (v, e) := ReadField(shape[i], hash, obj[i], parseTime);
      ghost var done := obj[..i];
      obj[i] := v;
      assert obj[..i + 1] == done + [v];
      if e.Some? {
        assert obj[..] == done + [v] + was[i + 1..];
        return e;
      }
    }
    assert obj[..] == obj[..|shape|] + [];
    err := None;
  }
}
