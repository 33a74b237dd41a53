/** Struct to Redis hash and back (RedisHSetObj and RedisHGetObj in common/redis.go).

    A struct is its list of named fields; reflection over it is iteration over that list. */
module RedisHash {
  import opened Prelude

  type int64 = i: int | -0x8000_0000_0000_0000 <= i < 0x8000_0000_0000_0000

  datatype Kind = KString | KBool | KInt   // KInt is both int and int64, which are equally wide

  datatype Scalar = Str(s: string) | Bool(b: bool) | Int(i: int64)

  function KindOf(v: Scalar): Kind {
    match v case Str(_) => KString case Bool(_) => KBool case Int(_) => KInt
  }

  datatype Value =
    | Plain(v: Scalar)
    | Pointer(kind: Kind, target: Option<Scalar>)
    | DeletedAt(time: Option<string>)             // gorm.DeletedAt
    | Nested(printed: string, zero: string)       // another struct, as %v prints it and its zero value
    | Other(printed: string)                      // a type of any other kind, as %v prints it

  datatype Field = Field(name: string, value: Value)

  predicate WellTyped(value: Value) {
    value.Pointer? && value.target.Some? ==> KindOf(value.target.value) == value.kind
  }

  predicate IsStruct(fields: seq<Field>) {
    && (forall i :: 0 <= i < |fields| ==> WellTyped(fields[i].value))
    && (forall i, j :: 0 <= i < j < |fields| ==> fields[i].name != fields[j].name)
  }

  datatype Error = NotFound | BadNumber | BadBool | BadTime | Unsupported

  // ---------------------------------------------------- strconv and fmt

  predicate IsDigit(c: char) {
    '0' <= c <= '9'
  }

  function Digits(n: nat): (s: string)
    ensures s != [] && forall i :: 0 <= i < |s| ==> IsDigit(s[i])
  {
    var last := '0' + (n % 10) as char;
    if n < 10 then [last] else Digits(n / 10) + [last]
  }

  function FormatInt(i: int64): string {
    var n: int := i;
    if n < 0 then "-" + Digits(-n) else Digits(n)
  }

  /** The value of a non-empty run of decimal digits. */
  function ParseDigits(s: string): Option<nat> {
    if s == "" || !IsDigit(s[|s| - 1]) then None
    else
      var d := (s[|s| - 1] - '0') as int;
      if |s| == 1 then Some(d)
      else match ParseDigits(s[..|s| - 1])
           case None => None
           case Some(n) => Some(10 * n + d)
  }

  /** strconv.ParseInt with base 10 and 64 bits. */
  function ParseInt(s: string): Result<int64, Error> {
    var signed := s != "" && (s[0] == '+' || s[0] == '-');
    var negative := signed && s[0] == '-';
    match ParseDigits(if signed then s[1..] else s)
    case None => Err(BadNumber)
    case Some(n) =>
      if negative then (if n <= 0x8000_0000_0000_0000 then Ok(-(n as int)) else Err(BadNumber))
      else if n < 0x8000_0000_0000_0000 then Ok(n) else Err(BadNumber)
  }

  function FormatBool(b: bool): string {
    if b then "true" else "false"
  }

  /** strconv.ParseBool. */
  function ParseBool(s: string): Result<bool, Error> {
    if s in ["1", "t", "T", "TRUE", "true", "True"] then Ok(true)
    else if s in ["0", "f", "F", "FALSE", "false", "False"] then Ok(false)
    else Err(BadBool)
  }

  lemma {:induction false} DigitsRoundTrip(n: nat)
    ensures ParseDigits(Digits(n)) == Some(n)
  {
    var s := Digits(n);
    if n >= 10 {
      DigitsRoundTrip(n / 10);
      assert s[..|s| - 1] == Digits(n / 10);
    }
  }

  /** Printing and parsing are inverse on every 64-bit integer, the smallest one included. */
  lemma IntRoundTrip(i: int64)
    ensures ParseInt(FormatInt(i)) == Ok(i)
  {
    var n: int := i;
    if n < 0 {
      DigitsRoundTrip(-n);
      assert FormatInt(i)[1..] == Digits(-n);
    } else {
      DigitsRoundTrip(n);
      assert IsDigit(Digits(i)[0]);
    }
  }

  lemma BoolRoundTrip(b: bool)
    ensures ParseBool(FormatBool(b)) == Ok(b) && FormatBool(b) != ""
  {
  }

  // -------------------------------------------------------------- encoding

  function FormatScalar(v: Scalar): string {
    match v case Str(s) => s case Bool(b) => FormatBool(b) case Int(i) => FormatInt(i)
  }

  /** What the hash holds for a value; nothing for a DeletedAt. */
  function Text(value: Value): Option<string> {
    match value
    case Plain(v) => Some(FormatScalar(v))
    case Pointer(_, None) => Some("")
    case Pointer(_, Some(v)) => Some(FormatScalar(v))
    case DeletedAt(_) => None
    case Nested(printed, _) => Some(printed)
    case Other(printed) => Some(printed)
  }

  /** The hash holds the entry of each of the first n fields, and nothing else. */
  predicate Holds(data: map<string, string>, fields: seq<Field>, n: nat)
    requires n <= |fields|
  {
    && (forall i :: 0 <= i < n ==> EntryOk(data, fields[i]))
    && (forall name :: name in data ==> exists i :: 0 <= i < n && fields[i].name == name)
  }

  predicate EntryOk(data: map<string, string>, field: Field) {
    match Text(field.value)
    case None => field.name !in data
    case Some(text) => field.name in data && data[field.name] == text
  }

  lemma HoldsGrows(data: map<string, string>, fields: seq<Field>, n: nat)
    requires IsStruct(fields) && n < |fields| && Holds(data, fields, n)
    ensures var text := Text(fields[n].value);
            Holds(if text.Some? then data[fields[n].name := text.value] else data, fields, n + 1)
  {
    var text, name := Text(fields[n].value), fields[n].name;
    var data' := if text.Some? then data[name := text.value] else data;
    assert forall i :: 0 <= i < n ==> EntryOk(data, fields[i]) && fields[i].name != name;
    assert name !in data;
    forall other | other in data'
      ensures exists i :: 0 <= i < n + 1 && fields[i].name == other
    {
      if other != name {
        var i :| 0 <= i < n && fields[i].name == other;
        assert i < n + 1;
      }
    }
  }

  method Encode(fields: seq<Field>) returns (data: map<string, string>)
    requires IsStruct(fields)
    ensures Holds(data, fields, |fields|)
  {
    data := map[];
    for i := 0 to |fields|
      invariant Holds(data, fields, i)
    {
      var field := fields[i];
      HoldsGrows(data, fields, i);
      match field.value {
        case DeletedAt(_) =>
        case Pointer(_, target) =>
          if target.None? {
            data := data[field.name := ""];
          } else {
            data := data[field.name := FormatScalar(target.value)];
          }
        case Plain(v) => data := data[field.name := FormatScalar(v)];
        case Nested(printed, _) => data := data[field.name := printed];
        case Other(printed) => data := data[field.name := printed];
      }
    }
  }

  // -------------------------------------------------------------- decoding

  function ParseScalar(kind: Kind, text: string): Result<Scalar, Error> {
    match kind
    case KString => Ok(Str(text))
    case KInt => (match ParseInt(text) case Ok(i) => Ok(Int(i)) case Err(e) => Err(e))
    case KBool => (match ParseBool(text) case Ok(b) => Ok(Bool(b)) case Err(e) => Err(e))
  }

  /** A field after the hash was read into it; parseTime is the RFC 3339 parser. */
  function Loaded(data: map<string, string>, field: Field, parseTime: string -> Option<string>): Result<Value, Error> {
    if field.name !in data then Ok(field.value)
    else
      var text := data[field.name];
      match field.value
      case Plain(v) =>
        (match ParseScalar(KindOf(v), text) case Ok(w) => Ok(Plain(w)) case Err(e) => Err(e))
      case Pointer(kind, _) =>
        if text == "" then Ok(field.value)
        else (match ParseScalar(kind, text) case Ok(w) => Ok(Pointer(kind, Some(w))) case Err(e) => Err(e))
      case DeletedAt(_) =>
        if text == "" then Ok(field.value)
        else (match parseTime(text) case Some(t) => Ok(DeletedAt(Some(t))) case None => Err(BadTime))
      case Nested(_, _) => Ok(field.value)
      case Other(_) => Err(Unsupported)
  }

  method Decode(data: map<string, string>, target: seq<Field>, parseTime: string -> Option<string>)
    returns (r: Result<seq<Field>, Error>)
    ensures data == map[] ==> r == Err(NotFound)
    ensures data != map[] ==> (r.Ok? <==> forall i :: 0 <= i < |target| ==> Loaded(data, target[i], parseTime).Ok?)
    ensures data != map[] && r.Err? ==>
        exists i :: 0 <= i < |target| && Loaded(data, target[i], parseTime) == Err(r.error)
    ensures r.Ok? ==> |r.value| == |target| && forall i :: 0 <= i < |target| ==>
              r.value[i].name == target[i].name && Loaded(data, target[i], parseTime) == Ok(r.value[i].value)
  {
    if |data| == 0 {
      return Err(NotFound);
    }
    var fields := target;
    for i := 0 to |target|
      invariant |fields| == |target|
      invariant forall j :: 0 <= j < i ==>
        fields[j].name == target[j].name && Loaded(data, target[j], parseTime) == Ok(fields[j].value)
      invariant forall j :: i <= j < |target| ==> fields[j] == target[j]
    {
      var loaded := Loaded(data, fields[i], parseTime);
      match loaded {
        case Err(e) => return Err(e);
        case Ok(value) => fields := fields[i := Field(fields[i].name, value)];
      }
    }
    return Ok(fields);
  }

  // ------------------------------------------------------------ round trip

  function ZeroScalar(kind: Kind): Scalar {
    match kind case KString => Str("") case KBool => Bool(false) case KInt => Int(0)
  }

  function Zero(value: Value): Value {
    match value
    case Plain(v) => Plain(ZeroScalar(KindOf(v)))
    case Pointer(kind, _) => Pointer(kind, None)
    case DeletedAt(_) => DeletedAt(None)
    case Nested(_, zero) => Nested(zero, zero)
    case Other(_) => Other("")
  }

  function ZeroStruct(fields: seq<Field>): (zero: seq<Field>)
    ensures |zero| == |fields|
  {
    seq(|fields|, i requires 0 <= i < |fields| => Field(fields[i].name, Zero(fields[i].value)))
  }

  /** What a value comes back as: a pointer to the empty string is nil, and a DeletedAt or another struct is zero. */
  function ComesBackAs(value: Value): Value {
    match value
    case Pointer(KString, Some(Str(s))) => if s == "" then Pointer(KString, None) else value
    case DeletedAt(_) => DeletedAt(None)
    case Nested(_, zero) => Nested(zero, zero)
    case _ => value
  }

  lemma FieldRoundTrip(data: map<string, string>, field: Field, parseTime: string -> Option<string>)
    requires WellTyped(field.value)
    requires EntryOk(data, field)
    ensures Loaded(data, Field(field.name, Zero(field.value)), parseTime)
         == if field.value.Other? then Err(Unsupported) else Ok(ComesBackAs(field.value))
  {
    var scalar := match field.value case Plain(v) => Some(v) case Pointer(_, t) => t case _ => None;
    match scalar
    case Some(Int(i)) => IntRoundTrip(i);
    case Some(Bool(b)) => BoolRoundTrip(b);
    case _ =>
  }

  /** A value that the hash does not give back. */
  predicate Lossy(value: Value) {
    match value
    case Pointer(_, Some(Str(s))) => s == ""
    case DeletedAt(time) => time.Some?
    case Nested(printed, zero) => printed != zero
    case _ => false
  }

  /** What is read is the struct itself if and only if it has no pointer to the empty string, no set DeletedAt and
      no other struct that is not zero. */
  lemma FaithfulIff(fields: seq<Field>, loaded: seq<Field>)
    requires IsStruct(fields) && |loaded| == |fields|
    requires forall i :: 0 <= i < |fields| ==> loaded[i] == Field(fields[i].name, ComesBackAs(fields[i].value))
    ensures loaded == fields <==> forall i :: 0 <= i < |fields| ==> !Lossy(fields[i].value)
  {
    forall i | 0 <= i < |fields|
      ensures loaded[i] == fields[i] <==> !Lossy(fields[i].value)
    {
      assert WellTyped(fields[i].value);
    }
  }

  /** Every field comes back from what the hash holds. */
  lemma AllLoaded(data: map<string, string>, fields: seq<Field>, parseTime: string -> Option<string>)
    requires IsStruct(fields) && Holds(data, fields, |fields|)
    ensures forall i :: 0 <= i < |fields| ==>
              Loaded(data, ZeroStruct(fields)[i], parseTime)
              == if fields[i].value.Other? then Err(Unsupported) else Ok(ComesBackAs(fields[i].value))
  {
    forall i | 0 <= i < |fields|
      ensures Loaded(data, ZeroStruct(fields)[i], parseTime)
           == if fields[i].value.Other? then Err(Unsupported) else Ok(ComesBackAs(fields[i].value))
    {
      FieldRoundTrip(data, fields[i], parseTime);
    }
  }

  lemma StoredIff(data: map<string, string>, fields: seq<Field>)
    requires Holds(data, fields, |fields|)
    ensures data != map[] <==> exists i :: 0 <= i < |fields| && !fields[i].value.DeletedAt?
  {
    if i :| 0 <= i < |fields| && !fields[i].value.DeletedAt? {
      assert EntryOk(data, fields[i]) && fields[i].name in data;
    }
    if data != map[] {
      var name :| name in data;
      var i :| 0 <= i < |fields| && fields[i].name == name;
      assert EntryOk(data, fields[i]);
    }
  }

  /** Storing a struct and reading it into a zero struct: it fails exactly when a field has an unsupported
      type or no field is stored at all, and otherwise gives every field back as ComesBackAs says, which is the
      struct itself exactly if no value is lossy. */
  method StoreAndLoad(fields: seq<Field>, parseTime: string -> Option<string>) returns (r: Result<seq<Field>, Error>)
    requires IsStruct(fields)
    ensures r.Ok? <==> (forall i :: 0 <= i < |fields| ==> !fields[i].value.Other?)
                       && (exists i :: 0 <= i < |fields| && !fields[i].value.DeletedAt?)
    ensures r.Ok? ==> |r.value| == |fields| && forall i :: 0 <= i < |fields| ==>
              r.value[i] == Field(fields[i].name, ComesBackAs(fields[i].value))
    ensures r.Ok? ==> (r.value == fields <==> forall i :: 0 <= i < |fields| ==> !Lossy(fields[i].value))
  {
    var data := Encode(fields);
    var zero := ZeroStruct(fields);
    r := Decode(data, zero, parseTime);
    AllLoaded(data, fields, parseTime);
    StoredIff(data, fields);
    if r.Ok? { FaithfulIff(fields, r.value); }
  }

  // ------------------------------------------------------ in plain terms

  /** The last digit of a number is its last character; bools print as words. */
  lemma PrintedAs(n: nat, digit: nat)
    requires digit < 10
    ensures Digits(digit) == ["0123456789"[digit]]
    ensures n > 0 ==> Digits(10 * n + digit) == Digits(n) + ["0123456789"[digit]]
    ensures FormatBool(true) == "true" && FormatBool(false) == "false"
  {
    assert (10 * n + digit) / 10 == n && (10 * n + digit) % 10 == digit;
  }

  lemma ReadDigits(n: nat)
    ensures var s := Digits(n);
            && ParseInt(s) == (if n < 0x8000_0000_0000_0000 then Ok(n) else Err(BadNumber))
            && ParseInt("+" + s) == ParseInt(s)
            && ParseInt("-" + s) == if n <= 0x8000_0000_0000_0000 then Ok(-(n as int)) else Err(BadNumber)
  {
    var s := Digits(n);
    DigitsRoundTrip(n);
    assert IsDigit(s[0]);
    assert ("+" + s)[1..] == s && ("-" + s)[1..] == s;
    assert ("+" + s)[0] == '+' && ("-" + s)[0] == '-';
  }

  /** Negative numbers print with a minus sign.  A plus sign is read too; numbers of more than 64 bits and texts
      without a digit are not. */
  lemma ParsedAs(n: nat)
    ensures n < 0x8000_0000_0000_0000 ==> FormatInt(n) == Digits(n)
    ensures 0 < n <= 0x8000_0000_0000_0000 ==> FormatInt(-(n as int)) == "-" + Digits(n)
    ensures n < 0x8000_0000_0000_0000 ==> ParseInt("+" + Digits(n)) == Ok(n)
    ensures n >= 0x8000_0000_0000_0000 ==> ParseInt(Digits(n)) == Err(BadNumber)
    ensures n > 0x8000_0000_0000_0000 ==> ParseInt("-" + Digits(n)) == Err(BadNumber)
    ensures ParseInt("") == Err(BadNumber) && ParseInt("-") == Err(BadNumber)
  {
    ReadDigits(n);
    assert "-"[1..] == "";
  }

  /** Six words each are read as true and as false, all others are not read. */
  lemma BoolWords(s: string)
    ensures ParseBool(s) == Ok(true)
       <==> s == "1" || s == "t" || s == "T" || s == "TRUE" || s == "true" || s == "True"
    ensures ParseBool(s) == Ok(false)
       <==> s == "0" || s == "f" || s == "F" || s == "FALSE" || s == "false" || s == "False"
    ensures ParseBool(s).Err? ==> ParseBool(s) == Err(BadBool)
  {
  }

  /** What a stored text becomes in a field of each type; a field that is not stored keeps its value. */
  lemma LoadedAs(data: map<string, string>, name: string, text: string, parseTime: string -> Option<string>, i: int64)
    requires name in data && data[name] == text
    ensures Loaded(data, Field(name, Plain(Str(""))), parseTime) == Ok(Plain(Str(text)))
    ensures ParseInt(text) == Ok(i) ==> Loaded(data, Field(name, Plain(Int(0))), parseTime) == Ok(Plain(Int(i)))
    ensures ParseInt(text).Err? ==> Loaded(data, Field(name, Plain(Int(0))), parseTime) == Err(ParseInt(text).error)
    ensures text == "" ==> Loaded(data, Field(name, Pointer(KString, None)), parseTime) == Ok(Pointer(KString, None))
    ensures text != "" ==>
              Loaded(data, Field(name, Pointer(KString, None)), parseTime) == Ok(Pointer(KString, Some(Str(text))))
    ensures text != "" ==>
              Loaded(data, Field(name, DeletedAt(None)), parseTime)
              == if parseTime(text).Some? then Ok(DeletedAt(parseTime(text))) else Err(BadTime)
  {
  }

  /** What the hash holds for a field. */
  lemma TextIs(s: string, b: bool, i: int64, kind: Kind, v: Scalar, time: Option<string>)
    ensures Text(Plain(Str(s))) == Some(s) && Text(Plain(Bool(b))) == Some(if b then "true" else "false")
    ensures Text(Plain(Int(i))) == Some(FormatInt(i))
    ensures Text(Pointer(kind, None)) == Some("") && Text(Pointer(kind, Some(v))) == Text(Plain(v))
    ensures Text(DeletedAt(time)) == None
  {
  }
}
