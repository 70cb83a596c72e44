/**
 * The dynamically typed values the registry moves around: Qt's QVariant
 * (settings values and registration properties) and QJsonValue (the
 * contents of application descriptor files), restricted to the kinds the
 * registry uses, with the conversions it applies to them.
 */
module Variants {

  import opened Wrappers

  /** A QVariant. Null is the invalid QVariant that a missing setting reads as. */
  datatype Value =
    | Null
    | Str(s: string)
    | Int(n: int)
    | List(items: seq<string>)
    | Dict(entries: map<string, string>)

  const IntMin := -0x8000_0000
  const IntMax := 0x7fff_ffff
  const LongMin := -0x8000_0000_0000_0000
  const LongMax := 0x7fff_ffff_ffff_ffff

  predicate IsDigit(c: char) { '0' <= c <= '9' }

  predicate AllDigits(s: string) { forall i :: 0 <= i < |s| ==> IsDigit(s[i]) }

  /** QChar::isSpace(): the ASCII blanks and the Unicode separators and spaces. */
  predicate IsSpace(c: char)
  {
    || c == ' ' || '\t' <= c <= '\r' || c == '\U{85}' || c == '\U{A0}' || c == '\U{1680}'
    || '\U{2000}' <= c <= '\U{200A}' || c == '\U{2028}' || c == '\U{2029}' || c == '\U{202F}'
    || c == '\U{205F}' || c == '\U{3000}'
  }

  predicate AllSpaces(s: string) { forall i :: 0 <= i < |s| ==> IsSpace(s[i]) }

  /** s without its leading white space. */
  function TrimStart(s: string): (r: string)
    ensures |r| <= |s| && (r == [] || !IsSpace(r[0]))
  {
    if s != [] && IsSpace(s[0]) then TrimStart(s[1..]) else s
  }

  /** s without its trailing white space. */
  function TrimEnd(s: string): (r: string)
    ensures |r| <= |s| && (r == [] || !IsSpace(r[|r| - 1]))
  {
    if s != [] && IsSpace(s[|s| - 1]) then TrimEnd(s[..|s| - 1]) else s
  }

  /** The white space the number parser ignores on both sides. */
  function Trim(s: string): string
  {
    TrimEnd(TrimStart(s))
  }

  /** Decimal rendering of a natural number, most significant digit first. */
  function NatToString(n: nat): (s: string)
    ensures s != [] && AllDigits(s)
    decreases n
  {
    if n < 10 then [('0' as int + n) as char]
    else NatToString(n / 10) + [('0' as int + n % 10) as char]
  }

  /** QString::number(int). */
  function IntToString(n: int): string
  {
    if n < 0 then "-" + NatToString(-n) else NatToString(n)
  }

  /** The value of a string of decimal digits. */
  function DigitsValue(s: string): nat
    requires AllDigits(s)
  {
    if s == [] then 0
    else DigitsValue(s[..|s| - 1]) * 10 + (s[|s| - 1] as int - '0' as int)
  }

  /** A signed decimal numeral: an optional sign, then digits only. */
  function ParseSigned(t: string): (r: Option<int>)
    ensures r.Some? ==> t != [] && (IsDigit(t[0]) || t[0] == '-' || t[0] == '+')
  {
    var negative := t != [] && t[0] == '-';
    var digits := if t != [] && (t[0] == '-' || t[0] == '+') then t[1..] else t;
    if digits == [] || !AllDigits(digits) then None
    else
      var magnitude: int := DigitsValue(digits);
      Some(if negative then 0 - magnitude else magnitude)
  }

  /**
   * QString::toLongLong() in base 10: surrounding white space is ignored;
   * anything but an optional sign and decimal digits, or a value outside
   * 64 bits, gives 0.
   */
  function ParseLongLong(s: string): (r: int)
    ensures LongMin <= r <= LongMax
  {
    match ParseSigned(Trim(s))
    case Some(v) => if LongMin <= v <= LongMax then v else 0
    case None => 0
  }

  /** The C++ conversion int(qlonglong): the value modulo 2^32, in two's complement. */
  function WrapInt(n: int): (r: int)
    ensures IntMin <= r <= IntMax
    ensures (n - r) % 0x1_0000_0000 == 0
    ensures IntMin <= n <= IntMax ==> r == n
  {
    var m := n % 0x1_0000_0000;
    if m > IntMax then m - 0x1_0000_0000 else m
  }

  lemma {:induction false} DigitsRoundTrip(n: nat)
    ensures DigitsValue(NatToString(n)) == n
    decreases n
  {
    if n >= 10 {
      DigitsRoundTrip(n / 10);
      var s := NatToString(n);
      assert s[..|s| - 1] == NatToString(n / 10);
    }
  }

  /** QVariant::toString(). A one-element string list converts to its element. */
  function ToString(v: Value): string
  {
    match v
    case Null => ""
    case Str(s) => s
    case Int(n) => IntToString(n)
    case List(items) => if |items| == 1 then items[0] else ""
    case Dict(_) => ""
  }

  /**
   * QVariant::toInt() in Qt 5: a string goes through QString::toLongLong()
   * and the result is cut to 32 bits.
   */
  function ToInt(v: Value): (r: int)
    ensures v.Int? ==> r == v.n
    ensures v.Str? ==> IntMin <= r <= IntMax && (ParseLongLong(v.s) - r) % 0x1_0000_0000 == 0
    ensures !v.Int? && !v.Str? ==> r == 0
  {
    match v
    case Int(n) => n
    case Str(s) => WrapInt(ParseLongLong(s))
    case _ => 0
  }

  /** A 32-bit integer survives being rendered as text and read back. */
  lemma IntRoundTrip(n: int)
    requires IntMin <= n <= IntMax
    ensures ToInt(Str(IntToString(n))) == n
  {
    var s := IntToString(n);
    var m: nat := if n < 0 then -n else n;
    var d := NatToString(m);
    DigitsRoundTrip(m);
    if n < 0 {
      assert s == "-" + d && s[1..] == d;
      assert s[|s| - 1] == d[|d| - 1];
    }
    assert !IsSpace(s[0]) && !IsSpace(s[|s| - 1]);
    assert TrimStart(s) == s;
    assert Trim(s) == s;
  }

  /** Leading white space does not change what a string trims to. */
  lemma {:induction false} TrimStartSpaces(pad: string, s: string)
    requires AllSpaces(pad)
    ensures TrimStart(pad + s) == TrimStart(s)
    decreases |pad|
  {
    if pad != [] {
      assert (pad + s)[0] == pad[0] && IsSpace(pad[0]);
      assert (pad + s)[1..] == pad[1..] + s;
      TrimStartSpaces(pad[1..], s);
    } else {
      assert pad + s == s;
    }
  }

  /** Trailing white space does not change what a string trims to. */
  lemma {:induction false} TrimEndSpaces(s: string, pad: string)
    requires AllSpaces(pad)
    ensures TrimEnd(s + pad) == TrimEnd(s)
    decreases |pad|
  {
    if pad != [] {
      assert (s + pad)[|s + pad| - 1] == pad[|pad| - 1] && IsSpace(pad[|pad| - 1]);
      assert (s + pad)[..|s + pad| - 1] == s + pad[..|pad| - 1];
      TrimEndSpaces(s, pad[..|pad| - 1]);
    } else {
      assert s + pad == s;
    }
  }

  /** A string that trims to nothing at the front is white space only. */
  lemma {:induction false} TrimStartEmpty(s: string)
    requires TrimStart(s) == []
    ensures AllSpaces(s)
    decreases |s|
  {
    if s != [] {
      TrimStartEmpty(s[1..]);
      assert forall i :: 1 <= i < |s| ==> s[i] == s[1..][i - 1];
    }
  }

  /** Past its leading white space, a string keeps whatever follows it. */
  lemma {:induction false} TrimStartAppend(s: string, pad: string)
    requires TrimStart(s) != []
    ensures TrimStart(s + pad) == TrimStart(s) + pad
    decreases |s|
  {
    if IsSpace(s[0]) {
      assert (s + pad)[1..] == s[1..] + pad;
      TrimStartAppend(s[1..], pad);
    }
  }

  /** White space around a string does not change what it trims to. */
  lemma TrimPadded(before: string, s: string, after: string)
    requires AllSpaces(before) && AllSpaces(after)
    ensures Trim(before + s + after) == Trim(s)
  {
    assert before + s + after == before + (s + after);
    TrimStartSpaces(before, s + after);
    if TrimStart(s) != [] {
      TrimStartAppend(s, after);
      TrimEndSpaces(TrimStart(s), after);
    } else {
      TrimStartEmpty(s);
      TrimStartSpaces(s, after);
      TrimStartSpaces(after, []);
      assert after + [] == after;
    }
  }

  /** White space around a number does not change the integer it reads as. */
  lemma PaddedInt(before: string, s: string, after: string)
    requires AllSpaces(before) && AllSpaces(after)
    ensures ToInt(Str(before + s + after)) == ToInt(Str(s))
  {
    TrimPadded(before, s, after);
  }

  /** A natural number within 64 bits survives being rendered and read back by toLongLong(). */
  lemma NatRoundTrip(n: nat)
    requires n <= LongMax
    ensures ParseLongLong(NatToString(n)) == n
  {
    var s := NatToString(n);
    DigitsRoundTrip(n);
    assert !IsSpace(s[0]) && !IsSpace(s[|s| - 1]);
    assert TrimStart(s) == s;
    assert Trim(s) == s;
  }

  /** The decimal numeral of 2^32 + 2. */
  lemma BigNumeral()
    ensures NatToString(4294967298) == "4294967298"
  {
    assert NatToString(4) == "4";
    assert NatToString(42) == "42";
    assert NatToString(429) == "429";
    assert NatToString(4294) == "4294";
    assert NatToString(42949) == "42949";
    assert NatToString(429496) == "429496";
    assert NatToString(4294967) == "4294967";
    assert NatToString(42949672) == "42949672";
    assert NatToString(429496729) == "429496729";
  }

  /** Qt 5 reads "4294967298", which is 2^32 + 2, as 2. */
  lemma WrapsExample()
    ensures ToInt(Str("4294967298")) == 2
  {
    BigNumeral();
    NatRoundTrip(4294967298);
  }

  /** Qt 5 reads " 1" as 1 and "1x" as 0. */
  lemma TrimsExample()
    ensures ToInt(Str(" 1")) == 1
    ensures ToInt(Str("1x")) == 0
  {
    assert Trim(" 1") == "1";
    assert Trim("1x") == "1x" && !AllDigits("1x");
  }

  /** QVariant::toStringList(). */
  function ToStringList(v: Value): seq<string>
  {
    match v
    case List(items) => items
    case Str(s) => [s]
    case _ => []
  }

  /** QVariant::toMap(), for the string-valued maps the registry stores. */
  function ToDict(v: Value): map<string, string>
  {
    match v
    case Dict(entries) => entries
    case _ => map[]
  }

  /** QMap<QString, QVariant>::value(key, default). */
  function ValueOr(m: map<string, Value>, key: string, default: Value): Value
  {
    if key in m then m[key] else default
  }

  /** A QJsonValue; numbers are kept integral. */
  datatype Json =
    | JNull
    | JBool(b: bool)
    | JNumber(n: int)
    | JString(s: string)
    | JArray(items: seq<Json>)
    | JObject(fields: map<string, Json>)

  /** QJsonValue::toString(): empty for anything but a string. */
  function JToString(j: Json): string
  {
    if j.JString? then j.s else ""
  }

  /** QJsonValue::toArray(): empty for anything but an array. */
  function JToArray(j: Json): seq<Json>
  {
    if j.JArray? then j.items else []
  }

  /** QJsonValue::toObject() and QJsonDocument::object(): empty for anything but an object. */
  function JToObject(j: Json): map<string, Json>
  {
    if j.JObject? then j.fields else map[]
  }

  /** QJsonObject::operator[] on a key that may be missing (it reads as null). */
  function JField(o: map<string, Json>, key: string): Json
  {
    if key in o then o[key] else JNull
  }
}
