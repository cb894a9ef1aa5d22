// The Python values that the injected job-status code reads and writes: JSON-shaped
// dictionaries, Python truthiness, `dict.get`, `str()` and `int()`.
module PyValue {
  import opened Common
  import opened Text

  /** A JSON-shaped Python value. Floats are not part of the model. */
  datatype Json =
    | JNull
    | JBool(b: bool)
    | JInt(i: int)
    | JStr(s: string)
    | JList(items: seq<Json>)
    | JDict(fields: map<string, Json>)

  /** Python truthiness: None, False, 0, "", [] and {} are false. */
  predicate Truthy(v: Json) {
    match v
    case JNull => false
    case JBool(b) => b
    case JInt(i) => i != 0
    case JStr(s) => s != ""
    case JList(xs) => xs != []
    case JDict(m) => m != map[]
  }

  /** Python's `a or b`. */
  function Or(a: Json, b: Json): Json {
    if Truthy(a) then a else b
  }

  /** `d.get(key)`: the stored value, or None when the key is absent. */
  function Get(d: Json, key: string): Json
    requires d.JDict?
  {
    if key in d.fields then d.fields[key] else JNull
  }

  /** `d[key] = v` */
  function Set(d: Json, key: string, v: Json): (r: Json)
    requires d.JDict?
    ensures r.JDict? && Get(r, key) == v && r.fields.Keys == d.fields.Keys + {key}
    ensures forall k :: k in d.fields && k != key ==> k in r.fields && r.fields[k] == d.fields[k]
  {
    JDict(d.fields[key := v])
  }

  /** Writing a key the value it already has leaves the dict as it was. */
  lemma SetUnchanged(d: Json, key: string, v: Json)
    requires d.JDict? && key in d.fields && d.fields[key] == v
    ensures Set(d, key, v) == d
  {
    assert d.fields[key := v] == d.fields;
  }

  /** `d.setdefault(key, v)` used for its effect: the key is added only when it is absent. */
  function SetDefault(d: Json, key: string, v: Json): (r: Json)
    requires d.JDict?
    ensures r.JDict? && key in r.fields
    ensures key in d.fields ==> r == d
    ensures key !in d.fields ==> r.fields == d.fields[key := v]
  {
    if key in d.fields then d else Set(d, key, v)
  }

  function DigitChar(d: nat): (c: char)
    requires d < 10
    ensures IsDigit(c) && (c as int) - ('0' as int) == d
  {
    ('0' as int + d) as char
  }

  /** `str(n)` for a non-negative integer: decimal digits, no leading zero. */
  function NatToString(n: nat): (s: string)
    ensures s != [] && forall i :: 0 <= i < |s| ==> IsDigit(s[i])
    decreases n
  {
    if n < 10 then [DigitChar(n)] else NatToString(n / 10) + [DigitChar(n % 10)]
  }

  /** `str(i)` for any integer. */
  function IntToString(i: int): string {
    if i < 0 then "-" + NatToString(-i) else NatToString(i)
  }

  /** Python's `str(v)`. A list or dictionary is rendered only as far as its opening bracket,
      followed by an ellipsis, in place of its repr: that first character is all the job-id
      check looks at. */
  function PyStr(v: Json): string {
    match v
    case JNull => "None"
    case JBool(b) => if b then "True" else "False"
    case JInt(i) => IntToString(i)
    case JStr(s) => s
    case JList(_) => "[...]"
    case JDict(_) => "{...}"
  }

  /** The value of the ASCII digits of `s`, read most significant digit first; anything else
      (the underscores `int()` allows between digits) is skipped. */
  function DigitsValue(s: string): nat
    decreases |s|
  {
    if s == [] then 0
    else if IsDigit(s[|s| - 1]) then DigitsValue(s[..|s| - 1]) * 10 + ((s[|s| - 1] as int) - ('0' as int))
    else DigitsValue(s[..|s| - 1])
  }

  /** What `int()` accepts after the optional sign: digits, with single underscores allowed
      between two digits. */
  predicate DigitGroups(s: string) {
    && s != []
    && IsDigit(s[0]) && IsDigit(s[|s| - 1])
    && (forall i :: 0 <= i < |s| ==> IsDigit(s[i]) || s[i] == '_')
    && NoDoubleUnderscore(s)
  }

  /** No two underscores in a row. */
  predicate NoDoubleUnderscore(s: string)
    decreases |s|
  {
    |s| < 2 || (!(s[0] == '_' && s[1] == '_') && NoDoubleUnderscore(s[1..]))
  }

  lemma {:induction false} NoUnderscoreNoDouble(s: string)
    requires forall i :: 0 <= i < |s| ==> s[i] != '_'
    ensures NoDoubleUnderscore(s)
    decreases |s|
  {
    if |s| >= 2 {
      NoUnderscoreNoDouble(s[1..]);
    }
  }

  /** Python's `int(s)` in base 10: surrounding whitespace ignored, an optional sign, then digit
      groups; anything else raises, which is None here. */
  function PyInt(s: string): (r: Option<int>)
    ensures r.Some? ==> Strip(s) != ""
  {
    SignedDigits(Strip(s))
  }

  /** An optional sign followed by digit groups, as `int()` reads its stripped argument. */
  function SignedDigits(t: string): (r: Option<int>)
    ensures r.Some? ==> t != ""
  {
    if t == "" then None
    else
      var body := if t[0] == '-' || t[0] == '+' then t[1..] else t;
      if DigitGroups(body) then
        var n: int := DigitsValue(body);
        Some(if t[0] == '-' then -n else n)
      else None
  }

  lemma {:induction false} DigitsValueOfNatToString(n: nat)
    ensures DigitsValue(NatToString(n)) == n
    decreases n
  {
    if n >= 10 {
      var s := NatToString(n / 10) + [DigitChar(n % 10)];
      assert s[..|s| - 1] == NatToString(n / 10);
      DigitsValueOfNatToString(n / 10);
    }
  }

  lemma StripUnpadded(s: string)
    requires s != [] && !IsSpace(s[0]) && !IsSpace(s[|s| - 1])
    ensures Strip(s) == s
  {
    assert IndentLen(s) == 0;
    assert LStrip(s) == s;
    assert SuffixLen(s, IsSpace) == 0;
  }

  lemma DigitsAreGroups(digits: string)
    requires digits != [] && forall i :: 0 <= i < |digits| ==> IsDigit(digits[i])
    ensures DigitGroups(digits)
  {
    assert forall j :: 0 <= j < |digits| ==> digits[j] != '_';
    NoUnderscoreNoDouble(digits);
  }

  lemma UnsignedDigits(t: string)
    requires t != [] && forall i :: 0 <= i < |t| ==> IsDigit(t[i])
    ensures SignedDigits(t) == Some(DigitsValue(t) as int)
  {
    DigitsAreGroups(t);
    assert t[0] != '-' && t[0] != '+';
  }

  lemma NegatedDigits(t: string)
    requires t != [] && forall i :: 0 <= i < |t| ==> IsDigit(t[i])
    ensures SignedDigits("-" + t) == Some(-(DigitsValue(t) as int))
  {
    var s := "-" + t;
    assert s[0] == '-' && s[1..] == t;
    DigitsAreGroups(t);
  }

  /** `int(str(i)) == i`: the rc text a worker writes with its exit code reads back as that code. */
  lemma PyIntRoundTrip(i: int)
    ensures Strip(IntToString(i)) == IntToString(i)
    ensures PyInt(IntToString(i)) == Some(i)
  {
    var m: nat := if i < 0 then -i else i;
    var digits := NatToString(m);
    DigitsValueOfNatToString(m);
    assert IsDigit(digits[0]) && IsDigit(digits[|digits| - 1]);
    if i < 0 {
      var s := "-" + digits;
      assert s[|s| - 1] == digits[|digits| - 1];
      StripUnpadded(s);
      NegatedDigits(digits);
    } else {
      StripUnpadded(digits);
      UnsignedDigits(digits);
    }
  }

}
