/** The JavaScript value semantics the handlers lean on: truthiness, `a || b`
    defaults, `Number(...)`, `String.prototype.trim`, `toLowerCase`,
    `Array.prototype.findIndex`, and the document id standing in for a
    Mongo ObjectId. */
module Values {

  datatype Option<+T> = None | Some(value: T)

  /** Document ids (ObjectIds) are modelled as naturals; their text form in a
      request is a decimal numeral. */
  type Id = nat

  /** A value of a JSON request body or of the session, as JavaScript sees it.
      Numbers are integers here. */
  datatype Value = Undefined | Null | Bool(b: bool) | Num(n: int) | Str(s: string)

  /** JavaScript truthiness, as used by `if (v)`, `!v` and `v || d` */
  predicate Truthy(v: Value) {
    match v
    case Undefined => false
    case Null => false
    case Bool(b) => b
    case Num(n) => n != 0
    case Str(s) => s != ""
  }

  /** An urlencoded form body; a field absent from the map reads as `undefined`. */
  type Form = map<string, string>

  function Field(form: Form, name: string): Option<string> {
    if name in form then Some(form[name]) else None
  }

  function AsValue(field: Option<string>): Value {
    if field.Some? then Str(field.value) else Undefined
  }

  /** `field || fallback` for a string that may be undefined */
  function Or(field: Option<string>, fallback: string): string {
    if field.Some? && field.value != "" then field.value else fallback
  }

  /** The characters that `\s` and `trim` treat as white space
      (WhiteSpace and LineTerminator of ECMAScript) */
  predicate IsSpace(c: char) {
    var n := c as int;
    n == 0x20 || 0x09 <= n <= 0x0D || n == 0xA0 || n == 0x1680 || 0x2000 <= n <= 0x200A
    || n == 0x2028 || n == 0x2029 || n == 0x202F || n == 0x205F || n == 0x3000 || n == 0xFEFF
  }

  /** Leading white space removed: the result is the suffix after the longest
      all-space prefix. */
  function TrimStart(s: string): (r: string)
    ensures |r| <= |s| && r == s[|s| - |r|..]
    ensures r == [] || !IsSpace(r[0])
    ensures forall i :: 0 <= i < |s| - |r| ==> IsSpace(s[i])
  {
    if s != [] && IsSpace(s[0]) then TrimStart(s[1..]) else s
  }

  /** Trailing white space removed: the result is the prefix before the
      longest all-space suffix. */
  function TrimEnd(s: string): (r: string)
    ensures |r| <= |s| && r == s[..|r|]
    ensures r == [] || !IsSpace(r[|r| - 1])
    ensures forall i :: |r| <= i < |s| ==> IsSpace(s[i])
  {
    if s != [] && IsSpace(s[|s| - 1]) then TrimEnd(s[..|s| - 1]) else s
  }

  /** `s.trim()` */
  function Trim(s: string): string {
    TrimEnd(TrimStart(s))
  }

  /** A string trims to "" exactly when every character of it is white space. */
  lemma TrimBlank(s: string)
    ensures Trim(s) == "" <==> forall i :: 0 <= i < |s| ==> IsSpace(s[i])
  {
    var t := TrimStart(s);
    if t != [] {
      assert s[|s| - |t|] == t[0];
    }
  }

  /** A string with no white space at all is its own trim. */
  lemma TrimNoSpace(s: string)
    requires forall i :: 0 <= i < |s| ==> !IsSpace(s[i])
    ensures Trim(s) == s
  {
    assert s != [] ==> !IsSpace(s[0]) && !IsSpace(s[|s| - 1]);
    var t := TrimStart(s);
    assert t == s;
    assert TrimEnd(t) == t;
  }

  predicate IsDigit(c: char) {
    '0' <= c <= '9'
  }

  predicate AllDigits(s: string) {
    forall i :: 0 <= i < |s| ==> IsDigit(s[i])
  }

  /** The value of a numeral read from its most significant digit */
  function DigitsValue(s: string): nat
    requires AllDigits(s)
  {
    if s == [] then 0 else DigitsValue(s[..|s| - 1]) * 10 + (s[|s| - 1] as int - '0' as int)
  }

  function DigitChar(d: nat): char
    requires d < 10
  {
    ('0' as int + d) as char
  }

  /** The decimal numeral of `n`, as `String(n)` or a template literal prints it */
  function NatToString(n: nat): (s: string)
    ensures s != [] && AllDigits(s)
  {
    if n < 10 then [DigitChar(n)] else NatToString(n / 10) + [DigitChar(n % 10)]
  }

  /** `Number(s)` for a string. Only integer literals are modelled: after
      trimming, an optional sign and decimal digits; a blank string is 0; any
      other text is NaN, written None. */
  function StringToNumber(s: string): Option<int> {
    var t := Trim(s);
    if t == "" then Some(0)
    else if (t[0] == '-' || t[0] == '+') && |t| > 1 && AllDigits(t[1..]) then
      var magnitude: int := DigitsValue(t[1..]);
      Some(if t[0] == '-' then -magnitude else magnitude)
    else if AllDigits(t) then Some(DigitsValue(t))
    else None
  }

  /** `Number(v)`; None stands for NaN */
  function ToNumber(v: Value): Option<int> {
    match v
    case Undefined => None
    case Null => Some(0)
    case Bool(b) => Some(if b then 1 else 0)
    case Num(n) => Some(n)
    case Str(s) => StringToNumber(s)
  }

  /** `Number(v) || fallback`: NaN and 0 are both falsy */
  function NumberOr(v: Value, fallback: int): (r: int)
    ensures r == fallback || r != 0
    ensures ToNumber(v).Some? && ToNumber(v).value != 0 ==> r == ToNumber(v).value
    ensures ToNumber(v).None? || ToNumber(v) == Some(0) ==> r == fallback
  {
    match ToNumber(v)
    case Some(n) => if n != 0 then n else fallback
    case None => fallback
  }

  lemma {:induction false} DigitsOfNatString(n: nat)
    ensures DigitsValue(NatToString(n)) == n
  {
    if n >= 10 {
      var s := NatToString(n);
      assert s[..|s| - 1] == NatToString(n / 10);
      DigitsOfNatString(n / 10);
    }
  }

  /** Reading back a printed natural gives the natural: `Number(String(n)) === n`. */
  lemma NumberOfNatString(n: nat)
    ensures StringToNumber(NatToString(n)) == Some(n)
  {
    var s := NatToString(n);
    assert forall i :: 0 <= i < |s| ==> !IsSpace(s[i]) by {
      forall i | 0 <= i < |s| ensures !IsSpace(s[i]) { assert IsDigit(s[i]); }
    }
    TrimNoSpace(s);
    assert !(s[0] == '-' || s[0] == '+') by { assert IsDigit(s[0]); }
    DigitsOfNatString(n);
  }

  /** The id a request value names, as the ObjectId cast reads it; None is a
      cast failure. */
  function AsId(v: Value): Option<Id> {
    match v
    case Num(n) => if n >= 0 then Some(n) else None
    case Str(s) => if s != "" && AllDigits(s) then Some(DigitsValue(s)) else None
    case _ => None
  }

  function LowerChar(c: char): char {
    if 'A' <= c <= 'Z' then (c as int + 32) as char else c
  }

  /** `s.toLowerCase()` on the ASCII letters */
  function ToLower(s: string): string {
    seq(|s|, i requires 0 <= i < |s| => LowerChar(s[i]))
  }

  /** `s.startsWith(prefix)` */
  predicate StartsWith(s: string, prefix: string) {
    |prefix| <= |s| && s[..|prefix|] == prefix
  }

  /** `s.findIndex(p)`, and a query's `findOne` in natural order: the first
      position whose element satisfies `p`. */
  function FirstIndex<T>(s: seq<T>, p: T -> bool): (r: Option<nat>)
    ensures r.Some? ==> r.value < |s| && p(s[r.value]) && forall j :: 0 <= j < r.value ==> !p(s[j])
    ensures r.None? ==> forall j :: 0 <= j < |s| ==> !p(s[j])
  {
    if s == [] then None
    else if p(s[0]) then Some(0)
    else match FirstIndex(s[1..], p)
      case None => None
      case Some(k) => Some(k + 1)
  }

  /** The last position whose element satisfies `p`: the entry that wins when
      a loop writes every match into the same dictionary slot. */
  function LastIndex<T>(s: seq<T>, p: T -> bool): (r: Option<nat>)
    ensures r.Some? ==> r.value < |s| && p(s[r.value]) && forall j :: r.value < j < |s| ==> !p(s[j])
    ensures r.None? ==> forall j :: 0 <= j < |s| ==> !p(s[j])
  {
    if s == [] then None
    else if p(s[|s| - 1]) then Some(|s| - 1)
    else LastIndex(s[..|s| - 1], p)
  }
}
