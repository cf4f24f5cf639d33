/**
 * The JavaScript values that arrive in a request body and the coercions the
 * controllers apply to them: truthiness, `String(v)`, `Number(v)`, `parseInt`,
 * `String.prototype.trim` and the Mongoose cast of a value to a string path.
 *
 * Numbers are integers here: a JSON number in a body is `Num(n)`, and a
 * numeric coercion yields `JsNum`, which is `NaN` or an integer.
 */
module JsValues {
  import opened Common

  datatype JsValue =
    | Undefined
    | Null
    | Bool(b: bool)
    | Num(n: int)
    | Str(s: string)
    | Arr(items: seq<JsValue>)
    | Obj          // any plain object; only its truthiness and its string form matter

  datatype JsNum = NaN | Int(i: int)

  /** JavaScript truthiness (`if (v)`, `!v`, `v || d`, `Boolean(v)`). */
  predicate Truthy(v: JsValue) {
    match v
    case Undefined => false
    case Null => false
    case Bool(b) => b
    case Num(n) => n != 0
    case Str(s) => s != ""
    case Arr(_) => true
    case Obj => true
  }

  predicate NumTruthy(n: JsNum) {
    n.Int? && n.i != 0
  }

  /** A query-string parameter is truthy when present and non-empty. */
  predicate ParamTruthy(p: Option<string>) {
    p.Some? && p.value != ""
  }

  // ---------------------------------------------------------------- trim

  /** The white space and line terminators that `trim` and numeric parsing skip. */
  predicate IsSpace(c: char) {
    || c == ' ' || c == '\t' || c == '\n' || c == '\r' || c == '\U{000B}' || c == '\U{000C}'
    || c == '\U{00A0}' || c == '\U{1680}' || ('\U{2000}' <= c <= '\U{200A}')
    || c == '\U{2028}' || c == '\U{2029}' || c == '\U{202F}' || c == '\U{205F}'
    || c == '\U{3000}' || c == '\U{FEFF}'
  }

  ghost predicate AllSpace(s: string) {
    forall k :: 0 <= k < |s| ==> IsSpace(s[k])
  }

  predicate IsTrimmed(s: string) {
    s == [] || (!IsSpace(s[0]) && !IsSpace(s[|s| - 1]))
  }

  /** How many white-space characters `s` starts with. */
  function LeadingSpaces(s: string): (n: nat)
    ensures n <= |s|
    ensures forall k :: 0 <= k < n ==> IsSpace(s[k])
    ensures n < |s| ==> !IsSpace(s[n])
  {
    if s != [] && IsSpace(s[0]) then
      var n := LeadingSpaces(s[1..]);
      assert forall k :: 1 <= k < |s| ==> s[k] == s[1..][k - 1];
      1 + n
    else 0
  }

  /** How many white-space characters `s` ends with. */
  function TrailingSpaces(s: string): (n: nat)
    ensures n <= |s|
    ensures forall k :: |s| - n <= k < |s| ==> IsSpace(s[k])
    ensures n < |s| ==> !IsSpace(s[|s| - n - 1])
  {
    if s != [] && IsSpace(s[|s| - 1]) then
      var n := TrailingSpaces(s[..|s| - 1]);
      assert forall k :: 0 <= k < |s| - 1 ==> s[k] == s[..|s| - 1][k];
      1 + n
    else 0
  }

  function TrimStart(s: string): (r: string)
    ensures r == [] || !IsSpace(r[0])
  {
    s[LeadingSpaces(s)..]
  }

  function TrimEnd(s: string): (r: string)
    ensures r == [] || !IsSpace(r[|r| - 1])
  {
    s[..|s| - TrailingSpaces(s)]
  }

  /** `String.prototype.trim`. */
  function Trim(s: string): string {
    TrimEnd(TrimStart(s))
  }

  lemma TrimStartOfUnspaced(s: string)
    requires s == [] || !IsSpace(s[0])
    ensures TrimStart(s) == s
  {
  }

  lemma TrimEndOfUnspaced(s: string)
    requires s == [] || !IsSpace(s[|s| - 1])
    ensures TrimEnd(s) == s
  {
  }

  /** `TrimStart` drops a white-space prefix. */
  lemma TrimStartParts(s: string) returns (a: string)
    ensures s == a + TrimStart(s) && AllSpace(a)
  {
    a := s[..LeadingSpaces(s)];
    assert s == s[..LeadingSpaces(s)] + s[LeadingSpaces(s)..];
  }

  /** `TrimEnd` drops a white-space suffix. */
  lemma TrimEndParts(s: string) returns (b: string)
    ensures s == TrimEnd(s) + b && AllSpace(b)
  {
    var n := |s| - TrailingSpaces(s);
    b := s[n..];
    assert s == s[..n] + s[n..];
    assert forall k :: 0 <= k < |b| ==> b[k] == s[n + k];
  }

  /** The white space trimming removes from each end. */
  lemma TrimParts(s: string) returns (a: string, b: string)
    ensures s == a + Trim(s) + b && AllSpace(a) && AllSpace(b)
  {
    a := TrimStartParts(s);
    b := TrimEndParts(TrimStart(s));
  }

  lemma TrimIsTrimmed(s: string)
    ensures IsTrimmed(Trim(s))
  {
    var t := TrimStart(s);
    var r := TrimEnd(t);
    if r != [] {
      assert r[0] == t[0];
    }
  }

  /** Trimming removes white space at both ends and nothing else. */
  lemma TrimSpec(s: string)
    ensures IsTrimmed(Trim(s))
    ensures exists a, b :: s == a + Trim(s) + b && AllSpace(a) && AllSpace(b)
  {
    TrimIsTrimmed(s);
    var a, b := TrimParts(s);
  }

  /** A string without white space at its ends is left alone, so trimming is idempotent. */
  lemma {:induction false} TrimOfTrimmed(s: string)
    requires IsTrimmed(s)
    ensures Trim(s) == s
  {
    TrimStartOfUnspaced(s);
    TrimEndOfUnspaced(s);
  }

  lemma TrimIdempotent(s: string)
    ensures Trim(Trim(s)) == Trim(s)
  {
    TrimSpec(s);
    TrimOfTrimmed(Trim(s));
  }

  // ---------------------------------------------------------------- digits and String(v)

  predicate IsDigit(c: char) {
    '0' <= c <= '9'
  }

  predicate AllDigits(s: string) {
    forall k :: 0 <= k < |s| ==> IsDigit(s[k])
  }

  function DigitChar(d: nat): (c: char)
    requires d < 10
    ensures IsDigit(c) && c as int - '0' as int == d
  {
    ('0' as int + d) as char
  }

  /** Value of a string of decimal digits, most significant first. */
  function DigitsValue(ds: string): nat
    requires AllDigits(ds)
  {
    if ds == [] then 0
    else DigitsValue(ds[..|ds| - 1]) * 10 + (ds[|ds| - 1] as int - '0' as int)
  }

  /** Decimal notation of a natural number, without leading zeros. */
  function NatToString(n: nat): (r: string)
    ensures |r| > 0 && AllDigits(r)
    ensures r[0] == '0' ==> n == 0
  {
    if n < 10 then [DigitChar(n)] else NatToString(n / 10) + [DigitChar(n % 10)]
  }

  function IntToString(n: int): (r: string)
    ensures |r| > 0
  {
    if n < 0 then "-" + NatToString(-n) else NatToString(n)
  }

  /** Reading back the decimal notation of `n` gives `n`. */
  lemma {:induction false} NatToStringValue(n: nat)
    ensures DigitsValue(NatToString(n)) == n
  {
    if n >= 10 {
      NatToStringValue(n / 10);
      var r := NatToString(n);
      assert r[..|r| - 1] == NatToString(n / 10);
    }
  }

  /** `parts.join(sep)`. */
  function Join(parts: seq<string>, sep: string): (r: string)
    ensures |parts| == 0 ==> r == ""
    ensures |parts| == 1 ==> r == parts[0]
  {
    if |parts| == 0 then ""
    else if |parts| == 1 then parts[0]
    else parts[0] + sep + Join(parts[1..], sep)
  }

  /** A joined list is empty only when it has no element, or one empty element, provided the separator is not empty. */
  lemma {:induction false} JoinEmpty(parts: seq<string>, sep: string)
    requires sep != ""
    ensures Join(parts, sep) == "" <==> |parts| == 0 || (|parts| == 1 && parts[0] == "")
  {
    if |parts| > 1 {
      assert |parts[0] + sep + Join(parts[1..], sep)| >= |sep|;
    }
  }

  /** `String(v)`; an array is joined with "," and its undefined and null elements print as "". */
  function ToString(v: JsValue): string {
    match v
    case Undefined => "undefined"
    case Null => "null"
    case Bool(b) => if b then "true" else "false"
    case Num(n) => IntToString(n)
    case Str(s) => s
    case Arr(items) =>
      Join(seq(|items|, k requires 0 <= k < |items| =>
                 if items[k].Undefined? || items[k].Null? then "" else ToString(items[k])), ",")
    case Obj => "[object Object]"
  }

  // ---------------------------------------------------------------- Number(v) and parseInt

  /** A decimal integer literal with an optional sign; anything else is NaN. */
  function DecimalLiteral(t: string): (r: JsNum)
    ensures r.Int? ==> t != []
  {
    if |t| > 1 && (t[0] == '-' || t[0] == '+') && AllDigits(t[1..]) then
      Int(if t[0] == '-' then -(DigitsValue(t[1..]) as int) else DigitsValue(t[1..]))
    else if t != [] && AllDigits(t) then Int(DigitsValue(t))
    else NaN
  }

  /** `Number(s)` for a string: blank is 0. */
  function StringToNumber(s: string): JsNum {
    var t := Trim(s);
    if t == "" then Int(0) else DecimalLiteral(t)
  }

  /** `Number(v)`. */
  function ToNumber(v: JsValue): JsNum {
    match v
    case Undefined => NaN
    case Null => Int(0)
    case Bool(b) => Int(if b then 1 else 0)
    case Num(n) => Int(n)
    case Str(s) => StringToNumber(s)
    case Arr(_) => StringToNumber(ToString(v))
    case Obj => NaN
  }

  function SkipSpace(s: string): (r: string)
    ensures r == [] || !IsSpace(r[0])
  {
    TrimStart(s)
  }

  /** The longest prefix of `s` made of decimal digits. */
  function DigitPrefix(s: string): (r: string)
    ensures AllDigits(r) && |r| <= |s| && r == s[..|r|]
    ensures |r| < |s| ==> !IsDigit(s[|r|])
  {
    if s != [] && IsDigit(s[0]) then [s[0]] + DigitPrefix(s[1..]) else []
  }

  predicate IsHex(c: char) {
    ('0' <= c <= '9') || ('a' <= c <= 'f') || ('A' <= c <= 'F')
  }

  function HexDigitValue(c: char): (d: nat)
    requires IsHex(c)
    ensures d < 16
  {
    if '0' <= c <= '9' then c as int - '0' as int
    else if 'a' <= c <= 'f' then c as int - 'a' as int + 10
    else c as int - 'A' as int + 10
  }

  /** Value of a string of hexadecimal digits, most significant first. */
  function HexValue(hs: string): nat
    requires forall k :: 0 <= k < |hs| ==> IsHex(hs[k])
  {
    if hs == [] then 0
    else HexValue(hs[..|hs| - 1]) * 16 + HexDigitValue(hs[|hs| - 1])
  }

  /** The longest prefix of `s` made of hexadecimal digits. */
  function HexPrefix(s: string): (r: string)
    ensures (forall k :: 0 <= k < |r| ==> IsHex(r[k])) && |r| <= |s| && r == s[..|r|]
    ensures |r| < |s| ==> !IsHex(s[|r|])
  {
    if s != [] && IsHex(s[0]) then [s[0]] + HexPrefix(s[1..]) else []
  }

  /** Whether the unsigned part of a `parseInt` argument carries the `0x` or `0X` prefix that selects base 16. */
  predicate HasHexPrefix(body: string) {
    |body| >= 2 && body[0] == '0' && (body[1] == 'x' || body[1] == 'X')
  }

  /**
   * `parseInt(s)` with no radix: white space, a sign, then as many digits as
   * there are, read in base 16 after a `0x` or `0X` prefix and in base 10
   * otherwise; no digit is NaN.
   */
  function ParseInt(s: string): JsNum {
    var t := SkipSpace(s);
    var negative := t != [] && t[0] == '-';
    var body := if t != [] && (t[0] == '-' || t[0] == '+') then t[1..] else t;
    var magnitude: Option<nat> :=
      if HasHexPrefix(body) then
        var hs := HexPrefix(body[2..]);
        if hs == [] then None else Some(HexValue(hs))
      else
        var ds := DigitPrefix(body);
        if ds == [] then None else Some(DigitsValue(ds));
    match magnitude
    case None => NaN
    case Some(v) => Int(if negative then -(v as int) else v)
  }

  /** A string that starts with neither white space, a sign nor a digit parses to NaN. */
  lemma ParseIntOfNonNumeric(s: string)
    requires s != [] && !IsSpace(s[0]) && !IsDigit(s[0]) && s[0] != '-' && s[0] != '+'
    ensures ParseInt(s) == NaN
  {
    TrimStartOfUnspaced(s);
  }

  /** `parseInt(req.query.x)`: an absent parameter is `parseInt(undefined)`, which is NaN. */
  function ParseParam(p: Option<string>): (r: JsNum)
    ensures p.None? ==> r == NaN
  {
    match p
    case None => ParseIntOfNonNumeric("undefined"); ParseInt("undefined")
    case Some(s) => ParseInt(s)
  }

  /** `Number(req.query.x)` for a present parameter. */
  function NumberParam(s: string): JsNum {
    StringToNumber(s)
  }

  lemma DigitPrefixOfDigits(s: string)
    requires AllDigits(s)
    ensures DigitPrefix(s) == s
  {
  }

  /** `Number(String(n))` is `n`: printing an integer and reading it back round-trips. */
  lemma {:induction false} NumberOfIntToString(n: int)
    ensures StringToNumber(IntToString(n)) == Int(n)
  {
    var r := IntToString(n);
    NatToStringValue(if n < 0 then -n else n);
    assert !IsSpace(r[0]) && !IsSpace(r[|r| - 1]);
    TrimOfTrimmed(r);
    if n < 0 {
      assert r[1..] == NatToString(-n);
    }
  }

  /** `parseInt(String(n))` is `n`. */
  lemma {:induction false} ParseIntOfIntToString(n: int)
    ensures ParseInt(IntToString(n)) == Int(n)
  {
    var r := IntToString(n);
    NatToStringValue(if n < 0 then -n else n);
    TrimStartOfUnspaced(r);
    if n < 0 {
      assert r[1..] == NatToString(-n);
      DigitPrefixOfDigits(r[1..]);
    } else {
      DigitPrefixOfDigits(r);
    }
  }

  /**
   * `parseInt` reads the leading decimal integer and ignores whatever follows
   * it ("12abc" is 12), unless the integer is 0 and an `x` or `X` follows,
   * which `ParseIntReadsHex` covers.
   */
  lemma {:induction false} ParseIntIgnoresSuffix(n: nat, rest: string)
    requires rest == [] || !IsDigit(rest[0])
    requires n != 0 || rest == [] || (rest[0] != 'x' && rest[0] != 'X')
    ensures ParseInt(NatToString(n) + rest) == Int(n)
  {
    var s := NatToString(n) + rest;
    NatToStringValue(n);
    TrimStartOfUnspaced(s);
    DigitPrefixStops(NatToString(n), rest);
    assert !HasHexPrefix(s) by {
      if n != 0 {
        assert s[0] != '0';
      } else {
        assert NatToString(n) == "0";
      }
    }
  }

  lemma {:induction false} HexPrefixStops(hs: string, rest: string)
    requires forall k :: 0 <= k < |hs| ==> IsHex(hs[k])
    requires rest == [] || !IsHex(rest[0])
    ensures HexPrefix(hs + rest) == hs
  {
    if hs != [] {
      assert (hs + rest)[1..] == hs[1..] + rest;
      HexPrefixStops(hs[1..], rest);
    } else {
      assert hs + rest == rest;
    }
  }

  /** After `0x` or `0X`, `parseInt` reads hexadecimal digits up to the first other character ("0x1fz" is 31). */
  lemma {:induction false} ParseIntReadsHex(x: char, hs: string, rest: string)
    requires x == 'x' || x == 'X'
    requires hs != [] && forall k :: 0 <= k < |hs| ==> IsHex(hs[k])
    requires rest == [] || !IsHex(rest[0])
    ensures ParseInt(['0', x] + hs + rest) == Int(HexValue(hs))
  {
    var s := ['0', x] + hs + rest;
    assert s[0] == '0' && s[1] == x;
    TrimStartOfUnspaced(s);
    assert SkipSpace(s) == s;
    assert HasHexPrefix(s);
    assert s[2..] == hs + rest;
    HexPrefixStops(hs, rest);
    assert HexPrefix(s[2..]) == hs;
  }

  /** A limit of `0x14` is read as 20. */
  lemma ParseIntHexExample()
    ensures ParseInt("0x14") == Int(20)
  {
    ParseIntReadsHex('x', "14", "");
    assert "0x14" == ['0', 'x'] + "14" + "";
    assert "14"[..1] == "1";
  }

  /** White space and a sign may precede the prefix: " -0X1f" is -31. */
  lemma ParseIntSignedHexExample()
    ensures ParseInt(" -0X1f") == Int(-31)
  {
    var t := "-0X1f";
    assert LeadingSpaces(" -0X1f") == 1;
    assert SkipSpace(" -0X1f") == t;
    assert t[1..] == "0X1f" && HasHexPrefix(t[1..]);
    assert t[1..][2..] == "1f";
    assert HexPrefix("1f") == "1f";
    assert "1f"[..1] == "1";
    assert HexValue("1f") == 31;
  }

  /** A prefix without a digit after it is NaN. */
  lemma ParseIntBarePrefixExample()
    ensures ParseInt("0x") == NaN
  {
    TrimStartOfUnspaced("0x");
  }

  lemma {:induction false} DigitPrefixStops(ds: string, rest: string)
    requires AllDigits(ds)
    requires rest == [] || !IsDigit(rest[0])
    ensures DigitPrefix(ds + rest) == ds
  {
    if ds != [] {
      assert (ds + rest)[1..] == ds[1..] + rest;
      DigitPrefixStops(ds[1..], rest);
    } else {
      assert ds + rest == rest;
    }
  }

  // ---------------------------------------------------------------- casing and search

  function LowerChar(c: char): char {
    if 'A' <= c <= 'Z' then (c as int + 32) as char else c
  }

  predicate IsUpper(c: char) {
    'A' <= c <= 'Z'
  }

  /**
   * `toLowerCase` on ASCII letters: the result has no upper-case letter, each
   * upper-case letter becomes its lower-case partner and every other
   * character is kept.
   */
  function Lower(s: string): (r: string)
    ensures |r| == |s|
    ensures forall k :: 0 <= k < |r| ==> !IsUpper(r[k])
    ensures forall k :: 0 <= k < |s| && !IsUpper(s[k]) ==> r[k] == s[k]
    ensures forall k :: 0 <= k < |s| && IsUpper(s[k]) ==> r[k] as int - 'a' as int == s[k] as int - 'A' as int
  {
    seq(|s|, k requires 0 <= k < |s| => LowerChar(s[k]))
  }

  /** Lowering twice is lowering once. */
  lemma LowerIdempotent(s: string)
    ensures Lower(Lower(s)) == Lower(s)
  {
  }

  predicate OccursAt(p: string, s: string, k: int) {
    0 <= k <= |s| - |p| && s[k..k + |p|] == p
  }

  /** Whether `p` occurs in `s` as a contiguous piece. */
  function IsInfix(p: string, s: string): (r: bool)
    ensures r <==> exists k :: OccursAt(p, s, k)
    decreases |s|
  {
    if |p| > |s| then false
    else if s[..|p|] == p then
      assert OccursAt(p, s, 0);
      true
    else
      var t := s[1..];
      var r := IsInfix(p, t);
      assert r ==> exists k :: OccursAt(p, s, k) by {
        if r {
          var k :| OccursAt(p, t, k);
          assert s[k + 1..k + 1 + |p|] == t[k..k + |p|];
          assert OccursAt(p, s, k + 1);
        }
      }
      assert (exists k :: OccursAt(p, s, k)) ==> r by {
        if exists k :: OccursAt(p, s, k) {
          var k :| OccursAt(p, s, k);
          assert k != 0;
          assert t[k - 1..k - 1 + |p|] == s[k..k + |p|];
          assert OccursAt(p, t, k - 1);
        }
      }
      r
  }

  /** A title search with the `i` option, for a literal pattern over ASCII letters. */
  predicate ContainsIgnoreCase(text: string, pattern: string) {
    IsInfix(Lower(pattern), Lower(text))
  }

  // ---------------------------------------------------------------- Mongoose casts

  /** The Mongoose cast of a value to a string path: strings, numbers and booleans
   *  are accepted, arrays and objects raise a CastError (`None`). A value that
   *  is accepted is stored as its `String(v)` form, and a number is stored in a
   *  form that `Number` reads back as that number. */
  function CastString(v: JsValue): (r: Option<string>)
    ensures r.Some? <==> v.Str? || v.Num? || v.Bool?
    ensures r.Some? ==> r.value == ToString(v)
    ensures v.Num? ==> StringToNumber(r.value) == Int(v.n)
  {
    match v
    case Str(s) => Some(s)
    case Num(n) => NumberOfIntToString(n); Some(IntToString(n))
    case Bool(b) => Some(if b then "true" else "false")
    case _ => None
  }
}
