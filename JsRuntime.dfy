/**
 * The few pieces of the JavaScript runtime that the editor and the exporter
 * rely on: Number-to-string conversion, parseInt, String.prototype.trim and
 * includes, String.fromCharCode / charCodeAt, and Array.prototype.filter with
 * an "id differs" predicate.
 *
 * Numbers are modelled as integers or NaN (the editor never stores anything
 * else); strings are sequences of characters, except where the source does
 * arithmetic on UTF-16 code units, which is modelled on `seq<CodeUnit>`.
 */
module JsRuntime {

  /** One UTF-16 code unit, the element of a JavaScript string. */
  type CodeUnit = x: int | 0 <= x < 0x1_0000

  /** An integer-valued JavaScript Number, or NaN. */
  datatype JsNumber = Num(value: int) | NaN

  /** `n + 1`; NaN stays NaN. */
  function Succ(n: JsNumber): JsNumber
  {
    match n
    case Num(v) => Num(v + 1)
    case NaN => NaN
  }

  /** `n || 0`: the falsy Numbers (0 and NaN) count as 0. */
  function OrZero(n: JsNumber): int
  {
    match n
    case Num(v) => if v == 0 then 0 else v
    case NaN => 0
  }

  /** ECMAScript ToUint16: NaN becomes 0, everything else is taken modulo 2^16. */
  function ToUint16(n: JsNumber): CodeUnit
  {
    match n
    case Num(v) => v % 0x1_0000
    case NaN => 0
  }

  /** `String.fromCharCode(n)`: a one-unit string. */
  function FromCharCode(n: JsNumber): (r: seq<CodeUnit>)
    ensures |r| == 1
    ensures n.Num? ==> r[0] == n.value % 0x1_0000
    ensures n.NaN? ==> r[0] == 0
  {
    [ToUint16(n)]
  }

  /** `s.charCodeAt(0)`: the first code unit, or NaN on the empty string. */
  function CharCodeAt0(s: seq<CodeUnit>): (r: JsNumber)
    ensures r.NaN? <==> |s| == 0
    ensures r.Num? ==> 0 <= r.value < 0x1_0000 && FromCharCode(r) == s[..1]
  {
    if |s| == 0 then NaN else Num(s[0])
  }

  /** Reading back the unit that fromCharCode wrote gives the argument modulo 2^16. */
  lemma CharCodeOfFromCharCode(v: int)
    ensures CharCodeAt0(FromCharCode(Num(v))) == Num(v % 0x1_0000)
    ensures 0 <= v < 0x1_0000 ==> CharCodeAt0(FromCharCode(Num(v))) == Num(v)
  {
  }

  // ---------------------------------------------------------------------
  // Decimal digits and String(n)

  predicate IsDigit(c: char)
  {
    '0' <= c <= '9'
  }

  predicate AllDigits(s: string)
  {
    forall i :: 0 <= i < |s| ==> IsDigit(s[i])
  }

  function DigitChar(d: nat): char
    requires d < 10
  {
    ('0' as int + d) as char
  }

  function DigitValue(c: char): nat
    requires IsDigit(c)
  {
    c as int - '0' as int
  }

  /**
   * `${n}` (String(n)) for a non-negative integer: its decimal digits, with
   * no leading zero unless the number is 0 itself.
   */
  function NatToString(n: nat): (r: string)
    ensures |r| > 0 && AllDigits(r)
    ensures r[0] == '0' ==> n == 0 && r == "0"
    ensures n < 10 <==> |r| == 1
    decreases n
  {
    if n < 10 then [DigitChar(n)] else NatToString(n / 10) + [DigitChar(n % 10)]
  }

  /**
   * `String(n)` for an integer-valued Number: the digits of its magnitude,
   * after a minus sign when it is negative; "NaN" for NaN.
   */
  function NumberToString(n: JsNumber): (r: string)
    ensures |r| > 0
    ensures n.Num? && n.value >= 0 ==> AllDigits(r)
    ensures n.Num? && n.value < 0 ==> r[0] == '-' && |r| > 1 && AllDigits(r[1..])
    ensures n.NaN? ==> r == "NaN"
  {
    match n
    case NaN => "NaN"
    case Num(v) => if v < 0 then "-" + NatToString(-v) else NatToString(v)
  }

  /** The value of a string of decimal digits (the empty string has value 0). */
  function DigitsValue(s: string): nat
    requires AllDigits(s)
  {
    if |s| == 0 then 0 else 10 * DigitsValue(s[..|s| - 1]) + DigitValue(s[|s| - 1])
  }

  lemma {:induction false} DigitsValueOfNatToString(n: nat)
    ensures DigitsValue(NatToString(n)) == n
    decreases n
  {
    if n >= 10 {
      var s := NatToString(n);
      assert s[..|s| - 1] == NatToString(n / 10);
      DigitsValueOfNatToString(n / 10);
    }
  }

  /** Distinct numbers print differently. */
  lemma NatToStringInjective(m: nat, n: nat)
    ensures NatToString(m) == NatToString(n) <==> m == n
  {
    if NatToString(m) == NatToString(n) {
      DigitsValueOfNatToString(m);
      DigitsValueOfNatToString(n);
    }
  }

  lemma DigitPairUnique(x: nat, d: nat, y: nat, e: nat)
    requires d < 10 && e < 10
    requires 10 * x + d == 10 * y + e
    ensures x == y && d == e
  {
  }

  /** Two digit strings of the same length with the same value are the same string. */
  lemma {:induction false} DigitsValueInjective(a: string, b: string)
    requires AllDigits(a) && AllDigits(b) && |a| == |b|
    requires DigitsValue(a) == DigitsValue(b)
    ensures a == b
    decreases |a|
  {
    if |a| > 0 {
      var n := |a| - 1;
      DigitPairUnique(DigitsValue(a[..n]), DigitValue(a[n]), DigitsValue(b[..n]), DigitValue(b[n]));
      DigitsValueInjective(a[..n], b[..n]);
      assert a == a[..n] + [a[n]] && b == b[..n] + [b[n]];
    }
  }

  /** A two-digit string has a value below 100. */
  lemma TwoDigitsBelow100(s: string)
    requires AllDigits(s) && |s| == 2
    ensures DigitsValue(s) == 10 * DigitValue(s[0]) + DigitValue(s[1]) < 100
  {
    assert s[..1][..0] == [];
    assert DigitsValue(s[..1]) == DigitValue(s[0]);
  }

  // ---------------------------------------------------------------------
  // Whitespace and trim

  /** ECMAScript WhiteSpace and LineTerminator code points, which trim removes. */
  predicate IsWhiteSpace(c: char)
  {
    || c == '\t' || c == '\U{B}' || c == '\U{C}' || c == ' ' || c == '\U{A0}' || c == '\U{FEFF}'
    || c == '\U{1680}' || ('\U{2000}' <= c <= '\U{200A}') || c == '\U{202F}' || c == '\U{205F}'
    || c == '\U{3000}'
    || c == '\n' || c == '\r' || c == '\U{2028}' || c == '\U{2029}'
  }

  predicate IsBlank(s: string)
  {
    forall i :: 0 <= i < |s| ==> IsWhiteSpace(s[i])
  }

  function TrimStart(s: string): string
  {
    if |s| > 0 && IsWhiteSpace(s[0]) then TrimStart(s[1..]) else s
  }

  function TrimEnd(s: string): string
  {
    if |s| > 0 && IsWhiteSpace(s[|s| - 1]) then TrimEnd(s[..|s| - 1]) else s
  }

  /**
   * `s.trim()`: empty exactly when every character of `s` is white space;
   * otherwise it neither starts nor ends with white space.
   */
  function Trim(s: string): (r: string)
    ensures r == "" <==> IsBlank(s)
    ensures r != "" ==> !IsWhiteSpace(r[0]) && !IsWhiteSpace(r[|r| - 1])
  {
    var t := TrimStart(s);
    TrimStartEmptyIffBlank(s);
    TrimEndShape(t);
    if t != "" then
      TrimEndKeepsNonBlankStart(t);
      TrimEnd(t)
    else TrimEnd(t)
  }

  lemma {:induction false} TrimStartEmptyIffBlank(s: string)
    ensures TrimStart(s) == "" <==> IsBlank(s)
    ensures TrimStart(s) != "" ==> !IsWhiteSpace(TrimStart(s)[0])
    decreases |s|
  {
    if |s| > 0 && IsWhiteSpace(s[0]) {
      TrimStartEmptyIffBlank(s[1..]);
      assert IsBlank(s) <==> IsBlank(s[1..]) by {
        if IsBlank(s[1..]) {
          forall i | 0 <= i < |s| ensures IsWhiteSpace(s[i]) {
            if i > 0 { assert s[i] == s[1..][i - 1]; }
          }
        }
      }
    }
  }

  lemma {:induction false} TrimEndKeepsNonBlankStart(s: string)
    requires |s| > 0 && !IsWhiteSpace(s[0])
    ensures TrimEnd(s) != ""
    decreases |s|
  {
    if IsWhiteSpace(s[|s| - 1]) {
      TrimEndKeepsNonBlankStart(s[..|s| - 1]);
    }
  }

  /** Trimming the end keeps a prefix, which does not end with white space. */
  lemma {:induction false} TrimEndShape(s: string)
    ensures |TrimEnd(s)| <= |s| && TrimEnd(s) == s[..|TrimEnd(s)|]
    ensures TrimEnd(s) != "" ==> !IsWhiteSpace(TrimEnd(s)[|TrimEnd(s)| - 1])
    decreases |s|
  {
    if |s| > 0 && IsWhiteSpace(s[|s| - 1]) {
      TrimEndShape(s[..|s| - 1]);
    }
  }

  // ---------------------------------------------------------------------
  // parseInt(s, 10)

  /** The longest prefix of `s` made of decimal digits. */
  function LeadingDigits(s: string): (r: string)
    ensures AllDigits(r) && |r| <= |s| && r == s[..|r|]
    ensures |r| < |s| ==> !IsDigit(s[|r|])
  {
    if |s| > 0 && IsDigit(s[0]) then [s[0]] + LeadingDigits(s[1..]) else []
  }

  /**
   * `parseInt(s, 10)`: skip leading whitespace, take an optional sign, then
   * as many decimal digits as there are; no digit at all gives NaN.
   * (A negative zero is folded into 0.) Text without any digit is NaN, and
   * so is text whose first non-blank characters are not a sign and a digit.
   */
  function ParseInt(s: string): (r: JsNumber)
    ensures (forall i :: 0 <= i < |s| ==> !IsDigit(s[i])) ==> r == NaN
    ensures r.Num? ==> var t := TrimStart(s);
      |t| > 0 && (IsDigit(t[0]) || (|t| > 1 && (t[0] == '-' || t[0] == '+') && IsDigit(t[1])))
    ensures r.Num? && r.value < 0 ==> TrimStart(s)[0] == '-'
  {
    var t := TrimStart(s);
    TrimStartIsSuffix(s);
    var negative := |t| > 0 && t[0] == '-';
    var unsigned := if |t| > 0 && (t[0] == '-' || t[0] == '+') then t[1..] else t;
    var digits := LeadingDigits(unsigned);
    assert |unsigned| > 0 ==> unsigned[0] == s[|s| - |unsigned|];
    if |digits| == 0 then NaN
    else if negative then Num(-(DigitsValue(digits) as int))
    else Num(DigitsValue(digits))
  }

  lemma {:induction false} LeadingDigitsOfDigitsThenOther(d: string, rest: string)
    requires AllDigits(d)
    requires |rest| > 0 ==> !IsDigit(rest[0])
    ensures LeadingDigits(d + rest) == d
    decreases |d|
  {
    if |d| > 0 {
      assert (d + rest)[1..] == d[1..] + rest;
      LeadingDigitsOfDigitsThenOther(d[1..], rest);
      assert d == [d[0]] + d[1..];
    } else {
      assert d + rest == rest;
    }
  }

  /**
   * parseInt reads a run of decimal digits, leading zeros included ("007"
   * gives 7), and stops at the first character that is not a digit ("12.5"
   * and "12abc" both give 12).
   */
  lemma ParseIntOfDigits(d: string, rest: string)
    requires |d| > 0 && AllDigits(d)
    requires |rest| > 0 ==> !IsDigit(rest[0])
    ensures ParseInt(d + rest) == Num(DigitsValue(d))
  {
    var s := d + rest;
    assert s[0] == d[0];
    assert TrimStart(s) == s;
    LeadingDigitsOfDigitsThenOther(d, rest);
  }

  /** In particular parseInt reads back what String(n) wrote. */
  lemma ParseIntOfDecimal(n: nat, rest: string)
    requires |rest| > 0 ==> !IsDigit(rest[0])
    ensures ParseInt(NatToString(n) + rest) == Num(n)
  {
    ParseIntOfDigits(NatToString(n), rest);
    DigitsValueOfNatToString(n);
  }

  /** A number that starts with its decimal point, such as ".5", has no integer part: NaN. */
  lemma ParseIntOfFraction(d: string)
    ensures ParseInt("." + d) == NaN
    ensures ParseInt("-." + d) == NaN
  {
    assert TrimStart("." + d) == "." + d;
    assert TrimStart("-." + d) == "-." + d;
    assert ("-." + d)[1..] == "." + d;
  }

  /** A leading minus sign negates the value. */
  lemma ParseIntOfNegative(n: nat, rest: string)
    requires |rest| > 0 ==> !IsDigit(rest[0])
    ensures ParseInt("-" + NatToString(n) + rest) == Num(-(n as int))
  {
    var s := "-" + NatToString(n) + rest;
    assert TrimStart(s) == s;
    assert s[1..] == NatToString(n) + rest;
    LeadingDigitsOfDigitsThenOther(NatToString(n), rest);
    DigitsValueOfNatToString(n);
  }

  /** Leading whitespace is ignored. */
  lemma {:induction false} ParseIntSkipsWhiteSpace(w: string, s: string)
    requires IsBlank(w)
    ensures ParseInt(w + s) == ParseInt(s)
    decreases |w|
  {
    if |w| > 0 {
      assert (w + s)[0] == w[0];
      assert (w + s)[1..] == w[1..] + s;
      ParseIntSkipsWhiteSpace(w[1..], s);
    } else {
      assert w + s == s;
    }
  }

  /** parseInt reads back what String wrote, for every integer. */
  lemma ParseIntOfNumberToString(v: int)
    ensures ParseInt(NumberToString(Num(v))) == Num(v)
  {
    if v < 0 {
      ParseIntOfNegative(-v, "");
      assert "-" + NatToString(-v) + "" == NumberToString(Num(v));
    } else {
      ParseIntOfDecimal(v, "");
      assert NatToString(v) + "" == NumberToString(Num(v));
    }
  }

  lemma {:induction false} TrimStartIsSuffix(s: string)
    ensures |TrimStart(s)| <= |s| && TrimStart(s) == s[|s| - |TrimStart(s)|..]
    decreases |s|
  {
    if |s| > 0 && IsWhiteSpace(s[0]) {
      TrimStartIsSuffix(s[1..]);
    }
  }

  // ---------------------------------------------------------------------
  // includes

  /** `part` occurs in `s` starting at index `i`. */
  predicate OccursAt(s: string, part: string, i: int)
  {
    0 <= i && i + |part| <= |s| && s[i..i + |part|] == part
  }

  /** `s.includes(part)`: only a pattern no longer than `s` can occur in it. */
  predicate Includes(s: string, part: string)
    ensures Includes(s, part) ==> |part| <= |s|
  {
    exists i | 0 <= i <= |s| :: OccursAt(s, part, i)
  }

  /** For a one-character pattern, `s.includes(c)` is membership. */
  lemma IncludesChar(s: string, c: char)
    ensures Includes(s, [c]) <==> c in s
  {
    if c in s {
      var i :| 0 <= i < |s| && s[i] == c;
      assert OccursAt(s, [c], i);
    }
    if Includes(s, [c]) {
      var i :| 0 <= i <= |s| && OccursAt(s, [c], i);
      assert s[i] == s[i..i + 1][0] == c;
    }
  }

  /** A string that contains a character which is not white space is not blank. */
  lemma IncludesNonBlank(s: string, part: string)
    requires Includes(s, part) && !IsBlank(part)
    ensures !IsBlank(s)
  {
    var i :| 0 <= i <= |s| && OccursAt(s, part, i);
    var k :| 0 <= k < |part| && !IsWhiteSpace(part[k]);
    assert s[i + k] == part[k];
  }

  // ---------------------------------------------------------------------
  // Array.prototype.filter(x => x.id !== id)

  /** The elements of `s` whose id is not `id`, in their original order. */
  function WithoutId<T>(s: seq<T>, idOf: T -> int, id: int): (r: seq<T>)
    ensures |r| <= |s|
    ensures forall i :: 0 <= i < |r| ==> idOf(r[i]) != id
  {
    if |s| == 0 then []
    else (if idOf(s[0]) != id then [s[0]] else []) + WithoutId(s[1..], idOf, id)
  }

  /** Filtering distributes over concatenation, so relative order is kept. */
  lemma {:induction false} WithoutIdAppend<T>(a: seq<T>, b: seq<T>, idOf: T -> int, id: int)
    ensures WithoutId(a + b, idOf, id) == WithoutId(a, idOf, id) + WithoutId(b, idOf, id)
    decreases |a|
  {
    if |a| > 0 {
      assert (a + b)[0] == a[0];
      assert (a + b)[1..] == a[1..] + b;
      WithoutIdAppend(a[1..], b, idOf, id);
    } else {
      assert a + b == b;
    }
  }

  /**
   * Filtering drops exactly the elements carrying `id` and keeps every other
   * element as many times as it occurred.
   */
  lemma {:induction false} WithoutIdMultiset<T>(s: seq<T>, idOf: T -> int, id: int)
    ensures forall x :: multiset(WithoutId(s, idOf, id))[x] == if idOf(x) == id then 0 else multiset(s)[x]
    decreases |s|
  {
    if |s| > 0 {
      WithoutIdMultiset(s[1..], idOf, id);
      assert s == [s[0]] + s[1..];
      assert multiset(s) == multiset([s[0]]) + multiset(s[1..]);
    }
  }

  lemma WithoutIdMembers<T>(s: seq<T>, idOf: T -> int, id: int)
    ensures forall x :: x in WithoutId(s, idOf, id) <==> x in s && idOf(x) != id
  {
    WithoutIdMultiset(s, idOf, id);
    forall x ensures x in WithoutId(s, idOf, id) <==> x in s && idOf(x) != id {
      assert x in WithoutId(s, idOf, id) <==> x in multiset(WithoutId(s, idOf, id));
      assert x in s <==> x in multiset(s);
    }
  }

  /** Every element survives, unchanged and in place, when no element carries `id`. */
  lemma {:induction false} WithoutAbsentId<T>(s: seq<T>, idOf: T -> int, id: int)
    requires forall i :: 0 <= i < |s| ==> idOf(s[i]) != id
    ensures WithoutId(s, idOf, id) == s
    decreases |s|
  {
    if |s| > 0 {
      WithoutAbsentId(s[1..], idOf, id);
      assert s == [s[0]] + s[1..];
    }
  }

  /** Filtering out the identifier of a freshly appended element gives back the list before it. */
  lemma WithoutFreshLast<T>(s: seq<T>, x: T, idOf: T -> int, id: int)
    requires forall i :: 0 <= i < |s| ==> idOf(s[i]) != id
    requires idOf(x) == id
    ensures WithoutId(s + [x], idOf, id) == s
  {
    WithoutIdAppend(s, [x], idOf, id);
    WithoutAbsentId(s, idOf, id);
    assert WithoutId([x], idOf, id) == [] + WithoutId([x][1..], idOf, id);
  }
}
