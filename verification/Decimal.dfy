/**
 types/tsql_decimal.c: a decimal is a byte of precision, a byte of scale and a
 magnitude in base 256, low byte first.  Numbers of GMP are integers here; export,
 import and digit strings are base conversions.
 */
module Decimal {
  import opened Bytes
  import opened DigitText
  import opened Options

  // ----- GMP -----

  /** mpz_export: no leading zero bytes, and no sign. */
  function Export(n: nat): seq<byte> {
    if n == 0 then [] else [n % 256] + Export(n / 256)
  }

  function Abs(n: int): nat {
    if n < 0 then -n else n
  }

  lemma {:induction false} ImportExport(n: nat)
    ensures FromLE(Export(n)) == n
  {
    if n > 0 {
      ImportExport(n / 256);
      assert Export(n)[1..] == Export(n / 256);
    }
  }

  predicate IsSpace(c: char) {
    c == ' ' || '\t' <= c <= '\r'
  }

  function SkipSpace(s: string): string {
    if s != "" && IsSpace(s[0]) then SkipSpace(s[1..]) else s
  }

  function DropSpace(s: string): string {
    if s == "" then "" else (if IsSpace(s[0]) then "" else [s[0]]) + DropSpace(s[1..])
  }

  /** mpz_init_set_str in base 10: white space anywhere, a sign in front; 0 when it is not a number. */
  function SetStr(s: string): int {
    var t := SkipSpace(s);
    var digits := if t != "" && t[0] == '-' then t[1..] else t;
    if digits == "" || !IsDigit(digits[0]) || !AllDigits(DropSpace(digits)) then 0
    else
      var n: int := Number(DropSpace(digits));
      if t[0] == '-' then -n else n
  }

  lemma {:induction false} DropNothing(s: string)
    requires AllDigits(s)
    ensures DropSpace(s) == s
  {
    if s != "" {
      assert AllDigits(s[1..]);
      DropNothing(s[1..]);
      assert [s[0]] + s[1..] == s;
    }
  }

  lemma SetStrDigits(s: string)
    requires AllDigits(s)
    ensures SetStr(s) == Number(s)
  {
    DropNothing(s);
    if s != "" {
      assert IsDigit(s[0]);
      assert SkipSpace(s) == s;
    }
  }

  // ----- stored values -----

  function Store(precision: int, scale: int, n: int): (d: seq<byte>)
    ensures |d| >= 2
  {
    [precision % 256, scale % 256] + Export(Abs(n))
  }

  function Scale(d: seq<byte>): nat
    requires |d| >= 2
  {
    d[1]
  }

  function Magnitude(d: seq<byte>): nat
    requires |d| >= 2
  {
    FromLE(d[2..])
  }

  lemma StoredParts(precision: int, scale: int, n: int)
    ensures var d := Store(precision, scale, n);
            Magnitude(d) == Abs(n) && Scale(d) == scale % 256
  {
    var d := Store(precision, scale, n);
    assert d[2..] == Export(Abs(n));
    ImportExport(Abs(n));
  }

  // ----- text -----

  /** The loop of tsql_decimal_in: the characters kept so far, and one more than how many stood before the point. */
  function ScanText(text: string, kept: string, point: int): (string, int) {
    if text == "" then (kept, point)
    else if kept == "" && (text[0] == ' ' || text[0] == '-') then ScanText(text[1..], kept, point)
    else if text[0] == '.' && point == -1 then ScanText(text[1..], kept, |kept| + 1)
    else ScanText(text[1..], kept + [text[0]], point)
  }

  /** typmod -1 takes precision and scale from the text; otherwise they are its high and low parts. */
  function In(text: string, typmod: int): (d: seq<byte>)
    ensures |d| >= 2
  {
    var (kept, point) := ScanText(text, "", -1);
    if typmod == -1 then Store(|kept|, if point == -1 then 0 else |kept| - point + 1, SetStr(kept))
    else Store(typmod / 256, typmod % 256, SetStr(kept))
  }

  method Input(text: string, typmod: int) returns (d: seq<byte>)
    ensures d == In(text, typmod)
  {
    var in2 := new char[|text|];
    var i, j, point := 0, 0, -1;
    assert text[0..] == text && in2[..0] == "";
    while i < |text|
      invariant 0 <= j <= i <= |text|
      invariant ScanText(text[i..], in2[..j], point) == ScanText(text, "", -1)
      invariant in2.Length == |text|
    {
      var c := text[i];
      assert text[i..][0] == c && text[i..][1..] == text[i + 1..];
      if j == 0 && (c == ' ' || c == '-') {
        // skipped; a sign is not kept anywhere
      } else if c == '.' && point == -1 {
        point := j + 1;
      } else {
        ghost var kept := in2[..j];
        in2[j] := c;
        j := j + 1;
        assert in2[..j] == kept + [c];
      }
      i := i + 1;
    }
    var precision, scale := typmod / 256, typmod % 256;
    if typmod == -1 {
      precision := j;
      scale := if point == -1 then 0 else j - point + 1;
    }
    d := Store(precision, scale, SetStr(in2[..j]));
  }

  const OUT_SIZE: nat := 69

  /** tsql_decimal_out; None when it would write outside its two buffers of 69 characters. */
  function Out(d: seq<byte>): Option<string>
    requires |d| >= 2
  {
    Cut(Digits(Magnitude(d)), Scale(d))
  }

  function Cut(raw: string, scale: nat): Option<string> {
    if scale > |raw| then None
    else
      var before := raw[..|raw| - scale];
      var text := if scale > 0 then before + "." + raw[|raw| - scale..] else before;
      if |raw| + 1 > OUT_SIZE || |text| + 1 > OUT_SIZE then None else Some(text)
  }

  /** Digits, and perhaps a point with more digits behind it. */
  datatype Numeral = Whole(whole: string) | Pointed(whole: string, fraction: string)

  function NumeralText(n: Numeral): string {
    match n
    case Whole(a) => a
    case Pointed(a, b) => a + "." + b
  }

  function NumeralDigits(n: Numeral): string {
    match n
    case Whole(a) => a
    case Pointed(a, b) => a + b
  }

  function FractionSize(n: Numeral): nat {
    if n.Whole? then 0 else |n.fraction|
  }

  predicate Unsigned(n: Numeral) {
    AllDigits(NumeralDigits(n))
  }

  lemma {:induction false} ScanDigits(digits: string, rest: string, kept: string, point: int)
    requires AllDigits(digits)
    ensures ScanText(digits + rest, kept, point) == ScanText(rest, kept + digits, point)
  {
    if digits == "" {
      assert digits + rest == rest && kept + digits == kept;
    } else {
      var text := digits + rest;
      assert text[0] == digits[0] && text[1..] == digits[1..] + rest;
      assert IsDigit(digits[0]) && AllDigits(digits[1..]);
      ScanDigits(digits[1..], rest, kept + [digits[0]], point);
      assert kept + [digits[0]] + digits[1..] == kept + digits;
    }
  }

  lemma ScanNumeral(n: Numeral)
    requires Unsigned(n)
    ensures ScanText(NumeralText(n), "", -1) == (NumeralDigits(n), if n.Whole? then -1 else |n.whole| + 1)
  {
    match n
    case Whole(a) =>
      ScanDigits(a, "", "", -1);
      assert a + "" == a && "" + a == a;
    case Pointed(a, b) =>
      assert AllDigits(a) by { assert forall i :: 0 <= i < |a| ==> a[i] == (a + b)[i]; }
      assert AllDigits(b) by { assert forall i :: 0 <= i < |b| ==> b[i] == (a + b)[|a| + i]; }
      var rest := "." + b;
      Assoc(a, ".", b);
      ScanDigits(a, rest, "", -1);
      assert "" + a == a && rest[0] == '.' && rest[1..] == b;
      ScanDigits(b, "", a, |a| + 1);
      assert b + "" == b;
  }

  lemma InNumeral(n: Numeral)
    requires Unsigned(n)
    ensures In(NumeralText(n), -1) == Store(|NumeralDigits(n)|, FractionSize(n), Number(NumeralDigits(n)))
  {
    ScanNumeral(n);
    SetStrDigits(NumeralDigits(n));
  }

  /** Blanks and signs in front of a text are lost, with any typmod: -5 is stored as 5. */
  lemma {:induction false} SignsLost(front: string, text: string, typmod: int)
    requires forall i :: 0 <= i < |front| ==> front[i] == ' ' || front[i] == '-'
    ensures In(front + text, typmod) == In(text, typmod)
  {
    hide SetStr, Store;
    if front == "" {
      assert front + text == text;
    } else {
      var all := front + text;
      assert all[0] == front[0] && all[1..] == front[1..] + text;
      SignsLost(front[1..], text, typmod);
    }
  }

  /** What a client could check of a text before storing it. */
  predicate Printable(n: Numeral) {
    && Canonical(NumeralDigits(n))
    && (n.Pointed? ==> n.fraction != "")
    && |NumeralText(n)| + 1 <= OUT_SIZE
  }

  /** Cutting the right digits at the right place gives the numeral back if, and only if, it is in this form. */
  lemma CutBack(n: Numeral)
    requires Printable(n)
    ensures Cut(NumeralDigits(n), FractionSize(n)) == Some(NumeralText(n))
  {
    if n.Pointed? {
      var a, b := n.whole, n.fraction;
      var raw := a + b;
      assert raw[..|raw| - |b|] == a && raw[|raw| - |b|..] == b;
    } else {
      assert n.whole[..|n.whole|] == n.whole;
    }
  }

  lemma CutParts(raw: string, n: Numeral)
    requires Unsigned(n) && AllDigits(raw) && Cut(raw, FractionSize(n)) == Some(NumeralText(n))
    ensures raw == NumeralDigits(n) && (n.Pointed? ==> n.fraction != "") && |NumeralText(n)| + 1 <= OUT_SIZE
  {
    if n.Pointed? {
      var a, b, cut := n.whole, n.fraction, |raw| - |n.fraction|;
      var text := NumeralText(n);
      if b == "" {
        NoPointInDigits(raw, a);
      } else {
        assert text == raw[..cut] + "." + raw[cut..];
        assert a == text[..|a|] == raw[..cut];
        assert b == text[|a| + 1..] == raw[cut..];
      }
    }
  }

  lemma NoPointInDigits(raw: string, a: string)
    requires AllDigits(raw)
    ensures raw != a + "." + ""
  {
    var text := a + "." + "";
    assert text[|a|] == '.' && !IsDigit('.');
  }

  lemma PrintsBack(n: Numeral)
    requires Unsigned(n) && Printable(n)
    ensures Out(In(NumeralText(n), -1)) == Some(NumeralText(n))
  {
    hide Digits, Number, Export, FromLE, Cut;
    var digits, scale := NumeralDigits(n), FractionSize(n);
    InNumeral(n);
    StoredParts(|digits|, scale, Number(digits));
    assert Abs(Number(digits)) == Number(digits) && scale % 256 == scale;
    DigitsOfNumber(digits);
    CutBack(n);
  }

  /**
   Text in, text out: an unsigned numeral comes back as it was written exactly when its
   digits have no leading zero, a point has digits behind it, and it fits the buffer.
   */
  lemma TextRoundTrip(n: Numeral)
    requires Unsigned(n)
    ensures Out(In(NumeralText(n), -1)) == Some(NumeralText(n)) <==> Printable(n)
  {
    hide Digits, Number, Export, FromLE, ScanText;
    if Printable(n) {
      PrintsBack(n);
    }
    var digits, scale := NumeralDigits(n), FractionSize(n);
    InNumeral(n);
    StoredParts(|digits|, scale, Number(digits));
    assert Abs(Number(digits)) == Number(digits);
    if Out(In(NumeralText(n), -1)) == Some(NumeralText(n)) {
      assert |NumeralText(n)| < OUT_SIZE && scale <= |NumeralText(n)|;
      assert scale % 256 == scale;
      CutParts(Digits(Number(digits)), n);
      DigitsOfNumber(digits);
    }
  }

  // ----- the values that stored decimals stand for -----

  function Ten(n: nat): (p: nat)
    ensures p > 0
  {
    Pow(10, n)
  }

  /** m / 10^s == n / 10^t */
  predicate SameWorth(m: int, s: nat, n: int, t: nat) {
    m * Ten(t) == n * Ten(s)
  }

  lemma {:induction false} TenOrder(s: nat, t: nat)
    ensures s < t ==> Ten(s) < Ten(t)
  {
    if s < t {
      if s > 0 {
        TenOrder(s - 1, t - 1);
      } else {
        TenPositive(t - 1);
      }
    }
  }

  lemma TenPositive(n: nat)
    ensures Ten(n) >= 1 && Ten(n + 1) == 10 * Ten(n)
  {
  }

  lemma TenInjective(s: nat, t: nat)
    ensures Ten(s) == Ten(t) <==> s == t
  {
    TenOrder(s, t);
    TenOrder(t, s);
  }

  lemma {:induction false} TenAdd(s: nat, t: nat)
    ensures Ten(s + t) == Ten(s) * Ten(t)
  {
    if s > 0 {
      TenAdd(s - 1, t);
      assert 10 * (Ten(s - 1) * Ten(t)) == (10 * Ten(s - 1)) * Ten(t);
    }
  }

  /** A typmod decides the scale but moves no digit: the worth is kept only if the scales agree or all is 0. */
  lemma TypmodExact(n: Numeral, typmod: int)
    requires Unsigned(n) && typmod != -1
    ensures var d := In(NumeralText(n), typmod);
            SameWorth(Magnitude(d), Scale(d), Number(NumeralDigits(n)), FractionSize(n))
            <==> Number(NumeralDigits(n)) == 0 || typmod % 256 == FractionSize(n)
  {
    hide Number, Export, FromLE, ScanText, SetStr, Pow;
    var value := Number(NumeralDigits(n));
    ScanNumeral(n);
    SetStrDigits(NumeralDigits(n));
    StoredParts(typmod / 256, typmod % 256, value);
    TenInjective(FractionSize(n), typmod % 256);
    CancelFactor(value, Ten(FractionSize(n)), Ten(typmod % 256));
  }

  lemma CancelFactor(x: int, a: int, b: int)
    ensures x * a == x * b <==> x == 0 || a == b
  {
    Distribute(a, b, x);
    ProductZero(a - b, x);
  }

  lemma Distribute(x: int, y: int, p: int)
    ensures (x - y) * p == x * p - y * p && p * x == x * p && p * y == y * p
  {
  }

  lemma {:induction false} ProductPositive(x: nat, y: nat)
    requires x > 0 && y > 0
    ensures x * y > 0
  {
    if x > 1 {
      ProductPositive(x - 1, y);
      assert x * y == (x - 1) * y + y;
    }
  }

  lemma ProductZero(x: int, y: int)
    ensures x * y == 0 <==> x == 0 || y == 0
  {
    if x != 0 && y != 0 {
      ProductPositive(Abs(x), Abs(y));
      assert x * y == Abs(x) * Abs(y) || -(x * y) == Abs(x) * Abs(y);
    }
  }

  // ----- comparison -----

  /** decimal_cmp_decimal */
  function Compare(l: seq<byte>, r: seq<byte>): int
    requires |l| >= 2 && |r| >= 2
  {
    if Magnitude(l) < Magnitude(r) then -1 else if Magnitude(l) > Magnitude(r) then 1 else 0
  }

  function Sign(n: int): int {
    if n < 0 then -1 else if n > 0 then 1 else 0
  }

  /** The order of the values: l / 10^s against r / 10^t. */
  function WorthOrder(l: nat, s: nat, r: nat, t: nat): int {
    Sign(l * Ten(t) - r * Ten(s))
  }

  /** At one scale the comparison is that of the values. */
  lemma CompareAtOneScale(l: seq<byte>, r: seq<byte>)
    requires |l| >= 2 && |r| >= 2 && Scale(l) == Scale(r)
    ensures Compare(l, r) == WorthOrder(Magnitude(l), Scale(l), Magnitude(r), Scale(r))
  {
    Distribute(Magnitude(l), Magnitude(r), Ten(Scale(l)));
    SignOfProduct(Magnitude(l) as int - Magnitude(r), Ten(Scale(l)));
  }

  lemma SignOfProduct(x: int, p: nat)
    requires p > 0
    ensures Sign(x * p) == Sign(x)
  {
    if x != 0 {
      ProductPositive(Abs(x), p);
      assert x < 0 ==> (-x) * p == -(x * p);
    }
  }

  /** At two different scales there are values that it orders wrongly. */
  lemma CompareAtTwoScales(s: byte, t: byte)
    requires s != t
    ensures exists n: nat ::
              Compare(Store(1, s, n), Store(1, t, n)) != WorthOrder(n, s, n, t)
  {
    StoredParts(1, s, 1);
    StoredParts(1, t, 1);
    TenInjective(s, t);
    assert Compare(Store(1, s, 1), Store(1, t, 1)) != WorthOrder(1, s, 1, t);
  }

  // ----- arithmetic -----

  function Plus(l: seq<byte>, r: seq<byte>): (d: seq<byte>)
    requires |l| >= 2 && |r| >= 2
    ensures |d| >= 2
  {
    Store(l[0], l[1], Magnitude(l) + Magnitude(r))
  }

  function Minus(l: seq<byte>, r: seq<byte>): (d: seq<byte>)
    requires |l| >= 2 && |r| >= 2
    ensures |d| >= 2
  {
    Store(l[0], l[1], Magnitude(l) - Magnitude(r))
  }

  function Times(l: seq<byte>, r: seq<byte>): (d: seq<byte>)
    requires |l| >= 2 && |r| >= 2
    ensures |d| >= 2
  {
    Store(l[0], l[1], Magnitude(l) * Magnitude(r))
  }

  function TimesInt(l: seq<byte>, r: int): (d: seq<byte>)
    requires |l| >= 2
    ensures |d| >= 2
  {
    Store(l[0], l[1], Magnitude(l) * r)
  }

  /** The stored sum is the sum of the values exactly when the scales agree or the right operand is 0. */
  lemma PlusExact(l: seq<byte>, r: seq<byte>)
    requires |l| >= 2 && |r| >= 2
    ensures var d := Plus(l, r);
            var (m, n, s, t) := (Magnitude(l), Magnitude(r), Scale(l), Scale(r));
            SameWorth(Magnitude(d), Scale(d), m * Ten(t) + n * Ten(s), s + t) <==> n == 0 || s == t
  {
    var m, n, s, t := Magnitude(l), Magnitude(r), Scale(l), Scale(r);
    var p, q := Ten(s), Ten(t);
    StoredParts(l[0], l[1], m + n);
    TenAdd(s, t);
    SumIdentity(m, n, p, q);
    ProductZero(n * (q as int - p), p);
    ProductZero(n, q as int - p);
    TenInjective(s, t);
  }

  /** (m + n) / p and m / p + n / q differ by n (q - p) p. */
  lemma SumIdentity(m: int, n: int, p: int, q: int)
    ensures (m + n) * (p * q) - (m * q + n * p) * p == (n * (q - p)) * p
  {
    assert (m + n) * (p * q) == m * (p * q) + n * (p * q);
    assert (m * q + n * p) * p == (m * q) * p + (n * p) * p;
    assert m * (p * q) == (m * q) * p;
    assert n * (p * q) == (n * q) * p;
    Distribute(n * q, n * p, p);
    assert n * (q - p) == n * q - n * p;
  }

  /**
   The stored difference is that of the magnitudes without its sign, at the left scale.
   Where the right magnitude is the larger one, it is the difference of the values only
   by coincidence, as for 11 - 2.0, and never at one scale.
   */
  lemma MinusExact(l: seq<byte>, r: seq<byte>)
    requires |l| >= 2 && |r| >= 2
    ensures var d := Minus(l, r);
            var (m, n, s, t) := (Magnitude(l), Magnitude(r), Scale(l), Scale(r));
            var right := SameWorth(Magnitude(d), Scale(d), m * Ten(t) - n * Ten(s), s + t);
            && (right <==> if m >= n then n == 0 || s == t else n * (Ten(s) + Ten(t)) == 2 * m * Ten(t))
            && (s == t ==> (right <==> m >= n))
  {
    hide Magnitude, Pow;
    var m: int, n: int := Magnitude(l), Magnitude(r);
    var s, t := Scale(l), Scale(r);
    StoredParts(l[0], l[1], m - n);
    TenAdd(s, t);
    TenInjective(s, t);
    if m >= n {
      PositiveDifference(m, n, Ten(s), Ten(t));
    } else {
      NegativeDifference(m, n, Ten(s), Ten(t));
    }
  }

  lemma PositiveDifference(m: int, n: int, p: nat, q: nat)
    requires p > 0
    ensures (m - n) * (p * q) == (m * q - n * p) * p <==> n == 0 || p == q
  {
    SumIdentity(m, -n, p, q);
    ProductZero(-n * (q - p), p);
    ProductZero(-n, q - p);
  }

  lemma NegativeDifference(m: int, n: int, p: nat, q: nat)
    requires m < n && p > 0
    ensures (n - m) * (p * q) == (m * q - n * p) * p <==> n * (p + q) == 2 * m * q
    ensures p == q ==> n * (p + q) != 2 * m * q
  {
    MinusIdentity(m, n, p, q);
    ProductZero(n * (p + q) - 2 * m * q, p);
    Doubled(m, n, p);
  }

  /** (n - m) / p and m / p - n / q differ by n (p + q) - 2 m q, times p. */
  lemma MinusIdentity(m: int, n: int, p: int, q: int)
    ensures (n - m) * (p * q) - (m * q - n * p) * p == (n * (p + q) - 2 * m * q) * p
  {
    assert (n - m) * (p * q) == n * (p * q) - m * (p * q);
    Distribute(m * q, n * p, p);
    Distribute(n * (p + q), 2 * m * q, p);
    assert n * (p + q) == n * p + n * q;
    assert (n * p + n * q) * p == (n * p) * p + (n * q) * p;
    assert n * (p * q) == (n * q) * p && m * (p * q) == (m * q) * p;
    assert (2 * m * q) * p == 2 * ((m * q) * p);
  }

  lemma Doubled(m: int, n: int, p: int)
    requires m < n && p > 0
    ensures n * (p + p) != 2 * m * p
  {
    Distribute(n, m, 2 * p);
    assert (n - m) * (2 * p) > 0;
    assert n * (p + p) == n * (2 * p) && 2 * m * p == m * (2 * p);
  }

  /** The stored product is the product of the values exactly when it is 0 or the right operand has no scale. */
  lemma TimesExact(l: seq<byte>, r: seq<byte>)
    requires |l| >= 2 && |r| >= 2
    ensures var d := Times(l, r);
            var (m, n, s, t) := (Magnitude(l), Magnitude(r), Scale(l), Scale(r));
            SameWorth(Magnitude(d), Scale(d), m * n, s + t) <==> m * n == 0 || t == 0
  {
    var m, n, s, t := Magnitude(l), Magnitude(r), Scale(l), Scale(r);
    assert m * n >= 0;
    StoredParts(l[0], l[1], m * n);
    TenInjective(s + t, s);
    CancelFactor(m * n, Ten(s + t), Ten(s));
  }

  lemma TimesIntExact(l: seq<byte>, r: int)
    requires |l| >= 2
    ensures Magnitude(TimesInt(l, r)) == Magnitude(l) * r <==> Magnitude(l) == 0 || r >= 0
  {
    StoredParts(l[0], l[1], Magnitude(l) * r);
    SignOfProduct(r, if Magnitude(l) == 0 then 1 else Magnitude(l));
    assert Magnitude(l) * r == r * Magnitude(l);
  }

  // ----- SUM -----

  ghost predicate AtScale(rows: seq<seq<byte>>, scale: nat) {
    forall i :: 0 <= i < |rows| ==> |rows[i]| >= 2 && Scale(rows[i]) == scale
  }

  /** The aggregate: its first row is the state, and every other row is added to it. */
  function Sum(rows: seq<seq<byte>>): (d: seq<byte>)
    requires rows != [] && forall i :: 0 <= i < |rows| ==> |rows[i]| >= 2
    ensures |d| >= 2
  {
    if |rows| == 1 then rows[0] else Plus(Sum(rows[..|rows| - 1]), rows[|rows| - 1])
  }

  function Total(rows: seq<seq<byte>>): nat
    requires forall i :: 0 <= i < |rows| ==> |rows[i]| >= 2
  {
    if rows == [] then 0 else Total(rows[..|rows| - 1]) + Magnitude(rows[|rows| - 1])
  }

  lemma {:induction false} SumIsTotal(rows: seq<seq<byte>>, scale: nat)
    requires rows != [] && AtScale(rows, scale)
    ensures Magnitude(Sum(rows)) == Total(rows) && Scale(Sum(rows)) == scale
  {
    hide Magnitude, Store;
    var last := rows[|rows| - 1];
    if |rows| > 1 {
      var init := rows[..|rows| - 1];
      SumIsTotal(init, scale);
      StoredParts(Sum(init)[0], Sum(init)[1], Magnitude(Sum(init)) + Magnitude(last));
    } else {
      assert rows[..0] == [];
    }
  }

  /** Removing one row takes its magnitude from the total. */
  lemma {:induction false} TotalWithout(rows: seq<seq<byte>>, k: nat)
    requires k < |rows| && forall i :: 0 <= i < |rows| ==> |rows[i]| >= 2
    ensures var rest := rows[..k] + rows[k + 1..];
            && (forall i :: 0 <= i < |rest| ==> |rest[i]| >= 2)
            && Total(rows) == Total(rest) + Magnitude(rows[k])
  {
    var rest, last := rows[..k] + rows[k + 1..], |rows| - 1;
    if k == last {
      assert rest == rows[..last];
    } else {
      var init := rows[..last];
      TotalWithout(init, k);
      var less := init[..k] + init[k + 1..];
      assert rest[..|rest| - 1] == less && rest[|rest| - 1] == rows[last];
    }
  }

  lemma RemoveAt<T>(s: seq<T>, k: nat)
    requires k < |s|
    ensures multiset(s[..k] + s[k + 1..]) == multiset(s) - multiset{s[k]}
  {
    assert s == s[..k] + [s[k]] + s[k + 1..];
  }

  /** The last element of one permutation, found in the other. */
  lemma MatchLast<T>(a: seq<T>, b: seq<T>) returns (k: nat)
    requires a != [] && multiset(a) == multiset(b)
    ensures k < |b| && b[k] == a[|a| - 1]
    ensures multiset(a[..|a| - 1]) == multiset(b[..k] + b[k + 1..])
  {
    var last := a[|a| - 1];
    assert last in multiset(b);
    k :| 0 <= k < |b| && b[k] == last;
    RemoveAt(b, k);
    RemoveAt(a, |a| - 1);
    assert a[..|a| - 1] + a[|a| - 1 + 1..] == a[..|a| - 1];
  }

  lemma {:induction false} TotalOfPermutation(a: seq<seq<byte>>, b: seq<seq<byte>>)
    requires multiset(a) == multiset(b)
    requires forall i :: 0 <= i < |a| ==> |a[i]| >= 2
    requires forall i :: 0 <= i < |b| ==> |b[i]| >= 2
    ensures Total(a) == Total(b)
    decreases |a|
  {
    hide FromLE, Magnitude;
    if a == [] {
      assert |multiset(b)| == 0;
    } else {
      var k := MatchLast(a, b);
      TotalWithout(b, k);
      TotalOfPermutation(a[..|a| - 1], b[..k] + b[k + 1..]);
    }
  }

  /** SUM over a column of one scale is exact and does not depend on the order of the rows. */
  lemma SumIgnoresOrder(a: seq<seq<byte>>, b: seq<seq<byte>>, scale: nat)
    requires a != [] && multiset(a) == multiset(b) && AtScale(a, scale) && AtScale(b, scale)
    ensures b != [] && Sum(a)[1..] == Sum(b)[1..]
    ensures Magnitude(Sum(a)) == Total(a) && Scale(Sum(a)) == scale
  {
    assert |multiset(a)| == |multiset(b)|;
    TotalOfPermutation(a, b);
    SumIsTotal(a, scale);
    SumIsTotal(b, scale);
    if |a| > 1 {
      SumTail(a, scale);
      SumTail(b, scale);
    } else {
      assert a == [a[0]] && b == [b[0]] && a[0] in multiset(b);
    }
  }

  /** With more than one row the result is the stored total. */
  lemma SumTail(rows: seq<seq<byte>>, scale: nat)
    requires |rows| > 1 && AtScale(rows, scale)
    ensures Sum(rows)[1..] == [scale] + Export(Total(rows))
  {
    hide Export, FromLE;
    var init, last := rows[..|rows| - 1], rows[|rows| - 1];
    SumIsTotal(init, scale);
    var total := Magnitude(Sum(init)) + Magnitude(last);
    assert Sum(rows) == Store(Sum(init)[0], Sum(init)[1], total);
    assert Abs(total) == Total(rows) && scale % 256 == scale;
  }

  // ----- integers -----

  const INT_MAX := 0x7FFF_FFFF

  /** The two's complement value of the low bits. */
  function Wrap(n: nat, half: nat): int
    requires half > 0
  {
    var low := n % (2 * half);
    if low < half then low else low - 2 * half
  }

  /** tsql_cast_int_decimal: as many digits as the magnitude has, and no scale. */
  function CastInt(i: int): (d: seq<byte>)
    ensures |d| >= 2
  {
    Store(|Digits(Abs(i))|, 0, i)
  }

  /** tsql_cast_decimal_int: the magnitude cut to 32 bits; the scale is not looked at. */
  function CastToInt(d: seq<byte>): int
    requires |d| >= 2
  {
    Wrap(Magnitude(d), 0x8000_0000)
  }

  /** tsql_cast_decimal_smallint goes through int8_t. */
  function CastToSmallint(d: seq<byte>): int
    requires |d| >= 2
  {
    Wrap(Magnitude(d), 0x80)
  }

  /** An int survives the way through decimal unless it is negative; only the least int survives by wrapping around. */
  lemma CastIntExact(i: int)
    requires -0x8000_0000 <= i <= INT_MAX
    ensures CastToInt(CastInt(i)) == i <==> i >= 0 || i == -0x8000_0000
  {
    hide Digits, Wrap, FromLE, Export;
    StoredParts(|Digits(Abs(i))|, 0, i);
    WrapSmall(Abs(i), 0x8000_0000);
  }

  lemma WrapSmall(n: nat, half: nat)
    requires half > 0 && n <= half
    ensures n < half ==> Wrap(n, half) == n
    ensures n == half ==> Wrap(n, half) + half == 0
  {
    ModUnique(n, 2 * half, 0, n);
  }

  /** A smallint survives only when it fits in seven bits; the least int8 survives by wrapping around. */
  lemma CastSmallintExact(i: int)
    requires -0x8000 <= i < 0x8000
    ensures CastToSmallint(CastInt(i)) == i <==> 0 <= i < 0x80 || i == -0x80
  {
    StoredParts(|Digits(Abs(i))|, 0, i);
  }

  function EqInt(d: seq<byte>, i: int): bool
    requires |d| >= 2
  {
    if Compare(d, CastInt(i)) == 0 then false else true
  }

  function NeInt(d: seq<byte>, i: int): bool
    requires |d| >= 2
  {
    if Compare(d, CastInt(i)) != 0 then true else false
  }

  /** The operators = and != with an int are declared each other's negator, and are never that. */
  lemma NegatorFails(d: seq<byte>, i: int)
    requires |d| >= 2
    ensures EqInt(d, i) != !NeInt(d, i)
    ensures NeInt(d, i) <==> Magnitude(d) != Abs(i)
  {
    StoredParts(|Digits(Abs(i))|, 0, i);
  }
}
