/**
 The orders of varbinary and varchar (types/tsql_varbinary.c, types/tsql_varchar.c),
 the six operators and the max aggregate that are built on them.
 */
module Compare {
  import Bytes

  type Data = seq<Bytes.byte>

  function LengthOrder(l: Data, r: Data): int {
    if |l| < |r| then -1 else if |l| > |r| then 1 else 0
  }

  // ----- varbinary -----

  /** memcmp over the first n bytes, as a sign. */
  function MemCmp(l: Data, r: Data, n: nat): int
    requires n <= |l| && n <= |r|
  {
    if n == 0 then 0
    else if l[0] != r[0] then (if l[0] < r[0] then -1 else 1)
    else MemCmp(l[1..], r[1..], n - 1)
  }

  /** varbinary_cmp */
  function BinaryCmp(l: Data, r: Data): int {
    var cmp := MemCmp(l, r, if |l| < |r| then |l| else |r|);
    if cmp < 0 then -1
    else if cmp > 0 then 1
    else if |l| < |r| then -1
    else if |l| > |r| then 1
    else 0
  }

  /** The lexicographic order: a proper prefix, or a smaller byte at the first difference. */
  ghost predicate Before(l: Data, r: Data) {
    exists k: nat :: DiffersAt(l, r, k)
  }

  ghost predicate DiffersAt(l: Data, r: Data, k: nat) {
    && k <= |l| && k < |r|
    && l[..k] == r[..k]
    && (k == |l| || l[k] < r[k])
  }

  lemma BeforeTail(l: Data, r: Data)
    requires l != [] && r != [] && l[0] == r[0]
    ensures Before(l, r) <==> Before(l[1..], r[1..])
  {
    var a, b := l[1..], r[1..];
    if Before(l, r) {
      var k: nat :| DiffersAt(l, r, k);
      assert k > 0;
      assert a[..k - 1] == l[..k][1..] && b[..k - 1] == r[..k][1..];
      assert DiffersAt(a, b, k - 1);
    }
    if Before(a, b) {
      var k: nat :| DiffersAt(a, b, k);
      assert l[..k + 1] == [l[0]] + a[..k] && r[..k + 1] == [r[0]] + b[..k];
      assert DiffersAt(l, r, k + 1);
    }
  }

  lemma CommonHead(l: Data, r: Data, k: nat)
    requires DiffersAt(l, r, k) && l != []
    ensures k == 0 || l[0] == r[0]
  {
    if k > 0 {
      assert l[..k][0] == r[..k][0];
    }
  }

  lemma BeforeHead(l: Data, r: Data)
    requires l != [] && r != [] && l[0] != r[0]
    ensures Before(l, r) <==> l[0] < r[0]
  {
    if Before(l, r) {
      var k: nat :| DiffersAt(l, r, k);
      CommonHead(l, r, k);
    }
    if l[0] < r[0] {
      assert l[..0] == r[..0];
      assert DiffersAt(l, r, 0);
    }
  }

  lemma BeforeEmpty(l: Data, r: Data)
    requires l == [] || r == []
    ensures Before(l, r) <==> |l| < |r|
  {
    if |l| < |r| {
      assert DiffersAt(l, r, 0);
    }
  }

  /** The comparison is the lexicographic order on byte strings, in all three of its results. */
  lemma {:induction false} BinaryCmpIsLexicographic(l: Data, r: Data)
    ensures BinaryCmp(l, r) < 0 <==> Before(l, r)
    ensures BinaryCmp(l, r) > 0 <==> Before(r, l)
    ensures BinaryCmp(l, r) == 0 <==> l == r
    decreases |l|
  {
    if l == [] || r == [] {
      BeforeEmpty(l, r);
      BeforeEmpty(r, l);
    } else if l[0] != r[0] {
      BeforeHead(l, r);
      BeforeHead(r, l);
    } else {
      BeforeTail(l, r);
      BeforeTail(r, l);
      BinaryCmpIsLexicographic(l[1..], r[1..]);
      assert l == [l[0]] + l[1..] && r == [r[0]] + r[1..];
    }
  }

  lemma {:induction false} BinaryAntisymmetric(l: Data, r: Data)
    ensures BinaryCmp(r, l) == -BinaryCmp(l, r)
    decreases |l|
  {
    if l != [] && r != [] && l[0] == r[0] {
      BinaryAntisymmetric(l[1..], r[1..]);
    }
  }

  lemma {:induction false} BinaryTransitive(a: Data, b: Data, c: Data)
    requires BinaryCmp(a, b) <= 0 && BinaryCmp(b, c) <= 0
    ensures BinaryCmp(a, c) <= 0
    ensures BinaryCmp(a, c) == 0 ==> BinaryCmp(a, b) == 0 && BinaryCmp(b, c) == 0
    decreases |a|
  {
    if a != [] && b != [] && c != [] && a[0] == b[0] == c[0] {
      BinaryTransitive(a[1..], b[1..], c[1..]);
    }
  }

  // ----- varchar -----

  /** tolower of the C locale. */
  function FoldByte(b: Bytes.byte): Bytes.byte {
    if 'A' as int <= b <= 'Z' as int then b + 32 else b
  }

  /** strncasecmp: folded bytes, up to a NUL. */
  function StrNCaseCmp(l: Data, r: Data, n: nat): int
    requires n <= |l| && n <= |r|
  {
    if n == 0 then 0
    else if FoldByte(l[0]) != FoldByte(r[0]) then FoldByte(l[0]) - FoldByte(r[0])
    else if l[0] == 0 then 0
    else StrNCaseCmp(l[1..], r[1..], n - 1)
  }

  /** varchar_cmp */
  function TextCmp(l: Data, r: Data): int {
    var cmp := StrNCaseCmp(l, r, if |l| < |r| then |l| else |r|);
    if cmp < 0 then -1
    else if cmp > 0 then 1
    else if |l| < |r| then -1
    else if |l| > |r| then 1
    else 0
  }

  /** What it looks at: the folded bytes through the first NUL. */
  function Key(s: Data): Data {
    if s == [] then []
    else if s[0] == 0 then [0]
    else [FoldByte(s[0])] + Key(s[1..])
  }

  predicate NulFree(s: Data) {
    forall i :: 0 <= i < |s| ==> s[i] != 0
  }

  lemma FoldNul(b: Bytes.byte)
    ensures FoldByte(b) == 0 <==> b == 0
  {
  }

  lemma KeyStep(s: Data)
    requires s != []
    ensures Key(s) != [] && Key(s)[0] == FoldByte(s[0])
    ensures s[0] != 0 ==> Key(s)[1..] == Key(s[1..])
  {
  }

  /** The order is that of the keys, and then that of the lengths. */
  lemma {:induction false} TextCmpByKey(l: Data, r: Data)
    ensures var keys := BinaryCmp(Key(l), Key(r));
            TextCmp(l, r) == if keys != 0 then keys else LengthOrder(l, r)
    decreases |l|
  {
    if l != [] && r != [] {
      KeyStep(l);
      KeyStep(r);
      FoldNul(l[0]);
      FoldNul(r[0]);
      if FoldByte(l[0]) == FoldByte(r[0]) && l[0] != 0 {
        TextCmpByKey(l[1..], r[1..]);
      }
    }
  }

  /** Ties are equal keys of equal length. */
  lemma TextTies(l: Data, r: Data)
    ensures TextCmp(l, r) == 0 <==> |l| == |r| && Key(l) == Key(r)
  {
    TextCmpByKey(l, r);
    BinaryCmpIsLexicographic(Key(l), Key(r));
  }

  /** Two codes of one letter: 'A' to 'Z' are 65 to 90, and each small letter is 32 behind its capital. */
  predicate SameLetter(a: Bytes.byte, b: Bytes.byte) {
    a == b || (65 <= a <= 90 && b == a + 32) || (65 <= b <= 90 && a == b + 32)
  }

  /** Of two bytes that are not one letter, the first in order; a capital stands where its small letter does. */
  predicate Precedes(a: Bytes.byte, b: Bytes.byte) {
    var x := if 65 <= a <= 90 then a + 32 else a;
    var y := if 65 <= b <= 90 then b + 32 else b;
    x < y
  }

  ghost predicate SameSpelling(l: Data, r: Data) {
    |l| == |r| && forall i :: 0 <= i < |l| ==> SameLetter(l[i], r[i])
  }

  /** Up to k both have the same letters and no NUL; the comparison stops there. */
  ghost predicate StopsAt(l: Data, r: Data, k: nat) {
    && k <= |l| && k <= |r|
    && (forall i :: 0 <= i < k ==> SameLetter(l[i], r[i]) && l[i] != 0)
    && (k == |l| || k == |r| || !SameLetter(l[k], r[k]) || l[k] == 0)
  }

  lemma {:induction false} SomeStop(l: Data, r: Data) returns (k: nat)
    ensures StopsAt(l, r, k)
  {
    if l == [] || r == [] || !SameLetter(l[0], r[0]) || l[0] == 0 {
      k := 0;
    } else {
      var j := SomeStop(l[1..], r[1..]);
      k := j + 1;
      forall i | 0 <= i < k
        ensures SameLetter(l[i], r[i]) && l[i] != 0
      {
        if i > 0 {
          assert l[i] == l[1..][i - 1] && r[i] == r[1..][i - 1];
        }
      }
    }
  }

  /**
   The place where the comparison stops decides: two different letters there by their
   order; otherwise, at the end of one string or at a NUL in both, the lengths.
   */
  lemma {:induction false} TextCmpExact(l: Data, r: Data, k: nat)
    requires StopsAt(l, r, k)
    ensures if k < |l| && k < |r| && !SameLetter(l[k], r[k])
            then TextCmp(l, r) == if Precedes(l[k], r[k]) then -1 else 1
            else TextCmp(l, r) == LengthOrder(l, r)
  {
    if k > 0 {
      var a, b := l[1..], r[1..];
      forall i | 0 <= i < k - 1
        ensures SameLetter(a[i], b[i]) && a[i] != 0
      {
        assert a[i] == l[i + 1] && b[i] == r[i + 1];
      }
      TextCmpExact(a, b, k - 1);
      assert SameLetter(l[0], r[0]) && l[0] != 0;
      assert TextCmp(l, r) == TextCmp(a, b);
    }
  }

  /** Without NUL bytes ties are equality up to the case of letters. */
  lemma TextTiesNulFree(l: Data, r: Data)
    requires NulFree(l) && NulFree(r)
    ensures TextCmp(l, r) == 0 <==> SameSpelling(l, r)
  {
    var k := SomeStop(l, r);
    TextCmpExact(l, r, k);
  }

  /** What follows a NUL is not compared at all: only the lengths are. */
  lemma NulHides(s: Data, x: Data, y: Data)
    requires NulFree(s)
    ensures TextCmp(s + [0] + x, s + [0] + y) == if |x| < |y| then -1 else if |x| > |y| then 1 else 0
  {
    var l, r := s + [0] + x, s + [0] + y;
    assert l[|s|] == 0 && r[|s|] == 0;
    assert StopsAt(l, r, |s|);
    TextCmpExact(l, r, |s|);
  }

  lemma TextAntisymmetric(l: Data, r: Data)
    ensures TextCmp(r, l) == -TextCmp(l, r)
  {
    TextCmpByKey(l, r);
    TextCmpByKey(r, l);
    BinaryAntisymmetric(Key(l), Key(r));
  }

  lemma TextTransitive(a: Data, b: Data, c: Data)
    requires TextCmp(a, b) <= 0 && TextCmp(b, c) <= 0
    ensures TextCmp(a, c) <= 0
    ensures TextCmp(a, c) == 0 ==> TextCmp(a, b) == 0 && TextCmp(b, c) == 0
  {
    TextCmpByKey(a, b);
    TextCmpByKey(b, c);
    TextCmpByKey(a, c);
    BinaryTransitive(Key(a), Key(b), Key(c));
  }

  // ----- operator classes -----

  datatype Kind = Binary | Varchar

  function Cmp(k: Kind, l: Data, r: Data): int {
    if k.Binary? then BinaryCmp(l, r) else TextCmp(l, r)
  }

  /** The laws of a b-tree operator class: a total preorder. */
  lemma OrderLaws(k: Kind, a: Data, b: Data, c: Data)
    ensures -1 <= Cmp(k, a, b) <= 1 && Cmp(k, a, a) == 0
    ensures Cmp(k, b, a) == -Cmp(k, a, b)
    ensures Cmp(k, a, b) <= 0 && Cmp(k, b, c) <= 0 ==> Cmp(k, a, c) <= 0
    ensures Cmp(k, a, b) < 0 && Cmp(k, b, c) <= 0 ==> Cmp(k, a, c) < 0
    ensures Cmp(k, a, b) <= 0 && Cmp(k, b, c) < 0 ==> Cmp(k, a, c) < 0
  {
    BinaryAntisymmetric(a, b);
    BinaryAntisymmetric(a, a);
    TextAntisymmetric(a, b);
    TextAntisymmetric(a, a);
    if Cmp(k, a, b) <= 0 && Cmp(k, b, c) <= 0 {
      if k.Binary? {
        BinaryTransitive(a, b, c);
      } else {
        TextTransitive(a, b, c);
      }
    }
  }

  function Eq(k: Kind, l: Data, r: Data): bool { if Cmp(k, l, r) == 0 then true else false }

  function Ne(k: Kind, l: Data, r: Data): bool { if Cmp(k, l, r) != 0 then true else false }

  function Lt(k: Kind, l: Data, r: Data): bool { if Cmp(k, l, r) < 0 then true else false }

  function Le(k: Kind, l: Data, r: Data): bool { if Cmp(k, l, r) <= 0 then true else false }

  function Gt(k: Kind, l: Data, r: Data): bool { if Cmp(k, l, r) > 0 then true else false }

  function Ge(k: Kind, l: Data, r: Data): bool { if Cmp(k, l, r) >= 0 then true else false }

  /** Every declared COMMUTATOR and NEGATOR. */
  lemma Operators(k: Kind, l: Data, r: Data)
    ensures Eq(k, l, r) == Eq(k, r, l) && Ne(k, l, r) == Ne(k, r, l)
    ensures Lt(k, l, r) == Gt(k, r, l) && Le(k, l, r) == Ge(k, r, l)
    ensures Eq(k, l, r) == !Ne(k, l, r) && Lt(k, l, r) == !Ge(k, l, r) && Gt(k, l, r) == !Le(k, l, r)
  {
    OrderLaws(k, l, r, l);
  }

  /** What the operators of varbinary mean; <=, >= and <> are their negations by Operators. */
  lemma BinaryOperators(l: Data, r: Data)
    ensures Eq(Binary, l, r) <==> l == r
    ensures Lt(Binary, l, r) <==> Before(l, r)
    ensures Gt(Binary, l, r) <==> Before(r, l)
  {
    BinaryCmpIsLexicographic(l, r);
  }

  /** And those of varchar without NUL, k being where the letters first differ or one string ends. */
  lemma TextOperators(l: Data, r: Data, k: nat)
    requires NulFree(l) && NulFree(r) && StopsAt(l, r, k)
    ensures Eq(Varchar, l, r) <==> SameSpelling(l, r)
    ensures Lt(Varchar, l, r) <==> k < |r| && (k == |l| || Precedes(l[k], r[k]))
    ensures Gt(Varchar, l, r) <==> k < |l| && (k == |r| || Precedes(r[k], l[k]))
  {
    TextTiesNulFree(l, r);
    TextCmpExact(l, r, k);
  }

  // ----- max -----

  function Max(k: Kind, l: Data, r: Data): Data {
    if Cmp(k, r, l) > 0 then r else l
  }

  /** The aggregate: the first row is the state, and Max takes every other row to it. */
  function MaxOf(k: Kind, rows: seq<Data>): Data
    requires rows != []
  {
    if |rows| == 1 then rows[0] else Max(k, MaxOf(k, rows[..|rows| - 1]), rows[|rows| - 1])
  }

  /** One of the rows, and no row is greater. */
  ghost predicate IsMax(k: Kind, rows: seq<Data>, m: Data) {
    m in rows && forall i :: 0 <= i < |rows| ==> Cmp(k, rows[i], m) <= 0
  }

  lemma {:induction false} MaxOfIsMax(k: Kind, rows: seq<Data>)
    requires rows != []
    ensures IsMax(k, rows, MaxOf(k, rows))
  {
    hide Cmp;
    if |rows| == 1 {
      OrderLaws(k, rows[0], rows[0], rows[0]);
    } else {
      var init, last := rows[..|rows| - 1], rows[|rows| - 1];
      MaxOfIsMax(k, init);
      var m := MaxOf(k, init);
      OrderLaws(k, m, last, last);
      OrderLaws(k, last, last, last);
      forall i | 0 <= i < |rows|
        ensures Cmp(k, rows[i], MaxOf(k, rows)) <= 0
      {
        if i < |init| {
          assert rows[i] == init[i];
          OrderLaws(k, init[i], m, last);
        }
      }
    }
  }

  /** Folding max over the same rows in another order gives a tie; for varbinary, the same bytes. */
  lemma MaxIgnoresOrder(k: Kind, a: seq<Data>, b: seq<Data>)
    requires a != [] && multiset(a) == multiset(b)
    ensures b != [] && Cmp(k, MaxOf(k, a), MaxOf(k, b)) == 0
    ensures k.Binary? ==> MaxOf(k, a) == MaxOf(k, b)
  {
    hide Cmp, MaxOf;
    assert |multiset(a)| == |multiset(b)|;
    MaxOfIsMax(k, a);
    MaxOfIsMax(k, b);
    var m, n := MaxOf(k, a), MaxOf(k, b);
    assert m in multiset(b) && n in multiset(a);
    OrderLaws(k, m, n, m);
    if k.Binary? {
      TieIsEqual(m, n);
    }
  }

  lemma TieIsEqual(l: Data, r: Data)
    requires Cmp(Binary, l, r) == 0
    ensures l == r
  {
    BinaryCmpIsLexicographic(l, r);
  }

  /** For varchar the order of the rows can be seen: of two spellings the first one stays. */
  lemma MaxOfSpellings(l: Data, r: Data)
    requires NulFree(l) && NulFree(r) && SameSpelling(l, r)
    ensures MaxOf(Varchar, [l, r]) == l && MaxOf(Varchar, [r, l]) == r
  {
    TextTiesNulFree(l, r);
    TextTiesNulFree(r, l);
    assert [l, r][..1] == [l] && [r, l][..1] == [r];
  }

  // ----- concatenation -----

  function Repeat(w: Data, n: nat): Data {
    if n == 0 then [] else w + Repeat(w, n - 1)
  }

  lemma {:induction false} RepeatJoin(w: Data, m: nat, n: nat)
    ensures Repeat(w, m) + Repeat(w, n) == Repeat(w, m + n)
  {
    if m == 0 {
      assert [] + Repeat(w, n) == Repeat(w, n);
    } else {
      RepeatJoin(w, m - 1, n);
      Bytes.Assoc(w, Repeat(w, m - 1), Repeat(w, n));
    }
  }

  ghost predicate OneRoot(l: Data, r: Data) {
    exists w, m: nat, n: nat :: l == Repeat(w, m) && r == Repeat(w, n)
  }

  /** The operator + joins two strings and is declared its own commutator; it is that only on repeats of one string. */
  lemma {:induction false} PlusCommutes(l: Data, r: Data)
    ensures l + r == r + l <==> OneRoot(l, r)
    decreases |l| + |r|
  {
    if OneRoot(l, r) {
      var w, m: nat, n: nat :| l == Repeat(w, m) && r == Repeat(w, n);
      RepeatJoin(w, m, n);
      RepeatJoin(w, n, m);
    }
    if l + r == r + l {
      CommonRoot(l, r);
    }
  }

  lemma {:induction false} CommonRoot(l: Data, r: Data)
    requires l + r == r + l
    ensures OneRoot(l, r)
    decreases |l| + |r|, |r|
  {
    if r == [] {
      assert l + Repeat(l, 0) == l;
      assert l == Repeat(l, 1) && r == Repeat(l, 0);
    } else if |l| < |r| {
      CommonRoot2(l, r);
    } else {
      CommonRoot2(r, l);
    }
  }

  /** The shorter one is a prefix of the longer one; the rest of that commutes with it too. */
  lemma {:induction false} CommonRoot2(short: Data, long: Data)
    requires short + long == long + short && |short| <= |long|
    ensures OneRoot(short, long) && OneRoot(long, short)
    decreases |short| + |long|, 0
  {
    if short == [] {
      assert long + Repeat(long, 0) == long;
      assert long == Repeat(long, 1) && short == Repeat(long, 0);
    } else {
      var rest := long[|short|..];
      assert (short + long)[..|short|] == (long + short)[..|short|];
      assert long == short + rest;
      Bytes.Assoc(short, rest, short);
      assert (short + long)[|short|..] == long && (short + (rest + short))[|short|..] == rest + short;
      CommonRoot(short, rest);
      var w, m: nat, n: nat :| short == Repeat(w, m) && rest == Repeat(w, n);
      RepeatJoin(w, m, n);
      assert long == Repeat(w, m + n);
    }
  }
}
