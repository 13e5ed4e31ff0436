/** The zero-padded names of saved blocks and the order in which they sort. */
module BlockNames {
  import opened Wrappers

  // ---------- strings in lexicographic order ----------

  predicate LexLess(a: string, b: string) {
    if |b| == 0 then false
    else if |a| == 0 then true
    else a[0] < b[0] || (a[0] == b[0] && LexLess(a[1..], b[1..]))
  }

  lemma {:induction false} LexIrreflexive(a: string)
    ensures !LexLess(a, a)
  {
    if |a| > 0 {
      LexIrreflexive(a[1..]);
    }
  }

  lemma {:induction false} LexTransitive(a: string, b: string, c: string)
    requires LexLess(a, b) && LexLess(b, c)
    ensures LexLess(a, c)
  {
    if |a| > 0 && a[0] == b[0] == c[0] {
      LexTransitive(a[1..], b[1..], c[1..]);
    }
  }

  lemma {:induction false} LexTotal(a: string, b: string)
    ensures LexLess(a, b) || a == b || LexLess(b, a)
  {
    if |a| > 0 && |b| > 0 && a[0] == b[0] {
      LexTotal(a[1..], b[1..]);
      assert a == [a[0]] + a[1..] && b == [b[0]] + b[1..];
    }
  }

  lemma {:induction false} LexOfConcat(a: string, b: string, x: string, y: string)
    requires |a| == |b|
    ensures LexLess(a + x, b + y) <==> LexLess(a, b) || (a == b && LexLess(x, y))
  {
    if |a| == 0 {
      assert a + x == x && b + y == y;
    } else {
      LexOfConcat(a[1..], b[1..], x, y);
      assert (a + x)[1..] == a[1..] + x && (b + y)[1..] == b[1..] + y;
      assert a == [a[0]] + a[1..] && b == [b[0]] + b[1..];
    }
  }

  // ---------- decimal notation ----------

  function DigitChar(d: nat): char
    requires d < 10
  {
    ('0' as int + d) as char
  }

  function Decimal(n: nat): (s: string)
    ensures |s| > 0
  {
    if n < 10 then [DigitChar(n)] else Decimal(n / 10) + [DigitChar(n % 10)]
  }

  function Repeat(c: char, n: nat): (s: string)
    ensures |s| == n
  {
    if n == 0 then "" else Repeat(c, n - 1) + [c]
  }

  /** The verb `%010d`. */
  function PaddedDecimal(n: int): string {
    if n >= 0 then
      var s := Decimal(n);
      if |s| < 10 then Repeat('0', 10 - |s|) + s else s
    else
      var s := Decimal(-n);
      "-" + (if |s| < 9 then Repeat('0', 9 - |s|) + s else s)
  }

  function NameOf(a: string, c: string): string {
    "block_" + a + "_" + c
  }

  function BlockName(pieceIdx: int, blockIdx: int): string {
    NameOf(PaddedDecimal(pieceIdx), PaddedDecimal(blockIdx))
  }

  function Pow10(w: nat): nat {
    if w == 0 then 1 else 10 * Pow10(w - 1)
  }

  /** The last `w` decimal digits of `n`. */
  function Digits(n: nat, w: nat): (s: string)
    ensures |s| == w
  {
    if w == 0 then "" else Digits(n / 10, w - 1) + [DigitChar(n % 10)]
  }

  lemma {:induction false} DigitsOrder(m: nat, n: nat, w: nat)
    requires m < Pow10(w) && n < Pow10(w)
    ensures LexLess(Digits(m, w), Digits(n, w)) <==> m < n
    ensures Digits(m, w) == Digits(n, w) <==> m == n
  {
    if w > 0 {
      DigitsOrder(m / 10, n / 10, w - 1);
      var a, b := Digits(m / 10, w - 1), Digits(n / 10, w - 1);
      var x, y := [DigitChar(m % 10)], [DigitChar(n % 10)];
      LexOfConcat(a, b, x, y);
      assert (a + x)[..w - 1] == a && (b + y)[..w - 1] == b;
      assert (a + x)[w - 1] == x[0] && (b + y)[w - 1] == y[0];
      assert LexLess(x, y) <==> m % 10 < n % 10;
    }
  }

  lemma {:induction false} DigitsOfZero(w: nat)
    ensures Digits(0, w) == Repeat('0', w)
  {
    if w > 0 {
      DigitsOfZero(w - 1);
    }
  }

  lemma {:induction false} PaddingMakesDigits(n: nat, w: nat)
    requires w > 0 && n < Pow10(w)
    ensures |Decimal(n)| <= w
    ensures Repeat('0', w - |Decimal(n)|) + Decimal(n) == Digits(n, w)
  {
    if n < 10 {
      DigitsOfZero(w - 1);
    } else {
      assert w > 1 by { assert Pow10(1) == 10 * Pow10(0); }
      PaddingMakesDigits(n / 10, w - 1);
      var zeros := Repeat('0', w - 1 - |Decimal(n / 10)|);
      assert zeros + (Decimal(n / 10) + [DigitChar(n % 10)]) == zeros + Decimal(n / 10) + [DigitChar(n % 10)];
    }
  }

  const INDEX_BOUND := 10_000_000_000

  lemma Pow10Of10()
    ensures Pow10(10) == INDEX_BOUND
  {
    assert Pow10(2) == 100;
    assert Pow10(4) == 10_000;
    assert Pow10(6) == 1_000_000;
    assert Pow10(8) == 100_000_000;
  }

  lemma PaddedIsDigits(n: nat)
    requires n < INDEX_BOUND
    ensures PaddedDecimal(n) == Digits(n, 10)
  {
    Pow10Of10();
    PaddingMakesDigits(n, 10);
    if |Decimal(n)| == 10 {
      assert Repeat('0', 0) + Decimal(n) == Decimal(n);
    }
  }

  /** The number that ten decimal digits stand for. */
  ghost predicate Stands(s: string, n: nat) {
    |s| == 10 && Value(s) == Some(n)
  }

  /** The number that a string of decimal digits stands for. */
  function Value(s: string): Option<nat> {
    if |s| == 0 then Some(0)
    else
      var front, last := Value(s[..|s| - 1]), s[|s| - 1];
      if front.Some? && '0' <= last <= '9' then Some(10 * front.value + (last as int - '0' as int)) else None
  }

  lemma {:induction false} ValueOfDigits(n: nat, w: nat)
    requires n < Pow10(w)
    ensures Value(Digits(n, w)) == Some(n)
  {
    if w > 0 {
      ValueOfDigits(n / 10, w - 1);
      assert Digits(n, w)[..w - 1] == Digits(n / 10, w - 1);
    }
  }

  /** What a name looks like: the word, and both indices with ten digits. */
  lemma NameFormat(p: nat, k: nat)
    requires p < INDEX_BOUND && k < INDEX_BOUND
    ensures var name := BlockName(p, k);
      && |name| == 27 && name[..6] == "block_" && name[16] == '_'
      && Stands(name[6..16], p) && Stands(name[17..], k)
  {
    Pow10Of10();
    PaddedIsDigits(p);
    PaddedIsDigits(k);
    ValueOfDigits(p, 10);
    ValueOfDigits(k, 10);
    PartsOfName(PaddedDecimal(p), PaddedDecimal(k));
  }

  lemma PartsOfName(a: string, c: string)
    requires |a| == 10 && |c| == 10
    ensures var name := NameOf(a, c);
      |name| == 27 && name[..6] == "block_" && name[16] == '_' && name[6..16] == a && name[17..] == c
  {
  }

  lemma NameOrder(a: string, c: string, b: string, d: string)
    requires |a| == |b|
    ensures LexLess(NameOf(a, c), NameOf(b, d)) <==> LexLess(a, b) || (a == b && LexLess(c, d))
  {
    LexOfConcat("block_", "block_", a + ("_" + c), b + ("_" + d));
    LexIrreflexive("block_");
    LexOfConcat(a, b, "_" + c, "_" + d);
    LexOfConcat("_", "_", c, d);
    LexIrreflexive("_");
    assert NameOf(a, c) == "block_" + (a + ("_" + c));
    assert NameOf(b, d) == "block_" + (b + ("_" + d));
  }

  lemma NameIsInjective(a: string, c: string, b: string, d: string)
    requires |a| == |b| && NameOf(a, c) == NameOf(b, d)
    ensures a == b && c == d
  {
    var s, t := NameOf(a, c), NameOf(b, d);
    assert s[6..6 + |a|] == a && t[6..6 + |a|] == b;
    assert s[7 + |a|..] == c && t[7 + |a|..] == d;
  }

  /** Below ten digits the names sort as the pairs of indices do. */
  lemma NamesSortAsIndices(p: nat, k: nat, q: nat, l: nat)
    requires p < INDEX_BOUND && k < INDEX_BOUND && q < INDEX_BOUND && l < INDEX_BOUND
    ensures LexLess(BlockName(p, k), BlockName(q, l)) <==> p < q || (p == q && k < l)
  {
    NumbersSort(p, q);
    NumbersSort(k, l);
    NameOrder(PaddedDecimal(p), PaddedDecimal(k), PaddedDecimal(q), PaddedDecimal(l));
  }

  /** Below ten digits no two blocks share a name. */
  lemma NamesAreDistinct(p: nat, k: nat, q: nat, l: nat)
    requires p < INDEX_BOUND && k < INDEX_BOUND && q < INDEX_BOUND && l < INDEX_BOUND
    ensures BlockName(p, k) == BlockName(q, l) <==> p == q && k == l
  {
    NumbersSort(p, q);
    NumbersSort(k, l);
    if BlockName(p, k) == BlockName(q, l) {
      NameIsInjective(PaddedDecimal(p), PaddedDecimal(k), PaddedDecimal(q), PaddedDecimal(l));
    }
  }

  lemma NumbersSort(p: nat, q: nat)
    requires p < INDEX_BOUND && q < INDEX_BOUND
    ensures |PaddedDecimal(p)| == |PaddedDecimal(q)| == 10
    ensures LexLess(PaddedDecimal(p), PaddedDecimal(q)) <==> p < q
    ensures PaddedDecimal(p) == PaddedDecimal(q) <==> p == q
  {
    Pow10Of10();
    PaddedIsDigits(p);
    PaddedIsDigits(q);
    DigitsOrder(p, q, 10);
  }

  lemma {:induction false} DecimalOfPow10(w: nat)
    ensures Decimal(Pow10(w)) == "1" + Repeat('0', w)
  {
    if w == 0 {
      assert "1" + "" == "1";
    } else {
      DecimalOfPow10(w - 1);
      assert Pow10(w) / 10 == Pow10(w - 1) && Pow10(w) % 10 == 0;
      assert "1" + Repeat('0', w - 1) + ['0'] == "1" + (Repeat('0', w - 1) + ['0']);
    }
  }

  lemma {:induction false} DecimalOfNines(w: nat)
    requires w > 0
    ensures Pow10(w) >= 10
    ensures Decimal(Pow10(w) - 1) == Repeat('9', w)
  {
    if w == 1 {
      assert Pow10(1) == 10 * Pow10(0);
      assert Repeat('9', 1) == Repeat('9', 0) + ['9'];
    } else {
      DecimalOfNines(w - 1);
      assert (Pow10(w) - 1) / 10 == Pow10(w - 1) - 1 && (Pow10(w) - 1) % 10 == 9;
    }
  }

  /** The names of all pieces below a bound sort in numeric order exactly when ten digits are enough for
      all of them: 9999999999 and 10000000000 already come out in the wrong order. */
  lemma NamesSortNumericallyIff(bound: nat)
    ensures (forall p: nat, q: nat | p < bound && q < bound ::
               LexLess(BlockName(p, 0), BlockName(q, 0)) <==> p < q)
       <==> bound <= INDEX_BOUND
  {
    if bound <= INDEX_BOUND {
      forall p: nat, q: nat | p < bound && q < bound
        ensures LexLess(BlockName(p, 0), BlockName(q, 0)) <==> p < q
      {
        NamesSortAsIndices(p, 0, q, 0);
      }
    } else {
      var p, q := INDEX_BOUND - 1, INDEX_BOUND;
      Pow10Of10();
      DecimalOfNines(10);
      DecimalOfPow10(10);
      FirstOfRepeat('9', 10);
      var x, y := BlockName(p, 0)[6..], BlockName(q, 0)[6..];
      LexOfConcat("block_", "block_", x, y);
      LexIrreflexive("block_");
      assert BlockName(p, 0) == "block_" + x && BlockName(q, 0) == "block_" + y;
      assert x[0] == '9' && y[0] == '1';
      assert !LexLess(BlockName(p, 0), BlockName(q, 0));
    }
  }

  lemma {:induction false} FirstOfRepeat(c: char, n: nat)
    requires n > 0
    ensures Repeat(c, n)[0] == c
  {
    if n > 1 {
      FirstOfRepeat(c, n - 1);
    }
  }
}
