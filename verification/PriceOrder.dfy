/**
 `sortLevels` compares prices as strings. This module says what that means for the numbers they spell:
 when string order is numeric order, exactly, for decimals with any number of places, padded or not.
 */
module PriceOrder {
  import opened StringOrder
  import opened Levels
  import OrderBook

  predicate IsDigits(s: string)
  {
    forall i :: 0 <= i < |s| ==> '0' <= s[i] <= '9'
  }

  function Digit(c: char): nat
    requires '0' <= c <= '9'
  {
    c as int - '0' as int
  }

  /** A decimal as printed: digits, then optionally a point and more digits. */
  datatype Decimal = Decimal(whole: string, fraction: string)
  {
    predicate WellFormed()
    {
      IsDigits(whole) && whole != "" && IsDigits(fraction)
    }

    /** No needless zero in front. Zeros at the end are allowed. */
    predicate Canonical()
    {
      WellFormed() && (|whole| > 1 ==> whole[0] != '0')
    }

    function Print(): string
    {
      if fraction == "" then whole else whole + "." + fraction
    }

    function Value(): real
      requires WellFormed()
    {
      WholeValue(whole) as real + FractionValue(fraction)
    }
  }

  function WholeValue(s: string): nat
    requires IsDigits(s)
  {
    if s == "" then 0 else Digit(s[0]) * Power10(|s| - 1) + WholeValue(s[1..])
  }

  function Power10(n: nat): (p: nat)
    ensures p >= 1
  {
    if n == 0 then 1 else 10 * Power10(n - 1)
  }

  function FractionValue(s: string): (v: real)
    requires IsDigits(s)
    ensures 0.0 <= v < 1.0
  {
    if s == "" then 0.0 else (Digit(s[0]) as real + FractionValue(s[1..])) / 10.0
  }

  lemma {:induction false} WholeValueBound(s: string)
    requires IsDigits(s)
    ensures WholeValue(s) < Power10(|s|)
  {
    if s != "" {
      WholeValueBound(s[1..]);
      LeadingDigitWins(Digit(s[0]), 10, Power10(|s| - 1));
    }
  }

  /** Digit strings of one length: string order is numeric order. */
  lemma {:induction false} SameLengthDigits(a: string, b: string)
    requires IsDigits(a) && IsDigits(b) && |a| == |b|
    ensures Less(a, b) <==> WholeValue(a) < WholeValue(b)
    ensures a == b <==> WholeValue(a) == WholeValue(b)
  {
    if a != "" {
      var p := Power10(|a| - 1);
      SameLengthDigits(a[1..], b[1..]);
      WholeValueBound(a[1..]);
      WholeValueBound(b[1..]);
      if Digit(a[0]) < Digit(b[0]) {
        LeadingDigitWins(Digit(a[0]), Digit(b[0]), p);
      } else if Digit(b[0]) < Digit(a[0]) {
        LeadingDigitWins(Digit(b[0]), Digit(a[0]), p);
      } else {
        assert a[0] == b[0];
        assert a == [a[0]] + a[1..] && b == [b[0]] + b[1..];
      }
    }
  }

  lemma {:induction false} LeadingDigitWins(d: nat, e: nat, p: nat)
    requires d < e
    ensures d * p + p <= e * p
    decreases e
  {
    assert e * p == (e - 1) * p + p;
    if d < e - 1 {
      LeadingDigitWins(d, e - 1, p);
    }
  }

  /** Fractions of any lengths: string order is by value, and of equal values the shorter comes first. */
  lemma {:induction false} Fractions(a: string, b: string)
    requires IsDigits(a) && IsDigits(b)
    ensures Less(a, b) <==> FractionValue(a) < FractionValue(b) || (FractionValue(a) == FractionValue(b) && |a| < |b|)
    decreases |a| + |b|
  {
    if a != "" && b != "" {
      Fractions(a[1..], b[1..]);
      FirstDigit(Digit(a[0]), Digit(b[0]), FractionValue(a[1..]), FractionValue(b[1..]));
    }
  }

  lemma FirstDigit(d: nat, e: nat, x: real, y: real)
    requires 0.0 <= x < 1.0 && 0.0 <= y < 1.0
    ensures (d as real + x) / 10.0 < (e as real + y) / 10.0 <==> d < e || (d == e && x < y)
    ensures (d as real + x) / 10.0 == (e as real + y) / 10.0 <==> d == e && x == y
  {
  }

  lemma {:induction false} LessPrefix(p: string, a: string, b: string)
    ensures Less(p + a, p + b) <==> Less(a, b)
  {
    if p == "" {
      assert p + a == a && p + b == b;
    } else {
      LessPrefix(p[1..], a, b);
      assert (p + a)[1..] == p[1..] + a && (p + b)[1..] == p[1..] + b;
    }
  }

  /** Different strings of one length decide the comparison, whatever follows them. */
  lemma {:induction false} LessHeads(p: string, q: string, a: string, b: string)
    requires |p| == |q| && p != q
    ensures Less(p + a, q + b) <==> Less(p, q)
  {
    assert p == [p[0]] + p[1..] && q == [q[0]] + q[1..];
    if p[0] == q[0] {
      LessHeads(p[1..], q[1..], a, b);
    }
    assert (p + a)[1..] == p[1..] + a && (q + b)[1..] == q[1..] + b;
  }

  function Tail(d: Decimal): string
  {
    if d.fraction == "" then "" else "." + d.fraction
  }

  /** The order of the numbers; of two prints of one number, the shorter counts as smaller. */
  predicate Below(a: Decimal, b: Decimal)
    requires a.WellFormed() && b.WellFormed()
  {
    a.Value() < b.Value() || (a.Value() == b.Value() && |a.fraction| < |b.fraction|)
  }

  /** Whole parts of one width, zeros in front included: string order is numeric order. */
  lemma SameWidth(a: Decimal, b: Decimal)
    requires a.WellFormed() && b.WellFormed() && |a.whole| == |b.whole|
    ensures Less(a.Print(), b.Print()) <==> Below(a, b)
  {
    SameLengthDigits(a.whole, b.whole);
    assert a.Print() == a.whole + Tail(a) && b.Print() == b.whole + Tail(b);
    if a.whole == b.whole {
      Fractions(a.fraction, b.fraction);
      LessPrefix(a.whole, Tail(a), Tail(b));
      if a.fraction != "" && b.fraction != "" {
        LessPrefix(".", a.fraction, b.fraction);
      }
    } else {
      LessHeads(a.whole, b.whole, Tail(a), Tail(b));
    }
  }

  /** Prices of one shape, such as "50000.10" and "50000.25": string order is the order of the numbers. */
  lemma FixedShape(a: Decimal, b: Decimal)
    requires a.WellFormed() && b.WellFormed() && |a.whole| == |b.whole| && |a.fraction| == |b.fraction|
    ensures Less(a.Print(), b.Print()) <==> a.Value() < b.Value()
    ensures a.Print() == b.Print() <==> a.Value() == b.Value()
  {
    SameWidth(a, b);
    SameWidth(b, a);
    LessTrichotomy(a.Print(), b.Print());
  }

  /** The wider whole part is the larger number. */
  lemma WiderIsLarger(a: Decimal, b: Decimal)
    requires a.Canonical() && b.Canonical() && |a.whole| < |b.whole|
    ensures a.Value() < b.Value()
  {
    WholeValueBound(a.whole);
    PowerMonotone(|a.whole|, |b.whole| - 1);
    var p := Power10(|b.whole| - 1);
    LeadingDigitWins(0, Digit(b.whole[0]), p);
  }

  lemma {:induction false} PowerMonotone(m: nat, n: nat)
    requires m <= n
    ensures Power10(m) <= Power10(n)
  {
    if m < n {
      PowerMonotone(m, n - 1);
    }
  }

  /**
   Whole parts of different widths: the string order is the numeric order exactly when the shorter whole
   part does not exceed the leading digits of the longer one.
   */
  lemma DifferentWidth(a: Decimal, b: Decimal)
    requires a.Canonical() && b.Canonical() && |a.whole| < |b.whole|
    ensures Less(a.Print(), b.Print()) <==> WholeValue(a.whole) <= WholeValue(b.whole[..|a.whole|])
    ensures a.Print() != b.Print()
  {
    var w := |a.whole|;
    var head, rest := b.whole[..w], b.whole[w..] + Tail(b);
    assert b.whole == head + b.whole[w..];
    assert a.Print() == a.whole + Tail(a) && b.Print() == head + rest;
    SameLengthDigits(a.whole, head);
    if a.whole == head {
      LessPrefix(head, Tail(a), rest);
      assert rest[0] == b.whole[w];
      assert a.Print() == b.Print() ==> Tail(a) == rest by {
        assert a.Print()[w..] == Tail(a) && b.Print()[w..] == rest;
      }
    } else {
      LessHeads(a.whole, head, Tail(a), rest);
      assert a.Print()[..w] == a.whole && b.Print()[..w] == head;
    }
  }

  /** If shorter, the whole part of `a` does not exceed the leading digits of that of `b`. */
  predicate LeadsWell(a: Decimal, b: Decimal)
    requires a.WellFormed() && b.WellFormed()
  {
    |a.whole| < |b.whole| ==> WholeValue(a.whole) <= WholeValue(b.whole[..|a.whole|])
  }

  /** For two prices the comparison made and the comparison meant agree exactly under `LeadsWell`. */
  lemma AgreementExact(a: Decimal, b: Decimal)
    requires a.Canonical() && b.Canonical()
    ensures (Less(a.Print(), b.Print()) <==> Below(a, b)) <==> (LeadsWell(a, b) && LeadsWell(b, a))
  {
    if |a.whole| == |b.whole| {
      SameWidth(a, b);
    } else if |a.whole| < |b.whole| {
      WiderIsLarger(a, b);
      DifferentWidth(a, b);
    } else {
      WiderIsLarger(b, a);
      DifferentWidth(b, a);
      LessTrichotomy(a.Print(), b.Print());
    }
  }

  // ---- What spells zero ----

  predicate AllZeros(s: string)
  {
    forall i :: 0 <= i < |s| ==> s[i] == '0'
  }

  lemma {:induction false} ZeroDigits(s: string)
    requires IsDigits(s)
    ensures WholeValue(s) == 0 <==> AllZeros(s)
    ensures FractionValue(s) == 0.0 <==> AllZeros(s)
  {
    if s != "" {
      ZeroDigits(s[1..]);
      assert AllZeros(s) <==> s[0] == '0' && AllZeros(s[1..]) by {
        assert forall i :: 0 <= i < |s| - 1 ==> s[1..][i] == s[i + 1];
        assert forall i :: 0 < i < |s| ==> s[i] == s[1..][i - 1];
      }
      if s[0] != '0' {
        LeadingDigitWins(0, Digit(s[0]), Power10(|s| - 1));
      }
    }
  }

  /** The spellings of zero are the decimals whose value is zero. */
  lemma SpellsZeroExact(d: Decimal)
    requires d.WellFormed()
    ensures OrderBook.SpellsZero(d.Print()) <==> d.Value() == 0.0
  {
    ZeroDigits(d.whole);
    ZeroDigits(d.fraction);
    var s := d.Print();
    assert d.Value() == 0.0 <==> AllZeros(d.whole) && AllZeros(d.fraction);
    if OrderBook.SpellsZero(s) {
      assert forall i :: 0 <= i < |d.whole| ==> d.whole[i] == s[i];
      assert forall i :: 0 <= i < |d.fraction| ==> d.fraction[i] == s[|d.whole| + 1 + i];
    }
  }

  // ---- A whole side of a book ----

  type Price = d: Decimal | d.WellFormed() witness Decimal("0", "")

  /** Every price of the side is the print of its decimal. */
  ghost predicate Prices(m: Side, price: map<string, Price>)
  {
    && m.Keys <= price.Keys
    && forall k :: k in m ==> price[k].Print() == k
  }

  ghost predicate NoZeroInFront(m: Side, price: map<string, Price>)
    requires Prices(m, price)
  {
    forall k :: k in m ==> price[k].Canonical()
  }

  /** `a` belongs before `b` by value. */
  predicate ValueBefore(a: Price, b: Price, descending: bool)
  {
    if descending then Below(b, a) else Below(a, b)
  }

  /** `k` belongs before `l` by the values they spell. */
  predicate ByValue(k: string, l: string, price: map<string, Price>, descending: bool)
  {
    k in price && l in price && ValueBefore(price[k], price[l], descending)
  }

  ghost predicate NumericallyRanked(s: seq<Level>, price: map<string, Price>, descending: bool)
  {
    forall p, q :: 0 <= p < q < |s| ==> ByValue(s[p].price, s[q].price, price, descending)
  }

  lemma RespectsBothWays(a: Price, b: Price, descending: bool)
    requires a.Canonical() && b.Canonical()
    ensures (LeadsWell(a, b) && LeadsWell(b, a))
            <==> ((Before(a.Print(), b.Print(), descending) ==> ValueBefore(a, b, descending))
                  && (Before(b.Print(), a.Print(), descending) ==> ValueBefore(b, a, descending)))
  {
    AgreementExact(a, b);
    AgreementExact(b, a);
    BeforeTotal(a.Print(), b.Print(), descending);
    if |a.whole| == |b.whole| {
      SameWidth(a, b);
    } else if |a.whole| < |b.whole| {
      WiderIsLarger(a, b);
      DifferentWidth(a, b);
    } else {
      WiderIsLarger(b, a);
      DifferentWidth(b, a);
    }
  }

  /** The whole part of `k`, if shorter, does not exceed the leading digits of `l`. */
  predicate LeadsWellIn(k: string, l: string, price: map<string, Price>)
  {
    k in price && l in price && LeadsWell(price[k], price[l])
  }

  predicate Respects(k: string, l: string, price: map<string, Price>, descending: bool)
  {
    Before(k, l, descending) ==> ByValue(k, l, price, descending)
  }

  lemma RespectsExact(k: string, l: string, price: map<string, Price>, descending: bool)
    requires k in price && l in price && price[k].Print() == k && price[l].Print() == l
    requires price[k].Canonical() && price[l].Canonical()
    ensures (LeadsWellIn(k, l, price) && LeadsWellIn(l, k, price))
            <==> (Respects(k, l, price, descending) && Respects(l, k, price, descending))
  {
    RespectsBothWays(price[k], price[l], descending);
  }

  lemma PairwiseExact(m: Side, price: map<string, Price>, descending: bool)
    requires Prices(m, price) && NoZeroInFront(m, price)
    ensures (forall k, l :: k in m && l in m ==> LeadsWellIn(k, l, price))
            <==> (forall k, l :: k in m && l in m ==> Respects(k, l, price, descending))
  {
    forall k, l | k in m && l in m
      ensures (LeadsWellIn(k, l, price) && LeadsWellIn(l, k, price))
              <==> (Respects(k, l, price, descending) && Respects(l, k, price, descending))
    {
      RespectsExact(k, l, price, descending);
    }
  }

  lemma RankedIffRespects(m: Side, price: map<string, Price>, descending: bool)
    ensures NumericallyRanked(Ranking(m, descending), price, descending)
            <==> forall k, l :: k in m && l in m ==> Respects(k, l, price, descending)
  {
    var r := (k, l) => ByValue(k, l, price, descending);
    RankingPairs(m, descending, r);
    var s := Ranking(m, descending);
    assert NumericallyRanked(s, price, descending) <==> forall p, q :: 0 <= p < q < |s| ==> r(s[p].price, s[q].price);
    if forall k, l :: k in m && l in m ==> Respects(k, l, price, descending) {
      forall k, l | k in m && l in m && Before(k, l, descending)
        ensures r(k, l)
      {
        assert Respects(k, l, price, descending);
      }
    }
  }

  /**
   The ranking sent downstream is the numeric one (highest bid first, lowest ask first) exactly when no
   price of the side has a whole part above the leading digits of a wider one.
   */
  lemma NumericRankingExact(m: Side, price: map<string, Price>, descending: bool)
    requires Prices(m, price) && NoZeroInFront(m, price)
    ensures NumericallyRanked(Ranking(m, descending), price, descending)
            <==> forall k, l :: k in m && l in m ==> LeadsWellIn(k, l, price)
  {
    RankedIffRespects(m, price, descending);
    PairwiseExact(m, price, descending);
  }

  /** One width for all whole parts is enough, with or without zeros in front. */
  lemma OneWidthSuffices(m: Side, price: map<string, Price>, width: nat, descending: bool)
    requires Prices(m, price) && forall k :: k in m ==> |price[k].whole| == width
    ensures NumericallyRanked(Ranking(m, descending), price, descending)
  {
    forall k, l | k in m && l in m
      ensures Respects(k, l, price, descending)
    {
      SameWidth(price[k], price[l]);
      SameWidth(price[l], price[k]);
    }
    RankedIffRespects(m, price, descending);
  }

  /** All prices have the same length and the point in the same place. */
  ghost predicate OneShape(m: Side, price: map<string, Price>, width: nat, places: nat)
  {
    Prices(m, price) && forall k :: k in m ==> |price[k].whole| == width && |price[k].fraction| == places
  }

  /** `a` is strictly better than `b`: a higher bid, a lower ask. */
  predicate Better(k: string, l: string, price: map<string, Price>, descending: bool)
  {
    && k in price && l in price
    && if descending then price[k].Value() > price[l].Value() else price[k].Value() < price[l].Value()
  }

  /** For prices of one fixed shape, each level returned is strictly better than every one after it. */
  lemma FixedShapeRanking(m: Side, price: map<string, Price>, width: nat, places: nat, descending: bool)
    requires OneShape(m, price, width, places)
    ensures var s := Ranking(m, descending);
            forall p, q :: 0 <= p < q < |s| ==> Better(s[p].price, s[q].price, price, descending)
  {
    forall k, l | k in m && l in m && Before(k, l, descending)
      ensures Better(k, l, price, descending)
    {
      FixedShape(price[k], price[l]);
      FixedShape(price[l], price[k]);
    }
    RankingPairs(m, descending, (k, l) => Better(k, l, price, descending));
  }

  // ---- The levels shown ----

  /** The side's prices are decimals without a zero in front that rank by value: the exact condition above. */
  ghost predicate Numeric(m: Side, price: map<string, Price>)
  {
    Prices(m, price) && NoZeroInFront(m, price) && forall k, l :: k in m && l in m ==> LeadsWellIn(k, l, price)
  }

  /** The list has `n` or all levels of the side, in order of value, and none left out is better. */
  ghost predicate BestByValue(top: seq<Level>, m: Side, price: map<string, Price>, descending: bool, n: nat)
  {
    && |top| == (if |m| > n then n else |m|)
    && NumericallyRanked(top, price, descending)
    && (forall x :: x in top ==> x.price in m && m[x.price] == x.size)
    && (forall x, k :: x in top && k in m && Level(k, m[k]) !in top ==> ByValue(x.price, k, price, descending))
  }

  /** What is shown of such a side are its best levels by value. */
  lemma ShownBestByValue(m: Side, price: map<string, Price>, descending: bool, n: nat)
    requires Numeric(m, price)
    ensures BestByValue(TopLevels(m, descending, n), m, price, descending, n)
  {
    var top := TopLevels(m, descending, n);
    NumericRankingExact(m, price, descending);
    RankedIffRespects(m, price, descending);
    TopLevelsAreBest(m, descending, n);
    forall x, k | x in top && k in m && Level(k, m[k]) !in top
      ensures ByValue(x.price, k, price, descending)
    {
      assert Respects(x.price, k, price, descending);
    }
  }

  /** And without it the best bid shown can be the worst: 9 is ranked above 10. */
  lemma NineAboveTen(m: Side)
    requires m == map["9" := "1", "10" := "1"]
    ensures TopLevels(m, true, 1) == [Level("9", "1")]
    ensures Decimal("9", "").Value() < Decimal("10", "").Value()
  {
    var s := [Level("9", "1"), Level("10", "1")];
    assert Before("9", "10", true);
    assert IsRanking(s, m, true);
    RankingIsRanking(m, true);
    RankingUnique(s, Ranking(m, true), m, true);
    WiderIsLarger(Decimal("9", ""), Decimal("10", ""));
  }
}
