/** The keys of the shared "products" cache. The id-keyed entries use the
    `Long` id itself as the key; the listing entries use the string
    `s + '_' + page + '_' + size`; `getAll` uses the literal "allProducts". */
module CacheKeys {
  import opened Paging

  datatype CacheKey = IdKey(id: int) | StrKey(text: string)

  /** The key of `getAll`. */
  const AllProducts: CacheKey := StrKey("allProducts")

  predicate IsDigit(c: char)
  {
    '0' <= c <= '9'
  }

  function DigitChar(d: nat): (c: char)
    requires d < 10
    ensures IsDigit(c)
  {
    ('0' as int + d) as char
  }

  /** The decimal digits of `n`, most significant first, without leading
      zeros. */
  function Digits(n: nat): (r: string)
    ensures |r| >= 1
    ensures forall i :: 0 <= i < |r| ==> IsDigit(r[i])
    ensures |r| == 1 <==> n < 10
  {
    if n < 10 then [DigitChar(n)] else Digits(n / 10) + [DigitChar(n % 10)]
  }

  /** `Integer.toString(n)`, the text an `int` contributes to a string
      concatenation. */
  function DecimalString(n: int): (r: string)
    ensures |r| >= 1
    ensures forall i :: 0 <= i < |r| ==> IsDigit(r[i]) || (i == 0 && r[i] == '-')
    ensures r[0] == '-' <==> n < 0
  {
    if n < 0 then "-" + Digits(-n) else Digits(n)
  }

  lemma {:induction false} DigitsInjective(a: nat, b: nat)
    requires Digits(a) == Digits(b)
    ensures a == b
  {
    if a >= 10 && b >= 10 {
      var da, db := Digits(a), Digits(b);
      assert da[..|da| - 1] == Digits(a / 10);
      assert db[..|db| - 1] == Digits(b / 10);
      DigitsInjective(a / 10, b / 10);
      assert DigitChar(a % 10) == da[|da| - 1] == db[|db| - 1] == DigitChar(b % 10);
    }
  }

  /** Different integers print differently. */
  lemma DecimalStringInjective(a: int, b: int)
    ensures DecimalString(a) == DecimalString(b) <==> a == b
  {
    if DecimalString(a) == DecimalString(b) {
      if a < 0 {
        assert DecimalString(a)[1..] == Digits(-a);
        assert DecimalString(b)[1..] == Digits(-b);
        DigitsInjective(-a, -b);
      } else {
        DigitsInjective(a, b);
      }
    }
  }

  /** The cache key `s + '_' + page + '_' + size` of the paged listings. It
      always contains `'_'`, so it is never the key of `getAll`. */
  function ListingKey(s: string, page: int32, size: int32): (k: CacheKey)
    ensures k.StrKey? && '_' in k.text
    ensures k != AllProducts
  {
    var text := s + "_" + DecimalString(page as int) + "_" + DecimalString(size as int);
    assert text[|s|] == '_';
    assert '_' !in AllProducts.text;
    StrKey(text)
  }

  lemma JoinedAt(x: string, b: string, j: nat)
    requires j < |x| + 1 + |b|
    ensures (x + "_" + b)[j] == if j < |x| then x[j] else if j == |x| then '_' else b[j - |x| - 1]
  {
  }

  /** A string ending in `'_'` followed by a text without `'_'` splits
      there in only one way. */
  lemma SplitAtLastSeparator(x: string, b: string, y: string, c: string)
    requires '_' !in b && '_' !in c
    requires x + "_" + b == y + "_" + c
    ensures x == y && b == c
  {
    var k := x + "_" + b;
    // A longer tail would hold the other split's separator.
    if |b| < |c| {
      JoinedAt(x, b, |x|);
      assert false;
    } else if |c| < |b| {
      JoinedAt(y, c, |y|);
      assert false;
    }
    assert x == k[..|x|] && y == k[..|y|];
    assert b == k[|x| + 1 ..] && c == k[|y| + 1 ..];
  }

  lemma NoSeparatorInDecimal(n: int)
    ensures '_' !in DecimalString(n)
  {
  }

  /** Within one listing operation the key is injective: equal keys mean
      equal string, page and size, even when the string contains `'_'`,
      because the decimal page and size never do. */
  lemma ListingKeyInjective(s1: string, page1: int32, size1: int32,
                            s2: string, page2: int32, size2: int32)
    ensures ListingKey(s1, page1, size1) == ListingKey(s2, page2, size2)
        <==> s1 == s2 && page1 == page2 && size1 == size2
  {
    if ListingKey(s1, page1, size1) == ListingKey(s2, page2, size2) {
      var p1, n1 := DecimalString(page1 as int), DecimalString(size1 as int);
      var p2, n2 := DecimalString(page2 as int), DecimalString(size2 as int);
      NoSeparatorInDecimal(page1 as int);
      NoSeparatorInDecimal(size1 as int);
      NoSeparatorInDecimal(page2 as int);
      NoSeparatorInDecimal(size2 as int);
      assert (s1 + "_" + p1) + "_" + n1 == (s2 + "_" + p2) + "_" + n2;
      SplitAtLastSeparator(s1 + "_" + p1, n1, s2 + "_" + p2, n2);
      SplitAtLastSeparator(s1, p1, s2, p2);
      DecimalStringInjective(page1 as int, page2 as int);
      DecimalStringInjective(size1 as int, size2 as int);
    }
  }
}
