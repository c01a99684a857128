/** Byte strings: decimal printing, zero padding, splitting and byte order.
    A `string` stands for a Go string, one `char` for each byte. */
module Text {
  import opened Wrappers

  // ---- Byte order ----

  /** Strict byte-wise order, the order in which an object listing returns keys. */
  predicate Less(a: string, b: string) {
    if b == [] then false
    else if a == [] then true
    else a[0] < b[0] || (a[0] == b[0] && Less(a[1..], b[1..]))
  }

  lemma {:induction false} LessAsymmetric(a: string, b: string)
    requires Less(a, b)
    ensures !Less(b, a)
  {
    if a != [] && a[0] == b[0] {
      LessAsymmetric(a[1..], b[1..]);
    }
  }

  /** A common prefix does not influence the order. */
  lemma {:induction false} LessAfterPrefix(p: string, a: string, b: string)
    ensures Less(p + a, p + b) == Less(a, b)
  {
    if p == [] {
      assert p + a == a && p + b == b;
    } else {
      assert (p + a)[1..] == p[1..] + a && (p + b)[1..] == p[1..] + b;
      LessAfterPrefix(p[1..], a, b);
    }
  }

  /** Fields of equal width decide the order whatever follows them. */
  lemma {:induction false} LessDecidedByField(a: string, b: string, x: string, y: string)
    requires |a| == |b| && Less(a, b)
    ensures Less(a + x, b + y)
  {
    assert (a + x)[1..] == a[1..] + x && (b + y)[1..] == b[1..] + y;
    if a[0] == b[0] {
      LessDecidedByField(a[1..], b[1..], x, y);
    }
  }

  // ---- Decimal printing ----

  predicate IsDigit(c: char) {
    '0' <= c <= '9'
  }

  function Digit(d: nat): (c: char)
    requires d < 10
    ensures IsDigit(c)
  {
    ('0' as int + d) as char
  }

  function DigitValue(c: char): (d: nat)
    requires IsDigit(c)
    ensures d < 10
  {
    (c as int) - ('0' as int)
  }

  /** The decimal text of a natural number, without leading zeros. */
  function Decimal(n: nat): (s: string)
    ensures s != [] && forall c :: c in s ==> IsDigit(c)
  {
    if n < 10 then [Digit(n)] else Decimal(n / 10) + [Digit(n % 10)]
  }

  /** `%d`: a minus sign for negative numbers, then the magnitude. */
  function SignedDecimal(i: int): (s: string)
    ensures s != [] && forall c :: c in s ==> IsDigit(c) || c == '-'
  {
    if i < 0 then "-" + Decimal(-i) else Decimal(i)
  }

  /** The number that a string of digits denotes. */
  function NumberOf(s: string): nat
    requires forall c :: c in s ==> IsDigit(c)
  {
    if s == [] then 0
    else
      assert s[|s| - 1] in s;
      10 * NumberOf(s[..|s| - 1]) + DigitValue(s[|s| - 1])
  }

  function SignedNumberOf(s: string): int
    requires forall c :: c in s ==> IsDigit(c) || c == '-'
  {
    if s != [] && s[0] == '-' && (forall c :: c in s[1..] ==> IsDigit(c)) then 0 - NumberOf(s[1..])
    else if forall c :: c in s ==> IsDigit(c) then NumberOf(s)
    else 0
  }

  /** Reading back a printed number yields the number. */
  lemma {:induction false} DecimalRoundTrip(n: nat)
    ensures NumberOf(Decimal(n)) == n
  {
    var s := Decimal(n);
    if n < 10 {
      assert s[..|s| - 1] == [];
    } else {
      DecimalRoundTrip(n / 10);
      assert s[..|s| - 1] == Decimal(n / 10);
    }
  }

  lemma SignedDecimalRoundTrip(i: int)
    ensures SignedNumberOf(SignedDecimal(i)) == i
  {
    var s := SignedDecimal(i);
    if i < 0 {
      DecimalRoundTrip(-i);
      assert s[1..] == Decimal(-i);
    } else {
      DecimalRoundTrip(i);
      assert s[0] in s;
    }
  }

  /** Decimal texts of equal width are ordered like the numbers they print. */
  lemma {:induction false} DecimalOrder(m: nat, n: nat)
    requires m < n && |Decimal(m)| == |Decimal(n)|
    ensures Less(Decimal(m), Decimal(n))
  {
    if n >= 10 && m >= 10 {
      var last, last' := [Digit(m % 10)], [Digit(n % 10)];
      if m / 10 < n / 10 {
        DecimalOrder(m / 10, n / 10);
        LessDecidedByField(Decimal(m / 10), Decimal(n / 10), last, last');
      } else {
        assert m / 10 == n / 10 && m % 10 < n % 10;
        LessAfterPrefix(Decimal(m / 10), last, last');
      }
    }
  }

  function Pow10(k: nat): (p: nat)
    ensures p >= 1
  {
    if k == 0 then 1 else 10 * Pow10(k - 1)
  }

  /** A decimal text of `k` digits denotes a number below the `k`-th power of ten,
      and unless it is a single digit, not below the power before. */
  lemma {:induction false} DecimalWidth(n: nat)
    ensures var k := |Decimal(n)|; n < Pow10(k) && (k == 1 || Pow10(k - 1) <= n)
  {
    if n >= 10 {
      DecimalWidth(n / 10);
      var k := |Decimal(n)|;
      assert Pow10(k) == 10 * Pow10(k - 1);
      assert k > 2 ==> Pow10(k - 1) == 10 * Pow10(k - 2);
    }
  }

  lemma {:induction false} PowMonotone(j: nat, k: nat)
    ensures j <= k ==> Pow10(j) <= Pow10(k)
  {
    if j < k {
      PowMonotone(j, k - 1);
    }
  }

  /** Larger numbers have at least as many digits. */
  lemma WidthMonotone(m: nat, n: nat)
    requires m <= n
    ensures |Decimal(m)| <= |Decimal(n)|
  {
    DecimalWidth(m);
    DecimalWidth(n);
    PowMonotone(|Decimal(n)|, |Decimal(m)| - 1);
  }

  /** Between numbers of different width lies the power of ten where the width grows. */
  lemma PowerBetween(low: nat, high: nat) returns (power: nat)
    requires |Decimal(low)| < |Decimal(high)|
    ensures power == Pow10(|Decimal(low)|) && low <= power - 1 < power <= high
  {
    power := Pow10(|Decimal(low)|);
    DecimalWidth(low);
    DecimalWidth(high);
    PowMonotone(|Decimal(low)|, |Decimal(high)| - 1);
  }

  lemma DecimalFits(n: nat, width: nat)
    requires width >= 1 && n < Pow10(width)
    ensures |Decimal(n)| <= width
  {
    DecimalWidth(n);
    PowMonotone(width, |Decimal(n)| - 1);
  }

  // ---- Zero padding ----

  function Zeros(k: nat): (s: string)
    ensures |s| == k && forall c :: c in s ==> c == '0'
  {
    seq(k, _ => '0')
  }

  function ZeroFill(s: string, width: nat): string {
    if |s| < width then Zeros(width - |s|) + s else s
  }

  /** `%0{width}d`: zeros after the sign up to the width, never truncating. */
  function Padded(i: int, width: nat): (s: string)
    requires width >= 1
    ensures s != [] && forall c :: c in s ==> IsDigit(c) || c == '-'
  {
    if i < 0 then "-" + ZeroFill(Decimal(-i), width - 1) else ZeroFill(Decimal(i), width)
  }

  lemma PaddedWidth(n: nat, width: nat)
    requires width >= 1 && n < Pow10(width)
    ensures |Padded(n, width)| == width
  {
    DecimalFits(n, width);
  }

  /** Zero-padded numbers that fit their width are ordered like the numbers. */
  lemma {:induction false} PaddedOrder(m: nat, n: nat, width: nat)
    requires width >= 1 && m < n < Pow10(width)
    ensures Less(Padded(m, width), Padded(n, width))
  {
    PaddedStep(m, width);
    PaddedStep(n, width);
    var last, last' := [Digit(m % 10)], [Digit(n % 10)];
    if width == 1 {
      assert Padded(m, 1) == last && Padded(n, 1) == last';
    } else if m / 10 < n / 10 {
      assert Pow10(width) == 10 * Pow10(width - 1);
      PaddedOrder(m / 10, n / 10, width - 1);
      PaddedWidth(m / 10, width - 1);
      PaddedWidth(n / 10, width - 1);
      LessDecidedByField(Padded(m / 10, width - 1), Padded(n / 10, width - 1), last, last');
    } else {
      assert m / 10 == n / 10 && m % 10 < n % 10;
      LessAfterPrefix(Padded(m / 10, width - 1), last, last');
    }
  }

  lemma {:induction false} NumberOfZeros(k: nat)
    ensures NumberOf(Zeros(k)) == 0
  {
    if k > 0 {
      assert Zeros(k)[..k - 1] == Zeros(k - 1);
      NumberOfZeros(k - 1);
    }
  }

  /** Leading zeros do not change a number. */
  lemma {:induction false} NumberOfZeroFill(k: nat, s: string)
    requires forall c :: c in s ==> IsDigit(c)
    ensures NumberOf(Zeros(k) + s) == NumberOf(s)
  {
    if s == [] {
      assert Zeros(k) + s == Zeros(k);
      NumberOfZeros(k);
    } else {
      var n := |s| - 1;
      assert s[n] in s;
      assert (Zeros(k) + s)[..k + n] == Zeros(k) + s[..n];
      NumberOfZeroFill(k, s[..n]);
    }
  }

  /** The number behind a padded text, without its sign. */
  lemma PaddedDigits(n: nat, width: nat)
    ensures var s := ZeroFill(Decimal(n), width);
            (forall c :: c in s ==> IsDigit(c)) && s != [] && NumberOf(s) == n
  {
    DecimalRoundTrip(n);
    if |Decimal(n)| < width {
      NumberOfZeroFill(width - |Decimal(n)|, Decimal(n));
    }
  }

  /** A padded text determines its number, whatever the width. */
  lemma PaddedInjective(i: int, j: int, width: nat)
    requires width >= 1
    ensures Padded(i, width) == Padded(j, width) <==> i == j
  {
    PaddedReadsBack(i, width);
    PaddedReadsBack(j, width);
  }

  lemma PaddedReadsBack(i: int, width: nat)
    requires width >= 1
    ensures SignedNumberOf(Padded(i, width)) == i
  {
    if i < 0 {
      PaddedDigits(-i, width - 1);
      NegativeReadsBack(ZeroFill(Decimal(-i), width - 1));
    } else {
      PaddedDigits(i, width);
      DigitsReadBack(ZeroFill(Decimal(i), width));
    }
  }

  lemma DigitsReadBack(s: string)
    requires s != [] && forall c :: c in s ==> IsDigit(c)
    ensures SignedNumberOf(s) == NumberOf(s)
  {
    assert s[0] in s;
  }

  lemma NegativeReadsBack(s: string)
    requires forall c :: c in s ==> IsDigit(c)
    ensures SignedNumberOf("-" + s) == 0 - NumberOf(s)
  {
    assert ("-" + s)[1..] == s;
  }

  /** A padded number ends in its last digit; the rest is its tenth, padded one shorter. */
  lemma PaddedStep(n: nat, width: nat)
    requires width >= 1 && n < Pow10(width)
    ensures width == 1 ==> Padded(n, 1) == [Digit(n % 10)]
    ensures width > 1 ==> Padded(n, width) == Padded(n / 10, width - 1) + [Digit(n % 10)]
  {
    DecimalFits(n, width);
    if width > 1 {
      if n < 10 {
        assert Decimal(n / 10) == [Digit(0)];
      } else {
        assert Decimal(n) == Decimal(n / 10) + [Digit(n % 10)];
      }
    }
  }

  // ---- Splitting ----

  /** The text before and after the first occurrence of `c`. */
  function SplitFirst(s: string, c: char): Option<(string, string)> {
    if s == [] then None
    else if s[0] == c then Some(([], s[1..]))
    else match SplitFirst(s[1..], c)
      case None => None
      case Some((a, b)) => Some(([s[0]] + a, b))
  }

  /** The text before and after the last occurrence of `c`. */
  function SplitLast(s: string, c: char): Option<(string, string)> {
    if s == [] then None
    else
      var n := |s| - 1;
      if s[n] == c then Some((s[..n], []))
      else match SplitLast(s[..n], c)
        case None => None
        case Some((a, b)) => Some((a, b + [s[n]]))
  }

  /** Two pieces with a separator character between them. */
  function Joined(a: string, c: char, b: string): string {
    a + [c] + b
  }

  lemma JoinedAssociative(a: string, c: char, b: string, c': char, d: string)
    ensures Joined(a, c, Joined(b, c', d)) == Joined(Joined(a, c, b), c', d)
  {
  }

  lemma {:induction false} SplitFirstAt(a: string, c: char, b: string)
    requires c !in a
    ensures SplitFirst(Joined(a, c, b), c) == Some((a, b))
  {
    var s := Joined(a, c, b);
    if a == [] {
      assert s[1..] == b;
    } else {
      assert s[1..] == Joined(a[1..], c, b);
      SplitFirstAt(a[1..], c, b);
      assert a == [a[0]] + a[1..];
    }
  }

  lemma {:induction false} SplitLastAt(a: string, c: char, b: string)
    requires c !in b
    ensures SplitLast(Joined(a, c, b), c) == Some((a, b))
  {
    var s := Joined(a, c, b);
    var n := |s| - 1;
    if b == [] {
      assert s[..n] == a;
    } else {
      var m := |b| - 1;
      assert s[..n] == Joined(a, c, b[..m]);
      SplitLastAt(a, c, b[..m]);
      assert b == b[..m] + [b[m]];
      assert s[n] == b[m] && b[m] in b;
    }
  }

  /** A joined text determines its pieces when the separator is not in the first one. */
  lemma JoinedInjective(a: string, c: char, b: string, a': string, b': string)
    requires c !in a && c !in a' && Joined(a, c, b) == Joined(a', c, b')
    ensures a == a' && b == b'
  {
    SplitFirstAt(a, c, b);
    SplitFirstAt(a', c, b');
  }

  lemma JoinedSameHead(a: string, c: char, b: string, b': string)
    requires Joined(a, c, b) == Joined(a, c, b')
    ensures b == b'
  {
    assert b == Joined(a, c, b)[|a| + 1..] && b' == Joined(a, c, b')[|a| + 1..];
  }

  /** A text that starts with a field starts another exactly when the fields agree and its rest
      starts the other rest. */
  lemma PrefixOfField(a: string, c: char, b: string, a': string, b': string)
    requires c !in a && c !in a'
    ensures Joined(a, c, b) <= Joined(a', c, b') <==> a == a' && b <= b'
  {
    var s, s' := Joined(a, c, b), Joined(a', c, b');
    if s <= s' {
      var rest := s'[|s|..];
      assert s' == s + rest == Joined(a, c, b + rest);
      JoinedInjective(a, c, b + rest, a', b');
    }
    if a == a' && b <= b' {
      assert s' == s + b'[|b|..];
    }
  }

  lemma PrefixAfterHead(a: string, c: char, b: string, b': string)
    ensures Joined(a, c, b) <= Joined(a, c, b') <==> b <= b'
  {
    var s, s' := Joined(a, c, b), Joined(a, c, b');
    if s <= s' {
      assert s' == s + s'[|s|..] == Joined(a, c, b + s'[|s|..]);
      JoinedSameHead(a, c, b + s'[|s|..], b');
    }
    if b <= b' {
      assert s' == s + b'[|b|..];
    }
  }

  lemma SameTail(a: string, b: string, z: string)
    requires a + z == b + z
    ensures a == b
  {
    assert a == (a + z)[..|a|] && b == (b + z)[..|a|];
  }

  lemma LessJoined(a: string, c: char, b: string, b': string)
    ensures Less(Joined(a, c, b), Joined(a, c, b')) == Less(b, b')
  {
    LessAfterPrefix(a + [c], b, b');
  }

  lemma LessJoinedField(a: string, a': string, c: char, b: string, b': string)
    requires |a| == |a'| && Less(a, a')
    ensures Less(Joined(a, c, b), Joined(a', c, b'))
  {
    LessDecidedByField(a, a', [c] + b, [c] + b');
    assert Joined(a, c, b) == a + ([c] + b) && Joined(a', c, b') == a' + ([c] + b');
  }
}
