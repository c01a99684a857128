/** Which histories a token walk ever gets to the end of: the start indices run through the
    multiples of the greatest common divisor of the page size and 256. */
module PagingTermination {
  import opened Paging

  // ---- Greatest common divisors ----

  function Gcd(a: nat, b: nat): (g: nat)
    ensures a > 0 || b > 0 ==> g > 0
    decreases b
  {
    if b == 0 then a else Gcd(b, a % b)
  }

  lemma {:induction false} GcdDivides(a: nat, b: nat) returns (x: nat, y: nat)
    ensures a == Gcd(a, b) * x && b == Gcd(a, b) * y
    decreases b
  {
    var g := Gcd(a, b);
    if b == 0 {
      x, y := 1, 0;
    } else {
      var q := a / b;
      var x', y' := GcdDivides(b, a % b);
      x, y := q * x' + y', x';
      EuclidStep(g, q, x', y');
    }
  }

  lemma EuclidStep(g: int, q: int, x: int, y: int)
    ensures q * (g * x) + g * y == g * (q * x + y)
  {
    assert q * (g * x) == g * (q * x);
  }

  lemma {:induction false} Bezout(a: nat, b: nat) returns (x: int, y: int)
    ensures a * x + b * y == Gcd(a, b)
    decreases b
  {
    if b == 0 {
      x, y := 1, 0;
    } else {
      var q, r := a / b, a % b;
      var x', y' := Bezout(b, r);
      x, y := y', x' - q * y';
      BezoutStep(b, q, r, x', y');
    }
  }

  lemma BezoutStep(b: int, q: int, r: int, x: int, y: int)
    ensures (q * b + r) * y + b * (x - q * y) == b * x + r * y
  {
    assert (q * b) * y == b * (q * y);
  }

  ghost predicate Divides(d: int, n: int) {
    exists q: int :: d * q == n
  }

  lemma DividesCombination(d: int, a: int, b: int, x: int, y: int)
    requires Divides(d, a) && Divides(d, b)
    ensures Divides(d, a * x + b * y)
  {
    var p :| d * p == a;
    var q :| d * q == b;
    assert d * (p * x + q * y) == (d * p) * x + (d * q) * y;
  }

  /** `Gcd` divides both numbers, and every common divisor divides it. */
  lemma GcdIsGreatest(a: nat, b: nat, d: int)
    ensures Divides(Gcd(a, b), a) && Divides(Gcd(a, b), b)
    ensures Divides(d, a) && Divides(d, b) ==> Divides(d, Gcd(a, b))
  {
    var p, q := GcdDivides(a, b);
    var x, y := Bezout(a, b);
    if Divides(d, a) && Divides(d, b) {
      DividesCombination(d, a, b, x, y);
    }
  }

  // ---- Walks that go on ----

  /** The remainder of a multiple of `g` is a multiple of `g`, when `g` divides 256. */
  lemma WrappedMultiple(g: nat, y: nat, n: nat) returns (m: nat)
    requires g > 0 && 256 == g * y
    ensures (g * n) % 256 == g * m && g * m + g <= 256
  {
    var q, r := (g * n) / 256, (g * n) % 256;
    assert g * (n - y * q) == g * n - (g * y) * q;
    SmallerFactor(g, 0, n - y * q + 1);
    m := n - y * q;
    SmallerFactor(g, m, y);
  }

  lemma SmallerFactor(g: int, a: int, b: int)
    requires g > 0
    ensures g * a < g * b ==> a < b && g * a + g <= g * b
  {
    var d := b - a;
    assert g * b == g * a + g * d;
    if d >= 1 {
      assert g * d >= g;
    } else {
      assert g * d <= 0;
    }
  }

  /** From a multiple of `g` below 256 the walk never gets near the end of a longer history. */
  lemma {:induction false} GoesOn<T>(histories: seq<T>, g: nat, x: nat, y: nat, m: nat, calls: nat)
    requires g > 0 && 256 == g * y && g * x >= 1 && g * m + g <= 256 && |histories| > 256 - g + g * x
    ensures FollowFrom(histories, g * x, g * m, calls).None?
    decreases calls
  {
    if calls > 0 {
      assert g * (m + x) == g * m + g * x;
      var m' := WrappedMultiple(g, y, m + x);
      GoesOn(histories, g, x, y, m', calls - 1);
    }
  }

  // ---- Walks that end ----

  /** Some call starts at the last multiple of the greatest common divisor below 256. */
  lemma LastMultipleReached(pageSize: int) returns (k: nat)
    requires pageSize >= 1
    ensures StartOfCall(pageSize, k) == 256 - Gcd(pageSize, 256)
  {
    var g := Gcd(pageSize, 256);
    var a, b := Bezout(pageSize, 256);
    var t: nat := if a < 0 then -a else a;
    k := 256 * t - a;
    var q := pageSize * t + b - 1;
    assert pageSize * (256 * t - a) == 256 * (pageSize * t) - pageSize * a;
    assert pageSize * k == 256 * q + (256 - g);
    var x, y := GcdDivides(pageSize, 256);
    SmallerFactor(g, 0, y);
    StartIsProduct(pageSize, k);
    RemainderIs(pageSize * k, q, 256 - g);
  }

  lemma RemainderIs(n: int, q: int, r: int)
    requires n == 256 * q + r && 0 <= r < 256
    ensures n % 256 == r
  {
  }

  /** A walk ends at the latest with a call whose page reaches the end. */
  lemma {:induction false} Ends<T>(histories: seq<T>, pageSize: int, j: nat, k: nat)
    requires pageSize >= 1 && j <= k && StartOfCall(pageSize, k) + pageSize >= |histories|
    ensures FollowFrom(histories, pageSize, StartOfCall(pageSize, j), k - j + 1).Some?
    decreases k - j
  {
    if j < k {
      Ends(histories, pageSize, j + 1, k);
    }
  }

  /** Exactly when following tokens from the start ever ends: when the history reaches at most a
      page beyond the last multiple below 256 of the greatest common divisor of page size and 256. */
  lemma FollowEndsExactly<T(!new)>(histories: seq<T>, pageSize: int)
    requires pageSize >= 1
    ensures (exists calls :: Follow(histories, pageSize, [], calls).Some?)
            <==> |histories| <= 256 - Gcd(pageSize, 256) + pageSize
  {
    var g := Gcd(pageSize, 256);
    if |histories| <= 256 - g + pageSize {
      var k := LastMultipleReached(pageSize);
      Ends(histories, pageSize, 0, k);
      FollowByIndex(histories, pageSize, [], k + 1);
    }
    if calls :| Follow(histories, pageSize, [], calls).Some? {
      var x, y := GcdDivides(pageSize, 256);
      SmallerFactor(g, 0, y);
      FollowByIndex(histories, pageSize, [], calls);
      assert g * 0 == 0;
      if |histories| > 256 - g + pageSize {
        GoesOn(histories, g, x, y, 0, calls);
      }
    }
  }
}
