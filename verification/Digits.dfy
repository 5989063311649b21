/** Little-endian byte strings as numbers, and the two hexadecimal digits each byte holds. */
module Digits {
  import opened Powers

  type Byte = b: int | 0 <= b < 256

  /** The number a byte string stands for, lowest byte first. */
  function Value(s: seq<Byte>): nat {
    if s == [] then 0 else s[0] + 256 * Value(s[1..])
  }

  /** How many numbers `dimension` bytes can hold. */
  function Size(dimension: nat): (r: nat)
    ensures r > 0
  {
    Pow(256, dimension)
  }

  function Hex(e: nat): (r: nat)
    ensures r > 0
  {
    Pow(16, e)
  }

  /** A left shift by four bits, `j` times (`j` is 0 or 1). */
  function Shift4(x: nat, j: nat): nat {
    if j == 0 then x else 16 * x
  }

  /** Left shift truncated to an unsigned byte, then right shift by four bits. */
  function Nibble(b: Byte, j: nat): (d: nat)
    requires j <= 1
    ensures d < 16
    ensures d == if j == 0 then b % 16 else b / 16
  {
    assert 16 * b == 256 * (b / 16) + 16 * (b % 16);
    (Shift4(b, 1 - j) % 256) / 16
  }

  /** `+=` on a byte, with the wrap-around of the machine type. */
  function AddByte(b: Byte, x: nat): Byte {
    (b + x) % 256
  }

  function Digit(s: seq<Byte>, k: nat): (d: nat)
    requires k < 2 * |s|
    ensures d < 16
  {
    if k % 2 == 0 then s[k / 2] % 16 else s[k / 2] / 16
  }

  /** A digit moved up `k` places. */
  ghost function Place(d: nat, k: nat): nat {
    if k == 0 then d else 16 * Place(d, k - 1)
  }

  /** The number the lowest `k` hexadecimal digits stand for. */
  ghost function Low(s: seq<Byte>, k: nat): nat
    requires k <= 2 * |s|
  {
    if k == 0 then 0 else Low(s, k - 1) + Place(Digit(s, k - 1), k - 1)
  }

  lemma {:induction false} PlaceIsMultiple(d: nat, k: nat)
    ensures Place(d, k) == d * Hex(k)
  {
    if k > 0 {
      PlaceIsMultiple(d, k - 1);
      MulAssoc(d, 16, Hex(k - 1));
    }
  }

  lemma {:induction false} PlaceAdd(x: nat, y: nat, k: nat)
    ensures Place(x + y, k) == Place(x, k) + Place(y, k)
  {
    if k > 0 {
      PlaceAdd(x, y, k - 1);
    }
  }

  /** A digit and the place it stands in: less than 16 of them stay below the next place. */
  lemma {:induction false} PlaceBound(x: nat, y: nat, k: nat)
    requires x < y
    ensures Place(x, k) + Hex(k) <= Place(y, k)
    ensures Place(1, k) == Hex(k) && Place(16, k) == Hex(k + 1)
  {
    if k > 0 {
      PlaceBound(x, y, k - 1);
    }
  }

  lemma {:induction false} PlaceUp(d: nat, j: nat, k: nat)
    ensures Place(Place(d, j), k) == Place(d, j + k)
  {
    if k > 0 {
      PlaceUp(d, j, k - 1);
    }
  }

  lemma HexSize(n: nat)
    ensures Hex(2 * n) == Size(n)
  {
    assert Pow(16, 2) == 256;
    PowMul(16, 2, n);
  }

  lemma {:induction false} LowBound(s: seq<Byte>, k: nat)
    requires k <= 2 * |s|
    ensures Low(s, k) < Hex(k)
  {
    if k > 0 {
      LowBound(s, k - 1);
      PlaceBound(Digit(s, k - 1), 16, k - 1);
    }
  }

  lemma {:induction false} LowFrame(s: seq<Byte>, t: seq<Byte>, k: nat)
    requires k <= 2 * |s| && k <= 2 * |t|
    requires forall m :: 0 <= m < k ==> Digit(s, m) == Digit(t, m)
    ensures Low(s, k) == Low(t, k)
  {
    if k > 0 {
      LowFrame(s, t, k - 1);
    }
  }

  /** Reading the string digit by digit or byte by byte gives the same number. */
  lemma {:induction false} LowTail(s: seq<Byte>, k: nat)
    requires 0 < |s| && 2 <= k <= 2 * |s|
    ensures Low(s, k) == s[0] + 256 * Low(s[1..], k - 2)
  {
    if k == 2 {
      assert Low(s, 2) == Low(s, 1) + Place(Digit(s, 1), 1);
      assert Low(s, 1) == Low(s, 0) + Place(Digit(s, 0), 0);
    } else {
      LowTail(s, k - 1);
      assert Digit(s[1..], k - 3) == Digit(s, k - 1) by {
        assert (k - 3) / 2 == (k - 1) / 2 - 1;
      }
      PlaceUp(Digit(s, k - 1), k - 3, 2);
    }
  }

  lemma {:induction false} LowIsValue(s: seq<Byte>)
    ensures Low(s, 2 * |s|) == Value(s)
    ensures Value(s) < Size(|s|)
  {
    if s != [] {
      LowTail(s, 2 * |s|);
      LowIsValue(s[1..]);
    }
  }

  /** A difference in a digit settles the comparison when all higher digits agree. */
  lemma {:induction false} HigherDigitWins(s: seq<Byte>, t: seq<Byte>, k: nat, n: nat)
    requires |s| == |t| && k < n <= 2 * |s|
    requires Digit(s, k) > Digit(t, k)
    requires forall m :: k < m < n ==> Digit(s, m) == Digit(t, m)
    ensures Low(s, n) > Low(t, n)
  {
    if n == k + 1 {
      LowBound(t, k);
      PlaceBound(Digit(t, k), Digit(s, k), k);
    } else {
      HigherDigitWins(s, t, k, n - 1);
    }
  }

  /** Different byte strings of one length stand for different numbers. */
  lemma {:induction false} ValueInjective(s: seq<Byte>, t: seq<Byte>)
    requires |s| == |t|
    ensures Value(s) == Value(t) <==> s == t
  {
    if s != [] {
      ValueInjective(s[1..], t[1..]);
      if Value(s) == Value(t) {
        assert s[0] == t[0] && Value(s[1..]) == Value(t[1..]);
        assert s == [s[0]] + s[1..] && t == [t[0]] + t[1..];
      }
    }
  }

  lemma {:induction false} ValueZeros(s: seq<Byte>)
    requires forall i :: 0 <= i < |s| ==> s[i] == 0
    ensures Value(s) == 0
  {
    if s != [] {
      ValueZeros(s[1..]);
    }
  }

  lemma {:induction false} ValueConcat(s: seq<Byte>, t: seq<Byte>)
    ensures Value(s + t) == Value(s) + Size(|s|) * Value(t)
  {
    if s == [] {
      assert s + t == t;
    } else {
      assert (s + t)[1..] == s[1..] + t;
      ValueConcat(s[1..], t);
      MulAssoc(256, Size(|s| - 1), Value(t));
    }
  }

  /** Zero bytes above a number do not change it. */
  lemma ValueZeroExtend(s: seq<Byte>, t: seq<Byte>)
    requires |s| <= |t| && t[..|s|] == s
    requires forall i :: |s| <= i < |t| ==> t[i] == 0
    ensures Value(t) == Value(s)
  {
    assert t == s + t[|s|..];
    ValueZeros(t[|s|..]);
    ValueConcat(s, t[|s|..]);
  }

  /** A number that fits in `n` bytes is held by the lowest `n` bytes. */
  lemma ValueTruncate(t: seq<Byte>, n: nat)
    requires n <= |t| && Value(t) < Size(n)
    ensures Value(t[..n]) == Value(t)
  {
    ValueConcat(t[..n], t[n..]);
    assert t == t[..n] + t[n..];
    NoHighPart(Value(t), Value(t[..n]), Value(t[n..]), Size(n));
  }

  lemma NoHighPart(v: nat, lo: nat, hi: nat, m: nat)
    requires v == lo + m * hi && v < m
    ensures v == lo
  {
    if hi > 0 {
      MulMonotone(1, hi, m);
    }
  }

  /** Digits at position `k` and above are still zero. */
  ghost predicate ClearFrom(s: seq<Byte>, k: nat) {
    forall m :: k <= m < 2 * |s| ==> Digit(s, m) == 0
  }

  /** Adding `d` to an empty digit writes it and leaves every other digit alone. */
  lemma PutDigit(s: seq<Byte>, t: seq<Byte>, k: nat, d: nat)
    requires k < 2 * |s| && d < 16 && Digit(s, k) == 0
    requires t == s[k / 2 := AddByte(s[k / 2], Shift4(d, k % 2))]
    ensures Digit(t, k) == d
    ensures forall m :: 0 <= m < 2 * |s| && m != k ==> Digit(t, m) == Digit(s, m)
  {
    forall m | 0 <= m < 2 * |s| && m != k
      ensures Digit(t, m) == Digit(s, m)
    {
      if m / 2 == k / 2 {
        assert m % 2 != k % 2;
      }
    }
  }

  /** Writing the next digit extends the number by that digit. */
  lemma AppendDigit(s: seq<Byte>, t: seq<Byte>, k: nat, d: nat)
    requires k < 2 * |s| && d < 16 && ClearFrom(s, k)
    requires t == s[k / 2 := AddByte(s[k / 2], Shift4(d, k % 2))]
    ensures ClearFrom(t, k + 1)
    ensures Low(t, k + 1) == Low(s, k) + Place(d, k)
  {
    PutDigit(s, t, k, d);
    LowFrame(s, t, k);
  }

  lemma {:induction false} LowShifted(s: seq<Byte>, t: seq<Byte>, d: nat, n: nat)
    requires |s| == |t| && d <= n <= 2 * |s|
    requires forall m :: 0 <= m < d ==> Digit(t, m) == 0
    requires forall m :: d <= m < n ==> Digit(t, m) == Digit(s, m - d)
    ensures Low(t, n) == Place(Low(s, n - d), d)
  {
    if n == d {
      LowZero(t, d);
      PlaceZero(d);
    } else {
      LowShifted(s, t, d, n - 1);
      PlaceUp(Digit(s, n - 1 - d), n - 1 - d, d);
      PlaceAdd(Low(s, n - 1 - d), Place(Digit(s, n - 1 - d), n - 1 - d), d);
    }
  }

  lemma {:induction false} PlaceZero(k: nat)
    ensures Place(0, k) == 0
  {
    if k > 0 {
      PlaceZero(k - 1);
    }
  }

  lemma {:induction false} LowZero(t: seq<Byte>, n: nat)
    requires n <= 2 * |t|
    requires forall m :: 0 <= m < n ==> Digit(t, m) == 0
    ensures Low(t, n) == 0
  {
    if n > 0 {
      LowZero(t, n - 1);
      PlaceZero(n - 1);
    }
  }

  /** The digits from place `k` up stand for a multiple of 16^k. */
  lemma {:induction false} HighDigits(s: seq<Byte>, k: nat, n: nat) returns (q: nat)
    requires k <= n <= 2 * |s|
    ensures Low(s, n) == Low(s, k) + q * Hex(k)
  {
    hide Hex, Place;
    if n == k {
      return 0;
    }
    var high := HighDigits(s, k, n - 1);
    var next := Place(Digit(s, n - 1), n - 1 - k);
    PlaceUp(Digit(s, n - 1), n - 1 - k, k);
    PlaceIsMultiple(next, k);
    Distribute(high, next, Hex(k));
    return high + next;
  }

  /** Cutting off high digits is a remainder. */
  lemma LowIsRemainder(s: seq<Byte>, k: nat, n: nat)
    requires k <= n <= 2 * |s|
    ensures Low(s, n) % Hex(k) == Low(s, k)
  {
    hide Hex, Low;
    var q := HighDigits(s, k, n);
    LowBound(s, k);
    DivModUnique(Low(s, n), Hex(k), q, Low(s, k));
  }

  /** Moving every digit up `d` places multiplies by 16^d modulo the size of the buffer. */
  lemma ShiftedValue(s: seq<Byte>, t: seq<Byte>, d: nat)
    requires |s| == |t|
    requires forall m :: 0 <= m < 2 * |s| ==> Digit(t, m) == if m < d then 0 else Digit(s, m - d)
    ensures Value(t) == (Value(s) * Hex(d)) % Size(|s|)
  {
    hide Value, Low, Place, Hex, Size;
    var n := 2 * |s|;
    HexSize(|s|);
    if d <= n {
      ShiftedWithin(s, t, d);
      HexAdd(n - d, d);
      ShiftRemainder(Value(s), Hex(n - d), Hex(d));
    } else {
      LowZero(t, n);
      LowIsValue(t);
      HexAdd(d - n, n);
      ShiftedOut(Value(s), Hex(d - n), Hex(n));
    }
  }

  lemma HexAdd(m: nat, n: nat)
    ensures Hex(m + n) == Hex(m) * Hex(n)
  {
    PowAdd(16, m, n);
  }

  lemma ShiftedWithin(s: seq<Byte>, t: seq<Byte>, d: nat)
    requires |s| == |t| && d <= 2 * |s|
    requires forall m :: 0 <= m < 2 * |s| ==> Digit(t, m) == if m < d then 0 else Digit(s, m - d)
    ensures Value(t) == (Value(s) % Hex(2 * |s| - d)) * Hex(d)
  {
    hide Value, Low, Place, Hex, Size;
    LowIsValue(s);
    LowIsValue(t);
    LowShifted(s, t, d, 2 * |s|);
    PlaceIsMultiple(Low(s, 2 * |s| - d), d);
    LowIsRemainder(s, 2 * |s| - d, 2 * |s|);
  }

  lemma ShiftedOut(v: nat, h: nat, m: nat)
    requires m > 0
    ensures (v * (h * m)) % m == 0
  {
    MulAssoc(v, h, m);
    DivModUnique((v * h) * m, m, v * h, 0);
  }

  lemma ShiftRemainder(v: nat, h: nat, g: nat)
    requires h > 0 && g > 0
    ensures h * g > 0 && (v * g) % (h * g) == (v % h) * g
  {
    var q, r := v / h, v % h;
    assert v == q * h + r;
    MulMonotone(1, h, g);
    Distribute(q * h, r, g);
    MulAssoc(q, h, g);
    MulMonotone(r + 1, h, g);
    Distribute(r, 1, g);
    MulMonotone(0, r, g);
    DivModUnique(v * g, h * g, q, r * g);
  }

  /** Number of hexadecimal digits: 0 for zero, otherwise one more than the highest power of 16 below. */
  ghost predicate HasDigits(n: nat, c: nat) {
    n < Hex(c) && (c > 0 ==> Hex(c - 1) <= n)
  }

  /** The length of a number written in hexadecimal; zero has none. */
  function HexDigits(n: nat): nat {
    if n == 0 then 0 else 1 + HexDigits(n / 16)
  }

  lemma {:induction false} HexDigitsCount(n: nat)
    ensures HasDigits(n, HexDigits(n))
  {
    if n > 0 {
      HexDigitsCount(n / 16);
      assert n == 16 * (n / 16) + n % 16;
    }
  }

  lemma {:induction false} HasDigitsUnique(n: nat, c: nat)
    requires HasDigits(n, c)
    ensures c == HexDigits(n)
  {
    if c > 0 {
      assert Hex(c) == 16 * Hex(c - 1);
      if c > 1 {
        assert Hex(c - 1) == 16 * Hex(c - 2);
      }
      HasDigitsUnique(n / 16, c - 1);
    }
  }

  lemma DigitsOfLow(s: seq<Byte>, c: nat)
    requires c <= 2 * |s| && ClearFrom(s, c)
    requires c > 0 ==> Digit(s, c - 1) > 0
    ensures HasDigits(Value(s), c)
  {
    LowAbove(s, c, 2 * |s|);
    LowIsValue(s);
    LowBound(s, c);
    if c > 0 {
      PlaceBound(0, Digit(s, c - 1), c - 1);
    }
  }

  lemma {:induction false} LowAbove(s: seq<Byte>, k: nat, n: nat)
    requires k <= n <= 2 * |s| && ClearFrom(s, k)
    ensures Low(s, n) == Low(s, k)
  {
    if n > k {
      LowAbove(s, k, n - 1);
      PlaceZero(n - 1);
    }
  }

  /** The sum of the hexadecimal digits of a number. */
  function DigitSum(n: nat): nat {
    if n == 0 then 0 else n % 16 + DigitSum(n / 16)
  }

  /** Taking one off the leading digit takes one off the digit sum. */
  lemma {:induction false} DigitSumStep(n: nat, c: nat)
    requires c > 0 && HasDigits(n, c)
    ensures n >= Hex(c - 1)
    ensures DigitSum(n - Hex(c - 1)) == DigitSum(n) - 1
  {
    if c == 1 {
      assert Hex(0) == 1 && Hex(1) == 16;
      assert n / 16 == 0;
      assert (n - 1) / 16 == 0;
    } else {
      assert Hex(c) == 16 * Hex(c - 1) && Hex(c - 1) == 16 * Hex(c - 2);
      DigitSumStep(n / 16, c - 1);
      var m := n - Hex(c - 1);
      DivModUnique(m, 16, n / 16 - Hex(c - 2), n % 16);
      if m == 0 {
        assert n / 16 == Hex(c - 2);
      }
    }
  }
}
