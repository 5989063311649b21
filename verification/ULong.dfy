/** Fixed-width unsigned integers held in a byte buffer and computed two hexadecimal digits per byte. */
module BigInteger {
  import opened Powers
  import opened Digits
  import opened Counting

  // Column-by-column addition and subtraction of digit strings

  ghost predicate SumSoFar(a: seq<Byte>, b: seq<Byte>, r: seq<Byte>, k: nat, carry: bool) {
    && |a| == |b| == |r| && k <= 2 * |a|
    && ClearFrom(r, k)
    && Low(r, k) + Place(One(carry), k) == Low(a, k) + Low(b, k)
  }

  ghost predicate DifferenceSoFar(a: seq<Byte>, b: seq<Byte>, r: seq<Byte>, k: nat, borrow: bool) {
    && |a| == |b| == |r| && k <= 2 * |a|
    && ClearFrom(r, k)
    && Low(r, k) + Low(b, k) == Low(a, k) + Place(One(borrow), k)
  }

  lemma SumStep(a: seq<Byte>, b: seq<Byte>, r: seq<Byte>, t: seq<Byte>, k: nat, carry: bool, d: nat, carry': bool)
    requires SumSoFar(a, b, r, k, carry) && k < 2 * |a| && d < 16
    requires t == r[k / 2 := AddByte(r[k / 2], Shift4(d, k % 2))]
    requires d + 16 * One(carry') == Digit(a, k) + Digit(b, k) + One(carry)
    ensures SumSoFar(a, b, t, k + 1, carry')
  {
    AppendDigit(r, t, k, d);
    Column(d, carry', Digit(a, k), Digit(b, k), carry, k);
  }

  lemma DifferenceStep(a: seq<Byte>, b: seq<Byte>, r: seq<Byte>, t: seq<Byte>, k: nat, borrow: bool, d: nat, borrow': bool)
    requires DifferenceSoFar(a, b, r, k, borrow) && k < 2 * |a| && d < 16
    requires t == r[k / 2 := AddByte(r[k / 2], Shift4(d, k % 2))]
    requires d + Digit(b, k) + One(borrow) == Digit(a, k) + 16 * One(borrow')
    ensures DifferenceSoFar(a, b, t, k + 1, borrow')
  {
    AppendDigit(r, t, k, d);
    Column(Digit(a, k), borrow', d, Digit(b, k), borrow, k);
  }

  /** The schoolbook column equation, scaled to the column's place value. */
  lemma Column(d: nat, carry': bool, x: nat, y: nat, carry: bool, k: nat)
    requires d + 16 * One(carry') == x + y + One(carry)
    ensures Place(d, k) + Place(One(carry'), k + 1) == Place(x, k) + Place(y, k) + Place(One(carry), k)
  {
    PlaceAdd(x, y, k);
    PlaceAdd(x + y, One(carry), k);
    PlaceAdd(d, 16 * One(carry'), k);
    PlaceUp(One(carry'), 1, k);
  }

  lemma SumDone(a: seq<Byte>, b: seq<Byte>, r: seq<Byte>, carry: bool)
    requires SumSoFar(a, b, r, 2 * |a|, carry)
    ensures Value(r) == (Value(a) + Value(b)) % Size(|a|)
  {
    hide Value, Low, Place, Size;
    Whole(a, b, r, carry);
    OneWrap(Value(a) + Value(b), if carry then 1 else 0, Value(r), Size(|a|));
  }

  lemma DifferenceDone(a: seq<Byte>, b: seq<Byte>, r: seq<Byte>, borrow: bool)
    requires DifferenceSoFar(a, b, r, 2 * |a|, borrow)
    ensures Value(r) == (Value(a) - Value(b)) % Size(|a|)
  {
    hide Value, Low, Place, Size;
    Whole(a, b, r, borrow);
    OneWrap(Value(a) - Value(b), if borrow then -1 else 0, Value(r), Size(|a|));
  }

  lemma Whole(a: seq<Byte>, b: seq<Byte>, r: seq<Byte>, carry: bool)
    requires |a| == |b| == |r|
    ensures Low(a, 2 * |a|) == Value(a) && Low(b, 2 * |a|) == Value(b)
    ensures Low(r, 2 * |a|) == Value(r) < Size(|a|)
    ensures Place(One(carry), 2 * |a|) == if carry then Size(|a|) else 0
  {
    LowIsValue(a);
    LowIsValue(b);
    LowIsValue(r);
    HexSize(|a|);
    PlaceIsMultiple(One(carry), 2 * |a|);
  }

  lemma OneWrap(x: int, k: int, r: nat, m: nat)
    requires r < m && -1 <= k <= 1
    requires x == if k == 0 then r else if k == 1 then r + m else r - m
    ensures x % m == r
  {
    ModShift(r, k, m);
    ModSmall(r, m);
  }

  // Digit-by-digit left shift

  /** `t` holds, `d` places up, the digits of `s` at `u + 2` and above and the first `j` from `u`. */
  ghost predicate ShiftedFrom(s: seq<Byte>, t: seq<Byte>, d: nat, u: int, j: nat) {
    && |s| == |t|
    && forall m :: 0 <= m < 2 * |s| ==> Digit(t, m) == if Moved(m - d, u, j) then Digit(s, m - d) else 0
  }

  ghost predicate Moved(x: int, u: int, j: nat) {
    x >= 0 && (x >= u + 2 || u <= x < u + j)
  }

  /** Where the source digit `j` of byte `dimension - 1 - i` lands. */
  lemma ShiftTarget(dimension: nat, digits: nat, i: nat, j: nat)
    requires digits / 2 <= i < dimension && j < 2
    ensures var to := 2 * (dimension - i - 1) + j + digits;
      var odd := digits % 2 == 1;
      var index := i - digits / 2 - (if odd then j else 0);
      && (index >= 0 <==> to < 2 * dimension)
      && to / 2 == dimension - 1 - index
      && to % 2 == if odd then 1 - j else j
  {
    var half := digits / 2;
    assert digits == 2 * half + digits % 2;
  }

  lemma SumStart(a: seq<Byte>, b: seq<Byte>, r: seq<Byte>)
    requires |a| == |b| == |r| && forall i :: 0 <= i < |r| ==> r[i] == 0
    ensures SumSoFar(a, b, r, 0, false) && DifferenceSoFar(a, b, r, 0, false)
  {
  }

  lemma ShiftStep(s: seq<Byte>, r: seq<Byte>, t: seq<Byte>, d: nat, u: nat, j: nat)
    requires j < 2 && u % 2 == 0 && u + 1 < 2 * |s| && ShiftedFrom(s, r, d, u, j)
    requires var to := u + j + d;
      t == if to < 2 * |s| then r[to / 2 := AddByte(r[to / 2], Shift4(Digit(s, u + j), to % 2))] else r
    ensures ShiftedFrom(s, t, d, u, j + 1)
  {
    if u + j + d < 2 * |s| {
      PutDigit(r, t, u + j + d, Digit(s, u + j));
    }
  }

  // One turn of the multiplication loop

  lemma ProductStart(a: nat, b: nat, m: nat)
    requires m > 0
    ensures 0 == (a * (b - b)) % m
  {
    ModSmall(0, m);
  }

  lemma ProductStep(a: nat, b: nat, c: nat, h: nat, m: nat)
    requires m > 0 && h <= c <= b
    ensures ((a * (b - c)) % m + (a * h) % m) % m == (a * (b - (c - h))) % m
  {
    ModAdd(a * (b - c), (a * h) % m, m);
    ModAdd(a * h, a * (b - c), m);
    Distribute(b - c, h, a);
  }

  /** A number that is not zero has a leading digit, and reaches that digit's place. */
  lemma LeadingDigit(n: nat, c: nat)
    requires n > 0 && c == HexDigits(n)
    ensures c > 0 && Hex(c - 1) <= n && HasDigits(n, c)
  {
    HexDigitsCount(n);
  }

  lemma DigitSumZero()
    ensures DigitSum(0) == 0
  {
  }

  // One pass of the division

  /** A divider moved under the leading digit of the remainder fits it, and one digit further still fits the buffer. */
  lemma ShiftFits(d: nat, r: nat, dimension: nat)
    requires d > 0 && HexDigits(r) > HexDigits(d) && HexDigits(r) <= 2 * dimension
    ensures var h := Hex(HexDigits(r) - HexDigits(d) - 1);
      && h <= d * h <= r < Size(dimension)
      && 16 * (d * h) < Size(dimension)
      && d * (16 * h) == 16 * (d * h)
    ensures Hex(HexDigits(r) - HexDigits(d)) == 16 * Hex(HexDigits(r) - HexDigits(d) - 1)
  {
    var places := HexDigits(r) - HexDigits(d) - 1;
    HexDigitsCount(d);
    HexDigitsCount(r);
    HexAdd(HexDigits(d), places);
    UnderLeadingDigit(d, Hex(places), Hex(HexDigits(d)));
    assert Hex(HexDigits(r)) == 16 * Hex(HexDigits(r) - 1);
    HexSize(dimension);
    PowMonotone(16, HexDigits(r), 2 * dimension);
  }

  lemma UnderLeadingDigit(d: nat, h: nat, top: nat)
    requires 0 < d < top && 0 < h
    ensures h <= d * h < top * h && d * (16 * h) == 16 * (d * h)
  {
    MulMonotone(1, d, h);
    MulMonotone(d + 1, top, h);
    Distribute(d, 1, h);
  }

  lemma HexOne()
    ensures Hex(1) == 16
  {
  }

  lemma QuotientFits(n: nat, q: nat, d: nat, r: nat, more: nat)
    requires d > 0 && n == q * d + r && d * more <= r
    ensures q + more <= n
    ensures n == (q + more) * d + (r - d * more)
  {
    Distribute(q, more, d);
    MulMonotone(1, d, q + more);
  }

  /** At most two passes a digit: the second only when the divider fits one digit further. */
  ghost function PassesLeft(r: nat, d: nat): nat {
    var c, e := HexDigits(r), HexDigits(d);
    if c <= e then 0 else if r < d * Hex(c - e) then 2 * (c - e) - 1 else 2 * (c - e)
  }

  function PassBound(c: nat, e: nat): nat {
    if c <= e then 0 else 2 * (c - e)
  }

  lemma PassesBounded(n: nat, d: nat)
    ensures PassesLeft(n, d) <= PassBound(HexDigits(n), HexDigits(d))
  {
  }

  lemma PassProgress(r: nat, t: nat, d: nat)
    requires d > 0 && HexDigits(r) > HexDigits(d)
    requires var shift := HexDigits(r) - HexDigits(d);
      t < if r >= d * Hex(shift) then d * Hex(shift) else d * Hex(shift - 1)
    ensures t < r
    ensures PassesLeft(t, d) + 1 <= PassesLeft(r, d)
  {
    hide Hex, HexDigits, HasDigits;
    var shift := HexDigits(r) - HexDigits(d);
    ShiftFits(d, r, HexDigits(r));
    FewerDigits(t, r);
    if t < d * Hex(shift - 1) {
      DigitGone(d, r, t);
    }
  }

  lemma DigitGone(d: nat, r: nat, t: nat)
    requires d > 0 && HexDigits(r) > HexDigits(d)
    requires t < d * Hex(HexDigits(r) - HexDigits(d) - 1)
    ensures HexDigits(t) < HexDigits(r)
  {
    hide Hex, HexDigits;
    var places := HexDigits(r) - HexDigits(d) - 1;
    HexDigitsCount(t);
    HexDigitsCount(d);
    HexAdd(HexDigits(d), places);
    UnderLeadingDigit(d, Hex(places), Hex(HexDigits(d)));
    if HexDigits(t) > 0 {
      HexOrder(HexDigits(t) - 1, HexDigits(r) - 1);
    }
  }

  lemma HexOrder(m: nat, n: nat)
    ensures Hex(m) < Hex(n) ==> m < n
  {
    if m >= n {
      PowMonotone(16, n, m);
    }
  }

  lemma {:induction false} FewerDigits(t: nat, r: nat)
    requires t <= r
    ensures HexDigits(t) <= HexDigits(r)
  {
    if t > 0 {
      FewerDigits(t / 16, r / 16);
    }
  }

  // Products that cannot overflow

  lemma NarrowProduct(x: nat, y: nat, dimension: nat)
    requires HexDigits(x) + HexDigits(y) <= dimension
    ensures 0 <= x * y < Size(dimension)
  {
    hide Size, HexDigits;
    var (c, e) := (HexDigits(x), HexDigits(y));
    HexDigitsCount(x);
    HexDigitsCount(y);
    HexAdd(c, e);
    ProductBound(x, Hex(c), y, Hex(e));
    HexSize(dimension);
    PowMonotone(16, c + e, 2 * dimension);
  }

  lemma WideProduct(x: nat, y: nat, dimension: nat)
    requires x < Size(dimension) && y < Size(dimension)
    ensures 0 <= x * y < Size(2 * dimension)
  {
    PowAdd(256, dimension, dimension);
    ProductBound(x, Size(dimension), y, Size(dimension));
  }

  lemma ProductBound(x: nat, p: nat, y: nat, q: nat)
    requires x < p && y < q
    ensures 0 <= x * y < p * q
  {
    MulMonotone(x, p, y);
    MulMonotone(y + 1, q, p);
    Distribute(y, 1, p);
  }

  lemma FourBytes(number: nat)
    requires number < 0x1_0000_0000
    ensures number == number % 256 + 256 * (number / 256 % 256 + 256 * (number / 0x1_0000 % 256 + 256 * (number / 0x100_0000)))
  {
    assert number == number % 256 + 256 * (number / 256);
    assert number / 256 == number / 256 % 256 + 256 * (number / 0x1_0000);
    assert number / 0x1_0000 == number / 0x1_0000 % 256 + 256 * (number / 0x100_0000);
  }

  lemma ValueStep(b: Byte, rest: seq<Byte>)
    ensures Value([b] + rest) == b + 256 * Value(rest) && Value([]) == 0
  {
    assert ([b] + rest)[1..] == rest;
  }

  lemma FourDigits(b0: Byte, b1: Byte, b2: Byte, b3: Byte)
    ensures Value([b0, b1, b2, b3]) == b0 + 256 * (b1 + 256 * (b2 + 256 * b3))
  {
    ValueStep(b0, [b1, b2, b3]);
    ValueStep(b1, [b2, b3]);
    ValueStep(b2, [b3]);
    ValueStep(b3, []);
    hide Value;
    assert [b3] + [] == [b3] && [b2] + [b3] == [b2, b3];
    assert [b1] + [b2, b3] == [b1, b2, b3] && [b0] + [b1, b2, b3] == [b0, b1, b2, b3];
  }

  /** The lowest digit tells the parity. */
  lemma ParityDigit(s: seq<Byte>)
    requires s != []
    ensures Value(s) % 2 == Nibble(s[0], 0) % 2
  {
    LowBit(s[0], Value(s[1..]));
  }

  lemma LowBit(b: nat, rest: nat)
    ensures (b + 256 * rest) % 2 == b % 16 % 2
  {
    var (high, low) := (b / 16, b % 16);
    DivModUnique(b + 256 * rest, 2, 8 * high + low / 2 + 128 * rest, low % 2);
  }

  /** The four bytes of a 32-bit unsigned long in memory order. */
  function LongBytes(number: nat): (s: seq<Byte>)
    requires number < 0x1_0000_0000
    ensures |s| == 4 && Value(s) == number
  {
    var b0: int, b1: int, b2: int, b3: int :=
      number % 256, number / 256 % 256, number / 0x1_0000 % 256, number / 0x100_0000;
    FourBytes(number);
    FourDigits(b0, b1, b2, b3);
    [b0, b1, b2, b3]
  }

  const LONG_SIZE: nat := 4

  class ULong {
    const buffer: array<Byte>

    /** The template parameter: how many bytes the buffer has. */
    function Dimension(): nat {
      buffer.Length
    }

    ghost function Number(): nat
      reads buffer
    {
      Value(buffer[..])
    }

    constructor Zero(dimension: nat)
      ensures fresh(buffer) && Dimension() == dimension && Number() == 0
      ensures forall i :: 0 <= i < dimension ==> buffer[i] == 0
    {
      buffer := new Byte[dimension](_ => 0);
      new;
      ValueZeros(buffer[..]);
    }

    /** Copies the bytes and clears the rest; a string that is too long leaves zero. */
    constructor FromBinary(dimension: nat, binary: seq<Byte>)
      ensures fresh(buffer) && Dimension() == dimension
      ensures Number() == if |binary| <= dimension then Value(binary) else 0
      ensures |binary| == dimension ==> buffer[..] == binary
    {
      if |binary| <= dimension {
        buffer := new Byte[dimension](i => if 0 <= i < |binary| then binary[i] else 0);
      } else {
        buffer := new Byte[dimension](_ => 0);
      }
      new;
      if |binary| <= dimension {
        ValueZeroExtend(binary, buffer[..]);
      } else {
        ValueZeros(buffer[..]);
      }
    }

    constructor FromLong(dimension: nat, number: nat)
      requires number < 0x1_0000_0000 && LONG_SIZE <= dimension
      ensures fresh(buffer) && Dimension() == dimension && Number() == number
    {
      var bytes := LongBytes(number);
      buffer := new Byte[dimension](i => if 0 <= i < |bytes| then bytes[i] else 0);
      new;
      ValueZeroExtend(bytes, buffer[..]);
    }

    constructor Copy(number: ULong)
      ensures fresh(buffer) && Dimension() == number.Dimension()
      ensures buffer[..] == number.buffer[..] && Number() == number.Number()
    {
      var bytes := number.buffer[..];
      buffer := new Byte[|bytes|](i requires 0 <= i < |bytes| => bytes[i]);
    }

    /** `operator=`: copies the bytes of another number of the same dimension. */
    method Assign(number: ULong)
      requires Dimension() == number.Dimension()
      modifies buffer
      ensures buffer[..] == old(number.buffer[..]) && Number() == old(number.Number())
    {
      var bytes := number.buffer[..];
      forall i | 0 <= i < buffer.Length {
        buffer[i] := bytes[i];
      }
      assert buffer[..] == bytes;
    }

    /** `operator==`: byte comparison. */
    method Equals(number: ULong) returns (r: bool)
      requires Dimension() == number.Dimension()
      ensures r == (Number() == number.Number())
    {
      ValueInjective(buffer[..], number.buffer[..]);
      r := buffer[..] == number.buffer[..];
    }

    /** Comparison with zero through a converted constant, as in `counter != 0`. */
    method IsZero() returns (r: bool)
      requires LONG_SIZE <= Dimension()
      ensures r == (Number() == 0)
    {
      var zero := new ULong.FromLong(Dimension(), 0);
      r := Equals(zero);
    }

    /** `operator>`: the first differing digit from the top decides. */
    method GreaterThan(number: ULong) returns (r: bool)
      requires Dimension() == number.Dimension()
      ensures r == (Number() > number.Number())
    {
      hide Value, Place, Size;
      ghost var s, t := buffer[..], number.buffer[..];
      LowIsValue(s);
      LowIsValue(t);
      for i := Dimension() downto 0
        invariant forall m :: 2 * i <= m < 2 * |s| ==> Digit(s, m) == Digit(t, m)
      {
        for j := 2 downto 0
          invariant forall m :: 2 * i + j <= m < 2 * |s| ==> Digit(s, m) == Digit(t, m)
        {
          var first := Nibble(buffer[i], j);
          var second := Nibble(number.buffer[i], j);
          assert (2 * i + j) / 2 == i && (2 * i + j) % 2 == j;
          assert first == Digit(s, 2 * i + j) && second == Digit(t, 2 * i + j);
          if first != second {
            if first > second {
              HigherDigitWins(s, t, 2 * i + j, 2 * |s|);
            } else {
              HigherDigitWins(t, s, 2 * i + j, 2 * |s|);
            }
            return first > second;
          }
        }
      }
      LowFrame(s, t, 2 * |s|);
      return false;
    }

    /** `operator>=`. */
    method AtLeast(number: ULong) returns (r: bool)
      requires Dimension() == number.Dimension()
      ensures r == (Number() >= number.Number())
    {
      var greater := GreaterThan(number);
      var equal := Equals(number);
      r := greater || equal;
    }

    /** `operator+`. */
    method Plus(number: ULong) returns (result: ULong)
      requires Dimension() == number.Dimension()
      ensures fresh(result) && fresh(result.buffer) && result.Dimension() == Dimension()
      ensures result.Number() == (Number() + number.Number()) % Size(Dimension())
    {
      hide Value, Low, Place, Size;
      result := new ULong.Zero(Dimension());
      var moveBase := false;
      ghost var a, b := buffer[..], number.buffer[..];
      SumStart(a, b, result.buffer[..]);
      for i := 0 to Dimension()
        invariant SumSoFar(a, b, result.buffer[..], 2 * i, moveBase)
      {
        for j := 0 to 2
          invariant SumSoFar(a, b, result.buffer[..], 2 * i + j, moveBase)
        {
          ghost var k, was, carry := 2 * i + j, result.buffer[..], moveBase;
          assert k / 2 == i && k % 2 == j;
          var first := Nibble(buffer[i], j);
          var second := Nibble(number.buffer[i], j);
          if moveBase {
            first := first + 1;
          }
          if first + second >= 16 {
            result.buffer[i] := AddByte(result.buffer[i], Shift4(first + second - 16, j));
            moveBase := true;
            SumStep(a, b, was, result.buffer[..], k, carry, first + second - 16, true);
          } else {
            result.buffer[i] := AddByte(result.buffer[i], Shift4(first + second, j));
            moveBase := false;
            SumStep(a, b, was, result.buffer[..], k, carry, first + second, false);
          }
        }
      }
      SumDone(a, b, result.buffer[..], moveBase);
    }

    /** `operator-`: a borrowed-from zero digit becomes -1, as a signed char does. */
    method Minus(number: ULong) returns (result: ULong)
      requires Dimension() == number.Dimension()
      ensures fresh(result) && fresh(result.buffer) && result.Dimension() == Dimension()
      ensures result.Number() == (Number() - number.Number()) % Size(Dimension())
    {
      hide Value, Low, Place, Size;
      result := new ULong.Zero(Dimension());
      var moveBase := false;
      ghost var a, b := buffer[..], number.buffer[..];
      SumStart(a, b, result.buffer[..]);
      for i := 0 to Dimension()
        invariant DifferenceSoFar(a, b, result.buffer[..], 2 * i, moveBase)
      {
        for j := 0 to 2
          invariant DifferenceSoFar(a, b, result.buffer[..], 2 * i + j, moveBase)
        {
          ghost var k, was, borrow := 2 * i + j, result.buffer[..], moveBase;
          assert k / 2 == i && k % 2 == j;
          var first: int := Nibble(buffer[i], j);
          var second := Nibble(number.buffer[i], j);
          if moveBase {
            first := first - 1;
          }
          if first >= second {
            var digit := first - second;
            result.buffer[i] := AddByte(result.buffer[i], Shift4(digit, j));
            moveBase := false;
            DifferenceStep(a, b, was, result.buffer[..], k, borrow, digit, false);
          } else {
            var digit := first + 16 - second;
            result.buffer[i] := AddByte(result.buffer[i], Shift4(digit, j));
            moveBase := true;
            DifferenceStep(a, b, was, result.buffer[..], k, borrow, digit, true);
          }
        }
      }
      DifferenceDone(a, b, result.buffer[..], moveBase);
    }

    /** `operator+=`. */
    method PlusAssign(number: ULong)
      requires Dimension() == number.Dimension()
      modifies buffer
      ensures Number() == old(Number() + number.Number()) % Size(Dimension())
    {
      var sum := Plus(number);
      Assign(sum);
    }

    /** `operator-=`; without underflow the difference is exact. */
    method MinusAssign(number: ULong)
      requires Dimension() == number.Dimension()
      modifies buffer
      ensures Number() == old(Number() - number.Number()) % Size(Dimension())
      ensures old(Number() >= number.Number()) ==> Number() == old(Number() - number.Number())
    {
      LowIsValue(buffer[..]);
      ghost var before := Number() - number.Number();
      if before >= 0 {
        ModSmall(before, Size(Dimension()));
      }
      var difference := Minus(number);
      Assign(difference);
    }

    /** `operator++`. */
    method Increment()
      requires LONG_SIZE <= Dimension()
      modifies buffer
      ensures Number() == (old(Number()) + 1) % Size(Dimension())
    {
      var one := new ULong.FromLong(Dimension(), 1);
      PlusAssign(one);
    }

    /** `operator--`; zero wraps to the largest number. */
    method Decrement()
      requires LONG_SIZE <= Dimension()
      modifies buffer
      ensures Number() == (old(Number()) - 1) % Size(Dimension())
      ensures old(Number()) > 0 ==> Number() == old(Number()) - 1
    {
      var one := new ULong.FromLong(Dimension(), 1);
      MinusAssign(one);
    }

    /** How many hexadecimal digits the number has. */
    method GetDigitCapacity() returns (result: nat)
      ensures result == HexDigits(Number()) <= 2 * Dimension()
    {
      ghost var s := buffer[..];
      result := 2 * Dimension();
      for i := Dimension() downto 0
        invariant result == 2 * i && ClearFrom(s, result)
      {
        assert Digit(s, 2 * i) == s[i] % 16 && Digit(s, 2 * i + 1) == s[i] / 16;
        var firstPart := buffer[i] / 16;
        var secondPart := Nibble(buffer[i], 0);
        if secondPart == 0 && firstPart == 0 {
          result := result - 2;
        } else if firstPart == 0 && secondPart != 0 {
          result := result - 1;
          DigitsOfLow(s, result);
          HasDigitsUnique(Value(s), result);
          return;
        } else {
          DigitsOfLow(s, result);
          HasDigitsUnique(Value(s), result);
          return;
        }
      }
      DigitsOfLow(s, result);
      HasDigitsUnique(Value(s), result);
    }

    /** Left shift in place by any number of hexadecimal digits; digits pushed off the top are lost. */
    method MultiplyBy16InPowDigits(digits: nat)
      modifies buffer
      ensures Number() == (old(Number()) * Hex(digits)) % Size(Dimension())
    {
      hide Value, Low, Place, Hex, Size;
      var dimension := Dimension();
      var tmpBuff := new ULong.Copy(this);
      ghost var s := tmpBuff.buffer[..];
      forall i | 0 <= i < dimension {
        buffer[i] := 0;
      }
      var nonParity := digits % 2;
      var i := digits / 2;
      while i < dimension
        invariant tmpBuff.buffer[..] == s
        invariant ShiftedFrom(s, buffer[..], digits, 2 * (dimension - i - 1), 0)
      {
        for j := 0 to 2
          invariant tmpBuff.buffer[..] == s
          invariant ShiftedFrom(s, buffer[..], digits, 2 * (dimension - i - 1), j)
        {
          var current := Nibble(tmpBuff.buffer[dimension - 1 - i], j);
          var shift := if nonParity == 1 then 1 - j else j;
          var index := i - digits / 2 - (if nonParity == 1 then j else 0);
          ghost var u, was := 2 * (dimension - i - 1), buffer[..];
          assert (u + j) / 2 == dimension - 1 - i && (u + j) % 2 == j;
          ShiftTarget(dimension, digits, i, j);
          if index >= 0 {
            var at := dimension - 1 - index;
            buffer[at] := AddByte(buffer[at], Shift4(current, shift));
          }
          ShiftStep(s, was, buffer[..], digits, u, j);
        }
        i := i + 1;
      }
      ShiftedValue(s, buffer[..], digits);
    }

    /** Takes one unit of the given digit off. */
    method DropUnit(places: nat)
      requires LONG_SIZE <= Dimension() && Hex(places) <= Number()
      modifies buffer
      ensures Number() == old(Number()) - Hex(places)
    {
      hide Value, Size, Hex;
      InRange();
      var diff := new ULong.FromLong(Dimension(), 1);
      diff.MultiplyBy16InPowDigits(places);
      ModSmall(1 * Hex(places), Size(Dimension()));
      MinusAssign(diff);
    }

    /**
     * `operator*`: for each unit of each hexadecimal digit of the multiplier, add the multiplicand
     * shifted to that digit's place. `turns` counts the turns of the loop.
     */
    method Times(number: ULong) returns (result: ULong, ghost turns: nat)
      requires Dimension() == number.Dimension() && LONG_SIZE <= Dimension()
      ensures fresh(result) && fresh(result.buffer) && result.Dimension() == Dimension()
      ensures result.Number() == (Number() * number.Number()) % Size(Dimension())
      ensures turns == DigitSum(number.Number())
    {
      hide Value, Size, Hex, DigitSum, HexDigits, HasDigits, ULong.Number;
      var counter := new ULong.Copy(number);
      result := new ULong.Zero(Dimension());
      turns := 0;
      ghost var m, a, b := Size(Dimension()), Number(), number.Number();
      ProductStart(a, b, m);
      var capacity: nat := counter.GetDigitCapacity();
      var done := counter.IsZero();
      while !done
        invariant done == (counter.Number() == 0)
        invariant capacity == HexDigits(counter.Number())
        invariant counter.Number() <= b
        invariant result.Number() == (a * (b - counter.Number())) % m
        invariant turns + DigitSum(counter.Number()) == DigitSum(b)
        decreases counter.Number()
      {
        ghost var c, was := counter.Number(), result.Number();
        LeadingDigit(c, capacity);
        DigitSumStep(c, capacity);
        counter.InRange();

        var tmp := new ULong.Copy(this);
        tmp.MultiplyBy16InPowDigits(capacity - 1);
        result.PlusAssign(tmp);

        counter.DropUnit(capacity - 1);
        ProductStep(a, b, c, Hex(capacity - 1), m);
        capacity := counter.GetDigitCapacity();
        done := counter.IsZero();
        turns := turns + 1;
      }
      DigitSumZero();
    }

    /** Every number fits its buffer. */
    lemma InRange()
      ensures Number() < Size(Dimension())
    {
      LowIsValue(buffer[..]);
    }

    /** The inner loop of the division, on the remainder: subtract while it fits, counting in the quotient. */
    method SubtractWhileAtLeast(step: ULong, q: ULong, quotient: ULong, ghost n: nat, ghost d: nat)
      requires Dimension() == step.Dimension() == q.Dimension() == quotient.Dimension()
      requires {buffer, quotient.buffer} !! {step.buffer, q.buffer} && buffer != quotient.buffer
      requires n < Size(Dimension()) && 0 < d && q.Number() > 0 && step.Number() == d * q.Number()
      requires n == quotient.Number() * d + Number()
      modifies buffer, quotient.buffer
      ensures n == quotient.Number() * d + Number()
      ensures Number() < step.Number() && Number() <= old(Number())
    {
      hide Value, Size, ULong.Number;
      MulMonotone(1, d, q.Number());
      var again := AtLeast(step);
      while again
        invariant again == (Number() >= step.Number()) && Number() <= old(Number())
        invariant n == quotient.Number() * d + Number()
        decreases Number()
      {
        QuotientFits(n, quotient.Number(), d, Number(), q.Number());
        ModSmall(quotient.Number() + q.Number(), Size(Dimension()));
        MinusAssign(step);
        quotient.PlusAssign(q);
        again := AtLeast(step);
      }
    }

    /**
     * The body of the division's outer loop, on the remainder: shift a copy of the divider as far as it
     * certainly fits, one digit further when the comparison allows it, and subtract it out.
     */
    method DividePass(divider: ULong, quotient: ULong, places: nat, ghost n: nat)
      requires LONG_SIZE <= Dimension() == divider.Dimension() == quotient.Dimension()
      requires {buffer, quotient.buffer} !! {divider.buffer} && buffer != quotient.buffer
      requires n < Size(Dimension()) && 0 < divider.Number()
      requires HexDigits(divider.Number()) + 1 + places == HexDigits(Number()) <= 2 * Dimension()
      requires n == quotient.Number() * divider.Number() + Number()
      modifies buffer, quotient.buffer
      ensures n == quotient.Number() * divider.Number() + Number()
      ensures Number() < old(Number())
      ensures PassesLeft(Number(), divider.Number()) + 1 <= PassesLeft(old(Number()), divider.Number())
    {
      hide Value, Size, Hex, HexDigits, PassesLeft, ULong.Number;
      ghost var d, r, m, h := divider.Number(), Number(), Size(Dimension()), Hex(places);
      HexOne();
      ShiftFits(d, r, Dimension());

      var dividerClone := new ULong.Copy(divider);
      dividerClone.MultiplyBy16InPowDigits(places);
      ModSmall(d * h, m);
      var q := new ULong.FromLong(Dimension(), 1);
      q.MultiplyBy16InPowDigits(places);
      ModSmall(1 * h, m);
      var tmp := new ULong.Copy(dividerClone);
      tmp.MultiplyBy16InPowDigits(1);
      ModSmall((d * h) * 16, m);

      var further := AtLeast(tmp);
      if further {
        dividerClone.Assign(tmp);
        q.MultiplyBy16InPowDigits(1);
        ModSmall(h * 16, m);
      }
      SubtractWhileAtLeast(dividerClone, q, quotient, n, d);
      PassProgress(r, Number(), d);
    }

    /**
     * Long division: passes while the remainder has more digits than the divider, then plain
     * subtraction. `passes` counts the turns of the outer loop.
     */
    method DivideInternal(divider: ULong, quotient: ULong, remainder: ULong) returns (ghost passes: nat)
      requires LONG_SIZE <= Dimension() == divider.Dimension() == quotient.Dimension() == remainder.Dimension()
      requires divider.Number() > 0
      requires quotient.buffer != remainder.buffer
      requires {quotient.buffer, remainder.buffer} !! {buffer, divider.buffer}
      modifies quotient.buffer, remainder.buffer
      ensures Number() == quotient.Number() * divider.Number() + remainder.Number()
      ensures remainder.Number() < divider.Number()
      ensures passes <= PassBound(HexDigits(Number()), HexDigits(divider.Number()))
    {
      hide Value, Size, Hex, HexDigits, PassesLeft, PassBound, ULong.Number;
      ghost var n, d := Number(), divider.Number();
      InRange();
      remainder.Assign(this);
      var zero := new ULong.FromLong(Dimension(), 0);
      quotient.Assign(zero);
      passes := 0;
      var capacityRemainder: nat := remainder.GetDigitCapacity();
      var capacityDivider: nat := divider.GetDigitCapacity();
      PassesBounded(n, d);
      while capacityRemainder > capacityDivider
        invariant capacityRemainder == HexDigits(remainder.Number()) <= 2 * Dimension()
        invariant n == quotient.Number() * d + remainder.Number()
        invariant passes + PassesLeft(remainder.Number(), d) <= PassesLeft(n, d)
        decreases remainder.Number()
      {
        remainder.DividePass(divider, quotient, capacityRemainder - capacityDivider - 1, n);
        capacityRemainder := remainder.GetDigitCapacity();
        passes := passes + 1;
      }
      var again := remainder.AtLeast(divider);
      while again
        invariant again == (remainder.Number() >= d)
        invariant n == quotient.Number() * d + remainder.Number()
        decreases remainder.Number()
      {
        QuotientFits(n, quotient.Number(), d, remainder.Number(), 1);
        ModSmall(quotient.Number() + 1, Size(Dimension()));
        remainder.MinusAssign(divider);
        quotient.Increment();
        again := remainder.AtLeast(divider);
      }
    }

    /** `operator/`. */
    method DividedBy(divider: ULong) returns (quotient: ULong)
      requires LONG_SIZE <= Dimension() == divider.Dimension() && divider.Number() > 0
      ensures fresh(quotient) && fresh(quotient.buffer) && quotient.Dimension() == Dimension()
      ensures quotient.Number() == Number() / divider.Number()
    {
      hide Value, ULong.Number;
      quotient := new ULong.Zero(Dimension());
      var remainder := new ULong.Zero(Dimension());
      ghost var passes := DivideInternal(divider, quotient, remainder);
      DivModUnique(Number(), divider.Number(), quotient.Number(), remainder.Number());
    }

    /** `operator%`. */
    method Modulo(divider: ULong) returns (remainder: ULong)
      requires LONG_SIZE <= Dimension() == divider.Dimension() && divider.Number() > 0
      ensures fresh(remainder) && fresh(remainder.buffer) && remainder.Dimension() == Dimension()
      ensures remainder.Number() == Number() % divider.Number()
    {
      hide Value, ULong.Number;
      var quotient := new ULong.Zero(Dimension());
      remainder := new ULong.Zero(Dimension());
      ghost var passes := DivideInternal(divider, quotient, remainder);
      DivModUnique(Number(), divider.Number(), quotient.Number(), remainder.Number());
    }

    /** Copies the lowest `size` bytes out. */
    method CopyBinary(data: array<Byte>, size: nat)
      requires size <= Dimension() && size <= data.Length && data != buffer
      modifies data
      ensures data[..size] == buffer[..size] && data[size..] == old(data[size..])
    {
      forall i | 0 <= i < size {
        data[i] := buffer[i];
      }
    }

    /** The buffer as a vector of bytes. */
    method GetBinary() returns (binary: seq<Byte>)
      ensures |binary| == Dimension() && Value(binary) == Number() && binary == buffer[..]
    {
      binary := buffer[..];
    }

    method IsEvenNumber() returns (r: bool)
      requires 0 < Dimension()
      ensures r == (Number() % 2 == 0)
    {
      ParityDigit(buffer[..]);
      hide Value, Nibble;
      var lastDigit := Nibble(buffer[0], 0);
      r := !(lastDigit != 0 && lastDigit % 2 != 0);
    }

    /** The expression `( *this * a ) % b`, when the product fits the buffer. */
    method TimesModulo(a: ULong, b: ULong) returns (result: ULong)
      requires LONG_SIZE <= Dimension() == a.Dimension() == b.Dimension() && b.Number() > 0
      requires 0 <= Number() * a.Number() < Size(Dimension())
      ensures fresh(result) && fresh(result.buffer) && result.Dimension() == Dimension()
      ensures result.Number() == (Number() * a.Number()) % b.Number()
    {
      hide Value, Size, ULong.Number;
      var product, turns := Times(a);
      ModSmall(Number() * a.Number(), Size(Dimension()));
      result := product.Modulo(b);
    }

    /**
     * Multiply and reduce in place. Both branches give the exact residue: the narrow one because the
     * product cannot overflow, the wide one because it computes in twice the width. `a` and `b` may be
     * this very object.
     */
    method MultiplyAmodB(a: ULong, b: ULong)
      requires LONG_SIZE <= Dimension() == a.Dimension() == b.Dimension() && b.Number() > 0
      modifies buffer
      ensures Number() == old(Number() * a.Number()) % old(b.Number())
    {
      hide Value, Size, HexDigits;
      InRange();
      a.InRange();
      b.InRange();
      var dimension := Dimension();
      var digits := GetDigitCapacity();
      var digitsA := a.GetDigitCapacity();
      if digits + digitsA <= dimension {
        NarrowProduct(Number(), a.Number(), dimension);
        var result := TimesModulo(a, b);
        Assign(result);
      } else {
        WideProduct(Number(), a.Number(), dimension);
        var extThis := new ULong.FromBinary(dimension * 2, buffer[..]);
        var extA := new ULong.FromBinary(dimension * 2, a.buffer[..]);
        var extB := new ULong.FromBinary(dimension * 2, b.buffer[..]);
        var extResult := extThis.TimesModulo(extA, extB);
        ValueTruncate(extResult.buffer[..], dimension);
        extResult.CopyBinary(buffer, dimension);
        assert buffer[..] == buffer[..dimension];
      }
    }
  }
}
