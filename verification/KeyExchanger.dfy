/** Diffie-Hellman key exchange over the fixed-width integers (the agreement of section 2.1.1 of RFC 2631). */
module KeyExchange {
  import opened Powers
  import opened Digits
  import opened BigInteger
  import opened Options

  /** What square-and-multiply returns: an untouched 1 for exponent zero, the residue otherwise. */
  ghost function ModularPower(a: nat, b: nat, n: nat): nat
    requires n > 0
  {
    if b == 0 then 1 else Pow(a, b) % n
  }

  /** It is the true residue for every base and exponent, except 1 modulo 1. */
  lemma ModularPowerIsResidue(a: nat, b: nat, n: nat)
    requires n > 0
    ensures ModularPower(a, b, n) == Pow(a, b) % n <==> n > 1 || b > 0
  {
    if n > 1 {
      ModSmall(1, n);
    }
  }

  /** Raising to two exponents in either order gives one key, unless the modulus is 1 and exactly one exponent is 0. */
  lemma KeyAgreement(g: nat, x: nat, y: nat, p: nat)
    requires p > 0
    ensures ModularPower(ModularPower(g, x, p), y, p) == ModularPower(ModularPower(g, y, p), x, p)
      <==> p > 1 || (x == 0 <==> y == 0)
  {
    if p == 1 {
    } else {
      SharedPower(g, x, y, p);
      SharedPower(g, y, x, p);
      assert x * y == y * x;
    }
  }

  lemma SharedPower(g: nat, x: nat, y: nat, p: nat)
    requires p > 1
    ensures ModularPower(ModularPower(g, x, p), y, p) == Pow(g, x * y) % p
  {
    ModularPowerIsResidue(g, x, p);
    ModularPowerIsResidue(ModularPower(g, x, p), y, p);
    PowOfRemainder(Pow(g, x), y, p);
    PowMul(g, x, y);
  }

  // Square-and-multiply

  /** Turns of the loop: one to halve an even counter, one to make an odd counter even. */
  function Turns(c: nat): nat {
    if c == 0 then 0 else if c % 2 == 0 then 1 + Turns(c / 2) else 1 + Turns(c - 1)
  }

  function BitLength(c: nat): nat {
    if c == 0 then 0 else 1 + BitLength(c / 2)
  }

  lemma {:induction false} TurnsBound(c: nat)
    ensures Turns(c) <= 2 * BitLength(c)
  {
    if c > 0 {
      TurnsBound(c / 2);
      if c % 2 == 1 {
        assert (c - 1) / 2 == c / 2;
      }
    }
  }

  lemma SquareTurn(r: nat, x: nat, c: nat, n: nat)
    requires n > 0 && c % 2 == 0
    ensures 0 <= r * Pow((x * x) % n, c / 2)
    ensures (r * Pow((x * x) % n, c / 2)) % n == (r * Pow(x, c)) % n
  {
    var h := c / 2;
    PowOfRemainder(x * x, h, n);
    PowSquare(x, h);
    MulMonotone(0, r, Pow((x * x) % n, h));
    ModMul(Pow((x * x) % n, h), r, n);
    ModMul(Pow(x, c), r, n);
  }

  lemma MultiplyTurn(r: nat, x: nat, c: nat, n: nat)
    requires n > 0 && c > 0
    ensures (((r * x) % n) * Pow(x, c - 1)) % n == (r * Pow(x, c)) % n
  {
    ModMul(r * x, Pow(x, c - 1), n);
    MulAssoc(r, x, Pow(x, c - 1));
  }

  /** In-place reversal of a byte vector. */
  function Reversed(s: seq<Byte>): (r: seq<Byte>)
    ensures |r| == |s|
    ensures forall i :: 0 <= i < |s| ==> r[i] == s[|s| - 1 - i]
  {
    if s == [] then [] else Reversed(s[1..]) + [s[0]]
  }

  method InvertBinary(binary: array<Byte>)
    modifies binary
    ensures binary[..] == Reversed(old(binary[..]))
  {
    var capacity := binary.Length;
    for i := 0 to capacity / 2
      invariant forall k :: 0 <= k < i ==> binary[k] == old(binary[capacity - 1 - k]) && binary[capacity - 1 - k] == old(binary[k])
      invariant forall k :: i <= k < capacity - i ==> binary[k] == old(binary[k])
    {
      var tmp := binary[i];
      binary[i] := binary[capacity - i - 1];
      binary[capacity - i - 1] := tmp;
    }
  }

  method ApowBmodN(a: ULong, b: ULong, n: ULong) returns (result: ULong, ghost turns: nat)
    requires LONG_SIZE <= a.Dimension() == b.Dimension() == n.Dimension() && n.Number() > 0
    ensures fresh(result) && fresh(result.buffer) && result.Dimension() == a.Dimension()
    ensures result.Number() == ModularPower(a.Number(), b.Number(), n.Number())
    ensures turns <= 2 * BitLength(b.Number())
  {
    hide Pow, Value, Turns, BitLength, ULong.Number;
    ghost var av, bv, nv := a.Number(), b.Number(), n.Number();
    result := new ULong.FromLong(a.Dimension(), 1);
    var counter := new ULong.Copy(b);
    var base := new ULong.Copy(a);
    turns := 0;
    TurnsBound(bv);
    var done := counter.IsZero();
    while !done
      invariant done == (counter.Number() == 0)
      invariant (result.Number() * Pow(base.Number(), counter.Number())) % nv == Pow(av, bv) % nv
      invariant counter.Number() == 0 ==> (bv == 0 && result.Number() == 1) || result.Number() < nv
      invariant counter.Number() == bv == 0 ==> result.Number() == 1
      invariant turns + Turns(counter.Number()) == Turns(bv)
      decreases counter.Number()
    {
      ghost var r, c, x := result.Number(), counter.Number(), base.Number();
      TurnsStep(c);
      var even := counter.IsEvenNumber();
      if even {
        SquareTurn(r, x, c, nv);
        var two := new ULong.FromLong(a.Dimension(), 2);
        var half := counter.DividedBy(two);
        counter.Assign(half);
        base.MultiplyAmodB(base, n);
      } else {
        MultiplyTurn(r, x, c, nv);
        counter.Decrement();
        result.MultiplyAmodB(base, n);
      }
      turns := turns + 1;
      done := counter.IsZero();
    }
    PowersDone(result.Number(), base.Number(), av, bv, nv);
    TurnsStep(0);
  }

  lemma TurnsStep(c: nat)
    ensures Turns(c) == if c == 0 then 0 else if c % 2 == 0 then 1 + Turns(c / 2) else 1 + Turns(c - 1)
  {
  }

  lemma PowersDone(r: nat, x: nat, a: nat, b: nat, n: nat)
    requires n > 0 && (r * Pow(x, 0)) % n == Pow(a, b) % n
    requires (b == 0 && r == 1) || r < n
    ensures b > 0 || r == 1 ==> r == ModularPower(a, b, n)
  {
    if r < n {
      ModSmall(r, n);
    }
  }

  class DiffieHellmanKeysExchanger {
    const moduleLength: nat
    const cryptoPModule: seq<Byte>
    const cryptoGModule: nat
    /** The private exponent; zero until exchange data has been generated. */
    const x: ULong

    predicate Valid() {
      && LONG_SIZE <= moduleLength == |cryptoPModule| == x.Dimension()
      && cryptoGModule < 0x1_0000_0000
    }

    ghost function Modulus(): nat {
      Value(cryptoPModule)
    }

    constructor (moduleLength: nat, cryptoPModule: seq<Byte>, cryptoGModule: nat)
      requires LONG_SIZE <= moduleLength == |cryptoPModule| && cryptoGModule < 0x1_0000_0000
      ensures Valid() && fresh(x) && fresh(x.buffer) && x.Number() == 0
      ensures this.moduleLength == moduleLength
      ensures this.cryptoPModule == cryptoPModule && this.cryptoGModule == cryptoGModule
    {
      this.moduleLength := moduleLength;
      this.cryptoPModule := cryptoPModule;
      this.cryptoGModule := cryptoGModule;
      this.x := new ULong.Zero(moduleLength);
    }

    /** Construction as the source does it: a prime of the wrong size is refused. */
    static method Create(moduleLength: nat, cryptoPModule: seq<Byte>, cryptoGModule: nat)
      returns (exchanger: DiffieHellmanKeysExchanger?)
      requires LONG_SIZE <= moduleLength && cryptoGModule < 0x1_0000_0000
      ensures exchanger == null <==> |cryptoPModule| != moduleLength
      ensures exchanger != null ==>
        && fresh(exchanger) && fresh(exchanger.x) && fresh(exchanger.x.buffer)
        && exchanger.Valid() && exchanger.moduleLength == moduleLength
        && exchanger.cryptoPModule == cryptoPModule && exchanger.cryptoGModule == cryptoGModule
    {
      if |cryptoPModule| != moduleLength {
        return null;
      }
      exchanger := new DiffieHellmanKeysExchanger(moduleLength, cryptoPModule, cryptoGModule);
    }

    /** `random` is the outcome of the random source: nothing, or the bytes of the private exponent. */
    method GenerateExchangeData(random: Option<seq<Byte>>) returns (externalData: Option<seq<Byte>>)
      requires Valid() && Modulus() > 0
      requires random.Some? ==> |random.value| >= moduleLength
      modifies x.buffer
      ensures externalData.Some? <==> random.Some? && |random.value| <= moduleLength
      ensures externalData.Some? ==>
        && x.Number() == Value(Reversed(random.value))
        && |externalData.value| == moduleLength
        && Value(externalData.value) == ModularPower(cryptoGModule, x.Number(), Modulus())
      ensures externalData.None? ==> x.Number() == old(x.Number())
    {
      hide ModularPower, Pow, Value;
      var g := new ULong.FromLong(moduleLength, cryptoGModule);
      var p := new ULong.FromBinary(moduleLength, cryptoPModule);
      if random.None? {
        return None;
      }
      var size := |random.value|;
      var xBuff := new Byte[size](i requires 0 <= i < size => random.value[i]);
      if xBuff.Length <= moduleLength {
        assert xBuff[..] == random.value;
        InvertBinary(xBuff);
        var newX := new ULong.FromBinary(moduleLength, xBuff[..]);
        x.Assign(newX);
        var y, turns := ApowBmodN(g, x, p);
        var binary := y.GetBinary();
        return Some(binary);
      }
      return None;
    }

    method CompleteExchangeData(externalData: seq<Byte>) returns (sharedKey: Option<seq<Byte>>)
      requires Valid() && Modulus() > 0 && |externalData| >= moduleLength
      ensures sharedKey.Some? <==> |externalData| <= moduleLength
      ensures sharedKey.Some? ==>
        && |sharedKey.value| == moduleLength
        && Value(sharedKey.value) == ModularPower(Value(externalData), x.Number(), Modulus())
    {
      hide ModularPower, Pow, Value;
      if |externalData| <= moduleLength {
        var p := new ULong.FromBinary(moduleLength, cryptoPModule);
        var extData := new ULong.FromBinary(moduleLength, externalData);
        var y, turns := ApowBmodN(extData, x, p);
        var binary := y.GetBinary();
        return Some(binary);
      }
      return None;
    }
  }

  /** A whole exchange between two parties: the two shared keys are the same bytes. */
  method Exchange(alice: DiffieHellmanKeysExchanger, bob: DiffieHellmanKeysExchanger, randomA: seq<Byte>, randomB: seq<Byte>)
    returns (keyA: seq<Byte>, keyB: seq<Byte>)
    requires alice.Valid() && bob.Valid() && alice.x.buffer != bob.x.buffer
    requires alice.moduleLength == bob.moduleLength == |randomA| == |randomB|
    requires alice.cryptoPModule == bob.cryptoPModule && alice.cryptoGModule == bob.cryptoGModule
    requires alice.Modulus() > 0
    modifies alice.x.buffer, bob.x.buffer
    ensures |keyA| == |keyB| == alice.moduleLength
    ensures alice.Modulus() > 1 ==> keyA == keyB
    ensures alice.x.Number() == Value(Reversed(randomA)) && bob.x.Number() == Value(Reversed(randomB))
    ensures keyA == keyB <==> alice.Modulus() > 1 || (alice.x.Number() == 0 <==> bob.x.Number() == 0)
  {
    var dataA := alice.GenerateExchangeData(Some(randomA));
    var dataB := bob.GenerateExchangeData(Some(randomB));
    var a := alice.CompleteExchangeData(dataB.value);
    var b := bob.CompleteExchangeData(dataA.value);
    keyA, keyB := a.value, b.value;
    KeyAgreement(alice.cryptoGModule, alice.x.Number(), bob.x.Number(), alice.Modulus());
    ValueInjective(keyA, keyB);
  }
}
