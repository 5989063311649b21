/** The additive stream cipher keyed by the exchanged secret. */
module Cipher {
  import opened Powers
  import opened Digits
  import opened BigInteger
  import opened KeyExchange
  import opened Options

  datatype Direction = Encrypting | Decrypting

  /** One byte of the stream: a signed or unsigned char addition or subtraction that wraps. */
  function Step(direction: Direction, b: Byte, k: Byte): Byte {
    match direction
    case Encrypting => (b + k) % 256
    case Decrypting => (b - k) % 256
  }

  /** A counter after `i` more bytes: it cycles through the key. */
  function After(count: nat, i: nat, size: nat): (r: nat)
    requires size > 0
    ensures r < size
  {
    (count + i) % size
  }

  /** The byte of the repeated key that meets byte `i` of a call started at `position`. */
  function KeyByte(key: seq<Byte>, position: nat, i: nat): Byte
    requires |key| > 0
  {
    key[After(position, i, |key|)]
  }

  lemma AfterSteps(count: nat, i: nat, j: nat, size: nat)
    requires size > 0
    ensures After(After(count, i, size), j, size) == After(count, i + j, size)
    ensures count < size ==> After(count, 0, size) == count
  {
    ModAdd(count + i, j, size);
    if count < size {
      ModSmall(count, size);
    }
  }

  /** Byte `i` of the data meets byte `position + i` of the repeated key. */
  function Streamed(direction: Direction, data: seq<Byte>, key: seq<Byte>, position: nat): (r: seq<Byte>)
    requires |key| > 0
    ensures |r| == |data|
  {
    seq(|data|, i requires 0 <= i < |data| => Step(direction, data[i], KeyByte(key, position, i)))
  }

  /** Byte `i` is added to, or has subtracted from it, byte `position + i` of the key repeated for ever, modulo 256. */
  lemma StreamedBytes(data: seq<Byte>, key: seq<Byte>, position: nat)
    requires |key| > 0
    ensures forall i :: 0 <= i < |data| ==>
      Streamed(Encrypting, data, key, position)[i] == (data[i] as int + key[(position + i) % |key|]) % 256
    ensures forall i :: 0 <= i < |data| ==>
      Streamed(Decrypting, data, key, position)[i] == (data[i] as int - key[(position + i) % |key|]) % 256
  {
  }

  function Flatten(chunks: seq<seq<Byte>>): seq<Byte> {
    if chunks == [] then [] else chunks[0] + Flatten(chunks[1..])
  }

  /** A run of calls, each starting where the one before left the counter. */
  function StreamedChunks(direction: Direction, chunks: seq<seq<Byte>>, key: seq<Byte>, position: nat): seq<Byte>
    requires |key| > 0
  {
    if chunks == [] then
      []
    else
      Streamed(direction, chunks[0], key, position)
      + StreamedChunks(direction, chunks[1..], key, After(position, |chunks[0]|, |key|))
  }

  /** A call may be cut in two, the second part starting from the wrapped counter. */
  lemma StreamedSplit(direction: Direction, a: seq<Byte>, b: seq<Byte>, key: seq<Byte>, position: nat)
    requires |key| > 0
    ensures Streamed(direction, a + b, key, position)
      == Streamed(direction, a, key, position) + Streamed(direction, b, key, After(position, |a|, |key|))
  {
    hide After, Step;
    var next := After(position, |a|, |key|);
    var whole, second := Streamed(direction, a + b, key, position), Streamed(direction, b, key, next);
    forall i: nat | i < |b|
      ensures whole[|a| + i] == second[i]
    {
      AfterSteps(position, |a|, i, |key|);
    }
    assert forall i :: 0 <= i < |a| ==> whole[i] == Streamed(direction, a, key, position)[i];
    assert forall i :: |a| <= i < |a + b| ==> whole[i] == second[i - |a|] by {
      forall i | |a| <= i < |a + b|
        ensures whole[i] == second[i - |a|]
      {
        assert whole[|a| + (i - |a|)] == second[i - |a|];
      }
    }
  }

  /** How the bytes are cut into calls does not matter. */
  lemma {:induction false} ChunkingIrrelevant(direction: Direction, chunks: seq<seq<Byte>>, key: seq<Byte>, position: nat)
    requires |key| > 0
    ensures StreamedChunks(direction, chunks, key, position) == Streamed(direction, Flatten(chunks), key, position)
  {
    hide Streamed;
    if chunks != [] {
      var next := After(position, |chunks[0]|, |key|);
      ChunkingIrrelevant(direction, chunks[1..], key, next);
      StreamedSplit(direction, chunks[0], Flatten(chunks[1..]), key, position);
    } else {
      assert Flatten(chunks) == [];
    }
  }

  lemma DecryptUndoesEncrypt(data: seq<Byte>, key: seq<Byte>, position: nat)
    requires |key| > 0
    ensures Streamed(Decrypting, Streamed(Encrypting, data, key, position), key, position) == data
  {
    hide KeyByte, Step;
    forall i | 0 <= i < |data|
      ensures Step(Decrypting, Step(Encrypting, data[i], KeyByte(key, position, i)), KeyByte(key, position, i)) == data[i]
    {
      StepUndone(data[i], KeyByte(key, position, i));
    }
  }

  lemma StepUndone(b: Byte, k: Byte)
    ensures Step(Decrypting, Step(Encrypting, b, k), k) == b
  {
  }

  /** Decrypting under any cutting undoes encrypting under any other cutting of the same bytes. */
  lemma StreamRoundTrip(sent: seq<seq<Byte>>, received: seq<seq<Byte>>, key: seq<Byte>, position: nat)
    requires |key| > 0
    requires Flatten(received) == StreamedChunks(Encrypting, sent, key, position)
    ensures StreamedChunks(Decrypting, received, key, position) == Flatten(sent)
  {
    ChunkingIrrelevant(Encrypting, sent, key, position);
    ChunkingIrrelevant(Decrypting, received, key, position);
    DecryptUndoesEncrypt(Flatten(sent), key, position);
  }

  class Crypter {
    const keyExchanger: DiffieHellmanKeysExchanger
    var exchangeKey: seq<Byte>
    var sharedKey: seq<Byte>
    var keySize: nat
    var encryptCount: nat
    var decryptCount: nat

    predicate Valid()
      reads this
    {
      && keyExchanger.Valid()
      && (|sharedKey| == keySize == 0 || |sharedKey| == keySize == keyExchanger.moduleLength)
      && (if keySize == 0 then encryptCount == decryptCount == 0 else encryptCount < keySize && decryptCount < keySize)
    }

    constructor (moduleLength: nat, cryptoPModule: seq<Byte>, cryptoGModule: nat)
      requires LONG_SIZE <= moduleLength == |cryptoPModule| && cryptoGModule < 0x1_0000_0000
      ensures Valid() && sharedKey == [] && encryptCount == decryptCount == 0
      ensures fresh(keyExchanger) && fresh(keyExchanger.x) && fresh(keyExchanger.x.buffer)
      ensures keyExchanger.moduleLength == moduleLength
      ensures keyExchanger.cryptoPModule == cryptoPModule && keyExchanger.cryptoGModule == cryptoGModule
    {
      keyExchanger := new DiffieHellmanKeysExchanger(moduleLength, cryptoPModule, cryptoGModule);
      exchangeKey, sharedKey := [], [];
      keySize, encryptCount, decryptCount := 0, 0, 0;
    }

    method GenerateExchangeKey(random: Option<seq<Byte>>)
      requires Valid() && keyExchanger.Modulus() > 0
      requires random.Some? ==> |random.value| == keyExchanger.moduleLength
      modifies this`exchangeKey, keyExchanger.x.buffer
      ensures Valid()
      ensures random.None? ==> exchangeKey == old(exchangeKey)
      ensures random.Some? ==>
        && keyExchanger.x.Number() == Value(Reversed(random.value))
        && |exchangeKey| == keyExchanger.moduleLength
        && Value(exchangeKey) == ModularPower(keyExchanger.cryptoGModule, keyExchanger.x.Number(), keyExchanger.Modulus())
    {
      var data := keyExchanger.GenerateExchangeData(random);
      if data.Some? {
        exchangeKey := data.value;
      }
    }

    /** A received key that is too long is refused and the old shared key stays. */
    method CreateSharedKey(receiveKey: seq<Byte>)
      requires Valid() && keyExchanger.Modulus() > 0 && |receiveKey| >= keyExchanger.moduleLength
      modifies this`sharedKey, this`keySize
      ensures Valid()
      ensures |receiveKey| > keyExchanger.moduleLength ==> sharedKey == old(sharedKey) && keySize == old(keySize)
      ensures |receiveKey| == keyExchanger.moduleLength ==>
        && |sharedKey| == keySize == keyExchanger.moduleLength
        && Value(sharedKey) == ModularPower(Value(receiveKey), keyExchanger.x.Number(), keyExchanger.Modulus())
    {
      var data := keyExchanger.CompleteExchangeData(receiveKey);
      if data.Some? {
        sharedKey := data.value;
      }
      keySize := |sharedKey|;
    }

    method Encrypt(originalData: array<Byte>) returns (ok: bool)
      requires Valid()
      modifies originalData, this`encryptCount
      ensures Valid()
      ensures ok <==> originalData.Length > 0 && keySize > 0
      ensures !ok ==> originalData[..] == old(originalData[..]) && encryptCount == old(encryptCount)
      ensures ok ==> forall i :: 0 <= i < originalData.Length ==>
        originalData[i] == (old(originalData[..])[i] as int + sharedKey[(old(encryptCount) + i) % keySize]) % 256
      ensures ok ==> encryptCount == (old(encryptCount) + originalData.Length) % keySize
      ensures ok ==> originalData[..] == Streamed(Encrypting, old(originalData[..]), sharedKey, old(encryptCount))
    {
      var dataSize := originalData.Length;
      if dataSize == 0 || keySize == 0 {
        return false;
      }
      ghost var was := originalData[..];
      ghost var result := Streamed(Encrypting, was, sharedKey, encryptCount);
      StreamedBytes(was, sharedKey, encryptCount);
      ghost var end := After(encryptCount, dataSize, keySize);
      assert end == (encryptCount + dataSize) % keySize;
      hide Step, After;
      AfterSteps(encryptCount, 0, 0, keySize);
      for i := 0 to dataSize
        invariant Valid() && encryptCount == After(old(encryptCount), i, keySize)
        invariant forall k :: 0 <= k < i ==> originalData[k] == result[k]
        invariant forall k :: i <= k < dataSize ==> originalData[k] == was[k]
      {
        AfterSteps(old(encryptCount), i, 1, keySize);
        assert result[i] == Step(Encrypting, was[i], sharedKey[encryptCount]);
        originalData[i] := Step(Encrypting, originalData[i], sharedKey[encryptCount]);
        encryptCount := After(encryptCount, 1, keySize);
      }
      return true;
    }

    method Decrypt(encryptedData: array<Byte>) returns (ok: bool)
      requires Valid()
      modifies encryptedData, this`decryptCount
      ensures Valid()
      ensures ok <==> encryptedData.Length > 0 && keySize > 0
      ensures !ok ==> encryptedData[..] == old(encryptedData[..]) && decryptCount == old(decryptCount)
      ensures ok ==> forall i :: 0 <= i < encryptedData.Length ==>
        encryptedData[i] == (old(encryptedData[..])[i] as int - sharedKey[(old(decryptCount) + i) % keySize]) % 256
      ensures ok ==> decryptCount == (old(decryptCount) + encryptedData.Length) % keySize
      ensures ok ==> encryptedData[..] == Streamed(Decrypting, old(encryptedData[..]), sharedKey, old(decryptCount))
    {
      var dataSize := encryptedData.Length;
      if dataSize == 0 || keySize == 0 {
        return false;
      }
      ghost var was := encryptedData[..];
      ghost var result := Streamed(Decrypting, was, sharedKey, decryptCount);
      StreamedBytes(was, sharedKey, decryptCount);
      ghost var end := After(decryptCount, dataSize, keySize);
      assert end == (decryptCount + dataSize) % keySize;
      hide Step, After;
      AfterSteps(decryptCount, 0, 0, keySize);
      for i := 0 to dataSize
        invariant Valid() && decryptCount == After(old(decryptCount), i, keySize)
        invariant forall k :: 0 <= k < i ==> encryptedData[k] == result[k]
        invariant forall k :: i <= k < dataSize ==> encryptedData[k] == was[k]
      {
        AfterSteps(old(decryptCount), i, 1, keySize);
        assert result[i] == Step(Decrypting, was[i], sharedKey[decryptCount]);
        encryptedData[i] := Step(Decrypting, encryptedData[i], sharedKey[decryptCount]);
        decryptCount := After(decryptCount, 1, keySize);
      }
      return true;
    }
  }

  /**
   * End to end: two crypters agree on a key from each other's exchange keys, one encrypts a message in
   * place and the other, whose counter is aligned, recovers it.
   */
  method SecureTransfer(alice: Crypter, bob: Crypter, randomA: seq<Byte>, randomB: seq<Byte>, message: array<Byte>)
    requires alice.Valid() && bob.Valid() && alice != bob
    requires alice.keyExchanger.x.buffer != bob.keyExchanger.x.buffer
    requires message !in {alice.keyExchanger.x.buffer, bob.keyExchanger.x.buffer}
    requires alice.keyExchanger.moduleLength == bob.keyExchanger.moduleLength == |randomA| == |randomB|
    requires alice.keyExchanger.cryptoPModule == bob.keyExchanger.cryptoPModule
    requires alice.keyExchanger.cryptoGModule == bob.keyExchanger.cryptoGModule
    requires alice.keyExchanger.Modulus() > 1 && alice.encryptCount == bob.decryptCount
    modifies alice, bob, alice.keyExchanger.x.buffer, bob.keyExchanger.x.buffer, message
    ensures alice.Valid() && bob.Valid()
    ensures alice.sharedKey == bob.sharedKey && |alice.sharedKey| == alice.keyExchanger.moduleLength
    ensures message[..] == old(message[..]) && alice.encryptCount == bob.decryptCount
  {
    hide ModularPower, Value, ULong.Number;
    alice.GenerateExchangeKey(Some(randomA));
    bob.GenerateExchangeKey(Some(randomB));
    alice.CreateSharedKey(bob.exchangeKey);
    bob.CreateSharedKey(alice.exchangeKey);
    KeyAgreement(alice.keyExchanger.cryptoGModule, alice.keyExchanger.x.Number(), bob.keyExchanger.x.Number(), alice.keyExchanger.Modulus());
    ValueInjective(alice.sharedKey, bob.sharedKey);
    ghost var plain, position := message[..], alice.encryptCount;
    var sent := alice.Encrypt(message);
    var received := bob.Decrypt(message);
    DecryptUndoesEncrypt(plain, alice.sharedKey, position);
  }
}
