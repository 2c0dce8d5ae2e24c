/** Encryption of configuration secrets: AES in CBC mode (section 6.2 of NIST SP 800-38A)
    with the padding of section 6.3 of RFC 5652, written in base64. The block function
    is any permutation of blocks for each key. */
module AesCbc {
  import opened Bytes
  import Base64

  const BLOCK: int := 16

  datatype Cipher = Cipher(enc: bytes -> bytes, dec: bytes -> bytes)

  /** aes.NewCipher for the keys it accepts. */
  type Aes = bytes -> Cipher

  /** `dec` undoes `enc` on blocks. */
  ghost predicate Lawful(c: Cipher) {
    && (forall b: bytes :: |b| == BLOCK ==> |c.enc(b)| == BLOCK && c.dec(c.enc(b)) == b)
    && (forall b: bytes :: |b| == BLOCK ==> |c.dec(b)| == BLOCK)
  }

  predicate ValidKey(key: bytes) { |key| == 16 || |key| == 24 || |key| == 32 }

  /** Panic: Go's index, slice or block-size panic. */
  datatype Result = Ok(value: bytes) | Err | Panic

  function Pow2(n: nat): nat { if n == 0 then 1 else 2 * Pow2(n - 1) }

  /** Exclusive or of the lowest `n` bits. */
  function XorBits(a: nat, b: nat, n: nat): (r: nat)
    ensures r < Pow2(n)
  {
    if n == 0 then 0 else (if a % 2 == b % 2 then 0 else 1) + 2 * XorBits(a / 2, b / 2, n - 1)
  }

  lemma Halves(bit: nat, rest: nat)
    requires bit < 2
    ensures (bit + 2 * rest) % 2 == bit && (bit + 2 * rest) / 2 == rest
  {
  }

  lemma {:induction false} XorBitsTwice(a: nat, b: nat, n: nat)
    requires a < Pow2(n)
    ensures XorBits(XorBits(a, b, n), b, n) == a
  {
    if n > 0 {
      Halves(if a % 2 == b % 2 then 0 else 1, XorBits(a / 2, b / 2, n - 1));
      XorBitsTwice(a / 2, b / 2, n - 1);
    }
  }

  function Bit(n: nat, i: nat): nat { if i == 0 then n % 2 else Bit(n / 2, i - 1) }

  /** A bit is set where exactly one of the two has it set. */
  lemma {:induction false} XorBitsAt(a: nat, b: nat, n: nat, i: nat)
    requires i < n
    ensures Bit(XorBits(a, b, n), i) == if Bit(a, i) == Bit(b, i) then 0 else 1
  {
    Halves(if a % 2 == b % 2 then 0 else 1, XorBits(a / 2, b / 2, n - 1));
    if i > 0 {
      XorBitsAt(a / 2, b / 2, n - 1, i - 1);
    }
  }

  lemma ByteBits()
    ensures Pow2(8) == 256
  {
    assert Pow2(4) == 16;
  }

  function XorByte(a: byte, b: byte): byte {
    ByteBits();
    XorBits(a, b, 8)
  }

  lemma XorByteTwice(a: byte, b: byte)
    ensures XorByte(XorByte(a, b), b) == a
  {
    ByteBits();
    XorBitsTwice(a, b, 8);
  }

  function Xor(a: bytes, b: bytes): (r: bytes)
    requires |a| == |b|
    ensures |r| == |a|
  {
    seq(|a|, i requires 0 <= i < |a| => XorByte(a[i], b[i]))
  }

  lemma XorTwice(a: bytes, b: bytes)
    requires |a| == |b|
    ensures Xor(Xor(a, b), b) == a
  {
    forall i | 0 <= i < |a|
      ensures Xor(Xor(a, b), b)[i] == a[i]
    {
      XorByteTwice(a[i], b[i]);
    }
  }

  predicate Blocks(data: bytes) { |data| % BLOCK == 0 }

  /** Every block is combined with the previous ciphertext block and enciphered. */
  function CbcEncrypt(c: Cipher, iv: bytes, data: bytes): (r: bytes)
    requires Lawful(c) && |iv| == BLOCK && Blocks(data)
    ensures |r| == |data|
    decreases |data|
  {
    if data == [] then []
    else
      var y := c.enc(Xor(data[..BLOCK], iv));
      y + CbcEncrypt(c, y, data[BLOCK..])
  }

  function CbcDecrypt(c: Cipher, iv: bytes, data: bytes): (r: bytes)
    requires Lawful(c) && |iv| == BLOCK && Blocks(data)
    ensures |r| == |data|
    decreases |data|
  {
    if data == [] then []
    else Xor(c.dec(data[..BLOCK]), iv) + CbcDecrypt(c, data[..BLOCK], data[BLOCK..])
  }

  lemma {:induction false} CbcRoundTrip(c: Cipher, iv: bytes, data: bytes)
    requires Lawful(c) && |iv| == BLOCK && Blocks(data)
    ensures CbcDecrypt(c, iv, CbcEncrypt(c, iv, data)) == data
    decreases |data|
  {
    if data != [] {
      var x := Xor(data[..BLOCK], iv);
      var y := c.enc(x);
      var rest := CbcEncrypt(c, y, data[BLOCK..]);
      assert (y + rest)[..BLOCK] == y && (y + rest)[BLOCK..] == rest;
      XorTwice(data[..BLOCK], iv);
      CbcRoundTrip(c, y, data[BLOCK..]);
      assert data == data[..BLOCK] + data[BLOCK..];
    }
  }

  function BlockAt(data: bytes, i: nat): bytes
    requires BLOCK * (i + 1) <= |data|
  {
    data[BLOCK * i..BLOCK * (i + 1)]
  }

  /** Every block is the encipherment of its text mixed with the block before it, and the
      first one with the vector. */
  lemma {:induction false} CbcBlocks(c: Cipher, iv: bytes, data: bytes, i: nat)
    requires Lawful(c) && |iv| == BLOCK && Blocks(data) && BLOCK * (i + 1) <= |data|
    ensures
      var y := CbcEncrypt(c, iv, data);
      BlockAt(y, i) == c.enc(Xor(BlockAt(data, i), if i == 0 then iv else BlockAt(y, i - 1)))
    decreases i
  {
    var head := c.enc(Xor(data[..BLOCK], iv));
    var tail := CbcEncrypt(c, head, data[BLOCK..]);
    if i == 0 {
      assert (head + tail)[..BLOCK] == head;
    } else {
      CbcBlocks(c, head, data[BLOCK..], i - 1);
      assert data == data[..BLOCK] + data[BLOCK..];
      BehindFirst(data[..BLOCK], data[BLOCK..], i);
      BehindFirst(head, tail, i);
      if i > 1 {
        BehindFirst(head, tail, i - 1);
      } else {
        assert (head + tail)[..BLOCK] == head;
      }
    }
  }

  lemma BehindFirst(head: bytes, tail: bytes, i: nat)
    requires |head| == BLOCK && 0 < i && BLOCK * i <= |tail|
    ensures BlockAt(head + tail, i) == BlockAt(tail, i - 1)
  {
  }

  /** One to sixteen bytes that all hold their number. */
  function Padding(n: nat): (r: bytes)
    ensures 1 <= |r| <= BLOCK && (n + |r|) % BLOCK == 0
    ensures forall i :: 0 <= i < |r| ==> r[i] == |r|
  {
    var k := BLOCK - n % BLOCK;
    seq(k, _ => k)
  }

  /** The bytes that are written in base64: the vector and the enciphered text. */
  function Seal(c: Cipher, plaintext: bytes, iv: bytes): bytes
    requires Lawful(c) && |iv| == BLOCK
  {
    iv + CbcEncrypt(c, iv, plaintext + Padding(|plaintext|))
  }

  /** What AESDecrypt makes of them. */
  function Open(c: Cipher, all: bytes): Result
    requires Lawful(c)
  {
    if |all| < BLOCK then Err
    else if |all| == BLOCK || !Blocks(all) then Panic
    else
      BlocksAfterVector(all);
      Unpad(CbcDecrypt(c, all[..BLOCK], all[BLOCK..]))
  }

  lemma BlocksAfterVector(all: bytes)
    requires |all| >= BLOCK
    ensures Blocks(all[BLOCK..]) <==> Blocks(all)
  {
    assert |all| == |all[BLOCK..]| + BLOCK;
  }

  function Unpad(data: bytes): Result
    requires |data| >= BLOCK
  {
    var padding := data[|data| - 1];
    if padding > BLOCK then Err else Ok(data[..|data| - padding])
  }

  /** AESEncrypt with the random initialisation vector as an argument. */
  function Encrypt(aes: Aes, key: bytes, plaintext: bytes, iv: bytes): Result
    requires |iv| == BLOCK && Lawful(aes(key))
  {
    if ValidKey(key) then Ok(Base64.Encode(Seal(aes(key), plaintext, iv))) else Err
  }

  /** AESDecrypt. */
  function Decrypt(aes: Aes, key: bytes, text: bytes): Result
    requires Lawful(aes(key))
  {
    match Base64.Decode(text)
    case None => Err
    case Some(all) => if ValidKey(key) then Open(aes(key), all) else Err
  }

  lemma UnpadPadded(p: bytes)
    ensures Unpad(p + Padding(|p|)) == Ok(p)
  {
    var padding := Padding(|p|);
    assert (p + padding)[|p + padding| - 1] == |padding|;
    assert (p + padding)[..|p|] == p;
  }

  lemma OpenSealed(c: Cipher, plaintext: bytes, iv: bytes)
    requires Lawful(c) && |iv| == BLOCK
    ensures Open(c, Seal(c, plaintext, iv)) == Ok(plaintext)
  {
    var padded := plaintext + Padding(|plaintext|);
    var body := CbcEncrypt(c, iv, padded);
    var all := iv + body;
    assert all[..BLOCK] == iv && all[BLOCK..] == body;
    BlocksAfterVector(all);
    CbcRoundTrip(c, iv, padded);
    UnpadPadded(plaintext);
  }

  /** What was encrypted decrypts to the plaintext, for every key, every plaintext and
      every initialisation vector. */
  lemma DecryptEncrypt(aes: Aes, key: bytes, plaintext: bytes, iv: bytes)
    requires |iv| == BLOCK && Lawful(aes(key)) && ValidKey(key)
    ensures Encrypt(aes, key, plaintext, iv).Ok?
    ensures Decrypt(aes, key, Encrypt(aes, key, plaintext, iv).value) == Ok(plaintext)
  {
    Base64.DecodeEncode(Seal(aes(key), plaintext, iv));
    OpenSealed(aes(key), plaintext, iv);
  }

  function LastByte(c: Cipher, all: bytes): byte
    requires Lawful(c) && |all| >= 2 * BLOCK && Blocks(all)
  {
    BlocksAfterVector(all);
    CbcDecrypt(c, all[..BLOCK], all[BLOCK..])[|all| - BLOCK - 1]
  }

  /** Decryption succeeds exactly on at least one whole block after the vector whose last
      plaintext byte is at most 16. The other padding bytes are not looked at, and a
      last byte of 0 is taken for no padding at all. */
  lemma OpenAcceptsExactly(c: Cipher, all: bytes)
    requires Lawful(c)
    ensures Open(c, all) == Panic <==> |all| == BLOCK || (|all| > BLOCK && !Blocks(all))
    ensures Open(c, all).Ok? <==> |all| >= 2 * BLOCK && Blocks(all) && LastByte(c, all) <= BLOCK
  {
    if |all| > BLOCK && Blocks(all) {
      assert |all| >= 2 * BLOCK;
      BlocksAfterVector(all);
    }
  }

  /** The operation as written: the text is extended by its padding, and the vector and
      the enciphered blocks share one buffer. */
  /** `random` is what the random reader gives, nothing if it fails. */
  method AESEncrypt(aes: Aes, key: bytes, plaintext: bytes, random: Option<bytes>) returns (r: Result)
    requires Lawful(aes(key)) && (random.Some? ==> |random.value| == BLOCK)
    ensures random.None? ==> r == Err
    ensures random.Some? ==> r == Encrypt(aes, key, plaintext, random.value)
    ensures r.Ok? <==> random.Some? && |key| in {16, 24, 32}
    ensures r.Ok? ==> Base64.Decode(r.value) == Some(Seal(aes(key), plaintext, random.value))
  {
    if !ValidKey(key) || random.None? {
      return Err;
    }
    var text := SealByCuts(aes(key), plaintext, random.value);
    Base64.DecodeEncode(text);
    return Ok(Base64.Encode(text));
  }

  /** The vector comes first, and behind it the enciphered text with its padding. */
  lemma SealedLayout(c: Cipher, plaintext: bytes, iv: bytes)
    requires Lawful(c) && |iv| == BLOCK
    ensures
      var all := Seal(c, plaintext, iv);
      && |all| % BLOCK == 0 && |all| >= 2 * BLOCK && all[..BLOCK] == iv
      && CbcDecrypt(c, iv, all[BLOCK..]) == plaintext + Padding(|plaintext|)
      && all[BLOCK..] == CbcEncrypt(c, iv, plaintext + Padding(|plaintext|))
  {
    var padded := plaintext + Padding(|plaintext|);
    var body := CbcEncrypt(c, iv, padded);
    assert (iv + body)[..BLOCK] == iv && (iv + body)[BLOCK..] == body;
    CbcRoundTrip(c, iv, padded);
  }

  method SealByCuts(c: Cipher, plaintext: bytes, iv: bytes) returns (ciphertext: bytes)
    requires Lawful(c) && |iv| == BLOCK
    ensures ciphertext == Seal(c, plaintext, iv)
  {
    var text := plaintext;
    var padding := BLOCK - |text| % BLOCK;
    text := text + seq(padding, _ => padding);
    assert text == plaintext + Padding(|plaintext|);
    ciphertext := seq(BLOCK + |text|, _ => 0);
    ciphertext := iv + ciphertext[BLOCK..];
    assert ciphertext[..BLOCK] == iv;
    ciphertext := ciphertext[..BLOCK] + CbcEncrypt(c, ciphertext[..BLOCK], text);
  }

  /** The deciphered text behind the vector. */
  function Text(c: Cipher, all: bytes): (r: bytes)
    requires Lawful(c) && |all| > BLOCK && |all| % BLOCK == 0
    ensures |r| == |all| - BLOCK >= BLOCK
  {
    BlocksAfterVector(all);
    CbcDecrypt(c, all[..BLOCK], all[BLOCK..])
  }

  /** The answer to every input: an error for malformed base64, a bad key, less than a block
      and a padding above a block; a panic for a bare vector or an incomplete block; and
      else the text without as many bytes as its last byte says. */
  lemma DecryptExactly(aes: Aes, key: bytes, cryptoText: bytes)
    requires Lawful(aes(key))
    ensures
      var all := Base64.Decode(cryptoText);
      Decrypt(aes, key, cryptoText) ==
        if all.None? || |key| !in {16, 24, 32} then Err else Opened(aes(key), all.value)
  {
    if Base64.Decode(cryptoText).Some? {
      OpenIsOpened(aes(key), Base64.Decode(cryptoText).value);
    }
  }

  function Opened(c: Cipher, all: bytes): Result
    requires Lawful(c)
  {
    if |all| < 16 then Err
    else if |all| == 16 || |all| % 16 != 0 then Panic
    else
      var text := Text(c, all);
      var n := text[|text| - 1];
      if n > 16 then Err else Ok(text[..|text| - n])
  }

  lemma OpenIsOpened(c: Cipher, all: bytes)
    requires Lawful(c)
    ensures Open(c, all) == Opened(c, all)
  {
  }

  method AESDecrypt(aes: Aes, key: bytes, cryptoText: bytes) returns (r: Result)
    requires Lawful(aes(key))
    ensures r == Decrypt(aes, key, cryptoText)
  {
    var decoded := Base64.Decode(cryptoText);
    if decoded.None? || !ValidKey(key) {
      return Err;
    }
    r := OpenByCuts(aes(key), decoded.value);
  }

  /** The rest of the operation, cut by cut: the text loses its vector, is deciphered and
      then loses its padding. */
  method OpenByCuts(c: Cipher, all: bytes) returns (r: Result)
    requires Lawful(c)
    ensures r == Open(c, all)
  {
    var ciphertext := all;
    if |ciphertext| < BLOCK {
      return Err;
    }
    var iv := ciphertext[..BLOCK];
    ciphertext := ciphertext[BLOCK..];
    BlocksAfterVector(all);
    if !Blocks(ciphertext) || |ciphertext| == 0 {
      return Panic;
    }
    ciphertext := CbcDecrypt(c, iv, ciphertext);
    var padding := ciphertext[|ciphertext| - 1];
    if padding > BLOCK {
      return Err;
    }
    ciphertext := ciphertext[..|ciphertext| - padding];
    return Ok(ciphertext);
  }
}
