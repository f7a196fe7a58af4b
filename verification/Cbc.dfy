/** The CBC filter (codec/aescbc.go) over an abstract 16-byte block permutation, chained as in
    section 6.2 of NIST SP 800-38A. */
module Cbc {
  import opened Bytes
  import opened Streams

  const BLOCK: nat := 16

  type BlockFn = Bytes -> Bytes

  ghost predicate Sized(f: BlockFn) {
    forall b: Bytes :: |b| == BLOCK ==> |f(b)| == BLOCK
  }

  ghost predicate IsBlockCipher(enc: BlockFn, dec: BlockFn) {
    && Sized(enc) && Sized(dec)
    && (forall b: Bytes :: |b| == BLOCK ==> dec(enc(b)) == b)
  }

  // ---- exclusive or ----

  function XorBits(a: nat, b: nat, n: nat): (r: nat) {
    if n == 0 then 0 else 2 * XorBits(a / 2, b / 2, n - 1) + if a % 2 == b % 2 then 0 else 1
  }

  function Pow2(n: nat): (r: nat)
    ensures r >= 1
  {
    if n == 0 then 1 else 2 * Pow2(n - 1)
  }

  lemma {:induction false} XorFits(a: nat, b: nat, n: nat)
    ensures XorBits(a, b, n) < Pow2(n)
  {
    if n > 0 {
      XorFits(a / 2, b / 2, n - 1);
    }
  }

  lemma {:induction false} XorTwice(a: nat, b: nat, n: nat)
    requires a < Pow2(n)
    ensures XorBits(XorBits(a, b, n), b, n) == a
  {
    if n > 0 {
      XorTwice(a / 2, b / 2, n - 1);
      Halves(XorBits(a / 2, b / 2, n - 1), if a % 2 == b % 2 then 0 else 1);
    }
  }

  lemma Halves(high: nat, low: nat)
    requires low < 2
    ensures (2 * high + low) / 2 == high && (2 * high + low) % 2 == low
  {
  }

  function XorByte(a: byte, b: byte): (r: byte) {
    XorFits(a, b, 8);
    assert Pow2(8) == 256 by { assert Pow2(4) == 16; }
    XorBits(a, b, 8)
  }

  lemma XorByteTwice(a: byte, b: byte)
    ensures XorByte(XorByte(a, b), b) == a
  {
    assert Pow2(8) == 256 by { assert Pow2(4) == 16; }
    XorTwice(a, b, 8);
  }

  // ---- bit by bit ----

  function Bit(a: nat, i: nat): (r: nat)
    ensures r < 2
  {
    (a / Pow2(i)) % 2
  }

  lemma MulMonotone(d: nat, a: nat, b: nat)
    requires a <= b
    ensures d * a <= d * b
  {
  }

  lemma MulLess(d: nat, a: nat, b: nat)
    requires d * a < d * b
    ensures a < b
  {
    if b <= a { MulMonotone(d, b, a); }
  }

  lemma QuotientIs(x: nat, d: nat, q: nat, r: nat)
    requires x == d * q + r && r < d
    ensures x / d == q
  {
    var p := x / d;
    assert x == d * p + x % d && d * (p + 1) == d * p + d && d * (q + 1) == d * q + d;
    MulLess(d, p, q + 1);
    MulLess(d, q, p + 1);
  }

  /** Bit i of x is bit i - 1 of x / 2. */
  lemma NextBit(x: nat, i: nat)
    requires i > 0
    ensures Bit(x, i) == Bit(x / 2, i - 1)
  {
    var h, d := x / 2, Pow2(i - 1);
    var q, r := h / d, h % d;
    assert h == d * q + r;
    assert x == (2 * d) * q + (2 * r + x % 2);
    QuotientIs(x, 2 * d, q, 2 * r + x % 2);
  }

  lemma FirstBit(x: nat)
    ensures Bit(x, 0) == x % 2
  {
    assert Pow2(0) == 1;
  }

  lemma XorHalves(a: nat, b: nat, n: nat)
    requires n > 0
    ensures XorBits(a, b, n) / 2 == XorBits(a / 2, b / 2, n - 1)
    ensures XorBits(a, b, n) % 2 == 1 <==> a % 2 != b % 2
  {
    Halves(XorBits(a / 2, b / 2, n - 1), if a % 2 == b % 2 then 0 else 1);
  }

  lemma {:induction false} XorBitsBit(a: nat, b: nat, n: nat, i: nat)
    requires i < n
    ensures Bit(XorBits(a, b, n), i) == 1 <==> Bit(a, i) != Bit(b, i)
    decreases n
  {
    XorHalves(a, b, n);
    if i == 0 {
      FirstBit(a);
      FirstBit(b);
      FirstBit(XorBits(a, b, n));
    } else {
      NextBit(a, i);
      NextBit(b, i);
      NextBit(XorBits(a, b, n), i);
      XorBitsBit(a / 2, b / 2, n - 1, i - 1);
    }
  }

  lemma {:induction false} SameBits(a: nat, b: nat, n: nat)
    requires a < Pow2(n) && b < Pow2(n) && forall i: nat :: i < n ==> Bit(a, i) == Bit(b, i)
    ensures a == b
  {
    if n > 0 {
      forall i: nat | i < n - 1
        ensures Bit(a / 2, i) == Bit(b / 2, i)
      {
        NextBit(a, i + 1);
        NextBit(b, i + 1);
        assert Bit(a, i + 1) == Bit(b, i + 1);
      }
      SameBits(a / 2, b / 2, n - 1);
      FirstBit(a);
      FirstBit(b);
      assert Bit(a, 0) == Bit(b, 0);
    }
  }

  /** A bit of the result is set exactly when it is set in one operand and not in the other. */
  lemma XorByteBits(a: byte, b: byte)
    ensures forall i: nat :: i < 8 ==> (Bit(XorByte(a, b), i) == 1 <==> Bit(a, i) != Bit(b, i))
  {
    forall i: nat | i < 8
      ensures Bit(XorByte(a, b), i) == 1 <==> Bit(a, i) != Bit(b, i)
    {
      XorBitsBit(a, b, 8, i);
    }
  }

  /** And no other byte has these bits. */
  lemma XorByteOnly(r: byte, a: byte, b: byte)
    requires forall i: nat :: i < 8 ==> (Bit(r, i) == 1 <==> Bit(a, i) != Bit(b, i))
    ensures r == XorByte(a, b)
  {
    assert Pow2(8) == 256 by { assert Pow2(4) == 16; }
    XorByteBits(a, b);
    SameBits(r, XorByte(a, b), 8);
  }

  lemma ZeroBits(n: nat)
    ensures forall i: nat :: i < n ==> Bit(0, i) == 0
  {
  }

  lemma XorNeutral(a: byte)
    ensures XorByte(a, 0) == a && XorByte(a, a) == 0
  {
    ZeroBits(8);
    XorByteOnly(a, a, 0);
    XorByteOnly(0, a, a);
  }

  function Xor(a: Bytes, b: Bytes): (r: Bytes)
    requires |a| == |b|
    ensures |r| == |a| && forall i :: 0 <= i < |a| ==> r[i] == XorByte(a[i], b[i])
  {
    seq(|a|, i requires 0 <= i < |a| => XorByte(a[i], b[i]))
  }

  lemma XorSelfInverse(a: Bytes, b: Bytes)
    requires |a| == |b|
    ensures Xor(Xor(a, b), b) == a
  {
    forall i | 0 <= i < |a|
      ensures Xor(Xor(a, b), b)[i] == a[i]
    {
      XorByteTwice(a[i], b[i]);
    }
  }

  // ---- the two block modes ----

  /** cipher.NewCBCEncrypter(block, prev).CryptBlocks */
  function Encrypt(enc: BlockFn, prev: Bytes, p: Bytes): Bytes
    requires |prev| == BLOCK && |p| % BLOCK == 0
    requires Sized(enc)
    decreases |p|
  {
    if p == [] then []
    else
      var c := enc(Xor(p[..BLOCK], prev));
      c + Encrypt(enc, c, p[BLOCK..])
  }

  function Decrypt(dec: BlockFn, prev: Bytes, c: Bytes): Bytes
    requires |prev| == BLOCK && |c| % BLOCK == 0
    requires Sized(dec)
    decreases |c|
  {
    if c == [] then []
    else Xor(dec(c[..BLOCK]), prev) + Decrypt(dec, c[..BLOCK], c[BLOCK..])
  }

  /** The block the next chunk is chained to. */
  function LastBlock(prev: Bytes, c: Bytes): (r: Bytes)
    requires |prev| == BLOCK && |c| % BLOCK == 0
    ensures |r| == BLOCK
  {
    if c == [] then prev else c[|c| - BLOCK..]
  }

  lemma {:induction false} EncryptLength(enc: BlockFn, prev: Bytes, p: Bytes)
    requires |prev| == BLOCK && |p| % BLOCK == 0
    requires Sized(enc)
    ensures |Encrypt(enc, prev, p)| == |p|
    decreases |p|
  {
    if p != [] {
      EncryptLength(enc, enc(Xor(p[..BLOCK], prev)), p[BLOCK..]);
    }
  }

  lemma DecryptStep(dec: BlockFn, prev: Bytes, c: Bytes, rest: Bytes)
    requires |prev| == BLOCK && |c| == BLOCK && |rest| % BLOCK == 0
    requires Sized(dec)
    ensures Decrypt(dec, prev, c + rest) == Xor(dec(c), prev) + Decrypt(dec, c, rest)
  {
    assert (c + rest)[..BLOCK] == c && (c + rest)[BLOCK..] == rest;
  }

  lemma EncryptStep(enc: BlockFn, prev: Bytes, head: Bytes, tail: Bytes)
    requires |prev| == BLOCK && |head| == BLOCK && |tail| % BLOCK == 0 && Sized(enc)
    ensures |head + tail| % BLOCK == 0
    ensures Encrypt(enc, prev, head + tail) ==
            enc(Xor(head, prev)) + Encrypt(enc, enc(Xor(head, prev)), tail)
    ensures |Encrypt(enc, enc(Xor(head, prev)), tail)| == |tail|
  {
    assert (head + tail)[..BLOCK] == head && (head + tail)[BLOCK..] == tail;
    EncryptLength(enc, enc(Xor(head, prev)), tail);
  }

  lemma FirstBlock(p: Bytes) returns (head: Bytes, tail: Bytes)
    requires p != [] && |p| % BLOCK == 0
    ensures |head| == BLOCK && |tail| % BLOCK == 0 && |tail| < |p| && p == head + tail
  {
    head, tail := p[..BLOCK], p[BLOCK..];
  }

  lemma {:induction false} DecryptEncrypt(enc: BlockFn, dec: BlockFn, prev: Bytes, p: Bytes)
    requires IsBlockCipher(enc, dec) && |prev| == BLOCK && |p| % BLOCK == 0
    ensures |Encrypt(enc, prev, p)| == |p|
    ensures Decrypt(dec, prev, Encrypt(enc, prev, p)) == p
    decreases |p|
  {
    if p != [] {
      var head, tail := FirstBlock(p);
      var c := enc(Xor(head, prev));
      EncryptStep(enc, prev, head, tail);
      DecryptEncrypt(enc, dec, c, tail);
      DecryptStep(dec, prev, c, Encrypt(enc, c, tail));
      assert dec(c) == Xor(head, prev);
      XorSelfInverse(head, prev);
    }
  }

  // ---- block by block ----

  function Block(p: Bytes, i: nat): Bytes
    requires (i + 1) * BLOCK <= |p|
  {
    p[i * BLOCK..(i + 1) * BLOCK]
  }

  lemma BlockBehind(head: Bytes, tail: Bytes, i: nat)
    requires |head| == BLOCK && (i + 1) * BLOCK <= |head + tail|
    ensures Block(head + tail, i) == if i == 0 then head else Block(tail, i - 1)
  {
  }

  lemma EncryptedBehind(enc: BlockFn, iv: Bytes, head: Bytes, tail: Bytes, rest: Bytes, i: nat)
    requires Sized(enc) && |iv| == |head| == BLOCK && |rest| == |tail| && (i + 1) * BLOCK <= |head + tail|
    requires i > 0 ==>
               Block(rest, i - 1) ==
               enc(Xor(Block(tail, i - 1), if i == 1 then enc(Xor(head, iv)) else Block(rest, i - 2)))
    ensures var p, c := head + tail, enc(Xor(head, iv)) + rest;
            Block(c, i) == enc(Xor(Block(p, i), if i == 0 then iv else Block(c, i - 1)))
  {
    var first := enc(Xor(head, iv));
    BlockBehind(head, tail, i);
    BlockBehind(first, rest, i);
    if i > 0 {
      BlockBehind(first, rest, i - 1);
    }
  }

  /** Each ciphertext block is the encryption of its plaintext block combined with the ciphertext
      block before it, the first with the initialization vector. */
  lemma {:induction false} EncryptedBlock(enc: BlockFn, iv: Bytes, p: Bytes, i: nat)
    requires Sized(enc) && |iv| == BLOCK && |p| % BLOCK == 0 && (i + 1) * BLOCK <= |p|
    ensures var c := Encrypt(enc, iv, p);
            |c| == |p| && Block(c, i) == enc(Xor(Block(p, i), if i == 0 then iv else Block(c, i - 1)))
    decreases i
  {
    var head, tail := FirstBlock(p);
    var first := enc(Xor(head, iv));
    EncryptStep(enc, iv, head, tail);
    var rest := Encrypt(enc, first, tail);
    assert Encrypt(enc, iv, p) == first + rest && |rest| == |tail|;
    if i > 0 {
      EncryptedBlock(enc, first, tail, i - 1);
    }
    EncryptedBehind(enc, iv, head, tail, rest, i);
  }

  lemma DecryptedBehind(dec: BlockFn, iv: Bytes, head: Bytes, tail: Bytes, rest: Bytes, i: nat)
    requires Sized(dec) && |iv| == |head| == BLOCK && |rest| == |tail| && (i + 1) * BLOCK <= |head + tail|
    requires i > 0 ==>
               Block(rest, i - 1) == Xor(dec(Block(tail, i - 1)), if i == 1 then head else Block(tail, i - 2))
    ensures var c, p := head + tail, Xor(dec(head), iv) + rest;
            Block(p, i) == Xor(dec(Block(c, i)), if i == 0 then iv else Block(c, i - 1))
  {
    BlockBehind(head, tail, i);
    BlockBehind(Xor(dec(head), iv), rest, i);
    if i > 0 {
      BlockBehind(head, tail, i - 1);
    }
  }

  /** Each plaintext block is the decryption of its ciphertext block combined with the ciphertext block
      before it, the first with the initialization vector. */
  lemma {:induction false} DecryptedBlock(dec: BlockFn, iv: Bytes, c: Bytes, i: nat)
    requires Sized(dec) && |iv| == BLOCK && |c| % BLOCK == 0 && (i + 1) * BLOCK <= |c|
    ensures var p := Decrypt(dec, iv, c);
            |p| == |c| && Block(p, i) == Xor(dec(Block(c, i)), if i == 0 then iv else Block(c, i - 1))
    decreases i
  {
    var head, tail := FirstBlock(c);
    DecryptStep(dec, iv, head, tail);
    DecryptLength(dec, head, tail);
    if i > 0 {
      DecryptedBlock(dec, head, tail, i - 1);
    }
    DecryptedBehind(dec, iv, head, tail, Decrypt(dec, head, tail), i);
  }

  lemma {:induction false} DecryptLength(dec: BlockFn, prev: Bytes, c: Bytes)
    requires |prev| == BLOCK && |c| % BLOCK == 0 && Sized(dec)
    ensures |Decrypt(dec, prev, c)| == |c|
    decreases |c|
  {
    if c != [] {
      DecryptLength(dec, c[..BLOCK], c[BLOCK..]);
    }
  }

  lemma LastBlockCons(prev: Bytes, c: Bytes, rest: Bytes)
    requires |prev| == |c| == BLOCK && |rest| % BLOCK == 0
    ensures |c + rest| % BLOCK == 0 && LastBlock(prev, c + rest) == LastBlock(c, rest)
  {
  }

  lemma AlignedSum(a: Bytes, b: Bytes)
    requires |a| % BLOCK == 0 && |b| % BLOCK == 0
    ensures |a + b| % BLOCK == 0
  {
  }

  lemma Regroup(a: Bytes, b: Bytes, c: Bytes)
    ensures a + (b + c) == (a + b) + c
  {
  }

  lemma EncryptAppendStep(enc: BlockFn, prev: Bytes, head: Bytes, tail: Bytes, y: Bytes)
    requires Sized(enc) && |prev| == |head| == BLOCK && |tail| % BLOCK == 0 && |y| % BLOCK == 0
    requires |tail + y| % BLOCK == 0 && |head + tail| % BLOCK == 0 && |head + (tail + y)| % BLOCK == 0
    requires var c := enc(Xor(head, prev));
             && |Encrypt(enc, c, tail)| == |tail|
             && Encrypt(enc, c, tail + y) ==
                Encrypt(enc, c, tail) + Encrypt(enc, LastBlock(c, Encrypt(enc, c, tail)), y)
    ensures |Encrypt(enc, prev, head + tail)| == |head + tail|
    ensures Encrypt(enc, prev, head + (tail + y)) ==
            Encrypt(enc, prev, head + tail) + Encrypt(enc, LastBlock(prev, Encrypt(enc, prev, head + tail)), y)
  {
    var c := enc(Xor(head, prev));
    var mid := Encrypt(enc, c, tail);
    EncryptStep(enc, prev, head, tail);
    EncryptStep(enc, prev, head, tail + y);
    LastBlockCons(prev, c, mid);
    Regroup(c, mid, Encrypt(enc, LastBlock(c, mid), y));
  }

  /** Encrypting in two aligned pieces, the chaining block carried over. */
  lemma {:induction false} EncryptAppend(enc: BlockFn, prev: Bytes, x: Bytes, y: Bytes)
    requires |prev| == BLOCK && |x| % BLOCK == 0 && |y| % BLOCK == 0
    requires Sized(enc)
    ensures |x + y| % BLOCK == 0
    ensures |Encrypt(enc, prev, x)| == |x|
    ensures Encrypt(enc, prev, x + y) ==
            Encrypt(enc, prev, x) + Encrypt(enc, LastBlock(prev, Encrypt(enc, prev, x)), y)
    decreases |x|
  {
    AlignedSum(x, y);
    if x == [] {
      assert x + y == y;
    } else {
      var head, tail := FirstBlock(x);
      EncryptAppend(enc, enc(Xor(head, prev)), tail, y);
      assert x + y == head + (tail + y);
      EncryptAppendStep(enc, prev, head, tail, y);
    }
  }

  lemma DecryptAppendStep(dec: BlockFn, prev: Bytes, head: Bytes, tail: Bytes, y: Bytes)
    requires Sized(dec) && |prev| == |head| == BLOCK && |tail| % BLOCK == 0 && |y| % BLOCK == 0
    requires |tail + y| % BLOCK == 0 && |head + tail| % BLOCK == 0 && |head + (tail + y)| % BLOCK == 0
    requires Decrypt(dec, head, tail + y) == Decrypt(dec, head, tail) + Decrypt(dec, LastBlock(head, tail), y)
    ensures Decrypt(dec, prev, head + (tail + y)) ==
            Decrypt(dec, prev, head + tail) + Decrypt(dec, LastBlock(prev, head + tail), y)
  {
    var first, mid, last := Xor(dec(head), prev), Decrypt(dec, head, tail), Decrypt(dec, LastBlock(head, tail), y);
    calc {
      Decrypt(dec, prev, head + (tail + y));
    ==  { DecryptStep(dec, prev, head, tail + y); }
      first + (mid + last);
    ==
      (first + mid) + last;
    ==  { DecryptStep(dec, prev, head, tail); }
      Decrypt(dec, prev, head + tail) + last;
    ==  { LastBlockCons(prev, head, tail); }
      Decrypt(dec, prev, head + tail) + Decrypt(dec, LastBlock(prev, head + tail), y);
    }
  }

  lemma {:induction false} DecryptAppend(dec: BlockFn, prev: Bytes, x: Bytes, y: Bytes)
    requires |prev| == BLOCK && |x| % BLOCK == 0 && |y| % BLOCK == 0
    requires Sized(dec)
    ensures |x + y| % BLOCK == 0
    ensures Decrypt(dec, prev, x + y) == Decrypt(dec, prev, x) + Decrypt(dec, LastBlock(prev, x), y)
    decreases |x|
  {
    AlignedSum(x, y);
    if x == [] {
      assert x + y == y;
    } else {
      var head, tail := FirstBlock(x);
      assert x + y == head + (tail + y);
      AlignedSum(tail, y);
      DecryptAppend(dec, head, tail, y);
      DecryptAppendStep(dec, prev, head, tail, y);
    }
  }

  // ---- CBCCrypto.Process ----

  function PadLength(n: nat): (k: nat)
    ensures k < BLOCK && (n + k) % BLOCK == 0
    ensures k == 0 <==> n % BLOCK == 0
  {
    if n % BLOCK == 0 then 0 else BLOCK - n % BLOCK
  }

  /** PKCS#7 bytes, except that an aligned chunk gets none. */
  function Pad(p: Bytes): (r: Bytes)
    ensures |r| % BLOCK == 0 && |r| == |p| + PadLength(|p|)
    ensures p <= r && forall i :: |p| <= i < |r| ==> r[i] == PadLength(|p|)
  {
    p + seq(PadLength(|p|), _ => PadLength(|p|))
  }

  datatype Mode = Encrypter(enc: BlockFn) | Decrypter(dec: BlockFn)

  ghost predicate Blocks(m: Mode) {
    Sized(if m.Encrypter? then m.enc else m.dec)
  }

  function Crypt(m: Mode, prev: Bytes, p: Bytes): Bytes
    requires Blocks(m) && |prev| == BLOCK && |p| % BLOCK == 0
  {
    if m.Encrypter? then Encrypt(m.enc, prev, p) else Decrypt(m.dec, prev, p)
  }

  function NextPrev(m: Mode, prev: Bytes, p: Bytes): (r: Bytes)
    requires Blocks(m) && |prev| == BLOCK && |p| % BLOCK == 0
    ensures |r| == BLOCK
  {
    if m.Encrypter? then
      EncryptLength(m.enc, prev, p);
      LastBlock(prev, Encrypt(m.enc, prev, p))
    else LastBlock(prev, p)
  }

  /** The filter's memory is the chaining block; a memory of any other length (never reached
      from a 16-byte IV) is left alone. */
  function CbcProcess(m: Mode): Step
    requires Blocks(m)
  {
    (s: State, p: Bytes, eof: bool) =>
      if |s| != BLOCK then Outcome(s, [], if eof then EOF else Nil, Fresh)
      else Outcome(NextPrev(m, s, Pad(p)), Crypt(m, s, Pad(p)), if eof then EOF else Nil, Fresh)
  }

  class CBCCrypto {
    const BC: Mode
    /** The block the next chunk is chained to. */
    var chain: Bytes

    constructor (mode: Mode, iv: Bytes)
      ensures BC == mode && chain == iv
    {
      BC := mode;
      chain := iv;
    }

    method Process(p: Bytes, eof: bool) returns (out: Bytes, err: PlainErr)
      requires Blocks(BC) && |chain| == BLOCK
      modifies this
      ensures CbcProcess(BC)(old(chain), p, eof) == Outcome(chain, out, err, Fresh) && |chain| == BLOCK
    {
      var remainder := |p| % BLOCK;
      var padded := p;
      if remainder != 0 {
        var pad := BLOCK - remainder;
        padded := p + seq(pad, _ => pad);
      }
      assert padded == Pad(p);
      out := [];
      if |padded| > 0 {
        out := Crypt(BC, chain, padded);
        chain := NextPrev(BC, chain, padded);
      }
      err := if eof then EOF else Nil;
    }
  }

  function CbcFilter(m: Mode): Stream
    requires Blocks(m)
  {
    Stream(CbcProcess(m),
           (s: State, x: Bytes) => if |s| != BLOCK then [] else Crypt(m, s, Pad(x)),
           (s: State, x: Bytes) => [],
           (x: Bytes, y: Bytes) => |x| % BLOCK == 0 || y == [],
           (y: Bytes) => true)
  }

  lemma PadAppend(x: Bytes, y: Bytes)
    requires |x| % BLOCK == 0
    ensures Pad(x) == x && Pad(x + y) == x + Pad(y)
  {
    assert PadLength(|x + y|) == PadLength(|y|);
  }

  lemma CryptAppend(m: Mode, prev: Bytes, x: Bytes, y: Bytes)
    requires Blocks(m) && |prev| == BLOCK && |x| % BLOCK == 0 && |y| % BLOCK == 0
    ensures |x + y| % BLOCK == 0
    ensures Crypt(m, prev, x + y) == Crypt(m, prev, x) + Crypt(m, NextPrev(m, prev, x), y)
  {
    if m.Encrypter? {
      EncryptAppend(m.enc, prev, x, y);
    } else {
      DecryptAppend(m.dec, prev, x, y);
    }
  }

  /** Chunks of whole blocks, and anything in the last one with data, are harmless. */
  lemma CbcLawful(m: Mode)
    requires Blocks(m)
    ensures Lawful(CbcFilter(m))
  {
    var f := CbcFilter(m);
    forall s: State, x: Bytes, y: Bytes
      ensures LawChunk(f, s, x, y)
    {
      if |s| == BLOCK && f.ok(x, y) {
        if |x| % BLOCK == 0 {
          PadAppend(x, y);
          CryptAppend(m, s, x, Pad(y));
        } else {
          assert x + y == x && Pad([]) == [];
          assert Crypt(m, NextPrev(m, s, Pad(x)), []) == [];
        }
      }
    }
    forall s: State, y: Bytes
      ensures LawEof(f, s, y)
    {
    }
  }

  // ---- whole inputs through the pump ----

  /** What a bytes.Reader over p answers to reads of BUFFER_SIZE bytes. */
  function ReaderScript(p: Bytes): (r: seq<Event>)
    ensures forall i :: 0 <= i < |r| ==> |r[i].data| <= BUFFER_SIZE
    decreases |p|
  {
    if p == [] then [Event([], EOF)]
    else if |p| <= BUFFER_SIZE then [Event(p, Nil), Event([], EOF)]
    else [Event(p[..BUFFER_SIZE], Nil)] + ReaderScript(p[BUFFER_SIZE..])
  }

  lemma {:induction false} ReaderData(p: Bytes, m: Mode)
    requires Blocks(m)
    ensures Data(ReaderScript(p)) == p && Admissible([CbcFilter(m)], ReaderScript(p))
    decreases |p|
  {
    var script := ReaderScript(p);
    if p != [] {
      if |p| <= BUFFER_SIZE {
        assert script[1..] == [Event([], EOF)];
        assert Data(script[1..]) == [];
        assert p + [] == p;
      } else {
        ReaderData(p[BUFFER_SIZE..], m);
        assert script[1..] == ReaderScript(p[BUFFER_SIZE..]);
        assert p == p[..BUFFER_SIZE] + p[BUFFER_SIZE..];
      }
    }
  }

  /** The bytes a pump from a bytes.Reader over p through the filter writes. */
  function Pumped(m: Mode, iv: Bytes, p: Bytes): StepResult
    requires Blocks(m)
  {
    Pump([CbcProcess(m)], [], Memory([iv], []), ReaderScript(p))
  }

  lemma PumpedIsCrypt(m: Mode, iv: Bytes, p: Bytes)
    requires Blocks(m) && |iv| == BLOCK
    ensures Pumped(m, iv, p).err == Nil && Pumped(m, iv, p).written == Crypt(m, iv, Pad(p))
  {
    var f := CbcFilter(m);
    CbcLawful(m);
    ReaderData(p, m);
    PumpMeansComposition([f], [], Memory([iv], []), ReaderScript(p));
    assert Steps([f]) == [CbcProcess(m)] && Steps([]) == [];
    assert [f][1..] == [] && [iv][1..] == [];
    assert ChainDen([f], [iv], p) == f.den(iv, p);
    assert ChainDen([], [], f.den(iv, p)) == f.den(iv, p);
  }

  // ---- reads of any size ----

  /** Every chunk padded on its own: what the filter makes of reads that are not whole blocks. */
  function PaddedScript(script: seq<Event>): (r: seq<Event>)
    ensures |r| == |script|
  {
    if script == [] then [] else [Event(Pad(script[0].data), script[0].err)] + PaddedScript(script[1..])
  }

  lemma PaddingFirst(m: Mode, s: State, p: Bytes, eof: bool)
    requires Blocks(m)
    ensures CbcProcess(m)(s, p, eof) == CbcProcess(m)(s, Pad(p), eof)
  {
    PadAppend(Pad(p), []);
  }

  lemma PaddedReadSame(m: Mode, iv: State, ev: Event)
    requires Blocks(m)
    ensures ReadStep([CbcProcess(m)], [iv], ev, BUFFER_SIZE) ==
            ReadStep([CbcProcess(m)], [iv], Event(Pad(ev.data), ev.err), BUFFER_SIZE)
  {
    PaddingFirst(m, iv, ev.data, ev.err == EOF);
  }

  lemma {:induction false} PaddedScriptPumpsSame(m: Mode, mem: Memory, script: seq<Event>)
    requires Blocks(m) && |mem.source| == 1 && mem.sink == []
    ensures Pump([CbcProcess(m)], [], mem, script) == Pump([CbcProcess(m)], [], mem, PaddedScript(script))
    decreases |script|
  {
    if script != [] {
      var steps := [CbcProcess(m)];
      var padded := PaddedScript(script);
      assert mem.source == [mem.source[0]];
      PaddedReadSame(m, mem.source[0], script[0]);
      var first := PumpStep(steps, [], mem, script[0], BUFFER_SIZE);
      assert first == PumpStep(steps, [], mem, padded[0], BUFFER_SIZE);
      assert padded[1..] == PaddedScript(script[1..]);
      if first.err == Nil {
        PaddedScriptPumpsSame(m, first.mem, script[1..]);
      }
    }
  }

  lemma {:induction false} PaddedAdmissible(m: Mode, script: seq<Event>)
    requires Blocks(m) && Admissible([], script)
    ensures Admissible([CbcFilter(m)], PaddedScript(script))
    ensures |Data(PaddedScript(script))| % BLOCK == 0
  {
    if script != [] {
      assert PaddedScript(script)[1..] == PaddedScript(script[1..]);
      if script[0].err != EOF {
        PaddedAdmissible(m, script[1..]);
      }
    }
  }

  lemma AnyChunking(m: Mode, iv: Bytes, script: seq<Event>)
    requires Blocks(m) && |iv| == BLOCK && Admissible([], script)
    ensures |Data(PaddedScript(script))| % BLOCK == 0
    ensures var r := Pump([CbcProcess(m)], [], Memory([iv], []), script);
            r.err == Nil && r.written == Crypt(m, iv, Data(PaddedScript(script)))
  {
    var f := CbcFilter(m);
    var x := Data(PaddedScript(script));
    CbcLawful(m);
    PaddedAdmissible(m, script);
    PaddedScriptPumpsSame(m, Memory([iv], []), script);
    PumpMeansComposition([f], [], Memory([iv], []), PaddedScript(script));
    PadAppend(x, []);
    assert Steps([f]) == [CbcProcess(m)] && Steps([]) == [];
    assert [f][1..] == [] && [iv][1..] == [];
    assert ChainDen([f], [iv], x) == f.den(iv, x);
    assert ChainDen([], [], f.den(iv, x)) == f.den(iv, x);
  }

  /** Encrypting a source read in any pieces and decrypting the result gives back every piece
      with its own padding. */
  lemma AnyChunkingRoundTrip(enc: BlockFn, dec: BlockFn, iv: Bytes, script: seq<Event>)
    requires IsBlockCipher(enc, dec) && |iv| == BLOCK && Admissible([], script)
    ensures var c := Pump([CbcProcess(Encrypter(enc))], [], Memory([iv], []), script);
            Pumped(Decrypter(dec), iv, c.written).written == Data(PaddedScript(script))
  {
    var x := Data(PaddedScript(script));
    AnyChunking(Encrypter(enc), iv, script);
    DecryptEncrypt(enc, dec, iv, x);
    PumpedIsCrypt(Decrypter(dec), iv, Encrypt(enc, iv, x));
    PadAppend(Encrypt(enc, iv, x), []);
  }

  /** Encrypting and then decrypting with the same IV gives the input followed by its padding,
      which Decrypt does not strip: the input itself comes back exactly when its length is a
      multiple of the block size. */
  lemma RoundTrip(enc: BlockFn, dec: BlockFn, iv: Bytes, p: Bytes)
    requires IsBlockCipher(enc, dec) && |iv| == BLOCK
    ensures var c := Pumped(Encrypter(enc), iv, p);
            var d := Pumped(Decrypter(dec), iv, c.written);
            && c.err == Nil && d.err == Nil
            && d.written == p + seq(PadLength(|p|), _ => PadLength(|p|))
            && (d.written == p <==> |p| % BLOCK == 0)
  {
    PumpedIsCrypt(Encrypter(enc), iv, p);
    DecryptEncrypt(enc, dec, iv, Pad(p));
    var c := Encrypt(enc, iv, Pad(p));
    PumpedIsCrypt(Decrypter(dec), iv, c);
    PadAppend(c, []);
  }
}
