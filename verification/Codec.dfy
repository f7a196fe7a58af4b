/** The clients of the pump: codec.Decrypt and its encrypting counterpart (codec/aescbc.go), and
    the digest of a whole source (iohelper.go, HashsumFromFile). */
module Codec {
  import opened Bytes
  import opened Streams
  import opened HashFilters
  import opened Cbc
  import opened Pump

  /** bytes of p pumped through one filter into a buffer, as codec.Decrypt does. */
  method PumpThrough(p: Bytes, step: Step, state: State) returns (out: Bytes, err: Err)
    ensures var r := Streams.Pump([step], [], Memory([state], []), ReaderScript(p));
            out == r.written && err == r.err
  {
    var f := new Filter(step, state);
    var reader := new Reader(ReaderScript(p));
    var src := new Source(reader);
    src.Chain([f]);
    var buffer := new Buffer();
    var snk := new Sink(buffer);
    assert StepsOf(src.filters) == [step] && StepsOf(snk.filters) == [];
    var total;
    ghost var s;
    total, err, s := All(src, snk, Memory([state], []), ReaderScript(p), []);
    assert [] + s.written == s.written;
    out := buffer.written;
  }

  /** codec.Decrypt: what comes out is the CBC decryption of the input padded to whole blocks. */
  method DecryptBytes(encrypted: Bytes, dec: BlockFn, iv: Bytes) returns (decrypted: Bytes, err: Err)
    requires Sized(dec) && |iv| == BLOCK
    ensures err == Nil && decrypted == Decrypt(dec, iv, Pad(encrypted))
  {
    decrypted, err := PumpThrough(encrypted, CbcProcess(Decrypter(dec)), iv);
    PumpedIsCrypt(Decrypter(dec), iv, encrypted);
  }

  /** Pumping through an encrypting filter with a given IV. */
  method EncryptBytes(plain: Bytes, enc: BlockFn, iv: Bytes) returns (encrypted: Bytes, err: Err)
    requires Sized(enc) && |iv| == BLOCK
    ensures err == Nil && encrypted == Encrypt(enc, iv, Pad(plain))
  {
    encrypted, err := PumpThrough(plain, CbcProcess(Encrypter(enc)), iv);
    PumpedIsCrypt(Encrypter(enc), iv, plain);
  }

  /** Both in a row: the padded input comes back, the input itself exactly when it was aligned. */
  method EncryptThenDecrypt(plain: Bytes, enc: BlockFn, dec: BlockFn, iv: Bytes) returns (back: Bytes)
    requires IsBlockCipher(enc, dec) && |iv| == BLOCK
    ensures back == plain + seq(PadLength(|plain|), _ => PadLength(|plain|))
    ensures back == plain <==> |plain| % BLOCK == 0
  {
    var c, err := EncryptBytes(plain, enc, iv);
    back, err := DecryptBytes(c, dec, iv);
    DecryptEncrypt(enc, dec, iv, Pad(plain));
    PadAppend(c, []);
  }

  lemma {:induction false} ReaderEndsEmpty(p: Bytes)
    ensures Admissible([], ReaderScript(p)) && LastChunk(ReaderScript(p)) == [] && Data(ReaderScript(p)) == p
    decreases |p|
  {
    if |p| > BUFFER_SIZE {
      ReaderEndsEmpty(p[BUFFER_SIZE..]);
      assert ReaderScript(p)[1..] == ReaderScript(p[BUFFER_SIZE..]);
      assert p == p[..BUFFER_SIZE] + p[BUFFER_SIZE..];
    } else if p != [] {
      assert ReaderScript(p)[1..] == [Event([], EOF)];
      assert p + [] == p;
    }
  }

  /** The digest of all the bytes. */
  method Hashsum(p: Bytes, h: HashFn) returns (digest: Bytes, err: Err)
    ensures err == Nil && digest == h(p)
  {
    digest, err := PumpThrough(p, HashProcess(h, false), []);
    var f := ConsumingHash(h);
    ConsumingHashLawful(h);
    ReaderEndsEmpty(p);
    AdmissibleForConsuming([f], ReaderScript(p), h);
    PumpMeansComposition([f], [], Memory([[]], []), ReaderScript(p));
    ghost var empty: State := [];
    assert Steps([f]) == [HashProcess(h, false)] && Steps([]) == [];
    assert [f][1..] == [] && [empty][1..] == [] && empty + p == p;
    assert ChainDen([f], [empty], p) == h(p);
    assert ChainDen([], [], h(p)) == h(p);
  }
}
