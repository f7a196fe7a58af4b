/** The hash and hex filters (iohelper/filter/filter.go) over an abstract hash function. */
module HashFilters {
  import opened Bytes
  import opened Streams

  type HashFn = Bytes -> Bytes

  function EofErr(eof: bool): PlainErr {
    if eof then EOF else Nil
  }

  /** Hash.Process; the digest state is the bytes written so far. */
  function HashProcess(h: HashFn, onTheFly: bool): Step {
    (s: State, p: Bytes, eof: bool) =>
      if onTheFly then Outcome(s + p, p, EofErr(eof), At(0))
      else if eof then Outcome(s, h(s), EOF, Fresh)
      else Outcome(s + p, [], Nil, Fresh)
  }

  class Hash {
    const sum: HashFn
    const onTheFly: bool
    var written: Bytes

    constructor (h: HashFn, onTheFly: bool)
      ensures sum == h && this.onTheFly == onTheFly && written == []
    {
      sum, this.onTheFly := h, onTheFly;
      written := [];
    }

    method Process(p: Bytes, eof: bool) returns (out: Bytes, err: PlainErr)
      modifies this
      ensures var o := HashProcess(sum, onTheFly)(old(written), p, eof);
              written == o.state && out == o.out && err == o.err
    {
      err := Nil;
      if eof {
        err := EOF;
      }
      if onTheFly {
        assert p == [] ==> written + p == written;
        if |p| > 0 {
          written := written + p;
        }
        return p, err;
      }
      if eof {
        return sum(written), err;
      }
      written := written + p;
      return [], Nil;
    }
  }

  function HexDigit(n: int): byte
    requires 0 <= n < 16
  {
    if n < 10 then '0' as int + n else 'a' as int + n - 10
  }

  function Hex(p: Bytes): (r: Bytes)
    ensures |r| == 2 * |p|
  {
    if p == [] then [] else [HexDigit(p[0] / 16), HexDigit(p[0] % 16)] + Hex(p[1..])
  }

  lemma {:induction false} HexAppend(a: Bytes, b: Bytes)
    ensures Hex(a + b) == Hex(a) + Hex(b)
  {
    if a == [] {
      assert a + b == b;
    } else {
      HexAppend(a[1..], b);
      assert (a + b)[1..] == a[1..] + b;
    }
  }

  lemma {:induction false} HexInjective(a: Bytes, b: Bytes)
    requires Hex(a) == Hex(b)
    ensures a == b
  {
    assert |a| == |b|;
    if a != [] {
      assert Hex(a)[0] == Hex(b)[0] && Hex(a)[1] == Hex(b)[1];
      assert a[0] / 16 == b[0] / 16 && a[0] % 16 == b[0] % 16;
      assert Hex(a)[2..] == Hex(a[1..]) && Hex(b)[2..] == Hex(b[1..]);
      HexInjective(a[1..], b[1..]);
      assert a == [a[0]] + a[1..] && b == [b[0]] + b[1..];
    }
  }

  /** The value of a hex digit. */
  function DigitValue(c: byte): int {
    if '0' as int <= c <= '9' as int then c - '0' as int else c - 'a' as int + 10
  }

  /** Reading a text two digits at a time, the high one first. */
  function Decoded(text: Bytes): seq<int>
    requires |text| % 2 == 0
  {
    if text == [] then [] else [16 * DigitValue(text[0]) + DigitValue(text[1])] + Decoded(text[2..])
  }

  predicate IsHexDigit(c: byte) {
    '0' as int <= c <= '9' as int || 'a' as int <= c <= 'f' as int
  }

  /** The text is lowercase hex digits that read as the bytes. */
  lemma {:induction false} HexReads(p: Bytes)
    ensures Decoded(Hex(p)) == p
    ensures forall i :: 0 <= i < |Hex(p)| ==> IsHexDigit(Hex(p)[i])
  {
    if p != [] {
      HexReads(p[1..]);
      assert Hex(p)[2..] == Hex(p[1..]);
      assert p == [p[0]] + p[1..];
    }
  }

  /** toHex. */
  function HexProcess(s: State, p: Bytes, eof: bool): Outcome {
    Outcome(s, Hex(p), EofErr(eof), Fresh)
  }

  /** On the fly: the stream passes unchanged and the digest covers all of it. */
  function SnoopingHash(h: HashFn): Stream {
    Stream(HashProcess(h, true), (s, x) => x, (s, x) => h(s + x), (x, y) => true, y => true)
  }

  /** Consuming: the output is the digest, provided eof comes with no data. */
  function ConsumingHash(h: HashFn): Stream {
    Stream(HashProcess(h, false), (s, x) => h(s + x), (s, x) => [], (x, y) => true, y => y == [])
  }

  function ToHex(): Stream {
    Stream(HexProcess, (s, x) => Hex(x), (s, x) => [], (x, y) => true, y => true)
  }

  lemma SnoopingStep(h: HashFn, s: State, p: Bytes, eof: bool)
    ensures SnoopingHash(h).step(s, p, eof) == Outcome(s + p, p, EofErr(eof), At(0))
  {
    var o := SnoopingHash(h).step(s, p, eof);
    assert o.state == s + p && o.out == p && o.err == EofErr(eof) && o.place == At(0);
  }

  lemma SnoopingHashLawful(h: HashFn)
    ensures Lawful(SnoopingHash(h))
  {
    var f := SnoopingHash(h);
    forall s: State, x: Bytes, y: Bytes
      ensures LawChunk(f, s, x, y)
    {
      SnoopingStep(h, s, x, false);
      assert (s + x) + y == s + (x + y);
    }
    forall s: State, y: Bytes
      ensures LawEof(f, s, y)
    {
      SnoopingStep(h, s, y, true);
      assert (s + y) + [] == s + y;
    }
  }

  lemma ConsumingHashLawful(h: HashFn)
    ensures Lawful(ConsumingHash(h))
  {
    var f := ConsumingHash(h);
    forall s: State, x: Bytes, y: Bytes
      ensures LawChunk(f, s, x, y)
    {
      assert (s + x) + y == s + (x + y);
      assert [] + f.den(s + x, y) == f.den(s + x, y);
    }
    forall s: State, y: Bytes
      ensures LawEof(f, s, y)
    {
      assert s + [] == s;
    }
  }

  lemma ToHexLawful()
    ensures Lawful(ToHex()) && SinkLawful([ToHex()])
  {
    forall s: State, x: Bytes, y: Bytes
      ensures LawChunk(ToHex(), s, x, y) && SinkLaw(ToHex(), s, x, y)
    {
      HexAppend(x, y);
    }
    forall s: State, y: Bytes
      ensures LawEof(ToHex(), s, y)
    {
    }
  }

  /** An on-the-fly hash at the head of the source: the sink receives the input itself and the
      digest at the end is that of all of it, with data on the last read or not. */
  lemma SnoopingHashPump(h: HashFn, script: seq<Event>)
    requires Admissible([], script)
    ensures var r := Pump(Steps([SnoopingHash(h)]), [], Memory([[]], []), script);
            && r.err == Nil
            && r.written == Data(script) && r.n == |Data(script)|
            && h(r.mem.source[0]) == h(Data(script))
  {
    var f := SnoopingHash(h);
    SnoopingHashLawful(h);
    AdmissibleWhenUnrestricted([f], script);
    PumpMeansComposition([f], [], Memory([[]], []), script);
    var r := Pump(Steps([f]), [], Memory([[]], []), script);
    assert Steps([]) == [];
    assert [] + Data(script) == Data(script);
    assert ChainObs([f], [[]], Data(script))[0] == h(Data(script));
    assert Seen([f], r.mem.source)[0] == h(r.mem.source[0]) by {
      assert r.mem.source[0] + [] == r.mem.source[0];
    }
    assert ChainDen([f][1..], [[]][1..], Data(script)) == Data(script);
  }

  lemma {:induction false} AdmissibleWhenUnrestricted(fs: seq<Stream>, script: seq<Event>)
    requires fs != [] && (forall x, y :: fs[0].ok(x, y)) && (forall y :: fs[0].okEof(y))
    requires Admissible([], script)
    ensures Admissible(fs, script)
  {
    if script != [] && script[0].err != EOF {
      AdmissibleWhenUnrestricted(fs, script[1..]);
    }
  }

  // ---- the consuming hash drops the chunk that comes with eof ----

  /** The chunk delivered together with end of file. */
  function LastChunk(script: seq<Event>): Bytes {
    if script == [] then []
    else if script[0].err == EOF then script[0].data
    else LastChunk(script[1..])
  }

  function BeforeLastChunk(script: seq<Event>): Bytes {
    if script == [] || script[0].err == EOF then []
    else script[0].data + BeforeLastChunk(script[1..])
  }

  lemma {:induction false} DataSplits(script: seq<Event>)
    ensures Data(script) == BeforeLastChunk(script) + LastChunk(script)
  {
    if script != [] && script[0].err != EOF {
      DataSplits(script[1..]);
    }
  }

  /** The same script with that chunk removed. */
  function Emptied(script: seq<Event>): seq<Event> {
    if script == [] then []
    else if script[0].err == EOF then [Event([], EOF)]
    else [script[0]] + Emptied(script[1..])
  }

  lemma EofDropsData(h: HashFn, sink: seq<Step>, rest: seq<Step>, mem: Memory, data: Bytes)
    requires |mem.source| == |rest| + 1 && |sink| == |mem.sink|
    ensures PumpStep([HashProcess(h, false)] + rest, sink, mem, Event(data, EOF), BUFFER_SIZE) ==
            PumpStep([HashProcess(h, false)] + rest, sink, mem, Event([], EOF), BUFFER_SIZE)
  {
    var source := [HashProcess(h, false)] + rest;
    var s := mem.source[0];
    assert source[0](s, data, true) == source[0](s, [], true) == Outcome(s, h(s), EOF, Fresh);
  }

  lemma {:induction false} EmptiedScript(h: HashFn, sink: seq<Step>, rest: seq<Step>, mem: Memory, script: seq<Event>)
    requires |mem.source| == |rest| + 1 && |sink| == |mem.sink|
    ensures Pump([HashProcess(h, false)] + rest, sink, mem, script) ==
            Pump([HashProcess(h, false)] + rest, sink, mem, Emptied(script))
    ensures Data(Emptied(script)) == BeforeLastChunk(script)
    ensures LastChunk(Emptied(script)) == []
    ensures Admissible([], script) ==> Admissible([], Emptied(script))
    decreases |script|
  {
    var source := [HashProcess(h, false)] + rest;
    if script != [] {
      if script[0].err == EOF {
        EofDropsData(h, sink, rest, mem, script[0].data);
        EofEnds(source, sink, mem, script[0], BUFFER_SIZE);
      } else {
        var first := PumpStep(source, sink, mem, script[0], BUFFER_SIZE);
        assert Emptied(script)[1..] == Emptied(script[1..]);
        EmptiedScript(h, sink, rest, first.mem, script[1..]);
      }
    }
  }

  lemma {:induction false} AdmissibleForConsuming(fs: seq<Stream>, script: seq<Event>, h: HashFn)
    requires fs != [] && fs[0] == ConsumingHash(h)
    requires Admissible([], script) && LastChunk(script) == []
    ensures Admissible(fs, script)
  {
    if script != [] && script[0].err != EOF {
      AdmissibleForConsuming(fs, script[1..], h);
    }
  }

  /** When end of file arrives with no data, hash then ToHex writes the hex digest of all bytes. */
  lemma CleanEofDigest(h: HashFn, script: seq<Event>)
    requires Admissible([], script) && LastChunk(script) == []
    ensures var r := Pump(Steps([ConsumingHash(h), ToHex()]), [], Memory([[], []], []), script);
            r.err == Nil && r.written == Hex(h(Data(script)))
  {
    var f, g := ConsumingHash(h), ToHex();
    var fs := [f, g];
    ConsumingHashLawful(h);
    ToHexLawful();
    AdmissibleForConsuming(fs, script, h);
    assert Fits(f, g) by {
      assert forall s, x, y :: FitsChunk(f, g, s, x, y);
      assert forall s, y :: FitsEof(f, g, s, y);
    }
    PumpMeansComposition(fs, [], Memory([[], []], []), script);
    assert Steps([]) == [];
    assert [] + Data(script) == Data(script);
    assert fs[1..] == [g] && fs[1..][1..] == [];
    var empty: State := [];
    assert [empty, empty][1..] == [empty];
    assert ChainDen([g], [[]], h(Data(script))) == Hex(h(Data(script)));
  }

  /** hash then ToHex writes the hex digest of everything but the chunk that arrives with eof. That
      is the digest of the input exactly when the two digests agree; unless the hash takes the two
      byte strings for one another, exactly when end of file arrives with no data. */
  lemma ConsumingHashPump(h: HashFn, script: seq<Event>)
    requires Admissible([], script)
    ensures var r := Pump(Steps([ConsumingHash(h), ToHex()]), [], Memory([[], []], []), script);
            && r.err == Nil
            && r.written == Hex(h(BeforeLastChunk(script)))
            && (r.written == Hex(h(Data(script))) <==> h(BeforeLastChunk(script)) == h(Data(script)))
    ensures var r := Pump(Steps([ConsumingHash(h), ToHex()]), [], Memory([[], []], []), script);
            (h(BeforeLastChunk(script)) == h(Data(script)) ==> BeforeLastChunk(script) == Data(script)) ==>
              (r.written == Hex(h(Data(script))) <==> LastChunk(script) == [])
  {
    var steps := Steps([ConsumingHash(h), ToHex()]);
    assert steps == [HashProcess(h, false)] + [HexProcess];
    EmptiedScript(h, [], [HexProcess], Memory([[], []], []), script);
    CleanEofDigest(h, Emptied(script));
    DataSplits(script);
    if Hex(h(BeforeLastChunk(script))) == Hex(h(Data(script))) {
      HexInjective(h(BeforeLastChunk(script)), h(Data(script)));
    }
    assert |Data(script)| == |BeforeLastChunk(script)| + |LastChunk(script)|;
    assert LastChunk(script) == [] ==> Data(script) == BeforeLastChunk(script);
  }
}
