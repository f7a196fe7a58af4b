/** Stream filters and the pump as functions of values: what Source.Read, Sink.Write, pump.Step
    and pump.All compute (iohelper/source, iohelper/sink, iohelper/pump, iohelper/filter), and
    the law under which the way the input is cut into reads does not show in the output. */
module Streams {
  import opened Bytes

  /** Go's error values that the code tells apart. */
  datatype Err = Nil | EOF | NotInPlace | EOFNotInPlace | NoEofReturned | Failed(code: int)

  /** Errors a reader or a filter returns; the two sentinels belong to Source.Read. */
  type PlainErr = e: Err | e == Nil || e == EOF || e.Failed? witness Nil

  /** Where a filter leaves its output: in the memory it was given, at an offset, or elsewhere. */
  datatype Place = At(offset: nat) | Fresh

  /** A filter's memory between two chunks. */
  type State = Bytes

  datatype Outcome = Outcome(state: State, out: Bytes, err: PlainErr, place: Place)

  /** Filter.Process: (memory, chunk, eof) to outcome. */
  type Step = (State, Bytes, bool) -> Outcome

  /** One Read of the wrapped io.Reader. */
  datatype Event = Event(data: Bytes, err: PlainErr)

  const BUFFER_SIZE: nat := 8192

  // ---- Source.Read ----

  /** Offset of a chunk inside the read buffer, or elsewhere. */
  datatype Where = InBuffer(offset: nat) | Elsewhere

  function Placed(place: Place, where_: Where, size: nat, cap: nat): Where {
    if place.At? && where_.InBuffer? && where_.offset + place.offset + size <= cap
    then InBuffer(where_.offset + place.offset) else Elsewhere
  }

  /** early: Read returned from inside the loop over the filters. */
  datatype ChainResult = ChainResult(states: seq<State>, data: Bytes, where_: Where, err: Err, early: bool)

  function RunChain(steps: seq<Step>, states: seq<State>, data: Bytes, where_: Where, cap: nat, eof: bool,
        err: PlainErr): (r: ChainResult)
    requires |steps| == |states|
    ensures |r.states| == |states|
    ensures r.err != NotInPlace && r.err != EOFNotInPlace
    ensures r.early ==> r.err != EOF && (r.err == Nil ==> r.data == [])
    ensures r.where_.InBuffer? && where_.InBuffer? && where_.offset + |data| <= cap ==>
              r.where_.offset + |r.data| <= cap
    ensures where_.Elsewhere? ==> r.where_.Elsewhere?
  {
    if steps == [] then ChainResult(states, data, where_, err, false)
    else
      var o := steps[0](states[0], data, eof);
      var place := Placed(o.place, where_, |o.out|, cap);
      if o.err != Nil && o.err != EOF then
        ChainResult([o.state] + states[1..], o.out, place, o.err, true)
      else if o.out == [] && o.err == Nil then
        ChainResult([o.state] + states[1..], [], place, if eof then NoEofReturned else Nil, true)
      else
        var rest := RunChain(steps[1..], states[1..], o.out, place, cap, eof, o.err);
        rest.(states := [o.state] + rest.states)
  }

  datatype ReadResult = ReadResult(states: seq<State>, data: Bytes, err: Err)

  function ReadStep(steps: seq<Step>, states: seq<State>, ev: Event, cap: nat): (r: ReadResult)
    requires |steps| == |states|
    ensures |r.states| == |states|
  {
    if steps == [] then ReadResult(states, ev.data, ev.err)
    else
      var eof := ev.err == EOF;
      var c := RunChain(steps, states, ev.data, InBuffer(0), cap, eof, ev.err);
      if c.early || c.data == [] then ReadResult(c.states, c.data, c.err)
      else if c.where_.InBuffer? then ReadResult(c.states, c.data, if eof then EOF else c.err)
      else ReadResult(c.states, c.data, if eof then EOFNotInPlace else NotInPlace)
  }

  // ---- Sink.Write ----

  datatype WriteResult = WriteResult(states: seq<State>, out: Bytes, err: Err)

  function SinkChain(steps: seq<Step>, states: seq<State>, data: Bytes): (r: WriteResult)
    requires |steps| == |states|
    ensures |r.states| == |states|
  {
    if steps == [] then WriteResult(states, data, Nil)
    else
      var o := steps[0](states[0], data, false);
      if o.err != Nil then WriteResult([o.state] + states[1..], o.out, o.err)
      else
        var rest := SinkChain(steps[1..], states[1..], o.out);
        rest.(states := [o.state] + rest.states)
  }

  // ---- pump.Step and pump.All ----

  /** The memory of the source's and the sink's filters. */
  datatype Memory = Memory(source: seq<State>, sink: seq<State>)

  datatype StepResult = StepResult(mem: Memory, written: Bytes, n: nat, err: Err)

  function WriteStep(sink: seq<Step>, mem: Memory, data: Bytes): (r: StepResult)
    requires |sink| == |mem.sink|
    ensures |r.mem.sink| == |mem.sink| && r.mem.source == mem.source
  {
    if data == [] then StepResult(mem, [], 0, Nil)
    else
      var w := SinkChain(sink, mem.sink, data);
      var mem' := mem.(sink := w.states);
      if w.err != Nil then StepResult(mem', [], |w.out|, w.err)
      else StepResult(mem', w.out, |data|, Nil)
  }

  function PumpStep(source: seq<Step>, sink: seq<Step>, mem: Memory, ev: Event, cap: nat): (r: StepResult)
    requires |source| == |mem.source| && |sink| == |mem.sink|
    ensures |r.mem.source| == |mem.source| && |r.mem.sink| == |mem.sink|
  {
    var rd := ReadStep(source, mem.source, ev, cap);
    var mem' := mem.(source := rd.states);
    if rd.err == EOF || rd.err == EOFNotInPlace then
      if |rd.data| > 0 then
        var w := WriteStep(sink, mem', rd.data);
        if w.err != Nil then w else w.(err := EOF)
      else StepResult(mem', [], 0, EOF)
    else if rd.err != Nil && rd.err != NotInPlace then StepResult(mem', [], |rd.data|, rd.err)
    else WriteStep(sink, mem', rd.data)
  }

  /** The read the reader answers next; after the script it reports end of file for ever. */
  function NextEvent(script: seq<Event>): Event {
    if script == [] then Event([], EOF) else script[0]
  }

  lemma {:induction false} EofChainEnds(steps: seq<Step>, states: seq<State>, data: Bytes, where_: Where,
        cap: nat, err: PlainErr)
    requires |steps| == |states|
    requires steps == [] ==> err != Nil
    ensures var c := RunChain(steps, states, data, where_, cap, true, err);
            (c.early || c.data == []) ==> c.err != Nil
  {
    if steps != [] {
      var o := steps[0](states[0], data, true);
      var place := Placed(o.place, where_, |o.out|, cap);
      if |steps| > 1 {
        EofChainEnds(steps[1..], states[1..], o.out, place, cap, o.err);
      } else if o.out != [] {
        assert RunChain(steps[1..], states[1..], o.out, place, cap, true, o.err).data == o.out;
      }
    }
  }

  /** A read at end of file ends the pump, whatever the filters do. */
  lemma EofEnds(source: seq<Step>, sink: seq<Step>, mem: Memory, ev: Event, cap: nat)
    requires |source| == |mem.source| && |sink| == |mem.sink| && ev.err == EOF
    ensures PumpStep(source, sink, mem, ev, cap).err != Nil
  {
    if source != [] {
      EofChainEnds(source, mem.source, ev.data, InBuffer(0), cap, ev.err);
    }
  }

  function Pump(source: seq<Step>, sink: seq<Step>, mem: Memory, script: seq<Event>): (r: StepResult)
    requires |source| == |mem.source| && |sink| == |mem.sink|
    ensures |r.mem.source| == |mem.source| && |r.mem.sink| == |mem.sink|
    decreases |script|
  {
    var first := PumpStep(source, sink, mem, NextEvent(script), BUFFER_SIZE);
    if first.err == EOF then first.(err := Nil)
    else if first.err != Nil then first
    else
      EofEnds(source, sink, mem, Event([], EOF), BUFFER_SIZE);
      var rest := Pump(source, sink, first.mem, script[1..]);
      StepResult(rest.mem, first.written + rest.written, first.n + rest.n, rest.err)
  }

  // ---- the meaning of a filter on a whole stream ----

  /** A filter with its meaning: `den` is what it makes of all the input still to come, `obs`
      what can be read off its memory once that input has ended. `ok(x, y)` says that a chunk
      x may be followed by the remaining input y, `okEof(y)` that y may arrive with eof. */
  datatype Stream = Stream(
    step: Step,
    den: (State, Bytes) -> Bytes,
    obs: (State, Bytes) -> Bytes,
    ok: (Bytes, Bytes) -> bool,
    okEof: Bytes -> bool)

  ghost predicate LawChunk(f: Stream, s: State, x: Bytes, y: Bytes) {
    f.ok(x, y) ==>
      var o := f.step(s, x, false);
      && o.err == Nil
      && f.den(s, x + y) == o.out + f.den(o.state, y)
      && f.obs(s, x + y) == f.obs(o.state, y)
  }

  ghost predicate LawEof(f: Stream, s: State, y: Bytes) {
    f.okEof(y) ==>
      var o := f.step(s, y, true);
      o.err == EOF && o.out == f.den(s, y) && f.obs(o.state, []) == f.obs(s, y)
  }

  /** Processing chunk by chunk and processing everything at once come to the same. */
  ghost predicate Lawful(f: Stream) {
    && (forall s, x, y :: LawChunk(f, s, x, y))
    && (forall s, y :: LawEof(f, s, y))
  }

  ghost predicate FitsChunk(f: Stream, g: Stream, s: State, x: Bytes, y: Bytes) {
    f.ok(x, y) ==>
      var o := f.step(s, x, false);
      o.out == [] || g.ok(o.out, f.den(o.state, y))
  }

  ghost predicate FitsEof(f: Stream, g: Stream, s: State, y: Bytes) {
    f.okEof(y) ==> g.okEof(f.den(s, y))
  }

  /** What f puts out is input g accepts. */
  ghost predicate Fits(f: Stream, g: Stream) {
    && (forall s, x, y :: FitsChunk(f, g, s, x, y))
    && (forall s, y :: FitsEof(f, g, s, y))
  }

  ghost predicate WellChained(fs: seq<Stream>) {
    && (forall i :: 0 <= i < |fs| ==> Lawful(fs[i]))
    && (forall i :: 0 <= i < |fs| - 1 ==> Fits(fs[i], fs[i + 1]))
  }

  function Steps(fs: seq<Stream>): (r: seq<Step>)
    ensures |r| == |fs| && forall i :: 0 <= i < |fs| ==> r[i] == fs[i].step
  {
    if fs == [] then [] else [fs[0].step] + Steps(fs[1..])
  }

  lemma StepsTail(fs: seq<Stream>)
    requires fs != []
    ensures Steps(fs)[1..] == Steps(fs[1..]) && Steps(fs)[0] == fs[0].step
  {
  }

  /** The composed meaning of a chain of filters. */
  function ChainDen(fs: seq<Stream>, states: seq<State>, x: Bytes): Bytes
    requires |fs| == |states|
  {
    if fs == [] then x else ChainDen(fs[1..], states[1..], fs[0].den(states[0], x))
  }

  /** What each filter will have observed once the input x has gone through. */
  function ChainObs(fs: seq<Stream>, states: seq<State>, x: Bytes): (r: seq<Bytes>)
    requires |fs| == |states|
    ensures |r| == |fs|
  {
    if fs == [] then [] else [fs[0].obs(states[0], x)] + ChainObs(fs[1..], states[1..], fs[0].den(states[0], x))
  }

  /** What each filter's memory shows now. */
  function Seen(fs: seq<Stream>, states: seq<State>): (r: seq<Bytes>)
    requires |fs| == |states|
    ensures |r| == |fs| && forall i :: 0 <= i < |fs| ==> r[i] == fs[i].obs(states[i], [])
  {
    if fs == [] then [] else [fs[0].obs(states[0], [])] + Seen(fs[1..], states[1..])
  }

  lemma {:induction false} ChainOnChunk(fs: seq<Stream>, states: seq<State>, x: Bytes, y: Bytes, where_: Where,
        cap: nat, err: PlainErr)
    requires fs != [] && |fs| == |states| && WellChained(fs) && fs[0].ok(x, y)
    ensures var c := RunChain(Steps(fs), states, x, where_, cap, false, err);
            && c.err == Nil
            && (c.early ==> c.data == [])
            && ChainDen(fs, states, x + y) == c.data + ChainDen(fs, c.states, y)
            && ChainObs(fs, states, x + y) == ChainObs(fs, c.states, y)
  {
    StepsTail(fs);
    var f, s := fs[0], states[0];
    var o := f.step(s, x, false);
    assert LawChunk(f, s, x, y);
    var place := Placed(o.place, where_, |o.out|, cap);
    var c := RunChain(Steps(fs), states, x, where_, cap, false, err);
    if o.out == [] {
      assert c.states[1..] == states[1..];
      assert [] + f.den(o.state, y) == f.den(o.state, y);
    } else {
      var rest := RunChain(Steps(fs[1..]), states[1..], o.out, place, cap, false, o.err);
      assert c.states[1..] == rest.states;
      if |fs| > 1 {
        assert FitsChunk(f, fs[1], s, x, y);
        ChainOnChunk(fs[1..], states[1..], o.out, f.den(o.state, y), place, cap, o.err);
      }
    }
  }

  lemma {:induction false} ChainOnEof(fs: seq<Stream>, states: seq<State>, y: Bytes, where_: Where, cap: nat,
        err: PlainErr)
    requires fs != [] && |fs| == |states| && WellChained(fs) && fs[0].okEof(y)
    ensures var c := RunChain(Steps(fs), states, y, where_, cap, true, err);
            && c.err == EOF && !c.early
            && c.data == ChainDen(fs, states, y)
            && Seen(fs, c.states) == ChainObs(fs, states, y)
  {
    StepsTail(fs);
    var f, s := fs[0], states[0];
    var o := f.step(s, y, true);
    assert LawEof(f, s, y);
    var place := Placed(o.place, where_, |o.out|, cap);
    var c := RunChain(Steps(fs), states, y, where_, cap, true, err);
    var rest := RunChain(Steps(fs[1..]), states[1..], o.out, place, cap, true, o.err);
    assert c.states[1..] == rest.states;
    if |fs| > 1 {
      assert FitsEof(f, fs[1], s, y);
      ChainOnEof(fs[1..], states[1..], o.out, place, cap, o.err);
    }
  }

  // ---- sink filters: no end of file ever reaches them ----

  ghost predicate SinkLaw(g: Stream, s: State, x: Bytes, y: Bytes) {
    && g.step(s, x, false).err == Nil
    && g.den(s, x + y) == g.step(s, x, false).out + g.den(g.step(s, x, false).state, y)
    && g.den(s, []) == []
  }

  ghost predicate SinkLawful(gs: seq<Stream>) {
    forall i, s, x, y :: 0 <= i < |gs| ==> SinkLaw(gs[i], s, x, y)
  }

  lemma {:induction false} SinkOnChunk(gs: seq<Stream>, states: seq<State>, x: Bytes, y: Bytes)
    requires |gs| == |states| && SinkLawful(gs)
    ensures var w := SinkChain(Steps(gs), states, x);
            && w.err == Nil
            && ChainDen(gs, states, x + y) == w.out + ChainDen(gs, w.states, y)
    ensures ChainDen(gs, states, []) == []
  {
    if gs != [] {
      StepsTail(gs);
      var g, s := gs[0], states[0];
      assert SinkLaw(g, s, x, y);
      var o := g.step(s, x, false);
      forall i, s', x', y' | 0 <= i < |gs[1..]|
        ensures SinkLaw(gs[1..][i], s', x', y')
      {
        assert SinkLaw(gs[i + 1], s', x', y');
      }
      SinkOnChunk(gs[1..], states[1..], o.out, g.den(o.state, y));
      var w := SinkChain(Steps(gs), states, x);
      assert w.states[1..] == SinkChain(Steps(gs[1..]), states[1..], o.out).states;
    }
  }

  // ---- the pump computes the composed meaning ----

  /** All bytes up to end of file. */
  function Data(script: seq<Event>): Bytes {
    if script == [] then []
    else if script[0].err == EOF then script[0].data
    else script[0].data + Data(script[1..])
  }

  /** Each read is one the first filter accepts at that place; read errors only where filters
      overwrite them. */
  ghost predicate Admissible(fs: seq<Stream>, script: seq<Event>) {
    if script == [] then fs != [] ==> fs[0].okEof([])
    else if script[0].err == EOF then fs != [] ==> fs[0].okEof(script[0].data)
    else
      && (script[0].err == Nil || fs != [])
      && (fs != [] ==> fs[0].ok(script[0].data, Data(script[1..])))
      && Admissible(fs, script[1..])
  }

  lemma ReadOnChunk(fs: seq<Stream>, states: seq<State>, x: Bytes, y: Bytes, err: PlainErr, cap: nat)
    requires |fs| == |states| && WellChained(fs) && (fs != [] ==> fs[0].ok(x, y))
    requires err == Nil || (fs != [] && err != EOF)
    ensures var rd := ReadStep(Steps(fs), states, Event(x, err), cap);
            && (rd.err == Nil || rd.err == NotInPlace)
            && ChainDen(fs, states, x + y) == rd.data + ChainDen(fs, rd.states, y)
            && ChainObs(fs, states, x + y) == ChainObs(fs, rd.states, y)
  {
    if fs != [] {
      ChainOnChunk(fs, states, x, y, InBuffer(0), cap, err);
    }
  }

  lemma ReadOnEof(fs: seq<Stream>, states: seq<State>, y: Bytes, cap: nat)
    requires |fs| == |states| && WellChained(fs) && (fs != [] ==> fs[0].okEof(y))
    ensures var rd := ReadStep(Steps(fs), states, Event(y, EOF), cap);
            && (rd.err == EOF || rd.err == EOFNotInPlace)
            && rd.data == ChainDen(fs, states, y)
            && Seen(fs, rd.states) == ChainObs(fs, states, y)
  {
    if fs != [] {
      ChainOnEof(fs, states, y, InBuffer(0), cap, EOF);
    }
  }

  /** The result of a pump run over input x. */
  ghost predicate Means(fs: seq<Stream>, gs: seq<Stream>, mem: Memory, x: Bytes, r: StepResult)
    requires |fs| == |mem.source| == |r.mem.source| && |gs| == |mem.sink|
  {
    && r.err == Nil
    && r.written == ChainDen(gs, mem.sink, ChainDen(fs, mem.source, x))
    && r.n == |ChainDen(fs, mem.source, x)|
    && Seen(fs, r.mem.source) == ChainObs(fs, mem.source, x)
  }

  lemma LastStep(fs: seq<Stream>, gs: seq<Stream>, mem: Memory, y: Bytes)
    requires |fs| == |mem.source| && |gs| == |mem.sink| && WellChained(fs) && SinkLawful(gs)
    requires fs != [] ==> fs[0].okEof(y)
    ensures var r := PumpStep(Steps(fs), Steps(gs), mem, Event(y, EOF), BUFFER_SIZE);
            r.err == EOF && Means(fs, gs, mem, y, r.(err := Nil))
  {
    ReadOnEof(fs, mem.source, y, BUFFER_SIZE);
    var out := ChainDen(fs, mem.source, y);
    SinkOnChunk(gs, mem.sink, out, []);
    SinkOnChunk(gs, SinkChain(Steps(gs), mem.sink, out).states, [], []);
    assert out + [] == out;
  }

  /** The main result: however the input is cut into reads, the pump writes the sink filters'
      meaning of the source filters' meaning of all the input, and reports the length of what
      the source side produced. */
  lemma {:induction false} PumpMeansComposition(fs: seq<Stream>, gs: seq<Stream>, mem: Memory, script: seq<Event>)
    requires |fs| == |mem.source| && |gs| == |mem.sink|
    requires WellChained(fs) && SinkLawful(gs) && Admissible(fs, script)
    ensures Means(fs, gs, mem, Data(script), Pump(Steps(fs), Steps(gs), mem, script))
    decreases |script|
  {
    if script == [] || script[0].err == EOF {
      LastStep(fs, gs, mem, Data(script));
      assert script != [] ==> script[0] == Event(Data(script), EOF);
    } else {
      var x, y := script[0].data, Data(script[1..]);
      var first := PumpStep(Steps(fs), Steps(gs), mem, script[0], BUFFER_SIZE);
      var rd := ReadStep(Steps(fs), mem.source, script[0], BUFFER_SIZE);
      assert script[0] == Event(x, script[0].err);
      ReadOnChunk(fs, mem.source, x, y, script[0].err, BUFFER_SIZE);
      var later := ChainDen(fs, rd.states, y);
      SinkOnChunk(gs, mem.sink, rd.data, later);
      assert rd.data == [] ==> rd.data + later == later;
      PumpMeansComposition(fs, gs, first.mem, script[1..]);
      var rest := Pump(Steps(fs), Steps(gs), first.mem, script[1..]);
      assert first.err == Nil && first.mem.source == rd.states && first.n == |rd.data|;
      assert [] + rest.written == rest.written;
    }
  }

  // ---- read errors ----

  /** With any filter chained, a read error is overwritten and the chunk is treated as an
      ordinary one; without filters it is reported. */
  lemma ReadErrorKeptIffNoFilter(steps: seq<Step>, states: seq<State>, data: Bytes, code: int, cap: nat)
    requires |steps| == |states|
    ensures steps == [] ==> ReadStep(steps, states, Event(data, Failed(code)), cap).err == Failed(code)
    ensures steps != [] ==> ReadStep(steps, states, Event(data, Failed(code)), cap) ==
                            ReadStep(steps, states, Event(data, Nil), cap)
  {
  }

  // ---- readers that may go on for ever ----

  /** The loop of pump.All comes to its end within these reads. */
  predicate Ended(source: seq<Step>, sink: seq<Step>, mem: Memory, script: seq<Event>)
    requires |source| == |mem.source| && |sink| == |mem.sink|
    decreases |script|
  {
    && script != []
    && var first := PumpStep(source, sink, mem, script[0], BUFFER_SIZE);
    (first.err != Nil || Ended(source, sink, first.mem, script[1..]))
  }

  lemma PumpCons(source: seq<Step>, sink: seq<Step>, mem: Memory, ev: Event, tail: seq<Event>)
    requires |source| == |mem.source| && |sink| == |mem.sink|
    ensures var first := PumpStep(source, sink, mem, ev, BUFFER_SIZE);
            Pump(source, sink, mem, [ev] + tail) ==
            if first.err == EOF then first.(err := Nil)
            else if first.err != Nil then first
            else
              var rest := Pump(source, sink, first.mem, tail);
              StepResult(rest.mem, first.written + rest.written, first.n + rest.n, rest.err)
  {
    assert ([ev] + tail)[1..] == tail;
  }

  lemma SameAfterStep(source: seq<Step>, sink: seq<Step>, mem: Memory, ev: Event, a: seq<Event>, b: seq<Event>)
    requires |source| == |mem.source| && |sink| == |mem.sink|
    requires var first := PumpStep(source, sink, mem, ev, BUFFER_SIZE);
             first.err == Nil ==> Pump(source, sink, first.mem, a) == Pump(source, sink, first.mem, b)
    ensures Pump(source, sink, mem, [ev] + a) == Pump(source, sink, mem, [ev] + b)
  {
    PumpCons(source, sink, mem, ev, a);
    PumpCons(source, sink, mem, ev, b);
  }

  lemma HeadAndTail(script: seq<Event>, more: seq<Event>)
    requires script != []
    ensures script == [script[0]] + script[1..] && script + more == [script[0]] + (script[1..] + more)
  {
  }

  /** What the loop returns is decided by the reads up to its end, whatever would follow them. */
  lemma {:induction false} EndDecides(source: seq<Step>, sink: seq<Step>, mem: Memory, script: seq<Event>,
        more: seq<Event>)
    requires |source| == |mem.source| && |sink| == |mem.sink| && Ended(source, sink, mem, script)
    ensures Pump(source, sink, mem, script + more) == Pump(source, sink, mem, script)
    decreases |script|
  {
    HeadAndTail(script, more);
    var first := PumpStep(source, sink, mem, script[0], BUFFER_SIZE);
    if first.err == Nil {
      EndDecides(source, sink, first.mem, script[1..], more);
    }
    SameAfterStep(source, sink, mem, script[0], script[1..] + more, script[1..]);
  }

  /** A read that ends a pump through lawful filters. */
  predicate Ending(fs: seq<Stream>, ev: Event) {
    ev.err == EOF || (fs == [] && ev.err != Nil)
  }

  /** A read that, without end of file, the first filter accepts somewhere. */
  ghost predicate Acceptable(fs: seq<Stream>, ev: Event) {
    fs != [] && ev.err != EOF ==> exists y :: fs[0].ok(ev.data, y)
  }

  lemma StopsIffEnding(fs: seq<Stream>, gs: seq<Stream>, mem: Memory, ev: Event)
    requires |fs| == |mem.source| && |gs| == |mem.sink| && WellChained(fs) && SinkLawful(gs) && Acceptable(fs, ev)
    ensures PumpStep(Steps(fs), Steps(gs), mem, ev, BUFFER_SIZE).err != Nil <==> Ending(fs, ev)
  {
    if ev.err == EOF {
      EofEnds(Steps(fs), Steps(gs), mem, ev, BUFFER_SIZE);
    } else if !Ending(fs, ev) {
      var y := [];
      if fs != [] {
        y :| fs[0].ok(ev.data, y);
      }
      ReadOnChunk(fs, mem.source, ev.data, y, ev.err, BUFFER_SIZE);
      SinkOnChunk(gs, mem.sink, ReadStep(Steps(fs), mem.source, ev, BUFFER_SIZE).data, []);
    }
  }

  lemma {:induction false} EndedIff(fs: seq<Stream>, gs: seq<Stream>, mem: Memory, script: seq<Event>)
    requires |fs| == |mem.source| && |gs| == |mem.sink| && WellChained(fs) && SinkLawful(gs)
    requires forall i :: 0 <= i < |script| ==> Acceptable(fs, script[i])
    ensures Ended(Steps(fs), Steps(gs), mem, script) <==> exists i :: 0 <= i < |script| && Ending(fs, script[i])
    decreases |script|
  {
    if script != [] {
      StopsIffEnding(fs, gs, mem, script[0]);
      if !Ending(fs, script[0]) {
        var first := PumpStep(Steps(fs), Steps(gs), mem, script[0], BUFFER_SIZE);
        EndedIff(fs, gs, first.mem, script[1..]);
        if i :| 0 <= i < |script| && Ending(fs, script[i]) {
          assert script[1..][i - 1] == script[i];
        }
      }
    }
  }

  /** What the k-th Read of a reader answers, for ever. */
  type Feed = nat -> Event

  function Reads(feed: Feed, n: nat): (r: seq<Event>)
    ensures |r| == n && forall i :: 0 <= i < n ==> r[i] == feed(i)
  {
    seq(n, i requires 0 <= i < n => feed(i))
  }

  /** pump.All returns; by EndDecides what it then returns is Pump of those reads. */
  ghost predicate Returns(source: seq<Step>, sink: seq<Step>, mem: Memory, feed: Feed)
    requires |source| == |mem.source| && |sink| == |mem.sink|
  {
    exists n: nat :: Ended(source, sink, mem, Reads(feed, n))
  }

  /** Through lawful filters pump.All returns if and only if some read reports end of file or, when the
      source has no filter, any error. */
  lemma ReturnsIff(fs: seq<Stream>, gs: seq<Stream>, mem: Memory, feed: Feed)
    requires |fs| == |mem.source| && |gs| == |mem.sink| && WellChained(fs) && SinkLawful(gs)
    requires forall k :: Acceptable(fs, feed(k))
    ensures Returns(Steps(fs), Steps(gs), mem, feed) <==> exists k :: Ending(fs, feed(k))
  {
    if k: nat :| Ending(fs, feed(k)) {
      EndedIff(fs, gs, mem, Reads(feed, k + 1));
      assert Ending(fs, Reads(feed, k + 1)[k]);
    }
    if n: nat :| Ended(Steps(fs), Steps(gs), mem, Reads(feed, n)) {
      EndedIff(fs, gs, mem, Reads(feed, n));
      var i :| 0 <= i < n && Ending(fs, Reads(feed, n)[i]);
      assert Ending(fs, feed(i));
    }
  }

  /** So a reader that fails for ever ends the pump if and only if no filter is chained to it. */
  lemma FailingReader(fs: seq<Stream>, gs: seq<Stream>, mem: Memory, feed: Feed, code: int)
    requires |fs| == |mem.source| && |gs| == |mem.sink| && WellChained(fs) && SinkLawful(gs)
    requires forall k :: feed(k) == Event([], Failed(code))
    requires fs != [] ==> exists y :: fs[0].ok([], y)
    ensures Returns(Steps(fs), Steps(gs), mem, feed) <==> fs == []
  {
    ReturnsIff(fs, gs, mem, feed);
    assert fs == [] ==> Ending(fs, feed(0));
  }

  // ---- what a run returns that fails ----

  /** What the loop has made of reads that do not end it. */
  function Progress(source: seq<Step>, sink: seq<Step>, mem: Memory, before: seq<Event>): (r: StepResult)
    requires |source| == |mem.source| && |sink| == |mem.sink|
    ensures |r.mem.source| == |source| && |r.mem.sink| == |sink|
    decreases |before|
  {
    if before == [] then StepResult(mem, [], 0, Nil)
    else
      var first := PumpStep(source, sink, mem, before[0], BUFFER_SIZE);
      var rest := Progress(source, sink, first.mem, before[1..]);
      StepResult(rest.mem, first.written + rest.written, first.n + rest.n, Nil)
  }

  /** The result when the read ev comes after reads that do not end the loop, and itself does. */
  ghost predicate EndsWith(whole: StepResult, soFar: StepResult, last: StepResult) {
    && whole.mem == last.mem && whole.written == soFar.written + last.written && whole.n == soFar.n + last.n
    && whole.err == if last.err == EOF then Nil else last.err
  }

  lemma ProgressCons(source: seq<Step>, sink: seq<Step>, mem: Memory, ev: Event, tail: seq<Event>)
    requires |source| == |mem.source| && |sink| == |mem.sink|
    ensures var first := PumpStep(source, sink, mem, ev, BUFFER_SIZE);
            var rest := Progress(source, sink, first.mem, tail);
            Progress(source, sink, mem, [ev] + tail) ==
            StepResult(rest.mem, first.written + rest.written, first.n + rest.n, Nil)
  {
    assert ([ev] + tail)[1..] == tail;
  }

  lemma EndsWithFirst(whole: StepResult, rest: StepResult, first: StepResult, later: StepResult, last: StepResult,
        soFar: StepResult)
    requires EndsWith(rest, later, last)
    requires whole == StepResult(rest.mem, first.written + rest.written, first.n + rest.n, rest.err)
    requires soFar == StepResult(later.mem, first.written + later.written, first.n + later.n, Nil)
    ensures EndsWith(whole, soFar, last)
  {
  }

  lemma EndsWithOneMore(source: seq<Step>, sink: seq<Step>, mem: Memory, ev: Event, tail: seq<Event>, rest: seq<Event>,
        last: StepResult)
    requires |source| == |mem.source| && |sink| == |mem.sink|
    requires var first := PumpStep(source, sink, mem, ev, BUFFER_SIZE);
             && first.err == Nil
             && EndsWith(Pump(source, sink, first.mem, rest), Progress(source, sink, first.mem, tail), last)
    ensures EndsWith(Pump(source, sink, mem, [ev] + rest), Progress(source, sink, mem, [ev] + tail), last)
  {
    var first := PumpStep(source, sink, mem, ev, BUFFER_SIZE);
    PumpCons(source, sink, mem, ev, rest);
    ProgressCons(source, sink, mem, ev, tail);
    EndsWithFirst(Pump(source, sink, mem, [ev] + rest), Pump(source, sink, first.mem, rest), first,
                  Progress(source, sink, first.mem, tail), last, Progress(source, sink, mem, [ev] + tail));
  }

  lemma {:induction false} StopsAfter(source: seq<Step>, sink: seq<Step>, mem: Memory, before: seq<Event>, ev: Event,
        more: seq<Event>)
    requires |source| == |mem.source| && |sink| == |mem.sink| && !Ended(source, sink, mem, before)
    requires PumpStep(source, sink, Progress(source, sink, mem, before).mem, ev, BUFFER_SIZE).err != Nil
    ensures var p := Progress(source, sink, mem, before);
            EndsWith(Pump(source, sink, mem, before + ([ev] + more)), p, PumpStep(source, sink, p.mem, ev, BUFFER_SIZE))
    decreases |before|
  {
    if before == [] {
      assert before + ([ev] + more) == [ev] + more;
      PumpCons(source, sink, mem, ev, more);
    } else {
      var tail := before[1..];
      var first := PumpStep(source, sink, mem, before[0], BUFFER_SIZE);
      var later := Progress(source, sink, first.mem, tail);
      HeadAndTail(before, [ev] + more);
      StopsAfter(source, sink, first.mem, tail, ev, more);
      EndsWithOneMore(source, sink, mem, before[0], tail, tail + ([ev] + more),
                      PumpStep(source, sink, later.mem, ev, BUFFER_SIZE));
    }
  }

  // a reader that fails, without source filters

  lemma CopyStep(gs: seq<Stream>, mem: Memory, ev: Event, y: Bytes)
    requires mem.source == [] && |gs| == |mem.sink| && SinkLawful(gs) && ev.err == Nil
    ensures var r := PumpStep([], Steps(gs), mem, ev, BUFFER_SIZE);
            && r.err == Nil && r.n == |ev.data| && r.mem.source == []
            && ChainDen(gs, mem.sink, ev.data + y) == r.written + ChainDen(gs, r.mem.sink, y)
  {
    SinkOnChunk(gs, mem.sink, ev.data, y);
    assert ev.data == [] ==> ev.data + y == y && [] + ChainDen(gs, mem.sink, y) == ChainDen(gs, mem.sink, y);
  }

  /** Reads without error are copied through the sink filters. */
  lemma {:induction false} CopiedSoFar(gs: seq<Stream>, mem: Memory, before: seq<Event>, y: Bytes)
    requires mem.source == [] && |gs| == |mem.sink| && SinkLawful(gs)
    requires forall i :: 0 <= i < |before| ==> before[i].err == Nil
    ensures !Ended([], Steps(gs), mem, before)
    ensures var p := Progress([], Steps(gs), mem, before);
            && p.n == |Data(before)| && p.mem.source == []
            && ChainDen(gs, mem.sink, Data(before) + y) == p.written + ChainDen(gs, p.mem.sink, y)
    decreases |before|
  {
    if before == [] {
      assert [] + y == y && [] + ChainDen(gs, mem.sink, y) == ChainDen(gs, mem.sink, y);
    } else {
      var d, rest := before[0].data, Data(before[1..]);
      var first := PumpStep([], Steps(gs), mem, before[0], BUFFER_SIZE);
      CopyStep(gs, mem, before[0], rest + y);
      CopiedSoFar(gs, first.mem, before[1..], y);
      var p := Progress([], Steps(gs), first.mem, before[1..]);
      assert (d + rest) + y == d + (rest + y);
      assert first.written + (p.written + ChainDen(gs, p.mem.sink, y))
             == (first.written + p.written) + ChainDen(gs, p.mem.sink, y);
    }
  }

  /** Without source filters a read error is what pump.All returns; the reads before it have been
      written, and the bytes that came with it are counted and not written. */
  lemma ReadErrorIsReturned(gs: seq<Stream>, mem: Memory, before: seq<Event>, d: Bytes, code: int, more: seq<Event>)
    requires mem.source == [] && |gs| == |mem.sink| && SinkLawful(gs)
    requires forall i :: 0 <= i < |before| ==> before[i].err == Nil
    ensures var r := Pump([], Steps(gs), mem, before + ([Event(d, Failed(code))] + more));
            && r.err == Failed(code)
            && r.written == ChainDen(gs, mem.sink, Data(before))
            && r.n == |Data(before)| + |d|
  {
    CopiedSoFar(gs, mem, before, []);
    var p := Progress([], Steps(gs), mem, before);
    SinkOnChunk(gs, p.mem.sink, [], []);
    assert Data(before) + [] == Data(before);
    StopsAfter([], Steps(gs), mem, before, Event(d, Failed(code)), more);
    assert p.written + [] == p.written;
  }

  // what the error of a lawful run says

  /** Reads that the first filter accepts somewhere, with end of file or without. */
  ghost predicate AcceptableRead(fs: seq<Stream>, ev: Event) {
    Acceptable(fs, ev) && (fs != [] && ev.err == EOF ==> fs[0].okEof(ev.data))
  }

  lemma LastError(fs: seq<Stream>, gs: seq<Stream>, mem: Memory, ev: Event)
    requires |fs| == |mem.source| && |gs| == |mem.sink| && WellChained(fs) && SinkLawful(gs)
    requires AcceptableRead(fs, ev) && Ending(fs, ev)
    ensures PumpStep(Steps(fs), Steps(gs), mem, ev, BUFFER_SIZE).err == ev.err
  {
    if ev.err == EOF {
      LastStep(fs, gs, mem, ev.data);
      assert ev == Event(ev.data, EOF);
    }
  }

  ghost predicate FirstEnding(fs: seq<Stream>, script: seq<Event>, i: int) {
    0 <= i < |script| && Ending(fs, script[i]) && forall j :: 0 <= j < i ==> !Ending(fs, script[j])
  }

  /** Through lawful filters pump.All returns the error of the first read that ends it, and no error if
      and only if that one is end of file. */
  lemma ErrorOfFirstEnding(fs: seq<Stream>, gs: seq<Stream>, mem: Memory, script: seq<Event>, i: nat)
    requires |fs| == |mem.source| && |gs| == |mem.sink| && WellChained(fs) && SinkLawful(gs)
    requires forall j :: 0 <= j < |script| ==> AcceptableRead(fs, script[j])
    requires FirstEnding(fs, script, i)
    ensures var r := Pump(Steps(fs), Steps(gs), mem, script);
            (r.err == Nil <==> script[i].err == EOF) && (script[i].err != EOF ==> r.err == script[i].err)
  {
    var before, more := script[..i], script[i + 1..];
    assert script == before + ([script[i]] + more);
    EndedIff(fs, gs, mem, before);
    LastError(fs, gs, Progress(Steps(fs), Steps(gs), mem, before).mem, script[i]);
    StopsAfter(Steps(fs), Steps(gs), mem, before, script[i], more);
  }

  // a source filter that fails

  /** x is what reaches filter i: all filters before it hand something on, or end of file. */
  ghost predicate PassesTo(steps: seq<Step>, states: seq<State>, data: Bytes, eof: bool, i: nat, x: Bytes)
    requires |steps| == |states| && i < |steps|
    decreases i
  {
    if i == 0 then x == data
    else
      var o := steps[0](states[0], data, eof);
      && (o.err == Nil || o.err == EOF) && !(o.out == [] && o.err == Nil)
      && PassesTo(steps[1..], states[1..], o.out, eof, i - 1, x)
  }

  lemma {:induction false} ChainStopsAt(steps: seq<Step>, states: seq<State>, data: Bytes, where_: Where, cap: nat,
        eof: bool, err: PlainErr, i: nat, x: Bytes)
    requires |steps| == |states| && i < |steps| && PassesTo(steps, states, data, eof, i, x)
    ensures var c, o := RunChain(steps, states, data, where_, cap, eof, err), steps[i](states[i], x, eof);
            && (o.err.Failed? ==> c.early && c.err == o.err && c.data == o.out)
            && (o.err == Nil && o.out == [] ==>
                  c.early && c.data == [] && c.err == if eof then NoEofReturned else Nil)
    decreases i
  {
    if i > 0 {
      var o := steps[0](states[0], data, eof);
      var place := Placed(o.place, where_, |o.out|, cap);
      ChainStopsAt(steps[1..], states[1..], o.out, place, cap, eof, o.err, i - 1, x);
    }
  }

  /** A source filter that fails ends pump.All with its error: what it hands back is counted and not
      written, and the sink's filters do not see it. */
  lemma SourceFilterFails(source: seq<Step>, sink: seq<Step>, mem: Memory, before: seq<Event>, ev: Event,
        more: seq<Event>, i: nat, x: Bytes, code: int)
    requires |source| == |mem.source| && |sink| == |mem.sink| && !Ended(source, sink, mem, before) && i < |source|
    requires var now := Progress(source, sink, mem, before).mem.source;
             && PassesTo(source, now, ev.data, ev.err == EOF, i, x)
             && source[i](now[i], x, ev.err == EOF).err == Failed(code)
    ensures var p := Progress(source, sink, mem, before);
            var r := Pump(source, sink, mem, before + ([ev] + more));
            && r.err == Failed(code) && r.written == p.written && r.mem.sink == p.mem.sink
            && r.n == p.n + |source[i](p.mem.source[i], x, ev.err == EOF).out|
  {
    var p := Progress(source, sink, mem, before);
    ChainStopsAt(source, p.mem.source, ev.data, InBuffer(0), BUFFER_SIZE, ev.err == EOF, ev.err, i, x);
    StopsAfter(source, sink, mem, before, ev, more);
    assert p.written + [] == p.written;
  }

  /** A source filter that hands nothing on at end of file, not even end of file, is an error. */
  lemma SilentAtEof(source: seq<Step>, sink: seq<Step>, mem: Memory, before: seq<Event>, d: Bytes, more: seq<Event>,
        i: nat, x: Bytes)
    requires |source| == |mem.source| && |sink| == |mem.sink| && !Ended(source, sink, mem, before) && i < |source|
    requires var now := Progress(source, sink, mem, before).mem.source;
             && PassesTo(source, now, d, true, i, x)
             && source[i](now[i], x, true).err == Nil && source[i](now[i], x, true).out == []
    ensures var p := Progress(source, sink, mem, before);
            var r := Pump(source, sink, mem, before + ([Event(d, EOF)] + more));
            r.err == NoEofReturned && r.written == p.written && r.n == p.n
  {
    var p := Progress(source, sink, mem, before);
    ChainStopsAt(source, p.mem.source, d, InBuffer(0), BUFFER_SIZE, true, EOF, i, x);
    StopsAfter(source, sink, mem, before, Event(d, EOF), more);
    assert p.written + [] == p.written;
  }

  lemma OneFilterReads(f: Step, s: State, ev: Event, cap: nat)
    requires ev.err != EOF && f(s, ev.data, false).err == EOF
    ensures var o := f(s, ev.data, false);
            var rd := ReadStep([f], [s], ev, cap);
            && rd.data == o.out
            && rd.err == if o.out == [] || (o.place.At? && o.place.offset + |o.out| <= cap) then EOF else NotInPlace
  {
    var o := f(s, ev.data, false);
    var place := Placed(o.place, InBuffer(0), |o.out|, cap);
    assert [f][1..] == [] && [s][1..] == [];
    assert RunChain([f][1..], [s][1..], o.out, place, cap, false, o.err) == ChainResult([], o.out, place, EOF, false);
  }

  /** The only filter answers end of file before the reader does: the loop takes it for the end if and only
      if the output lies in the read buffer or is empty; the output is written either way. */
  lemma EarlyEofEndsIff(f: Step, sink: seq<Step>, s: State, states: seq<State>, ev: Event)
    requires |sink| == |states| && ev.err != EOF && f(s, ev.data, false).err == EOF
    requires SinkChain(sink, states, f(s, ev.data, false).out).err == Nil
    ensures var o := f(s, ev.data, false);
            var r := PumpStep([f], sink, Memory([s], states), ev, BUFFER_SIZE);
            && (r.err == EOF <==> o.out == [] || (o.place.At? && o.place.offset + |o.out| <= BUFFER_SIZE))
            && (r.err == EOF || r.err == Nil)
            && (o.out != [] ==> r.written == SinkChain(sink, states, o.out).out && r.n == |o.out|)
  {
    OneFilterReads(f, s, ev, BUFFER_SIZE);
  }

  // a sink filter that fails

  /** x is what reaches sink filter i. */
  ghost predicate SinkPassesTo(steps: seq<Step>, states: seq<State>, data: Bytes, i: nat, x: Bytes)
    requires |steps| == |states| && i < |steps|
    decreases i
  {
    if i == 0 then x == data
    else
      var o := steps[0](states[0], data, false);
      o.err == Nil && SinkPassesTo(steps[1..], states[1..], o.out, i - 1, x)
  }

  lemma {:induction false} SinkStopsAt(steps: seq<Step>, states: seq<State>, data: Bytes, i: nat, x: Bytes)
    requires |steps| == |states| && i < |steps| && SinkPassesTo(steps, states, data, i, x)
    requires steps[i](states[i], x, false).err != Nil
    ensures var w, o := SinkChain(steps, states, data), steps[i](states[i], x, false);
            w.err == o.err && w.out == o.out
    decreases i
  {
    if i > 0 {
      SinkStopsAt(steps[1..], states[1..], steps[0](states[0], data, false).out, i - 1, x);
    }
  }

  /** A sink filter that fails, at end of file or before, ends pump.All with its error; nothing of that
      chunk is written, and the filter's output is counted. */
  lemma SinkFilterFails(source: seq<Step>, sink: seq<Step>, mem: Memory, before: seq<Event>, ev: Event,
        more: seq<Event>, i: nat, x: Bytes, code: int)
    requires |source| == |mem.source| && |sink| == |mem.sink| && !Ended(source, sink, mem, before) && i < |sink|
    requires var p := Progress(source, sink, mem, before);
             var rd := ReadStep(source, p.mem.source, ev, BUFFER_SIZE);
             && rd.data != [] && (rd.err == Nil || rd.err == EOF || rd.err == NotInPlace || rd.err == EOFNotInPlace)
             && SinkPassesTo(sink, p.mem.sink, rd.data, i, x)
             && sink[i](p.mem.sink[i], x, false).err == Failed(code)
    ensures var p := Progress(source, sink, mem, before);
            var r := Pump(source, sink, mem, before + ([ev] + more));
            && r.err == Failed(code) && r.written == p.written
            && r.n == p.n + |sink[i](p.mem.sink[i], x, false).out|
  {
    var p := Progress(source, sink, mem, before);
    SinkStopsAt(sink, p.mem.sink, ReadStep(source, p.mem.source, ev, BUFFER_SIZE).data, i, x);
    StopsAfter(source, sink, mem, before, ev, more);
    assert p.written + [] == p.written;
  }
}
