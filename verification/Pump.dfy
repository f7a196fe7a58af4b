/** The pump on memory: slices of a shared read buffer, filters that write into the memory they
    are given, and the loops of Source.Read, Sink.Write, pump.Step and pump.All. Each method is
    proved to compute the function of the same purpose in module Streams. */
module Pump {
  import opened Options
  import opened Bytes
  import opened Streams

  /** A Go slice: arr[off..off+len], with capacity up to `end`. */
  datatype Slice = Slice(arr: array<byte>, off: nat, len: nat, end: nat) {
    ghost predicate Valid() {
      off + len <= end <= arr.Length
    }

    ghost predicate Holds(data: Bytes)
      reads arr
    {
      Valid() && Contents() == data
    }

    function Contents(): Bytes
      requires Valid()
      reads arr
    {
      arr[off..off + len]
    }
  }

  /** helper.SameSliceBackend: the two slices' capacities end at the same address. */
  predicate SameSliceBackend(a: Slice, b: Slice) {
    a.arr == b.arr && a.end == b.end
  }

  method NewSlice(data: Bytes) returns (s: Slice)
    ensures s.Valid() && fresh(s.arr) && s.Contents() == data
  {
    var arr := new byte[|data|](i requires 0 <= i < |data| => data[i]);
    s := Slice(arr, 0, |data|, |data|);
  }

  /** A filter object: its Process function and its memory. */
  class Filter {
    const step: Step
    var state: State

    constructor (step: Step, state: State)
      ensures this.step == step && this.state == state
    {
      this.step := step;
      this.state := state;
    }

    /** Output that the function places in the given memory goes there when the capacity allows
        (as Go's append does); otherwise it is allocated. */
    method Process(p: Slice, eof: bool) returns (out: Slice, err: PlainErr)
      requires p.Valid()
      modifies this, p.arr
      ensures out.Valid()
      ensures var o := step(old(state), old(p.Contents()), eof);
              && state == o.state && err == o.err && out.Contents() == o.out
              && (if o.place.At? && p.off + o.place.offset + |o.out| <= p.end
                  then out == Slice(p.arr, p.off + o.place.offset, |o.out|, p.end)
                  else fresh(out.arr))
    {
      var o := step(state, p.Contents(), eof);
      state := o.state;
      err := o.err;
      if o.place.At? && p.off + o.place.offset + |o.out| <= p.end {
        var start := p.off + o.place.offset;
        forall i | 0 <= i < |o.out| {
          p.arr[start + i] := o.out[i];
        }
        out := Slice(p.arr, start, |o.out|, p.end);
        assert p.arr[start..start + |o.out|] == o.out;
      } else {
        out := NewSlice(o.out);
      }
    }
  }

  ghost predicate Distinct(fs: seq<Filter>) {
    forall i, j :: 0 <= i < j < |fs| ==> fs[i] != fs[j]
  }

  /** The filters are different objects, all among objs. */
  ghost predicate Owned(fs: seq<Filter>, objs: set<Filter>) {
    Distinct(fs) && forall i :: 0 <= i < |fs| ==> fs[i] in objs
  }

  ghost function StepsOf(fs: seq<Filter>): (r: seq<Step>)
    ensures |r| == |fs| && forall i :: 0 <= i < |fs| ==> r[i] == fs[i].step
  {
    seq(|fs|, i requires 0 <= i < |fs| => fs[i].step)
  }

  ghost predicate HasStates(fs: seq<Filter>, states: seq<State>)
    reads fs
  {
    |fs| == |states| && forall i :: 0 <= i < |fs| ==> fs[i].state == states[i]
  }

  /** One Process call inside a loop over a filter list: only filter i's memory changes. */
  method Apply(fs: seq<Filter>, i: nat, p: Slice, eof: bool, ghost cur: seq<State>)
    returns (out: Slice, err: PlainErr)
    requires i < |fs| && Distinct(fs) && HasStates(fs, cur) && p.Valid()
    modifies fs[i], p.arr
    ensures out.Valid()
    ensures var o := fs[i].step(cur[i], old(p.Contents()), eof);
            && HasStates(fs, cur[i := o.state])
            && err == o.err && out.Contents() == o.out && out.len == |o.out|
            && (if o.place.At? && p.off + o.place.offset + |o.out| <= p.end
                then out == Slice(p.arr, p.off + o.place.offset, |o.out|, p.end)
                else fresh(out.arr))
  {
    out, err := fs[i].Process(p, eof);
  }

  // ---- the loops over filters, from position i on ----

  ghost function ChainLoop(steps: seq<Step>, cur: seq<State>, i: nat, data: Bytes, where_: Where, cap: nat,
        eof: bool, err: PlainErr): ChainResult
    requires i <= |steps| == |cur|
    decreases |steps| - i
  {
    if i == |steps| then ChainResult(cur, data, where_, err, false)
    else
      var o := steps[i](cur[i], data, eof);
      var place := Placed(o.place, where_, |o.out|, cap);
      var next := cur[i := o.state];
      if o.err != Nil && o.err != EOF then ChainResult(next, o.out, place, o.err, true)
      else if o.out == [] && o.err == Nil then
        ChainResult(next, [], place, if eof then NoEofReturned else Nil, true)
      else ChainLoop(steps, next, i + 1, o.out, place, cap, eof, o.err)
  }

  lemma {:induction false} ChainLoopIs(steps: seq<Step>, cur: seq<State>, i: nat, data: Bytes, where_: Where,
        cap: nat, eof: bool, err: PlainErr)
    requires i <= |steps| == |cur|
    ensures var rest := RunChain(steps[i..], cur[i..], data, where_, cap, eof, err);
            ChainLoop(steps, cur, i, data, where_, cap, eof, err) == rest.(states := cur[..i] + rest.states)
    decreases |steps| - i
  {
    if i == |steps| {
      assert cur[..i] + cur[i..] == cur;
    } else {
      var o := steps[i](cur[i], data, eof);
      var place := Placed(o.place, where_, |o.out|, cap);
      var next := cur[i := o.state];
      ChainLoopIs(steps, next, i + 1, o.out, place, cap, eof, o.err);
      assert steps[i..][1..] == steps[i + 1..] && cur[i..][1..] == cur[i + 1..] == next[i + 1..];
      assert next == cur[..i] + ([o.state] + cur[i + 1..]);
      var rest := RunChain(steps[i + 1..], next[i + 1..], o.out, place, cap, eof, o.err);
      assert next[..i + 1] + rest.states == cur[..i] + ([o.state] + rest.states);
    }
  }

  lemma ChainLoopIsRunChain(steps: seq<Step>, cur: seq<State>, data: Bytes, where_: Where, cap: nat, eof: bool,
        err: PlainErr)
    requires |steps| == |cur|
    ensures ChainLoop(steps, cur, 0, data, where_, cap, eof, err) == RunChain(steps, cur, data, where_, cap, eof, err)
  {
    ChainLoopIs(steps, cur, 0, data, where_, cap, eof, err);
    assert steps[0..] == steps && cur[0..] == cur && cur[..0] == [];
    var all := RunChain(steps, cur, data, where_, cap, eof, err);
    assert [] + all.states == all.states;
  }

  lemma ReadStepFrom(steps: seq<Step>, states: seq<State>, ev: Event, cap: nat)
    requires |steps| == |states| && steps != [] && |ev.data| <= cap
    ensures var c := ChainLoop(steps, states, 0, ev.data, InBuffer(0), cap, ev.err == EOF, ev.err);
            && ReadStep(steps, states, ev, cap) ==
               ReadResult(c.states, c.data,
                          if c.early || c.data == [] then c.err
                          else if c.where_.InBuffer? then (if ev.err == EOF then EOF else c.err)
                          else if ev.err == EOF then EOFNotInPlace else NotInPlace)
            && (c.where_.InBuffer? ==> c.where_.offset + |c.data| <= cap)
            && c.err != NotInPlace && c.err != EOFNotInPlace
            && (c.early ==> c.err != EOF && (c.err == Nil ==> c.data == []))
  {
    ChainLoopIsRunChain(steps, states, ev.data, InBuffer(0), cap, ev.err == EOF, ev.err);
  }

  ghost function SinkLoop(steps: seq<Step>, cur: seq<State>, i: nat, data: Bytes): WriteResult
    requires i <= |steps| == |cur|
    decreases |steps| - i
  {
    if i == |steps| then WriteResult(cur, data, Nil)
    else
      var o := steps[i](cur[i], data, false);
      var next := cur[i := o.state];
      if o.err != Nil then WriteResult(next, o.out, o.err) else SinkLoop(steps, next, i + 1, o.out)
  }

  lemma {:induction false} SinkLoopIs(steps: seq<Step>, cur: seq<State>, i: nat, data: Bytes)
    requires i <= |steps| == |cur|
    ensures var rest := SinkChain(steps[i..], cur[i..], data);
            SinkLoop(steps, cur, i, data) == rest.(states := cur[..i] + rest.states)
    decreases |steps| - i
  {
    if i == |steps| {
      assert cur[..i] + cur[i..] == cur;
    } else {
      var o := steps[i](cur[i], data, false);
      var next := cur[i := o.state];
      SinkLoopIs(steps, next, i + 1, o.out);
      assert steps[i..][1..] == steps[i + 1..] && cur[i..][1..] == cur[i + 1..] == next[i + 1..];
      assert next == cur[..i] + ([o.state] + cur[i + 1..]);
      var rest := SinkChain(steps[i + 1..], next[i + 1..], o.out);
      assert next[..i + 1] + rest.states == cur[..i] + ([o.state] + rest.states);
    }
  }

  lemma SinkLoopIsSinkChain(steps: seq<Step>, cur: seq<State>, data: Bytes)
    requires |steps| == |cur|
    ensures SinkLoop(steps, cur, 0, data) == SinkChain(steps, cur, data)
  {
    SinkLoopIs(steps, cur, 0, data);
    assert steps[0..] == steps && cur[0..] == cur && cur[..0] == [];
    var all := SinkChain(steps, cur, data);
    assert [] + all.states == all.states;
  }

  /** The wrapped io.Reader, answering a fixed script of reads and then end of file. */
  class Reader {
    var script: seq<Event>

    constructor (script: seq<Event>)
      ensures this.script == script
    {
      this.script := script;
    }

    method Read(buffer: array<byte>) returns (n: nat, err: PlainErr)
      requires |NextEvent(script).data| <= buffer.Length
      modifies this, buffer
      ensures script == if old(script) == [] then [] else old(script)[1..]
      ensures var ev := NextEvent(old(script));
              n == |ev.data| && err == ev.err && buffer[..n] == ev.data
    {
      var ev := NextEvent(script);
      n, err := |ev.data|, ev.err;
      forall i | 0 <= i < n {
        buffer[i] := ev.data[i];
      }
      assert buffer[..n] == ev.data;
      if script != [] {
        script := script[1..];
      }
    }
  }

  class Source {
    const reader: Reader
    var filters: seq<Filter>
    var DataFilterOutput: Option<Slice>
    ghost var Objs: set<Filter>

    constructor (reader: Reader)
      ensures this.reader == reader && filters == [] && Objs == {}
    {
      this.reader := reader;
      filters := [];
      DataFilterOutput := None;
      Objs := {};
    }

    method Chain(fs: seq<Filter>)
      modifies this
      ensures filters == old(filters) + fs && Objs == old(Objs) + set f | f in fs
    {
      filters := filters + fs;
      Objs := Objs + set f | f in fs;
    }

    /** The loop of Read over the filters; early means that Read returns from inside it. */
    method RunFilters(buffer: array<byte>, first: Slice, rEOF: bool, readErr: PlainErr, ghost states: seq<State>)
      returns (data: Slice, err: Err, early: bool, ghost c: ChainResult)
      requires Owned(filters, Objs) && HasStates(filters, states)
      requires first.arr == buffer && first.off == 0 && first.end == buffer.Length && first.Valid()
      modifies Objs, buffer
      ensures c == ChainLoop(StepsOf(filters), states, 0, old(first.Contents()),
                             InBuffer(0), buffer.Length, rEOF, readErr)
      ensures HasStates(filters, c.states)
      ensures data.Valid() && data.len == |c.data| && data.Contents() == c.data
      ensures err == c.err && early == c.early
      ensures Located(data, c.where_, buffer) && (data.arr == buffer || fresh(data.arr))
    {
      var plain := readErr;
      data, err, early := first, readErr, false;
      ghost var where_, cur := InBuffer(0), states;
      ghost var steps, cap := StepsOf(filters), buffer.Length;
      c := ChainLoop(steps, cur, 0, data.Contents(), where_, cap, rEOF, plain);
      var i := 0;
      while i < |filters|
        invariant i <= |filters| && HasStates(filters, cur)
        invariant data.Valid() && err == plain && !early
        invariant Located(data, where_, buffer) && (data.arr == buffer || fresh(data.arr))
        invariant c == ChainLoop(steps, cur, i, data.Contents(), where_, cap, rEOF, plain)
      {
        ghost var o := steps[i](cur[i], data.Contents(), rEOF);
        where_ := Placed(o.place, where_, |o.out|, cap);
        data, plain := Apply(filters, i, data, rEOF, cur);
        cur := cur[i := o.state];
        err := plain;
        if !(plain == Nil || plain == EOF) {
          early := true;
          return;
        }
        if data.len == 0 && plain == Nil {
          early := true;
          if rEOF {
            err := NoEofReturned;
          }
          return;
        }
        i := i + 1;
      }
    }

    /** Where Read leaves its result: in the buffer, or in DataFilterOutput when a sentinel
        error says so. */
    ghost predicate Delivered(buffer: array<byte>, rd: ReadResult)
      reads this, buffer, if DataFilterOutput.Some? then {DataFilterOutput.value.arr} else {}
    {
      && (rd.err == Nil || rd.err == EOF ==> |rd.data| <= buffer.Length && buffer[..|rd.data|] == rd.data)
      && (rd.err == NotInPlace || rd.err == EOFNotInPlace ==>
            DataFilterOutput.Some? && DataFilterOutput.value.Holds(rd.data))
    }

    /** What follows that loop: hand the result over in the buffer or in DataFilterOutput. */
    method HandOver(buffer: array<byte>, data: Slice, rEOF: bool, loopErr: Err, early: bool, ghost c: ChainResult)
      returns (n: nat, err: Err, ghost rd: ReadResult)
      requires data.Holds(c.data) && Located(data, c.where_, buffer) && data.len == |c.data|
      requires loopErr == c.err && early == c.early
      requires c.err != NotInPlace && c.err != EOFNotInPlace
      requires c.early ==> c.err != EOF && (c.err == Nil ==> c.data == [])
      modifies `DataFilterOutput, buffer
      ensures rd == ReadResult(c.states, c.data,
                               if c.early || c.data == [] then c.err
                               else if c.where_.InBuffer? then (if rEOF then EOF else c.err)
                               else if rEOF then EOFNotInPlace else NotInPlace)
      ensures n == |rd.data| && err == rd.err && Delivered(buffer, rd)
      ensures DataFilterOutput == None || (DataFilterOutput == Some(data) && data.arr != buffer)
    {
      n, err := data.len, loopErr;
      DataFilterOutput := None;
      if !early && n > 0 {
        if SameSliceBackend(Slice(buffer, 0, buffer.Length, buffer.Length), data) {
          if data.off != 0 {
            forall k | 0 <= k < n {
              buffer[k] := data.arr[data.off + k];
            }
          }
          assert buffer[..n] == c.data;
          if rEOF {
            err := EOF;
          }
        } else {
          DataFilterOutput := Some(data);
          if rEOF {
            err := EOFNotInPlace;
          } else {
            err := NotInPlace;
          }
        }
      }
      rd := ReadResult(c.states, c.data, err);
    }

    /** The part of Read after the wrapped reader has answered, given filters. */
    method Filtered(buffer: array<byte>, readN: nat, readErr: PlainErr, ghost states: seq<State>, ghost ev: Event)
      returns (n: nat, err: Err, ghost rd: ReadResult)
      requires filters != [] && Owned(filters, Objs) && HasStates(filters, states)
      requires readN == |ev.data| <= buffer.Length && buffer[..readN] == ev.data && readErr == ev.err
      modifies `DataFilterOutput, Objs, buffer
      ensures rd == ReadStep(StepsOf(filters), states, ev, buffer.Length)
      ensures HasStates(filters, rd.states)
      ensures n == |rd.data| && err == rd.err && Delivered(buffer, rd)
      ensures DataFilterOutput.Some? ==> fresh(DataFilterOutput.value.arr)
    {
      var rEOF := readErr == EOF;
      var data, early;
      ghost var c;
      ReadStepFrom(StepsOf(filters), states, ev, buffer.Length);
      data, err, early, c := RunFilters(buffer, Slice(buffer, 0, readN, buffer.Length), rEOF, readErr, states);
      n, err, rd := HandOver(buffer, data, rEOF, err, early, c);
    }

    method Read(buffer: array<byte>, ghost states: seq<State>) returns (n: nat, err: Err, ghost rd: ReadResult)
      requires Owned(filters, Objs) && HasStates(filters, states)
      requires |NextEvent(reader.script).data| <= buffer.Length
      modifies `DataFilterOutput, reader, Objs, buffer
      ensures reader.script == if old(reader.script) == [] then [] else old(reader.script)[1..]
      ensures rd == ReadStep(StepsOf(filters), states, NextEvent(old(reader.script)), buffer.Length)
      ensures HasStates(filters, rd.states)
      ensures n == |rd.data| && err == rd.err && Delivered(buffer, rd)
      ensures err == NotInPlace || err == EOFNotInPlace ==> fresh(DataFilterOutput.value.arr)
    {
      ghost var ev := NextEvent(reader.script);
      var plain: PlainErr;
      n, plain := reader.Read(buffer);
      err := plain;
      if |filters| == 0 {
        return n, err, ReadResult(states, ev.data, ev.err);
      }
      n, err, rd := Filtered(buffer, n, plain, states, ev);
    }
  }

  /** Whether the ghost location says where the slice is. */
  ghost predicate Located(data: Slice, where_: Where, buffer: array<byte>) {
    match where_
    case InBuffer(o) => data.arr == buffer && data.off == o && data.end == buffer.Length
    case Elsewhere => data.arr != buffer
  }

  /** The wrapped io.Writer: a bytes.Buffer. */
  class Buffer {
    var written: Bytes

    constructor ()
      ensures written == []
    {
      written := [];
    }

    method Write(p: Slice) returns (n: nat)
      requires p.Valid()
      modifies this
      ensures written == old(written) + p.Contents() && n == p.len
    {
      written := written + p.Contents();
      n := p.len;
    }
  }

  class Sink {
    const writer: Buffer
    var filters: seq<Filter>
    ghost var Objs: set<Filter>

    constructor (writer: Buffer)
      ensures this.writer == writer && filters == [] && Objs == {}
    {
      this.writer := writer;
      filters := [];
      Objs := {};
    }

    method Chain(fs: seq<Filter>)
      modifies this
      ensures filters == old(filters) + fs && Objs == old(Objs) + set f | f in fs
    {
      filters := filters + fs;
      Objs := Objs + set f | f in fs;
    }

    method Write(p: Slice, ghost states: seq<State>) returns (n: nat, err: PlainErr, ghost w: StepResult)
      requires p.Valid() && Owned(filters, Objs) && HasStates(filters, states)
      modifies writer, Objs, p.arr
      ensures w == WriteStep(StepsOf(filters), Memory([], states), old(p.Contents()))
      ensures HasStates(filters, w.mem.sink)
      ensures writer.written == old(writer.written) + w.written
      ensures n == w.n && err == w.err
    {
      w := WriteStep(StepsOf(filters), Memory([], states), p.Contents());
      if p.len == 0 {
        return 0, Nil, w;
      }
      ghost var steps, cur := StepsOf(filters), states;
      ghost var whole := SinkLoop(steps, cur, 0, p.Contents());
      SinkLoopIsSinkChain(steps, cur, p.Contents());
      var out := p;
      err := Nil;
      var i := 0;
      while i < |filters|
        invariant i <= |filters| && HasStates(filters, cur)
        invariant out.Valid() && (out.arr == p.arr || fresh(out.arr)) && err == Nil
        invariant writer.written == old(writer.written)
        invariant whole == SinkLoop(steps, cur, i, out.Contents())
      {
        ghost var o := steps[i](cur[i], out.Contents(), false);
        out, err := Apply(filters, i, out, false, cur);
        cur := cur[i := o.state];
        if err != Nil {
          return out.len, err, w;
        }
        i := i + 1;
      }
      n := writer.Write(out);
      if p.len != out.len || !(out.arr == p.arr && out.off == p.off) {
        n := p.len;
      }
    }
  }

  /** The read end: its filters' memory and what the reader has still to answer. */
  ghost predicate SourceAt(r: Source, states: seq<State>, script: seq<Event>)
    reads r, r.reader, r.filters
  {
    Owned(r.filters, r.Objs) && HasStates(r.filters, states) && r.reader.script == script && ShortReads(script)
  }

  /** The write end: its filters' memory and what has been written. */
  ghost predicate SinkAt(w: Sink, states: seq<State>, written: Bytes)
    reads w, w.writer, w.filters
  {
    Owned(w.filters, w.Objs) && HasStates(w.filters, states) && w.writer.written == written
  }

  /** No filter serves both ends. */
  ghost predicate Apart(r: Source, w: Sink)
    reads r, w
  {
    r.Objs !! w.Objs
  }

  /** No read answers more than the buffer holds. */
  ghost predicate ShortReads(script: seq<Event>) {
    forall i :: 0 <= i < |script| ==> |script[i].data| <= BUFFER_SIZE
  }

  function Rest(script: seq<Event>): seq<Event> {
    if script == [] then [] else script[1..]
  }

  /** How a step's outcome follows from its read and its write. */
  ghost function Combined(mem: Memory, rd: ReadResult, w: StepResult): StepResult {
    if rd.err == EOF || rd.err == EOFNotInPlace then
      if |rd.data| > 0 then
        StepResult(Memory(rd.states, w.mem.sink), w.written, w.n, if w.err != Nil then w.err else EOF)
      else StepResult(Memory(rd.states, mem.sink), [], 0, EOF)
    else if rd.err != Nil && rd.err != NotInPlace then
      StepResult(Memory(rd.states, mem.sink), [], |rd.data|, rd.err)
    else StepResult(Memory(rd.states, w.mem.sink), w.written, w.n, w.err)
  }

  lemma PumpStepIsCombined(source: seq<Step>, sink: seq<Step>, mem: Memory, ev: Event, cap: nat)
    requires |source| == |mem.source| && |sink| == |mem.sink|
    ensures var rd := ReadStep(source, mem.source, ev, cap);
            PumpStep(source, sink, mem, ev, cap) ==
            Combined(mem, rd, WriteStep(sink, Memory([], mem.sink), rd.data))
  {
  }

  /** The part of pump.Step after the read. */
  method Deliver(w: Sink, toWrite: Slice, readN: nat, readErr: Err, ghost mem: Memory, ghost rd: ReadResult)
    returns (n: nat, err: Err, ghost s: StepResult)
    requires Owned(w.filters, w.Objs) && HasStates(w.filters, mem.sink)
    requires readN == |rd.data| && toWrite.Valid()
    requires readErr == if rd.err == NotInPlace then Nil else if rd.err == EOFNotInPlace then EOF else rd.err
    requires readErr == Nil || readErr == EOF ==> toWrite.Holds(rd.data)
    modifies w.writer, w.Objs, toWrite.arr
    ensures s == Combined(mem, rd, WriteStep(StepsOf(w.filters), Memory([], mem.sink), rd.data))
    ensures SinkAt(w, s.mem.sink, old(w.writer.written) + s.written)
    ensures n == s.n && err == s.err
    ensures readErr != Nil && readErr != EOF ==>
              err == readErr && n == readN && w.writer.written == old(w.writer.written)
    ensures readErr == EOF ==> err != Nil
  {
    ghost var wr := WriteStep(StepsOf(w.filters), Memory([], mem.sink), rd.data);
    s := Combined(mem, rd, wr);
    n, err := readN, readErr;
    if err == EOF {
      if n > 0 {
        var e;
        n, e, wr := w.Write(toWrite, mem.sink);
        if e != Nil {
          err := e;
        }
      }
    } else if err == Nil {
      n, err, wr := w.Write(toWrite, mem.sink);
    }
  }

  /** The part of pump.Step up to the write: what to write, and the error without the sentinels. */
  method Fetch(r: Source, buffer: array<byte>, ghost states: seq<State>, ghost script: seq<Event>)
    returns (toWrite: Slice, n: nat, err: Err, ghost rd: ReadResult)
    requires SourceAt(r, states, script) && buffer.Length == BUFFER_SIZE
    modifies r`DataFilterOutput, r.reader, r.Objs, buffer
    ensures rd == ReadStep(StepsOf(r.filters), states, NextEvent(script), BUFFER_SIZE)
    ensures SourceAt(r, rd.states, Rest(script))
    ensures n == |rd.data| && toWrite.Valid() && (toWrite.arr == buffer || fresh(toWrite.arr))
    ensures err == if rd.err == NotInPlace then Nil else if rd.err == EOFNotInPlace then EOF else rd.err
    ensures err == Nil || err == EOF ==> toWrite.Holds(rd.data)
  {
    n, err, rd := r.Read(buffer, states);
    var inPlace := err != NotInPlace && err != EOFNotInPlace;
    toWrite := if inPlace then Slice(buffer, 0, if n <= buffer.Length then n else 0, buffer.Length)
               else r.DataFilterOutput.value;
    err := if err == NotInPlace then Nil else if err == EOFNotInPlace then EOF else err;
  }

  /** pump.Step */
  method PumpOnce(r: Source, w: Sink, buffer: array<byte>, ghost mem: Memory, ghost script: seq<Event>,
        ghost sent: Bytes)
    returns (n: nat, err: Err, ghost s: StepResult)
    requires Apart(r, w) && SourceAt(r, mem.source, script) && SinkAt(w, mem.sink, sent)
    requires buffer.Length == BUFFER_SIZE
    modifies r`DataFilterOutput, r.reader, r.Objs, w.writer, w.Objs, buffer
    ensures s == PumpStep(StepsOf(r.filters), StepsOf(w.filters), mem, NextEvent(script), BUFFER_SIZE)
    ensures SourceAt(r, s.mem.source, Rest(script)) && SinkAt(w, s.mem.sink, sent + s.written)
    ensures n == s.n && err == s.err
  {
    PumpStepIsCombined(StepsOf(r.filters), StepsOf(w.filters), mem, NextEvent(script), BUFFER_SIZE);
    var toWrite;
    ghost var rd;
    toWrite, n, err, rd := Fetch(r, buffer, mem.source, script);
    assert SinkAt(w, mem.sink, sent);
    n, err, s := Deliver(w, toWrite, n, err, mem, rd);
    assert SourceAt(r, rd.states, Rest(script));
  }

  /** The whole run is what has been written and counted so far, followed by the rest. */
  ghost predicate OnTrack(whole: StepResult, before: Bytes, out: Bytes, n: nat, rest: StepResult) {
    && whole.mem == rest.mem && whole.err == rest.err
    && before + whole.written == out + rest.written
    && whole.n == n + rest.n
  }

  lemma TrackStep(source: seq<Step>, sink: seq<Step>, now: Memory, left: seq<Event>,
                  whole: StepResult, before: Bytes, out: Bytes, n: nat)
    requires |source| == |now.source| && |sink| == |now.sink|
    requires OnTrack(whole, before, out, n, Pump(source, sink, now, left))
    ensures var first := PumpStep(source, sink, now, NextEvent(left), BUFFER_SIZE);
            if first.err == Nil then
              && left != []
              && OnTrack(whole, before, out + first.written, n + first.n, Pump(source, sink, first.mem, Rest(left)))
            else
              && whole.mem == first.mem && before + whole.written == out + first.written
              && whole.n == n + first.n && whole.err == if first.err == EOF then Nil else first.err
  {
    EofEnds(source, sink, now, Event([], EOF), BUFFER_SIZE);
    var first := PumpStep(source, sink, now, NextEvent(left), BUFFER_SIZE);
    if first.err == Nil {
      var rest := Pump(source, sink, first.mem, Rest(left));
      assert out + (first.written + rest.written) == (out + first.written) + rest.written;
    }
  }

  /** pump.All, without closing the ends. */
  method All(r: Source, w: Sink, ghost mem: Memory, ghost script: seq<Event>, ghost before: Bytes)
    returns (total: nat, err: Err, ghost s: StepResult)
    requires Apart(r, w) && SourceAt(r, mem.source, script) && SinkAt(w, mem.sink, before)
    modifies r`DataFilterOutput, r.reader, r.Objs, w.writer, w.Objs
    ensures s == Pump(StepsOf(r.filters), StepsOf(w.filters), mem, script)
    ensures HasStates(r.filters, s.mem.source) && SinkAt(w, s.mem.sink, before + s.written)
    ensures total == s.n && err == s.err
  {
    var buffer := new byte[BUFFER_SIZE];
    ghost var source, sink := StepsOf(r.filters), StepsOf(w.filters);
    s := Pump(source, sink, mem, script);
    ghost var now, left, out := mem, script, before;
    total, err := 0, Nil;
    while true
      invariant Apart(r, w) && SourceAt(r, now.source, left) && SinkAt(w, now.sink, out)
      invariant OnTrack(s, before, out, total, Pump(source, sink, now, left))
      decreases |left|
    {
      TrackStep(source, sink, now, left, s, before, out, total);
      var n;
      ghost var step;
      n, err, step := PumpOnce(r, w, buffer, now, left, out);
      total := total + n;
      now, left, out := step.mem, Rest(left), out + step.written;
      if err != Nil {
        if err == EOF {
          err := Nil;
        }
        return total, err, s;
      }
    }
  }
}
