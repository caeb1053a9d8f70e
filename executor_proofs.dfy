/** What ExecuteWithFiles promises, proved about `Run`: the fail-fast order
    of provider, validators and parser; which calls the segment loop makes
    and in what order; what reaches the output; and that the file writer's
    state is exactly the result of the writes in the trace. */
module ExecutorProofs {
  import opened Wrappers
  import opened ByteStrings
  import opened Parser
  import opened Writer
  import opened Functions
  import opened Executor
  import WriterProofs

  /* ---------------- Validators ---------------- */

  /** Validate(k), ..., Validate(n - 1). */
  function Validations(k: nat, n: nat): seq<Call>
    decreases n - k
  {
    if k >= n then [] else [Validate(k)] + Validations(k + 1, n)
  }

  /** The index of the first validator from k on that rejects the data,
      or the number of validators when none does. */
  function FirstFailing(validators: seq<ValidateInput>, data: Value, k: nat): (f: nat)
    requires k <= |validators|
    ensures k <= f <= |validators|
    ensures forall j | k <= j < f :: validators[j](data).None?
    ensures f < |validators| ==> validators[f](data).Some?
    decreases |validators| - k
  {
    if k == |validators| || validators[k](data).Some? then k
    else FirstFailing(validators, data, k + 1)
  }

  /** The validators run in order from k, up to and including the first
      that fails, and no further; the verdict is that one's message. */
  lemma {:induction false} ChecksInOrder(validators: seq<ValidateInput>, data: Value, k: nat)
    requires k <= |validators|
    ensures var f := FirstFailing(validators, data, k);
      Checks(validators, data, k) ==
        if f < |validators| then Checked(Some(validators[f](data).value), Validations(k, f + 1))
        else Checked(None, Validations(k, |validators|))
    decreases |validators| - k
  {
    if k == |validators| {
      assert Validations(k, k) == [];
    } else if validators[k](data).Some? {
      assert FirstFailing(validators, data, k) == k;
      assert Validations(k + 1, k + 1) == [];
      assert Validations(k, k + 1) == [Validate(k)] + [];
    } else {
      ChecksInOrder(validators, data, k + 1);
    }
  }

  /* ---------------- One segment ---------------- */

  /** The calls one segment makes: its renders, in order, and the write
      when both of a File segment's renders succeed. */
  function SegmentCalls(render: Renderer, data: Value, seg: Segment): seq<Call>
  {
    match seg
    case Stdout(content) => [Render(content)]
    case File(name, content) =>
      if render(name, data).RenderFailed? then [Render(name)]
      else if render(content, data).RenderFailed? then [Render(name), Render(content)]
      else [Render(name), Render(content), Write(render(name, data).text, render(content, data).text)]
  }

  /** What one segment writes to the output. */
  function SegmentOut(render: Renderer, data: Value, seg: Segment): Bytes
  {
    match seg
    case Stdout(content) =>
      (match render(content, data)
       case Rendered(text) => text
       case RenderFailed(partial, _) => partial)
    case File(_, _) => []
  }

  /** Whether every render a segment asks for succeeds. */
  predicate Renders(render: Renderer, data: Value, seg: Segment)
  {
    match seg
    case Stdout(content) => render(content, data).Rendered?
    case File(name, content) => render(name, data).Rendered? && render(content, data).Rendered?
  }

  /** The writes in a list of calls, in order. */
  function WritesOf(calls: seq<Call>): (ws: seq<(Path, Bytes)>)
    ensures |ws| <= |calls|
  {
    if calls == [] then []
    else (if calls[0].Write? then [(calls[0].filename, calls[0].content)] else []) + WritesOf(calls[1..])
  }

  /** A series of FileWriter.WriteFile calls on a writer's state. */
  function SinkWrites(ops: PathOps, s: SinkState, writes: seq<(Path, Bytes)>): SinkState
    decreases |writes|
  {
    if writes == [] then s
    else SinkWrites(ops, SinkWrite(ops, s, writes[0].0, writes[0].1).1, writes[1..])
  }

  lemma {:induction false} WritesOfAppend(a: seq<Call>, b: seq<Call>)
    ensures WritesOf(a + b) == WritesOf(a) + WritesOf(b)
    decreases |a|
  {
    if a == [] {
      assert a + b == b;
    } else {
      assert (a + b)[0] == a[0] && (a + b)[1..] == a[1..] + b;
      WritesOfAppend(a[1..], b);
      var head := if a[0].Write? then [(a[0].filename, a[0].content)] else [];
      assert WritesOf(a + b) == head + (WritesOf(a[1..]) + WritesOf(b));
      assert head + (WritesOf(a[1..]) + WritesOf(b)) == (head + WritesOf(a[1..])) + WritesOf(b);
    }
  }

  lemma {:induction false} SinkWritesAppend(ops: PathOps, s: SinkState, a: seq<(Path, Bytes)>, b: seq<(Path, Bytes)>)
    ensures SinkWrites(ops, s, a + b) == SinkWrites(ops, SinkWrites(ops, s, a), b)
    decreases |a|
  {
    if a == [] {
      assert a + b == b;
    } else {
      assert (a + b)[0] == a[0] && (a + b)[1..] == a[1..] + b;
      SinkWritesAppend(ops, SinkWrite(ops, s, a[0].0, a[0].1).1, a[1..], b);
    }
  }

  /** One segment: its calls and output do not depend on the file writer;
      a File segment writes nothing to the output, renders its name before
      its content, and calls WriteFile only when both renders succeed; the
      writer's state is changed by that write alone; the segment fails
      exactly when a render or the write fails. */
  lemma {:induction false} SegmentStepShape(ops: PathOps, render: Renderer, data: Value, seg: Segment, i: nat, sink: SinkState)
    ensures var step := SegmentStep(ops, render, data, seg, i, sink);
      step.calls == SegmentCalls(render, data, seg)
      && step.out == SegmentOut(render, data, seg)
      && step.sink == SinkWrites(ops, sink, WritesOf(step.calls))
      && (seg.File? ==> step.out == [] && step.calls[0] == Render(seg.filename))
      && (seg.Stdout? ==> step.sink == sink && WritesOf(step.calls) == [])
      && (!Renders(render, data, seg) ==> step.error.Some? && WritesOf(step.calls) == [])
      && (step.error.None? ==> Renders(render, data, seg))
  {
    var step := SegmentStep(ops, render, data, seg, i, sink);
    match seg {
      case Stdout(content) =>
        assert WritesOf(step.calls) == [] by { assert step.calls[1..] == []; }
      case File(name, content) =>
        var calls := step.calls;
        if render(name, data).RenderFailed? {
          assert WritesOf(calls) == [] by { assert calls[1..] == []; }
        } else if render(content, data).RenderFailed? {
          assert WritesOf(calls) == [] by { assert calls[1..][1..] == []; }
        } else {
          var w := (render(name, data).text, render(content, data).text);
          assert calls[1..][1..] == [Write(w.0, w.1)];
          assert WritesOf([Write(w.0, w.1)]) == [w] + WritesOf([]);
          assert WritesOf(calls[1..]) == [] + WritesOf([Write(w.0, w.1)]);
          assert WritesOf(calls) == [w];
          assert SinkWrites(ops, sink, [w]) == SinkWrite(ops, sink, w.0, w.1).1;
        }
    }
  }

  /* ---------------- The segment loop ---------------- */

  /** The calls of several segments, one after the other. */
  function CallsOf(render: Renderer, data: Value, segs: seq<Segment>): seq<Call>
  {
    if segs == [] then [] else SegmentCalls(render, data, segs[0]) + CallsOf(render, data, segs[1..])
  }

  /** The output of several segments, in segment order. */
  function OutOf(render: Renderer, data: Value, segs: seq<Segment>): Bytes
  {
    if segs == [] then [] else SegmentOut(render, data, segs[0]) + OutOf(render, data, segs[1..])
  }

  /** Whether every render of every segment succeeds. */
  predicate AllRender(render: Renderer, data: Value, segs: seq<Segment>)
  {
    segs == [] || (Renders(render, data, segs[0]) && AllRender(render, data, segs[1..]))
  }

  /** Segments i .. n-1 are segment i followed by segments i+1 .. n-1. */
  lemma {:induction false} SliceCons(render: Renderer, data: Value, segs: seq<Segment>, i: nat, n: nat)
    requires i < n <= |segs|
    ensures CallsOf(render, data, segs[i..n]) == SegmentCalls(render, data, segs[i]) + CallsOf(render, data, segs[i + 1..n])
    ensures OutOf(render, data, segs[i..n]) == SegmentOut(render, data, segs[i]) + OutOf(render, data, segs[i + 1..n])
  {
    assert segs[i..n][0] == segs[i];
    assert segs[i..n][1..] == segs[i + 1..n];
  }

  /** The shape DispatchShape states, for an outcome `o` after segments
      i .. n-1. */
  predicate Handled(ops: PathOps, render: Renderer, data: Value, segs: seq<Segment>, i: nat, n: nat,
                    out: Bytes, trace: seq<Call>, sink: SinkState, o: Outcome)
    requires i <= n <= |segs|
  {
    o.trace == trace + CallsOf(render, data, segs[i..n])
    && o.out == out + OutOf(render, data, segs[i..n])
    && o.sink == SinkWrites(ops, sink, WritesOf(CallsOf(render, data, segs[i..n])))
    && (o.result.Success? ==> n == |segs|)
    && (o.result.Failure? ==> i < n)
  }

  /** The calls and output of segment i followed by those of segments
      i+1 .. n-1. */
  lemma {:induction false} ConsCallsOut(render: Renderer, data: Value, segs: seq<Segment>, i: nat, n: nat,
                                        out: Bytes, trace: seq<Call>, step: Step)
    requires i < n <= |segs|
    requires step.calls == SegmentCalls(render, data, segs[i]) && step.out == SegmentOut(render, data, segs[i])
    ensures trace + step.calls + CallsOf(render, data, segs[i + 1..n]) == trace + CallsOf(render, data, segs[i..n])
    ensures out + step.out + OutOf(render, data, segs[i + 1..n]) == out + OutOf(render, data, segs[i..n])
  {
    SliceCons(render, data, segs, i, n);
    var rest := CallsOf(render, data, segs[i + 1..n]);
    var restOut := OutOf(render, data, segs[i + 1..n]);
    assert trace + step.calls + rest == trace + (step.calls + rest);
    assert out + step.out + restOut == out + (step.out + restOut);
  }

  /** The writer's state after segment i's writes and then those of
      segments i+1 .. n-1. */
  lemma {:induction false} ConsSink(ops: PathOps, render: Renderer, data: Value, segs: seq<Segment>, i: nat, n: nat,
                                    sink: SinkState, step: Step)
    requires i < n <= |segs|
    requires step.calls == SegmentCalls(render, data, segs[i])
    requires step.sink == SinkWrites(ops, sink, WritesOf(step.calls))
    ensures SinkWrites(ops, step.sink, WritesOf(CallsOf(render, data, segs[i + 1..n])))
            == SinkWrites(ops, sink, WritesOf(CallsOf(render, data, segs[i..n])))
  {
    SliceCons(render, data, segs, i, n);
    var rest := CallsOf(render, data, segs[i + 1..n]);
    WritesOfAppend(step.calls, rest);
    SinkWritesAppend(ops, sink, WritesOf(step.calls), WritesOf(rest));
  }

  /** Segment i, handled without error, followed by segments i+1 .. n-1. */
  lemma {:induction false} HandledCons(ops: PathOps, render: Renderer, data: Value, segs: seq<Segment>, i: nat, n: nat,
                                       out: Bytes, trace: seq<Call>, sink: SinkState, step: Step, o: Outcome)
    requires i < n <= |segs|
    requires step.calls == SegmentCalls(render, data, segs[i]) && step.out == SegmentOut(render, data, segs[i])
    requires step.sink == SinkWrites(ops, sink, WritesOf(step.calls))
    requires Handled(ops, render, data, segs, i + 1, n, out + step.out, trace + step.calls, step.sink, o)
    ensures Handled(ops, render, data, segs, i, n, out, trace, sink, o)
  {
    ConsCallsOut(render, data, segs, i, n, out, trace, step);
    ConsSink(ops, render, data, segs, i, n, sink, step);
  }

  /** Segment i, handled with an error. */
  lemma {:induction false} HandledLast(ops: PathOps, render: Renderer, data: Value, segs: seq<Segment>, i: nat,
                                       out: Bytes, trace: seq<Call>, sink: SinkState, step: Step, o: Outcome)
    requires i < |segs|
    requires step.calls == SegmentCalls(render, data, segs[i]) && step.out == SegmentOut(render, data, segs[i])
    requires step.sink == SinkWrites(ops, sink, WritesOf(step.calls))
    requires o == Outcome(o.result, out + step.out, trace + step.calls, step.sink) && o.result.Failure?
    ensures Handled(ops, render, data, segs, i, i + 1, out, trace, sink, o)
  {
    SliceCons(render, data, segs, i, i + 1);
    assert segs[i + 1..i + 1] == [];
    assert CallsOf(render, data, segs[i..i + 1]) == step.calls + [] == step.calls;
    assert OutOf(render, data, segs[i..i + 1]) == step.out + [] == step.out;
  }

  /** The segment loop handles segments i .. n-1 for some n: it makes their
      calls in order, writes their output in order, and leaves the writer
      in the state their writes produce. On success it has handled every
      segment, and every segment it finished rendered without error. */
  lemma {:induction false} DispatchShape(ops: PathOps, render: Renderer, data: Value, segs: seq<Segment>, i: nat,
                                         out: Bytes, trace: seq<Call>, sink: SinkState)
    returns (n: nat)
    requires i <= |segs|
    ensures i <= n <= |segs|
    ensures Handled(ops, render, data, segs, i, n, out, trace, sink, Dispatch(ops, render, data, segs, i, out, trace, sink))
    decreases |segs| - i
  {
    var o := Dispatch(ops, render, data, segs, i, out, trace, sink);
    if i == |segs| {
      n := i;
      assert segs[i..n] == [];
      assert CallsOf(render, data, segs[i..n]) == [] && WritesOf([]) == [];
      assert trace + [] == trace && out + [] == out;
    } else {
      var step := SegmentStep(ops, render, data, segs[i], i, sink);
      SegmentStepShape(ops, render, data, segs[i], i, sink);
      if step.error.Some? {
        n := i + 1;
        HandledLast(ops, render, data, segs, i, out, trace, sink, step, o);
      } else {
        assert o == Dispatch(ops, render, data, segs, i + 1, out + step.out, trace + step.calls, step.sink);
        n := DispatchShape(ops, render, data, segs, i + 1, out + step.out, trace + step.calls, step.sink);
        HandledCons(ops, render, data, segs, i, n, out, trace, sink, step, o);
      }
    }
  }

  /** When the segment loop succeeds, every render of every segment from
      i on succeeded. */
  lemma {:induction false} DispatchAllRender(ops: PathOps, render: Renderer, data: Value, segs: seq<Segment>, i: nat,
                                             out: Bytes, trace: seq<Call>, sink: SinkState)
    requires i <= |segs|
    requires Dispatch(ops, render, data, segs, i, out, trace, sink).result.Success?
    ensures AllRender(render, data, segs[i..])
    decreases |segs| - i
  {
    if i < |segs| {
      var step := SegmentStep(ops, render, data, segs[i], i, sink);
      SegmentStepShape(ops, render, data, segs[i], i, sink);
      DispatchAllRender(ops, render, data, segs, i + 1, out + step.out, trace + step.calls, step.sink);
      assert segs[i..][1..] == segs[i + 1..];
    }
  }

  /* ---------------- The whole run ---------------- */

  /** The writes of File segments whose name and content both render, in
      segment order. */
  function FileWrites(render: Renderer, data: Value, segs: seq<Segment>): seq<(Path, Bytes)>
  {
    if segs == [] then [] else SegmentWrite(render, data, segs[0]) + FileWrites(render, data, segs[1..])
  }

  /** The number of File segments. */
  function FileCount(segs: seq<Segment>): nat
  {
    if segs == [] then 0 else (if segs[0].File? then 1 else 0) + FileCount(segs[1..])
  }

  /** The one write a segment's calls hold, if any. */
  function SegmentWrite(render: Renderer, data: Value, seg: Segment): seq<(Path, Bytes)>
  {
    if seg.File? && Renders(render, data, seg)
    then [(render(seg.filename, data).text, render(seg.content, data).text)] else []
  }

  lemma {:induction false} SegmentCallsWrite(render: Renderer, data: Value, seg: Segment)
    ensures WritesOf(SegmentCalls(render, data, seg)) == SegmentWrite(render, data, seg)
  {
    var calls := SegmentCalls(render, data, seg);
    match seg {
      case Stdout(content) =>
        assert calls[1..] == [];
      case File(name, content) =>
        if render(name, data).RenderFailed? {
          assert calls[1..] == [];
        } else if render(content, data).RenderFailed? {
          assert calls[1..][1..] == [];
        } else {
          var w := (render(name, data).text, render(content, data).text);
          assert calls[1..][1..] == [Write(w.0, w.1)];
          assert WritesOf([Write(w.0, w.1)]) == [w] + WritesOf([]);
          assert WritesOf(calls[1..]) == [] + WritesOf([Write(w.0, w.1)]);
        }
    }
  }

  /** The writes the calls of some segments make are their File writes;
      when every render succeeds there is one per File segment. */
  lemma {:induction false} CallsWrites(render: Renderer, data: Value, segs: seq<Segment>)
    ensures WritesOf(CallsOf(render, data, segs)) == FileWrites(render, data, segs)
    ensures AllRender(render, data, segs) ==> |FileWrites(render, data, segs)| == FileCount(segs)
  {
    if segs != [] {
      CallsWrites(render, data, segs[1..]);
      WritesOfAppend(SegmentCalls(render, data, segs[0]), CallsOf(render, data, segs[1..]));
      SegmentCallsWrite(render, data, segs[0]);
    }
  }

  lemma {:induction false} ValidationsWriteNothing(k: nat, n: nat)
    ensures WritesOf(Validations(k, n)) == []
    decreases n - k
  {
    if k < n {
      ValidationsWriteNothing(k + 1, n);
    }
  }

  /** A provider error ends the run: no validator runs, nothing is
      rendered, written to the output or handed to the file writer. */
  lemma {:induction false} RunInputFails(provider: InputProvider, validators: seq<ValidateInput>, templ: Bytes,
                                         ops: PathOps, render: Renderer, sink: SinkState)
    requires provider().Failure?
    ensures Run(provider, validators, templ, ops, render, sink)
            == Outcome(Failure(InputFailed(provider().error)), [], [], sink)
  {
  }

  /** AnyProvider of nil makes the run fail with "input is nil" before
      anything else happens; of any other value, the rest of the run works
      on that value. */
  lemma {:induction false} RunAnyProvider(input: Value, validators: seq<ValidateInput>, templ: Bytes,
                                          ops: PathOps, render: Renderer, sink: SinkState)
    ensures input == Nil ==>
      Run(AnyProvider(input), validators, templ, ops, render, sink)
      == Outcome(Failure(InputFailed(InputIsNil)), [], [], sink)
    ensures input != Nil ==>
      Run(AnyProvider(input), validators, templ, ops, render, sink)
      == Process(input, validators, templ, ops, render, sink)
  {
    var p := AnyProvider(input);
    assert p().Success? <==> input != Nil;
  }

  /** The validators run in order on the provider's data; the first that
      fails ends the run with its message, after it and no later one has
      run, with nothing rendered, written or handed to the file writer. */
  lemma {:induction false} RunValidationFails(provider: InputProvider, validators: seq<ValidateInput>, templ: Bytes,
                                              ops: PathOps, render: Renderer, sink: SinkState)
    requires provider().Success?
    requires FirstFailing(validators, provider().value, 0) < |validators|
    ensures var f := FirstFailing(validators, provider().value, 0);
      Run(provider, validators, templ, ops, render, sink)
      == Outcome(Failure(ValidationFailed(validators[f](provider().value).value)), [], Validations(0, f + 1), sink)
  {
    ChecksInOrder(validators, provider().value, 0);
  }

  /** When every validator passes but the template's directives are
      malformed, the run fails with the parse error after all validators
      and before anything is rendered or written. */
  lemma {:induction false} RunParseFails(provider: InputProvider, validators: seq<ValidateInput>, templ: Bytes,
                                         ops: PathOps, render: Renderer, sink: SinkState)
    requires provider().Success?
    requires FirstFailing(validators, provider().value, 0) == |validators|
    requires Parse(templ).Failure?
    ensures Run(provider, validators, templ, ops, render, sink)
            == Outcome(Failure(SegmentsInvalid(Parse(templ).error)), [], Validations(0, |validators|), sink)
  {
    ChecksInOrder(validators, provider().value, 0);
  }

  /** Past the parser, the run handles segments 0 .. n-1 for some n, as
      DispatchShape describes, after running all the validators. */
  lemma {:induction false} RunSegments(provider: InputProvider, validators: seq<ValidateInput>, templ: Bytes,
                                       ops: PathOps, render: Renderer, sink: SinkState)
    returns (n: nat)
    requires provider().Success?
    requires FirstFailing(validators, provider().value, 0) == |validators|
    requires Parse(templ).Success?
    ensures n <= |Parse(templ).value|
    ensures Handled(ops, render, provider().value, Parse(templ).value, 0, n,
                    [], Validations(0, |validators|), sink, Run(provider, validators, templ, ops, render, sink))
  {
    ChecksInOrder(validators, provider().value, 0);
    n := DispatchShape(ops, render, provider().value, Parse(templ).value, 0, [], Validations(0, |validators|), sink);
  }

  /** A successful run got data, passed every validator in order, parsed
      the template, rendered every segment, wrote the Stdout renderings to
      the output in segment order, and called WriteFile exactly once per
      File segment, in order, with its rendered name and content; the file
      writer's state is what those writes make of it. */
  lemma {:induction false} RunSucceeds(provider: InputProvider, validators: seq<ValidateInput>, templ: Bytes,
                                       ops: PathOps, render: Renderer, sink: SinkState)
    requires Run(provider, validators, templ, ops, render, sink).result.Success?
    ensures provider().Success? && FirstFailing(validators, provider().value, 0) == |validators|
    ensures Parse(templ).Success?
    ensures var o := Run(provider, validators, templ, ops, render, sink);
      var data, segs := provider().value, Parse(templ).value;
      AllRender(render, data, segs)
      && o.trace == Validations(0, |validators|) + CallsOf(render, data, segs)
      && o.out == OutOf(render, data, segs)
      && WritesOf(o.trace) == FileWrites(render, data, segs)
      && |FileWrites(render, data, segs)| == FileCount(segs)
      && o.sink == SinkWrites(ops, sink, FileWrites(render, data, segs))
  {
    var data := provider().value;
    ChecksInOrder(validators, data, 0);
    var segs := Parse(templ).value;
    var n := RunSegments(provider, validators, templ, ops, render, sink);
    assert segs[0..n] == segs[0..] == segs;
    DispatchAllRender(ops, render, data, segs, 0, [], Validations(0, |validators|), sink);
    assert [] + OutOf(render, data, segs) == OutOf(render, data, segs);
    CallsWrites(render, data, segs);
    ValidationsWriteNothing(0, |validators|);
    WritesOfAppend(Validations(0, |validators|), CallsOf(render, data, segs));
  }

  /** A series of writes to a memory sink is MemoryWrites. */
  lemma {:induction false} SinkWritesMemory(ops: PathOps, m: MemoryState, writes: seq<(Path, Bytes)>)
    ensures SinkWrites(ops, MemorySink(m), writes) == MemorySink(MemoryWrites(ops, m, writes))
    decreases |writes|
  {
    if writes != [] {
      SinkWritesMemory(ops, MemoryWrite(ops, m, writes[0].0, writes[0].1).1, writes[1..]);
    }
  }

  /** With a memory file writer, after a successful run each key holds the
      body of the last File segment whose rendered name maps to it. */
  lemma {:induction false} RunMemoryLastBodyWins(provider: InputProvider, validators: seq<ValidateInput>, templ: Bytes,
                                                 ops: PathOps, render: Renderer, m: MemoryState, j: nat)
    requires Run(provider, validators, templ, ops, render, MemorySink(m)).result.Success?
    requires provider().Success? && Parse(templ).Success?
    requires var writes := FileWrites(render, provider().value, Parse(templ).value);
      j < |writes| && writes[j].0 != []
      && forall k | j < k < |writes| && writes[k].0 != [] ::
           MemoryKey(ops, m.baseDir, writes[k].0) != MemoryKey(ops, m.baseDir, writes[j].0)
    ensures var writes := FileWrites(render, provider().value, Parse(templ).value);
      var o := Run(provider, validators, templ, ops, render, MemorySink(m));
      var key := MemoryKey(ops, m.baseDir, writes[j].0);
      o.sink.MemorySink? && o.sink.m.files.Some? && key in o.sink.m.files.value
      && o.sink.m.files.value[key] == writes[j].1
  {
    var writes := FileWrites(render, provider().value, Parse(templ).value);
    RunSucceeds(provider, validators, templ, ops, render, MemorySink(m));
    SinkWritesMemory(ops, m, writes);
    WriterProofs.MemoryLastWriteWins(ops, m, writes, j);
  }
}
