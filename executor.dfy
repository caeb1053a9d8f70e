/** The orchestration of pkg/template/executor.go: `AnyProvider` and
    `ExecuteWithFiles`.

    ExecuteWithFiles gets the input from a provider, runs the validators in
    order, splits the template into segments, and then renders each
    segment: a Stdout segment into the output stream, a File segment's name
    and body into buffers that are handed to the file writer. Every step
    fails fast.

    Template rendering (Go's text/template) stays opaque: `render` is a
    parameter mapping a template and the input data to the text it
    produces, or to a failure together with whatever it had written before
    failing. Providers and validators are functions on `Value`s. The output
    stream is the class `Output`; the file writer is one of the two sinks of
    writer.dfy. The behaviour is the function `Run`, which also records the
    calls made to validators, to `render` and to the file writer, in the
    order they happen; the method is proved to end where `Run` says. */
module Executor {
  import opened Wrappers
  import opened ByteStrings
  import opened Parser
  import opened Writer
  import opened Functions

  /** An error message from a provider, a validator or a template. */
  type Message = Bytes

  /** "input is nil" */
  const InputIsNil: Message := [105, 110, 112, 117, 116, 32, 105, 115, 32, 110, 105, 108]

  type InputProvider = () -> Result<Value, Message>

  /** A validator: None when the input passes. */
  type ValidateInput = Value -> Option<Message>

  /** What executing one template does. */
  datatype Rendering = Rendered(text: Bytes) | RenderFailed(partial: Bytes, reason: Message)

  type Renderer = (Bytes, Value) -> Rendering

  /** The errors ExecuteWithFiles returns, one per step that can fail. */
  datatype ExecError =
    | InputFailed(reason: Message)
    | ValidationFailed(reason: Message)
    | SegmentsInvalid(parseError: ParseError)
    | StdoutRenderFailed(segment: nat, reason: Message)
    | FilenameRenderFailed(segment: nat, reason: Message)
    | ContentRenderFailed(filename: Bytes, reason: Message)
    | WriteFailed(filename: Bytes, writeError: WriteError)

  /** The calls ExecuteWithFiles makes, for stating their order. */
  datatype Call =
    | Validate(index: nat)
    | Render(source: Bytes)
    | Write(filename: Bytes, content: Bytes)

  /** AnyProvider: a provider that hands back the given value, or fails
      when it is nil. */
  function AnyProvider(input: Value): (p: InputProvider)
    ensures p().Success? <==> input != Nil
    ensures p().Success? ==> p().value == input
    ensures p().Failure? ==> p().error == InputIsNil
  {
    () => if input == Nil then Failure(InputIsNil) else Success(input)
  }

  /* ---------------- The output stream ---------------- */

  /** An `io.Writer` that keeps everything written to it. */
  class Output {
    var written: Bytes

    constructor ()
      ensures written == []
    {
      written := [];
    }

    method Write(b: Bytes)
      modifies this
      ensures written == old(written) + b
    {
      written := written + b;
    }
  }

  /* ---------------- The file writer ---------------- */

  /** The FileWriter interface: one of its two implementations. */
  datatype FileWriter = Memory(memory: MemoryFileWriter) | Disk(disk: DefaultFileWriter)

  /** The state a file writer's WriteFile works on. */
  datatype SinkState = MemorySink(m: MemoryState) | DiskSink(d: DiskState)

  function Footprint(w: FileWriter): set<object>
  {
    match w
    case Memory(m) => {m}
    case Disk(d) => {d, d.fs}
  }

  function Ops(w: FileWriter): PathOps
  {
    match w
    case Memory(m) => m.ops
    case Disk(d) => d.ops
  }

  function Snapshot(w: FileWriter): SinkState
    reads Footprint(w)
  {
    match w
    case Memory(m) => MemorySink(m.State())
    case Disk(d) => DiskSink(d.State())
  }

  /** FileWriter.WriteFile on the writer's state. */
  function SinkWrite(ops: PathOps, s: SinkState, filename: Path, content: Bytes): (Status, SinkState)
  {
    match s
    case MemorySink(m) =>
      var (r, m') := MemoryWrite(ops, m, filename, content);
      (r, MemorySink(m'))
    case DiskSink(d) =>
      var (r, d') := DiskWrite(ops, d, filename, content);
      (r, DiskSink(d'))
  }

  /** Dynamic dispatch of FileWriter.WriteFile. */
  method WriteTo(w: FileWriter, filename: Path, content: Bytes) returns (r: Status)
    modifies Footprint(w)
    ensures (r, Snapshot(w)) == SinkWrite(Ops(w), old(Snapshot(w)), filename, content)
  {
    match w
    case Memory(m) =>
      r := m.WriteFile(filename, content);
    case Disk(d) =>
      r := d.WriteFile(filename, content);
  }

  /* ---------------- The specification ---------------- */

  /** What a run ends with: the result, the bytes written to the output,
      the calls made, and the file writer's state. */
  datatype Outcome = Outcome(result: Result<(), ExecError>, out: Bytes, trace: seq<Call>, sink: SinkState)

  /** What running validators did: the message of the one that failed, if
      any, and the calls made. */
  datatype Checked = Checked(verdict: Option<Message>, calls: seq<Call>)

  /** Running validators k, k+1, ... in order until one fails. */
  function Checks(validators: seq<ValidateInput>, data: Value, k: nat): Checked
    requires k <= |validators|
    decreases |validators| - k
  {
    if k == |validators| then Checked(None, [])
    else match validators[k](data)
      case Some(m) => Checked(Some(m), [Validate(k)])
      case None =>
        var rest := Checks(validators, data, k + 1);
        Checked(rest.verdict, [Validate(k)] + rest.calls)
  }

  /** What handling one segment did: the error it stopped with, if any,
      the bytes it wrote to the output, the calls it made, and the file
      writer's state afterwards. */
  datatype Step = Step(error: Option<ExecError>, out: Bytes, calls: seq<Call>, sink: SinkState)

  /** One turn of the segment loop, for segment number i. */
  function SegmentStep(ops: PathOps, render: Renderer, data: Value, seg: Segment, i: nat, sink: SinkState): Step
  {
    match seg
    case Stdout(content) =>
      (match render(content, data)
       case RenderFailed(partial, reason) =>
         Step(Some(StdoutRenderFailed(i, reason)), partial, [Render(content)], sink)
       case Rendered(text) =>
         Step(None, text, [Render(content)], sink))
    case File(name, content) =>
      match render(name, data)
      case RenderFailed(_, reason) =>
        Step(Some(FilenameRenderFailed(i, reason)), [], [Render(name)], sink)
      case Rendered(filename) =>
        match render(content, data)
        case RenderFailed(_, reason) =>
          Step(Some(ContentRenderFailed(filename, reason)), [], [Render(name), Render(content)], sink)
        case Rendered(body) =>
          var calls := [Render(name), Render(content), Write(filename, body)];
          var (status, sink') := SinkWrite(ops, sink, filename, body);
          if status.Failure? then Step(Some(WriteFailed(filename, status.error)), [], calls, sink')
          else Step(None, [], calls, sink')
  }

  /** The segment loop from segment i on, with what has been written, the
      calls made and the writer's state so far. */
  function Dispatch(ops: PathOps, render: Renderer, data: Value, segs: seq<Segment>, i: nat,
                    out: Bytes, trace: seq<Call>, sink: SinkState): Outcome
    requires i <= |segs|
    decreases |segs| - i
  {
    if i == |segs| then Outcome(Success(()), out, trace, sink)
    else
      var step := SegmentStep(ops, render, data, segs[i], i, sink);
      if step.error.Some? then Outcome(Failure(step.error.value), out + step.out, trace + step.calls, step.sink)
      else Dispatch(ops, render, data, segs, i + 1, out + step.out, trace + step.calls, step.sink)
  }

  /** Everything after the provider: validators, parser, segment loop. */
  function Process(data: Value, validators: seq<ValidateInput>, templ: Bytes,
                   ops: PathOps, render: Renderer, sink: SinkState): Outcome
  {
    var checked := Checks(validators, data, 0);
    if checked.verdict.Some? then Outcome(Failure(ValidationFailed(checked.verdict.value)), [], checked.calls, sink)
    else match Parse(templ)
      case Failure(e) => Outcome(Failure(SegmentsInvalid(e)), [], checked.calls, sink)
      case Success(segs) => Dispatch(ops, render, data, segs, 0, [], checked.calls, sink)
  }

  /** ExecuteWithFiles from a given file writer state. */
  function Run(provider: InputProvider, validators: seq<ValidateInput>, templ: Bytes,
               ops: PathOps, render: Renderer, sink: SinkState): Outcome
  {
    match provider()
    case Failure(m) => Outcome(Failure(InputFailed(m)), [], [], sink)
    case Success(data) => Process(data, validators, templ, ops, render, sink)
  }

  /* ---------------- ExecuteWithFiles ---------------- */

  /** One validator that passes: the run from k is that validator's call
      followed by the run from k + 1. */
  lemma {:induction false} ChecksPass(validators: seq<ValidateInput>, data: Value, k: nat, calls: seq<Call>)
    requires k < |validators| && validators[k](data).None?
    ensures Checks(validators, data, k).verdict == Checks(validators, data, k + 1).verdict
    ensures calls + Checks(validators, data, k).calls == (calls + [Validate(k)]) + Checks(validators, data, k + 1).calls
  {
    assert calls + ([Validate(k)] + Checks(validators, data, k + 1).calls)
        == (calls + [Validate(k)]) + Checks(validators, data, k + 1).calls;
  }

  /** The validator loop: each validator in turn on the data, stopping at
      the first that fails. */
  method RunValidators(validators: seq<ValidateInput>, data: Value)
    returns (verdict: Option<Message>, ghost calls: seq<Call>)
    ensures verdict == Checks(validators, data, 0).verdict
    ensures calls == Checks(validators, data, 0).calls
  {
    calls := [];
    var k := 0;
    while k < |validators|
      invariant 0 <= k <= |validators|
      invariant Checks(validators, data, 0).verdict == Checks(validators, data, k).verdict
      invariant Checks(validators, data, 0).calls == calls + Checks(validators, data, k).calls
    {
      var v := validators[k](data);
      if v.Some? {
        assert Checks(validators, data, k).calls == [Validate(k)];
        return v, calls + [Validate(k)];
      }
      ChecksPass(validators, data, k, calls);
      calls := calls + [Validate(k)];
      k := k + 1;
    }
    assert calls + [] == calls;
    verdict := None;
  }

  /** The body of the segment loop for segment number i: a Stdout segment
      is rendered into the output; a File segment's name and then its
      content are rendered into buffers and handed to the file writer. */
  method HandleSegment(seg: Segment, i: nat, data: Value, render: Renderer, output: Output, fileWriter: FileWriter)
    returns (err: Option<ExecError>, ghost calls: seq<Call>)
    modifies output, Footprint(fileWriter)
    ensures var step := SegmentStep(Ops(fileWriter), render, data, seg, i, old(Snapshot(fileWriter)));
      err == step.error && calls == step.calls
      && output.written == old(output.written) + step.out && Snapshot(fileWriter) == step.sink
  {
    match seg {
      case Stdout(content) =>
        var rendering := render(content, data);
        calls := [Render(content)];
        if rendering.RenderFailed? {
          output.Write(rendering.partial);
          return Some(StdoutRenderFailed(i, rendering.reason)), calls;
        }
        output.Write(rendering.text);
        err := None;
      case File(name, content) =>
        var filenameBuf := render(name, data);
        calls := [Render(name)];
        if filenameBuf.RenderFailed? {
          assert output.written == old(output.written) + [];
          return Some(FilenameRenderFailed(i, filenameBuf.reason)), calls;
        }
        var contentBuf := render(content, data);
        calls := calls + [Render(content)];
        assert output.written == old(output.written) + [];
        if contentBuf.RenderFailed? {
          return Some(ContentRenderFailed(filenameBuf.text, contentBuf.reason)), calls;
        }
        calls := calls + [Write(filenameBuf.text, contentBuf.text)];
        var status := WriteTo(fileWriter, filenameBuf.text, contentBuf.text);
        if status.Failure? {
          return Some(WriteFailed(filenameBuf.text, status.error)), calls;
        }
        err := None;
    }
  }

  /** The segment loop: each segment in turn, stopping at the first
      error. */
  method RenderSegments(segments: seq<Segment>, data: Value, render: Renderer, output: Output,
                        fileWriter: FileWriter, ghost trace0: seq<Call>)
    returns (r: Result<(), ExecError>, ghost trace: seq<Call>)
    modifies output, Footprint(fileWriter)
    ensures var o := Dispatch(Ops(fileWriter), render, data, segments, 0, [], trace0, old(Snapshot(fileWriter)));
      r == o.result && trace == o.trace
      && output.written == old(output.written) + o.out && Snapshot(fileWriter) == o.sink
  {
    ghost var ops := Ops(fileWriter);
    ghost var sink0 := Snapshot(fileWriter);
    ghost var written0 := output.written;
    ghost var out: Bytes := [];
    assert output.written == written0 + out;
    trace := trace0;
    var i := 0;
    while i < |segments|
      invariant 0 <= i <= |segments|
      invariant Dispatch(ops, render, data, segments, 0, [], trace0, sink0)
        == Dispatch(ops, render, data, segments, i, out, trace, Snapshot(fileWriter))
      invariant output.written == written0 + out
    {
      ghost var before := output.written;
      var err;
      ghost var calls;
      err, calls := HandleSegment(segments[i], i, data, render, output, fileWriter);
      ghost var produced := output.written[|before|..];
      assert output.written == written0 + (out + produced);
      out := out + produced;
      trace := trace + calls;
      if err.Some? {
        return Failure(err.value), trace;
      }
      i := i + 1;
    }
    r := Success(());
  }

  method ExecuteWithFiles(provider: InputProvider, templ: Bytes, output: Output, fileWriter: FileWriter,
                          validators: seq<ValidateInput>, render: Renderer)
    returns (r: Result<(), ExecError>, ghost trace: seq<Call>)
    modifies output, Footprint(fileWriter)
    ensures var o := Run(provider, validators, templ, Ops(fileWriter), render, old(Snapshot(fileWriter)));
      r == o.result && trace == o.trace
      && output.written == old(output.written) + o.out && Snapshot(fileWriter) == o.sink
  {
    var input := provider();
    if input.Failure? {
      return Failure(InputFailed(input.error)), [];
    }
    var data := input.value;

    var verdict;
    verdict, trace := RunValidators(validators, data);
    if verdict.Some? {
      return Failure(ValidationFailed(verdict.value)), trace;
    }

    var segments := ParseSegments(templ);
    if segments.Failure? {
      return Failure(SegmentsInvalid(segments.error)), trace;
    }
    r, trace := RenderSegments(segments.value, data, render, output, fileWriter, trace);
  }
}
