/** `Bar::progress`'s delivery of a rendered line: to standard error, to
    standard output, to a callback, or nowhere. Output is recorded as a
    sequence of emissions instead of being written. */
module Reporting {
  import opened Base

  /** `Reporter`; the callback itself is foreign code and is not modelled. */
  datatype Reporter = StdOut | StdErr | Callback | NoReporter

  /** The destinations a line can reach. */
  datatype Sink = Stdout | Stderr | CallbackSink

  /** One piece of output: the text and where it went. */
  datatype Emission = Emission(sink: Sink, text: string)

  /** Where the source sends a line for each reporter: its `StdOut` arm
      writes to standard error, like its `StdErr` arm. */
  function SinkAsWritten(reporter: Reporter): (s: Option<Sink>)
    ensures s == None <==> reporter == NoReporter
    ensures s != Some(Stdout)
  {
    match reporter
    case StdOut => Some(Stderr)
    case StdErr => Some(Stderr)
    case Callback => Some(CallbackSink)
    case NoReporter => None
  }

  /** Where a line is sent, with the `StdOut` arm corrected to write to
      standard output. */
  function ReporterSink(reporter: Reporter): (s: Option<Sink>)
    ensures s == None <==> reporter == NoReporter
  {
    match reporter
    case StdOut => Some(Stdout)
    case StdErr => Some(Stderr)
    case Callback => Some(CallbackSink)
    case NoReporter => None
  }

  /** As written, choosing standard output makes no difference: both stream
      reporters end up on standard error. */
  lemma StdOutAsWritten()
    ensures SinkAsWritten(StdOut) == SinkAsWritten(StdErr) == Some(Stderr)
  {
  }

  /** Corrected, distinct reporters reach distinct sinks, and the two
      stream reporters reach the streams they are named after. */
  lemma ReporterSinkInjective(r1: Reporter, r2: Reporter)
    requires r1 != NoReporter && ReporterSink(r1) == ReporterSink(r2)
    ensures r1 == r2
    ensures ReporterSink(StdOut) == Some(Stdout) && ReporterSink(StdErr) == Some(Stderr)
  {
  }

  /** The output of one redraw sent to `sink`: streams get the line after a
      carriage return so it overwrites the previous one; the callback gets
      the bare line. */
  function EmitTo(sink: Option<Sink>, line: string): (out: seq<Emission>)
    ensures |out| == if sink == None then 0 else 1
    ensures forall e | e in out :: Some(e.sink) == sink
    ensures forall e | e in out :: e.text == if e.sink == CallbackSink then line else "\r" + line
  {
    match sink
    case None => []
    case Some(CallbackSink) => [Emission(CallbackSink, line)]
    case Some(stream) => [Emission(stream, "\r" + line)]
  }

  /** The output of one redraw with the given reporter. */
  function Emit(reporter: Reporter, line: string): (out: seq<Emission>)
    ensures |out| == if reporter == NoReporter then 0 else 1
    ensures forall e | e in out :: Some(e.sink) == ReporterSink(reporter)
  {
    EmitTo(ReporterSink(reporter), line)
  }
}
