/** The stream proxies `Reader` and `Writer`: they pass bytes through and
    add the number of bytes to the wrapped bar. The inner streams are
    foreign; the inner reader is modelled as a script of the replies it
    will give. */
module Streams {
  import opened Base
  import opened Layout
  import opened Progress

  /** `std::io::Error`, identified by its kind. */
  datatype IoError = IoError(kind: nat)

  /** One reply of the inner reader: a run of bytes, or an error. */
  datatype Chunk = Data(bytes: seq<byte>) | Broken(error: IoError)

  /** All bytes a scripted reader has still to deliver, in order. */
  function Pending(chunks: seq<Chunk>): seq<byte>
  {
    if chunks == [] then []
    else (match chunks[0] case Data(b) => b case Broken(_) => []) + Pending(chunks[1..])
  }

  /** One `read` on the inner reader into a buffer of `cap` bytes: end of
      stream reads nothing, a run of bytes yields as much of it as fits and
      keeps the rest for the next read, an error is reported once. */
  function InnerRead(chunks: seq<Chunk>, cap: nat): (r: (Result<seq<byte>, IoError>, seq<Chunk>))
    ensures r.0.Ok? ==> |r.0.value| <= cap && r.0.value + Pending(r.1) == Pending(chunks)
    ensures r.0.Err? ==> Pending(r.1) == Pending(chunks) && |r.1| < |chunks|
    ensures chunks == [] ==> r == (Ok([]), [])
  {
    if chunks == [] then (Ok([]), [])
    else match chunks[0]
      case Broken(e) => (Err(e), chunks[1..])
      case Data(b) =>
        if |b| <= cap then (Ok(b), chunks[1..])
        else
          assert b == b[..cap] + b[cap..];
          (Ok(b[..cap]), [Data(b[cap..])] + chunks[1..])
  }

  /** A reader proxy that reports what it reads to `bar`. */
  class Reader {
    /** The replies the inner reader has still to give. */
    var inner: seq<Chunk>
    const bar: Bar

    /** `Reader::new`. */
    constructor (inner: seq<Chunk>, bar: Bar)
      ensures this.inner == inner && this.bar == bar
    {
      this.inner := inner;
      this.bar := bar;
    }

    /** `Read::read`: reads from the inner reader into `buf`; on success adds
        the number of bytes read to the bar and returns it, on an error
        returns the error and leaves the bar alone. */
    method Read(buf: array<byte>, env: Env) returns (r: Result<nat, IoError>)
      requires bar.Valid() && buf.Length < WORD
      modifies this`inner, buf, bar`current, bar`log
      ensures bar.Valid()
      ensures inner == InnerRead(old(inner), buf.Length).1
      ensures r.Ok? <==> InnerRead(old(inner), buf.Length).0.Ok?
      ensures r.Ok? ==>
        && r.value <= buf.Length
        && buf[..r.value] == InnerRead(old(inner), buf.Length).0.value
        && buf[r.value..] == old(buf[r.value..])
        && buf[..r.value] + Pending(inner) == old(Pending(inner))
        && bar.current == (old(bar.current) + r.value) % WORD
        && bar.log == old(bar.log) + Redraw(bar.Config(), bar.reporter, bar.current, bar.total, env)
      ensures r.Err? ==>
        && r.error == InnerRead(old(inner), buf.Length).0.error
        && Pending(inner) == old(Pending(inner))
        && buf[..] == old(buf[..])
        && bar.current == old(bar.current)
        && bar.log == old(bar.log)
    {
      var (reply, rest) := InnerRead(inner, buf.Length);
      inner := rest;
      match reply
      case Err(e) =>
        r := Err(e);
      case Ok(data) =>
        forall i | 0 <= i < |data| {
          buf[i] := data[i];
        }
        assert buf[..|data|] == data;
        var _ := bar.Add(|data|, env);
        r := Ok(|data|);
    }
  }

  /** A writer proxy that reports what it is given to `bar`. */
  class Writer {
    /** What the inner writer has received. */
    var inner: seq<byte>
    const bar: Bar

    /** `Writer::new`. */
    constructor (inner: seq<byte>, bar: Bar)
      ensures this.inner == inner && this.bar == bar
    {
      this.inner := inner;
      this.bar := bar;
    }

    /** `Write::write`: adds the length of `buf` to the bar and reports all
        of it as written; the inner writer is not called. */
    method Write(buf: seq<byte>, env: Env) returns (r: Result<nat, IoError>)
      requires bar.Valid() && |buf| < WORD
      modifies bar`current, bar`log
      ensures bar.Valid()
      ensures r == Ok(|buf|)
      ensures inner == old(inner)
      ensures bar.current == (old(bar.current) + |buf|) % WORD
      ensures bar.log == old(bar.log) + Redraw(bar.Config(), bar.reporter, bar.current, bar.total, env)
    {
      var _ := bar.Add(|buf|, env);
      r := Ok(|buf|);
    }

    /** `Write::flush`: succeeds without touching the inner writer. */
    method Flush() returns (r: Result<(), IoError>)
      ensures r.Ok?
    {
      r := Ok(());
    }
  }
}
