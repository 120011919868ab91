/**
 The buffering response writer (gzip.go), as functions on its state: the first kilobyte is held
 back, and only then is it decided, once, how the response goes out.
 */
module GzipStream {
  import opened Utf8
  import opened Wrappers

  const GZIP_MIN_BYTES := 1024

  /**
   Of a response's headers, what the writer goes by: the Content-Length, -1 for none or none that
   is a number, and whether the response must go out as it is - an event stream, an encoding or a
   range of its own.
   */
  datatype Headers = Headers(length: int, asIs: bool)

  /** The header block as it went out. */
  datatype Head = Head(status: int, length: int, gzip: bool)

  /** The body as it went out: gzip is a stream that decodes to what was fed to it. */
  datatype Chunk = Raw(bytes: seq<Byte>) | Coded(bytes: seq<Byte>)

  datatype Wire = Wire(early: seq<int>, head: Option<Head>, body: seq<Chunk>)

  datatype Writer = Writer(
    status: int, header: Option<Headers>, live: Headers, buf: seq<Byte>, gz: bool, declared: int, written: nat,
    compress: bool, bodyless: bool, passthrough: bool, wire: Wire)

  function Fresh(compress: bool, head: bool, live: Headers): Writer {
    Writer(0, None, live, [], false, -1, 0, compress, head, false, Wire([], None, []))
  }

  function Decoded(body: seq<Chunk>): seq<Byte> {
    if body == [] then [] else Decoded(body[..|body| - 1]) + body[|body| - 1].bytes
  }

  predicate BodylessStatus(status: int) {
    status == 204 || status == 304
  }

  // ---- committing --------------------------------------------------------------------

  /** `commitHeader`: the snapshot, if there is one, is what goes out. */
  function CommitHeader(w: Writer): Writer {
    if w.header.Some? then w.(live := w.header.value) else w
  }

  function DropLength(w: Writer, drop: bool): Writer {
    if drop then w.(live := w.live.(length := -1)) else w
  }

  /** Only a length the bytes so far have outgrown is provably wrong. */
  function DropLengthShorterThan(w: Writer, n: int): Writer {
    DropLength(w, 0 <= w.live.length < n)
  }

  /** A length must be that of the body about to go out, unless no body can. */
  function DropLengthUnlessItDescribes(w: Writer, n: int): Writer {
    DropLength(w, !w.bodyless && w.live.length >= 0 && w.live.length != n)
  }

  function SendHeader(w: Writer, gzip: bool): Writer {
    w.(wire := w.wire.(head := Some(Head(w.status, w.live.length, gzip))))
  }

  function Send(w: Writer, p: seq<Byte>): Writer {
    w.(wire := w.wire.(body := w.wire.body + [if w.gz then Coded(p) else Raw(p)]), written := w.written + |p|)
  }

  /** What was buffered was counted when it was written. */
  function SendBuffered(w: Writer): Writer {
    if w.buf == [] then w else Send(w, w.buf).(written := w.written, buf := [])
  }

  function StartPassthrough(w: Writer, pending: nat): Writer {
    SendBuffered(SendHeader(DropLengthShorterThan(CommitHeader(w.(passthrough := true)), w.written + pending), false))
  }

  function StartGzip(w: Writer): Writer {
    SendBuffered(SendHeader(DropLength(CommitHeader(w), true), true).(gz := true))
  }

  // ---- what a handler calls ---------------------------------------------------------------

  function SetHeaders(w: Writer, h: Headers): Writer {
    w.(live := h)
  }

  function WriteHeader(w: Writer, status: int): Writer {
    if 100 <= status < 200 then w.(wire := w.wire.(early := w.wire.early + [status]))
    else if w.status != 0 then w
    else
      var noted := w.(status := status, header := Some(w.live), declared := w.live.length,
                      bodyless := w.bodyless || BodylessStatus(status));
      if noted.bodyless || w.live.asIs then StartPassthrough(noted, 0) else noted
  }

  function Buffered(w: Writer, p: seq<Byte>): Writer {
    w.(buf := w.buf + p, written := w.written + |p|)
  }

  function Committed(w: Writer): bool {
    w.passthrough || w.gz
  }

  /** The bytes of a write that still go into the buffer. */
  function Split(w: Writer, p: seq<Byte>): (n: nat)
    ensures n <= |p|
  {
    var room := if |w.buf| < GZIP_MIN_BYTES then GZIP_MIN_BYTES - |w.buf| else 0;
    if |p| < room then |p| else room
  }

  function WriteBody(w: Writer, p: seq<Byte>): Writer {
    var open := if w.status == 0 then WriteHeader(w, 200) else w;
    if Committed(open) then Send(open, p)
    else
      var n := Split(open, p);
      var held := Buffered(open, p[..n]);
      if |held.buf| < GZIP_MIN_BYTES then held
      else
        var started := if held.compress then StartGzip(held) else StartPassthrough(held, |p| - n);
        if n == |p| then started else Send(started, p[n..])
  }

  function Flush(w: Writer): Writer {
    var open := if w.status == 0 then w.(status := 200, declared := w.live.length) else w;
    if Committed(open) then open else StartPassthrough(open, 0)
  }

  /** The end of the response, by a return or by a panic. */
  function Finish(w: Writer, complete: bool): Writer {
    var done :=
      if Committed(w) then w
      else if w.status == 0 then
        if complete then ShipImplicit(DropLengthUnlessItDescribes(w, 0)) else w
      else if !complete then w
      else
        var sent := SendHeader(DropLengthUnlessItDescribes(CommitHeader(w), |w.buf|), false);
        if w.buf == [] then sent else sent.(wire := sent.wire.(body := sent.wire.body + [Raw(w.buf)]));
    done.(buf := [], passthrough := true, gz := false)
  }

  /** The length the handler promised: before a status it is still in the live headers. */
  function Promised(w: Writer): int {
    if w.status == 0 then w.live.length else w.declared
  }

  /** `reportLengthMismatch`, on a connection that took every byte. */
  predicate Reports(w: Writer, complete: bool) {
    !(Promised(w) < 0 || w.written == Promised(w) || w.bodyless || !complete)
  }

  /** A handler that wrote nothing leaves an empty 200 to be shipped out of the live headers. */
  function ShipImplicit(w: Writer): Writer {
    w.(wire := w.wire.(head := Some(Head(200, w.live.length, false))))
  }

  datatype Call = Sets(headers: Headers) | WritesHeader(status: int) | Writes(p: seq<Byte>) | Flushes

  function Do(w: Writer, call: Call): Writer {
    match call
    case Sets(h) => SetHeaders(w, h)
    case WritesHeader(status) => WriteHeader(w, status)
    case Writes(p) => WriteBody(w, p)
    case Flushes => Flush(w)
  }

  function DoAll(w: Writer, calls: seq<Call>): Writer {
    if calls == [] then w else Do(DoAll(w, calls[..|calls| - 1]), calls[|calls| - 1])
  }

  /** The bytes a handler wrote, in order. */
  function Written(calls: seq<Call>): seq<Byte> {
    if calls == [] then []
    else
      var before, last := Written(calls[..|calls| - 1]), calls[|calls| - 1];
      if last.Writes? then before + last.p else before
  }
}
