/**
 `gzipResponseWriter` (gzip.go): the object.

 Its methods are proved to be the functions on its state, of which the writer's promises are
 proved. The writer underneath takes every byte, and is stated as what has gone into it: early
 statuses, one header block, and the body.
 */
module GzipResponse {
  import opened GzipStream
  import opened Utf8
  import opened Wrappers

  class GzipResponseWriter {
    var status: int
    var header: Option<Headers>
    var live: Headers
    var buf: seq<Byte>
    var gz: bool
    var declared: int
    var written: nat
    const compress: bool
    var bodyless: bool
    var passthrough: bool
    var wire: Wire             // the writer underneath, and what has gone into it

    ghost function State(): Writer
      reads this
    {
      Writer(status, header, live, buf, gz, declared, written, compress, bodyless, passthrough, wire)
    }

    constructor (compress: bool, head: bool, live: Headers)
      ensures State() == Fresh(compress, head, live)
    {
      status, header, this.live, buf, gz, declared, written := 0, None, live, [], false, -1, 0;
      this.compress, bodyless, passthrough, wire := compress, head, false, Wire([], None, []);
    }

    method CommitHeader()
      modifies this`live
      ensures State() == GzipStream.CommitHeader(old(State()))
    {
      if header.Some? {
        live := header.value;
      }
    }

    method SendHeader(gzip: bool)
      modifies this`wire
      ensures State() == GzipStream.SendHeader(old(State()), gzip)
    {
      wire := wire.(head := Some(Head(status, live.length, gzip)));
    }

    method Send(p: seq<Byte>)
      modifies this`wire, this`written
      ensures State() == GzipStream.Send(old(State()), p)
    {
      wire := wire.(body := wire.body + [if gz then Coded(p) else Raw(p)]);
      written := written + |p|;
    }

    method SendBuffered()
      modifies this`wire, this`written, this`buf
      ensures State() == GzipStream.SendBuffered(old(State()))
    {
      if buf == [] {
        return;
      }
      var counted := written;
      Send(buf);
      written := counted;
      buf := [];
    }

    method StartPassthrough(pending: nat)
      modifies this
      ensures State() == GzipStream.StartPassthrough(old(State()), pending)
    {
      hide GzipStream.SendBuffered;
      passthrough := true;
      CommitHeader();
      if 0 <= live.length < written + pending {
        live := live.(length := -1);
      }
      SendHeader(false);
      SendBuffered();
    }

    method StartGzip()
      modifies this
      ensures State() == GzipStream.StartGzip(old(State()))
    {
      hide GzipStream.SendBuffered;
      CommitHeader();
      live := live.(length := -1);
      SendHeader(true);
      gz := true;
      SendBuffered();
    }

    method WriteHeader(code: int)
      modifies this
      ensures State() == GzipStream.WriteHeader(old(State()), code)
    {
      hide GzipStream.StartPassthrough;
      if 100 <= code < 200 {
        wire := wire.(early := wire.early + [code]);
        return;
      }
      if status != 0 {
        return;
      }
      status := code;
      header := Some(live);
      declared := live.length;
      bodyless := bodyless || BodylessStatus(code);
      if bodyless || live.asIs {
        StartPassthrough(0);
      }
    }

    method Write(p: seq<Byte>)
      modifies this
      ensures State() == WriteBody(old(State()), p)
    {
      hide GzipStream.StartPassthrough, GzipStream.StartGzip, GzipStream.WriteHeader, GzipStream.Send;
      if status == 0 {
        WriteHeader(200);
      }
      if passthrough || gz {
        Send(p);
        return;
      }
      var room := if |buf| < GZIP_MIN_BYTES then GZIP_MIN_BYTES - |buf| else 0;
      var split := if |p| < room then |p| else room;
      buf := buf + p[..split];
      written := written + split;
      if |buf| < GZIP_MIN_BYTES {
        return;
      }
      if compress {
        StartGzip();
      } else {
        StartPassthrough(|p| - split);
      }
      if split < |p| {
        Send(p[split..]);
      }
    }

    method Flush()
      modifies this
      ensures State() == GzipStream.Flush(old(State()))
    {
      hide GzipStream.StartPassthrough;
      if status == 0 {
        status := 200;
        declared := live.length;
      }
      if !gz && !passthrough {
        StartPassthrough(0);
      }
    }

    method DropLengthUnlessItDescribes(n: nat)
      modifies this`live
      ensures State() == GzipStream.DropLengthUnlessItDescribes(old(State()), n)
    {
      if !bodyless && live.length >= 0 && live.length != n {
        live := live.(length := -1);
      }
    }

    /** The end of the handler; the empty 200 of one that wrote nothing is net/http's to ship. */
    method Finish(complete: bool) returns (reported: bool)
      modifies this
      ensures reported == Reports(old(State()), complete)
      ensures State() == GzipStream.Finish(old(State()), complete)
    {
      hide GzipStream.DropLengthUnlessItDescribes, GzipStream.CommitHeader, GzipStream.SendHeader;
      var promised := if status == 0 then live.length else declared;
      reported := promised >= 0 && written != promised && !bodyless && complete;
      if !gz && !passthrough {
        if status == 0 {
          if complete {
            DropLengthUnlessItDescribes(0);
            wire := wire.(head := Some(Head(200, live.length, false)));
          }
        } else if complete {
          CommitHeader();
          DropLengthUnlessItDescribes(|buf|);
          SendHeader(false);
          if buf != [] {
            wire := wire.(body := wire.body + [Raw(buf)]);
          }
        }
      }
      buf, passthrough, gz := [], true, false;
    }
  }
}
