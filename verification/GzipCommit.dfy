/** What the buffering writer promises: nothing lost, one commit for both encodings, exact lengths. */
module GzipCommit {
  import opened GzipStream
  import opened Utf8
  import opened Wrappers

  // ---- what every call keeps ----------------------------------------------------------

  lemma DecodedPlus(body: seq<Chunk>, c: Chunk)
    ensures Decoded(body + [c]) == Decoded(body) + c.bytes
  {
    assert (body + [c])[..|body|] == body;
  }

  /** Uncommitted, nothing is on the wire; committed, nothing is held back. */
  predicate Sound(w: Writer) {
    && (Committed(w) <==> w.wire.head.Some?)
    && (Committed(w) ==> w.status != 0 && w.buf == [] && !(w.passthrough && w.gz) && w.wire.head.value.gzip == w.gz)
    && (!Committed(w) ==> w.wire.body == [] && |w.buf| < GZIP_MIN_BYTES)
    && (w.status == 0 ==> w.buf == [])
    && w.written == |Decoded(w.wire.body)| + |w.buf|
  }

  /** All that was taken in: what is on the wire, decoded, and what is still held. */
  function Taken(w: Writer): seq<Byte> {
    Decoded(w.wire.body) + w.buf
  }

  lemma SendIsSound(w: Writer, p: seq<Byte>)
    requires Sound(w) && Committed(w)
    ensures Sound(Send(w, p)) && Committed(Send(w, p)) && Taken(Send(w, p)) == Taken(w) + p
  {
    hide Decoded;
    DecodedPlus(w.wire.body, if w.gz then Coded(p) else Raw(p));
  }

  /** A commit puts the header out and the buffer after it. */
  predicate Commits(w: Writer, w': Writer, gzip: bool) {
    && Committed(w') && w'.gz == gzip && w'.passthrough == !gzip && w'.buf == [] && w'.written == w.written && w'.status == w.status
    && w'.header == w.header && w'.declared == w.declared && w'.bodyless == w.bodyless && w'.compress == w.compress
    && w'.wire.early == w.wire.early
    && w'.wire.head.Some? && w'.wire.head.value.status == w.status && w'.wire.head.value.gzip == gzip
    && Decoded(w'.wire.body) == Decoded(w.wire.body) + w.buf
  }

  lemma PassthroughCommits(w: Writer, pending: nat)
    requires !w.gz
    ensures Commits(w, StartPassthrough(w, pending), false)
  {
    hide Decoded;
    DecodedPlus(w.wire.body, Raw(w.buf));
    assert Decoded(w.wire.body) + [] == Decoded(w.wire.body);
  }

  lemma GzipCommits(w: Writer)
    requires !w.passthrough
    ensures Commits(w, StartGzip(w), true)
  {
    hide Decoded;
    DecodedPlus(w.wire.body, Coded(w.buf));
    assert Decoded(w.wire.body) + [] == Decoded(w.wire.body);
  }

  lemma CommitIsSound(w: Writer, w': Writer, gzip: bool)
    requires Commits(w, w', gzip) && w.status != 0 && w.written == |Decoded(w.wire.body)| + |w.buf|
    ensures Sound(w') && Taken(w') == Taken(w)
  {
    hide Decoded;
  }

  lemma HeaderIsSound(w: Writer, status: int)
    requires Sound(w) && status != 0
    ensures Sound(WriteHeader(w, status)) && Taken(WriteHeader(w, status)) == Taken(w)
    ensures !(100 <= status < 200) ==> WriteHeader(w, status).status != 0
  {
    hide Decoded, StartPassthrough;
    if !(100 <= status < 200) && w.status == 0 {
      var noted := w.(status := status, header := Some(w.live), declared := w.live.length,
                      bodyless := w.bodyless || BodylessStatus(status));
      PassthroughCommits(noted, 0);
      if noted.bodyless || w.live.asIs {
        CommitIsSound(noted, StartPassthrough(noted, 0), false);
      }
    }
  }

  lemma BodyIsSound(w: Writer, p: seq<Byte>)
    requires Sound(w)
    ensures Sound(WriteBody(w, p)) && Taken(WriteBody(w, p)) == Taken(w) + p
  {
    hide Decoded, StartPassthrough, StartGzip, WriteHeader, Send;
    var open := if w.status == 0 then WriteHeader(w, 200) else w;
    HeaderIsSound(w, 200);
    if Committed(open) {
      SendIsSound(open, p);
    } else {
      BufferIsSound(open, p);
    }
  }

  lemma BufferIsSound(open: Writer, p: seq<Byte>)
    requires Sound(open) && !Committed(open) && open.status != 0
    ensures Sound(WriteBody(open, p)) && Taken(WriteBody(open, p)) == Taken(open) + p
  {
    hide Decoded, StartPassthrough, StartGzip, WriteHeader, Send;
    var n := Split(open, p);
    var held := Buffered(open, p[..n]);
    assert Taken(held) == Taken(open) + p[..n];
    assert p == p[..n] + p[n..];
    assert Taken(open) + p[..n] + p[n..] == Taken(open) + p;
    if |held.buf| >= GZIP_MIN_BYTES {
      var started := if held.compress then StartGzip(held) else StartPassthrough(held, |p| - n);
      if held.compress {
        GzipCommits(held);
      } else {
        PassthroughCommits(held, |p| - n);
      }
      CommitIsSound(held, started, held.compress);
      SendIsSound(started, p[n..]);
    }
  }

  lemma FlushIsSound(w: Writer)
    requires Sound(w)
    ensures Sound(Flush(w)) && Taken(Flush(w)) == Taken(w) && Committed(Flush(w))
  {
    hide Decoded, StartPassthrough;
    var open := if w.status == 0 then w.(status := 200, declared := w.live.length) else w;
    if !Committed(open) {
      PassthroughCommits(open, 0);
      CommitIsSound(open, StartPassthrough(open, 0), false);
    }
  }

  predicate Callable(call: Call) {
    call.WritesHeader? ==> call.status != 0
  }

  predicate AllCallable(calls: seq<Call>) {
    forall j :: 0 <= j < |calls| ==> Callable(calls[j])
  }

  lemma CallIsSound(w: Writer, call: Call)
    requires Sound(w) && Callable(call)
    ensures Sound(Do(w, call)) && Taken(Do(w, call)) == if call.Writes? then Taken(w) + call.p else Taken(w)
  {
    hide Decoded, WriteBody, WriteHeader, Flush;
    match call
    case Sets(h) =>
    case WritesHeader(status) => HeaderIsSound(w, status);
    case Writes(p) => BodyIsSound(w, p);
    case Flushes => FlushIsSound(w);
  }

  lemma FreshIsSound(compress: bool, head: bool, live: Headers)
    ensures Sound(Fresh(compress, head, live)) && Taken(Fresh(compress, head, live)) == []
  {
  }

  /** Conservation: decoded, the wire and the buffer are what the handler wrote, in order. */
  lemma {:induction false} NothingIsLost(compress: bool, head: bool, live: Headers, calls: seq<Call>)
    requires AllCallable(calls)
    ensures var w := DoAll(Fresh(compress, head, live), calls); Sound(w) && Taken(w) == Written(calls)
  {
    hide Do, Sound, Taken;
    if calls == [] {
      FreshIsSound(compress, head, live);
    } else {
      NothingIsLost(compress, head, live, calls[..|calls| - 1]);
      CallIsSound(DoAll(Fresh(compress, head, live), calls[..|calls| - 1]), calls[|calls| - 1]);
    }
  }

  /** And once the handler has returned, all of it is on the wire. */
  lemma AllIsSent(compress: bool, head: bool, live: Headers, calls: seq<Call>)
    requires AllCallable(calls)
    ensures var w := Finish(DoAll(Fresh(compress, head, live), calls), true);
            w.wire.head.Some? && Decoded(w.wire.body) == Written(calls)
  {
    hide Decoded, Written, DoAll, AllCallable;
    NothingIsLost(compress, head, live, calls);
    var w := DoAll(Fresh(compress, head, live), calls);
    DecodedPlus(w.wire.body, Raw(w.buf));
    DecodedNothing();
  }

  lemma DecodedNothing()
    ensures Decoded([]) == []
  {
  }

  // ---- the client's encoding decides what goes out, never when ---------------------------------

  /** Two responses that differ in nothing but how the body is coded. */
  predicate Alike(a: Writer, b: Writer) {
    && a.status == b.status && a.header == b.header && a.buf == b.buf && a.declared == b.declared
    && a.written == b.written && a.bodyless == b.bodyless && Committed(a) == Committed(b)
    && a.wire.early == b.wire.early && a.wire.head.Some? == b.wire.head.Some?
    && (a.wire.head.Some? ==> a.wire.head.value.status == b.wire.head.value.status)
    && Decoded(a.wire.body) == Decoded(b.wire.body)
    && (!Committed(a) ==> a.live == b.live && a.wire == b.wire)
  }

  lemma CommitsAlike(a: Writer, a': Writer, g: bool, b: Writer, b': Writer, h: bool)
    requires Alike(a, b) && !Committed(a) && Commits(a, a', g) && Commits(b, b', h)
    ensures Alike(a', b')
  {
    hide Decoded;
  }

  lemma SendsAlike(a: Writer, b: Writer, p: seq<Byte>)
    requires Alike(a, b) && Committed(a)
    ensures Alike(Send(a, p), Send(b, p))
  {
    hide Decoded;
    DecodedPlus(a.wire.body, if a.gz then Coded(p) else Raw(p));
    DecodedPlus(b.wire.body, if b.gz then Coded(p) else Raw(p));
  }

  lemma HeaderAlike(a: Writer, b: Writer, status: int)
    requires Alike(a, b) && Sound(a) && Sound(b)
    ensures Alike(WriteHeader(a, status), WriteHeader(b, status))
  {
    hide Decoded, StartPassthrough;
    if !(100 <= status < 200) && a.status == 0 {
      var x := a.(status := status, header := Some(a.live), declared := a.live.length, bodyless := a.bodyless || BodylessStatus(status));
      var y := b.(status := status, header := Some(b.live), declared := b.live.length, bodyless := b.bodyless || BodylessStatus(status));
      PassthroughCommits(x, 0);
      PassthroughCommits(y, 0);
      if x.bodyless || a.live.asIs {
        CommitsAlike(x, StartPassthrough(x, 0), false, y, StartPassthrough(y, 0), false);
      }
    }
  }

  lemma BodyAlike(a: Writer, b: Writer, p: seq<Byte>)
    requires Alike(a, b) && Sound(a) && Sound(b) && !Committed(a) && a.status != 0
    ensures Alike(WriteBody(a, p), WriteBody(b, p))
  {
    hide Decoded, StartPassthrough, StartGzip, Send;
    var n := Split(a, p);
    var x, y := Buffered(a, p[..n]), Buffered(b, p[..n]);
    if |x.buf| >= GZIP_MIN_BYTES {
      var x' := if x.compress then StartGzip(x) else StartPassthrough(x, |p| - n);
      var y' := if y.compress then StartGzip(y) else StartPassthrough(y, |p| - n);
      if x.compress { GzipCommits(x); } else { PassthroughCommits(x, |p| - n); }
      if y.compress { GzipCommits(y); } else { PassthroughCommits(y, |p| - n); }
      CommitsAlike(x, x', x.compress, y, y', y.compress);
      SendsAlike(x', y', p[n..]);
    }
  }

  lemma FlushAlike(a: Writer, b: Writer)
    requires Alike(a, b) && Sound(a) && Sound(b)
    ensures Alike(Flush(a), Flush(b))
  {
    hide Decoded, StartPassthrough;
    var x := if a.status == 0 then a.(status := 200, declared := a.live.length) else a;
    var y := if b.status == 0 then b.(status := 200, declared := b.live.length) else b;
    if !Committed(x) {
      PassthroughCommits(x, 0);
      PassthroughCommits(y, 0);
      CommitsAlike(x, StartPassthrough(x, 0), false, y, StartPassthrough(y, 0), false);
    }
  }

  lemma WriteAlike(a: Writer, b: Writer, p: seq<Byte>)
    requires Alike(a, b) && Sound(a) && Sound(b)
    ensures Alike(WriteBody(a, p), WriteBody(b, p))
  {
    hide Decoded, Alike, WriteHeader, StartPassthrough, StartGzip, Send;
    SameStage(a, b);
    var x := if a.status == 0 then WriteHeader(a, 200) else a;
    var y := if b.status == 0 then WriteHeader(b, 200) else b;
    HeaderAlike(a, b, 200);
    HeaderIsSound(a, 200);
    HeaderIsSound(b, 200);
    SameStage(x, y);
    if Committed(x) {
      SendsAlike(x, y, p);
    } else {
      BodyAlike(x, y, p);
    }
  }

  lemma SameStage(a: Writer, b: Writer)
    requires Alike(a, b)
    ensures a.status == b.status && Committed(a) == Committed(b)
  {
  }

  lemma CallAlike(a: Writer, b: Writer, call: Call)
    requires Alike(a, b) && Sound(a) && Sound(b)
    ensures Alike(Do(a, call), Do(b, call))
  {
    hide Decoded, WriteBody, WriteHeader, Flush, Sound;
    match call
    case Sets(h) =>
    case WritesHeader(status) => HeaderAlike(a, b, status);
    case Writes(p) => WriteAlike(a, b, p);
    case Flushes => FlushAlike(a, b);
  }

  lemma FreshAlike(head: bool, live: Headers)
    ensures Alike(Fresh(true, head, live), Fresh(false, head, live))
  {
  }

  /**
   Encoding independence: after any calls, a client that takes gzip and one that does not have
   the same status and the same body on the wire, byte for byte once decoded, and the same bytes
   still held back: the commit came at the same byte.
   */
  lemma {:induction false} SameCommit(head: bool, live: Headers, calls: seq<Call>)
    requires AllCallable(calls)
    ensures Alike(DoAll(Fresh(true, head, live), calls), DoAll(Fresh(false, head, live), calls))
  {
    hide Do, Sound, Alike;
    if calls == [] {
      FreshAlike(head, live);
    } else {
      var before := calls[..|calls| - 1];
      SameCommit(head, live, before);
      NothingIsLost(true, head, live, before);
      NothingIsLost(false, head, live, before);
      CallAlike(DoAll(Fresh(true, head, live), before), DoAll(Fresh(false, head, live), before), calls[|calls| - 1]);
    }
  }

  /** The same at the end of the response, by a return or by a panic. */
  lemma SameEnd(head: bool, live: Headers, calls: seq<Call>, complete: bool)
    requires AllCallable(calls)
    ensures Alike(Finish(DoAll(Fresh(true, head, live), calls), complete), Finish(DoAll(Fresh(false, head, live), calls), complete))
  {
    hide DoAll, Decoded, Sound;
    SameCommit(head, live, calls);
    NothingIsLost(true, head, live, calls);
    NothingIsLost(false, head, live, calls);
    FinishAlike(DoAll(Fresh(true, head, live), calls), DoAll(Fresh(false, head, live), calls), complete);
  }

  lemma FinishAlike(a: Writer, b: Writer, complete: bool)
    requires Alike(a, b) && Sound(a) && Sound(b)
    ensures Alike(Finish(a, complete), Finish(b, complete))
  {
    hide Decoded, CommitHeader, DropLengthUnlessItDescribes;
    if !Committed(a) {
      FinishesAlike(a, b, complete);
    }
  }

  lemma FinishesAlike(a: Writer, b: Writer, complete: bool)
    requires Alike(a, b) && Sound(a) && Sound(b) && !Committed(a)
    ensures Alike(Finish(a, complete), Finish(b, complete))
  {
    hide Decoded, Sound;
    assert a == b.(compress := a.compress);
    FinishIgnores(b, a.compress, complete);
    SelfAlike(Finish(b, complete), a.compress);
  }

  lemma FinishIgnores(w: Writer, compress: bool, complete: bool)
    requires !Committed(w)
    ensures Finish(w.(compress := compress), complete) == Finish(w, complete).(compress := compress)
  {
    hide CommitHeader, DropLengthUnlessItDescribes, SendHeader;
    var v := w.(compress := compress);
    if w.status == 0 {
      DropIgnores(w, compress, 0);
    } else if complete {
      CommitIgnores(w, compress);
      var x := CommitHeader(w);
      DropIgnores(x, compress, |w.buf|);
      HeadIgnores(DropLengthUnlessItDescribes(x, |w.buf|), compress);
      var sent, sent' := SendHeader(DropLengthUnlessItDescribes(CommitHeader(w), |w.buf|), false),
                         SendHeader(DropLengthUnlessItDescribes(CommitHeader(v), |v.buf|), false);
      assert sent' == sent.(compress := compress);
    }
  }

  lemma CommitIgnores(w: Writer, compress: bool)
    ensures CommitHeader(w.(compress := compress)) == CommitHeader(w).(compress := compress)
  {
  }

  lemma DropIgnores(w: Writer, compress: bool, n: int)
    ensures DropLengthUnlessItDescribes(w.(compress := compress), n) == DropLengthUnlessItDescribes(w, n).(compress := compress)
  {
  }

  lemma HeadIgnores(w: Writer, compress: bool)
    ensures SendHeader(w.(compress := compress), false) == SendHeader(w, false).(compress := compress)
  {
  }

  lemma SelfAlike(w: Writer, compress: bool)
    ensures Alike(w.(compress := compress), w)
  {
  }

  // ---- a panic --------------------------------------------------------------------------------

  /** Whether some call so far commits the response, read off the calls alone. */
  function Opened(calls: seq<Call>, head: bool, live: Headers): (r: Opening)
    ensures |r.bytes| == |Written(calls)|
  {
    if calls == [] then Opening(live, false, false, [])
    else
      var before, last := Opened(calls[..|calls| - 1], head, live), calls[|calls| - 1];
      match last
      case Sets(h) => before.(live := h)
      case Flushes => before.(decided := true, commits := true)
      case WritesHeader(status) =>
        if 100 <= status < 200 || before.decided then before
        else before.(decided := true, commits := before.commits || head || BodylessStatus(status) || before.live.asIs)
      case Writes(p) =>
        var bytes := before.bytes + last.p;
        if before.decided then before.(bytes := bytes, commits := before.commits || |bytes| >= GZIP_MIN_BYTES)
        else before.(bytes := bytes, decided := true,
                     commits := before.commits || head || before.live.asIs || |bytes| >= GZIP_MIN_BYTES)
  }

  /** The headers as they stand, whether a status is set, whether the response has gone out. */
  datatype Opening = Opening(live: Headers, decided: bool, commits: bool, bytes: seq<Byte>)

  /** The writer is where the calls say. */
  predicate Follows(w: Writer, o: Opening, head: bool) {
    && (w.status != 0 <==> o.decided) && Committed(w) == o.commits
    && (w.status == 0 ==> w.live == o.live && w.bodyless == head)
    && (!o.decided ==> o.bytes == []) && |w.buf| <= |o.bytes| && (!o.commits ==> w.buf == o.bytes)
  }

  lemma HeaderFollows(w: Writer, o: Opening, head: bool, status: int)
    requires Sound(w) && Follows(w, o, head) && status != 0 && !(100 <= status < 200) && w.status == 0
    ensures Follows(WriteHeader(w, status),
                    o.(decided := true, commits := o.commits || head || BodylessStatus(status) || o.live.asIs), head)
  {
    hide Decoded, StartPassthrough;
    var noted := w.(status := status, header := Some(w.live), declared := w.live.length,
                    bodyless := w.bodyless || BodylessStatus(status));
    PassthroughCommits(noted, 0);
  }

  lemma BufferFollows(w: Writer, o: Opening, head: bool, p: seq<Byte>)
    requires Sound(w) && Follows(w, o, head) && w.status != 0 && !Committed(w)
    ensures Follows(WriteBody(w, p), o.(bytes := o.bytes + p, commits := |o.bytes + p| >= GZIP_MIN_BYTES), head)
  {
    hide Decoded, StartPassthrough, StartGzip, Send;
    var n := Split(w, p);
    var held := Buffered(w, p[..n]);
    if |held.buf| >= GZIP_MIN_BYTES {
      var started := if held.compress then StartGzip(held) else StartPassthrough(held, |p| - n);
      if held.compress { GzipCommits(held); } else { PassthroughCommits(held, |p| - n); }
      SentStays(started, p[n..]);
    } else {
      assert p[..n] == p;
    }
  }

  lemma SentStays(w: Writer, p: seq<Byte>)
    ensures var s := Send(w, p); s.status == w.status && s.buf == w.buf && Committed(s) == Committed(w)
  {
  }

  lemma BodyFollows(w: Writer, o: Opening, head: bool, p: seq<Byte>)
    requires Sound(w) && Follows(w, o, head)
    ensures Follows(WriteBody(w, p),
                    o.(bytes := o.bytes + p, decided := true,
                       commits := o.commits || (!o.decided && (head || o.live.asIs)) || |o.bytes + p| >= GZIP_MIN_BYTES), head)
  {
    hide Decoded, StartPassthrough, StartGzip, Send, WriteHeader;
    var open := if w.status == 0 then WriteHeader(w, 200) else w;
    if w.status == 0 {
      HeaderFollows(w, o, head, 200);
      HeaderIsSound(w, 200);
    }
    if Committed(open) {
      SentStays(open, p);
    } else {
      BufferFollows(open, o.(decided := true), head, p);
    }
  }

  lemma FlushFollows(w: Writer, o: Opening, head: bool)
    requires Sound(w) && Follows(w, o, head)
    ensures Follows(Flush(w), o.(decided := true, commits := true), head)
  {
    hide Decoded, StartPassthrough;
    var open := if w.status == 0 then w.(status := 200, declared := w.live.length) else w;
    PassthroughCommits(if open.gz then open.(gz := false) else open, 0);
  }

  lemma {:induction false} CallsDecide(compress: bool, head: bool, live: Headers, calls: seq<Call>)
    requires AllCallable(calls)
    ensures Follows(DoAll(Fresh(compress, head, live), calls), Opened(calls, head, live), head)
  {
    hide Decoded, WriteBody, WriteHeader, Flush, Sound;
    if calls != [] {
      var before, last := calls[..|calls| - 1], calls[|calls| - 1];
      CallsDecide(compress, head, live, before);
      NothingIsLost(compress, head, live, before);
      var w, o := DoAll(Fresh(compress, head, live), before), Opened(before, head, live);
      match last
      case Sets(h) =>
      case Flushes => FlushFollows(w, o, head);
      case WritesHeader(status) => StatusFollows(w, o, head, status);
      case Writes(p) => BodyFollows(w, o, head, p);
    }
  }

  lemma StatusFollows(w: Writer, o: Opening, head: bool, status: int)
    requires Sound(w) && Follows(w, o, head) && status != 0
    ensures Follows(WriteHeader(w, status),
                    if 100 <= status < 200 || o.decided then o
                    else o.(decided := true, commits := o.commits || head || BodylessStatus(status) || o.live.asIs), head)
  {
    hide Decoded, StartPassthrough;
    if !(100 <= status < 200) && !o.decided {
      HeaderFollows(w, o, head, status);
    }
  }

  /**
   A panic leaves nothing on the wire if and only if no call has committed the response: none
   flushed it, none passed it through at its status, and fewer than 1024 bytes were written.
   */
  lemma PanicLeavesNothing(compress: bool, head: bool, live: Headers, calls: seq<Call>)
    requires AllCallable(calls)
    ensures var w := Finish(DoAll(Fresh(compress, head, live), calls), false);
            w.wire.head.None? <==> !Opened(calls, head, live).commits
    ensures var w := Finish(DoAll(Fresh(compress, head, live), calls), false);
            w.wire.head.None? ==> w.wire.body == []
  {
    hide DoAll, Opened, Decoded;
    CallsDecide(compress, head, live, calls);
    NothingIsLost(compress, head, live, calls);
  }

  // ---- the length ------------------------------------------------------------------------------

  /** A length `finish` sends with a body, or with none, is that body's. */
  lemma KeptLengthIsExact(compress: bool, head: bool, live: Headers, calls: seq<Call>)
    requires AllCallable(calls)
    ensures var w := DoAll(Fresh(compress, head, live), calls);
            var sent := Finish(w, true).wire;
            !Committed(w) && !w.bodyless && sent.head.Some? && sent.head.value.length >= 0 ==>
              sent.head.value.length == |Written(calls)|
  {
    hide DoAll, Decoded, Written;
    AllIsSent(compress, head, live, calls);
    NothingIsLost(compress, head, live, calls);
    DecodedNothing();
  }

  /** The header block that goes out when `n` bytes are known of: no length falls short of them. */
  predicate Spares(w: Writer, n: nat) {
    w.wire.head.Some? && (w.gz ==> w.wire.head.value.length == -1)
    && (w.wire.head.value.length >= 0 ==> w.wire.head.value.length >= n)
  }

  /** A status that sends a response through as it is, before any of its body is looked at. */
  predicate OpensAsIs(w: Writer, call: Call) {
    w.status == 0 && call.Writes? && (w.bodyless || w.live.asIs)
  }

  /** The bytes known of when a call commits: those before it, and its own when it writes them. */
  function Known(w: Writer, call: Call): nat {
    if call.Writes? && !OpensAsIs(w, call) then w.written + |call.p| else w.written
  }

  lemma PassthroughSpares(w: Writer, pending: nat)
    requires !w.gz
    ensures Spares(StartPassthrough(w, pending), w.written + pending)
  {
  }

  lemma GzipSpares(w: Writer)
    ensures Spares(StartGzip(w), w.written)
    ensures StartGzip(w).wire.head.value.length == -1
  {
  }

  lemma SendKeepsHead(w: Writer, p: seq<Byte>)
    ensures Send(w, p).wire.head == w.wire.head && Send(w, p).gz == w.gz
  {
  }

  lemma HeaderSpares(w: Writer, status: int)
    requires Sound(w) && !Committed(w) && status != 0 && Committed(WriteHeader(w, status))
    ensures Spares(WriteHeader(w, status), w.written)
  {
    hide Decoded, StartPassthrough;
    if !(100 <= status < 200) && w.status == 0 {
      PassthroughSpares(w.(status := status, header := Some(w.live), declared := w.live.length,
                           bodyless := w.bodyless || BodylessStatus(status)), 0);
    }
  }

  lemma BufferSpares(w: Writer, p: seq<Byte>)
    requires Sound(w) && !Committed(w) && w.status != 0 && Committed(WriteBody(w, p))
    ensures Spares(WriteBody(w, p), w.written + |p|)
  {
    hide Decoded, StartPassthrough, StartGzip, Send;
    var n := Split(w, p);
    var held := Buffered(w, p[..n]);
    assert held.written + (|p| - n) == w.written + |p|;
    var started := if held.compress then StartGzip(held) else StartPassthrough(held, |p| - n);
    if held.compress {
      GzipSpares(held);
    } else {
      PassthroughSpares(held, |p| - n);
    }
    SendKeepsHead(started, p[n..]);
  }

  lemma BodySpares(w: Writer, p: seq<Byte>)
    requires Sound(w) && !Committed(w) && Committed(WriteBody(w, p))
    ensures Spares(WriteBody(w, p), Known(w, Writes(p)))
  {
    hide Decoded, StartPassthrough, StartGzip, Send, WriteHeader;
    var open := if w.status == 0 then WriteHeader(w, 200) else w;
    HeaderIsSound(w, 200);
    if w.status == 0 {
      OpensHeld(w);
    }
    if Committed(open) {
      HeaderSpares(w, 200);
      SendKeepsHead(open, p);
    } else {
      BufferSpares(open, p);
    }
  }

  lemma OpensHeld(w: Writer)
    requires Sound(w) && !Committed(w) && w.status == 0
    ensures Committed(WriteHeader(w, 200)) <==> w.bodyless || w.live.asIs
    ensures WriteHeader(w, 200).written == w.written
  {
    hide Decoded, StartPassthrough;
    PassthroughCommits(w.(status := 200, header := Some(w.live), declared := w.live.length), 0);
  }

  lemma FlushSpares(w: Writer)
    requires Sound(w) && !Committed(w)
    ensures Spares(Flush(w), w.written)
  {
    hide Decoded, StartPassthrough;
    PassthroughSpares(if w.status == 0 then w.(status := 200, declared := w.live.length) else w, 0);
  }

  lemma CallSpares(w: Writer, call: Call)
    requires Sound(w) && Callable(call) && !Committed(w) && Committed(Do(w, call))
    ensures Spares(Do(w, call), Known(w, call))
  {
    hide Decoded, WriteBody, WriteHeader, Flush, Sound;
    match call
    case WritesHeader(status) => HeaderSpares(w, status);
    case Writes(p) => BodySpares(w, p);
    case Flushes => FlushSpares(w);
    case Sets(_) =>
  }

  lemma HeadStays(w: Writer, call: Call)
    requires Sound(w) && Committed(w)
    ensures Do(w, call).wire.head == w.wire.head && Do(w, call).gz == w.gz && Committed(Do(w, call))
  {
    hide Decoded, StartPassthrough;
  }

  /**
   At every commit of every run: the header block goes out once, at call `k`, and no length in it
   falls short of the bytes the handler had written by then. Those are the call's own too, unless
   the response went out as it is at the status the call implied. Compressed, there is no length.
   */
  lemma {:induction false} CommittedLengthIsNotOutgrown(compress: bool, head: bool, live: Headers, calls: seq<Call>) returns (k: nat)
    requires AllCallable(calls) && Committed(DoAll(Fresh(compress, head, live), calls))
    ensures k < |calls|
    ensures var before, at := DoAll(Fresh(compress, head, live), calls[..k]), DoAll(Fresh(compress, head, live), calls[..k + 1]);
            var sent := DoAll(Fresh(compress, head, live), calls).wire.head;
            && !Committed(before) && Committed(at) && sent.Some? && sent == at.wire.head
            && (sent.value.gzip ==> sent.value.length == -1)
            && (sent.value.length >= 0 ==>
                  sent.value.length >= |Written(calls[..if OpensAsIs(before, calls[k]) then k else k + 1])|)
  {
    hide Do, Sound, Taken, Spares, Known, OpensAsIs, Written;
    var w := Fresh(compress, head, live);
    var last := |calls| - 1;
    var before := DoAll(w, calls[..last]);
    assert calls[..|calls|] == calls;
    NothingIsLost(compress, head, live, calls[..last]);
    if Committed(before) {
      k := CommittedLengthIsNotOutgrown(compress, head, live, calls[..last]);
      HeadStays(before, calls[last]);
      assert calls[..last][..k] == calls[..k] && calls[..last][..k + 1] == calls[..k + 1];
    } else {
      k := last;
      CallSpares(before, calls[last]);
      NothingIsLost(compress, head, live, calls);
      SparesWritten(before, calls);
    }
  }

  lemma SparesWritten(before: Writer, calls: seq<Call>)
    requires calls != [] && Sound(before) && Taken(before) == Written(calls[..|calls| - 1])
    requires Sound(Do(before, calls[|calls| - 1])) && Spares(Do(before, calls[|calls| - 1]), Known(before, calls[|calls| - 1]))
    ensures var call := calls[|calls| - 1];
            var sent := Do(before, call).wire.head;
            && sent.Some? && (sent.value.gzip ==> sent.value.length == -1)
            && (sent.value.length >= 0 ==>
                  sent.value.length >= |Written(calls[..if OpensAsIs(before, call) then |calls| - 1 else |calls|])|)
  {
    hide Do, Decoded;
    assert calls[..|calls|] == calls;
  }

  // ---- the line about a length that was not kept ----------------------------------------------

  /** The log names a handler whose body was not as long as it promised, on either encoding alike. */
  lemma ReportIsExact(head: bool, live: Headers, calls: seq<Call>, complete: bool)
    requires AllCallable(calls)
    ensures var a, b := DoAll(Fresh(true, head, live), calls), DoAll(Fresh(false, head, live), calls);
            && Reports(a, complete) == Reports(b, complete) && Promised(a) == Promised(b) && a.bodyless == b.bodyless
            && (Reports(a, complete) <==> complete && !a.bodyless && 0 <= Promised(a) && Promised(a) != |Written(calls)|)
  {
    hide DoAll, Decoded, Written, Do;
    SameCommit(head, live, calls);
    NothingIsLost(true, head, live, calls);
    NothingIsLost(false, head, live, calls);
  }
}
