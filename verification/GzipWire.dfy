/** What the buffering writer sends (gzip.go), read off the handler's calls: status, length, encoding, chunks, report. */
module GzipWire {
  import opened GzipCommit
  import opened GzipStream
  import opened Utf8
  import opened Wrappers

  // ---- read off the calls ----------------------------------------------------------------

  /** A call that settles the status: a write, a flush, or a status that is not an early one. */
  predicate Settles(call: Call) {
    call.Writes? || call.Flushes? || (call.WritesHeader? && !(100 <= call.status <= 199))
  }

  predicate FirstSettles(calls: seq<Call>, k: nat) {
    k < |calls| && Settles(calls[k]) && forall j :: 0 <= j < k ==> !Settles(calls[j])
  }

  predicate Unsettled(calls: seq<Call>, n: nat) {
    n <= |calls| && forall j :: 0 <= j < n ==> !Settles(calls[j])
  }

  function StatusOf(call: Call): int {
    if call.WritesHeader? then call.status else 200
  }

  /** The headers as they stand before the call at `n`. */
  function HeadersAt(live: Headers, calls: seq<Call>, n: nat): Headers
    requires n <= |calls|
  {
    if n == 0 then live else if calls[n - 1].Sets? then calls[n - 1].headers else HeadersAt(live, calls, n - 1)
  }

  /** No body can exist: the request was a HEAD, or the status is 204 or 304. */
  predicate NoBody(head: bool, call: Call) {
    head || (call.WritesHeader? && (call.status == 204 || call.status == 304))
  }

  /** A response that goes out as it is with its status. */
  predicate AsItIs(head: bool, live: Headers, calls: seq<Call>, k: nat)
    requires k < |calls|
  {
    !calls[k].Flushes? && (NoBody(head, calls[k]) || HeadersAt(live, calls, k).asIs)
  }

  /** A call that sends the header block, if it has not been sent. */
  predicate Sends(head: bool, live: Headers, calls: seq<Call>, k: nat, c: nat)
    requires k <= c < |calls|
  {
    || (c == k && AsItIs(head, live, calls, k))
    || calls[c].Flushes?
    || (calls[c].Writes? && |Written(calls[..c + 1])| >= 1024)
  }

  predicate SentAt(head: bool, live: Headers, calls: seq<Call>, k: nat, c: nat) {
    FirstSettles(calls, k) && k <= c < |calls| && Sends(head, live, calls, k, c)
    && forall j :: k <= j < c ==> !Sends(head, live, calls, k, j)
  }

  predicate NotSent(head: bool, live: Headers, calls: seq<Call>, k: nat, n: nat) {
    FirstSettles(calls, k) && k < n <= |calls| && forall j :: k <= j < n ==> !Sends(head, live, calls, k, j)
  }

  /** Compressed: for a client that takes gzip, and by a write that took the body to 1024 bytes. */
  predicate Zips(compress: bool, head: bool, live: Headers, calls: seq<Call>, k: nat, c: nat)
    requires k <= c < |calls|
  {
    compress && calls[c].Writes? && !(c == k && AsItIs(head, live, calls, k))
  }

  /** The bytes known of when it is sent. */
  function KnownAt(head: bool, live: Headers, calls: seq<Call>, k: nat, c: nat): nat
    requires k <= c < |calls|
  {
    |Written(calls[..if calls[c].Writes? && !(c == k && AsItIs(head, live, calls, k)) then c + 1 else c])|
  }

  /** The header block sent at `c`: the first status, and the length that stood then unless it is known to be short. */
  function HeadSent(compress: bool, head: bool, live: Headers, calls: seq<Call>, k: nat, c: nat): Head
    requires k <= c < |calls|
  {
    var length := HeadersAt(live, calls, k).length;
    var zips := Zips(compress, head, live, calls, k, c);
    Head(StatusOf(calls[k]), if zips || 0 <= length < KnownAt(head, live, calls, k, c) then -1 else length, zips)
  }

  // ---- the writer is where they say ------------------------------------------------------

  /** Nothing has settled the status. */
  predicate Waits(w: Writer, head: bool, h: Headers) {
    w.status == 0 && !Committed(w) && w.live == h && w.bodyless == head && w.header.None?
  }

  /** The status is settled, and the header block is still here. */
  predicate Settled(w: Writer, head: bool, call: Call, h: Headers) {
    && !Committed(w) && w.status == StatusOf(call) && w.status != 0 && w.header == Some(h) && w.declared == h.length
    && !w.bodyless && !NoBody(head, call)
  }

  /** The header block has gone out. */
  predicate Gone(w: Writer, head: bool, call: Call, h: Headers, sent: Head) {
    && Committed(w) && w.wire.head == Some(sent) && w.gz == sent.gzip && w.status != 0
    && w.declared == h.length && w.bodyless == NoBody(head, call)
  }

  lemma EarlyStays(w: Writer, status: int)
    requires 100 <= status <= 199
    ensures WriteHeader(w, status) == w.(wire := w.wire.(early := w.wire.early + [status]))
  {
  }

  lemma PassthroughSends(w: Writer, pending: nat)
    ensures var length := if w.header.Some? then w.header.value.length else w.live.length;
            var w' := StartPassthrough(w, pending);
            && w'.wire.head == Some(Head(w.status, if 0 <= length < w.written + pending then -1 else length, false))
            && w'.gz == w.gz && w'.passthrough && w'.status == w.status && w'.declared == w.declared && w'.bodyless == w.bodyless
  {
  }

  lemma GzipSends(w: Writer)
    ensures var w' := StartGzip(w);
            && w'.wire.head == Some(Head(w.status, -1, true)) && w'.gz
            && w'.status == w.status && w'.declared == w.declared && w'.bodyless == w.bodyless
  {
  }

  lemma NothingTaken(w: Writer)
    requires Sound(w) && w.status == 0
    ensures w.written == 0 && w.buf == []
  {
  }

  /** The call that settles the status. */
  lemma StatusSettles(w: Writer, head: bool, h: Headers, call: Call, status: int)
    requires Sound(w) && Waits(w, head, h) && status == StatusOf(call) && status != 0 && !(100 <= status <= 199) && !call.Flushes?
    ensures var w' := WriteHeader(w, status);
            if NoBody(head, call) || h.asIs then
              Gone(w', head, call, h, Head(status, h.length, false)) && w'.compress == w.compress && w'.written == w.written
            else Settled(w', head, call, h) && w'.compress == w.compress && w'.written == w.written && w'.buf == w.buf
  {
    NothingTaken(w);
    hide StartPassthrough, Decoded;
    var noted := w.(status := status, header := Some(w.live), declared := w.live.length,
                    bodyless := w.bodyless || BodylessStatus(status));
    PassthroughSends(noted, 0);
    PassthroughCommits(noted, 0);
  }

  lemma FlushSettles(w: Writer, head: bool, h: Headers)
    requires Sound(w) && Waits(w, head, h)
    ensures Gone(Flush(w), head, Flushes, h, Head(200, h.length, false))
  {
    NothingTaken(w);
    hide StartPassthrough, Decoded;
    var open := w.(status := 200, declared := w.live.length);
    PassthroughSends(open, 0);
  }

  lemma FlushSends(w: Writer, head: bool, call: Call, h: Headers)
    requires Sound(w) && Settled(w, head, call, h)
    ensures Gone(Flush(w), head, call, h, Head(StatusOf(call), if 0 <= h.length < w.written then -1 else h.length, false))
  {
    hide StartPassthrough, Decoded;
    PassthroughSends(w, 0);
  }

  lemma GoneStays(w: Writer, head: bool, call: Call, h: Headers, sent: Head, next: Call)
    requires Sound(w) && Gone(w, head, call, h, sent)
    ensures Gone(Do(w, next), head, call, h, sent)
  {
    hide StartPassthrough, StartGzip, Decoded;
  }

  /** A write to a settled response: held, or the call that sends it. */
  lemma WriteSends(w: Writer, head: bool, call: Call, h: Headers, p: seq<Byte>)
    requires Sound(w) && Settled(w, head, call, h) && w.written == |w.buf|
    ensures var w' := WriteBody(w, p);
            if |w.buf| + |p| < 1024 then Settled(w', head, call, h) && w'.compress == w.compress
            else Gone(w', head, call, h,
                      Head(StatusOf(call), if w.compress || 0 <= h.length < w.written + |p| then -1 else h.length, w.compress))
  {
    hide StartPassthrough, StartGzip, Send, Decoded;
    var n := GzipStream.Split(w, p);
    var held := Buffered(w, p[..n]);
    if |held.buf| >= 1024 {
      var started := if held.compress then StartGzip(held) else StartPassthrough(held, |p| - n);
      if held.compress {
        GzipSends(held);
      } else {
        PassthroughSends(held, |p| - n);
      }
      SendChangesNoHead(started, p[n..]);
      assert held.written + (|p| - n) == w.written + |p|;
    }
  }

  lemma SendChangesNoHead(w: Writer, p: seq<Byte>)
    ensures var s := Send(w, p);
            s.wire.head == w.wire.head && s.gz == w.gz && s.passthrough == w.passthrough && s.status == w.status
            && s.declared == w.declared && s.bodyless == w.bodyless
  {
  }

  // ---- over every run of calls --------------------------------------------------------------

  lemma OneSettles(calls: seq<Call>, k: nat, k': nat)
    requires FirstSettles(calls, k) && FirstSettles(calls, k')
    ensures k == k'
  {
  }

  lemma OneSent(head: bool, live: Headers, calls: seq<Call>, k: nat, c: nat, c': nat)
    requires SentAt(head, live, calls, k, c) && SentAt(head, live, calls, k, c')
    ensures c == c'
  {
  }

  ghost function At(compress: bool, head: bool, live: Headers, calls: seq<Call>, n: nat): Writer
    requires n <= |calls|
  {
    DoAll(Fresh(compress, head, live), calls[..n])
  }

  lemma AtNext(compress: bool, head: bool, live: Headers, calls: seq<Call>, n: nat)
    requires n < |calls| && AllCallable(calls)
    ensures At(compress, head, live, calls, n + 1) == Do(At(compress, head, live, calls, n), calls[n])
    ensures Sound(At(compress, head, live, calls, n)) && At(compress, head, live, calls, n).written == |Written(calls[..n])|
    ensures !Committed(At(compress, head, live, calls, n)) ==> |At(compress, head, live, calls, n).buf| == |Written(calls[..n])|
    ensures |Written(calls[..n + 1])| == |Written(calls[..n])| + if calls[n].Writes? then |calls[n].p| else 0
  {
    hide Do, Sound;
    assert calls[..n + 1][..n] == calls[..n];
    NothingIsLost(compress, head, live, calls[..n]);
    SoundCounts(At(compress, head, live, calls, n));
  }

  lemma SoundCounts(w: Writer)
    requires Sound(w)
    ensures w.written == |Taken(w)| && (!Committed(w) ==> Taken(w) == w.buf)
  {
    if !Committed(w) {
      assert Decoded([]) == [] && [] + w.buf == w.buf;
    }
  }

  /** Where the writer stands after `n` calls, with the client's encoding as it came. */
  ghost predicate Stands(compress: bool, head: bool, live: Headers, calls: seq<Call>, n: nat) {
    && n <= |calls|
    && var w := At(compress, head, live, calls, n);
       && (!Committed(w) ==> w.compress == compress)
       && (Unsettled(calls, n) ==> Waits(w, head, HeadersAt(live, calls, n)))
       && (forall k: nat :: NotSent(head, live, calls, k, n) ==> Settled(w, head, calls[k], HeadersAt(live, calls, k)))
       && (forall k: nat, c: nat :: c < n && SentAt(head, live, calls, k, c) ==>
             Gone(w, head, calls[k], HeadersAt(live, calls, k), HeadSent(compress, head, live, calls, k, c)))
  }

  lemma StandsAtFirst(compress: bool, head: bool, live: Headers, calls: seq<Call>)
    ensures Stands(compress, head, live, calls, 0)
  {
    assert calls[..0] == [];
  }

  lemma StandsUnsettled(compress: bool, head: bool, live: Headers, calls: seq<Call>, n: nat)
    requires n < |calls| && AllCallable(calls) && Stands(compress, head, live, calls, n)
    requires Unsettled(calls, n) && !Settles(calls[n])
    ensures Stands(compress, head, live, calls, n + 1)
  {
    hide Do, Sound, Sends, Written, DoAll;
    AtNext(compress, head, live, calls, n);
    var w := At(compress, head, live, calls, n);
    hide At;
    if calls[n].WritesHeader? {
      EarlyStays(w, calls[n].status);
    }
    DoIs(w, calls[n]);
    assert Waits(At(compress, head, live, calls, n + 1), head, HeadersAt(live, calls, n + 1));
  }

  lemma DoIs(w: Writer, call: Call)
    ensures call.Sets? ==> Do(w, call) == w.(live := call.headers)
    ensures call.WritesHeader? ==> Do(w, call) == WriteHeader(w, call.status)
    ensures call.Writes? ==> Do(w, call) == WriteBody(w, call.p)
    ensures call.Flushes? ==> Do(w, call) == Flush(w)
  {
    hide WriteHeader, WriteBody, Flush;
  }

  /** The call that settles, and may send. */
  lemma StandsFirst(compress: bool, head: bool, live: Headers, calls: seq<Call>, n: nat)
    requires n < |calls| && AllCallable(calls) && Stands(compress, head, live, calls, n)
    requires Unsettled(calls, n) && Settles(calls[n])
    ensures Stands(compress, head, live, calls, n + 1)
  {
    hide Do, Sound, Sends, Written, DoAll, WriteHeader, WriteBody, Flush;
    AtNext(compress, head, live, calls, n);
    var w, h := At(compress, head, live, calls, n), HeadersAt(live, calls, n);
    NothingWritten(calls, n);
    FirstCall(w, compress, head, live, calls, n);
    FirstIs(compress, head, live, calls, n);
  }

  lemma {:induction false} NothingWritten(calls: seq<Call>, n: nat)
    requires Unsettled(calls, n)
    ensures |Written(calls[..n])| == 0
  {
    if n > 0 {
      assert calls[..n][..n - 1] == calls[..n - 1];
      NothingWritten(calls, n - 1);
    }
  }

  ghost predicate AfterFirst(w: Writer, compress: bool, head: bool, live: Headers, calls: seq<Call>, n: nat)
    requires n < |calls|
  {
    && (!Committed(w) ==> w.compress == compress)
    && if Sends(head, live, calls, n, n)
       then Gone(w, head, calls[n], HeadersAt(live, calls, n), HeadSent(compress, head, live, calls, n, n))
       else Settled(w, head, calls[n], HeadersAt(live, calls, n))
  }

  lemma FirstCall(w: Writer, compress: bool, head: bool, live: Headers, calls: seq<Call>, n: nat)
    requires n < |calls| && Settles(calls[n]) && Callable(calls[n]) && Sound(w) && w.compress == compress
    requires Waits(w, head, HeadersAt(live, calls, n)) && w.written == 0 && |Written(calls[..n])| == 0
    requires |Written(calls[..n + 1])| == if calls[n].Writes? then |calls[n].p| else 0
    ensures AfterFirst(Do(w, calls[n]), compress, head, live, calls, n)
  {
    hide Written, WriteHeader, StartPassthrough, StartGzip, Decoded, HeadersAt;
    var h := HeadersAt(live, calls, n);
    match calls[n]
    case Flushes => FlushSettles(w, head, h);
    case WritesHeader(status) => StatusSettles(w, head, h, calls[n], status);
    case Writes(p) =>
      StatusSettles(w, head, h, calls[n], 200);
      HeaderIsSound(w, 200);
      WriteOpens(w, p);
      var open := WriteHeader(w, 200);
      if AsItIs(head, live, calls, n) {
        GoneStays(open, head, calls[n], h, Head(200, h.length, false), calls[n]);
      } else {
        WriteSends(open, head, calls[n], h, p);
      }
  }

  lemma WriteOpens(w: Writer, p: seq<Byte>)
    requires w.status == 0 && WriteHeader(w, 200).status != 0
    ensures WriteBody(w, p) == WriteBody(WriteHeader(w, 200), p)
  {
    hide WriteHeader, StartPassthrough, StartGzip, Send, Buffered;
  }

  lemma FirstIs(compress: bool, head: bool, live: Headers, calls: seq<Call>, n: nat)
    requires n < |calls| && Unsettled(calls, n) && Settles(calls[n])
    requires AfterFirst(At(compress, head, live, calls, n + 1), compress, head, live, calls, n)
    ensures Stands(compress, head, live, calls, n + 1)
  {
    hide At, Sends, HeadSent, HeadersAt, Gone, Settled, Settles;
    forall k: nat | FirstSettles(calls, k) ensures k == n {
      assert FirstSettles(calls, n);
      OneSettles(calls, k, n);
    }
  }

  lemma StandsLater(compress: bool, head: bool, live: Headers, calls: seq<Call>, n: nat, k: nat)
    requires n < |calls| && AllCallable(calls) && Stands(compress, head, live, calls, n)
    requires NotSent(head, live, calls, k, n)
    ensures Stands(compress, head, live, calls, n + 1)
  {
    hide Do, Sound, Sends, Written, DoAll, WriteHeader, WriteBody, Flush;
    AtNext(compress, head, live, calls, n);
    LaterCall(At(compress, head, live, calls, n), compress, head, live, calls, k, n);
    LaterIs(compress, head, live, calls, k, n);
  }

  ghost predicate AfterLater(w: Writer, compress: bool, head: bool, live: Headers, calls: seq<Call>, k: nat, n: nat)
    requires k < n < |calls|
  {
    && (!Committed(w) ==> w.compress == compress)
    && if Sends(head, live, calls, k, n)
       then Gone(w, head, calls[k], HeadersAt(live, calls, k), HeadSent(compress, head, live, calls, k, n))
       else Settled(w, head, calls[k], HeadersAt(live, calls, k))
  }

  lemma LaterCall(w: Writer, compress: bool, head: bool, live: Headers, calls: seq<Call>, k: nat, n: nat)
    requires k < n < |calls| && Callable(calls[n]) && Sound(w) && w.compress == compress
    requires Settled(w, head, calls[k], HeadersAt(live, calls, k))
    requires w.written == |w.buf| == |Written(calls[..n])|
    requires |Written(calls[..n + 1])| == |Written(calls[..n])| + if calls[n].Writes? then |calls[n].p| else 0
    ensures AfterLater(Do(w, calls[n]), compress, head, live, calls, k, n)
  {
    hide Written, StartPassthrough, StartGzip, Decoded, HeadersAt, WriteBody, Flush;
    var h := HeadersAt(live, calls, k);
    match calls[n]
    case Flushes => FlushSends(w, head, calls[k], h);
    case WritesHeader(_) =>
    case Sets(_) =>
    case Writes(p) => WriteSends(w, head, calls[k], h, p);
  }

  lemma LaterIs(compress: bool, head: bool, live: Headers, calls: seq<Call>, k: nat, n: nat)
    requires n < |calls| && NotSent(head, live, calls, k, n)
    requires AfterLater(At(compress, head, live, calls, n + 1), compress, head, live, calls, k, n)
    ensures Stands(compress, head, live, calls, n + 1)
  {
    hide At, Sends, HeadSent, HeadersAt, Gone, Settled, Settles;
    forall k': nat | FirstSettles(calls, k') ensures k' == k {
      OneSettles(calls, k', k);
    }
  }

  lemma StandsGone(compress: bool, head: bool, live: Headers, calls: seq<Call>, n: nat, k: nat, c: nat)
    requires n < |calls| && AllCallable(calls) && Stands(compress, head, live, calls, n)
    requires c < n && SentAt(head, live, calls, k, c)
    ensures Stands(compress, head, live, calls, n + 1)
  {
    AtNext(compress, head, live, calls, n);
    GoneStays(At(compress, head, live, calls, n), head, calls[k], HeadersAt(live, calls, k),
              HeadSent(compress, head, live, calls, k, c), calls[n]);
    hide At, Sends, HeadSent, HeadersAt, Gone, Settled, Settles, Sound, Do;
    forall k': nat | FirstSettles(calls, k') ensures k' == k {
      OneSettles(calls, k', k);
    }
    forall c': nat | SentAt(head, live, calls, k, c') ensures c' == c {
      OneSent(head, live, calls, k, c, c');
    }
    GoneIsCommitted(At(compress, head, live, calls, n + 1), head, calls[k], HeadersAt(live, calls, k),
                    HeadSent(compress, head, live, calls, k, c));
  }

  lemma GoneIsCommitted(w: Writer, head: bool, call: Call, h: Headers, sent: Head)
    requires Gone(w, head, call, h, sent)
    ensures Committed(w)
  {
  }

  /** After any calls one of the three holds: unsettled, settled and not sent, or sent. */
  lemma {:induction false} Stage(head: bool, live: Headers, calls: seq<Call>, n: nat)
    requires n <= |calls|
    ensures || Unsettled(calls, n) || (exists k: nat :: NotSent(head, live, calls, k, n))
            || exists k: nat, c: nat :: c < n && SentAt(head, live, calls, k, c)
  {
    hide Sends, Settles;
    if n > 0 {
      var m := n - 1;
      Stage(head, live, calls, m);
      if Unsettled(calls, n - 1) {
        if Settles(calls[n - 1]) {
          assert FirstSettles(calls, n - 1);
          assert Sends(head, live, calls, n - 1, n - 1) ==> SentAt(head, live, calls, n - 1, n - 1);
          assert !Sends(head, live, calls, n - 1, n - 1) ==> NotSent(head, live, calls, n - 1, n);
        }
      } else if exists k: nat :: NotSent(head, live, calls, k, m) {
        var k: nat :| NotSent(head, live, calls, k, m);
        assert Sends(head, live, calls, k, n - 1) ==> SentAt(head, live, calls, k, n - 1);
        assert !Sends(head, live, calls, k, n - 1) ==> NotSent(head, live, calls, k, n);
      }
    }
  }

  lemma {:induction false} WriterStands(compress: bool, head: bool, live: Headers, calls: seq<Call>, n: nat)
    requires n <= |calls| && AllCallable(calls)
    ensures Stands(compress, head, live, calls, n)
  {
    hide Stands, Sends, Settles;
    if n == 0 {
      StandsAtFirst(compress, head, live, calls);
    } else {
      var m := n - 1;
      WriterStands(compress, head, live, calls, m);
      Stage(head, live, calls, m);
      if Unsettled(calls, n - 1) {
        if Settles(calls[n - 1]) {
          StandsFirst(compress, head, live, calls, n - 1);
        } else {
          StandsUnsettled(compress, head, live, calls, n - 1);
        }
      } else if exists k: nat :: NotSent(head, live, calls, k, m) {
        var k: nat :| NotSent(head, live, calls, k, m);
        StandsLater(compress, head, live, calls, n - 1, k);
      } else {
        var k: nat, c: nat :| c < m && SentAt(head, live, calls, k, c);
        StandsGone(compress, head, live, calls, n - 1, k, c);
      }
    }
  }

  // ---- what is on the wire ---------------------------------------------------------------------

  /** The header block as it goes out at call `c`, over every run of calls: at once, and for good. */
  lemma HeadIsSent(compress: bool, head: bool, live: Headers, calls: seq<Call>, k: nat, c: nat)
    requires AllCallable(calls) && SentAt(head, live, calls, k, c)
    ensures DoAll(Fresh(compress, head, live), calls[..c]).wire.head == None
    ensures DoAll(Fresh(compress, head, live), calls).wire.head == Some(HeadSent(compress, head, live, calls, k, c))
  {
    hide Sound, Gone, HeadSent;
    WriterStands(compress, head, live, calls, |calls|);
    assert calls[..|calls|] == calls;
    GoneSays(DoAll(Fresh(compress, head, live), calls), head, calls[k], HeadersAt(live, calls, k),
             HeadSent(compress, head, live, calls, k, c));
    WriterStands(compress, head, live, calls, c);
    NothingIsLost(compress, head, live, calls[..c]);
    HeldSoFar(compress, head, live, calls, k, c);
  }

  lemma GoneSays(w: Writer, head: bool, call: Call, h: Headers, sent: Head)
    requires Gone(w, head, call, h, sent)
    ensures w.wire.head == Some(sent)
  {
  }

  lemma HeldSoFar(compress: bool, head: bool, live: Headers, calls: seq<Call>, k: nat, c: nat)
    requires c < |calls| && SentAt(head, live, calls, k, c) && Stands(compress, head, live, calls, c)
    requires Sound(At(compress, head, live, calls, c))
    ensures At(compress, head, live, calls, c).wire.head == None
  {
    hide At, HeadSent, Sends, HeadersAt;
    if c == k {
      assert Unsettled(calls, c);
    } else {
      assert NotSent(head, live, calls, k, c);
    }
  }

  /** If no call has sent it, nothing is on the wire but early statuses. */
  lemma NothingIsSent(compress: bool, head: bool, live: Headers, calls: seq<Call>)
    requires AllCallable(calls) && forall k: nat, c: nat :: !SentAt(head, live, calls, k, c)
    ensures var w := DoAll(Fresh(compress, head, live), calls); w.wire.head == None && w.wire.body == []
  {
    hide Sound, HeadSent, Sends;
    WriterStands(compress, head, live, calls, |calls|);
    Stage(head, live, calls, |calls|);
    assert calls[..|calls|] == calls;
    NothingIsLost(compress, head, live, calls);
    UncommittedIsBare(DoAll(Fresh(compress, head, live), calls));
  }

  lemma UncommittedIsBare(w: Writer)
    requires Sound(w)
    ensures !Committed(w) ==> w.wire.head == None && w.wire.body == []
  {
  }

  /** Every chunk is as the header block says: compressed under gzip, raw otherwise. */
  predicate Uniform(wire: Wire) {
    && (wire.head.None? ==> wire.body == [])
    && forall j :: 0 <= j < |wire.body| ==> (wire.body[j].Coded? <==> wire.head.Some? && wire.head.value.gzip)
  }

  lemma SendIsUniform(w: Writer, p: seq<Byte>)
    requires Uniform(w.wire) && w.wire.head.Some? && w.wire.head.value.gzip == w.gz
    ensures Uniform(Send(w, p).wire)
  {
  }

  lemma PassthroughIsUniform(w: Writer, pending: nat)
    requires !w.gz && w.wire.body == []
    ensures Uniform(StartPassthrough(w, pending).wire)
  {
  }

  lemma GzipIsUniform(w: Writer)
    requires w.wire.body == []
    ensures Uniform(StartGzip(w).wire)
  {
  }

  lemma HeaderIsUniform(w: Writer, status: int)
    requires Sound(w) && Uniform(w.wire)
    ensures Uniform(WriteHeader(w, status).wire)
  {
    hide StartPassthrough, Decoded;
    PassthroughIsUniform(w.(status := status, header := Some(w.live), declared := w.live.length, gz := false,
                            bodyless := w.bodyless || BodylessStatus(status), wire := w.wire.(body := [])), 0);
  }

  lemma BodyIsUniform(w: Writer, p: seq<Byte>)
    requires Sound(w) && Uniform(w.wire)
    ensures Uniform(WriteBody(w, p).wire)
  {
    hide StartPassthrough, StartGzip, WriteHeader, Send, Decoded, Uniform;
    var open := if w.status == 0 then WriteHeader(w, 200) else w;
    HeaderIsSound(w, 200);
    HeaderIsUniform(w, 200);
    if Committed(open) {
      SendIsUniform(open, p);
    } else {
      HeldIsUniform(open, p);
    }
  }

  lemma HeldIsUniform(open: Writer, p: seq<Byte>)
    requires Sound(open) && !Committed(open) && open.status != 0 && Uniform(open.wire)
    ensures Uniform(WriteBody(open, p).wire)
  {
    hide StartPassthrough, StartGzip, Send, Decoded, Uniform;
    var n := GzipStream.Split(open, p);
    var held := Buffered(open, p[..n]);
    if |held.buf| >= GZIP_MIN_BYTES {
      var started := if held.compress then StartGzip(held) else StartPassthrough(held, |p| - n);
      if held.compress {
        GzipCommits(held);
        GzipIsUniform(held);
      } else {
        PassthroughCommits(held, |p| - n);
        PassthroughIsUniform(held, |p| - n);
      }
      SendIsUniform(started, p[n..]);
    }
  }

  lemma FlushIsUniform(w: Writer)
    requires Sound(w) && Uniform(w.wire)
    ensures Uniform(Flush(w).wire)
  {
    hide StartPassthrough, Decoded;
    var open := if w.status == 0 then w.(status := 200, declared := w.live.length) else w;
    if !Committed(open) {
      PassthroughIsUniform(open, 0);
    }
  }

  /** Over every run of calls, and at its end. */
  lemma {:induction false} WireIsUniform(compress: bool, head: bool, live: Headers, calls: seq<Call>)
    requires AllCallable(calls)
    ensures Uniform(DoAll(Fresh(compress, head, live), calls).wire)
  {
    hide WriteHeader, WriteBody, Flush, Sound, Uniform;
    if calls == [] {
      NothingIsUniform();
    } else {
      var before, last := calls[..|calls| - 1], calls[|calls| - 1];
      WireIsUniform(compress, head, live, before);
      NothingIsLost(compress, head, live, before);
      var w := DoAll(Fresh(compress, head, live), before);
      match last
      case Sets(_) =>
      case WritesHeader(status) => HeaderIsUniform(w, status);
      case Writes(p) => BodyIsUniform(w, p);
      case Flushes => FlushIsUniform(w);
    }
  }

  lemma NothingIsUniform()
    ensures Uniform(Wire([], None, []))
  {
  }

  /**
   A client that does not take gzip is never sent it: no head says so and every chunk is raw.
   One that does gets it from the write that takes the body to 1024 bytes, unless the response has
   gone out before or as it is.
   */
  lemma OnlyWhoAcceptsGetsGzip(compress: bool, head: bool, live: Headers, calls: seq<Call>)
    requires AllCallable(calls)
    ensures var wire := DoAll(Fresh(compress, head, live), calls).wire;
            && (wire.head.Some? && wire.head.value.gzip <==>
                  compress && exists k: nat, c: nat :: SentAt(head, live, calls, k, c) && calls[c].Writes?
                                && !(c == k && AsItIs(head, live, calls, k)))
            && (!compress ==> forall j :: 0 <= j < |wire.body| ==> wire.body[j].Raw?)
  {
    WireIsUniform(compress, head, live, calls);
    hide DoAll, Sends, AsItIs, NoBody, AllCallable;
    if exists k: nat, c: nat :: SentAt(head, live, calls, k, c) {
      var k: nat, c: nat :| SentAt(head, live, calls, k, c);
      HeadIsSent(compress, head, live, calls, k, c);
      forall k': nat, c': nat | SentAt(head, live, calls, k', c') ensures k' == k && c' == c {
        OneSettles(calls, k, k');
        OneSent(head, live, calls, k, c, c');
      }
    } else {
      NothingIsSent(compress, head, live, calls);
    }
  }

  // ---- the end of the response ---------------------------------------------------------------------

  /** Of a settled response: its status, the length if it is the body's, and the body raw. */
  predicate EndsSettled(sent: Wire, call: Call, length: int, bytes: seq<Byte>) {
    && sent.head == Some(Head(StatusOf(call), if length < 0 || length == |bytes| then length else -1, false))
    && sent.body == if bytes == [] then [] else [Raw(bytes)]
  }

  lemma FinishSettled(w: Writer, head: bool, call: Call, h: Headers)
    requires Sound(w) && Settled(w, head, call, h) && w.wire.body == []
    ensures EndsSettled(Finish(w, true).wire, call, h.length, w.buf)
  {
    hide Decoded;
    assert [] + [Raw(w.buf)] == [Raw(w.buf)];
  }

  lemma FinishWaiting(w: Writer, head: bool, h: Headers)
    requires Sound(w) && Waits(w, head, h)
    ensures Finish(w, true).wire.head == Some(Head(200, if head || h.length <= 0 then h.length else -1, false))
    ensures Finish(w, true).wire.body == w.wire.body
  {
    hide Decoded;
  }

  /**
   At the end of a response that no call has sent: after a return the header block goes out with the
   status settled or 200, and a length only if it is the body's or there can be no body; and then the
   body, raw. After a panic nothing does.
   */
  lemma EndIsSent(compress: bool, head: bool, live: Headers, calls: seq<Call>, complete: bool)
    requires AllCallable(calls) && forall k: nat, c: nat :: !SentAt(head, live, calls, k, c)
    ensures var sent := Finish(DoAll(Fresh(compress, head, live), calls), complete).wire;
            && (!complete ==> sent.head == None && sent.body == [])
            && (complete && Unsettled(calls, |calls|) ==>
                  var length := HeadersAt(live, calls, |calls|).length;
                  sent.head == Some(Head(200, if head || length <= 0 then length else -1, false)) && sent.body == [])
            && (forall k: nat :: complete && FirstSettles(calls, k) ==>
                  EndsSettled(sent, calls[k], HeadersAt(live, calls, k).length, Written(calls)))
  {
    hide DoAll, Sends, AllCallable, HeadersAt, Written, HeadSent, Settled, Waits, EndsSettled, Sound, Finish, FirstSettles, Gone;
    NothingIsSent(compress, head, live, calls);
    WriterStands(compress, head, live, calls, |calls|);
    Stage(head, live, calls, |calls|);
    assert calls[..|calls|] == calls;
    NothingIsLost(compress, head, live, calls);
    var w := DoAll(Fresh(compress, head, live), calls);
    HeldIsWritten(w, Written(calls));
    if Unsettled(calls, |calls|) {
      WaitingIsHeld(w, head, HeadersAt(live, calls, |calls|));
      FinishWaiting(w, head, HeadersAt(live, calls, |calls|));
      PanicKeeps(w);
      NoneSettles(calls);
    } else {
      var k: nat :| NotSent(head, live, calls, k, |calls|);
      SettledIsHeld(w, head, calls[k], HeadersAt(live, calls, k));
      FinishSettled(w, head, calls[k], HeadersAt(live, calls, k));
      PanicKeeps(w);
      forall k': nat | FirstSettles(calls, k') ensures k' == k {
        OneSettles(calls, k, k');
      }
    }
  }

  lemma WaitingIsHeld(w: Writer, head: bool, h: Headers)
    requires Waits(w, head, h)
    ensures !Committed(w)
  {
  }

  lemma SettledIsHeld(w: Writer, head: bool, call: Call, h: Headers)
    requires Settled(w, head, call, h)
    ensures !Committed(w)
  {
  }

  lemma PanicKeeps(w: Writer)
    requires !Committed(w)
    ensures Finish(w, false).wire == w.wire
  {
  }

  lemma NoneSettles(calls: seq<Call>)
    requires Unsettled(calls, |calls|)
    ensures forall k: nat :: !FirstSettles(calls, k)
  {
  }

  /** What goes out with a call stays as it was at the end. */
  lemma SentStaysSent(compress: bool, head: bool, live: Headers, calls: seq<Call>, k: nat, c: nat, complete: bool)
    requires AllCallable(calls) && SentAt(head, live, calls, k, c)
    ensures var w := DoAll(Fresh(compress, head, live), calls); Finish(w, complete).wire == w.wire
  {
    hide DoAll, Sends, AllCallable, HeadSent;
    HeadIsSent(compress, head, live, calls, k, c);
    NothingIsLost(compress, head, live, calls);
    SentIsCommitted(DoAll(Fresh(compress, head, live), calls));
  }

  lemma SentIsCommitted(w: Writer)
    requires Sound(w) && w.wire.head.Some?
    ensures forall complete :: Finish(w, complete).wire == w.wire
  {
    hide Decoded;
  }

  /** The early statuses go out as they come, in order, and none other. */
  function Early(calls: seq<Call>): seq<int> {
    if calls == [] then []
    else
      var before, last := Early(calls[..|calls| - 1]), calls[|calls| - 1];
      if last.WritesHeader? && 100 <= last.status <= 199 then before + [last.status] else before
  }

  lemma {:induction false} EarlyAreSent(compress: bool, head: bool, live: Headers, calls: seq<Call>, complete: bool)
    requires AllCallable(calls)
    ensures DoAll(Fresh(compress, head, live), calls).wire.early == Early(calls)
    ensures Finish(DoAll(Fresh(compress, head, live), calls), complete).wire.early == Early(calls)
  {
    hide Do, Finish;
    if calls != [] {
      EarlyAreSent(compress, head, live, calls[..|calls| - 1], complete);
      CallKeepsEarly(DoAll(Fresh(compress, head, live), calls[..|calls| - 1]), calls[|calls| - 1]);
    }
    EndKeepsEarly(DoAll(Fresh(compress, head, live), calls), complete);
  }

  lemma CallKeepsEarly(w: Writer, call: Call)
    ensures Do(w, call).wire.early ==
            if call.WritesHeader? && 100 <= call.status <= 199 then w.wire.early + [call.status] else w.wire.early
  {
    hide WriteHeader, WriteBody, Flush;
    match call
    case Sets(_) =>
    case WritesHeader(status) => HeaderKeepsEarly(w, status);
    case Writes(p) => BodyKeepsEarly(w, p);
    case Flushes => FlushKeepsEarly(w);
  }

  lemma PassthroughKeepsEarly(w: Writer, pending: nat)
    ensures StartPassthrough(w, pending).wire.early == w.wire.early
  {
  }

  lemma GzipKeepsEarly(w: Writer)
    ensures StartGzip(w).wire.early == w.wire.early
  {
  }

  lemma SendKeepsEarly(w: Writer, p: seq<Byte>)
    ensures Send(w, p).wire.early == w.wire.early
  {
  }

  lemma HeaderKeepsEarly(w: Writer, status: int)
    ensures WriteHeader(w, status).wire.early == if 100 <= status <= 199 then w.wire.early + [status] else w.wire.early
  {
    hide StartPassthrough;
    PassthroughKeepsEarly(w.(status := status, header := Some(w.live), declared := w.live.length,
                             bodyless := w.bodyless || BodylessStatus(status)), 0);
  }

  lemma BodyKeepsEarly(w: Writer, p: seq<Byte>)
    ensures WriteBody(w, p).wire.early == w.wire.early
  {
    hide StartPassthrough, StartGzip, Send, WriteHeader;
    HeaderKeepsEarly(w, 200);
    var open := if w.status == 0 then WriteHeader(w, 200) else w;
    SendKeepsEarly(open, p);
    var n := GzipStream.Split(open, p);
    var held := Buffered(open, p[..n]);
    PassthroughKeepsEarly(held, |p| - n);
    GzipKeepsEarly(held);
    SendKeepsEarly(StartPassthrough(held, |p| - n), p[n..]);
    SendKeepsEarly(StartGzip(held), p[n..]);
  }

  lemma FlushKeepsEarly(w: Writer)
    ensures Flush(w).wire.early == w.wire.early
  {
    hide StartPassthrough;
    PassthroughKeepsEarly(if w.status == 0 then w.(status := 200, declared := w.live.length) else w, 0);
  }

  lemma EndKeepsEarly(w: Writer, complete: bool)
    ensures Finish(w, complete).wire.early == w.wire.early
  {
    hide Decoded;
  }

  /**
   The log line, read off the calls: after a return whose response may have a body, the length that
   stood when the status was settled - or at the end, if none was - is not that of what was written.
   */
  lemma ReportIsReadOff(compress: bool, head: bool, live: Headers, calls: seq<Call>, complete: bool)
    requires AllCallable(calls)
    ensures var w := DoAll(Fresh(compress, head, live), calls);
            && (Unsettled(calls, |calls|) ==>
                  var length := HeadersAt(live, calls, |calls|).length;
                  (Reports(w, complete) <==> complete && !head && length > 0))
            && (forall k: nat :: FirstSettles(calls, k) ==>
                  var length := HeadersAt(live, calls, k).length;
                  (Reports(w, complete) <==> complete && !NoBody(head, calls[k]) && length >= 0 && length != |Written(calls)|))
  {
    hide DoAll, Sends, AllCallable, HeadersAt, Written, HeadSent, NoBody, Sound, FirstSettles, Settles;
    WriterStands(compress, head, live, calls, |calls|);
    Stage(head, live, calls, |calls|);
    assert calls[..|calls|] == calls;
    NothingIsLost(compress, head, live, calls);
    var w := DoAll(Fresh(compress, head, live), calls);
    SoundCounts(w);
    if Unsettled(calls, |calls|) {
      NothingWritten(calls, |calls|);
      NoneSettles(calls);
    } else if exists k: nat :: NotSent(head, live, calls, k, |calls|) {
      var k: nat :| NotSent(head, live, calls, k, |calls|);
      forall k': nat | FirstSettles(calls, k') ensures k' == k {
        OneSettles(calls, k, k');
      }
    } else {
      var k: nat, c: nat :| c < |calls| && SentAt(head, live, calls, k, c);
      forall k': nat | FirstSettles(calls, k') ensures k' == k {
        OneSettles(calls, k, k');
      }
    }
  }

  lemma HeldIsWritten(w: Writer, bytes: seq<Byte>)
    requires Sound(w) && Taken(w) == bytes
    ensures !Committed(w) ==> w.buf == bytes
  {
    if !Committed(w) {
      assert Decoded([]) == [] && [] + w.buf == w.buf;
    }
  }
}
