/**
 `wsConn` (websocket_conn.go): the fields of a socket's queue.

 The methods that change them, under its lock or once, are each proved to be a step of the
 socket. What runs beside them - the writer, the reader, the relay's send - is in the state the
 fields stand for.
 */
module SocketConn {
  import opened SocketQueue
  import opened Wrappers

  class WsConn {
    var queue: seq<Outgoing>
    var queued: int
    var pending: int
    var wake: bool
    var quit: bool
    var closeFrame: Option<nat>
    ghost var socket: Socket      // what the fields stand for, with the goroutines beside them

    ghost predicate Valid()
      reads this
    {
      && socket.queue == queue && socket.queued == queued && socket.pending == pending
      && socket.token == wake && socket.quit == quit && socket.closing == closeFrame
      && Sound(socket)
    }

    constructor ()
      ensures Valid() && socket == FRESH
    {
      hide Sound;
      FreshIsSound();
      queue, queued, pending, wake, quit, closeFrame := [], 0, 0, false, false, None;
      socket := FRESH;
    }

    /** `finish`: closing `quit` once, with the frame that was decided first. */
    method FinishWith(closing: Option<nat>)
      requires Valid()
      modifies this
      ensures Valid() && socket == Finish(old(socket), closing)
    {
      hide Sound;
      DoIsSound(socket, Ends(closing));
      if !quit {
        closeFrame := closing;
        quit := true;
      }
      socket := Finish(socket, closing);
    }

    /** The section of `send` under the queue's lock. */
    method Lock(frame: Outgoing) returns (full: bool)
      requires Valid() && socket.sender == Admitted(frame)
      modifies this
      ensures Valid() && socket == Do(old(socket), SendLocks) && full == socket.sender.Full?
      ensures full == (old(pending) >= 16384 || old(queued) + |frame.bytes| > 4194304)
    {
      hide Sound;
      DoIsSound(socket, SendLocks);
      full := pending >= QUEUE_FRAMES || queued + |frame.bytes| > QUEUE_BYTES;
      if !full {
        queue := queue + [frame];
        queued := queued + |frame.bytes|;
        pending := pending + 1;
      }
      socket := Do(socket, SendLocks);
    }

    /** `send`: never waits; a socket too far behind is closed instead. */
    method Send(frame: Outgoing) returns (ok: bool)
      requires Valid() && socket.sender.Idle?
      modifies this
      ensures Valid() && socket == Offer(old(socket), frame)
      ensures ok == (!old(quit) && old(pending) < 16384 && old(queued) + |frame.bytes| <= 4194304)
    {
      hide Sound;
      DoIsSound(socket, SendBegins(frame));
      if quit {
        return false;
      }
      socket := Begin(socket, frame);
      var full := Lock(frame);
      if full {
        DoIsSound(socket, SendCloses);
        if !quit {
          closeFrame := Some(TRY_AGAIN_LATER);
          quit := true;
        }
        socket := Do(socket, SendCloses);
        return false;
      }
      DoIsSound(socket, SendPosts);
      wake := true;
      socket := Do(socket, SendPosts);
      return true;
    }

    /** `take`: the whole queue, in one piece. */
    method Take() returns (batch: seq<Outgoing>)
      requires Valid() && socket.writer.Taking?
      modifies this
      ensures Valid() && socket == Do(old(socket), Takes) && batch == InHand(socket.writer)
    {
      hide Sound;
      DoIsSound(socket, Takes);
      batch := queue;
      queue := [];
      socket := Do(socket, Takes);
    }

    /** `wrote`: only now does the frame stop counting. */
    method Wrote(frame: Outgoing)
      requires Valid() && socket.writer.Sent? && socket.writer.frame == frame
      modifies this
      ensures Valid() && socket == Do(old(socket), SaysWrote)
    {
      hide Sound;
      DoIsSound(socket, SaysWrote);
      queued := queued - |frame.bytes|;
      pending := pending - 1;
      socket := Do(socket, SaysWrote);
    }
  }
}
