/**
 What the server writes (websocket.go): its frames, and the payload of a close frame both ways.
 */
module ServerFrames {
  import opened Frames
  import opened Utf8

  // ---- one frame ---------------------------------------------------------------------------

  function ServerFrame(opcode: nat, payload: seq<Byte>): seq<Byte>
    requires opcode < 16 && |payload| < TWO_63
  {
    [FirstByte(true, opcode)] + LengthBytes(|payload|, 0) + payload
  }

  /** `wsFrame`: unmasked, in one piece, the length in the least of its forms. */
  method WriteFrame(opcode: nat, payload: seq<Byte>) returns (frame: seq<Byte>)
    requires opcode < 16 && |payload| < TWO_63
    ensures frame == ServerFrame(opcode, payload)
  {
    var n := |payload|;
    if n < 126 {
      frame := [0, n];
    } else if n <= 0xFFFF {
      frame := [0, 126] + BigEndian(n, 2);
    } else {
      frame := [0, 127] + BigEndian(n, 8);
    }
    frame := frame[0 := 0x80 + opcode];
    frame := frame + payload;
  }

  lemma LengthReads(n: nat, tail: seq<Byte>)
    requires n < TWO_63
    ensures var s := LengthBytes(n, 0) + tail;
            && |s| >= 1 + Extended(s[0]) && s[1 + Extended(s[0])..] == tail
            && n == if Extended(s[0]) == 0 then s[0] else FromBigEndian(s[1..1 + Extended(s[0])])
  {
    if n >= 126 {
      LongLengthReads(n, if n <= 0xFFFF then 2 else 8, tail);
    }
  }

  lemma LongLengthReads(n: nat, k: nat, tail: seq<Byte>)
    requires 126 <= n < TWO_63 && k == if n <= 0xFFFF then 2 else 8
    ensures var head: Byte := if k == 2 then 126 else 127; var s := [head] + BigEndian(n, k) + tail;
            && Extended(head) == k && s[1 + k..] == tail && FromBigEndian(s[1..1 + k]) == n
  {
    hide BigEndian, FromBigEndian;
    Widths();
    ReadsBigEndian(n, k);
    var head: Byte := if k == 2 then 126 else 127;
    assert ([head] + BigEndian(n, k) + tail)[1..1 + k] == BigEndian(n, k);
  }

  /** A stream of server frames can be cut in one way only. */
  lemma ServerFramesAreDistinct(o: nat, p: seq<Byte>, r: seq<Byte>, o': nat, p': seq<Byte>, r': seq<Byte>)
    requires o < 16 && |p| < TWO_63 && o' < 16 && |p'| < TWO_63
    requires ServerFrame(o, p) + r == ServerFrame(o', p') + r'
    ensures o == o' && p == p' && r == r'
  {
    var s, s' := ServerFrame(o, p) + r, ServerFrame(o', p') + r';
    hide LengthBytes, ServerFrame;
    LengthReads(|p|, p + r);
    LengthReads(|p'|, p' + r');
    SplitsOff(o, p, r);
    SplitsOff(o', p', r');
    assert s[0] == s'[0] && s[1..] == s'[1..];
    assert (p + r)[..|p|] == p && (p + r)[|p|..] == r;
    assert (p' + r')[..|p'|] == p' && (p' + r')[|p'|..] == r';
  }

  lemma SplitsOff(o: nat, p: seq<Byte>, r: seq<Byte>)
    requires o < 16 && |p| < TWO_63
    ensures var s := ServerFrame(o, p) + r; s[0] == 0x80 + o && s[1..] == LengthBytes(|p|, 0) + (p + r)
  {
  }

  // ---- the close frame ------------------------------------------------------------------------

  const REASON_ROOM := 123

  predicate RuneStart(b: Byte) {
    !(0x80 <= b <= 0xBF)
  }

  /** A byte does not start a character when its top two bits are 10. */
  lemma StartsUnlessContinuing(b: Byte)
    ensures RuneStart(b) <==> b / 64 != 2
  {
  }

  /** Where a reason is cut: the last character boundary the room holds. */
  predicate CutAt(reason: seq<Byte>, cut: nat) {
    if |reason| <= REASON_ROOM then cut == |reason|
    else
      && cut <= REASON_ROOM && (cut == 0 || RuneStart(reason[cut]))
      && forall j :: cut < j <= REASON_ROOM ==> !RuneStart(reason[j])
  }

  /** `wsCloseFrame`. */
  method WriteCloseFrame(code: nat, reason: seq<Byte>) returns (frame: seq<Byte>, ghost cut: nat)
    requires code <= 0xFFFF
    ensures CutAt(reason, cut)
    ensures forall c: nat :: CutAt(reason, c) ==>
              c <= |reason| && |reason[..c]| <= REASON_ROOM && frame == ServerFrame(OP_CLOSE, BigEndian(code, 2) + reason[..c])
  {
    var kept := reason;
    cut := |reason|;
    if |reason| > REASON_ROOM {
      var at := REASON_ROOM;
      while at > 0 && !RuneStart(reason[at])
        invariant 0 <= at <= REASON_ROOM
        invariant forall j :: at < j <= REASON_ROOM ==> !RuneStart(reason[j])
      {
        at := at - 1;
      }
      kept, cut := reason[..at], at;
    }
    assert kept == reason[..cut];
    forall c: nat | CutAt(reason, c) ensures c == cut {
      OneCut(reason, c, cut);
    }
    frame := WriteFrame(OP_CLOSE, BigEndian(code, 2) + kept);
  }

  lemma OneCut(reason: seq<Byte>, a: nat, b: nat)
    requires CutAt(reason, a) && CutAt(reason, b)
    ensures a == b
  {
  }

  lemma FirstIsStart(s: seq<Byte>)
    requires WellFormed(s) && s != []
    ensures RuneStart(s[0])
  {
    var n := FirstChar(s);
    CharIsWhole(s[..n]);
  }

  /** Cut at a character boundary, a well-formed text stays well-formed. */
  lemma {:induction false} CutIsWellFormed(s: seq<Byte>, cut: nat)
    requires WellFormed(s) && cut <= |s| && (cut == 0 || cut == |s| || RuneStart(s[cut]))
    ensures WellFormed(s[..cut])
  {
    hide WellFormed, IsChar;
    if cut == 0 {
      EmptyIsWellFormed();
      assert s[..cut] == [];
    } else if cut == |s| {
      assert s[..cut] == s;
    } else {
      var n := FirstChar(s);
      CharIsWhole(s[..n]);
      assert cut < n ==> Follows(s[0], cut, s[..n][cut]);
      CutIsWellFormed(s[n..], cut - n);
      WellFormedPrepend(s[..n], s[n..][..cut - n]);
      assert s[..n] + s[n..][..cut - n] == s[..cut];
    }
  }

  lemma EmptyIsWellFormed()
    ensures WellFormed([])
  {
  }

  /** Of four bytes in a row, one starts a character. */
  lemma {:induction false} StartWithinFour(s: seq<Byte>, at: nat)
    requires WellFormed(s) && at < |s|
    ensures exists j :: at - 3 <= j <= at && 0 <= j && RuneStart(s[j])
    decreases |s|
  {
    hide WellFormed, IsChar;
    var n := FirstChar(s);
    CharIsWhole(s[..n]);
    if at < n {
      FirstIsStart(s);
    } else {
      StartWithinFour(s[n..], at - n);
      var j :| at - n - 3 <= j <= at - n && 0 <= j && RuneStart(s[n..][j]);
      assert RuneStart(s[j + n]);
    }
  }

  /** What a person is shown: a prefix of whole characters, and not more than three bytes short. */
  lemma ReasonIsReadable(reason: seq<Byte>, cut: nat)
    requires WellFormed(reason) && CutAt(reason, cut)
    ensures cut <= |reason| && WellFormed(reason[..cut])
    ensures |reason| > REASON_ROOM ==> REASON_ROOM - 3 <= cut <= REASON_ROOM
  {
    CutIsWellFormed(reason, cut);
    if |reason| > REASON_ROOM {
      StartWithinFour(reason, REASON_ROOM);
    }
  }

  // ---- reading a close frame --------------------------------------------------------------------

  datatype CloseRead = Status(code: nat) | Violation(code: nat)

  predicate MaySend(code: nat) {
    1000 <= code <= 1003 || 1007 <= code <= 1014 || 3000 <= code <= 4999
  }

  /** `wsCloseCode`. */
  function CloseCode(payload: seq<Byte>): CloseRead {
    if |payload| == 0 then Status(CLOSE_NO_STATUS)
    else if |payload| == 1 then Violation(CLOSE_PROTOCOL_ERROR)
    else
      var code := FromBigEndian(payload[..2]);
      if !MaySend(code) then Violation(CLOSE_PROTOCOL_ERROR)
      else if !Valid(payload[2..]) then Violation(CLOSE_INVALID_PAYLOAD)
      else Status(code)
  }

  /** The code a close frame was written with is the code that is read, if it may be sent at all. */
  lemma CloseCodeRoundTrip(code: nat, reason: seq<Byte>, cut: nat)
    requires code <= 0xFFFF && WellFormed(reason) && CutAt(reason, cut)
    ensures cut <= |reason| && |BigEndian(code, 2) + reason[..cut]| <= MAX_CONTROL
    ensures CloseCode(BigEndian(code, 2) + reason[..cut]) == Status(code) <==> MaySend(code)
  {
    hide BigEndian, FromBigEndian, WellFormed, Valid;
    Widths();
    ReadsBigEndian(code, 2);
    ReasonIsReadable(reason, cut);
    ValidIsWellFormed(reason[..cut]);
    var payload := BigEndian(code, 2) + reason[..cut];
    assert payload[..2] == BigEndian(code, 2) && payload[2..] == reason[..cut];
  }

  /** What may be read is what may be sent: no payload, or a code that may be sent and a text. */
  lemma StatusIsSendable(payload: seq<Byte>)
    ensures CloseCode(payload).Status? <==>
            payload == [] || (|payload| >= 2 && MaySend(FromBigEndian(payload[..2])) && WellFormed(payload[2..]))
  {
    if |payload| >= 2 {
      ValidIsWellFormed(payload[2..]);
    }
  }
}
