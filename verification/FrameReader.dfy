/**
 `wsReader` (websocket.go): the object that reads a client's frames.

 It holds the message they are fragments of; its methods are proved against the parse of the
 bytes that came. The stream is what the peer sends until it ends, and a read that asks for more
 is a read error.
 */
module FrameReader {
  import opened Frames
  import opened Utf8

  const READ_CHUNK := 0x1_0000

  /** Lengths are unsigned 64-bit: their sum wraps, unless something keeps it from wrapping. */
  function AddU64(a: nat, b: nat): nat {
    (a + b) % TWO_64
  }

  class WsReader {
    const input: seq<Byte>      // what the peer has sent, to its end
    const limit: nat
    var pos: nat
    var fragmented: bool
    var opcode: nat
    var partial: seq<Byte>

    ghost predicate Valid()
      reads this
    {
      && pos <= |input| && limit < TWO_63
      && |partial| <= limit && (!fragmented ==> partial == [])
    }

    ghost function Held(): Assembly
      reads this
    {
      Assembly(fragmented, opcode, partial)
    }

    constructor (input: seq<Byte>, limit: nat)
      requires limit < TWO_63
      ensures Valid() && Held() == IDLE && pos == 0 && this.input == input && this.limit == limit
    {
      this.input, this.limit := input, limit;
      pos, fragmented, opcode, partial := 0, false, 0, [];
    }

    /** io.ReadFull: all of it, or an error. */
    method ReadFull(n: nat) returns (ok: bool, bytes: seq<Byte>)
      requires pos <= |input|
      modifies this`pos
      ensures ok == (old(pos) + n <= |input|)
      ensures ok ==> pos == old(pos) + n && bytes == input[old(pos)..pos]
      ensures pos <= |input|
    {
      if pos + n > |input| {
        pos := |input|;
        return false, [];
      }
      bytes := input[pos..pos + n];
      pos := pos + n;
      ok := true;
    }

    /**
     `wsReadPayload`: `asked` is the room asked for in all, never more than a chunk ahead of the
     bytes that came.
     */
    method ReadPayload(length: nat) returns (ok: bool, payload: seq<Byte>, asked: nat)
      requires pos <= |input|
      modifies this`pos
      ensures ok == (old(pos) + length <= |input|)
      ensures ok ==> pos == old(pos) + length && payload == input[old(pos)..pos]
      ensures pos <= |input| && asked <= |payload| + 65536
    {
      payload, asked := [], if length < READ_CHUNK then length else READ_CHUNK;
      while |payload| < length
        invariant |payload| <= length && pos == old(pos) + |payload| <= |input|
        invariant payload == input[old(pos)..pos]
        invariant asked <= |payload| + READ_CHUNK
      {
        var n := if length - |payload| < READ_CHUNK then length - |payload| else READ_CHUNK;
        asked := if asked < |payload| + n then |payload| + n else asked;
        var more;
        ok, more := ReadFull(n);
        if !ok {
          return;
        }
        payload := payload + more;
      }
      ok := true;
    }

    /** The extended length, if the header announces one. */
    method ReadLength(b: Byte) returns (r: Declared)
      requires Valid()
      modifies this`pos
      ensures Valid() && r == DeclaredBy(b, old(input[pos..]))
      ensures r.Length? ==> pos == old(pos) + Extended(b)
    {
      ghost var s := input[pos..];
      if b % 128 < 126 {
        return Length(b % 128);
      }
      var ok, more;
      if b % 128 == 126 {
        ok, more := ReadFull(2);
        if !ok {
          return CutLength;
        }
        assert more == s[..2];
        var length := FromBigEndian(more);
        if length < 126 {
          return BadLength;
        }
        return Length(length);
      }
      ok, more := ReadFull(8);
      if !ok {
        return CutLength;
      }
      assert more == s[..8];
      var length := FromBigEndian(more);
      if length / TWO_63 != 0 {
        return BadLength;
      }
      if length <= 0xFFFF {
        return BadLength;
      }
      return Length(length);
    }

    /** One frame: its header checked before a byte of its payload is read, then unmasked. */
    method ReadFrame() returns (r: FrameRead)
      requires Valid()
      modifies this`pos
      ensures Valid() && Agrees(r, input[pos..], Parse(|partial|, limit, old(input[pos..])))
    {
      hide DeclaredBy, Parse, HeadRefusal, Masked;
      ghost var s := input[pos..];
      ParseInSteps(|partial|, limit, s);
      var ok, head := ReadFull(2);
      if !ok {
        return Cut;
      }
      assert head == s[..2];
      if head[0] / 16 % 8 != 0 {
        return Refuse(CLOSE_PROTOCOL_ERROR);
      }
      assert input[pos..] == s[2..];
      var declared := ReadLength(head[1]);
      if declared.CutLength? {
        return Cut;
      }
      if declared.BadLength? || head[1] < 0x80 {
        return Refuse(CLOSE_PROTOCOL_ERROR);
      }
      var fin, opcode := head[0] >= 0x80, head[0] % 16;
      if opcode >= 8 {
        if !fin {
          return Refuse(CLOSE_PROTOCOL_ERROR);
        }
        if declared.n > MAX_CONTROL {
          return Refuse(CLOSE_PROTOCOL_ERROR);
        }
      } else if AddU64(|partial|, declared.n) > limit {
        return Refuse(CLOSE_TOO_BIG);
      }
      ghost var at := pos;
      assert input[pos..] == s[2 + Extended(head[1])..];
      var key;
      ok, key := ReadFull(4);
      if !ok {
        return Cut;
      }
      var payload, asked;
      ok, payload, asked := ReadPayload(declared.n);
      if !ok {
        return Cut;
      }
      var mask: Key := key;
      assert key == s[2 + Extended(head[1])..][..4];
      assert payload == s[2 + Extended(head[1])..][4..][..declared.n];
      assert input[pos..] == s[2 + Extended(head[1])..][4..][declared.n..];
      payload := Unmasked(payload, mask);
      r := Whole(Frame(fin, opcode, payload));
    }

    /** The next complete message, or a control frame as soon as it arrives. */
    method Next() returns (r: Came)
      requires Valid()
      modifies this
      ensures Valid() && Brings(r, Held(), input[pos..], Frames.Next(old(Held()), limit, old(input[pos..])))
    {
      hide Parse, Frames.Next, Complete;
      ghost var first, all := Held(), input[pos..];
      while true
        invariant Valid() && Frames.Next(Held(), limit, input[pos..]) == Frames.Next(first, limit, all)
        decreases |input| - pos
      {
        ghost var held, s := Held(), input[pos..];
        NextInSteps(held, limit, s);
        var read := ReadFrame();
        if read.Cut? {
          return Broken;
        }
        if read.Refuse? {
          return Closed(read.code);
        }
        ParsedFits(|partial|, limit, s);
        var f := read.frame;
        if f.opcode == OP_CLOSE || f.opcode == OP_PING || f.opcode == OP_PONG {
          return Delivered(Message(f.opcode, f.payload));
        } else if f.opcode == OP_TEXT || f.opcode == OP_BINARY {
          if fragmented {
            return Closed(CLOSE_PROTOCOL_ERROR);
          }
          if f.fin {
            r := Finished(f.opcode, f.payload, held);
            return;
          }
          fragmented, opcode, partial := true, f.opcode, f.payload;
        } else if f.opcode == OP_CONTINUATION {
          if !fragmented {
            return Closed(CLOSE_PROTOCOL_ERROR);
          }
          partial := partial + f.payload;
          if f.fin {
            var opcode', whole := opcode, partial;
            fragmented, opcode, partial := false, 0, [];
            r := Finished(opcode', whole, IDLE);
            return;
          }
        } else {
          return Closed(CLOSE_PROTOCOL_ERROR);
        }
      }
    }
  }

  /** `wsComplete`. */
  method Finished(opcode: nat, payload: seq<Byte>, ghost next: Assembly) returns (r: Came)
    ensures match Complete(opcode, payload, next)
            case Emit(message, after) => after == next && r == Delivered(message)
            case Violates(code) => r == Closed(code)
            case Keep(_) => false
  {
    if opcode == OP_TEXT && !Utf8.Valid(payload) {
      return Closed(CLOSE_INVALID_PAYLOAD);
    }
    return Delivered(Message(opcode, payload));
  }

  datatype Came = Delivered(message: Message) | Closed(code: nat) | Broken

  /** What the method came back with, and the state it left, are what the bytes say. */
  predicate Brings(r: Came, held: Assembly, rest: seq<Byte>, n: Read) {
    match n
    case Failed => r == Broken
    case Refused(code) => r == Closed(code)
    case Received(message, next, after) => r == Delivered(message) && held == next && rest == after
  }

  lemma NextInSteps(a: Assembly, limit: nat, s: seq<Byte>)
    ensures Frames.Next(a, limit, s) ==
            match Parse(|a.partial|, limit, s)
            case Short => Failed
            case Bad(code) => Refused(code)
            case Got(frame, _, rest) =>
              match Take(a, frame)
              case Violates(code) => Refused(code)
              case Emit(message, next) => Received(message, next, rest)
              case Keep(next) => Frames.Next(next, limit, rest)
  {
  }

  method Unmasked(payload: seq<Byte>, key: Key) returns (r: seq<Byte>)
    ensures r == Masked(payload, key)
  {
    var buffer := new Byte[|payload|](i requires 0 <= i < |payload| => payload[i]);
    assert buffer[..] == payload;
    Unmask(buffer, key);
    r := buffer[..];
  }

  /** The payload, unmasked in place. */
  method Unmask(buffer: array<Byte>, key: Key)
    modifies buffer
    ensures buffer[..] == Masked(old(buffer[..]), key)
  {
    for i := 0 to buffer.Length
      invariant forall j :: 0 <= j < i ==> buffer[j] == Xor(old(buffer[j]), key[j % 4])
      invariant forall j :: i <= j < buffer.Length ==> buffer[j] == old(buffer[j])
    {
      buffer[i] := Xor(buffer[i], key[i % 4]);
    }
  }

  /** The sum the size check is made on does not wrap. */
  lemma SumIsExact(held: nat, limit: nat, length: nat)
    requires held <= limit < TWO_63 && length < TWO_63
    ensures AddU64(held, length) == held + length
  {
  }

  lemma ParsedFits(held: nat, limit: nat, s: seq<Byte>)
    requires held <= limit < TWO_63 && Parse(held, limit, s).Got?
    ensures var f := Parse(held, limit, s).frame; f.opcode < 8 ==> held + |f.payload| <= limit
    ensures |Parse(held, limit, s).rest| < |s|
  {
    hide Masked;
    Widths();
    if Extended(s[1]) > 0 {
      WritesBigEndian(s[2..2 + Extended(s[1])]);
    }
    SumIsExact(held, limit, DeclaredLength(s));
  }

  datatype FrameRead = Whole(frame: Frame) | Refuse(code: nat) | Cut

  datatype Declared = Length(n: nat) | BadLength | CutLength

  function DeclaredBy(b: Byte, s: seq<Byte>): (r: Declared)
    ensures r.Length? ==> r.n < TWO_63
  {
    var ext := Extended(b);
    if ext == 0 then Length(b % 128)
    else if |s| < ext then CutLength
    else
      var n := FromBigEndian(s[..ext]);
      if ext == 2 then if n < 126 then BadLength else
        WritesBigEndian(s[..2]);
        Widths();
        Length(n)
      else if n >= TWO_63 || n <= 0xFFFF then BadLength else Length(n)
  }

  /** What the method came back with is what the parse of the bytes is. */
  predicate Agrees(r: FrameRead, rest: seq<Byte>, p: Parsed) {
    match p
    case Short => r == Cut
    case Bad(code) => r == Refuse(code)
    case Got(frame, _, after) => r == Whole(frame) && rest == after
  }

  /** What is parsed of `s`, once its length is known to be declared as `d`. */
  function ParsedAs(held: nat, limit: nat, s: seq<Byte>, d: Declared): Parsed
    requires |s| >= 2 && (d.Length? ==> |s| >= 2 + Extended(s[1]))
  {
    match d
    case CutLength => Short
    case BadLength => Bad(CLOSE_PROTOCOL_ERROR)
    case Length(n) =>
      if s[1] < 0x80 then Bad(CLOSE_PROTOCOL_ERROR)
      else if s[0] % 16 >= 8 && (s[0] < 0x80 || n > MAX_CONTROL) then Bad(CLOSE_PROTOCOL_ERROR)
      else if s[0] % 16 < 8 && (held + n) % TWO_64 > limit then Bad(CLOSE_TOO_BIG)
      else
        var tail := s[2 + Extended(s[1])..];
        if |tail| < 4 + n then Short
        else
          var key: Key := tail[..4];
          Got(Frame(s[0] >= 0x80, s[0] % 16, Masked(tail[4..][..n], key)), key, tail[4..][n..])
  }

  lemma ParseInSteps(held: nat, limit: nat, s: seq<Byte>)
    ensures |s| < 2 ==> Parse(held, limit, s) == Short
    ensures |s| >= 2 && s[0] / 16 % 8 != 0 ==> Parse(held, limit, s) == Bad(CLOSE_PROTOCOL_ERROR)
    ensures |s| >= 2 && DeclaredBy(s[1], s[2..]).Length? ==> |s| >= 2 + Extended(s[1])
    ensures |s| >= 2 && s[0] / 16 % 8 == 0 ==> Parse(held, limit, s) == ParsedAs(held, limit, s, DeclaredBy(s[1], s[2..]))
  {
    if |s| >= 2 && |s| >= 2 + Extended(s[1]) {
      assert s[2..][..Extended(s[1])] == s[2..2 + Extended(s[1])];
      var at, n := 2 + Extended(s[1]), DeclaredLength(s);
      if |s| >= at + 4 + n {
        assert s[at..][..4] == s[at..at + 4];
        assert s[at..][4..][..n] == s[at + 4..at + 4 + n];
        assert s[at..][4..][n..] == s[at + 4 + n..];
      }
    }
  }
}
