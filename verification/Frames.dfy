/**
 The frames of RFC 6455 as websocket.go reads and writes them: what a client's frame is in bytes,
 what a server's is, and how messages are put together from fragments.
 */
module Frames {
  import opened Utf8

  const OP_CONTINUATION := 0
  const OP_TEXT := 1
  const OP_BINARY := 2
  const OP_CLOSE := 8
  const OP_PING := 9
  const OP_PONG := 10

  const CLOSE_PROTOCOL_ERROR := 1002
  const CLOSE_NO_STATUS := 1005
  const CLOSE_INVALID_PAYLOAD := 1007
  const CLOSE_TOO_BIG := 1009

  const MAX_CONTROL := 125

  // ---- exclusive or, and masking (section 5.3) -------------------------------------------

  /** The lowest `n` bits of two numbers, bit by bit. */
  function XorBits(a: nat, b: nat, n: nat): nat {
    if n == 0 then 0 else 2 * XorBits(a / 2, b / 2, n - 1) + (a % 2 + b % 2) % 2
  }

  function Two(n: nat): nat {
    if n == 0 then 1 else 2 * Two(n - 1)
  }

  lemma {:induction false} XorFits(a: nat, b: nat, n: nat)
    ensures XorBits(a, b, n) < Two(n)
  {
    if n > 0 {
      XorFits(a / 2, b / 2, n - 1);
    }
  }

  lemma XorStep(a: nat, b: nat, n: nat)
    requires n > 0
    ensures XorBits(a, b, n) / 2 == XorBits(a / 2, b / 2, n - 1) && XorBits(a, b, n) % 2 == (a % 2 + b % 2) % 2
  {
  }

  lemma {:induction false} XorTwice(a: nat, b: nat, n: nat)
    requires a < Two(n)
    ensures XorBits(XorBits(a, b, n), b, n) == a
  {
    hide XorBits;
    if n > 0 {
      Parity(a, b);
      XorStep(a, b, n);
      XorStep(XorBits(a, b, n), b, n);
      assert a / 2 < Two(n - 1);
      XorTwice(a / 2, b / 2, n - 1);
      Halves(XorBits(XorBits(a, b, n), b, n), a);
    } else {
      XorNone(a, b);
    }
  }

  lemma XorNone(a: nat, b: nat)
    ensures XorBits(XorBits(a, b, 0), b, 0) == 0
  {
  }

  lemma Parity(a: nat, b: nat)
    ensures ((a % 2 + b % 2) % 2 + b % 2) % 2 == a % 2
  {
  }

  lemma Halves(x: nat, y: nat)
    requires x / 2 == y / 2 && x % 2 == y % 2
    ensures x == y
  {
  }

  function Xor(a: Byte, b: Byte): Byte {
    XorFits(a, b, 8);
    assert Two(8) == 256;
    XorBits(a, b, 8)
  }

  type Key = k: seq<Byte> | |k| == 4 witness [0, 0, 0, 0]

  function Masked(payload: seq<Byte>, key: Key): (r: seq<Byte>)
    ensures |r| == |payload|
  {
    seq(|payload|, i requires 0 <= i < |payload| => Xor(payload[i], key[i % 4]))
  }

  lemma MaskedTwice(payload: seq<Byte>, key: Key)
    ensures Masked(Masked(payload, key), key) == payload
  {
    forall i | 0 <= i < |payload| ensures Masked(Masked(payload, key), key)[i] == payload[i] {
      assert Two(8) == 256;
      XorTwice(payload[i], key[i % 4], 8);
    }
  }

  // ---- numbers in network order -----------------------------------------------------------

  function BigEndian(n: nat, k: nat): (r: seq<Byte>)
    ensures |r| == k
  {
    if k == 0 then [] else BigEndian(n / 256, k - 1) + [n % 256]
  }

  function FromBigEndian(s: seq<Byte>): nat {
    if s == [] then 0 else FromBigEndian(s[..|s| - 1]) * 256 + s[|s| - 1]
  }

  function Bytes256(k: nat): nat {
    if k == 0 then 1 else 256 * Bytes256(k - 1)
  }

  lemma {:induction false} ReadsBigEndian(n: nat, k: nat)
    requires n < Bytes256(k)
    ensures FromBigEndian(BigEndian(n, k)) == n
  {
    if k > 0 {
      ReadsBigEndian(n / 256, k - 1);
      assert BigEndian(n, k)[..k - 1] == BigEndian(n / 256, k - 1);
    }
  }

  lemma {:induction false} WritesBigEndian(s: seq<Byte>)
    ensures BigEndian(FromBigEndian(s), |s|) == s && FromBigEndian(s) < Bytes256(|s|)
  {
    if s != [] {
      WritesBigEndian(s[..|s| - 1]);
      assert s == s[..|s| - 1] + [s[|s| - 1]];
    }
  }

  const TWO_63 := 0x8000_0000_0000_0000
  const TWO_64 := 0x1_0000_0000_0000_0000

  lemma Widths()
    ensures Bytes256(2) == 0x1_0000 && Bytes256(8) == TWO_64
  {
    assert Bytes256(2) == 256 * (256 * Bytes256(0));
    assert Bytes256(4) == 256 * (256 * Bytes256(2));
    assert Bytes256(6) == 256 * (256 * Bytes256(4));
    assert Bytes256(8) == 256 * (256 * Bytes256(6));
  }

  // ---- frames in bytes (section 5.2) -------------------------------------------------------

  datatype Frame = Frame(fin: bool, opcode: nat, payload: seq<Byte>)

  predicate Framed(f: Frame) {
    f.opcode < 16 && |f.payload| < TWO_63
  }

  /** The length as the least of its three forms that holds it; `bit` is the mask bit. */
  function LengthBytes(n: nat, bit: Byte): seq<Byte>
    requires n < TWO_63 && (bit == 0 || bit == 0x80)
  {
    if n < 126 then [bit + n]
    else if n <= 0xFFFF then [bit + 126] + BigEndian(n, 2)
    else [bit + 127] + BigEndian(n, 8)
  }

  function FirstByte(fin: bool, opcode: nat): Byte
    requires opcode < 16
  {
    (if fin then 0x80 else 0) + opcode
  }

  /** A client's frame: masked with a key of its own. */
  function ClientFrame(f: Frame, key: Key): seq<Byte>
    requires Framed(f)
  {
    [FirstByte(f.fin, f.opcode)] + LengthBytes(|f.payload|, 0x80) + key + Masked(f.payload, key)
  }

  // ---- one frame, read as the reader reads it ------------------------------------------------

  datatype Parsed = Short | Bad(code: nat) | Got(frame: Frame, key: Key, rest: seq<Byte>)

  function Extended(b: Byte): nat {
    if b % 128 == 126 then 2 else if b % 128 == 127 then 8 else 0
  }

  function DeclaredLength(head: seq<Byte>): nat
    requires |head| >= 2 && |head| >= 2 + Extended(head[1])
  {
    var ext := Extended(head[1]);
    if ext == 0 then head[1] % 128 else FromBigEndian(head[2..2 + ext])
  }

  /** The checks on a header, in the reader's order; 0 is a header that may be followed. */
  function HeadRefusal(head: seq<Byte>, held: nat, limit: nat): nat
    requires |head| >= 2 && |head| >= 2 + Extended(head[1])
  {
    var ext, length, opcode := Extended(head[1]), DeclaredLength(head), head[0] % 16;
    if ext == 2 && length < 126 then CLOSE_PROTOCOL_ERROR
    else if ext == 8 && (length >= TWO_63 || length <= 0xFFFF) then CLOSE_PROTOCOL_ERROR
    else if head[1] < 0x80 then CLOSE_PROTOCOL_ERROR
    else if opcode >= 8 && (head[0] < 0x80 || length > MAX_CONTROL) then CLOSE_PROTOCOL_ERROR
    else if opcode < 8 && (held + length) % TWO_64 > limit then CLOSE_TOO_BIG
    else 0
  }

  function Parse(held: nat, limit: nat, input: seq<Byte>): (p: Parsed)
    ensures p.Got? ==> |p.rest| < |input|
  {
    if |input| < 2 then Short
    else if input[0] / 16 % 8 != 0 then Bad(CLOSE_PROTOCOL_ERROR)
    else if |input| < 2 + Extended(input[1]) then Short
    else
      var at := 2 + Extended(input[1]);
      var length := DeclaredLength(input);
      var refusal := HeadRefusal(input, held, limit);
      if refusal != 0 then Bad(refusal)
      else if |input| < at + 4 then Short
      else if |input| < at + 4 + length then Short
      else
        var key: Key := input[at..at + 4];
        Got(Frame(input[0] >= 0x80, input[0] % 16, Masked(input[at + 4..at + 4 + length], key)), key,
            input[at + 4 + length..])
  }

  // ---- messages from frames (sections 5.4 and 5.5) -------------------------------------------

  datatype Message = Message(opcode: nat, payload: seq<Byte>)

  datatype Assembly = Assembly(fragmented: bool, opcode: nat, partial: seq<Byte>)

  const IDLE := Assembly(false, 0, [])

  datatype Taken = Emit(message: Message, next: Assembly) | Keep(next: Assembly) | Violates(code: nat)

  function Complete(opcode: nat, payload: seq<Byte>, next: Assembly): Taken {
    if opcode == OP_TEXT && !Valid(payload) then Violates(CLOSE_INVALID_PAYLOAD)
    else Emit(Message(opcode, payload), next)
  }

  function Take(a: Assembly, f: Frame): Taken {
    if f.opcode == OP_CLOSE || f.opcode == OP_PING || f.opcode == OP_PONG then
      Emit(Message(f.opcode, f.payload), a)
    else if f.opcode == OP_TEXT || f.opcode == OP_BINARY then
      if a.fragmented then Violates(CLOSE_PROTOCOL_ERROR)
      else if f.fin then Complete(f.opcode, f.payload, a)
      else Keep(Assembly(true, f.opcode, f.payload))
    else if f.opcode == OP_CONTINUATION then
      if !a.fragmented then Violates(CLOSE_PROTOCOL_ERROR)
      else if f.fin then Complete(a.opcode, a.partial + f.payload, IDLE)
      else Keep(a.(partial := a.partial + f.payload))
    else Violates(CLOSE_PROTOCOL_ERROR)
  }

  /** What one call of the reader comes back with: a read error says nothing of the peer. */
  datatype Read = Received(message: Message, next: Assembly, rest: seq<Byte>) | Refused(code: nat) | Failed

  function Next(a: Assembly, limit: nat, input: seq<Byte>): (r: Read)
    ensures r.Received? ==> |r.rest| < |input|
    decreases |input|
  {
    match Parse(|a.partial|, limit, input)
    case Short => Failed
    case Bad(code) => Refused(code)
    case Got(frame, _, rest) =>
      match Take(a, frame)
      case Violates(code) => Refused(code)
      case Emit(message, next) => Received(message, next, rest)
      case Keep(next) => Next(next, limit, rest)
  }
}
