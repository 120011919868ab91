/** Frames bit by bit, in the numbers of RFC 6455 (websocket.go): every header there is, and what becomes of it. */
module FrameBytes {
  import opened FrameReader
  import opened Frames
  import opened ServerFrames
  import opened Utf8

  // ---- every header ----------------------------------------------------------------------

  /** Section 5.2: the bits of a header. `form` is how many octets hold the length past the seven bits: none, 2 or 8. */
  datatype Head = Head(fin: bool, rsv: nat, opcode: nat, masked: bool, form: nat, length: nat)

  predicate Possible(h: Head) {
    && h.rsv < 8 && h.opcode < 16
    && ((h.form == 0 && h.length <= 125) || (h.form == 2 && h.length <= 65535) || (h.form == 8 && h.length <= 18446744073709551615))
  }

  function Octets(h: Head): seq<Byte>
    requires Possible(h)
  {
    [(if h.fin then 128 else 0) + 16 * h.rsv + h.opcode,
     (if h.masked then 128 else 0) + (if h.form == 0 then h.length else if h.form == 2 then 126 else 127)]
    + BigEndian(h.length, h.form)
  }

  /** Network order, in so many words. */
  lemma NetworkOrder(a: Byte, b: Byte, c: Byte, d: Byte, e: Byte, f: Byte, g: Byte, h: Byte)
    ensures FromBigEndian([a, b]) == 256 * a + b
    ensures FromBigEndian([a, b, c, d, e, f, g, h]) ==
            72057594037927936 * a + 281474976710656 * b + 1099511627776 * c + 4294967296 * d
            + 16777216 * e + 65536 * f + 256 * g + h
  {
    hide FromBigEndian;
    Front([], a);
    Front([a], b);
    Front([a, b], c);
    Front([a, b, c], d);
    Front([a, b, c, d], e);
    Front([a, b, c, d, e], f);
    Front([a, b, c, d, e, f], g);
    Front([a, b, c, d, e, f, g], h);
    assert [] + [a] == [a] && [a] + [b] == [a, b] && [a, b] + [c] == [a, b, c] && [a, b, c] + [d] == [a, b, c, d];
    assert [a, b, c, d] + [e] == [a, b, c, d, e] && [a, b, c, d, e] + [f] == [a, b, c, d, e, f];
    assert [a, b, c, d, e, f] + [g] == [a, b, c, d, e, f, g] && [a, b, c, d, e, f, g] + [h] == [a, b, c, d, e, f, g, h];
  }

  lemma Front(s: seq<Byte>, b: Byte)
    ensures FromBigEndian(s + [b]) == 256 * FromBigEndian(s) + b
    ensures FromBigEndian([]) == 0
  {
    assert (s + [b])[..|s|] == s;
  }

  lemma OctetParts(b: Byte)
    ensures b == (if b >= 128 then 128 else 0) + 16 * (b / 16 % 8) + b % 16 && b / 16 % 8 < 8
    ensures b == (if b >= 128 then 128 else 0) + b % 128
  {
  }

  /** Whatever bytes begin a stream, they are a header of one of these, or too few. */
  lemma EveryHeader(s: seq<Byte>) returns (h: Head)
    requires |s| >= 2 && |s| >= 2 + Extended(s[1])
    ensures Possible(h) && s[..2 + Extended(s[1])] == Octets(h) && h.form == Extended(s[1])
  {
    var form := Extended(s[1]);
    var field := s[2..2 + form];
    WritesBigEndian(field);
    Widths();
    h := Head(s[0] >= 128, s[0] / 16 % 8, s[0] % 16, s[1] >= 128, form, if form == 0 then s[1] % 128 else FromBigEndian(field));
    hide FromBigEndian, BigEndian;
    OctetParts(s[0]);
    OctetParts(s[1]);
    assert form == 0 ==> field == [];
    NoOctets(h.length);
    assert s[..2 + form] == [s[0], s[1]] + field;
  }

  lemma NoOctets(n: nat)
    ensures BigEndian(n, 0) == []
  {
  }

  /** The least of the three forms, and below 2^63: the length has one spelling. */
  predicate Least(h: Head) {
    && (h.form == 2 ==> h.length >= 126)
    && (h.form == 8 ==> 65536 <= h.length < 9223372036854775808)
  }

  /** A control frame is whole and short. */
  predicate ControlFits(h: Head) {
    h.opcode >= 8 ==> h.fin && h.length <= 125
  }

  lemma FormHolds(h: Head)
    requires Possible(h)
    ensures h.length < Bytes256(h.form) || h.form == 0
    ensures h.form == 0 ==> BigEndian(h.length, h.form) == []
  {
    Widths();
  }

  lemma FirstOctets(h: Head, more: seq<Byte>)
    requires Possible(h)
    ensures var s := Octets(h) + more;
            && |s| >= 2 && (s[0] >= 128 <==> h.fin) && s[0] / 16 % 8 == h.rsv && s[0] % 16 == h.opcode && (s[1] >= 128 <==> h.masked)
            && Extended(s[1]) == h.form && (h.form == 0 ==> s[1] % 128 == h.length)
            && s[2..] == BigEndian(h.length, h.form) + more && s[2 + h.form..] == more
  {
    hide BigEndian;
    var s := Octets(h) + more;
    assert s == [s[0], s[1]] + (BigEndian(h.length, h.form) + more);
  }

  lemma LengthRead(h: Head, b: Byte, more: seq<Byte>)
    requires Possible(h) && Extended(b) == h.form && (h.form == 0 ==> b % 128 == h.length)
    ensures DeclaredBy(b, BigEndian(h.length, h.form) + more) == if Least(h) then Length(h.length) else BadLength
  {
    FormHolds(h);
    Widths();
    hide FromBigEndian, BigEndian, Extended;
    if h.form != 0 {
      ReadsBigEndian(h.length, h.form);
      assert (BigEndian(h.length, h.form) + more)[..h.form] == BigEndian(h.length, h.form);
    }
  }

  lemma OctetsRead(h: Head, more: seq<Byte>)
    requires Possible(h)
    ensures var s := Octets(h) + more;
            && |s| >= 2 && (s[0] >= 128 <==> h.fin) && s[0] / 16 % 8 == h.rsv && s[0] % 16 == h.opcode && (s[1] >= 128 <==> h.masked)
            && Extended(s[1]) == h.form && s[2 + h.form..] == more
            && DeclaredBy(s[1], s[2..]) == if Least(h) then Length(h.length) else BadLength
  {
    hide Octets, BigEndian, DeclaredBy, Extended, Possible;
    FirstOctets(h, more);
    LengthRead(h, (Octets(h) + more)[1], more);
  }

  /**
   What becomes of a header, of a message that already holds `held` bytes: 1002 for a reserved bit, no
   mask, a length not in its least form, a control frame that is cut or over 125; 1009 for data past the
   limit; and otherwise the frame, unmasked, once its key and payload have come.
   */
  lemma HeaderIsJudged(h: Head, more: seq<Byte>, held: nat, limit: nat)
    requires Possible(h) && held <= limit < 9223372036854775808
    ensures var p := Parse(held, limit, Octets(h) + more);
            if h.rsv != 0 || !h.masked || !Least(h) || !ControlFits(h) then p == Bad(1002)
            else if h.opcode < 8 && held + h.length > limit then p == Bad(1009)
            else if |more| < 4 + h.length then p == Short
            else
              p == Parsed.Got(Frame(h.fin, h.opcode, Masked(more[4..4 + h.length], more[..4])), more[..4], more[4 + h.length..])
  {
    var s := Octets(h) + more;
    OctetsRead(h, more);
    ParseInSteps(held, limit, s);
    hide Octets, Parse, DeclaredBy, Masked, Possible, Extended;
    if h.rsv == 0 && Least(h) {
      SumIsExact(held, limit, h.length);
      if |more| >= 4 + h.length {
        assert more[4..][..h.length] == more[4..4 + h.length] && more[4..][h.length..] == more[4 + h.length..];
      }
    }
  }

  /** Short of a whole header, nothing but a reserved bit is judged. */
  lemma HeaderIsAwaited(s: seq<Byte>, held: nat, limit: nat)
    requires |s| < 2 || |s| < 2 + (if s[1] % 128 == 126 then 2 else if s[1] % 128 == 127 then 8 else 0)
    ensures Parse(held, limit, s) == if |s| >= 2 && s[0] / 16 % 8 != 0 then Bad(1002) else Short
  {
  }

  // ---- the mask, bit by bit -------------------------------------------------------------------

  function Bit(n: nat, k: nat): nat {
    if k == 0 then n % 2 else Bit(n / 2, k - 1)
  }

  lemma {:induction false} XorBit(a: nat, b: nat, n: nat, k: nat)
    requires k < n
    ensures Bit(XorBits(a, b, n), k) == if Bit(a, k) == Bit(b, k) then 0 else 1
  {
    Doubled(XorBits(a / 2, b / 2, n - 1), (a % 2 + b % 2) % 2);
    if k > 0 {
      XorBit(a / 2, b / 2, n - 1, k - 1);
    }
  }

  lemma Doubled(x: nat, r: nat)
    requires r < 2
    ensures (2 * x + r) / 2 == x && (2 * x + r) % 2 == r
  {
  }

  /** Section 5.3: every bit of every octet, against the key's octet at its place modulo four. */
  lemma MaskIsXor(payload: seq<Byte>, key: Key, i: nat, k: nat)
    requires i < |payload| && k < 8
    ensures Bit(Masked(payload, key)[i], k) == if Bit(payload[i], k) == Bit(key[i % 4], k) then 0 else 1
  {
    XorBit(payload[i], key[i % 4], 8, k);
  }

  /** The unmasked examples of section 5.7: "Hello", 256 octets, 65536 octets. */
  lemma ExamplesAreWritten(payload: seq<Byte>)
    ensures ServerFrame(1, [0x48, 0x65, 0x6C, 0x6C, 0x6F]) == [0x81, 0x05, 0x48, 0x65, 0x6C, 0x6C, 0x6F]
    ensures |payload| == 256 ==> ServerFrame(2, payload) == [0x82, 0x7E, 0x01, 0x00] + payload
    ensures |payload| == 65536 ==> ServerFrame(2, payload) == [0x82, 0x7F, 0, 0, 0, 0, 0, 1, 0, 0] + payload
  {
    if |payload| == 256 {
      TwoOctets();
    }
    if |payload| == 65536 {
      EightOctets();
    }
  }

  lemma TwoOctets()
    ensures BigEndian(256, 2) == [1, 0]
  {
    NetworkOrder(1, 0, 0, 0, 0, 0, 0, 0);
    WritesBigEndian([1, 0]);
  }

  lemma EightOctets()
    ensures BigEndian(65536, 8) == [0, 0, 0, 0, 0, 1, 0, 0]
  {
    NetworkOrder(0, 0, 0, 0, 0, 1, 0, 0);
    WritesBigEndian([0, 0, 0, 0, 0, 1, 0, 0]);
  }

  // ---- fragments, by opcode --------------------------------------------------------------------

  /**
   Sections 5.4 to 5.6, by their numbers: close, ping and pong are messages of their own and leave a
   message in hand alone; text and binary begin one, and may not while one is in hand; a continuation
   goes on with one, and may not without. A whole text is UTF-8 or refused with 1007; all else is 1002.
   */
  lemma FrameIsTaken(a: Assembly, f: Frame)
    requires f.opcode < 16
    ensures f.opcode in {8, 9, 10} ==> Take(a, f) == Emit(Message(f.opcode, f.payload), a)
    ensures f.opcode in {3, 4, 5, 6, 7, 11, 12, 13, 14, 15} ==> Take(a, f) == Violates(1002)
    ensures f.opcode in {1, 2} && a.fragmented ==> Take(a, f) == Violates(1002)
    ensures f.opcode in {1, 2} && !a.fragmented && !f.fin ==> Take(a, f) == Keep(Assembly(true, f.opcode, f.payload))
    ensures f.opcode in {1, 2} && !a.fragmented && f.fin ==>
              Take(a, f) == if f.opcode == 1 && !WellFormed(f.payload) then Violates(1007) else Emit(Message(f.opcode, f.payload), a)
    ensures f.opcode == 0 && !a.fragmented ==> Take(a, f) == Violates(1002)
    ensures f.opcode == 0 && a.fragmented && !f.fin ==> Take(a, f) == Keep(Assembly(true, a.opcode, a.partial + f.payload))
    ensures f.opcode == 0 && a.fragmented && f.fin ==>
              Take(a, f) == if a.opcode == 1 && !WellFormed(a.partial + f.payload) then Violates(1007)
                            else Emit(Message(a.opcode, a.partial + f.payload), Assembly(false, 0, []))
  {
    hide Valid, WellFormed;
    ValidIsWellFormed(f.payload);
    ValidIsWellFormed(a.partial + f.payload);
  }

  // ---- closing, by code ---------------------------------------------------------------------------

  /** Section 7.4 and its registry: the codes an endpoint may send. */
  predicate Registered(code: nat) {
    code in {1000, 1001, 1002, 1003, 1007, 1008, 1009, 1010, 1011, 1012, 1013, 1014} || 3000 <= code <= 4999
  }

  /** What a close frame is answered with: 1005 for none, 1002 for half a code or one not registered, 1007 for a reason that is no text. */
  lemma CloseIsRead(payload: seq<Byte>)
    ensures payload == [] ==> CloseCode(payload) == Status(1005)
    ensures |payload| == 1 ==> CloseCode(payload) == Violation(1002)
    ensures |payload| >= 2 ==>
              var code: nat := 256 * (payload[0] as int) + payload[1];
              CloseCode(payload) ==
              if !Registered(code) then Violation(1002) else if !WellFormed(payload[2..]) then Violation(1007) else Status(code)
  {
    hide Valid, WellFormed;
    if |payload| >= 2 {
      assert payload[..2] == [payload[0], payload[1]];
      NetworkOrder(payload[0], payload[1], 0, 0, 0, 0, 0, 0);
      ValidIsWellFormed(payload[2..]);
    }
  }

  /** A close frame that is written: its reason whole up to 123 bytes, and of a longer text at least 120 of them. */
  lemma ReasonFits(reason: seq<Byte>, cut: nat)
    requires CutAt(reason, cut)
    ensures cut <= |reason| && cut <= 123
    ensures |reason| <= 123 ==> cut == |reason|
    ensures |reason| > 123 && WellFormed(reason) ==> 120 <= cut
  {
    if |reason| > 123 && WellFormed(reason) {
      ReasonIsReadable(reason, cut);
    }
  }

  /** U+FFFD, as the repair writes it. */
  lemma ReplacementIs()
    ensures REPLACEMENT == EncodeScalar(0xFFFD) && IsChar(REPLACEMENT)
  {
    assert Scalar(0xFFFD);
  }
}
