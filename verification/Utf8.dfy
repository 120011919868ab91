/**
 UTF-8 as the relay reads it (ws_relay.go, websocket.go): which byte sequences are well-formed,
 and how a broken one is repaired.
 */
module Utf8 {
  type Byte = b: int | 0 <= b < 256

  // ---- what is well-formed (RFC 3629, sections 3 and 4) -------------------------------

  predicate Scalar(c: int) {
    0 <= c <= 0x10FFFF && !(0xD800 <= c <= 0xDFFF)
  }

  function EncodeScalar(c: int): (r: seq<Byte>)
    requires Scalar(c)
  {
    if c < 0x80 then [c]
    else if c < 0x800 then [0xC0 + c / 0x40, 0x80 + c % 0x40]
    else if c < 0x10000 then [0xE0 + c / 0x1000, 0x80 + c / 0x40 % 0x40, 0x80 + c % 0x40]
    else [0xF0 + c / 0x40000, 0x80 + c / 0x1000 % 0x40, 0x80 + c / 0x40 % 0x40, 0x80 + c % 0x40]
  }

  ghost predicate IsChar(s: seq<Byte>) {
    exists c :: Scalar(c) && s == EncodeScalar(c)
  }

  /** The first bytes of some character, or all of them. */
  ghost predicate Begins(s: seq<Byte>) {
    exists c :: Scalar(c) && s <= EncodeScalar(c)
  }

  ghost predicate WellFormed(s: seq<Byte>) {
    s == [] || exists n :: 1 <= n <= |s| && IsChar(s[..n]) && WellFormed(s[n..])
  }

  // ---- the table the decoder goes by ---------------------------------------------------

  /** How many bytes follow a lead byte; none follows what is no lead. */
  function Need(c: Byte): nat {
    if 0xC2 <= c <= 0xDF then 1
    else if 0xE0 <= c <= 0xEF then 2
    else if 0xF0 <= c <= 0xF4 then 3
    else 0
  }

  predicate Lead(c: Byte) {
    c < 0x80 || Need(c) > 0
  }

  function Lo(c: Byte): Byte {
    if c == 0xE0 then 0xA0 else if c == 0xF0 then 0x90 else 0x80
  }

  function Hi(c: Byte): Byte {
    if c == 0xED then 0x9F else if c == 0xF4 then 0x8F else 0xBF
  }

  /** Byte `j` of a character that starts with `c`. */
  predicate Follows(c: Byte, j: nat, b: Byte) {
    if j == 1 then Lo(c) <= b <= Hi(c) else 0x80 <= b <= 0xBF
  }

  predicate Shaped(s: seq<Byte>) {
    s != [] && Lead(s[0]) && |s| <= Need(s[0]) + 1 && forall j :: 1 <= j < |s| ==> Follows(s[0], j, s[j])
  }

  predicate Whole(s: seq<Byte>) {
    Shaped(s) && |s| == Need(s[0]) + 1
  }

  lemma EncodedIsWhole(c: int)
    requires Scalar(c)
    ensures Whole(EncodeScalar(c))
  {
    if 0x80 <= c < 0x800 {
      assert 2 <= c / 0x40 < 0x20;
    } else if 0x800 <= c < 0x10000 {
      EncodedThree(c);
    } else if 0x10000 <= c {
      EncodedFour(c);
    }
  }

  lemma EncodedThree(c: int)
    requires Scalar(c) && 0x800 <= c < 0x10000
    ensures var lead: Byte, next: Byte, last: Byte := 0xE0 + c / 0x1000, 0x80 + c / 0x40 % 0x40, 0x80 + c % 0x40;
            Whole([lead, next, last])
  {
    var lead: Byte := 0xE0 + c / 0x1000;
    assert c / 0x40 == 0x40 * (c / 0x1000) + c / 0x40 % 0x40;
    assert Follows(lead, 1, 0x80 + c / 0x40 % 0x40) && Follows(lead, 2, 0x80 + c % 0x40);
  }

  lemma EncodedFour(c: int)
    requires Scalar(c) && 0x10000 <= c
    ensures var lead: Byte, next: Byte, third: Byte, last: Byte
              := 0xF0 + c / 0x40000, 0x80 + c / 0x1000 % 0x40, 0x80 + c / 0x40 % 0x40, 0x80 + c % 0x40;
            Whole([lead, next, third, last])
  {
    var lead: Byte := 0xF0 + c / 0x40000;
    assert c / 0x1000 == 0x40 * (c / 0x40000) + c / 0x1000 % 0x40;
    assert Follows(lead, 1, 0x80 + c / 0x1000 % 0x40);
    assert Follows(lead, 2, 0x80 + c / 0x40 % 0x40) && Follows(lead, 3, 0x80 + c % 0x40);
  }

  function Tail(b: Byte): int {
    b as int - 0x80
  }

  lemma EncodesTwo(a: Byte, b: Byte)
    requires Whole([a, b])
    ensures IsChar([a, b])
  {
    assert Follows(a, 1, [a, b][1]);
    var c := (a as int - 0xC0) * 0x40 + Tail(b);
    assert c / 0x40 == a as int - 0xC0 && c % 0x40 == Tail(b);
    assert Scalar(c) && EncodeScalar(c) == [a, b];
  }

  lemma EncodesThree(a: Byte, b: Byte, c: Byte)
    requires Whole([a, b, c])
    ensures IsChar([a, b, c])
  {
    assert Follows(a, 1, [a, b, c][1]) && Follows(a, 2, [a, b, c][2]);
    var high := (a as int - 0xE0) * 0x40 + Tail(b);
    var v := high * 0x40 + Tail(c);
    assert v / 0x40 == high && v % 0x40 == Tail(c) && high % 0x40 == Tail(b);
    assert v / 0x1000 == a as int - 0xE0;
    assert Scalar(v) && EncodeScalar(v) == [a, b, c];
  }

  lemma EncodesFour(a: Byte, b: Byte, c: Byte, d: Byte)
    requires Whole([a, b, c, d])
    ensures IsChar([a, b, c, d])
  {
    assert Follows(a, 1, [a, b, c, d][1]) && Follows(a, 2, [a, b, c, d][2]) && Follows(a, 3, [a, b, c, d][3]);
    var higher := (a as int - 0xF0) * 0x40 + Tail(b);
    var high := higher * 0x40 + Tail(c);
    var v := high * 0x40 + Tail(d);
    assert v / 0x40 == high && v % 0x40 == Tail(d) && high % 0x40 == Tail(c) && higher % 0x40 == Tail(b);
    assert v / 0x1000 == higher && v / 0x40000 == a as int - 0xF0;
    assert Scalar(v) && EncodeScalar(v) == [a, b, c, d];
  }

  lemma WholeIsEncoded(s: seq<Byte>)
    requires Whole(s)
    ensures IsChar(s)
  {
    hide IsChar;
    if |s| == 1 {
      OneIsChar(s[0]);
      assert s == [s[0]];
    } else if |s| == 2 {
      assert s == [s[0], s[1]];
      EncodesTwo(s[0], s[1]);
    } else if |s| == 3 {
      assert s == [s[0], s[1], s[2]];
      EncodesThree(s[0], s[1], s[2]);
    } else {
      assert s == [s[0], s[1], s[2], s[3]];
      EncodesFour(s[0], s[1], s[2], s[3]);
    }
  }

  lemma OneIsChar(a: Byte)
    requires a < 0x80
    ensures IsChar([a])
  {
    assert EncodeScalar(a) == [a];
  }

  lemma CharIsWhole(s: seq<Byte>)
    ensures IsChar(s) <==> Whole(s)
  {
    if IsChar(s) {
      var c :| Scalar(c) && s == EncodeScalar(c);
      EncodedIsWhole(c);
    } else if Whole(s) {
      WholeIsEncoded(s);
    }
  }

  /** A shaped sequence is the beginning of a character. */
  lemma {:induction false} ShapedBegins(s: seq<Byte>)
    requires Shaped(s)
    ensures exists whole :: Whole(whole) && s <= whole
    decreases 4 - |s|
  {
    if |s| < Need(s[0]) + 1 {
      var next: Byte := if |s| == 1 then Lo(s[0]) else 0x80;
      ShapedBegins(s + [next]);
      var whole :| Whole(whole) && s + [next] <= whole;
      assert s <= whole;
    } else {
      assert Whole(s) && s <= s;
    }
  }

  lemma BeginsIsShaped(s: seq<Byte>)
    requires s != []
    ensures Begins(s) <==> Shaped(s)
  {
    if Begins(s) {
      var c :| Scalar(c) && s <= EncodeScalar(c);
      EncodedIsWhole(c);
      assert forall j :: 0 <= j < |s| ==> s[j] == EncodeScalar(c)[j];
    } else if Shaped(s) {
      ShapedBegins(s);
      var whole :| Whole(whole) && s <= whole;
      WholeIsEncoded(whole);
    }
  }

  // ---- the repair -----------------------------------------------------------------------

  const REPLACEMENT: seq<Byte> := [0xEF, 0xBF, 0xBD]    // U+FFFD

  /**
   The bytes one step of a decoder consumes (section 3.9 of the Unicode Standard): the longest
   beginning of a character, or one byte that begins none.
   */
  ghost predicate IsSubpart(s: seq<Byte>, n: nat) {
    && 1 <= n <= |s|
    && (n == 1 || Begins(s[..n]))
    && forall more :: n < more <= |s| ==> !Begins(s[..more])
  }

  lemma OneSubpart(s: seq<Byte>, n: nat, m: nat)
    requires IsSubpart(s, n) && IsSubpart(s, m)
    ensures n == m
  {
  }

  lemma SomeSubpart(s: seq<Byte>)
    requires s != []
    ensures exists n :: IsSubpart(s, n)
  {
    var n := |s|;
    while n > 1 && !Begins(s[..n])
      invariant 1 <= n <= |s|
      invariant forall more :: n < more <= |s| ==> !Begins(s[..more])
    {
      n := n - 1;
    }
    assert IsSubpart(s, n);
  }

  /** The repair: a subpart that is a character stays, any other becomes one U+FFFD. */
  ghost function Repair(s: seq<Byte>): seq<Byte> {
    if s == [] then []
    else
      SomeSubpart(s);
      var n: nat :| IsSubpart(s, n);
      (if IsChar(s[..n]) then s[..n] else REPLACEMENT) + Repair(s[n..])
  }

  lemma RepairNext(s: seq<Byte>, n: nat)
    requires s != [] && IsSubpart(s, n)
    ensures Repair(s) == (if IsChar(s[..n]) then s[..n] else REPLACEMENT) + Repair(s[n..])
  {
    var m: nat :| IsSubpart(s, m) && Repair(s) == (if IsChar(s[..m]) then s[..m] else REPLACEMENT) + Repair(s[m..]);
    OneSubpart(s, n, m);
  }

  /** A shaped run that cannot be longer is a subpart. */
  lemma ShapedIsSubpart(s: seq<Byte>, n: nat)
    requires 1 <= n <= |s| && Shaped(s[..n])
    requires n == Need(s[0]) + 1 || n == |s| || !Follows(s[0], n, s[n])
    ensures IsSubpart(s, n) && (IsChar(s[..n]) <==> n == Need(s[0]) + 1)
  {
    BeginsIsShaped(s[..n]);
    CharIsWhole(s[..n]);
    forall more | n < more <= |s| ensures !Begins(s[..more]) {
      BeginsIsShaped(s[..more]);
      assert s[..more][n] == s[n];
    }
  }

  lemma NoLeadIsSubpart(s: seq<Byte>)
    requires s != [] && !Lead(s[0])
    ensures IsSubpart(s, 1) && !IsChar(s[..1])
  {
    CharIsWhole(s[..1]);
    forall more | 1 < more <= |s| ensures !Begins(s[..more]) {
      BeginsIsShaped(s[..more]);
    }
  }

  method DecodeUtf8(b: seq<Byte>) returns (out: seq<Byte>)
    ensures out == Repair(b)
  {
    hide IsSubpart, IsChar, Repair, Begins;
    out := [];
    var i := 0;
    RepairNothing();
    assert b[0..] == b;
    while i < |b|
      invariant 0 <= i <= |b| && Repair(b) == out + Repair(b[i..])
    {
      var c := b[i];
      ghost var s := b[i..];
      var need, lo: Byte, hi: Byte := 0, 0x80, 0xBF;
      var valid := true;
      if c < 0x80 {
        need := 0;
      } else if 0xC2 <= c <= 0xDF {
        need := 1;
      } else if c == 0xE0 {
        need, lo := 2, 0xA0;
      } else if c == 0xED {
        need, hi := 2, 0x9F;
      } else if 0xE1 <= c <= 0xEF {
        need := 2;
      } else if c == 0xF0 {
        need, lo := 3, 0x90;
      } else if c == 0xF4 {
        need, hi := 3, 0x8F;
      } else if 0xF1 <= c <= 0xF3 {
        need := 3;
      } else {
        valid := false;
      }
      if !valid {
        NoLeadIsSubpart(s);
        Continues(b, out, i, 1, REPLACEMENT);
        out := out + REPLACEMENT;
        i := i + 1;
        continue;
      }
      var j := i + 1;
      for k := 0 to need
        invariant j == i + 1 + k && j <= |b|
        invariant Shaped(b[i..j])
        invariant if k == 0 then lo == Lo(c) && hi == Hi(c) else lo == 0x80 && hi == 0xBF
      {
        if j >= |b| || b[j] < lo || b[j] > hi {
          break;
        }
        assert b[i..j + 1] == b[i..j] + [b[j]];
        lo, hi := 0x80, 0xBF;
        j := j + 1;
      }
      assert s[..j - i] == b[i..j];
      ShapedIsSubpart(s, j - i);
      if j - i == need + 1 {
        Continues(b, out, i, j - i, b[i..j]);
        out := out + b[i..j];
      } else {
        Continues(b, out, i, j - i, REPLACEMENT);
        out := out + REPLACEMENT;
      }
      i := j;
    }
    assert b[i..] == [];
    assert out + [] == out;
  }

  lemma RepairNothing()
    ensures Repair([]) == []
  {
  }

  lemma Continues(b: seq<Byte>, out: seq<Byte>, i: nat, n: nat, part: seq<Byte>)
    requires i < |b| && IsSubpart(b[i..], n) && Repair(b) == out + Repair(b[i..])
    requires part == if IsChar(b[i..][..n]) then b[i..][..n] else REPLACEMENT
    ensures i + n <= |b| && Repair(b) == (out + part) + Repair(b[i + n..])
  {
    hide IsChar, Begins, Repair, IsSubpart;
    SubpartFits(b[i..], n);
    RepairNext(b[i..], n);
    assert b[i..][n..] == b[i + n..];
    Associates(out, part, Repair(b[i + n..]));
  }

  lemma SubpartFits(s: seq<Byte>, n: nat)
    requires IsSubpart(s, n)
    ensures 1 <= n <= |s|
  {
  }

  lemma Associates(a: seq<Byte>, b: seq<Byte>, c: seq<Byte>)
    ensures (a + b) + c == a + (b + c)
  {
  }

  // ---- what the repair is for -----------------------------------------------------------

  lemma WellFormedPrepend(s: seq<Byte>, rest: seq<Byte>)
    requires IsChar(s) && WellFormed(rest)
    ensures WellFormed(s + rest)
  {
    CharIsWhole(s);
    assert (s + rest)[..|s|] == s && (s + rest)[|s|..] == rest;
  }

  /** The result is well-formed, whatever came in. */
  lemma {:induction false} RepairIsWellFormed(s: seq<Byte>)
    ensures WellFormed(Repair(s))
    decreases |s|
  {
    if s != [] {
      SomeSubpart(s);
      var n: nat :| IsSubpart(s, n);
      RepairNext(s, n);
      RepairIsWellFormed(s[n..]);
      assert EncodeScalar(0xFFFD) == REPLACEMENT;
      WellFormedPrepend(if IsChar(s[..n]) then s[..n] else REPLACEMENT, Repair(s[n..]));
    }
  }

  lemma CharIsSubpart(s: seq<Byte>, n: nat)
    requires 1 <= n <= |s| && IsChar(s[..n])
    ensures IsSubpart(s, n)
  {
    CharIsWhole(s[..n]);
    ShapedIsSubpart(s, n);
  }

  /** Only a broken sequence is changed. */
  lemma {:induction false} RepairKeepsWellFormed(s: seq<Byte>)
    ensures Repair(s) == s <==> WellFormed(s)
    decreases |s|
  {
    if Repair(s) == s {
      RepairIsWellFormed(s);
    } else if WellFormed(s) {
      WellFormedIsKept(s);
    }
  }

  lemma FirstChar(s: seq<Byte>) returns (n: nat)
    requires WellFormed(s) && s != []
    ensures 1 <= n <= |s| && IsChar(s[..n]) && WellFormed(s[n..])
  {
    n :| 1 <= n <= |s| && IsChar(s[..n]) && WellFormed(s[n..]);
  }

  lemma {:induction false} WellFormedIsKept(s: seq<Byte>)
    requires WellFormed(s)
    ensures Repair(s) == s
  {
    hide WellFormed, IsChar, Begins, IsSubpart, Repair;
    if s == [] {
      RepairNothing();
    } else {
      var n := FirstChar(s);
      CharIsSubpart(s, n);
      RepairNext(s, n);
      WellFormedIsKept(s[n..]);
      assert s == s[..n] + s[n..];
    }
  }

  /** What is before a broken sequence is not touched by it. */
  lemma {:induction false} RepairIsLocal(a: seq<Byte>, b: seq<Byte>)
    requires WellFormed(a)
    ensures Repair(a + b) == a + Repair(b)
  {
    hide WellFormed, IsChar, Begins, IsSubpart, Repair;
    if a == [] {
      assert a + b == b;
    } else {
      var n := FirstChar(a);
      assert (a + b)[..n] == a[..n] && (a + b)[n..] == a[n..] + b;
      CharIsSubpart(a + b, n);
      RepairNext(a + b, n);
      RepairIsLocal(a[n..], b);
      assert a == a[..n] + a[n..];
      assert a[..n] + (a[n..] + Repair(b)) == a + Repair(b);
    }
  }

  /** Whether a text is well-formed, as a reader decides it: character by character. */
  predicate Valid(s: seq<Byte>) {
    s == [] || (Need(s[0]) < |s| && Whole(s[..Need(s[0]) + 1]) && Valid(s[Need(s[0]) + 1..]))
  }

  lemma {:induction false} ValidIsWellFormed(s: seq<Byte>)
    ensures Valid(s) <==> WellFormed(s)
    decreases |s|
  {
    hide IsChar;
    if s != [] && Need(s[0]) < |s| {
      var n := Need(s[0]) + 1;
      CharIsWhole(s[..n]);
      ValidIsWellFormed(s[n..]);
    }
    if s != [] && WellFormed(s) {
      var n := FirstChar(s);
      CharIsWhole(s[..n]);
      assert n == Need(s[0]) + 1;
    }
  }
}
