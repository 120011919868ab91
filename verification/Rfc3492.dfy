/** Sections 5, 6.1 and 6.3 of RFC 3492 in their own numbers, and the source's decoder (env_app.go) against them. */
module Rfc3492 {
  import opened Arith
  import opened Punycode
  import opened PunycodeRoundTrip
  import opened Wrappers

  // ---- the encoder, in the numbers of section 5 ----------------------------------------

  const DIGITS := "abcdefghijklmnopqrstuvwxyz0123456789"

  /** Section 6.3: the threshold of the digit at `k`, clamped to 1 and 26. */
  function Clamp(k: int, bias: int): (t: int)
    ensures 1 <= t <= 26
  {
    if k <= bias + 1 then 1 else if k >= bias + 26 then 26 else k - bias
  }

  function Letters(q: nat, k: nat, bias: nat): (s: seq<char>)
    decreases q
  {
    var t := Clamp(k, bias);
    if q < t then [DIGITS[q]]
    else
      DivMod(q - t, 36 - t);
      [DIGITS[t + (q - t) % (36 - t)]] + Letters((q - t) / (36 - t), k + 36, bias)
  }

  function Divided(delta: nat, k: nat): nat {
    if delta > (36 - 1) * 26 / 2 then Divided(delta / (36 - 1), k + 36) else k + 36 * delta / (delta + 38)
  }

  /** Section 6.1: the bias after a delta. */
  function BiasAfter(delta: nat, points: nat, first: bool): nat
    requires points > 0
  {
    var halved := if first then delta / 700 else delta / 2;
    Divided(halved + PerPoint(halved, points), 0)
  }

  function Basics(codes: seq<Rune>): (s: seq<char>) {
    if codes == [] then []
    else (if codes[0] < 0x80 then [codes[0] as char] else []) + Basics(codes[1..])
  }

  datatype Sweep = Sweep(text: seq<char>, delta: nat, bias: nat, h: nat)

  /** The inner loop: every code point below `n` counts, every one equal to it is written. */
  function Swept(codes: seq<Rune>, n: nat, delta: nat, bias: nat, h: nat, b: nat): Sweep {
    if codes == [] then Sweep([], delta, bias, h)
    else if codes[0] < n then Swept(codes[1..], n, delta + 1, bias, h, b)
    else if codes[0] > n then Swept(codes[1..], n, delta, bias, h, b)
    else
      var rest := Swept(codes[1..], n, 0, BiasAfter(delta, h + 1, h == b), h + 1, b);
      rest.(text := Letters(delta, 36, bias) + rest.text)
  }

  /** The outer loop: the next code point not handled, until there is none. */
  function Sweeps(codes: seq<Rune>, n: nat, delta: nat, bias: nat, h: nat, b: nat): seq<char>
    requires n <= 0x110000
    decreases 0x110000 - n
  {
    match NextCodePoint(codes, n)
    case None => []
    case Some(m) =>
      var e := Swept(codes, m, delta + (m - n) * (h + 1), bias, h, b);
      e.text + Sweeps(codes, m + 1, e.delta + 1, e.bias, e.h, b)
  }

  /** Section 6.3, from its start: 128, 0 and 72. */
  function RfcEncode(codes: seq<Rune>): seq<char> {
    var basics := Basics(codes);
    (if basics == [] then [] else basics + ['-']) + Sweeps(codes, 128, 0, 72, |basics|, |basics|)
  }

  // ---- it is the one the round trip is about -------------------------------------------------

  lemma ThresholdIs(k: int, bias: int)
    ensures Threshold(k, bias) == Clamp(k, bias)
  {
  }

  lemma DigitIs(d: nat)
    requires d < 36
    ensures CharOf(d) == DIGITS[d] && DigitOf(DIGITS[d]) == Some(d)
  {
    assert DIGITS[0] == 'a' && DIGITS[25] == 'z' && DIGITS[26] == '0' && DIGITS[35] == '9';
    assert forall j :: 0 <= j < 26 ==> DIGITS[j] as int == 97 + j;
    assert forall j :: 26 <= j < 36 ==> DIGITS[j] as int == 48 + j - 26;
  }

  lemma {:induction false} LettersAre(q: nat, k: nat, bias: nat)
    ensures WriteVarInt(q, k, bias) == Letters(q, k, bias)
    decreases q
  {
    hide DIGITS, CharOf, Clamp, Threshold;
    ThresholdIs(k, bias);
    var t := Clamp(k, bias);
    if q < t {
      DigitIs(q);
    } else {
      DivMod(q - t, 36 - t);
      DigitIs(t + (q - t) % (36 - t));
      LettersAre((q - t) / (36 - t), k + 36, bias);
    }
  }

  lemma {:induction false} DividedIs(delta: nat, k: nat)
    ensures AdaptLoop(delta, k) == Divided(delta, k)
  {
    if delta > 455 {
      DividedIs(delta / 35, k + 36);
    }
  }

  lemma BiasIs(delta: nat, points: nat, first: bool)
    requires points > 0
    ensures Adapt(delta, points, first) == BiasAfter(delta, points, first)
  {
    var halved := if first then delta / 700 else delta / 2;
    DividedIs(halved + PerPoint(halved, points), 0);
  }

  lemma {:induction false} SweptIs(codes: seq<Rune>, j: nat, n: nat, delta: nat, bias: nat, h: nat, b: nat)
    requires j <= |codes|
    ensures var e, s := Pass(codes, j, n, delta, bias, h, b), Swept(codes[j..], n, delta, bias, h, b);
            s == Sweep(e.text, e.delta, e.bias, e.h)
    decreases |codes| - j
  {
    hide Adapt, BiasAfter, WriteVarInt, Letters;
    if j < |codes| {
      assert codes[j..][0] == codes[j] && codes[j..][1..] == codes[j + 1..];
      if codes[j] < n {
        SweptIs(codes, j + 1, n, delta + 1, bias, h, b);
      } else if codes[j] > n {
        SweptIs(codes, j + 1, n, delta, bias, h, b);
      } else {
        BiasIs(delta, h + 1, h == b);
        LettersAre(delta, 36, bias);
        SweptIs(codes, j + 1, n, 0, Adapt(delta, h + 1, h == b), h + 1, b);
      }
    }
  }

  lemma {:induction false} SweepsAre(codes: seq<Rune>, n: nat, delta: nat, bias: nat, h: nat, b: nat)
    requires n <= MAX_RUNE + 1
    ensures Passes(codes, n, delta, bias, h, b) == Sweeps(codes, n, delta, bias, h, b)
    decreases MAX_RUNE + 1 - n
  {
    hide Pass, Swept, NextCodePoint, Times;
    match NextCodePoint(codes, n)
    case None =>
    case Some(m) =>
      TimesIs(m - n, h + 1);
      var e := Pass(codes, 0, m, delta + Times(m - n, h + 1), bias, h, b);
      SweptIs(codes, 0, m, delta + Times(m - n, h + 1), bias, h, b);
      assert codes[0..] == codes;
      SweepsAre(codes, m + 1, e.delta + 1, e.bias, e.h, b);
  }

  lemma {:induction false} BasicsAre(codes: seq<Rune>)
    ensures |Basics(codes)| == |Below(codes, 128)|
    ensures forall j :: 0 <= j < |Basics(codes)| ==> Basics(codes)[j] as int == Below(codes, 128)[j]
  {
    if codes != [] {
      BasicsAre(codes[1..]);
    }
  }

  lemma EncodersAgree(codes: seq<Rune>)
    ensures RfcEncode(codes) == Encode(codes)
  {
    hide Sweeps, Passes, Basics, Below;
    BasicsAre(codes);
    var basic := Below(codes, 128);
    assert Basics(codes) == CharsOf(basic);
    SweepsAre(codes, 128, 0, 72, |basic|, |basic|);
  }

  /**
   The source's decoder is the inverse of the RFC's encoder: it gives back every label that the
   encoder wrote and its guards can count, and refuses the encoding of every other.
   */
  lemma DecoderIsTheRfcs(codes: seq<Rune>)
    requires |RfcEncode(codes)| <= 0x7fff_ffff
    ensures Decode(RfcEncode(codes)) == if Countable(codes) then Some(codes) else None
  {
    hide RfcEncode, Encode, Decode, Countable;
    EncodersAgree(codes);
    DecodeInvertsEncode(codes);
  }

  /** A code point that is a character, and of no control past ASCII. */
  predicate Character(c: char) {
    c < 0x80 as char || c >= 0xa0 as char
  }

  ghost predicate IsCharacter(code: Rune) {
    exists c :: Character(c) && c as int == code
  }

  lemma TakesCharacters(code: Rune)
    requires code >= 0x80
    ensures Insertable(code) <==> IsCharacter(code)
  {
    if Insertable(code) {
      assert Character(code as char) && (code as char) as int == code;
    }
  }

  /** Far past the length of any label the guards never fire: a text decodes just when it is characters, none a C1 control. */
  lemma ShortLabelsDecode(codes: seq<Rune>)
    requires |codes| <= 1927 && |RfcEncode(codes)| <= 0x7fff_ffff
    ensures Decode(RfcEncode(codes)) ==
            if forall x :: 0 <= x < |codes| ==> IsCharacter(codes[x]) then Some(codes) else None
  {
    hide RfcEncode, Decode, FitsFrom, IsCharacter, Insertable;
    DecoderIsTheRfcs(codes);
    forall x | 0 <= x < |codes|
      ensures Countable(codes) ==> IsCharacter(codes[x])
      ensures codes[x] >= 0x80 ==> (Insertable(codes[x]) <==> IsCharacter(codes[x]))
    {
      if codes[x] < 0x80 {
        AsciiIsCharacter(codes[x]);
      } else {
        TakesCharacters(codes[x]);
        if Countable(codes) {
          CountedIsTakeable(codes, INITIAL_N, INITIAL_N, x);
        }
      }
    }
    if forall x :: 0 <= x < |codes| ==> IsCharacter(codes[x]) {
      ShortLabelsAreCountable(codes);
    }
  }

  lemma AsciiIsCharacter(code: Rune)
    requires code < 0x80
    ensures IsCharacter(code)
  {
    assert Character(code as char) && (code as char) as int == code;
  }

  // ---- a string of section 7.1 --------------------------------------------------------------------

  /** Example R of section 7.1, seven code points and none of them basic. */
  const SPEED: seq<Rune> := [0x305D, 0x306E, 0x30B9, 0x30D4, 0x30FC, 0x30C9, 0x3067]

  /** One sweep in which a code point occurs once, at `at`. */
  lemma SweepOnce(codes: seq<Rune>, at: nat, n: nat, delta: nat, bias: nat, h: nat, b: nat)
    requires at < |codes| && codes[at] == n && forall j :: 0 <= j < |codes| && j != at ==> codes[j] != n
    ensures Swept(codes, n, delta, bias, h, b) ==
            Sweep(Letters(delta + Smaller(codes[..at], n), 36, bias), Smaller(codes[at + 1..], n),
                  BiasAfter(delta + Smaller(codes[..at], n), h + 1, h == b), h + 1)
    decreases at
  {
    hide Letters, BiasAfter;
    if at == 0 {
      SweepNone(codes[1..], n, 0, BiasAfter(delta, h + 1, h == b), h + 1, b);
      assert Letters(delta, 36, bias) + [] == Letters(delta, 36, bias);
    } else {
      assert codes[1..][..at - 1] == codes[..at][1..] && codes[1..][at..] == codes[at + 1..];
      SweepOnce(codes[1..], at - 1, n, if codes[0] < n then delta + 1 else delta, bias, h, b);
    }
  }

  lemma {:induction false} SweepNone(codes: seq<Rune>, n: nat, delta: nat, bias: nat, h: nat, b: nat)
    requires forall j :: 0 <= j < |codes| ==> codes[j] != n
    ensures Swept(codes, n, delta, bias, h, b) == Sweep([], delta + Smaller(codes, n), bias, h)
  {
    if codes != [] {
      SweepNone(codes[1..], n, if codes[0] < n then delta + 1 else delta, bias, h, b);
    }
  }

  function Smaller(codes: seq<Rune>, n: nat): nat {
    if codes == [] then 0 else (if codes[0] < n then 1 else 0) + Smaller(codes[1..], n)
  }

  function One(codes: seq<Rune>, j: nat, n: nat): nat {
    if j < |codes| && codes[j] < n then 1 else 0
  }

  lemma {:induction false} SmallerSum(codes: seq<Rune>, n: nat)
    requires |codes| <= 7
    ensures Smaller(codes, n) == One(codes, 0, n) + One(codes, 1, n) + One(codes, 2, n) + One(codes, 3, n)
                                 + One(codes, 4, n) + One(codes, 5, n) + One(codes, 6, n)
  {
    if codes != [] {
      SmallerSum(codes[1..], n);
      assert forall j: nat :: One(codes[1..], j, n) == One(codes, j + 1, n);
    }
  }

  lemma NextIs(codes: seq<Rune>, n: nat, at: nat)
    requires at < |codes| && n <= codes[at] && forall j :: 0 <= j < |codes| ==> codes[j] < n || codes[at] <= codes[j]
    ensures NextCodePoint(codes, n) == Some(codes[at])
  {
    assert codes[at] in codes;
  }

  /** The code point at `at` occurs once, and is the next one from `n` on. */
  predicate OnceNext(codes: seq<Rune>, at: nat, n: nat) {
    && at < |codes| && n <= codes[at]
    && (forall j :: 0 <= j < |codes| ==> codes[j] < n || codes[at] <= codes[j])
    && (forall j :: 0 <= j < |codes| && j != at ==> codes[j] != codes[at])
  }

  /** One turn of the outer loop, at such a code point: `d` is the delta it writes. */
  lemma Turn(codes: seq<Rune>, at: nat, n: nat, delta: nat, bias: nat, h: nat, before: nat, after: nat, d: nat,
             text: seq<char>, bias': nat)
    requires OnceNext(codes, at, n)
    requires Smaller(codes[..at], codes[at]) == before && Smaller(codes[at + 1..], codes[at]) == after
    requires d == delta + Times(codes[at] - n, h + 1) + before
    requires Letters(d, 36, bias) == text && BiasAfter(d, h + 1, h == 0) == bias'
    ensures Sweeps(codes, n, delta, bias, h, 0) == text + Sweeps(codes, codes[at] as int + 1, after + 1, bias', h + 1, 0)
  {
    hide Letters, BiasAfter, Swept, Smaller, NextCodePoint;
    NextIs(codes, n, at);
    TimesIs(codes[at] - n, h + 1);
    SweepOnce(codes, at, codes[at], delta + Times(codes[at] - n, h + 1), bias, h, 0);
  }

  lemma MoreLetters(q: nat, k: nat, bias: nat, d: nat, q': nat)
    requires Clamp(k, bias) <= q && Clamp(k, bias) <= d < 36
    requires q - Clamp(k, bias) == Times(q', 36 - Clamp(k, bias)) + (d - Clamp(k, bias))
    ensures Letters(q, k, bias) == [DIGITS[d]] + Letters(q', k + 36, bias)
  {
    hide DIGITS, Clamp;
    var t := Clamp(k, bias);
    DivUnique(q', d - t, 36 - t);
    var rest := q - t;
    assert rest / (36 - t) == q' && rest % (36 - t) == d - t;
  }

  lemma LastLetter(q: nat, k: nat, bias: nat)
    requires q < Clamp(k, bias)
    ensures Letters(q, k, bias) == [DIGITS[q]]
  {
    hide DIGITS;
  }

  lemma TwoLetters(q: nat, bias: nat, d: nat, e: nat)
    requires Clamp(36, bias) <= q && Clamp(36, bias) <= d < 36 && e < Clamp(72, bias)
    requires q - Clamp(36, bias) == e * (36 - Clamp(36, bias)) + (d - Clamp(36, bias))
    ensures Letters(q, 36, bias) == [DIGITS[d], DIGITS[e]]
  {
    hide DIGITS;
    TimesIs(e, 36 - Clamp(36, bias));
    MoreLetters(q, 36, bias, d, e);
    LastLetter(e, 72, bias);
  }

  lemma ThreeLetters(q: nat, bias: nat, d: nat, e: nat, q': nat, f: nat)
    requires Clamp(36, bias) <= q && Clamp(36, bias) <= d < 36 && Clamp(72, bias) <= q' && Clamp(72, bias) <= e < 36
    requires f < Clamp(108, bias)
    requires q - Clamp(36, bias) == q' * (36 - Clamp(36, bias)) + (d - Clamp(36, bias))
    requires q' - Clamp(72, bias) == f * (36 - Clamp(72, bias)) + (e - Clamp(72, bias))
    ensures Letters(q, 36, bias) == [DIGITS[d], DIGITS[e], DIGITS[f]]
  {
    hide DIGITS;
    TimesIs(q', 36 - Clamp(36, bias));
    TimesIs(f, 36 - Clamp(72, bias));
    MoreLetters(q, 36, bias, d, q');
    MoreLetters(q', 72, bias, e, f);
    LastLetter(f, 108, bias);
  }

  lemma Digits()
    ensures DIGITS[0] == 'a' && DIGITS[2] == 'c' && DIGITS[3] == 'd' && DIGITS[9] == 'j' && DIGITS[15] == 'p'
    ensures DIGITS[20] == 'u' && DIGITS[22] == 'w' && DIGITS[25] == 'z' && DIGITS[27] == '1' && DIGITS[30] == '4' && DIGITS[35] == '9'
  {
  }

  lemma Written()
    ensures Letters(12253, 36, 72) == "d9j" && Letters(20, 36, 17) == "ua" && Letters(20, 36, 10) == "u"
    ensures Letters(300, 36, 9) == "41a" && Letters(80, 36, 29) == "wc" && Letters(65, 36, 20) == "zc"
    ensures Letters(280, 36, 17) == "zp"
  {
    Digits();
    hide DIGITS, Letters;
    ThreeLetters(12253, 72, 3, 35, 350, 9);
    TwoLetters(20, 17, 20, 0);
    LastLetter(20, 36, 10);
    ThreeLetters(300, 9, 30, 27, 27, 0);
    TwoLetters(80, 29, 22, 2);
    TwoLetters(65, 20, 25, 2);
    TwoLetters(280, 17, 25, 15);
  }

  lemma Biases()
    ensures BiasAfter(12253, 1, true) == 17 && BiasAfter(20, 2, false) == 10 && BiasAfter(20, 3, false) == 9
    ensures BiasAfter(300, 4, false) == 29 && BiasAfter(80, 5, false) == 20 && BiasAfter(65, 6, false) == 17
    ensures BiasAfter(280, 7, false) == 29
  {
  }

  lemma Before()
    ensures Smaller(SPEED[..0], 0x305D) == 0 && Smaller(SPEED[..6], 0x3067) == 1 && Smaller(SPEED[..1], 0x306E) == 1
    ensures Smaller(SPEED[..2], 0x30B9) == 2 && Smaller(SPEED[..5], 0x30C9) == 3
    ensures Smaller(SPEED[..3], 0x30D4) == 3 && Smaller(SPEED[..4], 0x30FC) == 4
  {
    hide Smaller;
    SmallerSum(SPEED[..0], 0x305D);
    SmallerSum(SPEED[..6], 0x3067);
    SmallerSum(SPEED[..1], 0x306E);
    SmallerSum(SPEED[..2], 0x30B9);
    SmallerSum(SPEED[..5], 0x30C9);
    SmallerSum(SPEED[..3], 0x30D4);
    SmallerSum(SPEED[..4], 0x30FC);
  }

  lemma Behind()
    ensures Smaller(SPEED[1..], 0x305D) == 0 && Smaller(SPEED[7..], 0x3067) == 0 && Smaller(SPEED[2..], 0x306E) == 1
    ensures Smaller(SPEED[3..], 0x30B9) == 1 && Smaller(SPEED[6..], 0x30C9) == 1
    ensures Smaller(SPEED[4..], 0x30D4) == 2 && Smaller(SPEED[5..], 0x30FC) == 2
  {
    hide Smaller;
    SmallerSum(SPEED[1..], 0x305D);
    SmallerSum(SPEED[7..], 0x3067);
    SmallerSum(SPEED[2..], 0x306E);
    SmallerSum(SPEED[3..], 0x30B9);
    SmallerSum(SPEED[6..], 0x30C9);
    SmallerSum(SPEED[4..], 0x30D4);
    SmallerSum(SPEED[5..], 0x30FC);
  }

  lemma SpeedIs()
    ensures |SPEED| == 7 && SPEED[0] == 0x305D && SPEED[1] == 0x306E && SPEED[2] == 0x30B9 && SPEED[3] == 0x30D4
    ensures SPEED[4] == 0x30FC && SPEED[5] == 0x30C9 && SPEED[6] == 0x3067
  {
  }

  lemma Products()
    ensures Times(0x305D - 128, 1) == 12253 && Times(0x3067 - 0x305E, 2) == 18 && Times(0x306E - 0x3068, 3) == 18
    ensures Times(0x30B9 - 0x306F, 4) == 296 && Times(0x30C9 - 0x30BA, 5) == 75 && Times(0x30D4 - 0x30CA, 6) == 60
    ensures Times(0x30FC - 0x30D5, 7) == 273
  {
    hide Times;
    TimesIs(0x305D - 128, 1);
    TimesIs(0x3067 - 0x305E, 2);
    TimesIs(0x306E - 0x3068, 3);
    TimesIs(0x30B9 - 0x306F, 4);
    TimesIs(0x30C9 - 0x30BA, 5);
    TimesIs(0x30D4 - 0x30CA, 6);
    TimesIs(0x30FC - 0x30D5, 7);
  }

  lemma SpeedEncodes()
    ensures RfcEncode(SPEED) == "d9juau41awczczp"
  {
    SpeedIs();
    BasicsOfSpeed();
    hide SPEED, Letters, BiasAfter, Smaller, Sweeps, Basics, NextCodePoint, Times;
    Written();
    Biases();
    Before();
    Behind();
    Products();
    Turn(SPEED, 0, 128, 0, 72, 0, 0, 0, 12253, "d9j", 17);
    Turn(SPEED, 6, 0x305E, 1, 17, 1, 1, 0, 20, "ua", 10);
    Turn(SPEED, 1, 0x3068, 1, 10, 2, 1, 1, 20, "u", 9);
    Turn(SPEED, 2, 0x306F, 2, 9, 3, 2, 1, 300, "41a", 29);
    Turn(SPEED, 5, 0x30BA, 2, 29, 4, 3, 1, 80, "wc", 20);
    Turn(SPEED, 3, 0x30CA, 2, 20, 5, 3, 2, 65, "zc", 17);
    Turn(SPEED, 4, 0x30D5, 3, 17, 6, 4, 2, 280, "zp", 29);
    NoneLeft();
  }

  lemma BasicsOfSpeed()
    ensures Basics(SPEED) == []
  {
    BasicsAre(SPEED);
    NoneBelow(SPEED, 128);
  }

  lemma {:induction false} NoneBelow(codes: seq<Rune>, n: int)
    requires forall j :: 0 <= j < |codes| ==> codes[j] >= n
    ensures Below(codes, n) == []
  {
    if codes != [] {
      NoneBelow(codes[1..], n);
    }
  }

  lemma NoneLeft()
    ensures Sweeps(SPEED, 0x30FD, 3, 29, 7, 0) == []
  {
    var next := NextCodePoint(SPEED, 0x30FD);
    assert forall j :: 0 <= j < 7 ==> SPEED[j] < 0x30FD;
    assert next.None?;
  }

  lemma SpeedIsTakeable()
    ensures |SPEED| <= 1927 && forall j :: 0 <= j < |SPEED| && SPEED[j] >= INITIAL_N ==> Insertable(SPEED[j])
  {
    SpeedIs();
    hide SPEED;
  }

  /** The source's decoder on the published string: the label of section 7.1. */
  lemma PublishedStringDecodes()
    ensures Decode("d9juau41awczczp") == Some([0x305D, 0x306E, 0x30B9, 0x30D4, 0x30FC, 0x30C9, 0x3067])
  {
    SpeedIsTakeable();
    SpeedEncodes();
    assert SPEED == [0x305D, 0x306E, 0x30B9, 0x30D4, 0x30FC, 0x30C9, 0x3067];
    hide *;
    ShortLabelsAreCountable(SPEED);
    DecoderIsTheRfcs(SPEED);
  }
}
