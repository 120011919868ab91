/**
 The Punycode decoder of env_app.go (`decodesAsPunycode`), proved against a recursive
 specification, and the specification proved to invert the encoder of section 6.3 of RFC 3492.
 */
module Punycode {
  import opened Arith
  import opened Wrappers

  const BASE := 36
  const SKEW := 38
  const DAMP := 700
  const INITIAL_BIAS := 72
  const INITIAL_N := 128
  const MAX_INT32 := 0x7fff_ffff
  const MAX_RUNE := 0x10ffff

  /** What `i`, `w`, `n` and the intermediate sums of the decoder must stay within. */
  type Int31 = x: int | 0 <= x <= MAX_INT32

  type Rune = r: int | 0 <= r <= MAX_RUNE

  // ---- the pieces both directions share ------------------------------------

  function Threshold(k: int, bias: int): (t: int)
    ensures 1 <= t <= 26
  {
    if k - bias < 1 then 1 else if k - bias > 26 then 26 else k - bias
  }

  function LastShare(delta: nat): (r: nat)
    ensures r < BASE
  {
    36 * delta / (delta + SKEW)
  }

  function AdaptLoop(delta: nat, k: nat): nat {
    if delta > 455 then AdaptLoop(delta / 35, k + BASE) else k + LastShare(delta)
  }

  function Adapt(delta: nat, points: nat, first: bool): nat
    requires points > 0
  {
    var scaled := if first then delta / DAMP else delta / 2;
    AdaptLoop(scaled + PerPoint(scaled, points), 0)
  }

  function PerPoint(delta: nat, points: nat): nat
    requires points > 0
  {
    delta / points
  }

  function DigitOf(c: char): (r: Option<nat>)
    ensures r.Some? ==> r.value < BASE
  {
    if '0' <= c <= '9' then Some(c as int - '0' as int + 26)
    else if 'a' <= c <= 'z' then Some(c as int - 'a' as int)
    else None
  }

  function CharOf(digit: nat): (c: char)
    requires digit < BASE
    ensures DigitOf(c) == Some(digit)
    ensures c != '-'
  {
    if digit < 26 then ('a' as int + digit) as char else ('0' as int + (digit - 26)) as char
  }

  // ---- the decoder, as a specification ---------------------------------------

  datatype VarInt = VarInt(value: Int31, rest: seq<char>)

  /** One variable-length integer added onto `i`, refused where 32 bits would overflow. */
  function ReadVarInt(s: seq<char>, i: Int31, w: Int31, k: nat, bias: nat): (r: Option<VarInt>)
    requires w > 0
    ensures r.Some? ==> |r.value.rest| < |s| && i <= r.value.value
  {
    if s == [] then None
    else match DigitOf(s[0])
      case None => None
      case Some(digit) =>
        var i', w' := i + Times(digit, w), Times(w, BASE - Threshold(k, bias));
        var t := Threshold(k, bias);
        if i' > MAX_INT32 then None
        else if digit < t then Some(VarInt(i', s[1..]))
        else if w' > MAX_INT32 then None
        else
          TimesPositive(w, BASE - t);
          ReadVarInt(s[1..], i', w', k + BASE, bias)
  }

  /** The code points the decoder takes: no ascii, no c1 control, no surrogate. */
  predicate Insertable(n: int) {
    0xa0 <= n <= MAX_RUNE && !(0xd800 <= n <= 0xdfff)
  }

  /** Where the decoder stands between two integers. */
  datatype Progress = Progress(n: Int31, i: Int31, bias: nat, runes: seq<Rune>)

  /** The insertion of code point `n` at `at`, `delta` states after the one before. */
  function InsertAt(p: Progress, n: int, at: nat, delta: nat): (r: Option<Progress>)
    requires at <= |p.runes| < MAX_INT32
    ensures r.Some? ==> |r.value.runes| == |p.runes| + 1
  {
    if !Insertable(n) then None
    else Some(Progress(n, at + 1, Adapt(delta, |p.runes| + 1, p.i == 0), p.runes[..at] + [n] + p.runes[at..]))
  }

  /** What one integer, read onto the cursor as `value`, inserts. */
  function Insert(p: Progress, value: Int31): (r: Option<Progress>)
    requires |p.runes| < MAX_INT32 && p.i <= value
    ensures r.Some? ==> |r.value.runes| == |p.runes| + 1
  {
    var out := |p.runes| + 1;
    DivMod(value, out);
    if value / out > MAX_INT32 - p.n then None
    else InsertAt(p, p.n + value / out, value % out, value - p.i)
  }

  /**
   The whole tail of an encoded label, inserting one code point per integer. The length bound
   is what a 32-bit `int` gives every string; it keeps the cursor inside `Int31`.
   */
  function DecodeFrom(s: seq<char>, p: Progress): Option<seq<Rune>>
    requires |s| + |p.runes| <= MAX_INT32
    decreases |s|
  {
    if s == [] then Some(p.runes)
    else match ReadVarInt(s, p.i, 1, BASE, p.bias)
      case None => None
      case Some(v) =>
        match Insert(p, v.value)
        case None => None
        case Some(next) => DecodeFrom(v.rest, next)
  }

  /** The last '-' of the label, or -1. */
  function LastDelimiter(s: seq<char>): (at: int)
    ensures -1 <= at < |s|
    ensures at >= 0 ==> s[at] == '-'
    ensures forall j :: at < j < |s| ==> s[j] != '-'
  {
    if s == [] then -1 else if s[|s| - 1] == '-' then |s| - 1 else LastDelimiter(s[..|s| - 1])
  }

  function CodesOf(s: seq<char>): (r: seq<Rune>)
    requires forall c :: c in s ==> c < 0x80 as char
    ensures |r| == |s| && forall j :: 0 <= j < |s| ==> r[j] == s[j] as int
  {
    seq(|s|, j requires 0 <= j < |s| => s[j] as int)
  }

  predicate Ascii(s: seq<char>) {
    forall c :: c in s ==> c < 0x80 as char
  }

  /** The decoded label, or None where the decoder reports failure before its last check. */
  function Decode(s: seq<char>): Option<seq<Rune>>
    requires |s| <= MAX_INT32
  {
    var cut := LastDelimiter(s);
    if cut <= 0 then DecodeFrom(s, Progress(INITIAL_N, 0, INITIAL_BIAS, []))
    else if !Ascii(s[..cut]) then None
    else DecodeFrom(s[cut + 1..], Progress(INITIAL_N, 0, INITIAL_BIAS, CodesOf(s[..cut])))
  }

  // ---- what a decoded label must be ------------------------------------------

  /** Lowercase letters of latin extended-a, as unicode.IsLower answers for 0x100..0x17e. */
  predicate LowerLatinExtendedA(r: Rune)
    requires 0x100 <= r <= 0x17e
  {
    if r <= 0x137 then r % 2 == 1
    else if r <= 0x138 then true
    else if r <= 0x148 then r % 2 == 0
    else if r == 0x149 then true
    else if r <= 0x177 then r % 2 == 1
    else r != 0x178 && r % 2 == 0
  }

  predicate StableLetter(r: Rune) {
    if 0xdf <= r <= 0xff && r != 0xf7 then true
    else if 0x100 <= r <= 0x17e then LowerLatinExtendedA(r) && r != 0x133 && r != 0x140 && r != 0x149
    else
      || 0x3ac <= r <= 0x3ce
      || 0x430 <= r <= 0x45f
      || 0x3041 <= r <= 0x3096 || 0x30a1 <= r <= 0x30fa
      || 0x4e00 <= r <= 0x9fff
      || 0xac00 <= r <= 0xd7a3
  }

  predicate HyphenDigitOrLower(r: Rune) {
    r == '-' as int || '0' as int <= r <= '9' as int || 'a' as int <= r <= 'z' as int
  }

  predicate AllowedLabel(runes: seq<Rune>) {
    && (forall r :: r in runes ==> HyphenDigitOrLower(r) || StableLetter(r))
    && exists r :: r in runes && !HyphenDigitOrLower(r)
  }

  method CheckAllowedLabel(runes: seq<Rune>) returns (ok: bool)
    ensures ok == AllowedLabel(runes)
  {
    var ascii := true;
    for j := 0 to |runes|
      invariant forall x :: 0 <= x < j ==> HyphenDigitOrLower(runes[x]) || StableLetter(runes[x])
      invariant !ascii <==> exists x :: 0 <= x < j && !HyphenDigitOrLower(runes[x])
    {
      if HyphenDigitOrLower(runes[j]) {
      } else if StableLetter(runes[j]) {
        ascii := false;
      } else {
        assert runes[j] in runes;
        return false;
      }
    }
    return !ascii;
  }

  // ---- the decoder as the source runs it ---------------------------------------

  // the two overflow guards are written with divisions, and refuse exactly what overflows

  lemma DigitGuardIsExact(digit: nat, i: Int31, w: Int31)
    requires w > 0
    ensures digit <= (0x7fff_ffff - i) / w <==> i + Times(digit, w) <= 0x7fff_ffff
  {
    GuardIsExact(digit, MAX_INT32 - i, w);
  }

  lemma WeightGuardIsExact(w: Int31, f: nat)
    requires f > 0
    ensures w <= 0x7fff_ffff / f <==> Times(w, f) <= 0x7fff_ffff
  {
    GuardIsExact(w, MAX_INT32, f);
  }

  lemma GuardIsExact(x: nat, room: nat, w: nat)
    requires w > 0
    ensures x <= room / w <==> Times(x, w) <= room
  {
    DivMod(room, w);
    var q := room / w;
    if x <= q {
      TimesMonotone(x, q, w);
    } else {
      TimesMonotone(q + 1, x, w);
    }
  }

  /** One digit of the specification's integer. */
  lemma ReadOneDigit(s: seq<char>, i: Int31, w: Int31, k: nat, bias: nat)
    requires w > 0
    ensures s == [] || DigitOf(s[0]).None? ==> ReadVarInt(s, i, w, k, bias).None?
    ensures s != [] && DigitOf(s[0]).Some? ==>
              var digit, t := DigitOf(s[0]).value, Threshold(k, bias);
              var i', w' := i + Times(digit, w), Times(w, BASE - t);
              if i' > MAX_INT32 then ReadVarInt(s, i, w, k, bias).None?
              else if digit < t then ReadVarInt(s, i, w, k, bias) == Some(VarInt(i', s[1..]))
              else if w' > MAX_INT32 || w' == 0 then ReadVarInt(s, i, w, k, bias).None?
              else ReadVarInt(s, i, w, k, bias) == ReadVarInt(s[1..], i', w', k + BASE, bias)
  {
    TimesPositive(w, BASE - Threshold(k, bias));
  }

  /** The inner loop: one integer read from `pos` onto the cursor. */
  method ReadInteger(s: seq<char>, from: nat, cursor: Int31, bias: Int31)
    returns (ok: bool, pos: nat, i: Int31)
    requires from <= |s|
    ensures ok ==> from < pos <= |s| && cursor <= i
    ensures ReadVarInt(s[from..], cursor, 1, BASE, bias) == if ok then Some(VarInt(i, s[pos..])) else None
  {
    hide ReadVarInt, Times;
    var w: Int31 := 1;
    i, pos := cursor, from;
    var k := BASE;
    while true
      invariant w > 0 && cursor <= i && from <= pos <= |s| && k >= BASE
      invariant ReadVarInt(s[from..], cursor, 1, BASE, bias) == ReadVarInt(s[pos..], i, w, k, bias)
      decreases |s| - pos
    {
      ReadOneDigit(s[pos..], i, w, k, bias);
      if pos >= |s| {
        return false, pos, i;
      }
      var c := s[pos];
      assert s[pos..][0] == c && s[pos..][1..] == s[pos + 1..];
      pos := pos + 1;
      var digit: Int31;
      if '0' <= c <= '9' {
        digit := c as int - '0' as int + 26;
      } else if 'a' <= c <= 'z' {
        digit := c as int - 'a' as int;
      } else {
        return false, pos, i;
      }
      DigitGuardIsExact(digit, i, w);
      if digit > (MAX_INT32 - i) / w {
        return false, pos, i;
      }
      i := i + Times(digit, w);
      var t := k - bias;
      if t < 1 {
        t := 1;
      } else if t > 26 {
        t := 26;
      }
      assert t == Threshold(k, bias);
      if digit < t {
        return true, pos, i;
      }
      WeightGuardIsExact(w, BASE - t);
      if w > MAX_INT32 / (BASE - t) {
        return false, pos, i;
      }
      TimesPositive(w, BASE - t);
      w := Times(w, BASE - t);
      k := k + BASE;
    }
  }

  /** The bias adaptation, with its intermediates in 32 bits. */
  method NextBias(step: Int31, out: Int31, first: bool) returns (bias: Int31)
    requires out > 0
    ensures bias == Adapt(step, out, first)
  {
    var delta: Int31 := if first then step / DAMP else step / 2;
    DivMod(delta, out);
    var share: Int31 := delta / out;
    delta := delta + share;
    var k: Int31 := 0;
    ghost var sum := delta;
    while delta > ((BASE - 1) * 26) / 2
      invariant AdaptLoop(sum, 0) == AdaptLoop(delta, k)
      invariant k + delta <= MAX_INT32 && k <= MAX_INT32 - 400
    {
      delta := delta / (BASE - 1);
      k := k + BASE;
    }
    var scaled: Int31 := (BASE - 1 + 1) * delta;
    DivMod(scaled, delta + SKEW);
    bias := k + LastShare(delta);
  }

  /** The rest of the loop's body: where the cursor landed says which code point goes where. */
  method InsertNext(n: Int31, oldi: Int31, i: Int31, bias: Int31, out: Int31, runes: seq<Rune>)
    returns (ok: bool, n': Int31, i': Int31, bias': Int31, runes': seq<Rune>)
    requires oldi <= i && out == |runes| + 1
    ensures Insert(Progress(n, oldi, bias, runes), i) ==
            if ok then Some(Progress(n', i', bias', runes')) else None
  {
    n', i', runes' := n, i, runes;
    DivMod(i, out);
    bias' := NextBias(i - oldi, out, oldi == 0);
    if i / out > MAX_INT32 - n {
      return false, n', i', bias', runes';
    }
    n' := n + i / out;
    i' := i % out;
    if n' < 0xa0 || n' > 0x10ffff || (n' >= 0xd800 && n' <= 0xdfff) {
      return false, n', i', bias', runes';
    }
    runes' := runes[..i'] + [n'] + runes[i'..];
    i' := i' + 1;
    ok := true;
  }

  /** `decodesAsPunycode`: every integer the source's loops hold stays within 32 bits. */
  method DecodesAsPunycode(text: seq<char>) returns (ok: bool)
    requires |text| <= MAX_INT32
    ensures ok <==> Decode(text).Some? && AllowedLabel(Decode(text).value)
  {
    var runes: seq<Rune>, out: Int31 := [], 0;
    var s := text;
    var cut := LastDelimiter(s);
    if cut > 0 {
      for j := 0 to cut
        invariant forall x :: 0 <= x < j ==> s[x] < 0x80 as char
      {
        if s[j] >= 0x80 as char {
          assert s[j] in s[..cut];
          return false;
        }
      }
      runes := CodesOf(s[..cut]);
      out, s := cut, s[cut + 1..];
    }
    var n: Int31, bias: Int31, i: Int31 := INITIAL_N, INITIAL_BIAS, 0;
    var pos := 0;
    while pos < |s|
      invariant pos <= |s|
      invariant out == |runes| && |s| - pos + |runes| <= MAX_INT32
      invariant Decode(text) == DecodeFrom(s[pos..], Progress(n, i, bias, runes))
      decreases |s| - pos
    {
      var oldi := i;
      var read, inserted;
      read, pos, i := ReadInteger(s, pos, i, bias);
      if !read {
        return false;
      }
      out := out + 1;
      inserted, n, i, bias, runes := InsertNext(n, oldi, i, bias, out, runes);
      if !inserted {
        return false;
      }
    }
    var allowed := CheckAllowedLabel(runes);
    return out > 0 && allowed;
  }
}
