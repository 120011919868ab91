/** The encoder of section 6.3 of RFC 3492, and exactly the labels env_app.go decodes back. */
module PunycodeRoundTrip {
  import opened Arith
  import opened Wrappers
  import opened Punycode

  // ---- the encoder of RFC 3492, section 6.3 ----------------------------------

  /** One delta as a generalized variable-length integer. */
  function WriteVarInt(q: nat, k: nat, bias: nat): (s: seq<char>)
    ensures |s| > 0 && '-' !in s
    decreases q
  {
    var t := Threshold(k, bias);
    if q < t then [CharOf(q)]
    else
      DivMod(q - t, BASE - t);
      [CharOf(t + (q - t) % (BASE - t))] + WriteVarInt((q - t) / (BASE - t), k + BASE, bias)
  }

  /** The smallest code point of the label that is not below `n`. */
  function NextCodePoint(codes: seq<Rune>, n: int): (m: Option<Rune>)
    ensures m.None? ==> forall x :: 0 <= x < |codes| ==> codes[x] < n
    ensures m.Some? ==> m.value in codes && n <= m.value
    ensures m.Some? ==> forall x :: 0 <= x < |codes| ==> codes[x] < n || m.value <= codes[x]
  {
    if codes == [] then None
    else
      var rest := NextCodePoint(codes[1..], n);
      assert forall x :: 0 < x < |codes| ==> codes[x] == codes[1..][x - 1];
      if codes[0] < n then rest
      else if rest.None? || codes[0] < rest.value then Some(codes[0])
      else rest
  }

  datatype Encoded = Encoded(text: seq<char>, delta: nat, bias: nat, h: nat)

  /** One pass over the label from position `j`, emitting a delta for each code point equal to `n`. */
  function Pass(codes: seq<Rune>, j: nat, n: nat, delta: nat, bias: nat, h: nat, b: nat): (e: Encoded)
    requires j <= |codes|
    ensures '-' !in e.text
    decreases |codes| - j
  {
    if j == |codes| then Encoded([], delta, bias, h)
    else if codes[j] < n then Pass(codes, j + 1, n, delta + 1, bias, h, b)
    else if codes[j] > n then Pass(codes, j + 1, n, delta, bias, h, b)
    else
      var rest := Pass(codes, j + 1, n, 0, Adapt(delta, h + 1, h == b), h + 1, b);
      rest.(text := WriteVarInt(delta, BASE, bias) + rest.text)
  }

  function Passes(codes: seq<Rune>, n: nat, delta: nat, bias: nat, h: nat, b: nat): (s: seq<char>)
    requires n <= MAX_RUNE + 1
    ensures '-' !in s
    decreases MAX_RUNE + 1 - n
  {
    match NextCodePoint(codes, n)
    case None => []
    case Some(m) =>
      var e := Pass(codes, 0, m, delta + Times(m - n, h + 1), bias, h, b);
      e.text + Passes(codes, m + 1, e.delta + 1, e.bias, e.h, b)
  }

  /** The code points of the label below `n`, in order. */
  function Below(codes: seq<Rune>, n: int): (r: seq<Rune>)
    ensures |r| <= |codes|
    ensures forall j :: 0 <= j < |r| ==> r[j] < n
  {
    if codes == [] then []
    else (if codes[0] < n then [codes[0]] else []) + Below(codes[1..], n)
  }

  function CharsOf(basic: seq<Rune>): (s: seq<char>)
    requires forall j :: 0 <= j < |basic| ==> basic[j] < INITIAL_N
    ensures |s| == |basic| && forall j :: 0 <= j < |s| ==> s[j] as int == basic[j]
  {
    seq(|basic|, j requires 0 <= j < |basic| && basic[j] < INITIAL_N => basic[j] as char)
  }

  function Encode(codes: seq<Rune>): seq<char> {
    var basic := Below(codes, INITIAL_N);
    (if basic == [] then [] else CharsOf(basic) + ['-']) +
    Passes(codes, INITIAL_N, 0, INITIAL_BIAS, |basic|, |basic|)
  }

  // ---- reading a written integer back ------------------------------------------

  lemma {:induction false} AdaptLoopBound(delta: nat, k: nat, room: nat)
    requires delta < room && k + Steps(room) <= 180
    ensures AdaptLoop(delta, k) <= 215
    decreases delta
  {
    if delta > 455 {
      AdaptLoopBound(delta / 35, k + BASE, (room + 34) / 35);
    }
  }

  /** How far `k` can climb while a delta below `room` is divided down. */
  function Steps(room: nat): nat {
    if room <= 456 then 0 else BASE + Steps((room + 34) / 35)
  }

  lemma AdaptBound(delta: nat, points: nat, first: bool)
    requires delta <= MAX_INT32 && points > 0
    ensures Adapt(delta, points, first) <= 215
  {
    var scaled := if first then delta / DAMP else delta / 2;
    DivMod(scaled, points);
    AdaptLoopBound(scaled + scaled / points, 0, MAX_INT32);
  }

  /** While a threshold can still be below 26, the weight is at most a power of 35. */
  predicate SmallWeight(w: nat, k: nat) {
    && k % BASE == 0 && k > 0
    && (k <= 36 ==> w <= 1)
    && (k <= 72 ==> w <= 35)
    && (k <= 108 ==> w <= 1225)
    && (k <= 144 ==> w <= 42875)
    && (k <= 180 ==> w <= 1500625)
    && (k <= 216 ==> w <= 52521875)
  }

  /** The weight guard never refuses what the digit guard would let through. */
  lemma WeightNeverRefusesFirst(q: nat, i: Int31, w: Int31, k: nat, bias: nat)
    requires w > 0 && SmallWeight(w, k) && bias <= 215
    requires q >= Threshold(k, bias) && i + Times(q, w) <= MAX_INT32
    ensures Times(w, BASE - Threshold(k, bias)) <= MAX_INT32
  {
    var t := Threshold(k, bias);
    if t == 26 {
      TimesMonotone(26, q, w);
      TimesIs(26, w);
      TimesIs(w, 10);
    } else {
      assert k < 241;
      assert k <= 216;
      WeightTimes(w, BASE - t);
    }
  }

  lemma ReadDigit(digit: nat, rest: seq<char>, i: Int31, w: Int31, k: nat, bias: nat)
    requires w > 0 && digit < BASE
    ensures var t := Threshold(k, bias);
            ReadVarInt([CharOf(digit)] + rest, i, w, k, bias) ==
            if i + Times(digit, w) > MAX_INT32 then None
            else if digit < t then Some(VarInt(i + Times(digit, w), rest))
            else if Times(w, BASE - t) > MAX_INT32 then None
            else ReadVarInt(rest, i + Times(digit, w), Times(w, BASE - t), k + BASE, bias)
  {
    var s := [CharOf(digit)] + rest;
    assert s[0] == CharOf(digit) && s[1..] == rest;
  }

  /** A written delta is read back onto any cursor it fits on, and refused on any other. */
  lemma {:induction false} ReadsWhatWasWritten(q: nat, i: Int31, w: Int31, k: nat, bias: nat, tail: seq<char>)
    requires w > 0 && SmallWeight(w, k) && bias <= 215
    ensures ReadVarInt(WriteVarInt(q, k, bias) + tail, i, w, k, bias) ==
            if i + Times(q, w) <= MAX_INT32 then Some(VarInt(i + Times(q, w), tail)) else None
    decreases q
  {
    hide Times, ReadVarInt;
    var t := Threshold(k, bias);
    if q < t {
      ReadDigit(q, tail, i, w, k, bias);
    } else {
      var digit, q' := FirstDigit(q, k, bias);
      var rest := WriteVarInt(q', k + BASE, bias);
      assert WriteVarInt(q, k, bias) + tail == [CharOf(digit)] + (rest + tail);
      ReadDigit(digit, rest + tail, i, w, k, bias);
      FirstDigitFits(digit, q', i, w, k, bias);
      if i + Times(digit, w) <= MAX_INT32 && Times(w, BASE - t) <= MAX_INT32 {
        ReadsWhatWasWritten(q', i + Times(digit, w), Times(w, BASE - t), k + BASE, bias, tail);
      }
    }
  }

  /** The guards on the first digit let through whatever fits as a whole. */
  lemma FirstDigitFits(digit: nat, q': nat, i: Int31, w: Int31, k: nat, bias: nat)
    requires w > 0 && SmallWeight(w, k) && bias <= 215
    requires digit >= Threshold(k, bias)
    ensures var f := BASE - Threshold(k, bias);
            && i + Times(digit + Times(q', f), w) == i + Times(digit, w) + Times(q', Times(w, f))
            && Times(w, f) > 0 && SmallWeight(Times(w, f), k + BASE)
            && (i + Times(digit + Times(q', f), w) <= MAX_INT32 ==>
                  i + Times(digit, w) <= MAX_INT32 && Times(w, f) <= MAX_INT32)
  {
    var f := BASE - Threshold(k, bias);
    Regroup(digit, q', f, w);
    TimesPositive(w, f);
    WeightGrows(w, f, k);
    if i + Times(digit + Times(q', f), w) <= MAX_INT32 {
      WeightNeverRefusesFirst(digit, i, w, k, bias);
    }
  }

  lemma FirstDigit(q: nat, k: nat, bias: nat) returns (digit: nat, q': nat)
    requires q >= Threshold(k, bias)
    ensures Threshold(k, bias) <= digit < BASE && q' < q
    ensures q == digit + Times(q', BASE - Threshold(k, bias))
    ensures WriteVarInt(q, k, bias) == [CharOf(digit)] + WriteVarInt(q', k + BASE, bias)
  {
    var t := Threshold(k, bias);
    var f := BASE - t;
    DivMod(q - t, f);
    digit, q' := t + (q - t) % f, (q - t) / f;
  }

  lemma WeightTimes(w: nat, f: nat)
    requires f <= 35
    ensures Times(w, f) <= 35 * w
  {
    TimesCommutes(w, f);
    TimesMonotone(f, 35, w);
    TimesIs(35, w);
  }

  lemma WeightGrows(w: nat, f: nat, k: nat)
    requires SmallWeight(w, k) && f <= 35
    ensures SmallWeight(Times(w, f), k + BASE)
  {
    WeightTimes(w, f);
  }

  lemma Regroup(digit: nat, q: nat, f: nat, w: nat)
    ensures Times(digit + Times(q, f), w) == Times(digit, w) + Times(q, Times(w, f))
  {
    TimesDistributes(digit, Times(q, f), w);
    TimesAssociates(q, f, w);
    TimesCommutes(f, w);
  }

  // ---- the two loops kept in step ------------------------------------------------

  /** What the encoder has handled at position `j` of the pass for `n`. */
  function Handled(codes: seq<Rune>, n: nat, j: nat): seq<Rune>
    requires j <= |codes|
  {
    Below(codes[..j], n + 1) + Below(codes[j..], n)
  }

  /** Where the next code point equal to `n` belongs among what is handled. */
  function Place(codes: seq<Rune>, n: nat, j: nat): nat
    requires j <= |codes|
  {
    |Below(codes[..j], n + 1)|
  }

  lemma {:induction false} BelowAppend(a: seq<Rune>, b: seq<Rune>, n: int)
    ensures Below(a + b, n) == Below(a, n) + Below(b, n)
  {
    if a == [] {
      assert a + b == b;
    } else {
      assert (a + b)[1..] == a[1..] + b;
      BelowAppend(a[1..], b, n);
    }
  }

  lemma HandledNext(codes: seq<Rune>, n: nat, j: nat)
    requires j < |codes|
    ensures var at := Place(codes, n, j);
            at <= |Handled(codes, n, j)| && Handled(codes, n, j + 1) ==
            if codes[j] == n then Handled(codes, n, j)[..at] + [n] + Handled(codes, n, j)[at..]
            else Handled(codes, n, j)
    ensures Place(codes, n, j + 1) == Place(codes, n, j) + if codes[j] <= n then 1 else 0
  {
    assert codes[..j + 1] == codes[..j] + [codes[j]];
    BelowAppend(codes[..j], [codes[j]], n + 1);
    assert codes[j..][1..] == codes[j + 1..];
    assert Below([codes[j]], n + 1) == if codes[j] <= n then [codes[j]] else [];
  }

  /**
   Every insertion of a pass is one the decoder's guards let through: the code point is one it
   takes, and the count of states between 128 and it, cursor included, fits in 32 bits.
   */
  predicate PassFits(codes: seq<Rune>, j: nat, n: nat, prev: nat)
    requires j <= |codes| && prev <= n
    decreases |codes| - j
  {
    if j == |codes| then true
    else if codes[j] != n then PassFits(codes, j + 1, n, prev)
    else
      && Insertable(n)
      && Times(n - prev, |Handled(codes, n, j)| + 1) + Place(codes, n, j) <= MAX_INT32
      && PassFits(codes, j + 1, n, n)
  }

  predicate FitsFrom(codes: seq<Rune>, n: nat, prev: nat)
    requires prev <= n <= MAX_RUNE + 1
    decreases MAX_RUNE + 1 - n
  {
    match NextCodePoint(codes, n)
    case None => true
    case Some(m) => PassFits(codes, 0, m, prev) && FitsFrom(codes, m + 1, m)
  }

  predicate Countable(codes: seq<Rune>) {
    FitsFrom(codes, INITIAL_N, INITIAL_N)
  }

  /** The decoder stands where the encoder does, `delta` states behind it. */
  predicate InStep(codes: seq<Rune>, n: nat, j: nat, delta: nat, p: Progress, b: nat) {
    && j <= |codes| && p.n <= n <= MAX_RUNE
    && p.runes == Handled(codes, n, j)
    && p.i <= |p.runes| && p.bias <= 215
    && b <= |p.runes| && (|p.runes| == b <==> p.i == 0)
    && delta + p.i == Times(n - p.n, |p.runes| + 1) + Place(codes, n, j)
  }

  /** The code point `n` at position `j` is one the decoder's guards let it insert after `p`. */
  predicate Fits(codes: seq<Rune>, j: nat, n: nat, p: Progress)
    requires j <= |codes| && p.n <= n
  {
    Insertable(n) && Times(n - p.n, |p.runes| + 1) + Place(codes, n, j) <= MAX_INT32
  }

  /** What the decoder holds once the code point at position `j` is inserted. */
  function Inserted(codes: seq<Rune>, n: nat, j: nat, delta: nat, p: Progress): Progress
    requires j <= |codes| && n <= MAX_RUNE && Place(codes, n, j) <= |p.runes| < MAX_INT32
  {
    var at := Place(codes, n, j);
    Progress(n, at + 1, Adapt(delta, |p.runes| + 1, p.i == 0), p.runes[..at] + [n] + p.runes[at..])
  }

  lemma InsertedInStep(codes: seq<Rune>, n: nat, j: nat, delta: nat, p: Progress, b: nat)
    requires InStep(codes, n, j, delta, p, b) && j < |codes| && codes[j] == n
    requires |p.runes| < MAX_INT32 && delta <= MAX_INT32
    ensures Place(codes, n, j) <= |p.runes|
    ensures InStep(codes, n, j + 1, 0, Inserted(codes, n, j, delta, p), b)
  {
    hide AdaptLoop, Adapt, Below, Times, Handled, Place;
    HandledNext(codes, n, j);
    AdaptBound(delta, |p.runes| + 1, p.i == 0);
    var next := Inserted(codes, n, j, delta, p);
    NothingLeft(n - next.n, |next.runes| + 1);
  }

  lemma InsertIsInserted(codes: seq<Rune>, n: nat, j: nat, delta: nat, p: Progress, b: nat)
    requires InStep(codes, n, j, delta, p, b) && j < |codes| && codes[j] == n
    requires |p.runes| < MAX_INT32 && p.i + delta <= MAX_INT32
    ensures Place(codes, n, j) <= |p.runes|
    ensures Insert(p, p.i + delta) == if Insertable(n) then Some(Inserted(codes, n, j, delta, p)) else None
  {
    hide Insert, Insertable, AdaptLoop, Adapt, Below, Times, Handled, Place;
    HandledNext(codes, n, j);
    InsertSplits(p, n - p.n, Place(codes, n, j), p.i + delta);
  }

  lemma NothingLeft(a: nat, b: nat)
    requires a == 0
    ensures Times(a, b) == 0
  {
  }

  lemma InsertSplits(p: Progress, q: nat, at: nat, value: Int31)
    requires at <= |p.runes| < MAX_INT32 && p.i <= value
    requires value == Times(q, |p.runes| + 1) + at
    ensures Insert(p, value) ==
            if q > MAX_INT32 - p.n then None else InsertAt(p, p.n + q, at, value - p.i)
  {
    hide InsertAt, Times;
    DivUnique(q, at, |p.runes| + 1);
  }

  lemma Emission(codes: seq<Rune>, n: nat, j: nat, delta: nat, p: Progress, b: nat, tail: seq<char>) returns (next: Progress)
    requires InStep(codes, n, j, delta, p, b) && j < |codes| && codes[j] == n
    requires |WriteVarInt(delta, BASE, p.bias)| + |tail| + |p.runes| <= MAX_INT32
    ensures !Fits(codes, j, n, p) ==> DecodeFrom(WriteVarInt(delta, BASE, p.bias) + tail, p) == None
    ensures Fits(codes, j, n, p) ==>
              && next.bias == Adapt(delta, |p.runes| + 1, |p.runes| == b)
              && next.n == n && |next.runes| == |p.runes| + 1
              && InStep(codes, n, j + 1, 0, next, b)
              && DecodeFrom(WriteVarInt(delta, BASE, p.bias) + tail, p) == DecodeFrom(tail, next)
  {
    hide Insert, Insertable, ReadVarInt, WriteVarInt, AdaptLoop, Adapt, Below, Times, Handled, Place;
    ReadsWhatWasWritten(delta, p.i, 1, BASE, p.bias, tail);
    TimesIs(delta, 1);
    next := p;
    if p.i + delta <= MAX_INT32 {
      InsertIsInserted(codes, n, j, delta, p, b);
      InsertedInStep(codes, n, j, delta, p, b);
      next := Inserted(codes, n, j, delta, p);
    }
  }

  predicate Occurs(codes: seq<Rune>, j: nat, n: nat) {
    exists x :: j <= x < |codes| && codes[x] == n
  }

  /** What the decoder makes of a pass: refused, or left in step at its end. */
  predicate PassOutcome(codes: seq<Rune>, j: nat, n: nat, e: Encoded, p: Progress, b: nat, tail: seq<char>, last: Progress)
    requires j <= |codes| && p.n <= n
    requires |e.text| + |tail| + |p.runes| <= MAX_INT32
  {
    if !PassFits(codes, j, n, p.n) then DecodeFrom(e.text + tail, p) == None
    else
      && InStep(codes, n, |codes|, e.delta, last, b)
      && e.bias == last.bias && e.h == |last.runes|
      && last.n == (if Occurs(codes, j, n) then n else p.n)
      && |tail| + |last.runes| <= MAX_INT32
      && DecodeFrom(e.text + tail, p) == DecodeFrom(tail, last)
  }

  lemma {:induction false} PassDecodes(codes: seq<Rune>, j: nat, n: nat, delta: nat, p: Progress, b: nat, tail: seq<char>)
    returns (last: Progress)
    requires InStep(codes, n, j, delta, p, b)
    requires |Pass(codes, j, n, delta, p.bias, |p.runes|, b).text| + |tail| + |p.runes| <= MAX_INT32
    ensures PassOutcome(codes, j, n, Pass(codes, j, n, delta, p.bias, |p.runes|, b), p, b, tail, last)
    decreases |codes| - j
  {
    last := p;
    if j == |codes| {
      assert [] + tail == tail;
    } else if codes[j] != n {
      var delta' := if codes[j] < n then delta + 1 else delta;
      HandledNext(codes, n, j);
      assert Pass(codes, j, n, delta, p.bias, |p.runes|, b) == Pass(codes, j + 1, n, delta', p.bias, |p.runes|, b);
      last := PassDecodes(codes, j + 1, n, delta', p, b, tail);
    } else {
      last := PassEmits(codes, j, n, delta, p, b, tail);
    }
  }

  lemma {:induction false} PassEmits(codes: seq<Rune>, j: nat, n: nat, delta: nat, p: Progress, b: nat, tail: seq<char>)
    returns (last: Progress)
    requires InStep(codes, n, j, delta, p, b) && j < |codes| && codes[j] == n
    requires |Pass(codes, j, n, delta, p.bias, |p.runes|, b).text| + |tail| + |p.runes| <= MAX_INT32
    ensures PassOutcome(codes, j, n, Pass(codes, j, n, delta, p.bias, |p.runes|, b), p, b, tail, last)
    decreases |codes| - j, 0
  {
    hide DecodeFrom, WriteVarInt, Adapt, Insertable;
    var e := Pass(codes, j, n, delta, p.bias, |p.runes|, b);
    var own := WriteVarInt(delta, BASE, p.bias);
    var rest := Pass(codes, j + 1, n, 0, Adapt(delta, |p.runes| + 1, |p.runes| == b), |p.runes| + 1, b);
    assert e.text + tail == own + (rest.text + tail);
    var next := Emission(codes, n, j, delta, p, b, rest.text + tail);
    last := p;
    if Fits(codes, j, n, p) {
      last := PassDecodes(codes, j + 1, n, 0, next, b, tail);
    }
  }

  lemma {:induction false} BelowAll(codes: seq<Rune>, n: int)
    requires forall j :: 0 <= j < |codes| ==> codes[j] < n
    ensures Below(codes, n) == codes
  {
    if codes != [] {
      BelowAll(codes[1..], n);
    }
  }

  lemma {:induction false} BelowGap(codes: seq<Rune>, n: int, m: int)
    requires n <= m && forall j :: 0 <= j < |codes| ==> codes[j] < n || m <= codes[j]
    ensures Below(codes, n) == Below(codes, m)
  {
    if codes != [] {
      BelowGap(codes[1..], n, m);
    }
  }

  /** Between passes: everything below `n` is handled, and `delta` counts from there. */
  predicate BetweenPasses(codes: seq<Rune>, n: nat, delta: nat, p: Progress, b: nat) {
    && p.n <= n <= MAX_RUNE + 1
    && p.runes == Below(codes, n)
    && p.i <= |p.runes| && p.bias <= 215
    && b <= |p.runes| && (|p.runes| == b <==> p.i == 0)
    && delta + p.i == Times(n - p.n, |p.runes| + 1)
  }

  lemma NextPassStarts(codes: seq<Rune>, n: nat, m: nat, delta: nat, p: Progress, b: nat)
    requires BetweenPasses(codes, n, delta, p, b)
    requires NextCodePoint(codes, n) == Some(m)
    ensures InStep(codes, m, 0, delta + Times(m - n, |p.runes| + 1), p, b)
  {
    FirstPosition(codes, n, m);
    TimesDistributes(m - n, n - p.n, |p.runes| + 1);
    assert (m - n) + (n - p.n) == m - p.n;
  }

  lemma FirstPosition(codes: seq<Rune>, n: nat, m: nat)
    requires NextCodePoint(codes, n) == Some(m)
    ensures Handled(codes, m, 0) == Below(codes, n) && Place(codes, m, 0) == 0
  {
    BelowGap(codes, n, m);
    assert codes[0..] == codes;
  }

  lemma PassEnds(codes: seq<Rune>, n: nat, delta: nat, p: Progress, b: nat)
    requires InStep(codes, n, |codes|, delta, p, b)
    ensures BetweenPasses(codes, n + 1, delta + 1, p, b)
  {
    assert codes[..|codes|] == codes;
  }

  /** One pass, from between passes to between passes. */
  lemma OnePass(codes: seq<Rune>, n: nat, m: nat, delta: nat, p: Progress, b: nat, tail: seq<char>) returns (last: Progress)
    requires BetweenPasses(codes, n, delta, p, b) && NextCodePoint(codes, n) == Some(m)
    requires |Pass(codes, 0, m, delta + Times(m - n, |p.runes| + 1), p.bias, |p.runes|, b).text| + |tail| + |p.runes| <= MAX_INT32
    ensures var e := Pass(codes, 0, m, delta + Times(m - n, |p.runes| + 1), p.bias, |p.runes|, b);
            if !PassFits(codes, 0, m, p.n) then DecodeFrom(e.text + tail, p) == None
            else
              && BetweenPasses(codes, m + 1, e.delta + 1, last, b)
              && e.bias == last.bias && e.h == |last.runes| && last.n == m
              && |tail| + |last.runes| <= MAX_INT32
              && DecodeFrom(e.text + tail, p) == DecodeFrom(tail, last)
  {
    NextPassStarts(codes, n, m, delta, p, b);
    last := PassDecodes(codes, 0, m, delta + Times(m - n, |p.runes| + 1), p, b, tail);
    if PassFits(codes, 0, m, p.n) {
      assert Occurs(codes, 0, m);
      PassEnds(codes, m, Pass(codes, 0, m, delta + Times(m - n, |p.runes| + 1), p.bias, |p.runes|, b).delta, last, b);
    }
  }

  lemma {:induction false} PassesDecode(codes: seq<Rune>, n: nat, delta: nat, p: Progress, b: nat)
    requires BetweenPasses(codes, n, delta, p, b)
    requires |Passes(codes, n, delta, p.bias, |p.runes|, b)| + |p.runes| <= MAX_INT32
    ensures DecodeFrom(Passes(codes, n, delta, p.bias, |p.runes|, b), p) ==
            if FitsFrom(codes, n, p.n) then Some(codes) else None
    decreases MAX_RUNE + 1 - n
  {
    if NextCodePoint(codes, n).None? {
      BelowAll(codes, n);
    } else {
      var m := NextCodePoint(codes, n).value;
      var e := Pass(codes, 0, m, delta + Times(m - n, |p.runes| + 1), p.bias, |p.runes|, b);
      var tail := Passes(codes, m + 1, e.delta + 1, e.bias, e.h, b);
      var last := OnePass(codes, n, m, delta, p, b, tail);
      if PassFits(codes, 0, m, p.n) {
        PassesDecode(codes, m + 1, e.delta + 1, last, b);
      }
    }
  }

  lemma {:induction false} LastDelimiterIs(a: seq<char>, b: seq<char>)
    requires '-' !in b
    ensures LastDelimiter(a + ['-'] + b) == |a|
  {
    var s := a + ['-'] + b;
    if b != [] {
      assert s[..|s| - 1] == a + ['-'] + b[..|b| - 1];
      assert s[|s| - 1] == b[|b| - 1];
      LastDelimiterIs(a, b[..|b| - 1]);
    }
  }

  lemma NoDelimiter(s: seq<char>)
    requires '-' !in s
    ensures LastDelimiter(s) == -1
  {
  }

  /**
   The decoder gives back exactly the labels it can count, and refuses the encoding of every
   other one: there is no label it decodes to something else.
   */
  lemma DecodeInvertsEncode(codes: seq<Rune>)
    requires |Encode(codes)| <= MAX_INT32
    ensures Decode(Encode(codes)) == if Countable(codes) then Some(codes) else None
  {
    hide DecodeFrom, Passes, Below, FitsFrom;
    var basic := Below(codes, INITIAL_N);
    var b := |basic|;
    var tail := Passes(codes, INITIAL_N, 0, INITIAL_BIAS, b, b);
    var p := Progress(INITIAL_N, 0, INITIAL_BIAS, basic);
    PassesDecode(codes, INITIAL_N, 0, p, b);
    if basic == [] {
      assert Encode(codes) == tail;
      NoDelimiter(tail);
    } else {
      var chars := CharsOf(basic);
      var s := chars + ['-'] + tail;
      assert Encode(codes) == s;
      LastDelimiterIs(chars, tail);
      assert s[..b] == chars && s[b + 1..] == tail;
      assert CodesOf(chars) == basic;
    }
  }

  // ---- which labels those are ------------------------------------------------------

  lemma {:induction false} ShortPassFits(codes: seq<Rune>, j: nat, n: nat, prev: nat)
    requires j <= |codes| <= 1927 && INITIAL_N <= prev <= n <= MAX_RUNE && Insertable(n)
    ensures PassFits(codes, j, n, prev)
    decreases |codes| - j
  {
    if j < |codes| {
      ShortPassFits(codes, j + 1, n, if codes[j] == n then n else prev);
      if codes[j] == n {
        HandledIsPart(codes, n, j);
        TimesCommutes(n - prev, |Handled(codes, n, j)| + 1);
        TimesMonotone(|Handled(codes, n, j)| + 1, 1927, n - prev);
        TimesIs(1927, n - prev);
      }
    }
  }

  lemma HandledIsPart(codes: seq<Rune>, n: nat, j: nat)
    requires j < |codes| && codes[j] == n
    ensures |Handled(codes, n, j)| < |codes| && Place(codes, n, j) <= j
  {
    assert codes[j..][1..] == codes[j + 1..];
  }

  lemma {:induction false} ShortFitsFrom(codes: seq<Rune>, n: nat, prev: nat)
    requires |codes| <= 1927 && INITIAL_N <= prev <= n <= MAX_RUNE + 1
    requires forall x :: 0 <= x < |codes| && codes[x] >= INITIAL_N ==> Insertable(codes[x])
    ensures FitsFrom(codes, n, prev)
    decreases MAX_RUNE + 1 - n
  {
    match NextCodePoint(codes, n)
    case None =>
    case Some(m) =>
      ShortPassFits(codes, 0, m, prev);
      ShortFitsFrom(codes, m + 1, m);
  }

  /**
   Up to 1927 code points - far past the 63 octets of any label - the 32-bit guards never fire:
   every label of code points the decoder takes is decoded.
   */
  lemma ShortLabelsAreCountable(codes: seq<Rune>)
    requires |codes| <= 1927
    requires forall x :: 0 <= x < |codes| && codes[x] >= INITIAL_N ==> Insertable(codes[x])
    ensures Countable(codes)
  {
    ShortFitsFrom(codes, INITIAL_N, INITIAL_N);
  }

  lemma {:induction false} PassTakes(codes: seq<Rune>, j: nat, n: nat, prev: nat, x: nat)
    requires j <= x < |codes| && prev <= n && codes[x] == n && PassFits(codes, j, n, prev)
    ensures Insertable(n)
    decreases |codes| - j
  {
    if codes[j] != n {
      PassTakes(codes, j + 1, n, prev, x);
    }
  }

  /** What is counted holds only code points the decoder takes. */
  lemma {:induction false} CountedIsTakeable(codes: seq<Rune>, n: nat, prev: nat, x: nat)
    requires x < |codes| && prev <= n <= codes[x] && FitsFrom(codes, n, prev)
    ensures Insertable(codes[x])
    decreases MAX_RUNE + 1 - n
  {
    var m := NextCodePoint(codes, n).value;
    if codes[x] == m {
      PassTakes(codes, 0, m, prev, x);
    } else {
      CountedIsTakeable(codes, m + 1, m, x);
    }
  }

  /** The same pass with the overflow check section 6.4 asks of an encoder, at 32 bits. */
  predicate PassEncodes(codes: seq<Rune>, j: nat, n: nat, delta: nat)
    requires j <= |codes|
    decreases |codes| - j
  {
    && delta <= MAX_INT32
    && (j < |codes| ==>
          PassEncodes(codes, j + 1, n, if codes[j] < n then delta + 1 else if codes[j] > n then delta else 0))
  }

  predicate Encodes(codes: seq<Rune>, n: nat, delta: nat, bias: nat, h: nat, b: nat)
    requires n <= MAX_RUNE + 1
    decreases MAX_RUNE + 1 - n
  {
    match NextCodePoint(codes, n)
    case None => true
    case Some(m) =>
      var e := Pass(codes, 0, m, delta + Times(m - n, h + 1), bias, h, b);
      && PassEncodes(codes, 0, m, delta + Times(m - n, h + 1))
      && Encodes(codes, m + 1, e.delta + 1, e.bias, e.h, b)
  }

  predicate EncoderDoesNotOverflow(codes: seq<Rune>) {
    var b := |Below(codes, INITIAL_N)|;
    Encodes(codes, INITIAL_N, 0, INITIAL_BIAS, b, b)
  }

  // ---- an allowed label whose encoding is refused ------------------------------------

  /** A label of 53,688 stable letters: an ideograph, 53,686 letters a, one U+00E0. */
  const LETTERS: seq<Rune> := seq(53686, _ => 0x61)
  const REFUSED: seq<Rune> := [0x9d20] + LETTERS + [0xe0]

  lemma {:induction false} SkipSmaller(codes: seq<Rune>, j: nat, to: nat, n: nat, delta: nat, bias: nat, h: nat, b: nat)
    requires j <= to <= |codes| && forall x :: j <= x < to ==> codes[x] < n
    requires delta + (to - j) <= MAX_INT32
    ensures Pass(codes, j, n, delta, bias, h, b) == Pass(codes, to, n, delta + (to - j), bias, h, b)
    ensures PassEncodes(codes, j, n, delta) == PassEncodes(codes, to, n, delta + (to - j))
    decreases |codes| - j
  {
    if j < to {
      SkipSmaller(codes, j + 1, to, n, delta + 1, bias, h, b);
    }
  }

  lemma RefusedShape()
    ensures |REFUSED| == 53688 && REFUSED[0] == 0x9d20 && REFUSED[53687] == 0xe0
    ensures forall x :: 0 < x < 53687 ==> REFUSED[x] == 0x61
    ensures NextCodePoint(REFUSED, INITIAL_N) == Some(0xe0)
    ensures NextCodePoint(REFUSED, 0xe1) == Some(0x9d20)
    ensures NextCodePoint(REFUSED, 0x9d21) == None
  {
    assert REFUSED[53687] in REFUSED && REFUSED[0] in REFUSED;
  }

  lemma RefusedIsAllowed()
    ensures AllowedLabel(REFUSED)
  {
    RefusedShape();
    hide NextCodePoint;
    forall r | r in REFUSED ensures HyphenDigitOrLower(r) || StableLetter(r) {
      var x :| 0 <= x < |REFUSED| && REFUSED[x] == r;
    }
    assert REFUSED[0] in REFUSED;
  }

  lemma RefusedBelow()
    ensures |Below(REFUSED, INITIAL_N)| == 53686
    ensures |Handled(REFUSED, 0x9d20, 0)| == 53687
  {
    var small := LETTERS + [0xe0];
    assert REFUSED == [0x9d20] + small && REFUSED[1..] == small;
    assert REFUSED[0..] == REFUSED;
    BelowAll(LETTERS, INITIAL_N);
    BelowAppend(LETTERS, [0xe0], INITIAL_N);
    BelowAll(small, 0x9d20);
  }

  lemma RefusedProducts()
    ensures Times(0xe0 - INITIAL_N, 53687) == 5153952
    ensures Times(0x9d20 - 0xe1, 53688) == 2147466312
    ensures Times(0x9d20 - 0xe0, 53688) == 2147520000
  {
    TimesIs(0xe0 - INITIAL_N, 53687);
    TimesIs(0x9d20 - 0xe1, 53688);
    TimesIs(0x9d20 - 0xe0, 53688);
  }

  /** The two passes of the encoder over it: each emits one delta. */
  lemma RefusedPasses()
    ensures EncoderDoesNotOverflow(REFUSED)
    ensures exists bias :: Passes(REFUSED, INITIAL_N, 0, INITIAL_BIAS, 53686, 53686) ==
              WriteVarInt(5207638, BASE, INITIAL_BIAS) + WriteVarInt(2147466313, BASE, bias)
  {
    hide Times, Below, NextCodePoint, Adapt, WriteVarInt;
    var c, m, b := REFUSED, 0x9d20, 53686;
    RefusedShape();
    RefusedBelow();
    RefusedProducts();
    SkipSmaller(c, 1, 53687, 0xe0, 5153952, INITIAL_BIAS, b, b);
    var e := Pass(c, 0, 0xe0, 5153952, INITIAL_BIAS, b, b);
    assert e.delta == 0 && e.h == 53687;
    assert e.text == WriteVarInt(5207638, BASE, INITIAL_BIAS);
    SkipSmaller(c, 1, 53688, m, 0, Adapt(2147466313, 53688, false), 53688, b);
    var last := Pass(c, 0, m, 2147466313, e.bias, 53687, b);
    assert last.text == WriteVarInt(2147466313, BASE, e.bias);
    assert Passes(c, m + 1, last.delta + 1, last.bias, last.h, b) == [];
  }

  lemma {:induction false} WrittenLength(q: nat, k: nat, bias: nat)
    ensures |WriteVarInt(q, k, bias)| <= q + 1
    decreases q
  {
    var t := Threshold(k, bias);
    if q >= t {
      DivMod(q - t, BASE - t);
      WrittenLength((q - t) / (BASE - t), k + BASE, bias);
    }
  }

  lemma WrittenIsShort(q: nat, k: nat, bias: nat)
    ensures |WriteVarInt(q, k, bias)| <= q / 10 + 2
  {
    var t := Threshold(k, bias);
    if q >= t {
      DivMod(q - t, BASE - t);
      WrittenLength((q - t) / (BASE - t), k + BASE, bias);
      TenAtLeast(q, t);
    }
  }

  lemma TenAtLeast(q: nat, t: nat)
    requires 1 <= t <= 26 && t <= q
    ensures (q - t) / (BASE - t) <= q / 10
  {
    var d := (q - t) / (BASE - t);
    DivMod(q - t, BASE - t);
    TimesCommutes(d, BASE - t);
    TimesMonotone(10, BASE - t, d);
    TimesIs(10, d);
  }

  lemma RefusedIsShort()
    ensures |Encode(REFUSED)| <= MAX_INT32
  {
    RefusedBelow();
    RefusedPasses();
    hide Below, Passes, WriteVarInt, EncoderDoesNotOverflow, Handled;
    var bias :| Passes(REFUSED, INITIAL_N, 0, INITIAL_BIAS, 53686, 53686) ==
                WriteVarInt(5207638, BASE, INITIAL_BIAS) + WriteVarInt(2147466313, BASE, bias);
    WrittenIsShort(5207638, BASE, INITIAL_BIAS);
    WrittenIsShort(2147466313, BASE, bias);
  }

  /**
   An encoder that never overflows is not enough: the decoder counts from its own cursor, not
   from the last insertion, and so runs past 32 bits on this label while every delta fits. The
   label is one `allowedLabel` takes, so it is the 32-bit guard that makes the source refuse it.
   */
  lemma NotEveryEncodedLabelDecodes()
    ensures AllowedLabel(REFUSED) && EncoderDoesNotOverflow(REFUSED) && !Countable(REFUSED)
    ensures |Encode(REFUSED)| <= MAX_INT32 && Decode(Encode(REFUSED)) == None
  {
    RefusedIsAllowed();
    RefusedIsShort();
    RefusedPasses();
    RefusedIsUncountable();
    hide *;
    DecodeInvertsEncode(REFUSED);
  }

  lemma RefusedIsUncountable()
    ensures !Countable(REFUSED)
  {
    hide Times, Below, Handled, NextCodePoint;
    RefusedShape();
    RefusedBelow();
    RefusedProducts();
    assert !PassFits(REFUSED, 0, 0x9d20, 0xe0);
  }
}
