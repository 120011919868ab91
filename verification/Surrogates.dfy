/**
 `loneSurrogate` (ws_relay.go): whether the text of a JSON string spells half of a UTF-16 pair
 with no other half.
 */
module Surrogates {
  import opened Json
  import opened Wrappers

  /** What a JSON string is made of: characters, escaped characters, and code units. */
  datatype Token = Plain(c: char) | Escape(c: char) | Unit(v: nat)

  function HexValue(c: char): nat
    requires IsHex(c)
  {
    if IsDigit(c) then c as int - '0' as int
    else if 'a' <= c <= 'f' then c as int - 'a' as int + 10
    else c as int - 'A' as int + 10
  }

  /** `hex4`. */
  function Hex4(s: string, at: nat): Option<nat> {
    if at + 4 <= |s| && IsHex(s[at]) && IsHex(s[at + 1]) && IsHex(s[at + 2]) && IsHex(s[at + 3])
    then Some(HexValue(s[at]) * 4096 + HexValue(s[at + 1]) * 256 + HexValue(s[at + 2]) * 16 + HexValue(s[at + 3]))
    else None
  }

  /** The tokens from `i` on, if every escape there is one JSON has. */
  function Tokens(s: string, i: nat): Option<seq<Token>>
    requires i <= |s|
    decreases |s| - i
  {
    if i == |s| then Some([])
    else if s[i] != '\\' then Prepend(Plain(s[i]), Tokens(s, i + 1))
    else if i + 1 == |s| then None
    else if s[i + 1] != 'u' then Prepend(Escape(s[i + 1]), Tokens(s, i + 2))
    else match Hex4(s, i + 2)
      case None => None
      case Some(v) => Prepend(Unit(v), Tokens(s, i + 6))
  }

  function Prepend(t: Token, rest: Option<seq<Token>>): Option<seq<Token>> {
    match rest case None => None case Some(tokens) => Some([t] + tokens)
  }

  predicate High(t: Token) {
    t.Unit? && 0xD800 <= t.v <= 0xDBFF
  }

  predicate Low(t: Token) {
    t.Unit? && 0xDC00 <= t.v <= 0xDFFF
  }

  /** A surrogate at `i` that has its other half right beside it. */
  predicate Paired(tokens: seq<Token>, i: nat)
    requires i < |tokens|
  {
    if High(tokens[i]) then i + 1 < |tokens| && Low(tokens[i + 1])
    else if Low(tokens[i]) then i > 0 && High(tokens[i - 1])
    else true
  }

  /** Every half has its other half: the text is UTF-16, as JSON.parse reads it. */
  predicate AllPaired(tokens: seq<Token>) {
    forall i :: 0 <= i < |tokens| ==> Paired(tokens, i)
  }

  /** `loneSurrogate`: of the text of a JSON string, whether some half stands alone. */
  method LoneSurrogate(s: string) returns (lone: bool)
    requires Tokens(s, 0).Some?
    ensures lone <==> !AllPaired(Tokens(s, 0).value)
  {
    hide Hex4, AllPaired, Tokens;
    var i := 0;
    while i < |s|
      invariant 0 <= i <= |s| && Tokens(s, i).Some?
      invariant AllPaired(Tokens(s, 0).value) <==> AllPaired(Tokens(s, i).value)
      decreases |s| - i
    {
      TokensNext(s, i);
      if s[i] != '\\' {
        Single(Plain(s[i]), Tokens(s, i + 1).value);
        i := i + 1;
        continue;
      }
      if i + 1 < |s| && s[i + 1] != 'u' {
        Single(Escape(s[i + 1]), Tokens(s, i + 2).value);
        i := i + 2;
        continue;
      }
      var hi := Hex4(s, i + 2);
      if hi.None? {
        return false;
      }
      ghost var rest := Tokens(s, i + 6).value;
      if 0xDC00 <= hi.value <= 0xDFFF {
        LowFirst(Unit(hi.value), rest);
        return true;
      } else if 0xD800 <= hi.value <= 0xDBFF {
        HighFirst(s, i + 6, Unit(hi.value));
        var lo := Hex4(s, i + 8);
        HexFits(s, i + 8);
        if lo.None? || s[i + 6] != '\\' || s[i + 7] != 'u' || lo.value < 0xDC00 || lo.value > 0xDFFF {
          return true;
        }
        TokensNext(s, i + 6);
        Pair(Unit(hi.value), Unit(lo.value), Tokens(s, i + 12).value);
        i := i + 12;
      } else {
        Single(Unit(hi.value), rest);
        i := i + 6;
      }
    }
    NothingIsPaired(s);
    return false;
  }

  /** The digit of a value, in either case. */
  predicate Spells(c: char, v: nat)
    requires v < 16
  {
    c == "0123456789ABCDEF"[v] || c == "0123456789abcdef"[v]
  }

  lemma HexTable()
    ensures forall v :: 0 <= v < 10 ==> "0123456789ABCDEF"[v] as int == 48 + v && "0123456789abcdef"[v] as int == 48 + v
    ensures forall v :: 10 <= v < 16 ==> "0123456789ABCDEF"[v] as int == 55 + v && "0123456789abcdef"[v] as int == 87 + v
  {
  }

  lemma HexValueIs(c: char, v: nat)
    requires v < 16
    ensures IsHex(c) && HexValue(c) == v <==> Spells(c, v)
    ensures IsHex(c) ==> HexValue(c) < 16
  {
    HexTable();
  }

  lemma Nibble(x: nat, d: nat, v: nat)
    requires d < 16
    ensures v == 16 * x + d <==> v / 16 == x && v % 16 == d
  {
  }

  lemma Nibbles(a: nat, b: nat, c: nat, d: nat, v: nat)
    requires b < 16 && c < 16 && d < 16
    ensures v == a * 4096 + b * 256 + c * 16 + d <==> v / 16 / 16 / 16 == a && v / 16 / 16 % 16 == b && v / 16 % 16 == c && v % 16 == d
  {
    Nibble(a * 256 + b * 16 + c, d, v);
    Nibble(a * 16 + b, c, v / 16);
    Nibble(a, b, v / 16 / 16);
  }

  /** Four digits, the first of them counting most. */
  lemma Hex4Is(s: string, at: nat, v: nat)
    requires v < 65536
    ensures Hex4(s, at) == Some(v) <==>
              at + 4 <= |s| && Spells(s[at], v / 16 / 16 / 16) && Spells(s[at + 1], v / 16 / 16 % 16)
              && Spells(s[at + 2], v / 16 % 16) && Spells(s[at + 3], v % 16)
  {
    hide Spells, HexValue, IsHex;
    if at + 4 <= |s| {
      HexValueIs(s[at], v / 16 / 16 / 16);
      HexValueIs(s[at + 1], v / 16 / 16 % 16);
      HexValueIs(s[at + 2], v / 16 % 16);
      HexValueIs(s[at + 3], v % 16);
      if IsHex(s[at]) && IsHex(s[at + 1]) && IsHex(s[at + 2]) && IsHex(s[at + 3]) {
        Nibbles(HexValue(s[at]), HexValue(s[at + 1]), HexValue(s[at + 2]), HexValue(s[at + 3]), v);
      }
    }
  }

  lemma HexFits(s: string, at: nat)
    ensures Hex4(s, at).Some? ==> at + 4 <= |s|
  {
  }

  lemma TokensNext(s: string, i: nat)
    requires i < |s| && Tokens(s, i).Some?
    ensures s[i] != '\\' ==> Tokens(s, i + 1).Some? && Tokens(s, i).value == [Plain(s[i])] + Tokens(s, i + 1).value
    ensures s[i] == '\\' ==> i + 1 < |s|
    ensures s[i] == '\\' && s[i + 1] != 'u' ==>
              Tokens(s, i + 2).Some? && Tokens(s, i).value == [Escape(s[i + 1])] + Tokens(s, i + 2).value
    ensures s[i] == '\\' && s[i + 1] == 'u' ==>
              Hex4(s, i + 2).Some? && i + 6 <= |s| && Tokens(s, i + 6).Some?
              && Tokens(s, i).value == [Unit(Hex4(s, i + 2).value)] + Tokens(s, i + 6).value
  {
  }

  lemma NothingIsPaired(s: string)
    ensures Tokens(s, |s|) == Some([]) && AllPaired([])
  {
  }

  /** A token that is no surrogate stands between the pairs. */
  lemma Single(t: Token, rest: seq<Token>)
    requires !High(t) && !Low(t)
    ensures AllPaired([t] + rest) <==> AllPaired(rest)
  {
    var all := [t] + rest;
    if AllPaired(all) {
      forall i | 0 <= i < |rest| ensures Paired(rest, i) {
        assert Paired(all, i + 1);
      }
    }
    if AllPaired(rest) {
      forall i | 0 <= i < |all| ensures Paired(all, i) {
        if i > 0 {
          assert Paired(rest, i - 1);
        }
      }
    }
  }

  lemma LowFirst(t: Token, rest: seq<Token>)
    requires Low(t)
    ensures !AllPaired([t] + rest)
  {
    assert !Paired([t] + rest, 0);
  }

  /** A first half is alone unless the next thing is the escape of a second half. */
  lemma HighFirst(s: string, i: nat, t: Token)
    requires i <= |s| && Tokens(s, i).Some? && High(t)
    ensures AllPaired([t] + Tokens(s, i).value) ==>
              i + 6 <= |s| && s[i] == '\\' && s[i + 1] == 'u' && Hex4(s, i + 2).Some? && 0xDC00 <= Hex4(s, i + 2).value <= 0xDFFF
  {
    var rest := Tokens(s, i).value;
    if AllPaired([t] + rest) {
      assert Paired([t] + rest, 0);
      TokensNext(s, i);
    }
  }

  lemma Pair(hi: Token, lo: Token, rest: seq<Token>)
    requires High(hi) && Low(lo)
    ensures AllPaired([hi] + ([lo] + rest)) <==> AllPaired(rest)
  {
    var all := [hi] + ([lo] + rest);
    if AllPaired(all) {
      forall i | 0 <= i < |rest| ensures Paired(rest, i) {
        assert Paired(all, i + 2);
      }
    }
    if AllPaired(rest) {
      forall i | 0 <= i < |all| ensures Paired(all, i) {
        if i > 1 {
          assert Paired(rest, i - 2);
        }
      }
    }
  }
}
