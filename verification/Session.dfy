/** The session cookie (session.go): which one is the session, and its envelope, read by hand. */
module Session {
  import opened Json
  import opened Wrappers

  const INT64_MIN := -0x8000_0000_0000_0000
  const INT64_MAX := 0x7FFF_FFFF_FFFF_FFFF
  const COOKIE_MAX_LENGTH := 4096

  datatype Envelope = Envelope(exp: int, iat: int, data: string)

  // ---- integers as they are spelled --------------------------------------------------

  predicate AllDigits(s: string) {
    forall j :: 0 <= j < |s| ==> IsDigit(s[j])
  }

  function DigitsValue(s: string): int
    requires AllDigits(s)
  {
    if s == "" then 0 else DigitsValue(s[..|s| - 1]) * 10 + (s[|s| - 1] as int - '0' as int)
  }

  function Unsigned(text: string): string {
    if text != "" && text[0] == '-' then text[1..] else text
  }

  /** An integer as JSON spells one: no plus, no leading zero, at least one digit. */
  predicate IntText(text: string) {
    var digits := Unsigned(text);
    digits != "" && AllDigits(digits) && (digits[0] == '0' ==> |digits| == 1)
  }

  /** strconv.ParseInt, of such a text, in 64 bits. */
  function ParseInt(text: string): Option<int>
    requires IntText(text)
  {
    var n := DigitsValue(Unsigned(text));
    var signed := if text[0] == '-' then -n else n;
    if INT64_MIN <= signed <= INT64_MAX then Some(signed) else None
  }

  /** `text` is the integer that stands between `prefix` and `rest`. */
  predicate IntThere(b: string, prefix: string, text: string, rest: string) {
    b == prefix + text + rest && IntText(text) && (rest == "" || !IsDigit(rest[0]))
  }

  /** `envelopeInt`. */
  method EnvelopeInt(b: string, prefix: string) returns (ok: bool, n: int, rest: string, ghost text: string)
    ensures ok ==> IntThere(b, prefix, text, rest) && ParseInt(text) == Some(n)
    ensures !ok ==> forall t, r :: IntThere(b, prefix, t, r) ==> ParseInt(t).None?
  {
    ok, n, rest, text := false, 0, "", "";
    if |b| < |prefix| || b[..|prefix|] != prefix {
      return;
    }
    var s := b[|prefix|..];
    assert b == prefix + s;
    var end := 0;
    if end < |s| && s[end] == '-' {
      end := end + 1;
    }
    var digits := end;
    while end < |s| && IsDigit(s[end])
      invariant digits <= end <= |s| && AllDigits(s[digits..end])
    {
      assert s[digits..end + 1] == s[digits..end] + [s[end]];
      end := end + 1;
    }
    text, rest := s[..end], s[end..];
    ghost var found, after := text, rest;
    assert s == found + after;
    OneText(b, prefix, s, digits, end);
    if end == digits || (s[digits] == '0' && end - digits > 1) {
      return;
    }
    assert Unsigned(text) == s[digits..end];
    var parsed := ParseInt(s[..end]);
    if parsed.None? {
      return;
    }
    return true, parsed.value, rest, text;
  }

  /** There is one way to read an integer off: up to the first character that is no digit. */
  lemma OneText(b: string, prefix: string, s: string, digits: nat, end: nat)
    requires b == prefix + s && digits <= end <= |s| && digits == (if s != "" && s[0] == '-' then 1 else 0)
    requires AllDigits(s[digits..end]) && (end < |s| ==> !IsDigit(s[end]))
    ensures forall t, r :: IntThere(b, prefix, t, r) ==> t == s[..end] && r == s[end..]
    ensures (end == digits || (s[digits] == '0' && end - digits > 1)) ==> forall t, r :: !IntThere(b, prefix, t, r)
  {
    forall t, r | IntThere(b, prefix, t, r) ensures t == s[..end] && r == s[end..] {
      assert s == t + r by {
        assert b[|prefix|..] == s;
        assert prefix + t + r == prefix + (t + r);
        assert (prefix + (t + r))[|prefix|..] == t + r;
      }
      var d := Unsigned(t);
      assert t[0] == s[0];
      assert |t| == digits + |d|;
      SameEnd(s, t, r, digits, end);
    }
  }

  lemma SameEnd(s: string, t: string, r: string, digits: nat, end: nat)
    requires s == t + r && digits <= end <= |s| && digits <= |t|
    requires AllDigits(t[digits..]) && (r == "" || !IsDigit(r[0]))
    requires AllDigits(s[digits..end]) && (end < |s| ==> !IsDigit(s[end]))
    ensures t == s[..end] && r == s[end..]
  {
    forall j | digits <= j < end ensures IsDigit(s[j]) {
      assert s[digits..end][j - digits] == s[j];
    }
    forall j | digits <= j < |t| ensures IsDigit(s[j]) {
      assert t[digits..][j - digits] == s[j];
    }
    assert |t| < |s| ==> !IsDigit(s[|t|]);
    assert |t| == end;
  }

  // ---- the envelope -------------------------------------------------------------------

  const OPEN := "{\"exp\":"
  const SECOND := ",\"iat\":"
  const THIRD := ",\"data\":"

  /** A value with no white space around it. */
  predicate BareValue(s: string) {
    s != "" && !IsSpace(s[0]) && !IsSpace(s[|s| - 1]) && Valid(s)
  }

  /** The one spelling the fast path reads. */
  predicate Spells(raw: string, exp: string, iat: string, e: Envelope) {
    && raw == OPEN + exp + (SECOND + iat + (THIRD + e.data + "}"))
    && IntText(exp) && ParseInt(exp) == Some(e.exp)
    && IntText(iat) && ParseInt(iat) == Some(e.iat)
    && BareValue(e.data)
  }

  /** `fastEnvelope`. */
  method FastEnvelope(raw: string) returns (r: Option<Envelope>)
    ensures r.Some? ==> exists exp, iat :: Spells(raw, exp, iat, r.value)
    ensures r.None? ==> forall exp, iat, e :: !Spells(raw, exp, iat, e)
  {
    hide IntText, ParseInt, Json.Valid;
    var ok, exp, iat, rest;
    ghost var expText, iatText;
    ok, exp, rest, expText := EnvelopeInt(raw, OPEN);
    SpelledFirst(raw);
    if !ok {
      return None;
    }
    OneSplit(raw, OPEN, expText, rest);
    ghost var first := rest;
    ok, iat, rest, iatText := EnvelopeInt(rest, SECOND);
    if !ok {
      return None;
    }
    OneSplit(first, SECOND, iatText, rest);
    if |rest| < |THIRD| + 2 || rest[..|THIRD|] != THIRD || rest[|rest| - 1] != '}' {
      ThirdIsSpelled(rest);
      return None;
    }
    var data := rest[|THIRD|..|rest| - 1];
    assert rest == THIRD + data + "}";
    if IsSpace(data[0]) || IsSpace(data[|data| - 1]) || !Json.Valid(data) {
      OneThird(rest, data);
      return None;
    }
    r := Some(Envelope(exp, iat, data));
    assert Spells(raw, expText, iatText, r.value);
  }

  /** What is spelled is read by the fast path, one integer after the other. */
  lemma SpelledFirst(raw: string)
    ensures forall exp, iat, e :: Spells(raw, exp, iat, e) ==>
              && IntThere(raw, OPEN, exp, SECOND + iat + (THIRD + e.data + "}"))
              && IntThere(SECOND + iat + (THIRD + e.data + "}"), SECOND, iat, THIRD + e.data + "}")
  {
    hide IntText, ParseInt, Json.Valid;
  }

  /** Two readings of the same integer are the same. */
  lemma OneSplit(b: string, prefix: string, text: string, rest: string)
    requires IntThere(b, prefix, text, rest)
    ensures forall t, r :: IntThere(b, prefix, t, r) ==> t == text && r == rest
  {
    var s := text + rest;
    assert b == prefix + s;
    var digits := if s[0] == '-' then 1 else 0;
    assert s[digits..|text|] == Unsigned(text);
    OneText(b, prefix, s, digits, |text|);
    assert s[..|text|] == text && s[|text|..] == rest;
  }

  lemma ThirdIsSpelled(rest: string)
    ensures forall data :: data != "" && rest == THIRD + data + "}" ==>
              |rest| >= |THIRD| + 2 && rest[..|THIRD|] == THIRD && rest[|rest| - 1] == '}'
  {
    forall data | data != "" && rest == THIRD + data + "}"
      ensures |rest| >= |THIRD| + 2 && rest[..|THIRD|] == THIRD && rest[|rest| - 1] == '}'
    {
    }
  }

  lemma OneThird(rest: string, data: string)
    requires rest == THIRD + data + "}"
    ensures forall d :: rest == THIRD + d + "}" ==> d == data
  {
    forall d | rest == THIRD + d + "}" ensures d == data {
      assert rest[|THIRD|..|rest| - 1] == d;
      assert rest[|THIRD|..|rest| - 1] == data;
    }
  }

  // ---- the reference reading --------------------------------------------------------------

  function LowerCase(s: string): string {
    seq(|s|, j requires 0 <= j < |s| => if 'A' <= s[j] <= 'Z' then s[j] - 'A' + 'a' else s[j])
  }

  function HexValue(c: char): nat
    requires IsHex(c)
  {
    if '0' <= c <= '9' then c as nat - '0' as nat
    else if 'a' <= c <= 'f' then c as nat - 'a' as nat + 10
    else c as nat - 'A' as nat + 10
  }

  function Escape(c: char): char {
    match c
    case 'b' => '\U{8}'
    case 'f' => '\U{C}'
    case 'n' => '\n'
    case 'r' => '\r'
    case 't' => '\t'
    case _ => c
  }

  /** A name without its escapes; what an escape spells past ASCII is one character like any other. */
  function Unquoted(name: string): string {
    if name == "" then ""
    else if name[0] != '\\' || |name| == 1 then [name[0]] + Unquoted(name[1..])
    else if name[1] == 'u' && |name| >= 6 && IsHex(name[2]) && IsHex(name[3]) && IsHex(name[4]) && IsHex(name[5]) then
      var code := HexValue(name[4]) * 16 + HexValue(name[5]);
      [if name[2] == '0' && name[3] == '0' && code < 0x80 then code as char else '\U{FFFD}'] + Unquoted(name[6..])
    else [Escape(name[1])] + Unquoted(name[2..])
  }

  /** The names are matched in any case. */
  predicate Names(member: Member, name: string) {
    LowerCase(Unquoted(member.name)) == name
  }

  /** The last member of a name: what a decoder into a struct keeps of a raw message, null included. */
  function Last(members: seq<Member>, name: string): Option<string> {
    if members == [] then None
    else if Names(members[|members| - 1], name) then Some(members[|members| - 1].value)
    else Last(members[..|members| - 1], name)
  }

  /**
   What the members of a name leave in an integer of 64 bits: each sets it, null leaves what is
   there, and one of any other kind or size is an error, whatever follows it.
   */
  function IntMember(members: seq<Member>, name: string): Option<int> {
    if members == [] then Some(0)
    else
      var before, last := IntMember(members[..|members| - 1], name), members[|members| - 1];
      if before.None? || !Names(last, name) || last.value == "null" then before
      else if IntText(last.value) then ParseInt(last.value)
      else None
  }

  /** The slow path: the object's members, whatever their order and spacing; null decodes to nothing set. */
  function Decode(raw: string): Option<Envelope> {
    match ReadObject(raw)
    case None => if Json.Valid(raw) && At(raw, Space(raw, 0), 'n') then Some(Envelope(0, 0, "")) else None
    case Some(members) =>
      var exp, iat := IntMember(members, "exp"), IntMember(members, "iat");
      if exp.None? || iat.None? then None
      else Some(Envelope(exp.value, iat.value, match Last(members, "data") case None => "" case Some(data) => data))
  }

  /** Of the texts that are no object, null alone decodes, and sets nothing. */
  lemma OnlyNullDecodesBesides(raw: string)
    requires !At(raw, Space(raw, 0), '{')
    ensures Decode(raw) == if Json.Valid(raw) && Space(raw, 0) < |raw| && raw[Space(raw, 0)] == 'n' then Some(Envelope(0, 0, "")) else None
  {
    hide Json.Valid, Space;
  }

  /** What an integer member ends up as: none of its spellings is an error, and the last that is not null counts. */
  lemma {:induction false} IntMemberIsLastSet(members: seq<Member>, name: string)
    ensures IntMember(members, name).Some? <==>
              forall m :: m in members && Names(m, name) && m.value != "null" ==> IntText(m.value) && ParseInt(m.value).Some?
    ensures IntMember(members, name).Some? ==>
              IntMember(members, name).value == match Last(Set(members), name) case None => 0 case Some(text) => Read(text)
  {
    hide IntText, ParseInt, Names;
    if members != [] {
      var before, last := members[..|members| - 1], members[|members| - 1];
      IntMemberIsLastSet(before, name);
      assert members == before + [last];
      assert last.value != "null" ==> Set(members)[..|Set(members)| - 1] == Set(before);
    }
  }

  function Set(members: seq<Member>): seq<Member> {
    if members == [] then []
    else
      var before, last := Set(members[..|members| - 1]), members[|members| - 1];
      if last.value == "null" then before else before + [last]
  }

  function Read(text: string): int {
    if IntText(text) && ParseInt(text).Some? then ParseInt(text).value else 0
  }

  // ---- the values of a spelled envelope, as the reference reader finds them ----------------

  lemma {:induction false} DigitsEnd(s: string, i: nat)
    requires i <= |s| && AllDigits(s[i..])
    ensures Digits(s, i) == |s|
    decreases |s| - i
  {
    if i < |s| {
      assert s[i..][0] == s[i];
      assert s[i..][1..] == s[i + 1..];
      DigitsEnd(s, i + 1);
    }
  }

  lemma IntIsValue(text: string)
    requires IntText(text)
    ensures Value(text, 0) == Some(|text|)
  {
    hide Digits;
    var i := if text[0] == '-' then 1 else 0;
    assert text[i..] == Unsigned(text);
    DigitsEnd(text, i);
    assert IsDigit(text[i]);
  }

  /** White space at neither end: the value is the whole text. */
  lemma BareIsValue(s: string)
    requires BareValue(s)
    ensures Value(s, 0) == Some(|s|)
  {
    hide Value;
    var after := Value(s, 0).value;
    if after < |s| {
      SpaceToEnd(s, after);
    }
  }

  lemma {:induction false} SpaceToEnd(s: string, i: nat)
    requires i < |s| && Space(s, i) == |s|
    ensures IsSpace(s[|s| - 1])
    decreases |s| - i
  {
    if i + 1 < |s| {
      SpaceToEnd(s, i + 1);
    }
  }

  /** A plain name of letters, quoted, with its colon. */
  lemma NamedThere(s: string, i: nat, name: string)
    requires i + |name| + 3 < |s| && s[i] == '"' && s[i + 1..i + 1 + |name|] == name
    requires s[i + 1 + |name|] == '"' && s[i + 2 + |name|] == ':' && !IsSpace(s[i + 3 + |name|])
    requires forall j :: 0 <= j < |name| ==> 'a' <= name[j] <= 'z'
    ensures Name(s, i) == Some(i + |name| + 3) && Chars(s, i + 1) == Some(i + |name| + 2)
  {
    hide Chars;
    PlainChars(s, i + 1, i + 1 + |name|, name);
  }

  lemma {:induction false} PlainChars(s: string, i: nat, end: nat, name: string)
    requires i <= end < |s| && s[end] == '"' && s[i..end] == name
    requires forall j :: 0 <= j < |name| ==> 'a' <= name[j] <= 'z'
    ensures Chars(s, i) == Some(end + 1)
    decreases end - i
  {
    if i < end {
      assert name[0] == s[i] && s[i + 1..end] == name[1..];
      PlainChars(s, i + 1, end, name[1..]);
    }
  }

  /** One member of the envelope: where it stands, and what is read there. */
  lemma MemberThere(s: string, i: nat, name: string, value: string)
    requires i + |name| + 3 + |value| < |s| && s[i] == '"' && s[i + 1..i + 1 + |name|] == name
    requires s[i + 1 + |name|] == '"' && s[i + 2 + |name|] == ':'
    requires forall j :: 0 <= j < |name| ==> 'a' <= name[j] <= 'z'
    requires value != "" && !IsSpace(value[0]) && Value(value, 0) == Some(|value|)
    requires s[i + 3 + |name|..i + 3 + |name| + |value|] == value
    requires s[i + 3 + |name| + |value|] == ',' || s[i + 3 + |name| + |value|] == '}'
    ensures var start, end := i + |name| + 3, i + |name| + 3 + |value|;
            && Name(s, i) == Some(start) && Chars(s, i + 1) == Some(start - 1)
            && Value(s, start) == Some(end) && Space(s, end) == end
            && s[i + 1..start - 2] == name && s[start..end] == value
  {
    hide Value, Chars, Name;
    var start := i + 3 + |name|;
    assert s[start..start + |value|][0] == s[start];
    NamedThere(s, i, name);
    forall j | 0 <= j < |value| ensures s[start + j] == value[j] {
      assert s[start..start + |value|][j] == s[start + j];
    }
    ValueInside(value, s, start, 0);
  }

  lemma NextMember(s: string, i: nat, name: string, value: string)
    requires i <= |s| && Name(s, i).Some? && Value(s, Name(s, i).value).Some?
    requires var end := Value(s, Name(s, i).value).value; Space(s, end) == end
    requires Member(name, value) == Member(s[i + 1..Chars(s, i + 1).value - 1], s[Name(s, i).value..Value(s, Name(s, i).value).value])
    ensures var end := Value(s, Name(s, i).value).value;
            && (At(s, end, '}') ==> MembersAt(s, i) == Some(ReadMembers([Member(name, value)], end + 1)))
            && (At(s, end, ',') && MembersAt(s, Space(s, end + 1)).Some? ==>
                  MembersAt(s, i) == Some(ReadMembers([Member(name, value)] + MembersAt(s, Space(s, end + 1)).value.members,
                                                     MembersAt(s, Space(s, end + 1)).value.end)))
  {
    hide Value, Chars, Space, Name;
  }

  /** What stands at `i`: a member, written without a space. */
  predicate Stands(s: string, i: nat, name: string, value: string) {
    && i + |name| + 3 + |value| < |s| && s[i] == '"' && s[i + 1..i + 1 + |name|] == name
    && s[i + 1 + |name|] == '"' && s[i + 2 + |name|] == ':'
    && s[i + 3 + |name|..i + 3 + |name| + |value|] == value
  }

  function Quoted(name: string): string {
    ['"'] + name + ['"', ':']
  }

  lemma StandsFrom(s: string, i: nat, name: string, value: string, tail: string)
    requires i <= |s| && s[i..] == Quoted(name) + value + tail && tail != ""
    ensures var end := i + |name| + 3 + |value|;
            Stands(s, i, name, value) && end < |s| && s[end] == tail[0] && s[end..] == tail
  {
    var m := s[i..];
    assert forall j :: 0 <= j < |m| ==> s[i + j] == m[j];
    assert m[1..1 + |name|] == name && m[3 + |name|..3 + |name| + |value|] == value;
    assert s[i + 1..i + 1 + |name|] == m[1..1 + |name|];
    assert s[i + 3 + |name|..i + 3 + |name| + |value|] == m[3 + |name|..3 + |name| + |value|];
    assert s[i + |name| + 3 + |value|..] == m[|name| + 3 + |value|..];
  }

  lemma Prefixes()
    ensures OPEN == ['{'] + Quoted("exp") && SECOND == [','] + Quoted("iat") && THIRD == [','] + Quoted("data")
  {
  }

  lemma LayoutStep(s: string, i: nat, c: char, name: string, value: string, rest: string)
    requires i <= |s| && rest != "" && s[i..] == [c] + Quoted(name) + value + rest
    ensures var end := i + 1 + |name| + 3 + |value|;
            end < |s| && s[i] == c && Stands(s, i + 1, name, value) && s[end..] == rest
  {
    hide Stands, Quoted;
    assert s[i..][0] == c;
    assert s[i + 1..] == s[i..][1..];
    assert ([c] + Quoted(name) + value + rest)[1..] == Quoted(name) + value + rest;
    StandsFrom(s, i + 1, name, value, rest);
  }

  lemma SpelledLayout(raw: string, exp: string, iat: string, data: string)
    requires raw == OPEN + exp + (SECOND + iat + (THIRD + data + "}"))
    ensures var i2 := 8 + |exp|; var i3 := i2 + 7 + |iat|;
            && |raw| == i3 + 7 + |data| + 1 && raw[0] == '{'
            && Stands(raw, 1, "exp", exp) && raw[7 + |exp|] == ','
            && Stands(raw, i2, "iat", iat) && raw[i2 + 6 + |iat|] == ','
            && Stands(raw, i3, "data", data) && raw[i3 + 7 + |data|] == '}'
  {
    hide Stands, Quoted;
    Prefixes();
    assert raw[0..] == raw;
    LayoutStep(raw, 0, '{', "exp", exp, SECOND + iat + (THIRD + data + "}"));
    LayoutStep(raw, 7 + |exp|, ',', "iat", iat, THIRD + data + "}");
    LayoutStep(raw, 14 + |exp| + |iat|, ',', "data", data, "}");
    assert raw[22 + |exp| + |iat| + |data|..] == "}";
  }

  lemma IntIsTight(text: string)
    requires IntText(text)
    ensures text != "" && !IsSpace(text[0]) && text != "null"
  {
    assert Unsigned(text) != "" && IsDigit(Unsigned(text)[0]);
  }

  lemma StandingMember(s: string, i: nat, name: string, value: string)
    requires Stands(s, i, name, value) && (s[i + 3 + |name| + |value|] == ',' || s[i + 3 + |name| + |value|] == '}')
    requires forall j :: 0 <= j < |name| ==> 'a' <= name[j] <= 'z'
    requires value != "" && !IsSpace(value[0]) && Value(value, 0) == Some(|value|)
    ensures var end := i + |name| + 3 + |value|;
            && (s[end] == '}' ==> MembersAt(s, i) == Some(ReadMembers([Member(name, value)], end + 1)))
            && (s[end] == ',' && MembersAt(s, Space(s, end + 1)).Some? ==>
                  MembersAt(s, i) == Some(ReadMembers([Member(name, value)] + MembersAt(s, Space(s, end + 1)).value.members,
                                                     MembersAt(s, Space(s, end + 1)).value.end)))
  {
    hide Value, Chars, Space, Name, MembersAt;
    MemberThere(s, i, name, value);
    NextMember(s, i, name, value);
  }

  /** The reference reader finds the three members, and nothing else. */
  lemma SpelledIsObject(raw: string, exp: string, iat: string, e: Envelope)
    requires Spells(raw, exp, iat, e)
    ensures ReadObject(raw) == Some([Member("exp", exp), Member("iat", iat), Member("data", e.data)])
  {
    hide Value, Chars, Name, MembersAt, IntText, ParseInt, Stands, BareValue;
    SpelledLayout(raw, exp, iat, e.data);
    StandsAreQuoted(raw, 1, "exp", exp);
    var i2 := 8 + |exp|;
    var i3 := i2 + 7 + |iat|;
    StandsAreQuoted(raw, i2, "iat", iat);
    StandsAreQuoted(raw, i3, "data", e.data);
    IntIsValue(exp);
    IntIsTight(exp);
    IntIsValue(iat);
    IntIsTight(iat);
    BareIsValue(e.data);
    BareIsTight(e.data);
    StandingMember(raw, i3, "data", e.data);
    StandingMember(raw, i2, "iat", iat);
    StandingMember(raw, 1, "exp", exp);
    assert [Member("exp", exp)] + ([Member("iat", iat)] + [Member("data", e.data)])
        == [Member("exp", exp), Member("iat", iat), Member("data", e.data)];
  }

  lemma StandsAreQuoted(s: string, i: nat, name: string, value: string)
    requires Stands(s, i, name, value)
    ensures i < |s| && s[i] == '"' && Space(s, i) == i && !At(s, i, '}')
  {
  }

  lemma BareIsTight(s: string)
    requires BareValue(s)
    ensures s != "" && !IsSpace(s[0])
  {
  }

  /** The fast path refines the slow one: what it accepts, the reference reader reads the same. */
  lemma FastRefinesSlow(raw: string, exp: string, iat: string, e: Envelope)
    requires Spells(raw, exp, iat, e)
    ensures Decode(raw) == Some(e)
  {
    hide IntText, ParseInt, ReadObject, BareValue;
    SpelledIsObject(raw, exp, iat, e);
    IntIsTight(exp);
    IntIsTight(iat);
    ThreeMembers(exp, iat, e.data);
  }

  /** `decodeEnvelope`: the fast path changes nothing about what is decoded, only its cost. */
  method DecodeEnvelope(raw: string) returns (r: Option<Envelope>)
    ensures r == Decode(raw)
  {
    hide Decode, Spells;
    r := FastEnvelope(raw);
    if r.Some? {
      ghost var exp, iat :| Spells(raw, exp, iat, r.value);
      FastRefinesSlow(raw, exp, iat, r.value);
      return;
    }
    r := Decode(raw);
  }

  lemma ThreeNames(name: string)
    requires name == "exp" || name == "iat" || name == "data"
    ensures LowerCase(Unquoted(name)) == name
  {
    PlainIsUnquoted(name);
    assert LowerCase(name) == name;
  }

  lemma {:induction false} PlainIsUnquoted(name: string)
    requires '\\' !in name
    ensures Unquoted(name) == name
  {
    if name != "" {
      PlainIsUnquoted(name[1..]);
      assert [name[0]] + name[1..] == name;
    }
  }

  lemma ThreeMembers(exp: string, iat: string, data: string)
    requires IntText(exp) && ParseInt(exp).Some? && IntText(iat) && ParseInt(iat).Some?
    ensures var members := [Member("exp", exp), Member("iat", iat), Member("data", data)];
            && IntMember(members, "exp") == ParseInt(exp) && IntMember(members, "iat") == ParseInt(iat)
            && Last(members, "data") == Some(data)
  {
    hide IntText, ParseInt, Unquoted, LowerCase;
    ThreeNames("exp");
    ThreeNames("iat");
    ThreeNames("data");
    IntIsTight(exp);
    IntIsTight(iat);
    assert "iat"[0] != "exp"[0] && "data"[0] != "exp"[0] && "data"[0] != "iat"[0];
    var members := [Member("exp", exp), Member("iat", iat), Member("data", data)];
    var two := [Member("exp", exp), Member("iat", iat)];
    assert members[..2] == two && two[..1] == [Member("exp", exp)] && [Member("exp", exp)][..0] == [];
    assert IntMember([], "exp") == Some(0) && IntMember([], "iat") == Some(0);
    assert two[..1][..0] == [];
    assert IntMember(two[..1], "exp") == ParseInt(exp);
    assert IntMember(two[..1], "iat") == Some(0);
    assert IntMember(two, "exp") == ParseInt(exp) && IntMember(two, "iat") == ParseInt(iat);
  }

  // ---- what SetSession prints -----------------------------------------------------------------

  function Natural(n: nat): string {
    if n < 10 then [('0' as int + n) as char] else Natural(n / 10) + [('0' as int + n % 10) as char]
  }

  function Decimal(n: int): string {
    if n < 0 then "-" + Natural(-n) else Natural(n)
  }

  lemma {:induction false} NaturalReads(n: nat)
    ensures Natural(n) != "" && AllDigits(Natural(n)) && DigitsValue(Natural(n)) == n
    ensures Natural(n)[0] == '0' ==> n == 0 && |Natural(n)| == 1
    decreases n
  {
    if n >= 10 {
      NaturalReads(n / 10);
      var s := Natural(n);
      assert s[..|s| - 1] == Natural(n / 10);
    } else {
      assert Natural(n)[..0] == "";
    }
  }

  /** Every integer printed has a sign just when it is negative, and is read back, if it is one of 64 bits, and refused if not. */
  lemma DecimalReads(n: int)
    ensures IntText(Decimal(n)) && Decimal(n) != "" && (Decimal(n)[0] == '-' <==> n < 0)
    ensures ParseInt(Decimal(n)) == if -9223372036854775808 <= n <= 9223372036854775807 then Some(n) else None
  {
    hide Natural;
    NaturalReads(if n < 0 then -n else n);
    if n < 0 {
      assert Decimal(n)[1..] == Natural(-n);
    } else {
      assert IsDigit(Natural(n)[0]);
    }
  }

  /** json.Marshal of an envelope, its data as it was marshalled. */
  function Print(e: Envelope): string {
    OPEN + Decimal(e.exp) + (SECOND + Decimal(e.iat) + (THIRD + e.data + "}"))
  }

  /** Every envelope that is printed is read by the fast path, over all integers of 64 bits. */
  lemma PrintedIsSpelled(e: Envelope)
    requires INT64_MIN <= e.exp <= INT64_MAX && INT64_MIN <= e.iat <= INT64_MAX && BareValue(e.data)
    ensures Spells(Print(e), Decimal(e.exp), Decimal(e.iat), e)
    ensures Decode(Print(e)) == Some(e)
  {
    hide Decimal, IntText, ParseInt, Decode;
    DecimalReads(e.exp);
    DecimalReads(e.iat);
    FastRefinesSlow(Print(e), Decimal(e.exp), Decimal(e.iat), e);
  }

  // ---- which cookie is the session ----------------------------------------------------------------

  function LastDot(value: string): Option<nat> {
    if value == "" then None
    else if value[|value| - 1] == '.' then Some(|value| - 1)
    else LastDot(value[..|value| - 1])
  }

  /** A cookie whose signature verifies; `sign` is the keyed hash. */
  predicate Verifies(value: string, sign: string -> string) {
    |value| <= COOKIE_MAX_LENGTH
    && match LastDot(value)
       case None => false
       case Some(dot) => dot < |value| && sign(value[..dot]) == value[dot + 1..]
  }

  function Payload(value: string): string {
    match LastDot(value) case None => "" case Some(dot) => if dot < |value| then value[..dot] else ""
  }

  /** A cookie that carries this payload and its signature: at most 4096 bytes, the signature behind the last dot. */
  ghost predicate Signed(cookie: string, payload: string, sign: string -> string) {
    |cookie| <= 4096 && exists sig :: cookie == payload + "." + sig && '.' !in sig && sign(payload) == sig
  }

  lemma {:induction false} LastDotIs(a: string, b: string)
    requires '.' !in b
    ensures LastDot(a + "." + b) == Some(|a|)
  {
    var s := a + "." + b;
    if b != "" {
      assert s[..|s| - 1] == a + "." + b[..|b| - 1];
      assert s[|s| - 1] == b[|b| - 1];
      LastDotIs(a, b[..|b| - 1]);
    }
  }

  lemma {:induction false} LastDotCuts(s: string)
    ensures match LastDot(s)
            case None => '.' !in s
            case Some(dot) => dot < |s| && s == s[..dot] + "." + s[dot + 1..] && '.' !in s[dot + 1..]
  {
    if s != "" && s[|s| - 1] != '.' {
      var front := s[..|s| - 1];
      LastDotCuts(front);
      assert s == front + [s[|s| - 1]];
      if LastDot(front).Some? {
        var dot := LastDot(front).value;
        assert s[..dot] == front[..dot] && s[dot + 1..] == front[dot + 1..] + [s[|s| - 1]];
      }
    }
  }

  /** Verifying is being signed, and what is read off is what was signed. */
  lemma VerifiesIsSigned(cookie: string, sign: string -> string)
    ensures Verifies(cookie, sign) ==> Signed(cookie, Payload(cookie), sign)
    ensures forall payload :: Signed(cookie, payload, sign) ==> Verifies(cookie, sign) && Payload(cookie) == payload
  {
    LastDotCuts(cookie);
    forall payload | Signed(cookie, payload, sign) ensures Verifies(cookie, sign) && Payload(cookie) == payload {
      var sig :| cookie == payload + "." + sig && '.' !in sig && sign(payload) == sig;
      LastDotIs(payload, sig);
      assert cookie[..|payload|] == payload && cookie[|payload| + 1..] == sig;
    }
  }

  /** The cookie at `i` carries the payload, and no other carries any. */
  ghost predicate OnlyOne(cookies: seq<string>, sign: string -> string, i: nat, payload: string) {
    && i < |cookies| && Signed(cookies[i], payload, sign)
    && forall j, other :: 0 <= j < |cookies| && j != i ==> !Signed(cookies[j], other, sign)
  }

  /** `sessionPayload`: exactly one cookie is signed, and its payload is the session. */
  method SessionPayload(cookies: seq<string>, secret: string, sign: string -> string) returns (payload: Option<string>)
    ensures payload.Some? <==> secret != "" && exists i: nat, p :: OnlyOne(cookies, sign, i, p)
    ensures payload.Some? ==> forall i: nat, p :: OnlyOne(cookies, sign, i, p) ==> payload.value == p
  {
    hide Verifies, Payload, Signed;
    forall j | 0 <= j < |cookies|
      ensures Verifies(cookies[j], sign) ==> Signed(cookies[j], Payload(cookies[j]), sign)
      ensures forall p :: Signed(cookies[j], p, sign) ==> Verifies(cookies[j], sign) && Payload(cookies[j]) == p
    {
      VerifiesIsSigned(cookies[j], sign);
    }
    if |cookies| == 0 || secret == "" {
      return None;
    }
    var found, valid := "", 0;
    ghost var at := 0;
    for k := 0 to |cookies|
      invariant valid == 0 || valid == 1
      invariant valid == 0 ==> forall j :: 0 <= j < k ==> !Verifies(cookies[j], sign)
      invariant valid == 1 ==> at < k && Verifies(cookies[at], sign) && found == Payload(cookies[at])
                               && forall j :: 0 <= j < k && j != at ==> !Verifies(cookies[j], sign)
    {
      if !Verifies(cookies[k], sign) {
        continue;
      }
      valid := valid + 1;
      if valid > 1 {
        assert Signed(cookies[at], Payload(cookies[at]), sign) && Signed(cookies[k], Payload(cookies[k]), sign);
        return None;
      }
      found, at := Payload(cookies[k]), k;
    }
    if valid == 1 {
      assert OnlyOne(cookies, sign, at, found);
      return Some(found);
    }
    return None;
  }

  // ---- how long a session lasts -----------------------------------------------------------------

  /** Seconds since the epoch, of a time in nanoseconds. */
  function Seconds(time: nat): nat {
    time / 1_000_000_000
  }

  /** The expiry that SetSession signs, in seconds: a second ago, if the session is to last no time. */
  function Expiry(now: nat, maxAge: int): nat
    requires now >= 1_000_000_000
  {
    if maxAge <= 0 then Seconds(now - 1_000_000_000) else Seconds(now + maxAge)
  }

  /** The cookie's value, as SetSession writes it; `encode` is its base64. */
  function CookieOf(now: nat, maxAge: int, data: string, encode: string -> string, sign: string -> string): string
    requires now >= 1_000_000_000
  {
    var payload := encode(Print(Envelope(Expiry(now, maxAge), now / 1_000_000, data)));
    payload + "." + sign(payload)
  }

  /** `verifiedEnvelope`: the payload decoded, and refused once its expiry has passed. */
  method VerifiedEnvelope(cookies: seq<string>, secret: string, sign: string -> string, decode: string -> Option<string>, now: nat)
    returns (e: Option<Envelope>)
    ensures e.Some? <==> secret != "" && exists i: nat, p ::
              OnlyOne(cookies, sign, i, p) && decode(p).Some? && Decode(decode(p).value).Some?
              && now / 1_000_000_000 <= Decode(decode(p).value).value.exp
    ensures e.Some? ==> forall i: nat, p :: OnlyOne(cookies, sign, i, p) ==> decode(p).Some? && e == Decode(decode(p).value)
  {
    hide Decode, OnlyOne;
    var payload := SessionPayload(cookies, secret, sign);
    if payload.None? {
      return None;
    }
    var raw := decode(payload.value);
    if raw.None? {
      return None;
    }
    var envelope := DecodeEnvelope(raw.value);
    if envelope.None? || now / 1_000_000_000 > envelope.value.exp {
      return None;
    }
    return envelope;
  }

  /** What is set verifies, if it fits: the payload is the envelope's, with both moments. */
  lemma SetVerifies(now: nat, maxAge: int, data: string, encode: string -> string, sign: string -> string)
    requires 1_000_000_000 <= now && now + maxAge <= 9223372036854775807 && now <= 9223372036854775807 && BareValue(data)
    requires forall x :: '.' !in sign(x)
    ensures var cookie := CookieOf(now, maxAge, data, encode, sign);
            |cookie| <= 4096 ==>
              exists raw :: Signed(cookie, encode(raw), sign) && Decode(raw).Some?
                && Decode(raw).value.data == data && Decode(raw).value.iat == now / 1_000_000
  {
    hide Decode, Print, BareValue;
    var e := Envelope(Expiry(now, maxAge), now / 1_000_000, data);
    var cookie := CookieOf(now, maxAge, data, encode, sign);
    PrintedIsSpelled(e);
    assert cookie == encode(Print(e)) + "." + sign(encode(Print(e)));
  }

  /** What is set is read back: with its data, until the second its time is up, and from then on not at all. */
  lemma SetIsReadBack(now: nat, maxAge: int, data: string, encode: string -> string, decode: string -> Option<string>,
                      sign: string -> string, later: nat, p: string)
    requires 1_000_000_000 <= now <= later && now <= 9223372036854775807 && now + maxAge <= 9223372036854775807 && BareValue(data)
    requires forall x :: '.' !in sign(x) && decode(encode(x)) == Some(x)
    requires Signed(CookieOf(now, maxAge, data, encode, sign), p, sign)
    ensures decode(p).Some? && Decode(decode(p).value).Some?
    ensures Decode(decode(p).value).value.data == data
    ensures later / 1_000_000_000 <= Decode(decode(p).value).value.exp <==>
              maxAge > 0 && later / 1_000_000_000 <= (now + maxAge) / 1_000_000_000
  {
    hide Decode, Print, BareValue;
    var e := Envelope(Expiry(now, maxAge), now / 1_000_000, data);
    var payload := encode(Print(e));
    var cookie := CookieOf(now, maxAge, data, encode, sign);
    VerifiesIsSigned(cookie, sign);
    assert Signed(cookie, payload, sign) by {
      assert cookie == payload + "." + sign(payload);
    }
    PrintedIsSpelled(e);
  }
}
