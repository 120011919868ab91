/**
 A reference reader of JSON (RFC 8259): where a value ends in a text, and the members of an object.
 */
module Json {
  import opened Wrappers

  predicate IsSpace(c: char) {
    c == ' ' || c == '\t' || c == '\n' || c == '\r'
  }

  predicate IsDigit(c: char) {
    '0' <= c <= '9'
  }

  predicate IsHex(c: char) {
    IsDigit(c) || 'a' <= c <= 'f' || 'A' <= c <= 'F'
  }

  predicate At(s: string, i: nat, c: char) {
    i < |s| && s[i] == c
  }

  /** Past the white space at `i`. */
  function Space(s: string, i: nat): (r: nat)
    requires i <= |s|
    ensures i <= r <= |s| && (r < |s| ==> !IsSpace(s[r]))
    decreases |s| - i
  {
    if i < |s| && IsSpace(s[i]) then Space(s, i + 1) else i
  }

  function Digits(s: string, i: nat): (r: nat)
    requires i <= |s|
    ensures i <= r <= |s| && (r < |s| ==> !IsDigit(s[r]))
    ensures i < |s| && IsDigit(s[i]) ==> i < r
    decreases |s| - i
  {
    if i < |s| && IsDigit(s[i]) then Digits(s, i + 1) else i
  }

  predicate Within(r: Option<nat>, i: nat, s: string) {
    r.Some? ==> i < r.value <= |s|
  }

  /** At least one digit. */
  function SomeDigits(s: string, i: nat): (r: Option<nat>)
    requires i <= |s|
    ensures Within(r, i, s)
  {
    if i < |s| && IsDigit(s[i]) then Some(Digits(s, i)) else None
  }

  /** An integer has no leading zero. */
  function Integer(s: string, i: nat): (r: Option<nat>)
    requires i <= |s|
    ensures Within(r, i, s)
  {
    if At(s, i, '0') then Some(i + 1) else SomeDigits(s, i)
  }

  function Fraction(s: string, i: nat): (r: Option<nat>)
    requires i <= |s|
    ensures r.Some? ==> i <= r.value <= |s|
  {
    if At(s, i, '.') then SomeDigits(s, i + 1) else Some(i)
  }

  function Exponent(s: string, i: nat): (r: Option<nat>)
    requires i <= |s|
    ensures r.Some? ==> i <= r.value <= |s|
  {
    if At(s, i, 'e') || At(s, i, 'E') then
      if At(s, i + 1, '+') || At(s, i + 1, '-') then SomeDigits(s, i + 2) else SomeDigits(s, i + 1)
    else Some(i)
  }

  function Number(s: string, i: nat): (r: Option<nat>)
    requires i <= |s|
    ensures Within(r, i, s)
  {
    match Integer(s, if At(s, i, '-') then i + 1 else i)
    case None => None
    case Some(j) =>
      match Fraction(s, j)
      case None => None
      case Some(k) => Exponent(s, k)
  }

  /** Past the end of a string, from inside it. */
  function Chars(s: string, i: nat): (r: Option<nat>)
    requires i <= |s|
    ensures Within(r, i, s)
    decreases |s| - i
  {
    if i == |s| || s[i] < ' ' then None
    else if s[i] == '"' then Some(i + 1)
    else if s[i] != '\\' then Chars(s, i + 1)
    else if i + 1 == |s| then None
    else if s[i + 1] in "\"\\/bfnrt" then Chars(s, i + 2)
    else if s[i + 1] == 'u' && i + 6 <= |s| && IsHex(s[i + 2]) && IsHex(s[i + 3]) && IsHex(s[i + 4]) && IsHex(s[i + 5])
    then Chars(s, i + 6)
    else None
  }

  function Literal(s: string, i: nat, word: string): (r: Option<nat>)
    requires i <= |s| && word != ""
    ensures Within(r, i, s)
  {
    if i + |word| <= |s| && s[i..i + |word|] == word then Some(i + |word|) else None
  }

  /** Past one value that starts at `i`. */
  function Value(s: string, i: nat): (r: Option<nat>)
    requires i <= |s|
    ensures Within(r, i, s)
    decreases |s| - i, 0
  {
    if i == |s| then None
    else if s[i] == '"' then Chars(s, i + 1)
    else if s[i] == '{' then
      var inner := Space(s, i + 1);
      if At(s, inner, '}') then Some(inner + 1) else Members(s, inner)
    else if s[i] == '[' then
      var inner := Space(s, i + 1);
      if At(s, inner, ']') then Some(inner + 1) else Elements(s, inner)
    else if s[i] == 't' then Literal(s, i, "true")
    else if s[i] == 'f' then Literal(s, i, "false")
    else if s[i] == 'n' then Literal(s, i, "null")
    else Number(s, i)
  }

  function Elements(s: string, i: nat): (r: Option<nat>)
    requires i <= |s|
    ensures Within(r, i, s)
    decreases |s| - i, 1
  {
    match Value(s, i)
    case None => None
    case Some(after) =>
      var next := Space(s, after);
      if At(s, next, ']') then Some(next + 1)
      else if At(s, next, ',') then Elements(s, Space(s, next + 1))
      else None
  }

  /** Past a member's name and the colon: where its value starts. */
  function Name(s: string, i: nat): (r: Option<nat>)
    requires i <= |s|
    ensures Within(r, i, s)
  {
    if !At(s, i, '"') then None
    else match Chars(s, i + 1)
      case None => None
      case Some(after) => if At(s, Space(s, after), ':') then Some(Space(s, Space(s, after) + 1)) else None
  }

  function Members(s: string, i: nat): (r: Option<nat>)
    requires i <= |s|
    ensures Within(r, i, s)
    decreases |s| - i, 1
  {
    match Name(s, i)
    case None => None
    case Some(start) =>
      match Value(s, start)
      case None => None
      case Some(after) =>
        var next := Space(s, after);
        if At(s, next, '}') then Some(next + 1)
        else if At(s, next, ',') then Members(s, Space(s, next + 1))
        else None
  }

  /** A text that is one value, with white space around it. */
  predicate Valid(s: string) {
    match Value(s, Space(s, 0))
    case None => false
    case Some(after) => Space(s, after) == |s|
  }

  // ---- an object's members ---------------------------------------------------------------

  /** A member: its name as it is spelled between the quotes, and the text of its value. */
  datatype Member = Member(name: string, value: string)

  datatype ReadMembers = ReadMembers(members: seq<Member>, end: nat)

  function MembersAt(s: string, i: nat): (r: Option<ReadMembers>)
    requires i <= |s|
    ensures r.Some? ==> r.value.end <= |s|
    decreases |s| - i
  {
    match Name(s, i)
    case None => None
    case Some(start) =>
      match Value(s, start)
      case None => None
      case Some(after) =>
        var member := Member(s[i + 1..Chars(s, i + 1).value - 1], s[start..after]);
        var next := Space(s, after);
        if At(s, next, '}') then Some(ReadMembers([member], next + 1))
        else if At(s, next, ',') then
          match MembersAt(s, Space(s, next + 1))
          case None => None
          case Some(rest) => Some(rest.(members := [member] + rest.members))
        else None
  }

  /** The members of a text that is one object. */
  function ReadObject(s: string): Option<seq<Member>> {
    var open := Space(s, 0);
    if !At(s, open, '{') then None
    else
      var inner := Space(s, open + 1);
      if At(s, inner, '}') then if Space(s, inner + 1) == |s| then Some([]) else None
      else match MembersAt(s, inner)
        case None => None
        case Some(read) => if Space(s, read.end) == |s| then Some(read.members) else None
  }

  // ---- a value inside a longer text ----------------------------------------------------------

  /** What may go on a number. */
  predicate OfNumber(c: char) {
    IsDigit(c) || c == '.' || c == 'e' || c == 'E' || c == '+' || c == '-'
  }

  /** `s` stands in `t` at `k`, and nothing after it goes on a number. */
  predicate Inside(s: string, t: string, k: nat) {
    && k + |s| <= |t|
    && (forall j :: 0 <= j < |s| ==> t[k + j] == s[j])
    && (k + |s| < |t| ==> !OfNumber(t[k + |s|]))
  }

  lemma {:induction false} SpaceInside(s: string, t: string, k: nat, i: nat)
    requires Inside(s, t, k) && i <= |s| && Space(s, i) < |s|
    ensures Space(t, k + i) == k + Space(s, i)
    decreases |s| - i
  {
    if IsSpace(s[i]) {
      SpaceInside(s, t, k, i + 1);
    }
  }

  lemma {:induction false} DigitsInside(s: string, t: string, k: nat, i: nat)
    requires Inside(s, t, k) && i <= |s|
    ensures Digits(t, k + i) == k + Digits(s, i)
    decreases |s| - i
  {
    if i < |s| && IsDigit(s[i]) {
      DigitsInside(s, t, k, i + 1);
    }
  }

  lemma AtInside(s: string, t: string, k: nat, i: nat, c: char)
    requires Inside(s, t, k) && (i < |s| || OfNumber(c)) && i <= |s|
    ensures At(t, k + i, c) == At(s, i, c)
  {
  }

  lemma NumberInside(s: string, t: string, k: nat, i: nat)
    requires Inside(s, t, k) && i <= |s| && Number(s, i).Some?
    ensures Number(t, k + i) == Some(k + Number(s, i).value)
  {
    hide Inside, Digits;
    AtInside(s, t, k, i, '-');
    var start := if At(s, i, '-') then i + 1 else i;
    IntegerInside(s, t, k, start);
    var j := Integer(s, start).value;
    FractionInside(s, t, k, j);
    ExponentInside(s, t, k, Fraction(s, j).value);
  }

  lemma SomeDigitsInside(s: string, t: string, k: nat, i: nat)
    requires Inside(s, t, k) && i <= |s| && SomeDigits(s, i).Some?
    ensures SomeDigits(t, k + i) == Some(k + SomeDigits(s, i).value)
  {
    DigitsInside(s, t, k, i);
  }

  lemma IntegerInside(s: string, t: string, k: nat, i: nat)
    requires Inside(s, t, k) && i <= |s| && Integer(s, i).Some?
    ensures Integer(t, k + i) == Some(k + Integer(s, i).value)
  {
    hide Digits;
    AtInside(s, t, k, i, '0');
    if !At(s, i, '0') {
      SomeDigitsInside(s, t, k, i);
    }
  }

  lemma FractionInside(s: string, t: string, k: nat, i: nat)
    requires Inside(s, t, k) && i <= |s| && Fraction(s, i).Some?
    ensures Fraction(t, k + i) == Some(k + Fraction(s, i).value)
  {
    hide Digits;
    AtInside(s, t, k, i, '.');
    if At(s, i, '.') {
      SomeDigitsInside(s, t, k, i + 1);
    }
  }

  lemma ExponentInside(s: string, t: string, k: nat, i: nat)
    requires Inside(s, t, k) && i <= |s| && Exponent(s, i).Some?
    ensures Exponent(t, k + i) == Some(k + Exponent(s, i).value)
  {
    hide Digits;
    AtInside(s, t, k, i, 'e');
    AtInside(s, t, k, i, 'E');
    if At(s, i, 'e') || At(s, i, 'E') {
      AtInside(s, t, k, i + 1, '+');
      AtInside(s, t, k, i + 1, '-');
      SomeDigitsInside(s, t, k, if At(s, i + 1, '+') || At(s, i + 1, '-') then i + 2 else i + 1);
    }
  }

  lemma {:induction false} CharsInside(s: string, t: string, k: nat, i: nat)
    requires Inside(s, t, k) && i <= |s| && Chars(s, i).Some?
    ensures Chars(t, k + i) == Some(k + Chars(s, i).value)
    decreases |s| - i
  {
    if s[i] == '"' {
    } else if s[i] != '\\' {
      CharsInside(s, t, k, i + 1);
    } else if s[i + 1] in "\"\\/bfnrt" {
      CharsInside(s, t, k, i + 2);
    } else {
      CharsInside(s, t, k, i + 6);
    }
  }

  lemma LiteralInside(s: string, t: string, k: nat, i: nat, word: string)
    requires Inside(s, t, k) && i <= |s| && word != "" && Literal(s, i, word).Some?
    ensures Literal(t, k + i, word) == Some(k + Literal(s, i, word).value)
  {
    assert t[k + i..k + i + |word|] == s[i..i + |word|];
  }

  lemma NameInside(s: string, t: string, k: nat, i: nat)
    requires Inside(s, t, k) && i <= |s| && Name(s, i).Some? && Name(s, i).value < |s|
    ensures Name(t, k + i) == Some(k + Name(s, i).value)
  {
    hide Chars, Space;
    CharsInside(s, t, k, i + 1);
    var after := Chars(s, i + 1).value;
    SpaceInside(s, t, k, after);
    SpaceInside(s, t, k, Space(s, after) + 1);
  }

  /** A value is read the same wherever its text stands. */
  lemma {:induction false} ValueInside(s: string, t: string, k: nat, i: nat)
    requires Inside(s, t, k) && i <= |s| && Value(s, i).Some?
    ensures Value(t, k + i) == Some(k + Value(s, i).value)
    decreases |s| - i, 1
  {
    hide Chars, Space, Number, Literal, Inside, Members, Elements;
    CharAt(s, t, k, i);
    if s[i] == '"' {
      CharsInside(s, t, k, i + 1);
    } else if s[i] == '{' {
      BracesInside(s, t, k, i);
    } else if s[i] == '[' {
      BracketsInside(s, t, k, i);
    } else if s[i] == 't' {
      LiteralInside(s, t, k, i, "true");
    } else if s[i] == 'f' {
      LiteralInside(s, t, k, i, "false");
    } else if s[i] == 'n' {
      LiteralInside(s, t, k, i, "null");
    } else {
      NumberInside(s, t, k, i);
    }
  }

  lemma {:induction false} BracesInside(s: string, t: string, k: nat, i: nat)
    requires Inside(s, t, k) && i < |s| && s[i] == '{' && t[k + i] == '{' && Value(s, i).Some?
    ensures Value(t, k + i) == Some(k + Value(s, i).value)
    decreases |s| - i, 0
  {
    hide Space, Inside, Members;
    var inner := Space(s, i + 1);
    SpaceInside(s, t, k, i + 1);
    CharAt(s, t, k, inner);
    if !At(s, inner, '}') {
      MembersInside(s, t, k, inner);
    }
  }

  lemma {:induction false} BracketsInside(s: string, t: string, k: nat, i: nat)
    requires Inside(s, t, k) && i < |s| && s[i] == '[' && t[k + i] == '[' && Value(s, i).Some?
    ensures Value(t, k + i) == Some(k + Value(s, i).value)
    decreases |s| - i, 0
  {
    hide Space, Inside, Elements;
    var inner := Space(s, i + 1);
    SpaceInside(s, t, k, i + 1);
    CharAt(s, t, k, inner);
    if !At(s, inner, ']') {
      ElementsInside(s, t, k, inner);
    }
  }

  lemma CharAt(s: string, t: string, k: nat, i: nat)
    requires Inside(s, t, k) && i < |s|
    ensures k + i < |t| && t[k + i] == s[i]
  {
  }

  lemma {:induction false} ElementsInside(s: string, t: string, k: nat, i: nat)
    requires Inside(s, t, k) && i <= |s| && Elements(s, i).Some?
    ensures Elements(t, k + i) == Some(k + Elements(s, i).value)
    decreases |s| - i, 2
  {
    hide Space, Value, Inside;
    ValueInside(s, t, k, i);
    var next := Space(s, Value(s, i).value);
    SpaceInside(s, t, k, Value(s, i).value);
    CharAt(s, t, k, next);
    if At(s, next, ',') {
      SpaceInside(s, t, k, next + 1);
      ElementsInside(s, t, k, Space(s, next + 1));
    }
  }

  lemma {:induction false} MembersInside(s: string, t: string, k: nat, i: nat)
    requires Inside(s, t, k) && i <= |s| && Members(s, i).Some?
    ensures Members(t, k + i) == Some(k + Members(s, i).value)
    decreases |s| - i, 2
  {
    hide Space, Value, Name, Inside;
    NameInside(s, t, k, i);
    var start := Name(s, i).value;
    ValueInside(s, t, k, start);
    var next := Space(s, Value(s, start).value);
    SpaceInside(s, t, k, Value(s, start).value);
    CharAt(s, t, k, next);
    if At(s, next, ',') {
      SpaceInside(s, t, k, next + 1);
      MembersInside(s, t, k, Space(s, next + 1));
    }
  }
}
