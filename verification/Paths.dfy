/**
 Byte strings as the standard library cuts them: strings.Split and strings.Join, path.Clean as a
 stack over segments, and url.PathUnescape.
 */
module Paths {
  import opened Wrappers

  // ---- Split and Join ----------------------------------------------------------

  function Split(s: string, sep: char): (parts: seq<string>)
    ensures |parts| > 0
    ensures forall j :: 0 <= j < |parts| ==> sep !in parts[j]
  {
    if s == [] then [[]]
    else if s[0] == sep then [[]] + Split(s[1..], sep)
    else
      var rest := Split(s[1..], sep);
      [[s[0]] + rest[0]] + rest[1..]
  }

  function Join(parts: seq<string>, sep: char): string
    requires |parts| > 0
  {
    if |parts| == 1 then parts[0] else parts[0] + [sep] + Join(parts[1..], sep)
  }

  lemma {:induction false} JoinOfSplit(s: string, sep: char)
    ensures Join(Split(s, sep), sep) == s
  {
    if s != [] {
      JoinOfSplit(s[1..], sep);
      var rest := Split(s[1..], sep);
      if s[0] == sep {
        assert ([[]] + rest)[1..] == rest;
      } else {
        assert ([[s[0]] + rest[0]] + rest[1..])[1..] == rest[1..];
      }
    }
  }

  lemma {:induction false} SplitWhole(s: string, sep: char)
    requires sep !in s
    ensures Split(s, sep) == [s]
  {
    if s != [] {
      SplitWhole(s[1..], sep);
      assert [s[0]] + s[1..] == s;
    }
  }

  lemma {:induction false} SplitAt(a: string, b: string, sep: char)
    ensures Split(a + [sep] + b, sep) == Split(a, sep) + Split(b, sep)
  {
    var s := a + [sep] + b;
    if a == [] {
      assert s[1..] == b;
    } else {
      assert s[1..] == a[1..] + [sep] + b;
      SplitAt(a[1..], b, sep);
    }
  }

  lemma {:induction false} SplitOfJoin(parts: seq<string>, sep: char)
    requires |parts| > 0 && forall j :: 0 <= j < |parts| ==> sep !in parts[j]
    ensures Split(Join(parts, sep), sep) == parts
  {
    SplitWhole(parts[0], sep);
    if |parts| > 1 {
      SplitAt(parts[0], Join(parts[1..], sep), sep);
      SplitOfJoin(parts[1..], sep);
    }
  }

  lemma {:induction false} JoinAppend(a: seq<string>, b: seq<string>, sep: char)
    requires |a| > 0 && |b| > 0
    ensures Join(a + b, sep) == Join(a, sep) + [sep] + Join(b, sep)
  {
    if |a| == 1 {
      assert (a + b)[1..] == b;
    } else {
      assert (a + b)[1..] == a[1..] + b;
      JoinAppend(a[1..], b, sep);
      assert a[0] + [sep] + (Join(a[1..], sep) + [sep] + Join(b, sep)) ==
             a[0] + [sep] + Join(a[1..], sep) + [sep] + Join(b, sep);
    }
  }

  // ---- path.Clean ------------------------------------------------------------------

  /** One segment against the stack of those kept so far. */
  function Push(stack: seq<string>, segment: string, rooted: bool): seq<string> {
    if segment == "" || segment == "." then stack
    else if segment != ".." then stack + [segment]
    else if stack != [] && stack[|stack| - 1] != ".." then stack[..|stack| - 1]
    else if rooted then stack
    else stack + [segment]
  }

  function Resolve(segments: seq<string>, rooted: bool, stack: seq<string>): seq<string> {
    if segments == [] then stack
    else Resolve(segments[1..], rooted, Push(stack, segments[0], rooted))
  }

  function Rooted(p: string): bool {
    p != [] && p[0] == '/'
  }

  function Kept(p: string): seq<string> {
    Resolve(Split(p, '/'), Rooted(p), [])
  }

  function Clean(p: string): string {
    var stack := Kept(p);
    if Rooted(p) then ['/'] + (if stack == [] then [] else Join(stack, '/'))
    else if stack == [] then "."
    else Join(stack, '/')
  }

  /** What a stack of kept segments looks like: names, after leading ".." where there is no root. */
  predicate Settled(stack: seq<string>, rooted: bool) {
    && (forall j :: 0 <= j < |stack| ==> stack[j] != "" && stack[j] != "." && '/' !in stack[j])
    && (forall j :: 0 <= j < |stack| && stack[j] == ".." ==> !rooted && forall i :: 0 <= i < j ==> stack[i] == "..")
  }

  lemma {:induction false} ResolveSettles(segments: seq<string>, rooted: bool, stack: seq<string>)
    requires Settled(stack, rooted)
    requires forall j :: 0 <= j < |segments| ==> '/' !in segments[j]
    ensures Settled(Resolve(segments, rooted, stack), rooted)
  {
    if segments != [] {
      ResolveSettles(segments[1..], rooted, Push(stack, segments[0], rooted));
    }
  }

  lemma {:induction false} ResolveKeepsSettled(stack: seq<string>, rooted: bool, done: nat)
    requires Settled(stack, rooted) && done <= |stack|
    ensures Resolve(stack[done..], rooted, stack[..done]) == stack
    decreases |stack| - done
  {
    if done == |stack| {
      assert stack[..done] == stack;
    } else {
      assert stack[done..][1..] == stack[done + 1..];
      assert stack[..done] + [stack[done]] == stack[..done + 1];
      ResolveKeepsSettled(stack, rooted, done + 1);
    }
  }

  lemma JoinIsNotEmpty(stack: seq<string>, rooted: bool)
    requires Settled(stack, rooted) && stack != []
    ensures Join(stack, '/') != [] && Join(stack, '/')[0] == stack[0][0] && stack[0][0] != '/'
  {
    assert stack[0][0] in stack[0];
  }

  lemma CleanOfSettled(stack: seq<string>, rooted: bool)
    requires Settled(stack, rooted) && (rooted || stack != [])
    ensures var c := if rooted then ['/'] + (if stack == [] then [] else Join(stack, '/')) else Join(stack, '/');
            Kept(c) == stack && Rooted(c) == rooted && Clean(c) == c
  {
    ResolveKeepsSettled(stack, rooted, 0);
    assert stack[0..] == stack && stack[..0] == [];
    if stack == [] {
      assert "/"[1..] == "";
      assert Split("/", '/') == ["", ""];
      assert ["", ""][1..] == [""] && [""][1..] == [];
      assert Resolve([""], true, []) == [];
      assert ['/'] + [] == "/";
    } else {
      JoinIsNotEmpty(stack, rooted);
      SplitOfJoin(stack, '/');
      if rooted {
        var c := ['/'] + Join(stack, '/');
        assert c[1..] == Join(stack, '/');
        assert Split(c, '/') == [[]] + stack;
        assert ([[]] + stack)[1..] == stack;
      }
    }
  }

  /** A cleaned path is never empty, and is its own cleaned path. */
  lemma CleanIsIdempotent(p: string)
    ensures Clean(p) != [] && Clean(Clean(p)) == Clean(p)
  {
    ResolveSettles(Split(p, '/'), Rooted(p), []);
    var stack := Kept(p);
    if Rooted(p) || stack != [] {
      if stack != [] {
        JoinIsNotEmpty(stack, Rooted(p));
      }
      CleanOfSettled(stack, Rooted(p));
    } else {
      SplitWhole(".", '/');
    }
  }

  // ---- escapes -----------------------------------------------------------------------

  predicate IsHexDigit(c: char) {
    '0' <= c <= '9' || 'a' <= c <= 'f' || 'A' <= c <= 'F'
  }

  function UnhexDigit(c: char): (v: nat)
    requires IsHexDigit(c)
    ensures v < 16
  {
    if '0' <= c <= '9' then c as int - '0' as int
    else if 'a' <= c <= 'f' then c as int - 'a' as int + 10
    else c as int - 'A' as int + 10
  }

  /** A '%' and two hex digits open the string. */
  predicate OpensWithEscape(s: string) {
    |s| >= 3 && s[0] == '%' && IsHexDigit(s[1]) && IsHexDigit(s[2])
  }

  function EscapedByte(s: string): char
    requires OpensWithEscape(s)
  {
    (UnhexDigit(s[1]) * 16 + UnhexDigit(s[2])) as char
  }

  /** Every '%' is an escape: what net/http lets through to a handler. */
  predicate WellEscaped(s: string) {
    if s == [] then true
    else if s[0] != '%' then WellEscaped(s[1..])
    else OpensWithEscape(s) && WellEscaped(s[3..])
  }

  /** url.PathUnescape. */
  function Unescape(s: string): (r: Option<string>)
    ensures r.Some? <==> WellEscaped(s)
  {
    if s == [] then Some([])
    else if s[0] != '%' then
      match Unescape(s[1..])
      case None => None
      case Some(rest) => Some([s[0]] + rest)
    else if !OpensWithEscape(s) then None
    else
      match Unescape(s[3..])
      case None => None
      case Some(rest) => Some([EscapedByte(s)] + rest)
  }

  lemma EscapeStopsAtSlash(a: string, b: string)
    requires a != []
    ensures OpensWithEscape(a + ['/'] + b) == OpensWithEscape(a)
    ensures OpensWithEscape(a) ==> EscapedByte(a + ['/'] + b) == EscapedByte(a)
  {
    var s := a + ['/'] + b;
    assert s[|a|] == '/';
    assert forall j :: 0 <= j < |a| ==> s[j] == a[j];
  }

  /** An escape never reaches over a '/', so a path is well escaped segment by segment. */
  lemma {:induction false} WellEscapedAt(a: string, b: string)
    ensures WellEscaped(a + ['/'] + b) <==> WellEscaped(a) && WellEscaped(b)
  {
    var s := a + ['/'] + b;
    if a == [] {
      assert s[1..] == b;
    } else if a[0] != '%' {
      assert s[1..] == a[1..] + ['/'] + b;
      WellEscapedAt(a[1..], b);
    } else {
      EscapeStopsAtSlash(a, b);
      if OpensWithEscape(a) {
        assert s[3..] == a[3..] + ['/'] + b;
        WellEscapedAt(a[3..], b);
      }
    }
  }

  /** And it unescapes segment by segment. */
  lemma {:induction false} UnescapeAt(a: string, b: string)
    requires WellEscaped(a) && WellEscaped(b)
    ensures Unescape(a + ['/'] + b) == Some(Unescape(a).value + ['/'] + Unescape(b).value)
  {
    hide WellEscaped, OpensWithEscape, EscapedByte, Unescape;
    var s := a + ['/'] + b;
    var ub := Unescape(b).value;
    WellEscapedAt(a, b);
    UnescapeOne(s);
    if a == [] {
      assert s[1..] == b;
      UnescapeNothing();
      assert [] + ['/'] + ub == ['/'] + ub;
    } else {
      var step := if a[0] != '%' then 1 else 3;
      EscapeStopsAtSlash(a, b);
      UnescapeOne(a);
      assert s[step..] == a[step..] + ['/'] + b;
      UnescapeAt(a[step..], b);
      var rest := Unescape(a[step..]).value;
      var first := if a[0] != '%' then a[0] else EscapedByte(a);
      assert [first] + (rest + ['/'] + ub) == ([first] + rest) + ['/'] + ub;
    }
  }

  lemma UnescapeNothing()
    ensures WellEscaped([]) && Unescape([]) == Some([])
  {
  }

  /** One step of the unescaping. */
  lemma UnescapeOne(s: string)
    requires s != [] && WellEscaped(s)
    ensures s[0] == '%' ==> OpensWithEscape(s) && |s| >= 3
    ensures var step := if s[0] != '%' then 1 else 3;
            && WellEscaped(s[step..])
            && Unescape(s) == Some([if s[0] != '%' then s[0] else EscapedByte(s)] + Unescape(s[step..]).value)
  {
  }
}
