/** What cleaning, unescaping and respelling a path mean (canonical.go): the rules of their documentation, one by one. */
module PathRules {
  import opened CacheKeys
  import opened Canonical
  import opened Middleware
  import opened Paths
  import opened Wrappers

  // ---- the rules of path.Clean ---------------------------------------------------------

  /** Segments of a path, as they stand between its slashes. */
  predicate Segments(parts: seq<string>) {
    |parts| > 0 && forall j :: 0 <= j < |parts| ==> '/' !in parts[j]
  }

  function Text(parts: seq<string>): string
    requires |parts| > 0
  {
    Join(parts, '/')
  }

  /** A rooted path has an empty segment ahead of its root, and at least one more. */
  lemma RootedIs(parts: seq<string>)
    requires Segments(parts)
    ensures Rooted(Text(parts)) <==> parts[0] == "" && |parts| > 1
    ensures Kept(Text(parts)) == Resolve(parts, parts[0] == "" && |parts| > 1, [])
  {
    SplitOfJoin(parts, '/');
    if parts[0] != "" {
      assert parts[0][0] in parts[0];
    }
  }

  lemma {:induction false} ResolveOn(a: seq<string>, b: seq<string>, rooted: bool, stack: seq<string>)
    ensures Resolve(a + b, rooted, stack) == Resolve(b, rooted, Resolve(a, rooted, stack))
  {
    if a == [] {
      assert a + b == b;
    } else {
      assert (a + b)[1..] == a[1..] + b;
      ResolveOn(a[1..], b, rooted, Push(stack, a[0], rooted));
    }
  }

  /** Two texts of one root that resolve alike clean alike. */
  lemma CleanAlike(a: seq<string>, b: seq<string>)
    requires Segments(a) && Segments(b) && (a[0] == "" && |a| > 1 <==> b[0] == "" && |b| > 1)
    requires var rooted := a[0] == "" && |a| > 1; Resolve(a, rooted, []) == Resolve(b, rooted, [])
    ensures Clean(Text(a)) == Clean(Text(b))
  {
    RootedIs(a);
    RootedIs(b);
  }

  /** A slash run is one slash, and a "." names nothing. */
  lemma CleanDropsNothings(a: seq<string>, nothing: string, b: seq<string>)
    requires Segments(a) && (b == [] || Segments(b)) && (nothing == "" || nothing == ".")
    requires a[0] == "" ==> |a| + |b| > 1
    ensures Clean(Text(a + [nothing] + b)) == Clean(Text(a + b))
  {
    var rooted := a[0] == "" && |a + b| > 1;
    ResolveOn(a + [nothing], b, rooted, []);
    ResolveOn(a, [nothing], rooted, []);
    ResolveOn(a, b, rooted, []);
    OneStep(Resolve(a, rooted, []), nothing, rooted);
    CleanAlike(a + [nothing] + b, a + b);
  }

  lemma OneStep(stack: seq<string>, segment: string, rooted: bool)
    ensures Resolve([segment], rooted, stack) == Push(stack, segment, rooted)
  {
    assert [segment][1..] == [];
  }

  /** A ".." takes the name before it away. */
  lemma CleanStepsBack(a: seq<string>, name: string, b: seq<string>)
    requires Segments(a) && (b == [] || Segments(b)) && '/' !in name && name != "" && name != "." && name != ".."
    requires a[0] == "" ==> |a| + |b| > 1
    ensures Clean(Text(a + [name, ".."] + b)) == Clean(Text(a + b))
  {
    var rooted := a[0] == "" && |a + b| > 1;
    var stack := Resolve(a, rooted, []);
    ResolveOn(a + [name, ".."], b, rooted, []);
    ResolveOn(a, [name, ".."], rooted, []);
    ResolveOn(a, b, rooted, []);
    assert [name, ".."] == [name] + [".."];
    ResolveOn([name], [".."], rooted, stack);
    OneStep(stack, name, rooted);
    OneStep(stack + [name], "..", rooted);
    assert (stack + [name])[..|stack|] == stack;
    CleanAlike(a + [name, ".."] + b, a + b);
  }

  /** At the root there is nothing to step back from. */
  lemma CleanStaysAtRoot(b: seq<string>)
    requires Segments(b)
    ensures Clean(Text(["", ".."] + b)) == Clean(Text([""] + b))
  {
    assert ["", ".."] == [""] + [".."];
    ResolveOn(["", ".."], b, true, []);
    ResolveOn([""], [".."], true, []);
    ResolveOn([""], b, true, []);
    OneStep([], "", true);
    OneStep([], "..", true);
    CleanAlike(["", ".."] + b, [""] + b);
  }

  /** Where none of these applies, the path is as it was: names alone, or after leading ".." where there is no root. */
  lemma CleanKeepsNames(names: seq<string>)
    requires Settled(names, true)
    ensures names != [] ==> Clean(Text([""] + names)) == Text([""] + names)
    ensures Clean("/") == "/" && Clean("") == "."
  {
    CleanRoot();
    SplitWhole("", '/');
    OneStep([], "", false);
    if names != [] {
      CleanOfSettled(names, true);
      assert ([""] + names)[1..] == names;
      assert [] + ['/'] + Join(names, '/') == ['/'] + Join(names, '/');
    }
  }

  // ---- escapes ---------------------------------------------------------------------------

  const UPPER := "0123456789ABCDEF"
  const LOWER := "0123456789abcdef"

  predicate Spells(c: char, v: nat)
    requires v < 16
  {
    c == UPPER[v] || c == LOWER[v]
  }

  lemma HexIs(c: char)
    ensures IsHexDigit(c) <==> exists v: nat :: v < 16 && Spells(c, v)
    ensures forall v: nat :: v < 16 && Spells(c, v) ==> UnhexDigit(c) == v
    ensures forall v: nat :: v < 16 && Spells(c, v) ==> Upper(c) == UPPER[v]
  {
    HexTable();
    if IsHexDigit(c) {
      assert Spells(c, UnhexDigit(c));
    }
  }

  lemma HexTable()
    ensures forall v :: 0 <= v < 10 ==> UPPER[v] as int == 48 + v && LOWER[v] as int == 48 + v
    ensures forall v :: 10 <= v < 16 ==> UPPER[v] as int == 55 + v && LOWER[v] as int == 87 + v
  {
  }

  /** An octet escaped in either case of its digits. */
  predicate EscapeOf(octet: int, hi: char, lo: char) {
    0 <= octet < 256 && Spells(hi, octet / 16) && Spells(lo, octet % 16)
  }

  lemma EscapeOpens(octet: int, hi: char, lo: char, rest: string)
    requires EscapeOf(octet, hi, lo)
    ensures OpensWithEscape(['%', hi, lo] + rest) && EscapedByte(['%', hi, lo] + rest) as int == octet
    ensures Upper(hi) == UPPER[octet / 16] && Upper(lo) == UPPER[octet % 16]
  {
    HexIs(hi);
    HexIs(lo);
  }

  lemma UnescapeStep(s: string)
    requires s != [] && (s[0] == '%' ==> OpensWithEscape(s))
    ensures var step := if s[0] == '%' then 3 else 1;
            Unescape(s) == match Unescape(s[step..])
                           case None => None
                           case Some(d) => Some([if s[0] == '%' then EscapedByte(s) else s[0]] + d)
  {
  }

  lemma {:induction false} UnescapeOn(a: string, b: string)
    requires WellEscaped(a) && WellEscaped(b)
    ensures Unescape(a + b) == Some(Unescape(a).value + Unescape(b).value)
  {
    hide EscapedByte, Unescape;
    if a == [] {
      UnescapeNothing();
      assert a + b == b;
      assert [] + Unescape(b).value == Unescape(b).value;
    } else {
      var step := if a[0] == '%' then 3 else 1;
      SameOpening(a, b);
      assert (a + b)[step..] == a[step..] + b;
      UnescapeStep(a);
      UnescapeStep(a + b);
      UnescapeOn(a[step..], b);
      var first := if a[0] == '%' then EscapedByte(a) else a[0];
      assert [first] + (Unescape(a[step..]).value + Unescape(b).value) == ([first] + Unescape(a[step..]).value) + Unescape(b).value;
    }
  }

  /** An escape is read as its octet, wherever it stands among escapes. */
  lemma EscapeIsRead(a: string, octet: int, hi: char, lo: char, b: string)
    requires WellEscaped(a) && WellEscaped(b) && EscapeOf(octet, hi, lo)
    ensures Unescape(a + (['%', hi, lo] + b)) == Some(Unescape(a).value + ([octet as char] + Unescape(b).value))
  {
    EscapeOpens(octet, hi, lo, b);
    var s := ['%', hi, lo] + b;
    assert s[3..] == b;
    assert WellEscaped(s);
    hide Unescape, WellEscaped, OpensWithEscape, EscapedByte, EscapeOf;
    UnescapeStep(s);
    UnescapeOn(a, s);
  }

  lemma SameOpening(a: string, b: string)
    requires OpensWithEscape(a) || (a != [] && a[0] != '%')
    ensures OpensWithEscape(a + b) == OpensWithEscape(a)
    ensures OpensWithEscape(a) ==> EscapedByte(a + b) == EscapedByte(a) && Respelled(a + b) == Respelled(a)
  {
    assert forall j :: 0 <= j < |a| ==> (a + b)[j] == a[j];
  }

  // ---- one spelling ------------------------------------------------------------------------

  /** Unreserved, by section 2.3 of RFC 3986: a letter, a digit, a hyphen, a period, an underscore, a tilde. */
  predicate Unreserved(octet: int) {
    || 'A' as int <= octet <= 'Z' as int || 'a' as int <= octet <= 'z' as int || '0' as int <= octet <= '9' as int
    || octet == 0x2D || octet == 0x2E || octet == 0x5F || octet == 0x7E
  }

  function Spelling(octet: int): string
    requires 0 <= octet < 256
  {
    if Unreserved(octet) then [octet as char] else ['%', UPPER[octet / 16], UPPER[octet % 16]]
  }

  lemma {:induction false} NormalizeOn(a: string, b: string)
    requires WellEscaped(a)
    ensures Normalize(a + b) == Normalize(a) + Normalize(b)
  {
    if a == [] {
      assert a + b == b;
    } else {
      var step := if a[0] == '%' then 3 else 1;
      SameOpening(a, b);
      assert (a + b)[step..] == a[step..] + b;
      NormalizeOn(a[step..], b);
    }
  }

  lemma SpellingIs(octet: int, hi: char, lo: char, b: string)
    requires EscapeOf(octet, hi, lo)
    ensures 0 <= octet < 256 && OpensWithEscape(['%', hi, lo] + b) && Respelled(['%', hi, lo] + b) == Spelling(octet)
  {
    EscapeOpens(octet, hi, lo, b);
    hide EscapeOf, Upper, IsHexDigit, UPPER;
  }

  /** An escape is spelled as its octet if that is unreserved, and in capital digits if not; all else is as it was. */
  lemma EscapeIsRespelled(a: string, octet: int, hi: char, lo: char, b: string)
    requires WellEscaped(a) && EscapeOf(octet, hi, lo)
    ensures Normalize(a + (['%', hi, lo] + b)) == Normalize(a) + Spelling(octet) + Normalize(b)
  {
    hide WellEscaped, OpensWithEscape, EscapeOf, Spelling, Respelled;
    var s := ['%', hi, lo] + b;
    SpellingIs(octet, hi, lo, b);
    assert s[3..] == b;
    NormalizeOn(a, s);
    assert Normalize(a) + (Spelling(octet) + Normalize(b)) == Normalize(a) + Spelling(octet) + Normalize(b);
  }

  lemma CharacterIsKept(a: string, c: char, b: string)
    requires WellEscaped(a) && !OpensWithEscape([c] + b)
    ensures Normalize(a + ([c] + b)) == Normalize(a) + [c] + Normalize(b)
  {
    NormalizeOn(a, [c] + b);
    assert ([c] + b)[1..] == b;
  }

  /** Respelling changes no meaning: what a path decodes to is what its spelling decodes to. */
  lemma {:induction false} RespellingKeepsMeaning(s: string)
    requires WellEscaped(s)
    ensures Unescape(Normalize(s)) == Unescape(s)
  {
    if s != [] {
      if s[0] == '%' {
        RespellingKeepsMeaning(s[3..]);
        RespelledDecodes(s, Normalize(s[3..]));
      } else {
        RespellingKeepsMeaning(s[1..]);
        assert ([s[0]] + Normalize(s[1..]))[1..] == Normalize(s[1..]);
      }
    }
  }

  lemma RespelledDecodes(s: string, rest: string)
    requires OpensWithEscape(s)
    ensures Unescape(Respelled(s) + rest) ==
            match Unescape(rest) case None => None case Some(d) => Some([EscapedByte(s)] + d)
  {
    var r := Respelled(s) + rest;
    if IsUnreserved(EscapedByte(s)) {
      assert r[1..] == rest;
    } else {
      assert r[0] == '%' && r[1] == Upper(s[1]) && r[2] == Upper(s[2]) && r[3..] == rest;
      assert OpensWithEscape(r) && EscapedByte(r) == EscapedByte(s);
    }
  }

  /** A redirect names the canonical path and asks the request's own query. */
  lemma RedirectKeepsTheQuery(escaped: string, query: string, path: string, asked: string)
    requires '?' !in escaped && '?' !in path
    requires Redirect(escaped, CanonicalPath(escaped), query) == Some(if asked == "" then path else path + "?" + asked)
    ensures path == CanonicalPath(escaped) && asked == query
  {
    hide CanonicalPath;
    CanonicalAddsNoQuestionMark(escaped);
    assert PathAndQuery(path, asked) == PathAndQuery(CanonicalPath(escaped), query);
    PathAndQueryInjective(path, asked, CanonicalPath(escaped), query);
  }

  // ---- a segment that steps up --------------------------------------------------------------

  /** A ".." between slashes, or at an end. */
  ghost predicate DotDotWithin(s: string) {
    || s == ".."
    || (exists b :: s == "../" + b)
    || (exists a :: s == a + "/..")
    || exists a, b :: s == a + "/../" + b
  }

  lemma {:induction false} JoinAround(parts: seq<string>, i: nat)
    requires i < |parts|
    ensures Join(parts, '/') ==
            (if i == 0 then "" else Join(parts[..i], '/') + ['/']) + parts[i]
            + (if i + 1 == |parts| then "" else ['/'] + Join(parts[i + 1..], '/'))
  {
    if i == 0 {
      assert |parts| > 1 ==> parts[0] + ['/'] + Join(parts[1..], '/') == parts[0] + (['/'] + Join(parts[1..], '/'));
    } else {
      JoinAppend(parts[..i], parts[i..], '/');
      assert parts == parts[..i] + parts[i..];
      JoinAround(parts[i..], 0);
      assert parts[i..][0] == parts[i] && parts[i..][1..] == parts[i + 1..];
    }
  }

  lemma DotDotIsWithin(s: string)
    ensures ".." in Split(s, '/') <==> DotDotWithin(s)
  {
    var parts := Split(s, '/');
    JoinOfSplit(s, '/');
    if ".." in parts {
      var i :| 0 <= i < |parts| && parts[i] == "..";
      JoinAround(parts, i);
      AroundIs(s, if i == 0 then None else Some(Join(parts[..i], '/')), if i + 1 == |parts| then None else Some(Join(parts[i + 1..], '/')));
    }
    WithinIsPart(s);
  }

  lemma AroundIs(s: string, a: Option<string>, b: Option<string>)
    requires s == (if a.None? then "" else a.value + ['/']) + ".." + (if b.None? then "" else ['/'] + b.value)
    ensures DotDotWithin(s)
  {
    if a.None? && b.Some? {
      assert s == "../" + b.value;
    } else if a.Some? && b.None? {
      assert s == a.value + "/..";
    } else if a.Some? {
      assert s == a.value + "/../" + b.value;
    }
  }

  lemma WithinIsPart(s: string)
    ensures DotDotWithin(s) ==> ".." in Split(s, '/')
  {
    SplitWhole("..", '/');
    if b :| s == "../" + b {
      assert s == ".." + ['/'] + b;
      SplitAt("..", b, '/');
    } else if a :| s == a + "/.." {
      assert s == a + ['/'] + "..";
      SplitAt(a, "..", '/');
    } else if a, b :| s == a + "/../" + b {
      assert s == a + ['/'] + (".." + ['/'] + b);
      SplitAt(a, ".." + ['/'] + b, '/');
      SplitAt("..", b, '/');
    }
  }

  /** An alias by what its segments decode to: one of them holds an escape, and fails to decode or holds a ".." when decoded. */
  lemma AliasIs(escaped: string)
    ensures SomeStepsUp(escaped) <==>
              exists j :: 0 <= j < |Split(escaped, '/')|
                && '%' in Split(escaped, '/')[j]
                && (Unescape(Split(escaped, '/')[j]) == None || DotDotWithin(Unescape(Split(escaped, '/')[j]).value))
  {
    hide Split, Unescape, WellEscaped, DotDotWithin;
    forall segment: string ensures StepsUp(segment) <==>
      '%' in segment && (Unescape(segment) == None || DotDotWithin(Unescape(segment).value))
    {
      if Unescape(segment).Some? {
        DotDotIsWithin(Unescape(segment).value);
      }
    }
  }
}
