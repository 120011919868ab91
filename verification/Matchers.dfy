/** Which middleware matchers are taken (middleware.go), and exactly which paths each of them covers. */
module Matchers {
  import opened Middleware
  import opened Paths

  /** A path as a request's is when it is matched: rooted, cleaned; and nothing that a matcher may not hold. */
  predicate PlainPath(b: string) {
    && b != "" && b[0] == '/' && Clean(b) == b
    && '*' !in b && '?' !in b && '#' !in b && !HoldsEscape(b)
  }

  /** The three spellings of a matcher: the path alone, what begins with it, and it with what is below it. */
  predicate Spelled(m: string, b: string) {
    m == b || m == b + "*" || m == b + "/*"
  }

  lemma EscapeKeepsOff(b: string, tail: string)
    requires tail == "*" || tail == "/*"
    ensures HoldsEscape(b + tail) <==> HoldsEscape(b)
  {
    var m := b + tail;
    if HoldsEscape(b) {
      var i :| 0 <= i <= |b| && OpensWithEscape(b[i..]);
      assert m[i..][0] == b[i..][0] && m[i..][1] == b[i..][1] && m[i..][2] == b[i..][2];
      assert OpensWithEscape(m[i..]);
    }
    if HoldsEscape(m) {
      var i :| 0 <= i <= |m| && OpensWithEscape(m[i..]);
      assert m[i] == '%' && IsHexDigit(m[i + 1]) && IsHexDigit(m[i + 2]);
      assert i + 2 < |b| by {
        assert forall j :: |b| <= j < |m| ==> m[j] == '*' || m[j] == '/';
      }
      assert b[i..][0] == m[i] && b[i..][1] == m[i + 1] && b[i..][2] == m[i + 2];
      assert OpensWithEscape(b[i..]);
    }
  }

  lemma StarStem(b: string)
    ensures TrimSuffix(b + "*", "*") == b && HasSuffix(b + "*", "*")
    ensures Stem(b + "*") == TrimSuffix(b, "/") && Stem(b + "/*") == b
    ensures HasSuffix(b + "/*", "*") && HasSuffix(b + "/*", "/*") && TrimSuffix(b + "/*", "*") == b + "/" && TrimSuffix(b + "/*", "/*") == b
  {
    assert (b + "*")[|b|..] == "*";
    assert b + "/*" == (b + "/") + "*";
    assert (b + "/*")[|b| + 1..] == "*" && (b + "/*")[|b|..] == "/*";
    assert (b + "/")[|b|..] == "/";
  }

  /** A cleaned path ends in a slash only if it is the root. */
  lemma CleanedEnd(b: string)
    requires b != "" && b[0] == '/' && Clean(b) == b
    ensures HasSuffix(b, "/") <==> b == "/"
    ensures b != "/" ==> TrimSuffix(b, "/") == b
  {
    ResolveSettles(Split(b, '/'), true, []);
    var names := Kept(b);
    if names != [] {
      NoSlashAtTheEnd(names);
    } else {
      assert b == "/";
    }
  }

  lemma SpelledIsTaken(m: string, b: string)
    requires PlainPath(b) && Spelled(m, b)
    ensures MatcherRefusal(m) == Accepted
  {
    hide Clean, HoldsEscape;
    CleanRoot();
    CleanedEnd(b);
    StarStem(b);
    EscapeKeepsOff(b, "*");
    EscapeKeepsOff(b, "/*");
    PathStem(b);
    assert TrimSuffix("/", "/") == "";
    assert '*' !in b + "/";
  }

  lemma StarWithin(s: string)
    ensures HasSuffix(s, "*") ==> '*' in s
    ensures HasSuffix(s, "/*") ==> '*' in s
  {
    if HasSuffix(s, "*") {
      assert s[|s| - 1..][0] == '*' == s[|s| - 1];
    }
    if HasSuffix(s, "/*") {
      assert s[|s| - 2..][1] == '*' == s[|s| - 1];
    }
  }

  lemma PathStem(b: string)
    requires '*' !in b
    ensures !HasSuffix(b, "*") && TrimSuffix(b, "*") == b && Stem(b) == TrimSuffix(b, "/")
  {
    StarWithin(b);
  }

  /** The path a taken matcher is spelled from. */
  function PathOf(m: string): string {
    if HasSuffix(m, "/*") && m != "/*" then TrimSuffix(m, "/*") else TrimSuffix(m, "*")
  }

  lemma TakenIsSpelled(m: string)
    requires MatcherRefusal(m) == Accepted
    ensures PlainPath(PathOf(m)) && Spelled(m, PathOf(m))
  {
    hide Clean, HoldsEscape;
    CleanRoot();
    var b := PathOf(m);
    if HasSuffix(m, "/*") && m != "/*" {
      assert m == b + "/*";
      StarStem(b);
      EscapeKeepsOff(b, "/*");
      assert b != "" && b[0] == m[0];
      assert forall c :: c in b ==> c in b + "/";
      assert forall c :: c in b ==> c in m;
    } else if HasSuffix(m, "*") {
      assert m == b + "*";
      StarStem(b);
      EscapeKeepsOff(b, "*");
      assert forall c :: c in b ==> c in m;
      PrefixPath(m, b);
    } else {
      assert b == m;
      assert Stem(m) == TrimSuffix(m, "/");
      if m != "/" {
        assert TrimSuffix(m, "/") == m;
      }
    }
  }

  lemma PrefixPath(m: string, b: string)
    requires MatcherRefusal(m) == Accepted && m == b + "*" && !(HasSuffix(m, "/*") && m != "/*")
    ensures b != "" && b[0] == '/' && Clean(b) == b
  {
    TakenStem(m);
    StarStem(b);
    SlashBeforeStar(b);
    hide Clean, MatcherRefusal, HasSuffix, TrimSuffix, Stem;
    CleanRoot();
    assert m[0] == '/' && (b == "" ==> m == "*");
    if m == "/*" {
      assert b == m[..1];
    } else {
      WithoutEnd(b, "/");
    }
  }

  lemma WithoutEnd(s: string, end: string)
    ensures !HasSuffix(s, end) ==> TrimSuffix(s, end) == s
  {
  }

  lemma TakenStem(m: string)
    requires MatcherRefusal(m) == Accepted
    ensures m != "" && m[0] == '/' && (Stem(m) != "" ==> Clean(Stem(m)) == Stem(m))
  {
    hide Clean, HoldsEscape;
  }

  lemma SlashBeforeStar(b: string)
    ensures HasSuffix(b + "*", "/*") <==> HasSuffix(b, "/")
  {
    var m := b + "*";
    if b != "" {
      assert m[|m| - 2..] == [b[|b| - 1], '*'];
      assert b[|b| - 1..] == [b[|b| - 1]];
      assert [b[|b| - 1], '*'][0] == b[|b| - 1] && "/*"[0] == '/' && "/"[0] == '/';
    }
  }

  /** Exactly the entries that are taken at registration: a plain path, in one of the three spellings. */
  lemma TakenIs(m: string)
    ensures MatcherRefusal(m) == Accepted <==> exists b :: PlainPath(b) && Spelled(m, b)
  {
    hide MatcherRefusal, PlainPath, Spelled;
    if MatcherRefusal(m) == Accepted {
      TakenIsSpelled(m);
    }
    forall b | PlainPath(b) && Spelled(m, b) ensures MatcherRefusal(m) == Accepted {
      SpelledIsTaken(m, b);
    }
  }

  /** An escape lies within one segment. */
  lemma EscapeInSegment(a: string, b: string)
    ensures HoldsEscape(a + ['/'] + b) <==> HoldsEscape(a) || HoldsEscape(b)
  {
    var m := a + ['/'] + b;
    if HoldsEscape(a) {
      var i :| 0 <= i <= |a| && OpensWithEscape(a[i..]);
      assert m[i..][0] == a[i..][0] && m[i..][1] == a[i..][1] && m[i..][2] == a[i..][2];
      assert OpensWithEscape(m[i..]);
    }
    if HoldsEscape(b) {
      var i :| 0 <= i <= |b| && OpensWithEscape(b[i..]);
      assert m[|a| + 1 + i..] == b[i..];
    }
    if HoldsEscape(m) {
      var i :| 0 <= i <= |m| && OpensWithEscape(m[i..]);
      if i <= |a| {
        assert m[i..] == a[i..] + ['/'] + b;
        if i < |a| {
          EscapeStopsAtSlash(a[i..], b);
        }
      } else {
        assert m[i..] == b[i - |a| - 1..];
      }
    }
  }

  predicate NoneHolds(parts: seq<string>) {
    forall j :: 0 <= j < |parts| ==> !HoldsEscape(parts[j]) && '*' !in parts[j] && '?' !in parts[j] && '#' !in parts[j]
  }

  predicate HoldsNone(s: string) {
    !HoldsEscape(s) && '*' !in s && '?' !in s && '#' !in s
  }

  lemma {:induction false} JoinHoldsNone(parts: seq<string>)
    requires |parts| > 0
    ensures HoldsNone(Join(parts, '/')) <==> NoneHolds(parts)
  {
    hide HoldsEscape;
    if |parts| > 1 {
      JoinHoldsNone(parts[1..]);
      EscapeInSegment(parts[0], Join(parts[1..], '/'));
      assert parts == [parts[0]] + parts[1..];
    }
  }

  lemma {:induction false} ResolveHoldsNone(segments: seq<string>, stack: seq<string>)
    requires NoneHolds(segments) && NoneHolds(stack)
    ensures NoneHolds(Resolve(segments, true, stack))
  {
    hide HoldsEscape;
    if segments != [] {
      ResolveHoldsNone(segments[1..], Push(stack, segments[0], true));
    }
  }

  /** Cleaning forms nothing that a matcher may not hold. */
  lemma CleanedIsPlain(m: string)
    requires Rooted(m) && HoldsNone(m)
    ensures PlainPath(Clean(m))
  {
    hide HoldsEscape;
    CleanIsIdempotent(m);
    JoinOfSplit(m, '/');
    JoinHoldsNone(Split(m, '/'));
    ResolveHoldsNone(Split(m, '/'), []);
    var names := Kept(m);
    if names != [] {
      JoinHoldsNone(names);
      EscapeInSegment("", Join(names, '/'));
      assert "" + ['/'] + Join(names, '/') == ['/'] + Join(names, '/');
      NothingHeld("");
    } else {
      NothingHeld("/");
      assert Clean(m) == "/";
    }
  }

  lemma NothingHeld(s: string)
    requires |s| < 3
    ensures !HoldsEscape(s)
  {
  }

  /** What is offered instead of an entry that ends in a slash is taken: the path alone, and as a subtree. */
  lemma OfferedIsTaken(m: string)
    requires MatcherRefusal(m).TrailingSlash?
    ensures var b := MatcherRefusal(m).offered;
            && b == Clean(m) && MatcherRefusal(b) == Accepted && MatcherRefusal(TrimSuffix(b, "/") + "/*") == Accepted
  {
    var b := Clean(m);
    OfferIs(m);
    CleanedIsPlain(m);
    hide Clean, HoldsEscape, MatcherRefusal;
    SpelledIsTaken(b, b);
    CleanedEnd(b);
    assert TrimSuffix("/", "/") == "";
    assert b == "/" ==> TrimSuffix(b, "/") + "/*" == b + "*";
    SpelledIsTaken(TrimSuffix(b, "/") + "/*", b);
  }

  lemma OfferIs(m: string)
    requires MatcherRefusal(m).TrailingSlash?
    ensures MatcherRefusal(m).offered == Clean(m) && Rooted(m) && HoldsNone(m)
  {
    hide Clean, HoldsEscape;
    WithoutEnd(m, "*");
  }

  // ---- exactly what each covers ---------------------------------------------------------------

  /** The path is the base, or has the base's names ahead of its own. */
  ghost predicate AtOrBelow(base: string, path: string) {
    |Kept(base)| <= |Kept(path)| && Kept(path)[..|Kept(base)|] == Kept(base)
  }

  lemma {:induction false} JoinPrefix(a: seq<string>, b: seq<string>)
    requires Settled(a, true) && Settled(b, true) && a != [] && b != []
    ensures Join(b, '/') == Join(a, '/') || Join(a, '/') + "/" <= Join(b, '/') <==> |a| <= |b| && b[..|a|] == a
  {
    var s, t := Join(a, '/'), Join(b, '/');
    if |a| <= |b| && b[..|a|] == a {
      if |a| < |b| {
        assert b == a + b[|a|..];
        JoinAppend(a, b[|a|..], '/');
      } else {
        assert b == a;
      }
    }
    SplitOfJoin(a, '/');
    SplitOfJoin(b, '/');
    if s + "/" <= t {
      var rest := t[|s| + 1..];
      assert t == s + ['/'] + rest;
      SplitAt(s, rest, '/');
      assert b == a + Split(rest, '/');
    }
  }

  /**
   The entry alone covers its path; with a star, what begins with it; with a slash and a star, its
   path and what is below it, name by name - and nothing else. The root's covers all, the one
   written with two slashes the root alone.
   */
  lemma CoversExactly(b: string, path: string)
    requires PlainPath(b) && Clean(path) == path && path != "" && path[0] == '/'
    ensures Matches(b, path) <==> path == b
    ensures Matches(b + "*", path) <==> b <= path
    ensures b != "/" ==> (Matches(b + "/*", path) <==> AtOrBelow(b, path))
    ensures b == "/" ==> (Matches(b + "/*", path) <==> path == "/")
  {
    StarStem(b);
    PathStem(b);
    CleanedEnd(b);
    NoSlashStar(b);
    hide HasSuffix, TrimSuffix, HoldsEscape;
    ResolveSettles(Split(b, '/'), true, []);
    ResolveSettles(Split(path, '/'), true, []);
    SubtreeCovers(b, path);
    PrefixCovers(b, path);
  }

  /** The middleware applies to every path if it has no entry, and otherwise where one of them covers it. */
  lemma AppliesWhere(matcher: seq<string>, path: string)
    ensures Covers(matcher, path) <==> |matcher| == 0 || exists j :: 0 <= j < |matcher| && Matches(matcher[j], path)
  {
    forall j | 0 <= j < |matcher| ensures matcher[j] in matcher {
    }
  }

  lemma NoSlashStar(b: string)
    requires '*' !in b
    ensures !HasSuffix(b, "/*")
    ensures HasSuffix(b + "*", "/*") <==> HasSuffix(b, "/")
  {
    StarWithin(b);
    SlashBeforeStar(b);
  }

  lemma PrefixCovers(b: string, path: string)
    requires PlainPath(b) && path != "" && path[0] == '/'
    ensures Matches(b + "*", path) <==> b <= path
  {
    StarStem(b);
    CleanedEnd(b);
    NoSlashStar(b);
    hide Clean, HoldsEscape;
    if b == "/" {
      assert b + "*" == "" + "/*";
      StarStem("");
      assert path == "/" + path[1..];
    }
  }

  lemma SubtreeCovers(b: string, path: string)
    requires PlainPath(b) && Clean(path) == path && path != "" && path[0] == '/'
    ensures b != "/" ==> (Matches(b + "/*", path) <==> AtOrBelow(b, path))
    ensures b == "/" ==> (Matches(b + "/*", path) <==> path == "/")
  {
    StarStem(b);
    ResolveSettles(Split(b, '/'), true, []);
    ResolveSettles(Split(path, '/'), true, []);
    var a, c := Kept(b), Kept(path);
    hide HasSuffix, TrimSuffix, HoldsEscape, Split, Resolve;
    if b == "/" {
      NotBelowRoot(c, path);
    } else {
      assert a != [];
      if c != [] {
        JoinPrefix(a, c);
        assert path == ['/'] + Join(c, '/') && b == ['/'] + Join(a, '/');
        UnderRoot(Join(a, '/'), Join(c, '/'));
      } else {
        assert path == "/";
        JoinIsNotEmpty(a, true);
      }
    }
  }

  lemma UnderRoot(s: string, t: string)
    ensures ['/'] + t == ['/'] + s || ['/'] + s + "/" <= ['/'] + t <==> t == s || s + "/" <= t
  {
    assert (['/'] + t)[1..] == t && (['/'] + s)[1..] == s;
    assert ['/'] + s + "/" == ['/'] + (s + "/");
    if ['/'] + s + "/" <= ['/'] + t {
      assert forall j :: 0 <= j < |s + "/"| ==> t[j] == (['/'] + t)[j + 1] && (s + "/")[j] == (['/'] + (s + "/"))[j + 1];
    }
  }

  lemma NotBelowRoot(names: seq<string>, path: string)
    requires Settled(names, true) && path == ['/'] + (if names == [] then [] else Join(names, '/'))
    ensures !("//" <= path)
  {
    if names != [] {
      JoinIsNotEmpty(names, true);
      assert path[1] == names[0][0];
    }
  }
}
