/** What a Revalidate names (isr.go), and what it leaves alone: exactly, by the spellings of the call and of the page. */
module Revalidate {
  import opened Paths
  import opened Canonical
  import opened Middleware
  import opened CacheKeys
  import opened Wrappers

  /** The path with any query, or none. */
  ghost predicate IsOrAsks(path: string, text: string) {
    text == path || exists query :: text == path + "?" + query
  }

  /** The path with any query, or something below it. */
  ghost predicate IsOrBelow(path: string, text: string) {
    IsOrAsks(path, text) || exists rest :: text == path + "/" + rest
  }

  ghost predicate Begins(prefix: string, text: string) {
    exists rest :: text == prefix + rest
  }

  /** As url.PathUnescape reads it, or as it is where that fails. */
  ghost predicate Decodes(text: string, decoded: string) {
    if Unescape(text).Some? then decoded == Unescape(text).value else decoded == text
  }

  predicate EndsIn(s: string, c: char) {
    s != "" && s[|s| - 1] == c
  }

  lemma PrefixIs(prefix: string, text: string)
    ensures prefix <= text <==> Begins(prefix, text)
  {
    if prefix <= text {
      assert text == prefix + text[|prefix|..];
    }
  }

  lemma AsksIs(path: string, text: string)
    ensures text == path || path + "?" <= text <==> IsOrAsks(path, text)
  {
    if path + "?" <= text {
      assert text == path + "?" + text[|path| + 1..];
    }
  }

  lemma BelowIs(path: string, text: string)
    ensures text == path || path + "?" <= text || path + "/" <= text <==> IsOrBelow(path, text)
  {
    AsksIs(path, text);
    if path + "/" <= text {
      assert text == path + "/" + text[|path| + 1..];
    }
  }

  // ---- the three grammars, on one spelling of path and key ----------------------------

  lemma EndOf(s: string, c: char)
    ensures HasSuffix(s, [c]) <==> EndsIn(s, c)
    ensures EndsIn(s, c) ==> TrimSuffix(s, [c]) == s[..|s| - 1]
  {
  }

  lemma NotStarred(path: string)
    requires !EndsIn(path, '*')
    ensures !HasSuffix(path, "*") && !HasSuffix(path, "/*")
  {
    EndOf(path, '*');
    SlashStarEnds(path);
  }

  lemma SlashStarEnds(path: string)
    ensures HasSuffix(path, "/*") ==> EndsIn(path, '*')
  {
    if HasSuffix(path, "/*") {
      assert path[|path| - 2..][1] == '*';
    }
  }

  lemma Starred(base: string)
    ensures HasSuffix(base + "*", "*") && TrimSuffix(base + "*", "*") == base
    ensures HasSuffix(base + "*", "/*") <==> EndsIn(base, '/')
    ensures EndsIn(base, '/') ==> TrimSuffix(base + "*", "/*") == base[..|base| - 1]
  {
    var p := base + "*";
    assert p[|p| - 1..] == "*";
    if base != "" {
      assert p[|p| - 2..] == [base[|base| - 1], '*'];
    }
  }

  lemma ExactMatches(path: string, k: string)
    requires !EndsIn(path, '*')
    ensures MatchesPath(path, k) <==> IsOrAsks(path, k)
  {
    NotStarred(path);
    AsksIs(path, k);
  }

  lemma PrefixMatches(base: string, k: string)
    requires !EndsIn(base, '/')
    ensures MatchesPath(base + "*", k) <==> Begins(base, k)
  {
    Starred(base);
    PrefixIs(base, k);
  }

  lemma SubtreeMatchesOnly(base: string, k: string)
    requires base != ""
    ensures MatchesPath(base + "/*", k) <==> IsOrBelow(base, k)
  {
    assert base + "/*" == (base + "/") + "*";
    Starred(base + "/");
    BelowIs(base, k);
  }

  lemma WholeSiteMatches(k: string)
    ensures MatchesPath("/*", k) <==> Begins("/", k)
  {
    assert "/*" == "/" + "*";
    Starred("/");
    PrefixIs("/", k);
    hide Begins;
    if k == "/" || "/" + "?" <= k {
      assert k[0] == '/';
      assert "/" <= k;
    }
  }

  /** What a call covers of the pages, by its ending: the grammar in one. */
  ghost predicate Covers(call: string, text: string) {
    if !EndsIn(call, '*') then IsOrAsks(call, text)
    else
      var base := call[..|call| - 1];
      if !EndsIn(base, '/') then Begins(base, text)
      else if base == "/" then Begins("/", text)
      else IsOrBelow(base[..|base| - 1], text)
  }

  lemma MatchesIsCovers(call: string, k: string)
    ensures MatchesPath(call, k) <==> Covers(call, k)
  {
    hide MatchesPath, IsOrAsks, IsOrBelow, Begins;
    if !EndsIn(call, '*') {
      ExactMatches(call, k);
    } else {
      var base := call[..|call| - 1];
      assert call == base + "*";
      if !EndsIn(base, '/') {
        PrefixMatches(base, k);
      } else if base == "/" {
        assert call == "/*";
        WholeSiteMatches(k);
      } else {
        assert call == base[..|base| - 1] + "/*";
        SubtreeMatchesOnly(base[..|base| - 1], k);
      }
    }
  }

  // ---- both spellings --------------------------------------------------------------------

  lemma DecodesTo(s: string)
    ensures Decodes(s, DecodedOrItself(s))
  {
  }

  lemma DecodesOne(s: string, d: string)
    requires Decodes(s, d)
    ensures d == DecodedOrItself(s)
  {
  }

  lemma {:induction false} UnescapePlus(a: string, c: char)
    requires c != '%' && !IsHexDigit(c)
    ensures Unescape(a + [c]).Some? == Unescape(a).Some?
    ensures Unescape(a).Some? ==> Unescape(a + [c]).value == Unescape(a).value + [c]
  {
    if a == [] {
      assert ([] + [c])[1..] == [];
      assert [] + [c] == [c];
    } else {
      var s := a + [c];
      assert OpensWithEscape(s) == OpensWithEscape(a);
      if a[0] != '%' {
        assert s[1..] == a[1..] + [c];
        UnescapePlus(a[1..], c);
        if Unescape(a).Some? {
          assert [a[0]] + (Unescape(a[1..]).value + [c]) == ([a[0]] + Unescape(a[1..]).value) + [c];
        }
      } else if OpensWithEscape(a) {
        assert s[3..] == a[3..] + [c];
        UnescapePlus(a[3..], c);
        if Unescape(a).Some? {
          assert [EscapedByte(a)] + (Unescape(a[3..]).value + [c]) == ([EscapedByte(a)] + Unescape(a[3..]).value) + [c];
        }
      }
    }
  }

  /** What the call adds to the base is the same decoded. */
  lemma DecodedGrammar(base: string)
    ensures DecodedOrItself(base + "*") == DecodedOrItself(base) + "*"
    ensures DecodedOrItself(base + "/*") == DecodedOrItself(base) + "/*"
  {
    UnescapePlus(base, '*');
    UnescapePlus(base, '/');
    UnescapePlus(base + "/", '*');
    assert base + "/*" == (base + "/") + "*";
    hide Unescape, WellEscaped;
    assert DecodedOrItself(base) + "/*" == (DecodedOrItself(base) + "/") + "*";
  }

  /** The page and its query as the key holds them. */
  ghost predicate PageIs(p: string, q: string, text: string) {
    text == if q == "" then CanonicalPath(p) else CanonicalPath(p) + "?" + q
  }

  lemma NamesInTwo(path: string, s: string, h: string, p: string, q: string, text: string)
    requires '\0' !in s && PageIs(p, q, text)
    ensures PathMatchesKey(path, CacheKey(s, h, p, q)) <==>
              MatchesPath(path, text) || MatchesPath(DecodedOrItself(path), DecodedOrItself(text))
  {
    hide CanonicalPath, MatchesPath, DecodedOrItself, CacheKey;
    KeyPathOfCacheKey(s, h, p, q);
  }

  /** Whatever the call: a key is named exactly when its page is covered, as it is spelled or as both decode. */
  lemma NamedIsCovered(call: string, s: string, h: string, p: string, q: string, text: string, call': string, text': string)
    requires '\0' !in s && PageIs(p, q, text) && Decodes(call, call') && Decodes(text, text')
    ensures PathMatchesKey(call, CacheKey(s, h, p, q)) <==> Covers(call, text) || Covers(call', text')
  {
    DecodesOne(call, call');
    DecodesOne(text, text');
    hide CanonicalPath, DecodedOrItself, CacheKey, PathMatchesKey, MatchesPath, Covers, Unescape;
    NamesInTwo(call, s, h, p, q, text);
    MatchesIsCovers(call, text);
    MatchesIsCovers(call', text');
  }

  /**
   A path written without a star names a page exactly when the page, with any query or none, is
   spelled canonically as the path is, or decodes to what the path decodes to. That is so where
   the path does not come to end in a star by its being cleaned or decoded.
   */
  lemma RevalidateNamesOnly(spelling: string, s: string, h: string, p: string, q: string, path: string, text: string,
                            path': string, text': string)
    requires '\0' !in s && PageIs(p, q, text) && path == CanonicalPath(spelling)
    requires Decodes(path, path') && Decodes(text, text')
    requires !EndsIn(spelling, '*') && !EndsIn(path, '*') && !EndsIn(path', '*')
    ensures PathMatchesKey(RevalidatePath(spelling), CacheKey(s, h, p, q)) <==> IsOrAsks(path, text) || IsOrAsks(path', text')
  {
    NotStarred(spelling);
    NamesInTwo(path, s, h, p, q, text);
    DecodesOne(path, path');
    DecodesOne(text, text');
    hide CanonicalPath, DecodedOrItself, CacheKey, PathMatchesKey, IsOrAsks, Unescape;
    ExactMatches(path, text);
    ExactMatches(path', text');
  }

  /** Where neither holds an escape or a '?', that is when the two canonical paths are equal. */
  lemma PlainPathNamesItselfAlone(spelling: string, s: string, h: string, p: string, q: string)
    requires '\0' !in s && '?' !in p && '?' !in spelling && !EndsIn(spelling, '*')
    requires '%' !in CanonicalPath(spelling) && '%' !in CanonicalPath(p) && !EndsIn(CanonicalPath(spelling), '*')
    ensures PathMatchesKey(RevalidatePath(spelling), CacheKey(s, h, p, q)) <==> CanonicalPath(spelling) == CanonicalPath(p)
  {
    var path, page := CanonicalPath(spelling), CanonicalPath(p);
    var text := if q == "" then page else page + "?" + q;
    PlainTextUnescapes(path);
    CanonicalAddsNoQuestionMark(p);
    CanonicalAddsNoQuestionMark(spelling);
    DecodesTo(path);
    DecodesTo(text);
    var text' := DecodedOrItself(text);
    DecodedPage(page, q, text);
    RevalidateNamesOnly(spelling, s, h, p, q, path, text, path, text');
    hide CanonicalPath, CacheKey, PathMatchesKey, RevalidatePath, Unescape, DecodedOrItself;
    AsksOfPage(path, page, q, text);
    if text' != text {
      var q' :| text' == page + "?" + q';
      AsksOfPage(path, page, q', text');
    }
  }

  /** A page that holds no escape keeps its own spelling whatever its query decodes to. */
  lemma DecodedPage(page: string, q: string, text: string)
    requires '%' !in page && text == if q == "" then page else page + "?" + q
    ensures DecodedOrItself(text) == text || exists q' :: DecodedOrItself(text) == page + "?" + q'
  {
    PlainTextUnescapes(page);
    if q != "" && Unescape(text).Some? {
      assert text == (page + "?") + q;
      PlainPrefixUnescapes(page + "?", q);
      assert DecodedOrItself(text) == page + "?" + Unescape(q).value;
    }
  }

  lemma {:induction false} PlainPrefixUnescapes(a: string, b: string)
    requires '%' !in a
    ensures Unescape(a + b).Some? == Unescape(b).Some?
    ensures Unescape(b).Some? ==> Unescape(a + b).value == a + Unescape(b).value
  {
    if a == [] {
      assert a + b == b;
      if Unescape(b).Some? {
        assert a + Unescape(b).value == Unescape(b).value;
      }
    } else {
      assert (a + b)[1..] == a[1..] + b;
      PlainPrefixUnescapes(a[1..], b);
      if Unescape(b).Some? {
        assert [a[0]] + (a[1..] + Unescape(b).value) == a + Unescape(b).value;
      }
    }
  }

  lemma AsksOfPage(path: string, page: string, q: string, text: string)
    requires '?' !in path && '?' !in page && (text == page || text == page + "?" + q)
    ensures IsOrAsks(path, text) <==> path == page
  {
    HoldsMark(page, q);
    forall query | text == path + "?" + query ensures path == page {
      HoldsMark(path, query);
      if text != page {
        CutAt(path, query, page, q, '?');
      }
    }
    assert path == page && text != page ==> text == path + "?" + q;
  }

  lemma HoldsMark(a: string, b: string)
    ensures '?' in a + "?" + b
  {
    assert (a + "?" + b)[|a|] == '?';
  }

  /** Under a trailing slash-star: the base with any query, and what is below it; of the root, every page there is. */
  lemma RevalidateStarNamesOnlyTheSubtree(base: string, s: string, h: string, p: string, q: string, path: string, text: string,
                                          path': string, text': string)
    requires '\0' !in s && PageIs(p, q, text) && path == CanonicalPath(base)
    requires Decodes(path, path') && Decodes(text, text')
    ensures PathMatchesKey(RevalidatePath(base + "/*"), CacheKey(s, h, p, q)) <==>
              if path == "/" then Begins("/", text) || Begins("/", text') else IsOrBelow(path, text) || IsOrBelow(path', text')
  {
    assert base + "/*" == (base + "/") + "*";
    Starred(base + "/");
    CanonicalIsNotEmpty(base);
    DecodedIsNotEmpty(path);
    DecodesOne(path, path');
    DecodesOne(text, text');
    DecodedGrammar(path);
    assert RevalidatePath(base + "/*") == if path == "/" then "/*" else path + "/*";
    hide CanonicalPath, RevalidatePath, CacheKey, MatchesPath, PathMatchesKey, IsOrBelow, Begins, Unescape, WellEscaped, Decodes;
    if path == "/" {
      NamesInTwo("/*", s, h, p, q, text);
      assert "" + "/*" == "/*";
      EmptyDecodes();
      DecodedGrammar("");
      WholeSiteMatches(text);
      WholeSiteMatches(text');
    } else {
      NamesInTwo(path + "/*", s, h, p, q, text);
      SubtreeMatchesOnly(path, text);
      SubtreeMatchesOnly(path', text');
    }
  }

  lemma EmptyDecodes()
    ensures DecodedOrItself("") == ""
  {
  }

  lemma CanonicalIsNotEmpty(p: string)
    ensures CanonicalPath(p) != ""
  {
    if p != "" {
      CleanIsIdempotent(Normalize(p));
    }
  }

  lemma DecodedIsNotEmpty(s: string)
    requires s != ""
    ensures DecodedOrItself(s) != ""
  {
  }

  /** Under a trailing star: what begins with the prefix, where that does not come to end in a slash. */
  lemma RevalidatePrefixNamesOnlyThePrefix(base: string, s: string, h: string, p: string, q: string, path: string, text: string,
                                           path': string, text': string)
    requires '\0' !in s && PageIs(p, q, text) && path == CanonicalPath(base)
    requires Decodes(path, path') && Decodes(text, text')
    requires !EndsIn(base, '/') && !EndsIn(path, '/') && !EndsIn(path', '/')
    ensures PathMatchesKey(RevalidatePath(base + "*"), CacheKey(s, h, p, q)) <==> Begins(path, text) || Begins(path', text')
  {
    Starred(base);
    DecodesOne(path, path');
    DecodesOne(text, text');
    DecodedGrammar(path);
    assert RevalidatePath(base + "*") == path + "*";
    hide CanonicalPath, RevalidatePath, CacheKey, MatchesPath, PathMatchesKey, Begins, Unescape, WellEscaped;
    NamesInTwo(path + "*", s, h, p, q, text);
    PrefixMatches(path, text);
    PrefixMatches(path', text');
  }

  /** An escaped star is the call's own grammar once decoded: such a path names more than its page. */
  lemma EscapedStarNamesMore()
    ensures PathMatchesKey(RevalidatePath("/a%2A"), CacheKey("http", "h", "/abc", ""))
  {
    hide *;
    StarIsKept();
    StarMatches();
    PageIsItself();
    NamesInTwo("/a%2A", "http", "h", "/abc", "", "/abc");
  }

  lemma StarIsKept()
    ensures RevalidatePath("/a%2A") == "/a%2A"
  {
    hide CanonicalPath, Normal;
    StarIsNormal();
    SpellsItself("a%2A");
    assert "/" + "a%2A" == "/a%2A";
    NotStarred("/a%2A");
  }

  lemma StarIsNormal()
    ensures Normal("a%2A")
  {
    assert "a%2A"[1..] == "%2A" && "%2A"[3..] == "";
    assert EscapedByte("%2A") == '*';
    assert Normal("%2A");
  }

  lemma PageIsItself()
    ensures PageIs("/abc", "", "/abc")
  {
    hide CanonicalPath;
    assert "abc"[1..] == "bc" && "bc"[1..] == "c" && "c"[1..] == "";
    assert Normal("c") && Normal("bc");
    SpellsItself("abc");
    assert "/" + "abc" == "/abc";
  }

  lemma StarMatches()
    ensures MatchesPath(DecodedOrItself("/a%2A"), DecodedOrItself("/abc"))
  {
    StarDecodes();
    PlainTextUnescapes("/abc");
    hide MatchesPath, Unescape;
    assert "/a" + "*" == "/a*";
    PrefixMatches("/a", "/abc");
    assert "/abc" == "/a" + "bc";
  }

  lemma StarDecodes()
    ensures Unescape("/a%2A") == Some("/a*")
  {
    var s := "/a%2A";
    assert s[1..] == "a%2A" && s[1..][1..] == "%2A" && "%2A"[3..] == "";
    assert EscapedByte("%2A") == '*';
    assert Unescape("") == Some("");
    assert ['*'] + "" == "*" && ['a'] + "*" == "a*" && ['/'] + "a*" == "/a*";
    assert Unescape("%2A") == Some("*");
    assert Unescape("a%2A") == Some("a*");
  }

  lemma SpellsItself(name: string)
    requires Normal(name) && name != "" && name != "." && name != ".." && '/' !in name
    ensures CanonicalPath("/" + name) == "/" + name
  {
    NormalAt("", name);
    assert "" + ['/'] + name == "/" + name;
    NormalIsFixed("/" + name);
    CleanOneSegment(name);
  }
}
