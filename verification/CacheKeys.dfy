/** The key of a shared copy (isr.go), and which keys a Revalidate names. */
module CacheKeys {
  import opened Paths
  import opened Canonical
  import opened Middleware

  // ---- the key ---------------------------------------------------------------------

  function Lower(s: string): string {
    if s == [] then []
    else [if 'A' <= s[0] <= 'Z' then (s[0] as int + 32) as char else s[0]] + Lower(s[1..])
  }

  predicate HostChar(c: char) {
    c != '\0' && c != '/' && c != '?' && c != '#'
  }

  function HostChars(s: string): (r: string)
    ensures forall c :: c in r ==> HostChar(c)
  {
    if s == [] then [] else (if HostChar(s[0]) then [s[0]] else []) + HostChars(s[1..])
  }

  function CacheHost(host: string, scheme: string): (r: string)
    ensures '\0' !in r
  {
    HostChars(TrimSuffix(Lower(host), if scheme == "https" then ":443" else ":80"))
  }

  function CacheKey(scheme: string, host: string, escaped: string, query: string): string {
    var key := scheme + "://" + CacheHost(host, scheme) + ['\0'] + CanonicalPath(escaped);
    if query != "" then key + "?" + query else key
  }

  function IndexOf(s: string, c: char): (i: nat)
    ensures i <= |s| && c !in s[..i]
    ensures i < |s| ==> s[i] == c
  {
    if s == [] || s[0] == c then 0 else 1 + IndexOf(s[1..], c)
  }

  /** The path half: everything behind the first NUL, or the key itself when it holds none. */
  function KeyPath(key: string): string {
    var cut := IndexOf(key, '\0');
    if cut < |key| then key[cut + 1..] else key
  }

  // ---- one spelling, one key ---------------------------------------------------------

  function PathAndQuery(path: string, query: string): string {
    if query != "" then path + "?" + query else path
  }

  lemma {:induction false} IndexOfCut(a: string, b: string, c: char)
    requires c !in a
    ensures IndexOf(a + [c] + b, c) == |a|
  {
    if a != [] {
      assert (a + [c] + b)[1..] == a[1..] + [c] + b;
      IndexOfCut(a[1..], b, c);
    }
  }

  lemma CutAt(a: string, b: string, a': string, b': string, sep: char)
    requires sep !in a && sep !in a'
    requires a + [sep] + b == a' + [sep] + b'
    ensures a == a' && b == b'
  {
    var s := a + [sep] + b;
    IndexOfCut(a, b, sep);
    IndexOfCut(a', b', sep);
    assert s[..|a|] == a && s[..|a'|] == a';
    assert s[|a| + 1..] == b && s[|a'| + 1..] == b';
  }

  lemma {:induction false} NormalizeAddsNo(s: string, c: char)
    requires c !in s && (c == '?' || c == '\0')
    ensures c !in Normalize(s)
  {
    if s != [] {
      NormalizeAddsNo(if OpensWithEscape(s) then s[3..] else s[1..], c);
    }
  }

  lemma {:induction false} JoinAddsNo(parts: seq<string>, sep: char, c: char)
    requires |parts| > 0 && c != sep && forall j :: 0 <= j < |parts| ==> c !in parts[j]
    ensures c !in Join(parts, sep)
  {
    if |parts| > 1 {
      JoinAddsNo(parts[1..], sep, c);
    }
  }

  lemma {:induction false} ResolveAddsNo(segments: seq<string>, rooted: bool, stack: seq<string>, c: char)
    requires forall j :: 0 <= j < |segments| ==> c !in segments[j]
    requires forall j :: 0 <= j < |stack| ==> c !in stack[j]
    ensures forall j :: 0 <= j < |Resolve(segments, rooted, stack)| ==> c !in Resolve(segments, rooted, stack)[j]
  {
    if segments != [] {
      ResolveAddsNo(segments[1..], rooted, Push(stack, segments[0], rooted), c);
    }
  }

  lemma CanonicalAddsNoQuestionMark(p: string)
    requires '?' !in p
    ensures '?' !in CanonicalPath(p)
  {
    if p != "" {
      NormalizeAddsNo(p, '?');
      var q := Normalize(p);
      forall j | 0 <= j < |Split(q, '/')| ensures '?' !in Split(q, '/')[j] {
        PartsHoldNothingNew(q, '/', Split(q, '/')[j]);
      }
      ResolveAddsNo(Split(q, '/'), Rooted(q), [], '?');
      if Kept(q) != [] {
        JoinAddsNo(Kept(q), '/', '?');
      }
    }
  }

  /** Path and query come apart again: the path half of a key holds no '?' of its own. */
  lemma PathAndQueryInjective(p: string, q: string, p': string, q': string)
    requires '?' !in p && '?' !in p'
    requires PathAndQuery(p, q) == PathAndQuery(p', q')
    ensures p == p' && q == q'
  {
    assert (p + "?" + q)[|p|] == '?' && (p' + "?" + q')[|p'|] == '?';
    if q != "" && q' != "" {
      CutAt(p, q, p', q', '?');
    }
  }

  /** The site half of a key comes apart into scheme and host. */
  lemma SiteInjective(s: string, h: string, s': string, h': string)
    requires ':' !in s && ':' !in s'
    requires s + "://" + h == s' + "://" + h'
    ensures s == s' && h == h'
  {
    assert s + [':'] + ("//" + h) == s + "://" + h && s' + [':'] + ("//" + h') == s' + "://" + h';
    CutAt(s, "//" + h, s', "//" + h', ':');
    assert ("//" + h)[2..] == h && ("//" + h')[2..] == h';
  }

  /**
   Two requests share a key exactly when they agree on scheme, normalised host, canonical path
   and query: no host and no query can spell its way into another site's copy.
   */
  lemma CacheKeyIsInjective(s: string, h: string, p: string, q: string, s': string, h': string, p': string, q': string)
    requires s in {"http", "https"} && s' in {"http", "https"}
    requires '?' !in p && '?' !in p'
    ensures CacheKey(s, h, p, q) == CacheKey(s', h', p', q') <==>
              s == s' && CacheHost(h, s) == CacheHost(h', s') && CanonicalPath(p) == CanonicalPath(p') && q == q'
  {
    hide CacheKey, CacheHost, CanonicalPath, PathAndQuery;
    var front, back := s + "://" + CacheHost(h, s), PathAndQuery(CanonicalPath(p), q);
    var front', back' := s' + "://" + CacheHost(h', s'), PathAndQuery(CanonicalPath(p'), q');
    CacheKeyParts(s, h, p, q);
    CacheKeyParts(s', h', p', q');
    if CacheKey(s, h, p, q) == CacheKey(s', h', p', q') {
      CutAt(front, back, front', back', '\0');
      SiteInjective(s, CacheHost(h, s), s', CacheHost(h', s'));
      CanonicalAddsNoQuestionMark(p);
      CanonicalAddsNoQuestionMark(p');
      PathAndQueryInjective(CanonicalPath(p), q, CanonicalPath(p'), q');
    }
  }

  lemma CacheKeyParts(s: string, h: string, p: string, q: string)
    ensures CacheKey(s, h, p, q) ==
            (s + "://" + CacheHost(h, s)) + ['\0'] + PathAndQuery(CanonicalPath(p), q)
  {
    hide CacheHost, CanonicalPath;
    var front, path := s + "://" + CacheHost(h, s) + ['\0'], CanonicalPath(p);
    assert front + path + "?" + q == front + (path + "?" + q);
  }

  lemma KeyPathOf(front: string, back: string)
    requires '\0' !in front
    ensures KeyPath(front + ['\0'] + back) == back
  {
    IndexOfCut(front, back, '\0');
    assert (front + ['\0'] + back)[|front| + 1..] == back;
  }

  lemma KeyPathOfCacheKey(s: string, h: string, p: string, q: string)
    requires '\0' !in s
    ensures KeyPath(CacheKey(s, h, p, q)) == PathAndQuery(CanonicalPath(p), q)
  {
    var front := s + "://" + CacheHost(h, s);
    CacheKeyParts(s, h, p, q);
    KeyPathOf(front, PathAndQuery(CanonicalPath(p), q));
  }

  // ---- one spelling, one host --------------------------------------------------------

  /** The same text with its ASCII capitals in lower case. */
  predicate Lowered(s: string, low: string) {
    |low| == |s| && forall j :: 0 <= j < |s| ==>
      low[j] as int == if 65 <= s[j] as int <= 90 then s[j] as int + 32 else s[j] as int
  }

  predicate NoneRemoved(s: string) {
    forall j :: 0 <= j < |s| ==> s[j] != '\0' && s[j] != '/' && s[j] != '?' && s[j] != '#'
  }

  lemma {:induction false} LowerIs(s: string)
    ensures Lowered(s, Lower(s))
  {
    if s != [] {
      LowerIs(s[1..]);
      var low, rest := Lower(s), Lower(s[1..]);
      forall j | 0 < j < |s| ensures low[j] == rest[j - 1] && s[j] == s[1..][j - 1] {
      }
    }
  }

  lemma LoweredKeeps(s: string, low: string)
    requires Lowered(s, low)
    ensures NoneRemoved(s) ==> NoneRemoved(low)
    ensures ':' !in s ==> ':' !in low
  {
    forall j | 0 <= j < |low| && low[j] == ':' ensures ':' in s {
      assert s[j] == ':';
    }
  }

  lemma LoweredOnce(s: string, low: string, low': string)
    requires Lowered(s, low) && Lowered(s, low')
    ensures low == low'
  {
    forall j | 0 <= j < |s| ensures low[j] == low'[j] {
      assert low[j] as int == low'[j] as int;
    }
  }

  lemma {:induction false} LowerOf(a: string, b: string)
    ensures Lower(a + b) == Lower(a) + Lower(b)
  {
    if a == [] {
      assert a + b == b;
    } else {
      assert (a + b)[1..] == a[1..] + b;
      LowerOf(a[1..], b);
    }
  }

  lemma {:induction false} HostCharsKeeps(s: string)
    requires NoneRemoved(s)
    ensures HostChars(s) == s
  {
    if s != [] {
      HostCharsKeeps(s[1..]);
      assert [s[0]] + s[1..] == s;
    }
  }

  lemma HostCharsDrops(s: string)
    ensures NoneRemoved(HostChars(s))
  {
    forall j | 0 <= j < |HostChars(s)| ensures HostChar(HostChars(s)[j]) {
    }
  }

  function LastOf(s: string, c: char): (i: int) {
    if s == [] then -1 else if s[|s| - 1] == c then |s| - 1 else LastOf(s[..|s| - 1], c)
  }

  lemma {:induction false} LastOfCut(a: string, b: string, c: char)
    requires c !in b
    ensures LastOf(a + [c] + b, c) == |a|
  {
    var s := a + [c] + b;
    if b != [] {
      assert s[..|s| - 1] == a + [c] + b[..|b| - 1];
      assert s[|s| - 1] == b[|b| - 1];
      LastOfCut(a, b[..|b| - 1], c);
    }
  }

  lemma CutAtLast(a: string, b: string, a': string, b': string, c: char)
    requires c !in b && c !in b' && a + [c] + b == a' + [c] + b'
    ensures a == a' && b == b'
  {
    LastOfCut(a, b, c);
    LastOfCut(a', b', c);
    var s := a + [c] + b;
    assert s[..|a|] == a && s[|a| + 1..] == b;
    assert s[..|a'|] == a' && s[|a'| + 1..] == b';
  }

  lemma EndsAfterColon(a: string, port: string, other: string)
    requires ':' !in port && ':' !in other
    ensures HasSuffix(a + ":" + port, ":" + other) <==> port == other
    ensures port == other ==> TrimSuffix(a + ":" + port, ":" + other) == a
  {
    var s := a + ":" + port;
    var end := ":" + other;
    if port == other {
      assert s[|s| - |end|..] == end;
    }
    if HasSuffix(s, end) {
      var front := s[..|s| - |end|];
      assert s == front + [':'] + other && s == a + [':'] + port;
      CutAtLast(a, port, front, other, ':');
    }
  }

  lemma NoColonNoSuffix(s: string, other: string)
    ensures HasSuffix(s, ":" + other) ==> ':' in s
  {
    if HasSuffix(s, ":" + other) {
      var i := |s| - |":" + other|;
      assert s[i..][0] == ':';
      assert s[i] in s;
    }
  }

  /**
   One spelling per host: its name in lower case, with its port unless that is the scheme's own -
   443 of https, 80 of any other, and of no other scheme.
   */
  lemma OneSpellingPerHost(scheme: string, name: string, port: string, low: string)
    requires ':' !in name && NoneRemoved(name) && Lowered(name, low)
    requires NoneRemoved(port) && forall c :: c in port ==> '0' <= c <= '9'
    ensures CacheHost(name, scheme) == low
    ensures CacheHost(name + ":" + port, scheme) ==
            if (scheme == "https" && port == "443") || (scheme != "https" && port == "80") then low else low + ":" + port
    ensures forall host :: NoneRemoved(CacheHost(host, scheme))
  {
    LowerSite(name, port, low);
    var own := if scheme == "https" then "443" else "80";
    assert ":" + own == if scheme == "https" then ":443" else ":80";
    assert ':' !in own && ':' !in port;
    hide Lower, Lowered, HostChars, HasSuffix, TrimSuffix, NoneRemoved;
    NoColonNoSuffix(low, own);
    EndsAfterColon(low, port, own);
    WithoutSuffix(low, ":" + own);
    WithoutSuffix(low + ":" + port, ":" + own);
    HostCharsKeeps(low);
    PortKeeps(low, port);
    HostCharsKeeps(low + ":" + port);
    forall host ensures NoneRemoved(CacheHost(host, scheme)) {
      HostCharsDrops(TrimSuffix(Lower(host), ":" + own));
    }
  }

  lemma PortKeeps(low: string, port: string)
    requires NoneRemoved(low) && NoneRemoved(port)
    ensures NoneRemoved(low + ":" + port)
  {
  }

  lemma LowerSite(name: string, port: string, low: string)
    requires Lowered(name, low) && NoneRemoved(name) && ':' !in name && forall c :: c in port ==> '0' <= c <= '9'
    ensures Lower(name) == low && NoneRemoved(low) && ':' !in low
    ensures Lower(name + ":" + port) == low + ":" + port
  {
    LowerIs(name);
    LowerIs(port);
    LoweredOnce(name, low, Lower(name));
    LoweredKeeps(name, low);
    LowerOf(name + ":", port);
    LowerOf(name, ":");
    assert Lower(":") == ":";
    assert Lowered(port, port) by {
      forall j | 0 <= j < |port| ensures '0' <= port[j] <= '9' {
        assert port[j] in port;
      }
    }
    LoweredOnce(port, port, Lower(port));
  }

  lemma WithoutSuffix(s: string, suffix: string)
    ensures !HasSuffix(s, suffix) ==> TrimSuffix(s, suffix) == s
  {
  }

  // ---- Revalidate ----------------------------------------------------------------------

  function RevalidatePath(p: string): string {
    if HasSuffix(p, "/*") then
      var base := CanonicalPath(TrimSuffix(p, "/*"));
      if base == "/" then "/*" else base + "/*"
    else if HasSuffix(p, "*") then CanonicalPath(TrimSuffix(p, "*")) + "*"
    else CanonicalPath(p)
  }

  predicate MatchesPath(p: string, k: string) {
    if HasSuffix(p, "/*") then
      var base := if TrimSuffix(p, "/*") == "" then "/" else TrimSuffix(p, "/*");
      k == base || base + "?" <= k || TrimSuffix(p, "*") <= k
    else if HasSuffix(p, "*") then TrimSuffix(p, "*") <= k
    else k == p || p + "?" <= k
  }

  function DecodedOrItself(s: string): string {
    match Unescape(s)
    case Some(d) => d
    case None => s
  }

  predicate PathMatchesKey(path: string, key: string) {
    var k := KeyPath(key);
    MatchesPath(path, k) || MatchesPath(DecodedOrItself(path), DecodedOrItself(k))
  }

  /**
   Revalidating a page under any of its spellings names its copy, whatever the site and the
   query. The spelling must not be the star grammar of the call itself; one whose canonical
   form ends in a star is still found.
   */
  lemma RevalidateNamesEverySpelling(spelling: string, s: string, h: string, p: string, q: string)
    requires '\0' !in s
    requires !HasSuffix(spelling, "*") && CanonicalPath(spelling) == CanonicalPath(p)
    ensures PathMatchesKey(RevalidatePath(spelling), CacheKey(s, h, p, q))
  {
    hide CanonicalPath, DecodedOrItself, CacheKey, KeyPath;
    KeyPathOfCacheKey(s, h, p, q);
    var path := CanonicalPath(p);
    assert RevalidatePath(spelling) == path by {
      assert HasSuffix(spelling, "/*") ==> HasSuffix(spelling, "*");
    }
    hide RevalidatePath;
    AnyPathMatchesItself(path, q);
  }

  lemma AnyPathMatchesItself(path: string, q: string)
    ensures MatchesPath(path, PathAndQuery(path, q))
  {
    var k := PathAndQuery(path, q);
    assert path <= k;
    if HasSuffix(path, "*") {
      assert TrimSuffix(path, "*") <= path;
    } else if q != "" {
      assert path + "?" <= path + "?" + q;
    }
  }

  /** Under a trailing slash-star, everything at or below the base is named. */
  lemma RevalidateStarNamesTheSubtree(spelling: string, s: string, h: string, p: string, q: string)
    requires '\0' !in s && HasSuffix(spelling, "/*")
    requires var base := CanonicalPath(TrimSuffix(spelling, "/*"));
             CanonicalPath(p) == base || (base == "/" && Rooted(CanonicalPath(p))) || base + "/" <= CanonicalPath(p)
    ensures PathMatchesKey(RevalidatePath(spelling), CacheKey(s, h, p, q))
  {
    KeyPathOfCacheKey(s, h, p, q);
    var base, page := CanonicalPath(TrimSuffix(spelling, "/*")), CanonicalPath(p);
    CleanIsIdempotent(Normalize(TrimSuffix(spelling, "/*")));
    assert base != "";
    hide CanonicalPath, DecodedOrItself, CacheKey, KeyPath;
    SubtreeMatches(base, page, q);
  }

  lemma RootStarMatches(k: string)
    requires Rooted(k)
    ensures MatchesPath("/*", k)
  {
    var p := "/*";
    assert p[|p| - 2..] == "/*" && p[|p| - 1..] == "*";
    assert p[..|p| - 1] == "/";
    assert k == "/" + k[1..];
  }

  lemma SubtreeMatches(base: string, page: string, q: string)
    requires base != "" && (page == base || (base == "/" && Rooted(page)) || base + "/" <= page)
    ensures MatchesPath(if base == "/" then "/*" else base + "/*", PathAndQuery(page, q))
  {
    if base == "/" {
      assert page[0] == '/';
      RootStarMatches(PathAndQuery(page, q));
    } else {
      StarParts(base);
      if page == base {
        assert base + "?" <= base + "?" + q;
      } else {
        assert base + "/" <= page + ("?" + q) && page + ("?" + q) == page + "?" + q;
      }
    }
  }

  lemma StarParts(base: string)
    ensures var path := base + "/*";
            path[|path| - 2..] == "/*" && path[|path| - 1..] == "*" && path[..|path| - 2] == base && path[..|path| - 1] == base + "/"
  {
  }
}
