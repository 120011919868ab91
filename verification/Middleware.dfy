/** The app's middleware in front of the router (middleware.go): no path below its base escapes it. */
module Middleware {
  import opened Wrappers
  import opened Paths
  import opened Canonical

  function TrimSuffix(s: string, suffix: string): (r: string)
    ensures r <= s
  {
    if HasSuffix(s, suffix) then s[..|s| - |suffix|] else s
  }

  predicate HasSuffix(s: string, suffix: string) {
    |s| >= |suffix| && s[|s| - |suffix|..] == suffix
  }

  // ---- registration --------------------------------------------------------------

  datatype Refusal =
    | Accepted
    | Empty
    | NotAbsolute
    | InnerWildcard
    | QueryOrFragment
    | Encoded
    | TrailingSlash(offered: string)
    | NotClean

  predicate HoldsEscape(m: string) {
    exists i :: 0 <= i <= |m| && OpensWithEscape(m[i..])
  }

  /** The entry without its wildcard, and without the slash in front of it. */
  function Stem(m: string): string {
    TrimSuffix(TrimSuffix(m, "*"), "/")
  }

  function MatcherRefusal(m: string): Refusal {
    if m == "" then Empty
    else if m[0] != '/' then NotAbsolute
    else if '*' in TrimSuffix(m, "*") then InnerWildcard
    else if '?' in m || '#' in m then QueryOrFragment
    else if HoldsEscape(m) then Encoded
    else if m != "/" && !HasSuffix(m, "*") && HasSuffix(m, "/") then TrailingSlash(Clean(m))
    else if Clean(Stem(m)) != Stem(m) && Stem(m) != "" then NotClean
    else Accepted
  }

  // ---- matching ------------------------------------------------------------------

  predicate Matches(m: string, cleaned: string) {
    if HasSuffix(m, "/*") then
      var base := TrimSuffix(m, "/*");
      base == "" || cleaned == base || base + "/" <= cleaned
    else if HasSuffix(m, "*") then TrimSuffix(m, "*") <= cleaned
    else cleaned == m
  }

  predicate Covers(matcher: seq<string>, cleaned: string) {
    matcher == [] || exists m :: m in matcher && Matches(m, cleaned)
  }

  /** No accepted entry guards nothing: each one covers some cleaned absolute path. */
  lemma AcceptedEntriesMatch(m: string) returns (path: string)
    requires MatcherRefusal(m) == Accepted
    ensures Clean(path) == path && Rooted(path) && Matches(m, path)
  {
    hide Clean, HoldsEscape;
    CleanRoot();
    if HasSuffix(m, "*") {
      path := StarEntryMatches(m);
    } else {
      path := m;
    }
  }

  lemma StarEntryMatches(m: string) returns (path: string)
    requires HasSuffix(m, "*") && Rooted(m)
    requires Stem(m) != "" ==> Clean(Stem(m)) == Stem(m)
    requires Clean("/") == "/"
    ensures Clean(path) == path && Rooted(path) && Matches(m, path)
  {
    hide Clean;
    var prefix := TrimSuffix(m, "*");
    assert m == prefix + "*" && prefix != [] && prefix[0] == '/';
    path := Stem(m);
    if HasSuffix(prefix, "/") {
      assert HasSuffix(m, "/*") && TrimSuffix(m, "/*") == path;
      if path == "" {
        path := "/";
      }
    } else {
      assert path == prefix;
      assert m[|m| - 2..] == [prefix[|prefix| - 1], '*'];
    }
  }

  // ---- the guard covers the router -----------------------------------------------

  function DecodedParts(parts: seq<string>): (r: seq<string>)
    requires forall j :: 0 <= j < |parts| ==> WellEscaped(parts[j])
    ensures |r| == |parts| && forall j :: 0 <= j < |parts| ==> r[j] == Unescape(parts[j]).value
  {
    seq(|parts|, j requires 0 <= j < |parts| && WellEscaped(parts[j]) => Unescape(parts[j]).value)
  }

  /** A whole path is unescaped part by part. */
  lemma {:induction false} UnescapeJoin(parts: seq<string>)
    requires |parts| > 0 && forall j :: 0 <= j < |parts| ==> WellEscaped(parts[j])
    ensures Unescape(Join(parts, '/')) == Some(Join(DecodedParts(parts), '/'))
  {
    if |parts| > 1 {
      UnescapeJoin(parts[1..]);
      UnescapeAt(parts[0], Join(parts[1..], '/'));
      assert DecodedParts(parts)[1..] == DecodedParts(parts[1..]);
    }
  }

  function AllParts(texts: seq<string>): (parts: seq<string>)
    ensures forall j :: 0 <= j < |parts| ==> '/' !in parts[j]
  {
    if texts == [] then [] else Split(texts[0], '/') + AllParts(texts[1..])
  }

  lemma {:induction false} SplitOfJoined(texts: seq<string>)
    requires |texts| > 0
    ensures Split(Join(texts, '/'), '/') == AllParts(texts)
  {
    if |texts| > 1 {
      SplitAt(texts[0], Join(texts[1..], '/'), '/');
      SplitOfJoined(texts[1..]);
    } else {
      assert AllParts(texts[1..]) == [];
    }
  }

  predicate NoStepUp(parts: seq<string>) {
    forall j :: 0 <= j < |parts| ==> parts[j] != ".."
  }

  function Named(parts: seq<string>): seq<string> {
    if parts == [] then []
    else (if parts[0] == "" || parts[0] == "." then [] else [parts[0]]) + Named(parts[1..])
  }

  /** With nothing stepping up, cleaning only drops the parts that name nothing. */
  lemma {:induction false} ResolveKeepsNames(parts: seq<string>, stack: seq<string>)
    requires NoStepUp(parts)
    ensures Resolve(parts, true, stack) == stack + Named(parts)
  {
    if parts != [] {
      var next := Push(stack, parts[0], true);
      var own := if parts[0] == "" || parts[0] == "." then [] else [parts[0]];
      assert next == stack + own;
      hide Push;
      ResolveKeepsNames(parts[1..], next);
      assert (stack + own) + Named(parts[1..]) == stack + (own + Named(parts[1..]));
    } else {
      assert stack + [] == stack;
    }
  }

  lemma {:induction false} NamedAppend(a: seq<string>, b: seq<string>)
    ensures Named(a + b) == Named(a) + Named(b)
  {
    if a == [] {
      assert a + b == b;
    } else {
      assert (a + b)[1..] == a[1..] + b;
      NamedAppend(a[1..], b);
    }
  }

  lemma {:induction false} AllPartsAppend(a: seq<string>, b: seq<string>)
    ensures AllParts(a + b) == AllParts(a) + AllParts(b)
  {
    if a == [] {
      assert a + b == b;
    } else {
      assert (a + b)[1..] == a[1..] + b;
      AllPartsAppend(a[1..], b);
    }
  }

  /** Names are their own parts, and all of them are kept. */
  lemma {:induction false} NamesAreKept(names: seq<string>)
    requires Settled(names, true)
    ensures AllParts(names) == names && Named(names) == names
  {
    if names != [] {
      SplitWhole(names[0], '/');
      NamesAreKept(names[1..]);
      assert [names[0]] + names[1..] == names;
    }
  }

  lemma DecodedNeverStepsUp(segment: string)
    requires segment != ".." && '/' !in segment && !StepsUp(segment)
    ensures WellEscaped(segment)
    ensures NoStepUp(Split(Unescape(segment).value, '/'))
  {
    if '%' !in segment {
      PlainTextUnescapes(segment);
      SplitWhole(segment, '/');
    } else {
      hide Unescape, WellEscaped, Split;
    }
  }

  lemma {:induction false} PlainTextUnescapes(s: string)
    requires '%' !in s
    ensures Unescape(s) == Some(s)
  {
    if s != [] {
      PlainTextUnescapes(s[1..]);
      assert [s[0]] + s[1..] == s;
    }
  }

  lemma {:induction false} AllPartsStepNowhere(texts: seq<string>)
    requires forall j :: 0 <= j < |texts| ==> NoStepUp(Split(texts[j], '/'))
    ensures NoStepUp(AllParts(texts))
  {
    if texts != [] {
      AllPartsStepNowhere(texts[1..]);
    }
  }

  /** The names an entry's base is made of. */
  lemma BaseNames(entry: string) returns (names: seq<string>)
    requires MatcherRefusal(entry) == Accepted && HasSuffix(entry, "/*")
    requires TrimSuffix(entry, "/*") != "" && TrimSuffix(entry, "/*") != "/"
    ensures names != [] && Settled(names, true)
    ensures TrimSuffix(entry, "/*") == ['/'] + Join(names, '/')
    ensures Split(TrimSuffix(entry, "/*"), '/') == [""] + names
  {
    var base := TrimSuffix(entry, "/*");
    assert Stem(entry) == base by {
      assert TrimSuffix(entry, "*") == base + "/";
    }
    assert Clean(base) == base && Rooted(base);
    ResolveSettles(Split(base, '/'), true, []);
    names := Kept(base);
    SplitOfJoin(names, '/');
    assert base[1..] == Join(names, '/');
  }

  /** What is before the first slash is one empty part. */
  lemma RootPart(texts: seq<string>)
    ensures AllParts([""] + texts) == [""] + AllParts(texts)
  {
    assert ([""] + texts)[1..] == texts;
    assert Split("", '/') == [""];
  }

  /** What the guard sees of a path below the base: the base's names, then more names. */
  lemma CleanedBelowBase(names: seq<string>, rest: seq<string>)
    requires names != [] && Settled(names, true)
    requires NoStepUp(AllParts(rest))
    ensures var decoded := Join([""] + (names + rest), '/');
            var base := ['/'] + Join(names, '/');
            Clean(decoded) == base || base + "/" <= Clean(decoded)
  {
    hide AllParts, Split;
    var texts := [""] + (names + rest);
    var decoded := Join(texts, '/');
    assert texts[1..] == names + rest;
    assert Rooted(decoded);
    SplitOfJoined(texts);
    NamesAreKept(names);
    AllPartsAppend(names, rest);
    RootPart(names + rest);
    ResolveKeepsNames(AllParts(texts), []);
    NamedAppend(names, AllParts(rest));
    assert ([""] + (names + AllParts(rest)))[1..] == names + AllParts(rest);
    var more := Named(AllParts(rest));
    assert Kept(decoded) == names + more;
    if more == [] {
      assert names + more == names;
    } else {
      JoinAppend(names, more, '/');
    }
  }

  /** Every segment of such a request decodes, and to nothing that steps up. */
  lemma SegmentsDecode(escaped: string)
    requires Rooted(escaped) && !SomeStepsUp(escaped) && NoStepUp(Split(escaped, '/'))
    ensures var segments := Split(escaped, '/');
            && segments[0] == ""
            && (forall j :: 0 <= j < |segments| ==> WellEscaped(segments[j]))
            && Unescape(escaped) == Some(Join(DecodedParts(segments), '/'))
            && (forall j :: 0 <= j < |segments| ==> NoStepUp(Split(DecodedParts(segments)[j], '/')))
  {
    var segments := Split(escaped, '/');
    assert segments[0] == "";
    hide Split, Unescape, WellEscaped, StepsUp;
    forall j | 0 <= j < |segments|
      ensures WellEscaped(segments[j]) && NoStepUp(Split(Unescape(segments[j]).value, '/'))
    {
      DecodedNeverStepsUp(segments[j]);
    }
    JoinOfSplit(escaped, '/');
    UnescapeJoin(segments);
  }

  lemma BeginsWithNames(segments: seq<string>, names: seq<string>)
    requires |names| < |segments| && segments[0] == ""
    requires forall j :: 0 <= j < |segments| ==> WellEscaped(segments[j])
    requires forall j :: 0 < j < |names| + 1 ==> Unescape(segments[j]) == Some(names[j - 1])
    ensures DecodedParts(segments) == [""] + (names + DecodedParts(segments)[|names| + 1..])
  {
    var texts := DecodedParts(segments);
    assert texts[0] == "";
    hide Unescape, WellEscaped;
    forall j | 0 <= j < |names| ensures texts[j + 1] == names[j] {
      assert Unescape(segments[j + 1]) == Some(names[j + 1 - 1]);
    }
  }

  /**
   A request the router sends below `base`: its leading segments decode to those of the base. No
   segment steps up, as it is written or escaped; empty and "." segments may stand anywhere after.
   */
  predicate RoutedBelow(escaped: string, base: string) {
    && Rooted(escaped) && !SomeStepsUp(escaped) && NoStepUp(Split(escaped, '/'))
    && LeadsWith(Split(escaped, '/'), Split(TrimSuffix(base, "/"), '/'))
  }

  predicate LeadsWith(segments: seq<string>, names: seq<string>) {
    && |names| <= |segments|
    && forall j :: 0 < j < |names| ==> Unescape(segments[j]) == Some(names[j])
  }

  /**
   The router matches the escaped path segment by segment and the guard the decoded, cleaned one.
   Whatever the router sends below an accepted entry's base, the guard covers.
   */
  lemma GuardCoversTheRouter(matcher: seq<string>, entry: string, escaped: string)
    requires entry in matcher && MatcherRefusal(entry) == Accepted && HasSuffix(entry, "/*")
    requires TrimSuffix(entry, "/*") != "/"
    requires RoutedBelow(escaped, TrimSuffix(entry, "/*"))
    ensures Unescape(escaped).Some? && Covers(matcher, Clean(Unescape(escaped).value))
  {
    hide MatcherRefusal, Split, Unescape, WellEscaped, Clean, Settled, AllParts, NoStepUp, SomeStepsUp, LeadsWith;
    SegmentsDecode(escaped);
    if TrimSuffix(entry, "/*") != "" {
      var names := BaseNames(entry);
      CoveredBelow(entry, names, escaped);
    }
    assert Matches(entry, Clean(Unescape(escaped).value)) by {
      hide Join;
    }
  }

  lemma CoveredBelow(entry: string, names: seq<string>, escaped: string)
    requires names != [] && Settled(names, true) && HasSuffix(entry, "/*")
    requires TrimSuffix(entry, "/*") == ['/'] + Join(names, '/') && Split(TrimSuffix(entry, "/*"), '/') == [""] + names
    requires RoutedBelow(escaped, TrimSuffix(entry, "/*"))
    ensures Unescape(escaped).Some? && Matches(entry, Clean(Unescape(escaped).value))
  {
    hide Split, Unescape, WellEscaped, Clean, Settled, AllParts, NoStepUp, SomeStepsUp;
    NoSlashAtTheEnd(names);
    SegmentsDecode(escaped);
    UnescapeNothing();
    var texts := DecodedParts(Split(escaped, '/'));
    var rest := texts[|names| + 1..];
    BeginsWithNames(Split(escaped, '/'), names);
    AllPartsStepNowhere(rest);
    CleanedBelowBase(names, rest);
  }

  lemma {:induction false} NoSlashAtTheEnd(names: seq<string>)
    requires names != [] && Settled(names, true)
    ensures TrimSuffix(['/'] + Join(names, '/'), "/") == ['/'] + Join(names, '/')
  {
    var base := ['/'] + Join(names, '/');
    if |names| > 1 {
      NoSlashAtTheEnd(names[1..]);
    }
    assert base[|base| - 1] != '/';
  }

  /** The one accepted entry that guards nothing below its base is the one written with two slashes. */
  lemma DoubleSlashGuardsTheRootAlone(path: string)
    requires Rooted(path)
    ensures MatcherRefusal("//*") == Accepted && TrimSuffix("//*", "/*") == "/"
    ensures Matches("//*", Clean(path)) <==> Clean(path) == "/"
  {
    DoubleSlashIsAccepted();
    ResolveSettles(Split(path, '/'), true, []);
    var names := Kept(path);
    if names != [] {
      JoinIsNotEmpty(names, true);
      assert Clean(path)[1] == names[0][0];
    }
  }

  lemma DoubleSlashIsAccepted()
    ensures MatcherRefusal("//*") == Accepted && TrimSuffix("//*", "/*") == "/"
  {
    hide Clean, HoldsEscape;
    CleanRoot();
    NoEscapeWithin("//*");
    assert TrimSuffix("//*", "*") == "//" && TrimSuffix("//", "/") == "/";
  }

  lemma NoEscapeWithin(s: string)
    requires '%' !in s
    ensures !HoldsEscape(s)
  {
  }

  lemma CleanRoot()
    ensures Clean("/") == "/"
  {
    hide Clean;
    CleanOfSettled([], true);
    assert ['/'] + [] == "/";
  }

  /** What it means to guard a subtree: every request the router sends below the base is covered. */
  ghost predicate GuardsItsSubtree(entry: string) {
    forall escaped :: RoutedBelow(escaped, TrimSuffix(entry, "/*")) ==>
      Unescape(escaped).Some? && Matches(entry, Clean(Unescape(escaped).value))
  }

  /** An accepted entry guards its subtree exactly when its base is not "/". */
  lemma WhichEntriesGuardTheirSubtree(entry: string)
    requires MatcherRefusal(entry) == Accepted && HasSuffix(entry, "/*")
    ensures GuardsItsSubtree(entry) <==> TrimSuffix(entry, "/*") != "/"
  {
    hide MatcherRefusal, RoutedBelow, Clean, Unescape, HoldsEscape, Matches;
    if TrimSuffix(entry, "/*") == "/" {
      OutsideTheDoubleSlash(entry);
    } else {
      forall escaped | RoutedBelow(escaped, TrimSuffix(entry, "/*"))
        ensures Unescape(escaped).Some? && Matches(entry, Clean(Unescape(escaped).value))
      {
        GuardCoversTheRouter([entry], entry, escaped);
      }
    }
  }

  lemma OutsideTheDoubleSlash(entry: string)
    requires HasSuffix(entry, "/*") && TrimSuffix(entry, "/*") == "/"
    ensures RoutedBelow("/a", "/") && Unescape("/a") == Some("/a") && !Matches(entry, Clean("/a"))
  {
    hide Split, Clean, Unescape, WellEscaped, StepsUp;
    assert entry == "//*";
    PlainTextUnescapes("/a");
    PartsOfA();
    NothingStepsUpIn(["", "a"]);
    SplitWhole("", '/');
    assert TrimSuffix("/", "/") == "";
    assert "/a"[1] != ("/" + "/")[1];
  }

  lemma PartsOfA()
    ensures Split("/a", '/') == ["", "a"] && Clean("/a") == "/a"
  {
    hide Clean, Split;
    SplitAt("", "a", '/');
    SplitWhole("a", '/');
    SplitWhole("", '/');
    assert "" + ['/'] + "a" == "/a";
    CleanOfSettled(["a"], true);
    assert ['/'] + Join(["a"], '/') == "/a";
  }

  lemma NothingStepsUpIn(segments: seq<string>)
    requires forall j :: 0 <= j < |segments| ==> '%' !in segments[j]
    ensures forall j :: 0 <= j < |segments| ==> !StepsUp(segments[j])
  {
  }
}
