/** Directives by their spelling (cache.go): whose name a text spells, and what the guard leaves of all the others. */
module CacheReading {
  import opened CacheGuard
  import opened Directives
  import opened Wrappers

  // ---- a directive's name, as it is spelled ----------------------------------------------

  /** White space, as unicode.IsSpace counts it. */
  predicate WhiteSpace(c: char) {
    c as int in
    {0x09, 0x0A, 0x0B, 0x0C, 0x0D, 0x20, 0x85, 0xA0, 0x1680, 0x2000, 0x2001, 0x2002, 0x2003, 0x2004, 0x2005, 0x2006,
     0x2007, 0x2008, 0x2009, 0x200A, 0x2028, 0x2029, 0x202F, 0x205F, 0x3000}
  }

  predicate White(s: string) {
    forall j :: 0 <= j < |s| ==> WhiteSpace(s[j])
  }

  /** A letter in either case, or the one other character that folds to it. */
  predicate CaseOf(c: char, letter: char) {
    || c == letter
    || ('a' <= letter <= 'z' && c as int == letter as int - 32)
    || (letter == 's' && c as int == 0x17F) || (letter == 'k' && c as int == 0x212A)
  }

  predicate AnyCase(s: string, word: string) {
    |s| == |word| && forall j :: 0 <= j < |s| ==> CaseOf(s[j], word[j])
  }

  /** The word in any case, white space around it, and then nothing or an argument. */
  ghost predicate SpellsName(f: string, word: string) {
    exists a, w, b, rest :: f == a + w + b + rest && White(a) && AnyCase(w, word) && White(b) && (rest == "" || rest[0] == '=')
  }

  /** A name of small letters and hyphens. */
  predicate Word(word: string) {
    word != "" && forall j :: 0 <= j < |word| ==> 'a' <= word[j] <= 'z' || word[j] == '-'
  }

  lemma WhiteIs(c: char)
    ensures White([c]) <==> IsSpace(c)
  {
    if White([c]) {
      assert [c][0] == c;
    }
  }

  lemma FoldIs(c: char, letter: char)
    requires 'a' <= letter <= 'z' || letter == '-'
    ensures Fold(c) == letter <==> CaseOf(c, letter)
    ensures CaseOf(c, letter) ==> !IsSpace(c) && c != '='
  {
  }

  lemma AnyCaseIs(s: string, word: string)
    requires Word(word)
    ensures EqualFold(s, word) <==> AnyCase(s, word)
    ensures AnyCase(s, word) ==> s != "" && !IsSpace(s[0]) && !IsSpace(s[|s| - 1]) && '=' !in s
  {
    hide Fold, CaseOf, IsSpace;
    forall j | 0 <= j < |s| && |s| == |word|
      ensures Fold(s[j]) == word[j] <==> CaseOf(s[j], word[j])
      ensures CaseOf(s[j], word[j]) ==> !IsSpace(s[j]) && s[j] != '='
    {
      FoldIs(s[j], word[j]);
    }
  }

  lemma {:induction false} TrimLeftOf(a: string, s: string)
    requires White(a) && (s == "" || !IsSpace(s[0]))
    ensures TrimLeft(a + s) == s
  {
    hide IsSpace;
    if a == "" {
      assert a + s == s;
    } else {
      WhiteIs(a[0]);
      assert (a + s)[1..] == a[1..] + s;
      TrimLeftOf(a[1..], s);
    }
  }

  lemma {:induction false} TrimRightOf(s: string, b: string)
    requires White(b) && (s == "" || !IsSpace(s[|s| - 1]))
    ensures TrimRight(s + b) == s
  {
    hide IsSpace;
    if b == "" {
      assert s + b == s;
    } else {
      WhiteIs(b[|b| - 1]);
      assert (s + b)[..|s + b| - 1] == s + b[..|b| - 1];
      TrimRightOf(s, b[..|b| - 1]);
    }
  }

  lemma {:induction false} TrimmedLeft(s: string) returns (a: string)
    ensures White(a) && s == a + TrimLeft(s)
  {
    hide IsSpace;
    a := "";
    if s != "" && IsSpace(s[0]) {
      var rest := TrimmedLeft(s[1..]);
      WhiteIs(s[0]);
      a := [s[0]] + rest;
    }
  }

  lemma {:induction false} TrimmedRight(s: string) returns (b: string)
    ensures White(b) && s == TrimRight(s) + b
  {
    hide IsSpace;
    b := "";
    if s != "" && IsSpace(s[|s| - 1]) {
      var rest := TrimmedRight(s[..|s| - 1]);
      WhiteIs(s[|s| - 1]);
      b := rest + [s[|s| - 1]];
      assert s == s[..|s| - 1] + [s[|s| - 1]];
    }
  }

  lemma {:induction false} BeforeOf(a: string, rest: string)
    requires '=' !in a && (rest == "" || rest[0] == '=')
    ensures BeforeEquals(a + rest) == a
  {
    if a == "" {
      assert a + rest == rest;
    } else {
      assert (a + rest)[1..] == a[1..] + rest;
      BeforeOf(a[1..], rest);
    }
  }

  lemma {:induction false} BeforeIs(f: string) returns (rest: string)
    ensures f == BeforeEquals(f) + rest && (rest == "" || rest[0] == '=')
  {
    if f == "" || f[0] == '=' {
      rest := f;
    } else {
      rest := BeforeIs(f[1..]);
    }
  }

  lemma WhiteHasNoEquals(a: string)
    requires White(a)
    ensures '=' !in a
  {
  }

  lemma SpelledFromName(f: string, word: string)
    requires Word(word) && AnyCase(Name(f), word)
    ensures SpellsName(f, word)
  {
    hide IsSpace, AnyCase, White, Word, BeforeEquals, TrimLeft, TrimRight;
    var rest := BeforeIs(f);
    var a := TrimmedLeft(BeforeEquals(f));
    var b := TrimmedRight(TrimLeft(BeforeEquals(f)));
    assert f == a + Name(f) + b + rest;
  }

  lemma NameFromSpelled(f: string, word: string, a: string, w: string, b: string, rest: string)
    requires Word(word) && f == a + w + b + rest && White(a) && AnyCase(w, word) && White(b) && (rest == "" || rest[0] == '=')
    ensures Name(f) == w
  {
    AnyCaseIs(w, word);
    WhiteHasNoEquals(a);
    WhiteHasNoEquals(b);
    hide IsSpace, AnyCase, White, Word, BeforeEquals, TrimLeft, TrimRight, EqualFold;
    assert f == (a + w + b) + rest;
    BeforeOf(a + w + b, rest);
    assert a + w + b == a + (w + b);
    TrimLeftOf(a, w + b);
    TrimRightOf(w, b);
  }

  /** Reading off the name is finding it spelled. */
  lemma NameIsSpelled(f: string, word: string)
    requires Word(word)
    ensures EqualFold(Name(f), word) <==> SpellsName(f, word)
  {
    hide EqualFold, AnyCase, White, Word, Name;
    AnyCaseIs(Name(f), word);
    if AnyCase(Name(f), word) {
      hide SpellsName;
      SpelledFromName(f, word);
    }
    forall a, w, b, rest | f == a + w + b + rest && White(a) && AnyCase(w, word) && White(b) && (rest == "" || rest[0] == '=')
      ensures AnyCase(Name(f), word)
    {
      NameFromSpelled(f, word, a, w, b, rest);
    }
  }

  // ---- what a cache reads ------------------------------------------------------------------------

  /** It lets a shared cache store the response. */
  ghost predicate LetsItBeShared(f: string) {
    SpellsName(f, "public") || SpellsName(f, "s-maxage")
  }

  /** It forbids that, of the whole response: `private` with no argument. */
  ghost predicate ForbidsIt(f: string) {
    SpellsName(f, "private") && '=' !in f
  }

  /** It says nothing. */
  predicate Empty(f: string) {
    White(f)
  }

  lemma ReadAs(f: string)
    ensures IsPublic(f) <==> SpellsName(f, "public")
    ensures IsShared(f) <==> SpellsName(f, "s-maxage")
    ensures IsPrivate(f) <==> ForbidsIt(f)
    ensures TrimSpace(f) == "" <==> Empty(f)
  {
    hide Name, EqualFold, SpellsName;
    NameIsSpelled(f, "public");
    NameIsSpelled(f, "s-maxage");
    NameIsSpelled(f, "private");
    EmptyIs(f);
  }

  lemma EmptyIs(f: string)
    ensures TrimSpace(f) == "" <==> Empty(f)
  {
    hide IsSpace, White;
    if White(f) {
      assert f + "" == f && "" + "" == "";
      TrimLeftOf(f, "");
    }
    if TrimSpace(f) == "" {
      var a := TrimmedLeft(f);
      var b := TrimmedRight(TrimLeft(f));
      assert f == a + b;
      WhiteBoth(a, b);
    }
  }

  lemma WhiteBoth(a: string, b: string)
    requires White(a) && White(b)
    ensures White(a + b)
  {
  }

  /** The directives the guard has nothing to do with, without the white space around them. */
  ghost function Others(fields: seq<string>): seq<string> {
    if fields == [] then []
    else
      (if LetsItBeShared(fields[0]) || ForbidsIt(fields[0]) || Empty(fields[0]) then [] else [TrimSpace(fields[0])])
      + Others(fields[1..])
  }

  lemma {:induction false} OthersAppend(a: seq<string>, b: seq<string>)
    ensures Others(a + b) == Others(a) + Others(b)
  {
    hide LetsItBeShared, ForbidsIt, Empty, TrimSpace;
    if a == [] {
      assert a + b == b;
    } else {
      assert (a + b)[1..] == a[1..] + b;
      OthersAppend(a[1..], b);
    }
  }

  lemma OthersOne(f: string)
    ensures Others([f]) == if LetsItBeShared(f) || ForbidsIt(f) || Empty(f) then [] else [TrimSpace(f)]
  {
    assert [f][1..] == [];
  }

  lemma KeptOneKeepsOthers(f: string)
    ensures Others(Kept(f)) == Others([f])
  {
    hide LetsItBeShared, ForbidsIt, Empty, TrimSpace, Name, EqualFold, Bare, LeadingSpace, SpellsName;
    ReadAs(f);
    PrivateName();
    LeadingName(f);
    OthersOne(f);
    OthersOne(LeadingSpace(f) + "private");
    ReadAs(LeadingSpace(f) + "private");
    assert Others([]) == [];
    SharedIs(f);
  }

  lemma SharedIs(f: string)
    ensures LetsItBeShared(f) <==> SpellsName(f, "public") || SpellsName(f, "s-maxage")
  {
  }

  lemma {:induction false} KeptKeepsOthers(fields: seq<string>)
    ensures Others(KeptAll(fields)) == Others(fields)
  {
    hide Kept, LetsItBeShared, ForbidsIt, Empty, TrimSpace;
    if fields != [] {
      KeptKeepsOthers(fields[1..]);
      KeptOneKeepsOthers(fields[0]);
      OthersAppend(Kept(fields[0]), KeptAll(fields[1..]));
      OthersAppend([fields[0]], fields[1..]);
      assert fields == [fields[0]] + fields[1..];
    }
  }

  lemma SpacedOneSame(f: string)
    ensures TrimSpace(SpacedOne(f)) == TrimSpace(f)
  {
    if LeadingSpace(f) == "" {
      assert (" " + f)[1..] == f;
    }
  }

  lemma SpacedOneKeepsOthers(f: string)
    ensures Others([SpacedOne(f)]) == Others([f])
  {
    hide LetsItBeShared, ForbidsIt, Empty, TrimSpace, Name, EqualFold, Bare, SpacedOne, SpellsName;
    ReadAs(f);
    ReadAs(SpacedOne(f));
    SpacedName(f);
    SpacedOneSame(f);
    OthersOne(f);
    OthersOne(SpacedOne(f));
    SharedIs(f);
    SharedIs(SpacedOne(f));
  }

  lemma {:induction false} SpacedAllKeepsOthers(fields: seq<string>)
    ensures Others(SpacedAll(fields)) == Others(fields)
  {
    hide SpacedOne, LetsItBeShared, ForbidsIt, Empty, TrimSpace;
    if fields != [] {
      SpacedAllKeepsOthers(fields[1..]);
      SpacedOneKeepsOthers(fields[0]);
      assert SpacedAll(fields) == [SpacedOne(fields[0])] + SpacedAll(fields[1..]);
      OthersAppend([SpacedOne(fields[0])], SpacedAll(fields[1..]));
      OthersAppend([fields[0]], fields[1..]);
      assert fields == [fields[0]] + fields[1..];
    }
  }

  lemma SpacedKeepsOthers(fields: seq<string>)
    ensures Others(Spaced(fields)) == Others(fields)
  {
    hide SpacedOne, Others;
    if fields == [] {
      assert Spaced(fields) == [];
    } else {
      assert Spaced(fields) == [fields[0]] + SpacedAll(fields[1..]);
      OthersAppend([fields[0]], SpacedAll(fields[1..]));
      SpacedAllKeepsOthers(fields[1..]);
      OthersAppend([fields[0]], fields[1..]);
      assert fields == [fields[0]] + fields[1..];
    }
  }

  lemma PrivateKeepsOthers(fields: seq<string>)
    ensures Others(Private(fields)) == Others(fields)
  {
    hide Others, KeptAll, LetsItBeShared, ForbidsIt, Empty, TrimSpace, Name;
    KeptKeepsOthers(fields);
    PrivateName();
    ReadAs("private");
    OthersOne("private");
    OthersAppend(["private"], KeptAll(fields));
    assert [] + Others(KeptAll(fields)) == Others(KeptAll(fields));
  }

  /**
   The guard, by spelling: afterwards a cache reads a `private` without an argument before any
   unterminated quote, and no `public` or `s-maxage` in any case; and every other directive stands as
   it stood, in its order, white space apart.
   */
  lemma GuardLeavesTheOthers(lines: seq<string>, stop: nat, out: Option<string>, stop': nat)
    requires IsStop(Joined(lines), stop) && Decides(lines, stop, out) && IsStop(CacheGuard.After(lines, out), stop')
    ensures var fields, fields' := DirectivesOf(Joined(lines), stop), DirectivesOf(CacheGuard.After(lines, out), stop');
            && (exists j :: 0 <= j < |fields'| && ForbidsIt(fields'[j]) && Offset(fields', j) + |fields'[j]| <= stop')
            && (forall j :: 0 <= j < |fields'| ==> !LetsItBeShared(fields'[j]))
            && Others(fields') == Others(fields)
  {
    hide IsStop, Laid, Private, Spaced, Changes, ClaimsReadably, Crosses, IsPrivate, IsPublic, IsShared, Joined, Others;
    hide LetsItBeShared, ForbidsIt, Cut;
    CookiesArePrivate(lines, stop, out, stop');
    var fields, fields' := DirectivesOf(Joined(lines), stop), DirectivesOf(CacheGuard.After(lines, out), stop');
    DirectivesAreLaid(Joined(lines), stop);
    forall j | 0 <= j < |fields'| ensures !LetsItBeShared(fields'[j]) && (IsPrivate(fields'[j]) <==> ForbidsIt(fields'[j])) {
      assert !Open(fields'[j]);
      ReadAs(fields'[j]);
      SharedIs(fields'[j]);
    }
    if out.Some? {
      RewrittenIsRead(fields, stop');
      SpacedKeepsOthers(Private(fields));
      PrivateKeepsOthers(fields);
    } else {
      OneStop(Joined(lines), stop, stop');
    }
  }

  // ---- a quoted argument across two lines --------------------------------------------------

  lemma {:induction false} SeamAt(lines: seq<string>, i: nat)
    requires 0 < i < |lines|
    ensures var k := |Joined(lines[..i])|;
            k in Seams(lines) && k < |Joined(lines)| && Joined(lines)[..k] == Joined(lines[..i]) && Joined(lines)[k] == ','
  {
    if i == 1 {
      assert lines[..1] == [lines[0]];
    } else {
      var rest := lines[1..];
      SeamAt(rest, i - 1);
      assert lines[..i][1..] == rest[..i - 1];
      assert Joined(lines) == lines[0] + [','] + Joined(rest);
    }
  }

  lemma {:induction false} SeamIs(lines: seq<string>, k: nat) returns (i: nat)
    requires k in Seams(lines)
    ensures 0 < i < |lines| && k == |Joined(lines[..i])|
  {
    if k == |lines[0]| {
      assert lines[..1] == [lines[0]];
      i := 1;
    } else {
      var j := SeamIs(lines[1..], k - |lines[0]| - 1);
      i := j + 1;
      assert lines[..i][1..] == lines[1..][..j];
    }
  }

  /** An argument crosses a line when a cache that reads the lines in their order is inside a quoted string at the end of one that is not the last. */
  lemma CrossesIs(lines: seq<string>, stop: nat)
    ensures Crosses(lines, Joined(lines), stop) <==>
              exists i :: 0 < i < |lines| && RunTo(Plain, Joined(lines[..i]), stop) != Plain
  {
    hide Seams, Joined, RunTo;
    forall i | 0 < i < |lines|
      ensures RunTo(Plain, Joined(lines[..i]), stop) != Plain ==> Crosses(lines, Joined(lines), stop)
    {
      SeamAt(lines, i);
    }
    if Crosses(lines, Joined(lines), stop) {
      var k :| k in Seams(lines) && k < |Joined(lines)| && RunTo(Plain, Joined(lines)[..k], stop) != Plain;
      var i := SeamIs(lines, k);
      SeamAt(lines, i);
    }
  }
}
