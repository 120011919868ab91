/** `privateIfCookies` (cache.go): a response that sets a cookie says `private`, and nothing shared. */
module CacheGuard {
  import opened Directives
  import opened Wrappers

  // ---- a directive's name ---------------------------------------------------------------

  predicate IsSpace(c: char) {
    c in "\t\n\r " || c as int in {0x0B, 0x0C, 0x85, 0xA0, 0x1680, 0x2028, 0x2029, 0x202F, 0x205F, 0x3000}
    || 0x2000 <= c as int <= 0x200A
  }

  function TrimLeft(s: string): string {
    if s != [] && IsSpace(s[0]) then TrimLeft(s[1..]) else s
  }

  function TrimRight(s: string): string {
    if s != [] && IsSpace(s[|s| - 1]) then TrimRight(s[..|s| - 1]) else s
  }

  function TrimSpace(s: string): string {
    TrimRight(TrimLeft(s))
  }

  function BeforeEquals(s: string): string {
    if s == [] || s[0] == '=' then [] else [s[0]] + BeforeEquals(s[1..])
  }

  function Name(field: string): string {
    TrimSpace(BeforeEquals(field))
  }

  function Bare(field: string): bool {
    '=' !in field
  }

  /** Case folding, as far as an ASCII word can tell. */
  function Fold(c: char): char {
    if 'A' <= c <= 'Z' then c - 'A' + 'a'
    else if c as int == 0x17F then 's'
    else if c as int == 0x212A then 'k'
    else c
  }

  predicate EqualFold(s: string, word: string) {
    |s| == |word| && forall j :: 0 <= j < |s| ==> Fold(s[j]) == word[j]
  }

  function LeadingSpace(field: string): string {
    if field != [] && (field[0] == ' ' || field[0] == '\t') then [field[0]] + LeadingSpace(field[1..]) else []
  }

  predicate IsPublic(f: string) { EqualFold(Name(f), "public") }
  predicate IsShared(f: string) { EqualFold(Name(f), "s-maxage") }
  predicate IsPrivate(f: string) { EqualFold(Name(f), "private") && Bare(f) }

  // ---- the rewrite ----------------------------------------------------------------------

  function Kept(f: string): seq<string> {
    if IsPublic(f) then [LeadingSpace(f) + "private"]
    else if IsShared(f) || TrimSpace(f) == "" then []
    else [f]
  }

  function KeptAll(fields: seq<string>): seq<string> {
    if fields == [] then [] else Kept(fields[0]) + KeptAll(fields[1..])
  }

  predicate Changes(fields: seq<string>) {
    exists j :: 0 <= j < |fields| && (IsPublic(fields[j]) || IsShared(fields[j]))
  }

  predicate Claims(f: string) {
    IsPublic(f) || IsPrivate(f)
  }

  /** A directive that says `private`, or is made to, where every reader reads it. */
  predicate ClaimsReadably(fields: seq<string>) {
    exists j :: 0 <= j < |fields| && AllBalanced(fields[..j + 1]) && Claims(fields[j])
  }

  function Private(fields: seq<string>): seq<string> {
    if ClaimsReadably(fields) then KeptAll(fields) else ["private"] + KeptAll(fields)
  }

  function SpacedOne(f: string): string {
    if LeadingSpace(f) == "" then " " + f else f
  }

  /** White space goes ahead of every directive but the first. */
  function Spaced(fields: seq<string>): seq<string> {
    seq(|fields|, j requires 0 <= j < |fields| => if j == 0 then fields[j] else SpacedOne(fields[j]))
  }

  // ---- a quoted argument across two lines --------------------------------------------------

  /** Where the lines meet in their join: the index of each comma put between them. */
  function Seams(lines: seq<string>): set<nat> {
    if |lines| < 2 then {} else {|lines[0]|} + set k | k in Seams(lines[1..]) :: |lines[0]| + 1 + k
  }

  function RunTo(q: Quoting, s: string, ahead: int): Quoting
    decreases |s|
  {
    if s == [] then q else RunTo(ReadTo(q, s[0], ahead), s[1..], ahead - 1)
  }

  /** Some seam lies inside a quoted argument. */
  predicate Crosses(lines: seq<string>, value: string, stop: nat) {
    exists k :: k in Seams(lines) && k < |value| && RunTo(Plain, value[..k], stop) != Plain
  }

  /** What the guard makes of the lines: nothing, or the one line that replaces them. */
  predicate Decides(lines: seq<string>, stop: nat, out: Option<string>) {
    var value := Joined(lines);
    var fields := DirectivesOf(value, stop);
    if Changes(fields) || !ClaimsReadably(fields) || Crosses(lines, value, stop)
    then out == Some(Joined(Spaced(Private(fields)))) else out == None
  }

  // ---- the fields stay readable ----------------------------------------------------------

  predicate Harmless(s: string) {
    forall j :: 0 <= j < |s| ==> s[j] != ',' && s[j] != '"' && s[j] != '\\'
  }

  lemma {:induction false} HarmlessRuns(q: Quoting, s: string)
    requires Harmless(s) && q != Escaped
    ensures Run(q, s) == q && (q == Plain ==> Guarded(q, s)) && (q == Quoted ==> Stays(q, s))
    decreases |s|
  {
    if s != [] {
      HarmlessRuns(q, s[1..]);
    }
  }

  lemma HarmlessIsBoth(s: string)
    requires Harmless(s)
    ensures Balanced(s) && Trailing(s)
  {
    HarmlessRuns(Plain, s);
    HarmlessRuns(Quoted, s);
  }

  lemma {:induction false} SpaceIsHarmless(f: string)
    ensures Harmless(LeadingSpace(f))
  {
    if f != [] && (f[0] == ' ' || f[0] == '\t') {
      SpaceIsHarmless(f[1..]);
    }
  }

  lemma PrivateIsHarmless(f: string)
    ensures Harmless(LeadingSpace(f) + "private")
  {
    SpaceIsHarmless(f);
  }

  /** Read as if no string were open, a field from inside one may open it anew. */
  lemma TrailingIsLaid(f: string)
    requires Trailing(f)
    ensures Balanced(f) || Opens(f)
  {
    if '"' in f {
      FirstQuote(Quoted, f);
      var o :| 0 <= o < |f| && f[o] == '"' && '"' !in f[..o] && Stays(Quoted, f[o + 1..]);
      Quoteless(f[..o]);
      assert OpensAt(f, o);
    } else {
      Quoteless(f);
    }
  }

  lemma {:induction false} Quoteless(s: string)
    requires '"' !in s && NoComma(s)
    ensures Balanced(s)
  {
    if s != [] {
      Quoteless(s[1..]);
    }
  }

  lemma {:induction false} FirstQuote(q: Quoting, f: string)
    requires Stays(q, f) && '"' in f
    ensures exists o :: 0 <= o < |f| && f[o] == '"' && '"' !in f[..o] && Stays(Quoted, f[o + 1..])
    decreases |f|
  {
    if f[0] == '"' {
      assert f[..0] == [] && f[0 + 1..] == f[1..];
    } else {
      FirstQuote(Read(q, f[0]), f[1..]);
      var o :| 0 <= o < |f[1..]| && f[1..][o] == '"' && '"' !in f[1..][..o] && Stays(Quoted, f[1..][o + 1..]);
      assert f[..o + 1] == [f[0]] + f[1..][..o] && f[o + 1 + 1..] == f[1..][o + 1..];
      assert f[o + 1] == '"';
    }
  }

  lemma {:induction false} AllTrailingIsLaid(fields: seq<string>)
    requires AllTrailing(fields)
    ensures Laid(fields)
  {
    if fields != [] {
      TrailingIsLaid(fields[0]);
      AllTrailingIsLaid(fields[1..]);
    }
  }

  lemma KeptOf(f: string)
    ensures Kept(f) == [] || (|Kept(f)| == 1 && (Kept(f)[0] == f || Harmless(Kept(f)[0])))
  {
    PrivateIsHarmless(f);
  }

  lemma {:induction false} KeptTrailing(fields: seq<string>)
    requires AllTrailing(fields)
    ensures AllTrailing(KeptAll(fields))
  {
    hide Kept, Stays;
    if fields != [] {
      KeptOf(fields[0]);
      if Kept(fields[0]) != [] && Kept(fields[0])[0] != fields[0] {
        HarmlessIsBoth(Kept(fields[0])[0]);
      }
      KeptTrailing(fields[1..]);
    }
  }

  lemma LaidPrepend(f: string, rest: seq<string>)
    requires Laid(rest) && Balanced(f)
    ensures Laid([f] + rest)
  {
    assert ([f] + rest)[1..] == rest;
  }

  lemma LaidOpening(f: string, rest: seq<string>)
    requires Opens(f) && AllTrailing(rest)
    ensures Laid([f] + rest)
  {
    var o: nat :| OpensAt(f, o);
    OpenIsUnbalanced(f, o);
    assert ([f] + rest)[1..] == rest;
  }

  /** What is kept of the directives can still be read back, whichever of them was dropped. */
  lemma {:induction false} KeptIsLaid(fields: seq<string>)
    requires Laid(fields)
    ensures Laid(KeptAll(fields))
  {
    hide Kept, Balanced, Opens, Laid;
    if fields == [] {
      return;
    }
    LaidParts(fields);
    var f, rest := fields[0], KeptAll(fields[1..]);
    KeptOf(f);
    if Balanced(f) {
      KeptIsLaid(fields[1..]);
    } else {
      KeptTrailing(fields[1..]);
      AllTrailingIsLaid(rest);
    }
    if Kept(f) == [] {
      assert KeptAll(fields) == rest;
    } else if Harmless(Kept(f)[0]) {
      HarmlessIsBoth(Kept(f)[0]);
      LaidPrepend(Kept(f)[0], rest);
      assert Kept(f) == [Kept(f)[0]];
    } else if Balanced(f) {
      LaidPrepend(f, rest);
      assert Kept(f) == [f];
    } else {
      LaidOpening(f, rest);
      assert Kept(f) == [f];
    }
  }

  lemma LaidParts(fields: seq<string>)
    requires fields != [] && Laid(fields)
    ensures if Balanced(fields[0]) then Laid(fields[1..]) else Opens(fields[0]) && AllTrailing(fields[1..])
  {
  }

  lemma PrivateIsLaid(fields: seq<string>)
    requires Laid(fields)
    ensures Laid(Private(fields)) && Private(fields) != []
  {
    hide Laid, Kept;
    KeptIsLaid(fields);
    if ClaimsReadably(fields) {
      ClaimIsKept(fields);
    } else {
      HarmlessIsBoth("private");
      LaidPrepend("private", KeptAll(fields));
    }
  }

  // ---- white space ahead of a directive changes nothing ------------------------------------------

  lemma SpacedBalanced(f: string)
    ensures Balanced(SpacedOne(f)) <==> Balanced(f)
    ensures Trailing(f) ==> Trailing(SpacedOne(f))
  {
    if LeadingSpace(f) == "" {
      assert SpacedOne(f)[1..] == f;
      assert forall j :: 0 < j < |SpacedOne(f)| ==> SpacedOne(f)[j] == f[j - 1];
    }
  }

  lemma SpacedOpens(f: string)
    requires Opens(f)
    ensures Opens(SpacedOne(f))
  {
    if LeadingSpace(f) == "" {
      var o: nat :| OpensAt(f, o);
      var g := SpacedOne(f);
      assert g[..o + 1] == " " + f[..o] && g[o + 1 + 1..] == f[o + 1..] && g[o + 1] == f[o];
      assert (" " + f[..o])[1..] == f[..o];
      assert OpensAt(g, o + 1);
    }
  }

  function SpacedAll(fields: seq<string>): seq<string> {
    seq(|fields|, j requires 0 <= j < |fields| => SpacedOne(fields[j]))
  }

  lemma {:induction false} SpacedAllIsLaid(fields: seq<string>)
    requires Laid(fields)
    ensures Laid(SpacedAll(fields))
  {
    hide Balanced, Opens, Trailing, SpacedOne;
    if fields != [] {
      SpacedBalanced(fields[0]);
      assert SpacedAll(fields)[1..] == SpacedAll(fields[1..]);
      if Balanced(fields[0]) {
        SpacedAllIsLaid(fields[1..]);
      } else {
        SpacedOpens(fields[0]);
        forall j | 0 <= j < |fields[1..]| ensures Trailing(SpacedAll(fields[1..])[j]) {
          SpacedBalanced(fields[1..][j]);
        }
      }
    }
  }

  lemma SpacedIsLaid(fields: seq<string>)
    requires Laid(fields)
    ensures Laid(Spaced(fields)) && |Spaced(fields)| == |fields|
  {
    hide Balanced, Opens, Trailing, SpacedOne;
    if fields != [] {
      assert Spaced(fields)[1..] == SpacedAll(fields[1..]);
      if Balanced(fields[0]) {
        SpacedAllIsLaid(fields[1..]);
      } else {
        forall j | 0 <= j < |fields[1..]| ensures Trailing(SpacedAll(fields[1..])[j]) {
          SpacedBalanced(fields[1..][j]);
        }
      }
    }
  }

  lemma SpacedName(f: string)
    ensures Name(SpacedOne(f)) == Name(f) && Bare(SpacedOne(f)) == Bare(f)
  {
    if LeadingSpace(f) == "" {
      assert SpacedOne(f)[1..] == f;
      assert BeforeEquals(SpacedOne(f)) == [' '] + BeforeEquals(f);
      assert ([' '] + BeforeEquals(f))[1..] == BeforeEquals(f);
    }
  }

  lemma {:induction false} LeadingName(f: string)
    ensures Name(LeadingSpace(f) + "private") == "private" && Bare(LeadingSpace(f) + "private")
  {
    var s := LeadingSpace(f) + "private";
    if f != [] && (f[0] == ' ' || f[0] == '\t') {
      LeadingName(f[1..]);
      var rest := LeadingSpace(f[1..]) + "private";
      assert s == [f[0]] + rest;
      assert s[1..] == rest;
      assert BeforeEquals(s) == [f[0]] + BeforeEquals(rest);
      assert ([f[0]] + BeforeEquals(rest))[1..] == BeforeEquals(rest);
    } else {
      assert s == "private";
      PrivateName();
    }
  }

  lemma PrivateName()
    ensures Name("private") == "private" && Bare("private") && IsPrivate("private")
  {
    hide BeforeEquals, TrimSpace;
    BareBefore("private");
    Tight("private");
  }

  lemma Tight(s: string)
    requires s != [] && !IsSpace(s[0]) && !IsSpace(s[|s| - 1])
    ensures TrimSpace(s) == s
  {
  }

  // ---- the claim survives --------------------------------------------------------------------------

  predicate SaysPrivate(fields: seq<string>) {
    exists j :: 0 <= j < |fields| && AllBalanced(fields[..j + 1]) && IsPrivate(fields[j])
  }

  lemma SaysFirst(f: string, rest: seq<string>)
    requires Balanced(f) && IsPrivate(f)
    ensures SaysPrivate([f] + rest)
  {
    assert ([f] + rest)[..0 + 1] == [f];
    assert ([f] + rest)[0] == f;
  }

  lemma SaysLater(f: string, rest: seq<string>)
    requires Balanced(f) && SaysPrivate(rest)
    ensures SaysPrivate([f] + rest)
  {
    var j :| 0 <= j < |rest| && AllBalanced(rest[..j + 1]) && IsPrivate(rest[j]);
    assert ([f] + rest)[..j + 2] == [f] + rest[..j + 1];
    assert ([f] + rest)[j + 1] == rest[j];
  }

  lemma ClaimKept(f: string)
    requires Claims(f) && Balanced(f)
    ensures |Kept(f)| == 1 && IsPrivate(Kept(f)[0]) && Balanced(Kept(f)[0])
  {
    LeadingName(f);
    PrivateIsHarmless(f);
    HarmlessIsBoth(LeadingSpace(f) + "private");
    PrivateName();
    if !IsPublic(f) {
      NotBlank(f);
    }
  }

  lemma NotBlank(f: string)
    requires IsPrivate(f)
    ensures TrimSpace(f) != ""
  {
    BareName(f);
  }

  lemma {:induction false} BareName(f: string)
    requires Bare(f)
    ensures Name(f) == TrimSpace(f)
  {
    BareBefore(f);
  }

  lemma {:induction false} BareBefore(f: string)
    requires Bare(f)
    ensures BeforeEquals(f) == f
  {
    if f != [] {
      BareBefore(f[1..]);
    }
  }

  lemma {:induction false} ClaimIsKept(fields: seq<string>)
    requires ClaimsReadably(fields)
    ensures SaysPrivate(KeptAll(fields))
  {
    hide Kept, Balanced, Claims, IsPrivate;
    var j :| 0 <= j < |fields| && AllBalanced(fields[..j + 1]) && Claims(fields[j]);
    var f, rest := fields[0], KeptAll(fields[1..]);
    assert Balanced(fields[..j + 1][0]);
    if j == 0 {
      ClaimKept(f);
      SaysFirst(Kept(f)[0], rest);
      assert KeptAll(fields) == [Kept(f)[0]] + rest;
    } else {
      assert fields[1..][..j] == fields[..j + 1][1..];
      ClaimIsKept(fields[1..]);
      KeptOf(f);
      if Kept(f) == [] {
        assert KeptAll(fields) == rest;
      } else {
        if Kept(f)[0] != f {
          HarmlessIsBoth(Kept(f)[0]);
        }
        SaysLater(Kept(f)[0], rest);
        assert KeptAll(fields) == [Kept(f)[0]] + rest;
      }
    }
  }

  // ---- what a cache reads afterwards -----------------------------------------------------------

  predicate Open(f: string) {
    IsPublic(f) || IsShared(f)
  }

  predicate NoneOpen(fields: seq<string>) {
    forall j :: 0 <= j < |fields| ==> !Open(fields[j])
  }

  lemma NamedPrivateIsClosed(f: string)
    requires Name(f) == "private"
    ensures !Open(f)
  {
  }

  lemma {:induction false} KeptIsClosed(fields: seq<string>)
    ensures NoneOpen(KeptAll(fields))
  {
    hide Open;
    if fields != [] {
      KeptIsClosed(fields[1..]);
      KeptOneIsClosed(fields[0]);
    }
  }

  lemma KeptOneIsClosed(f: string)
    ensures NoneOpen(Kept(f))
  {
    LeadingName(f);
    NamedPrivateIsClosed(LeadingSpace(f) + "private");
  }

  lemma SpacedIsClosed(fields: seq<string>)
    requires NoneOpen(fields)
    ensures NoneOpen(Spaced(fields))
  {
    hide Name;
    forall j | 0 <= j < |fields| ensures !Open(Spaced(fields)[j]) {
      SpacedName(fields[j]);
    }
  }

  lemma SpacedSays(fields: seq<string>)
    requires SaysPrivate(fields)
    ensures SaysPrivate(Spaced(fields))
  {
    hide Name, Balanced, SpacedOne;
    var j :| 0 <= j < |fields| && AllBalanced(fields[..j + 1]) && IsPrivate(fields[j]);
    SpacedName(fields[j]);
    var first, spaced := fields[..j + 1], Spaced(fields)[..j + 1];
    forall i | 0 <= i < |spaced| ensures Balanced(spaced[i]) {
      SpacedBalanced(first[i]);
    }
    assert IsPrivate(Spaced(fields)[j]);
  }

  lemma PrivateSays(fields: seq<string>)
    ensures SaysPrivate(Private(fields)) && NoneOpen(Private(fields))
  {
    hide KeptAll, Open, IsPrivate;
    KeptIsClosed(fields);
    if ClaimsReadably(fields) {
      ClaimIsKept(fields);
    } else {
      PrivateName();
      NamedPrivateIsClosed("private");
      HarmlessIsBoth("private");
      SaysFirst("private", KeptAll(fields));
    }
  }

  /** The directives of the rewritten line are exactly those it was put together from. */
  lemma RewrittenIsRead(fields: seq<string>, stop: nat)
    requires Laid(fields) && IsStop(Joined(Spaced(Private(fields))), stop)
    ensures DirectivesOf(Joined(Spaced(Private(fields))), stop) == Spaced(Private(fields))
  {
    hide Laid, IsStop, Private, Spaced;
    PrivateIsLaid(fields);
    SpacedIsLaid(Private(fields));
    JoinedIsCut(Spaced(Private(fields)));
    OneStop(Joined(Spaced(Private(fields))), stop, StopOf(Spaced(Private(fields))));
  }

  /** Where a directive comes from: the input as it was, or the guard. */
  predicate From(fields: seq<string>, g: string) {
    g in fields || exists f :: f in fields && g == " " + f
  }

  lemma {:induction false} KeptAreFrom(fields: seq<string>, g: string)
    requires g in KeptAll(fields)
    ensures g in fields || IsPrivate(g)
  {
    hide TrimSpace;
    var f := fields[0];
    LeadingName(f);
    if g !in Kept(f) {
      KeptAreFrom(fields[1..], g);
    }
  }

  lemma PrivateAreFrom(fields: seq<string>, g: string)
    requires g in Spaced(Private(fields))
    ensures From(fields, g) || IsPrivate(g)
  {
    hide Name, KeptAll, Bare;
    var private := Private(fields);
    var j :| 0 <= j < |private| && Spaced(private)[j] == g;
    SpacedName(private[j]);
    PrivateName();
    if private[j] in KeptAll(fields) {
      KeptAreFrom(fields, private[j]);
    }
  }

  /** A directive before any unterminated quote that says `private` of the whole response. */
  predicate ReadsPrivate(fields: seq<string>, stop: nat) {
    exists j :: 0 <= j < |fields| && IsPrivate(fields[j]) && Offset(fields, j) + |fields[j]| <= stop
  }

  lemma SaysIsRead(fields: seq<string>)
    requires Laid(fields) && SaysPrivate(fields)
    ensures ReadsPrivate(fields, StopOf(fields))
  {
    hide Laid, IsPrivate, AllBalanced;
    var j :| 0 <= j < |fields| && AllBalanced(fields[..j + 1]) && IsPrivate(fields[j]);
    ReadableIsBalanced(fields, j);
  }

  lemma UnchangedSays(fields: seq<string>)
    requires !Changes(fields) && ClaimsReadably(fields)
    ensures SaysPrivate(fields) && NoneOpen(fields)
  {
    hide IsPublic, IsShared, IsPrivate, Balanced;
    var j :| 0 <= j < |fields| && AllBalanced(fields[..j + 1]) && Claims(fields[j]);
    assert !IsPublic(fields[j]);
  }

  /** What a cache reads after the guard: the line that replaced them, or the lines as they were. */
  function After(lines: seq<string>, out: Option<string>): string {
    if out.Some? then out.value else Joined(lines)
  }

  /**
   The guard: whatever the lines were, a cache that joins them now reads a bare `private` before
   any unterminated quote, no `public` and no `s-maxage`, and nothing that was not there before
   but `private`.
   */
  lemma CookiesArePrivate(lines: seq<string>, stop: nat, out: Option<string>, stop': nat)
    requires IsStop(Joined(lines), stop) && Decides(lines, stop, out) && IsStop(After(lines, out), stop')
    ensures var fields, fields' := DirectivesOf(Joined(lines), stop), DirectivesOf(After(lines, out), stop');
            && ReadsPrivate(fields', stop') && NoneOpen(fields')
            && forall g :: g in fields' ==> From(fields, g) || IsPrivate(g)
  {
    hide IsStop, Laid, Private, Spaced, Changes, ClaimsReadably, SaysPrivate, NoneOpen, Crosses, ReadsPrivate, IsPrivate, Joined, From;
    var fields := DirectivesOf(Joined(lines), stop);
    DirectivesAreLaid(Joined(lines), stop);
    var fields' := DirectivesOf(After(lines, out), stop');
    DirectivesAreLaid(After(lines, out), stop');
    if out.Some? {
      RewrittenIsRead(fields, stop');
      PrivateSays(fields);
      SpacedSays(Private(fields));
      SpacedIsClosed(Private(fields));
      forall g | g in fields' ensures From(fields, g) || IsPrivate(g) {
        PrivateAreFrom(fields, g);
      }
    } else {
      OneStop(Joined(lines), stop, stop');
      UnchangedSays(fields);
      forall g | g in fields' ensures From(fields, g) {
        SelfFrom(fields, g);
      }
    }
    SaysIsRead(fields');
  }

  lemma SelfFrom(fields: seq<string>, g: string)
    requires g in fields
    ensures From(fields, g)
  {
  }

  /** A second pass finds nothing to do. */
  lemma GuardIsIdempotent(lines: seq<string>, stop: nat, out: Option<string>, stop': nat, again: Option<string>)
    requires IsStop(Joined(lines), stop) && Decides(lines, stop, out)
    requires var now := if out.Some? then [out.value] else lines; IsStop(Joined(now), stop') && Decides(now, stop', again)
    ensures again == None
  {
    hide IsStop, Laid, Private, Spaced, SaysPrivate, NoneOpen, Name, Balanced, IsPublic, IsShared, IsPrivate;
    var fields := DirectivesOf(Joined(lines), stop);
    DirectivesAreLaid(Joined(lines), stop);
    if out.Some? {
      assert Joined([out.value]) == out.value;
      RewrittenIsRead(fields, stop');
      PrivateSays(fields);
      SpacedSays(Private(fields));
      SpacedIsClosed(Private(fields));
      NothingToChange(Spaced(Private(fields)));
      assert Seams([out.value]) == {};
    } else {
      OneStop(Joined(lines), stop, stop');
    }
  }

  lemma NothingToChange(fields: seq<string>)
    requires SaysPrivate(fields) && NoneOpen(fields)
    ensures !Changes(fields) && ClaimsReadably(fields)
  {
    hide IsPublic, IsShared, IsPrivate, Balanced;
    var j :| 0 <= j < |fields| && AllBalanced(fields[..j + 1]) && IsPrivate(fields[j]);
    assert Claims(fields[j]);
    forall i | 0 <= i < |fields| ensures !IsPublic(fields[i]) && !IsShared(fields[i]) {
      assert !Open(fields[i]);
    }
  }
}
