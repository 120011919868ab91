/** One spelling per page (canonical.go), the redirect it decides, and segments that step up the path. */
module Canonical {
  import opened Wrappers
  import opened Paths

  // ---- the decoding pass -----------------------------------------------------------

  predicate IsUnreserved(c: char) {
    || 'A' <= c <= 'Z' || 'a' <= c <= 'z' || '0' <= c <= '9'
    || c == '-' || c == '.' || c == '_' || c == '~'
  }

  function Upper(c: char): (u: char)
    ensures IsHexDigit(c) ==> IsHexDigit(u) && UnhexDigit(u) == UnhexDigit(c) && !('a' <= u <= 'z')
  {
    if 'a' <= c <= 'z' then (c as int - 32) as char else c
  }

  /** What an escape is written as: the octet itself if unreserved, uppercase hex otherwise. */
  function Respelled(s: string): string
    requires OpensWithEscape(s)
  {
    if IsUnreserved(EscapedByte(s)) then [EscapedByte(s)] else ['%', Upper(s[1]), Upper(s[2])]
  }

  function Normalize(s: string): string {
    if s == [] then []
    else if OpensWithEscape(s) then Respelled(s) + Normalize(s[3..])
    else [s[0]] + Normalize(s[1..])
  }

  function CanonicalPath(p: string): string {
    if p == "" then "/" else Clean(Normalize(p))
  }

  method ComputeCanonicalPath(p: string) returns (c: string)
    ensures c == CanonicalPath(p)
  {
    if p == "" {
      return "/";
    }
    var b, i := "", 0;
    while i < |p|
      invariant 0 <= i <= |p|
      invariant Normalize(p) == b + Normalize(p[i..])
    {
      hide Normalize, Respelled, EscapedByte, UnhexDigit, IsHexDigit, IsUnreserved;
      var ch := p[i];
      NormalizeNext(b, p, i);
      if ch != '%' || i + 2 >= |p| || !IsHexDigit(p[i + 1]) || !IsHexDigit(p[i + 2]) {
        b := b + [ch];
        i := i + 1;
        continue;
      }
      var decoded := (UnhexDigit(p[i + 1]) * 16 + UnhexDigit(p[i + 2])) as char by {
        assert UnhexDigit(p[i + 1]) < 16 && UnhexDigit(p[i + 2]) < 16;
      }
      if IsUnreserved(decoded) {
        b := b + [decoded];
      } else {
        b := b + ['%', Upper(p[i + 1]), Upper(p[i + 2])];
      }
      i := i + 3;
    }
    assert p[i..] == [];
    assert b + [] == b;
    return Clean(b);
  }

  lemma NormalizeNext(b: string, p: string, i: nat)
    requires i < |p|
    ensures var escape := p[i] == '%' && i + 2 < |p| && IsHexDigit(p[i + 1]) && IsHexDigit(p[i + 2]);
            && OpensWithEscape(p[i..]) == escape
            && (!escape ==> b + Normalize(p[i..]) == b + [p[i]] + Normalize(p[i + 1..]))
            && (escape ==>
                  var decoded := (UnhexDigit(p[i + 1]) * 16 + UnhexDigit(p[i + 2])) as char;
                  var piece := if IsUnreserved(decoded) then [decoded] else ['%', Upper(p[i + 1]), Upper(p[i + 2])];
                  b + Normalize(p[i..]) == b + piece + Normalize(p[i + 3..]))
  {
    var rest := p[i..];
    assert rest[1..] == p[i + 1..];
    if OpensWithEscape(rest) {
      assert rest[3..] == p[i + 3..];
      assert b + (Respelled(rest) + Normalize(rest[3..])) == b + Respelled(rest) + Normalize(rest[3..]);
    } else {
      assert b + ([p[i]] + Normalize(rest[1..])) == b + [p[i]] + Normalize(rest[1..]);
    }
  }

  // ---- idempotence -------------------------------------------------------------------

  /** An escape the pass leaves as it is. */
  predicate Reserved(s: string) {
    && OpensWithEscape(s)
    && !('a' <= s[1] <= 'f') && !('a' <= s[2] <= 'f')
    && !IsUnreserved(EscapedByte(s))
  }

  /** Nothing left for the pass to respell. */
  predicate Normal(s: string) {
    if s == [] then true
    else if OpensWithEscape(s) then Reserved(s) && Normal(s[3..])
    else Normal(s[1..])
  }

  lemma {:induction false} NormalIsFixed(s: string)
    ensures |Normalize(s)| <= |s|
    ensures Normal(s) <==> Normalize(s) == s
  {
    if s != [] {
      if OpensWithEscape(s) {
        NormalIsFixed(s[3..]);
        var c := Normalize(s);
        if IsUnreserved(EscapedByte(s)) {
          assert |c| < |s|;
        } else {
          assert c[1] == Upper(s[1]) && c[2] == Upper(s[2]) && c[3..] == Normalize(s[3..]);
          assert s == [s[0], s[1], s[2]] + s[3..];
        }
      } else {
        NormalIsFixed(s[1..]);
        assert Normalize(s)[1..] == Normalize(s[1..]);
        assert s == [s[0]] + s[1..];
      }
    }
  }

  // what the pass writes next to a stray '%' can be an escape, which a second pass would change

  /** After a stray '%' the pass writes two hex digits, and not an escape it would leave alone. */
  predicate Formed(written: string) {
    OpensWithEscape(['%'] + written) && !Reserved(['%'] + written)
  }

  /** Somewhere in the segment an escape is formed across a '%' that starts none. */
  predicate Splices(s: string) {
    if s == [] then false
    else if OpensWithEscape(s) then Splices(s[3..])
    else (s[0] == '%' && Formed(Normalize(s[1..]))) || Splices(s[1..])
  }

  lemma {:induction false} RespellingSettles(s: string)
    ensures Normal(Normalize(s)) <==> !Splices(s)
  {
    if s != [] {
      if OpensWithEscape(s) {
        RespellingSettles(s[3..]);
        EscapeThenNormal(s, Normalize(s[3..]));
      } else {
        RespellingSettles(s[1..]);
        CharacterThenNormal(s[0], Normalize(s[1..]));
      }
    }
  }

  lemma EscapeThenNormal(s: string, rest: string)
    requires OpensWithEscape(s)
    ensures Normal(Respelled(s) + rest) <==> Normal(rest)
  {
    var q := Respelled(s) + rest;
    if IsUnreserved(EscapedByte(s)) {
      assert q[1..] == rest;
    } else {
      assert q[0] == '%' && q[1] == Upper(s[1]) && q[2] == Upper(s[2]);
      assert q[3..] == rest;
    }
  }

  lemma CharacterThenNormal(c: char, rest: string)
    ensures Normal([c] + rest) <==> Normal(rest) && !(c == '%' && Formed(rest))
  {
    var q := [c] + rest;
    assert q[1..] == rest;
    if OpensWithEscape(q) {
      assert q[3..] == rest[2..] && rest[1..][1..] == rest[2..];
      assert q[1] == rest[0] && q[2] == rest[1] == rest[1..][0];
      assert !OpensWithEscape(rest) && !OpensWithEscape(rest[1..]);
    }
  }

  lemma ReservedStopsAtSlash(a: string, b: string)
    requires a != []
    ensures Reserved(a + ['/'] + b) == Reserved(a)
  {
    EscapeStopsAtSlash(a, b);
    var s := a + ['/'] + b;
    assert forall j :: 0 <= j < |a| ==> s[j] == a[j];
  }

  lemma {:induction false} NormalAt(a: string, b: string)
    ensures Normal(a + ['/'] + b) <==> Normal(a) && Normal(b)
  {
    var s := a + ['/'] + b;
    if a == [] {
      assert s[1..] == b;
    } else {
      ReservedStopsAtSlash(a, b);
      EscapeStopsAtSlash(a, b);
      var step := if OpensWithEscape(a) then 3 else 1;
      assert s[step..] == a[step..] + ['/'] + b;
      NormalAt(a[step..], b);
    }
  }

  predicate AllNormal(parts: seq<string>) {
    forall j :: 0 <= j < |parts| ==> Normal(parts[j])
  }

  lemma {:induction false} NormalJoin(parts: seq<string>)
    requires |parts| > 0
    ensures Normal(Join(parts, '/')) <==> AllNormal(parts)
  {
    if |parts| > 1 {
      NormalAt(parts[0], Join(parts[1..], '/'));
      NormalJoin(parts[1..]);
      assert forall j :: 0 < j < |parts| ==> parts[j] == parts[1..][j - 1];
      assert AllNormal(parts) <==> Normal(parts[0]) && AllNormal(parts[1..]);
    }
  }

  lemma CleanIsNormal(s: string)
    ensures Normal(Clean(s)) <==> AllNormal(Kept(s))
  {
    var stack := Kept(s);
    if stack != [] {
      NormalJoin(stack);
      NormalAt([], Join(stack, '/'));
      assert [] + ['/'] + Join(stack, '/') == ['/'] + Join(stack, '/');
    }
  }

  // the pass works segment by segment: an escape holds no '/', and is never spelled as one

  function NormalizeAll(parts: seq<string>): (r: seq<string>)
    ensures |r| == |parts| && forall j :: 0 <= j < |parts| ==> r[j] == Normalize(parts[j])
  {
    seq(|parts|, j requires 0 <= j < |parts| => Normalize(parts[j]))
  }

  lemma {:induction false} NormalizeAt(a: string, b: string)
    ensures Normalize(a + ['/'] + b) == Normalize(a) + ['/'] + Normalize(b)
  {
    var s := a + ['/'] + b;
    if a == [] {
      assert s[1..] == b;
      assert ['/'] + Normalize(b) == Normalize(a) + ['/'] + Normalize(b);
    } else {
      EscapeStopsAtSlash(a, b);
      var step := if OpensWithEscape(a) then 3 else 1;
      var first := if OpensWithEscape(a) then Respelled(a) else [a[0]];
      assert OpensWithEscape(a) ==> Respelled(s) == Respelled(a);
      assert s[step..] == a[step..] + ['/'] + b;
      NormalizeAt(a[step..], b);
      assert first + (Normalize(a[step..]) + ['/'] + Normalize(b)) == (first + Normalize(a[step..])) + ['/'] + Normalize(b);
    }
  }

  lemma {:induction false} NormalizeWritesNoSlash(s: string)
    requires '/' !in s
    ensures '/' !in Normalize(s)
  {
    if s != [] {
      var step := if OpensWithEscape(s) then 3 else 1;
      NormalizeWritesNoSlash(s[step..]);
    }
  }

  lemma {:induction false} NormalizeJoin(parts: seq<string>)
    requires |parts| > 0
    ensures Normalize(Join(parts, '/')) == Join(NormalizeAll(parts), '/')
  {
    if |parts| > 1 {
      NormalizeAt(parts[0], Join(parts[1..], '/'));
      NormalizeJoin(parts[1..]);
      assert NormalizeAll(parts)[1..] == NormalizeAll(parts[1..]);
    }
  }

  lemma SplitOfNormalized(s: string)
    ensures Split(Normalize(s), '/') == NormalizeAll(Split(s, '/'))
    ensures Rooted(Normalize(s)) == Rooted(s)
  {
    var parts := Split(s, '/');
    JoinOfSplit(s, '/');
    NormalizeJoin(parts);
    forall j | 0 <= j < |parts| ensures '/' !in NormalizeAll(parts)[j] {
      NormalizeWritesNoSlash(parts[j]);
    }
    SplitOfJoin(NormalizeAll(parts), '/');
  }

  // the segments of the path as written that the cleaning keeps

  /** One segment as written against those kept so far: how it is respelled decides. */
  function PushWritten(stack: seq<string>, segment: string, rooted: bool): seq<string> {
    var spelled := Normalize(segment);
    if spelled == "" || spelled == "." then stack
    else if spelled != ".." then stack + [segment]
    else if stack != [] && Normalize(stack[|stack| - 1]) != ".." then stack[..|stack| - 1]
    else if rooted then stack
    else stack + [segment]
  }

  function ResolveWritten(segments: seq<string>, rooted: bool, stack: seq<string>): seq<string> {
    if segments == [] then stack
    else ResolveWritten(segments[1..], rooted, PushWritten(stack, segments[0], rooted))
  }

  function Survivors(p: string): seq<string> {
    ResolveWritten(Split(p, '/'), Rooted(p), [])
  }

  lemma {:induction false} WrittenIsResolved(segments: seq<string>, rooted: bool, stack: seq<string>)
    ensures NormalizeAll(ResolveWritten(segments, rooted, stack)) == Resolve(NormalizeAll(segments), rooted, NormalizeAll(stack))
  {
    if segments != [] {
      assert NormalizeAll(PushWritten(stack, segments[0], rooted)) == Push(NormalizeAll(stack), Normalize(segments[0]), rooted);
      assert NormalizeAll(segments)[1..] == NormalizeAll(segments[1..]);
      WrittenIsResolved(segments[1..], rooted, PushWritten(stack, segments[0], rooted));
    }
  }

  lemma SurvivorsAreKept(p: string)
    ensures Kept(Normalize(p)) == NormalizeAll(Survivors(p))
  {
    SplitOfNormalized(p);
    WrittenIsResolved(Split(p, '/'), Rooted(p), []);
    assert NormalizeAll([]) == [];
  }

  // a cleaned path that the pass changes is not cleaned back

  /** What is kept is as long as what was given only when it is all of it. */
  lemma {:induction false} NothingDropped(segments: seq<string>, rooted: bool, stack: seq<string>)
    ensures |Resolve(segments, rooted, stack)| <= |stack| + |segments|
    ensures |Resolve(segments, rooted, stack)| == |stack| + |segments| ==> Resolve(segments, rooted, stack) == stack + segments
  {
    if segments != [] {
      NothingDropped(segments[1..], rooted, Push(stack, segments[0], rooted));
      assert stack + segments == (stack + [segments[0]]) + segments[1..];
    }
  }

  lemma KeptOfClean(s: string)
    ensures Kept(Clean(s)) == Kept(s) && Rooted(Clean(s)) == Rooted(s) && Settled(Kept(s), Rooted(s))
  {
    ResolveSettles(Split(s, '/'), Rooted(s), []);
    if Rooted(s) || Kept(s) != [] {
      CleanOfSettled(Kept(s), Rooted(s));
    } else {
      SplitWhole(".", '/');
    }
  }

  /** The segments of a cleaned path are those kept, after the empty one of its root. */
  lemma SplitOfClean(s: string)
    requires Kept(s) != []
    ensures Split(Clean(s), '/') == (if Rooted(s) then [""] else []) + Kept(s)
  {
    KeptOfClean(s);
    SplitOfJoin(Kept(s), '/');
    var c := Clean(s);
    if Rooted(s) {
      assert c[1..] == Join(Kept(s), '/');
    } else {
      assert [] + Kept(s) == Kept(s);
    }
  }

  lemma CleanedBackIsFixed(s: string)
    requires Clean(Normalize(Clean(s))) == Clean(s)
    ensures AllNormal(Kept(s))
  {
    hide Clean, Normalize, Normal, Push, Settled;
    var stack, c := Kept(s), Clean(s);
    if stack != [] {
      KeptOfClean(s);
      KeptOfClean(Normalize(c));
      SplitOfClean(s);
      SplitOfNormalized(c);
      RespelledStack(stack, Rooted(s));
      NothingDropped(NormalizeAll(stack), Rooted(s), []);
      assert [] + NormalizeAll(stack) == NormalizeAll(stack);
      forall j | 0 <= j < |stack| ensures Normal(stack[j]) {
        NormalIsFixed(stack[j]);
      }
    }
  }

  lemma RespelledStack(stack: seq<string>, rooted: bool)
    ensures Resolve(NormalizeAll((if rooted then [""] else []) + stack), rooted, []) == Resolve(NormalizeAll(stack), rooted, [])
  {
    if rooted {
      assert NormalizeAll([""] + stack) == [""] + NormalizeAll(stack);
      assert ([""] + NormalizeAll(stack))[1..] == NormalizeAll(stack);
    } else {
      assert [] + stack == stack;
    }
  }

  /**
   The canonical spelling of a path is its own canonical spelling exactly when no segment that
   cleaning keeps splices an escape.
   */
  lemma CanonicalPathIsIdempotent(p: string)
    ensures CanonicalPath(CanonicalPath(p)) == CanonicalPath(p) <==> forall s :: s in Survivors(p) ==> !Splices(s)
  {
    if p == "" {
      CanonicalRoot();
    } else {
      var q := Normalize(p);
      var c := Clean(q);
      CleanIsIdempotent(q);
      SurvivorsAreKept(p);
      CleanIsNormal(q);
      NormalIsFixed(c);
      SurvivorsSettle(Survivors(p));
      hide Clean, Normalize, Splices, Survivors, AllNormal, Normal;
      if Clean(Normalize(c)) == c {
        CleanedBackIsFixed(q);
      }
    }
  }

  lemma SurvivorsSettle(written: seq<string>)
    ensures AllNormal(NormalizeAll(written)) <==> forall s :: s in written ==> !Splices(s)
  {
    forall j | 0 <= j < |written| ensures written[j] in written && (Normal(NormalizeAll(written)[j]) <==> !Splices(written[j])) {
      RespellingSettles(written[j]);
    }
  }

  lemma CanonicalRoot()
    ensures CanonicalPath("/") == "/" && Survivors("") == []
  {
    assert Split("/", '/') == ["", ""] by {
      SplitAt("", "", '/');
      assert "" + ['/'] + "" == "/";
    }
    assert ["", ""][1..] == [""] && [""][1..] == [];
    assert Resolve([""], true, []) == [];
    assert Clean("/") == "/";
    assert Normalize("/") == "/";
    assert Split("", '/') == [""] && Normalize("") == "";
    assert ResolveWritten([""], false, []) == [];
  }

  /** What net/http lets through splices nothing, whatever cleaning keeps of it. */
  lemma WellEscapedSplicesNothing(p: string)
    requires WellEscaped(p)
    ensures forall s :: s in Survivors(p) ==> !Splices(s)
    ensures CanonicalPath(CanonicalPath(p)) == CanonicalPath(p)
  {
    JoinOfSplit(p, '/');
    PartsAreWellEscaped(Split(p, '/'));
    SurvivorsAreWritten(Split(p, '/'), Rooted(p), []);
    CanonicalPathIsIdempotent(p);
    forall s | s in Survivors(p) ensures !Splices(s) {
      WellEscapedIsWhole(s);
    }
  }

  lemma {:induction false} WellEscapedIsWhole(s: string)
    requires WellEscaped(s)
    ensures !Splices(s)
  {
    if s != [] {
      WellEscapedIsWhole(if s[0] == '%' then s[3..] else s[1..]);
    }
  }

  lemma {:induction false} PartsAreWellEscaped(parts: seq<string>)
    requires |parts| > 0 && WellEscaped(Join(parts, '/'))
    ensures forall s :: s in parts ==> WellEscaped(s)
  {
    if |parts| > 1 {
      WellEscapedAt(parts[0], Join(parts[1..], '/'));
      PartsAreWellEscaped(parts[1..]);
    }
  }

  lemma {:induction false} SurvivorsAreWritten(segments: seq<string>, rooted: bool, stack: seq<string>)
    ensures forall s :: s in ResolveWritten(segments, rooted, stack) ==> s in segments || s in stack
  {
    if segments != [] {
      SurvivorsAreWritten(segments[1..], rooted, PushWritten(stack, segments[0], rooted));
    }
  }

  /** A path that splices: its canonical spelling has another. */
  lemma StrayPercentIsNotCanonical()
    ensures CanonicalPath("/%%344") == "/%44" && CanonicalPath("/%44") == "/D"
  {
    SpliceRespells();
    CleanOneSegment("%44");
    CleanOneSegment("D");
  }

  lemma SpliceRespells()
    ensures Normalize("/%%344") == "/%44" && Normalize("/%44") == "/D"
  {
    var s := "/%%344";
    assert s[1..] == "%%344" && s[1..][1..] == "%344" && s[1..][1..][3..] == "4";
    assert Normalize("4") == "4";
    assert Normalize("%344") == "44";
    assert Normalize("%%344") == "%44";
    assert "/%44"[1..] == "%44" && "%44"[3..] == "";
    assert Normalize("%44") == "D";
  }

  lemma CleanOneSegment(name: string)
    requires name != "" && name != "." && name != ".." && '/' !in name
    ensures Clean("/" + name) == "/" + name
  {
    CleanOfSettled([name], true);
    assert Join([name], '/') == name;
  }

  // ---- the redirect ---------------------------------------------------------------------

  /** `redirectToCanonical`: the target, or None when the request already is canonical. */
  function Redirect(escaped: string, canonical: string, query: string): Option<string> {
    if canonical == escaped then None
    else Some(if query != "" then canonical + "?" + query else canonical)
  }

  /** A redirect is never followed by another: the path it names is answered. */
  lemma OneRedirectAtMost(p: string, query: string)
    requires WellEscaped(p)
    ensures Redirect(p, CanonicalPath(p), query).Some? <==> p != CanonicalPath(p)
    ensures Redirect(CanonicalPath(p), CanonicalPath(CanonicalPath(p)), query) == None
  {
    WellEscapedSplicesNothing(p);
  }

  // ---- a segment that steps up the path ----------------------------------------------

  predicate StepsUp(segment: string) {
    '%' in segment && (!WellEscaped(segment) || ".." in Split(Unescape(segment).value, '/'))
  }

  predicate SomeStepsUp(escaped: string) {
    exists j :: 0 <= j < |Split(escaped, '/')| && StepsUp(Split(escaped, '/')[j])
  }

  method SlashAlias(escaped: string) returns (alias: bool)
    ensures alias <==> SomeStepsUp(escaped)
  {
    if '%' !in escaped {
      forall j | 0 <= j < |Split(escaped, '/')| ensures !StepsUp(Split(escaped, '/')[j]) {
        PartsHoldNothingNew(escaped, '/', Split(escaped, '/')[j]);
      }
      return false;
    }
    var segments := Split(escaped, '/');
    for i := 0 to |segments|
      invariant forall j :: 0 <= j < i ==> !StepsUp(segments[j])
    {
      var segment := segments[i];
      if '%' !in segment {
        continue;
      }
      var decoded := Unescape(segment);
      if decoded.None? {
        return true;
      }
      var parts := Split(decoded.value, '/');
      for k := 0 to |parts|
        invariant forall j :: 0 <= j < k ==> parts[j] != ".."
      {
        if parts[k] == ".." {
          assert StepsUp(segment);
          return true;
        }
      }
    }
    return false;
  }

  lemma {:induction false} PartsHoldNothingNew(s: string, sep: char, part: string)
    requires part in Split(s, sep)
    ensures forall c :: c in part ==> c in s
  {
    if s != [] {
      var rest := Split(s[1..], sep);
      if s[0] == sep || part in rest[1..] {
        if part != [] {
          PartsHoldNothingNew(s[1..], sep, part);
        }
      } else {
        PartsHoldNothingNew(s[1..], sep, rest[0]);
      }
    }
  }
}
