/**
 How cache.go reads a Cache-Control line: quoted strings, the quote that is never closed, and the
 split into directives.
 */
module Directives {
  /** A reader is outside a quoted string, inside one, or right after a backslash inside one. */
  datatype Quoting = Plain | Quoted | Escaped

  function Read(q: Quoting, c: char): Quoting {
    match q
    case Escaped => Quoted
    case Quoted => if c == '\\' then Escaped else if c == '"' then Plain else Quoted
    case Plain => if c == '"' then Quoted else Plain
  }

  function Run(q: Quoting, s: string): Quoting
    decreases |s|
  {
    if s == [] then q else Run(Read(q, s[0]), s[1..])
  }

  /** Read from inside a quoted string, the text never leaves it. */
  predicate Stays(q: Quoting, s: string)
    decreases |s|
  {
    q != Plain && (s == [] || Stays(Read(q, s[0]), s[1..]))
  }

  /** The commas of the text are all inside quoted strings. */
  predicate Guarded(q: Quoting, s: string)
    decreases |s|
  {
    s == [] || ((s[0] == ',' ==> q != Plain) && Guarded(Read(q, s[0]), s[1..]))
  }

  predicate NoComma(s: string) {
    forall j :: 0 <= j < |s| ==> s[j] != ','
  }

  // ---- the unbalanced quote ----------------------------------------------------------------

  /** Where the reading as quoted strings stops: at the quote that is never closed, or the end. */
  predicate IsStop(line: string, stop: nat) {
    && stop <= |line| && Run(Plain, line[..stop]) == Plain
    && (stop < |line| ==> line[stop] == '"' && Stays(Quoted, line[stop + 1..]))
  }

  lemma {:induction false} RunPlus(q: Quoting, a: string, b: string)
    ensures Run(q, a + b) == Run(Run(q, a), b)
    decreases |a|
  {
    if a == [] {
      assert a + b == b;
    } else {
      assert (a + b)[1..] == a[1..] + b;
      RunPlus(Read(q, a[0]), a[1..], b);
    }
  }

  lemma {:induction false} StaysPlus(q: Quoting, a: string, b: string)
    ensures Stays(q, a + b) <==> Stays(q, a) && Stays(Run(q, a), b)
    decreases |a|
  {
    if a == [] {
      assert a + b == b;
    } else {
      assert (a + b)[1..] == a[1..] + b;
      StaysPlus(Read(q, a[0]), a[1..], b);
    }
  }

  lemma {:induction false} StaysRuns(q: Quoting, s: string)
    requires Stays(q, s)
    ensures Run(q, s) != Plain
    decreases |s|
  {
    if s != [] {
      StaysRuns(Read(q, s[0]), s[1..]);
    }
  }

  /** There is one such place. */
  lemma OneStop(line: string, a: nat, b: nat)
    requires IsStop(line, a) && IsStop(line, b)
    ensures a == b
  {
    if a < b {
      StopsEarlier(line, a, b);
    } else if b < a {
      StopsEarlier(line, b, a);
    }
  }

  lemma StopsEarlier(line: string, a: nat, b: nat)
    requires IsStop(line, a) && a < b <= |line|
    ensures Run(Plain, line[..b]) != Plain
  {
    assert line[..b] == line[..a] + ([line[a]] + line[a + 1..b]);
    RunPlus(Plain, line[..a], [line[a]] + line[a + 1..b]);
    assert ([line[a]] + line[a + 1..b])[1..] == line[a + 1..b];
    assert line[a + 1..] == line[a + 1..b] + line[b..];
    StaysPlus(Quoted, line[a + 1..b], line[b..]);
    StaysRuns(Quoted, line[a + 1..b]);
  }

  lemma RunNext(line: string, i: nat)
    requires i < |line|
    ensures Run(Plain, line[..i + 1]) == Read(Run(Plain, line[..i]), line[i])
  {
    assert line[..i + 1] == line[..i] + [line[i]];
    RunPlus(Plain, line[..i], [line[i]]);
    assert [line[i]][1..] == [];
  }

  /** `unbalancedQuoteAt`. */
  method UnbalancedQuoteAt(line: string) returns (stop: nat)
    ensures IsStop(line, stop)
  {
    hide Run, Stays;
    var open, quoted, escaped := 0, false, false;
    RunNothing();
    for i := 0 to |line|
      invariant open <= i
      invariant Run(Plain, line[..i]) == if escaped then Escaped else if quoted then Quoted else Plain
      invariant escaped ==> quoted
      invariant quoted ==> open < i && line[open] == '"' && Run(Plain, line[..open]) == Plain && Stays(Quoted, line[open + 1..i])
                           && Run(Quoted, line[open + 1..i]) == Run(Plain, line[..i])
    {
      RunNext(line, i);
      if quoted {
        StaysNext(line, open, i);
      }
      assert line[i + 1..i + 1] == [];
      StaysNothing();
      var c := line[i];
      if escaped {
        escaped := false;
      } else if quoted && c == '\\' {
        escaped := true;
      } else if c == '"' {
        quoted := !quoted;
        if quoted {
          open := i;
        }
      }
    }
    assert line[..|line|] == line;
    if quoted {
      assert line[open + 1..] == line[open + 1..|line|];
      return open;
    }
    return |line|;
  }

  lemma RunNothing()
    ensures Run(Plain, []) == Plain
  {
  }

  lemma StaysNothing()
    ensures Stays(Quoted, []) && Run(Quoted, []) == Quoted
  {
  }

  lemma StaysNext(line: string, open: nat, i: nat)
    requires open < i < |line| && Stays(Quoted, line[open + 1..i])
    ensures Run(Quoted, line[open + 1..i + 1]) == Read(Run(Quoted, line[open + 1..i]), line[i])
    ensures Stays(Quoted, line[open + 1..i + 1]) <==> Read(Run(Quoted, line[open + 1..i]), line[i]) != Plain
  {
    var s, c := line[open + 1..i], line[i];
    assert line[open + 1..i + 1] == s + [c];
    RunPlus(Quoted, s, [c]);
    StaysPlus(Quoted, s, [c]);
    StaysRuns(Quoted, s);
    assert [c][1..] == [];
  }

  // ---- the split ---------------------------------------------------------------------------

  /** From the stop on, a quote is an ordinary character; `ahead` is how far away the stop is. */
  function ReadTo(q: Quoting, c: char, ahead: int): Quoting {
    if c == '"' && ahead <= 0 then if q == Escaped then Quoted else q else Read(q, c)
  }

  function Cut(q: Quoting, field: string, s: string, ahead: int): seq<string>
    decreases |s|
  {
    if s == [] then [field]
    else if s[0] == ',' && q == Plain then [field] + Cut(Plain, [], s[1..], ahead - 1)
    else Cut(ReadTo(q, s[0], ahead), field + [s[0]], s[1..], ahead - 1)
  }

  /** The directives of a line whose reading as quoted strings stops at `stop`. */
  function DirectivesOf(line: string, stop: nat): seq<string> {
    Cut(Plain, [], line, stop)
  }

  /** `splitDirectives`. */
  method SplitDirectives(line: string) returns (fields: seq<string>, ghost stop: nat)
    ensures IsStop(line, stop)
    ensures forall s: nat :: IsStop(line, s) ==> fields == DirectivesOf(line, s)
  {
    hide IsStop, Cut;
    var at := UnbalancedQuoteAt(line);
    stop := at;
    forall s: nat | IsStop(line, s) ensures s == at {
      OneStop(line, s, at);
    }
    fields := [];
    var start, quoted, escaped := 0, false, false;
    assert line[0..0] == [] && line[0..] == line;
    for i := 0 to |line|
      invariant start <= i && (escaped ==> quoted)
      invariant fields + Cut(if escaped then Escaped else if quoted then Quoted else Plain, line[start..i], line[i..], stop - i)
                == DirectivesOf(line, stop)
    {
      var c := line[i];
      CutNext(if escaped then Escaped else if quoted then Quoted else Plain, line[start..i], line[i..], stop - i);
      assert line[i..][1..] == line[i + 1..] && line[start..i + 1] == line[start..i] + [c];
      if escaped {
        escaped := false;
      } else if quoted && c == '\\' {
        escaped := true;
      } else if c == '"' && i < at {
        quoted := !quoted;
      } else if c == ',' && !quoted {
        assert line[i + 1..i + 1] == [];
        fields := fields + [line[start..i]];
        start := i + 1;
      }
    }
    assert line[|line|..] == [] && line[start..|line|] == line[start..];
    CutNext(if escaped then Escaped else if quoted then Quoted else Plain, line[start..], [], stop - |line|);
    fields := fields + [line[start..]];
  }

  lemma CutNext(q: Quoting, field: string, s: string, ahead: int)
    ensures Cut(q, field, s, ahead) ==
            if s == [] then [field]
            else if s[0] == ',' && q == Plain then [field] + Cut(Plain, [], s[1..], ahead - 1)
            else Cut(ReadTo(q, s[0], ahead), field + [s[0]], s[1..], ahead - 1)
  {
  }

  // ---- what a list of directives looks like --------------------------------------------------

  function Joined(fields: seq<string>): string {
    if |fields| == 0 then [] else if |fields| == 1 then fields[0] else fields[0] + [','] + Joined(fields[1..])
  }

  predicate Balanced(f: string) {
    Run(Plain, f) == Plain && Guarded(Plain, f)
  }

  /** A field read from inside a string that it does not close. */
  predicate Trailing(f: string) {
    NoComma(f) && Stays(Quoted, f)
  }

  /** A field that opens, at `o`, a string nothing after it closes. */
  predicate OpensAt(f: string, o: nat) {
    o < |f| && Balanced(f[..o]) && f[o] == '"' && Trailing(f[o + 1..])
  }

  ghost predicate Opens(f: string) {
    exists o :: OpensAt(f, o)
  }

  predicate AllTrailing(fields: seq<string>) {
    forall j :: 0 <= j < |fields| ==> Trailing(fields[j])
  }

  /** Balanced fields; then, perhaps, one that opens a string, and fields inside that string. */
  ghost predicate Laid(fields: seq<string>) {
    fields == [] ||
    (if Balanced(fields[0]) then Laid(fields[1..]) else Opens(fields[0]) && AllTrailing(fields[1..]))
  }

  /** Where the reading stops in the join of such fields. */
  ghost function StopOf(fields: seq<string>): nat
    requires Laid(fields)
  {
    if fields == [] then 0
    else if Balanced(fields[0]) then
      if |fields| == 1 then |fields[0]| else |fields[0]| + 1 + StopOf(fields[1..])
    else var o: nat :| OpensAt(fields[0], o); o
  }

  // ---- cutting a join gives the fields back -----------------------------------------------------

  lemma {:induction false} GuardedPlus(q: Quoting, a: string, b: string)
    ensures Guarded(q, a + b) <==> Guarded(q, a) && Guarded(Run(q, a), b)
    decreases |a|
  {
    if a == [] {
      assert a + b == b;
    } else {
      assert (a + b)[1..] == a[1..] + b;
      GuardedPlus(Read(q, a[0]), a[1..], b);
    }
  }

  /** Text wholly before the stop, its commas guarded, goes into the field as it is. */
  lemma {:induction false} CutGuarded(q: Quoting, field: string, a: string, tail: string, ahead: int)
    requires Guarded(q, a) && |a| <= ahead
    ensures Cut(q, field, a + tail, ahead) == Cut(Run(q, a), field + a, tail, ahead - |a|)
    decreases |a|
  {
    if a == [] {
      assert a + tail == tail && field + a == field;
    } else {
      assert (a + tail)[1..] == a[1..] + tail && (a + tail)[0] == a[0];
      CutGuarded(Read(q, a[0]), field + [a[0]], a[1..], tail, ahead - 1);
      assert field + [a[0]] + a[1..] == field + a;
    }
  }

  /** From the stop on, text without a comma goes into the field as it is. */
  lemma {:induction false} CutTrailing(field: string, a: string, tail: string, ahead: int)
    requires NoComma(a) && ahead <= 0
    ensures Cut(Plain, field, a + tail, ahead) == Cut(Plain, field + a, tail, ahead - |a|)
    decreases |a|
  {
    if a == [] {
      assert a + tail == tail && field + a == field;
    } else {
      assert (a + tail)[1..] == a[1..] + tail && (a + tail)[0] == a[0];
      CutTrailing(field + [a[0]], a[1..], tail, ahead - 1);
      assert field + [a[0]] + a[1..] == field + a;
    }
  }

  lemma CutComma(field: string, tail: string, ahead: int)
    ensures Cut(Plain, field, [','] + tail, ahead) == [field] + Cut(Plain, [], tail, ahead - 1)
  {
    assert ([','] + tail)[1..] == tail;
  }

  lemma {:induction false} CutAllTrailing(fields: seq<string>, ahead: int)
    requires fields != [] && AllTrailing(fields) && ahead <= 0
    ensures Cut(Plain, [], Joined(fields), ahead) == fields
    decreases |fields|
  {
    hide Cut, Stays;
    var f := fields[0];
    assert [] + f == f;
    if |fields| == 1 {
      CutTrailing([], f, [], ahead);
      CutNext(Plain, f, [], ahead - |f|);
      assert f + [] == f;
    } else {
      var tail := [','] + Joined(fields[1..]);
      CutAllTrailing(fields[1..], ahead - |f| - 1);
      hide AllTrailing, NoComma;
      assert Joined(fields) == f + tail;
      CutTrailing([], f, tail, ahead);
      CutComma(f, Joined(fields[1..]), ahead - |f|);
    }
  }

  lemma {:induction false} JoinedStays(q: Quoting, fields: seq<string>)
    requires AllTrailing(fields) && q == Quoted
    ensures Stays(q, Joined(fields))
    decreases |fields|
  {
    if |fields| > 1 {
      JoinedStays(Quoted, fields[1..]);
      var f, rest := fields[0], Joined(fields[1..]);
      StaysRuns(Quoted, f);
      assert ([','] + rest)[1..] == rest;
      StaysPlus(Quoted, f, [','] + rest);
      assert Joined(fields) == f + ([','] + rest);
    }
  }

  /** The field that opens the string, and all that follows it. */
  lemma OpeningIsCut(fields: seq<string>, o: nat)
    requires fields != [] && OpensAt(fields[0], o) && AllTrailing(fields[1..])
    ensures IsStop(Joined(fields), o) && DirectivesOf(Joined(fields), o) == fields
  {
    hide Cut, Stays, Run, Guarded, Joined, AllTrailing;
    var a, b := fields[0][..o], fields[0][o + 1..];
    var tail := if |fields| == 1 then [] else [','] + Joined(fields[1..]);
    OpeningParts(fields, o, a, b, tail);
    OpeningCut(a, b, tail);
    TailIsCut(fields, fields[0], tail, -1 - |b|);
    TailStays(fields, b, tail);
  }

  lemma OpeningParts(fields: seq<string>, o: nat, a: string, b: string, tail: string)
    requires fields != [] && o < |fields[0]| && fields[0][o] == '"' && a == fields[0][..o] && b == fields[0][o + 1..]
    requires tail == if |fields| == 1 then [] else [','] + Joined(fields[1..])
    ensures var line := Joined(fields);
            && fields[0] == a + ['"'] + b && line == a + (['"'] + (b + tail))
            && line[..o] == a && line[o] == '"' && line[o + 1..] == b + tail
  {
    assert fields[0] == a + ['"'] + b;
    assert Joined(fields) == fields[0] + tail;
  }

  lemma OpeningCut(a: string, b: string, tail: string)
    requires Balanced(a) && NoComma(b)
    ensures Cut(Plain, [], a + (['"'] + (b + tail)), |a|) == Cut(Plain, a + ['"'] + b, tail, -1 - |b|)
  {
    hide Cut, Run, Guarded;
    var rest := ['"'] + (b + tail);
    CutGuarded(Plain, [], a, rest, |a|);
    assert [] + a == a;
    CutNext(Plain, a, rest, 0);
    assert rest[1..] == b + tail;
    CutTrailing(a + ['"'], b, tail, -1);
  }

  lemma TailIsCut(fields: seq<string>, f: string, tail: string, ahead: int)
    requires fields != [] && fields[0] == f && AllTrailing(fields[1..]) && ahead < 0
    requires tail == if |fields| == 1 then [] else [','] + Joined(fields[1..])
    ensures Cut(Plain, f, tail, ahead) == fields
  {
    hide Cut, Stays;
    if |fields| == 1 {
      CutNext(Plain, f, [], ahead);
    } else {
      CutComma(f, Joined(fields[1..]), ahead);
      CutAllTrailing(fields[1..], ahead - 1);
    }
  }

  lemma TailStays(fields: seq<string>, b: string, tail: string)
    requires fields != [] && AllTrailing(fields[1..]) && Trailing(b)
    requires tail == if |fields| == 1 then [] else [','] + Joined(fields[1..])
    ensures Stays(Quoted, b + tail)
  {
    if |fields| == 1 {
      assert b + tail == b;
    } else {
      StaysRuns(Quoted, b);
      JoinedStays(Quoted, fields[1..]);
      assert tail[1..] == Joined(fields[1..]);
      StaysPlus(Quoted, b, tail);
    }
  }

  /** The key property: such fields, joined by commas, are read back as they are. */
  lemma {:induction false} JoinedIsCut(fields: seq<string>)
    requires fields != [] && Laid(fields)
    ensures IsStop(Joined(fields), StopOf(fields)) && DirectivesOf(Joined(fields), StopOf(fields)) == fields
    decreases |fields|
  {
    hide Cut, Stays, Run, Guarded, OpensAt, AllTrailing;
    var f, stop := fields[0], StopOf(fields);
    if !Balanced(f) {
      OpeningIsCut(fields, stop);
    } else if |fields| == 1 {
      CutGuarded(Plain, [], f, [], stop);
      CutNext(Plain, f, [], 0);
      assert f + [] == f && [] + f == f && f[..|f|] == f;
    } else {
      JoinedIsCut(fields[1..]);
      BalancedFirst(f, Joined(fields[1..]), StopOf(fields[1..]));
    }
  }

  /** A balanced field ahead of a line moves its stop along, and is cut off whole. */
  lemma BalancedFirst(f: string, rest: string, stop: nat)
    requires Balanced(f) && IsStop(rest, stop)
    ensures var line := f + [','] + rest;
            IsStop(line, |f| + 1 + stop) && DirectivesOf(line, |f| + 1 + stop) == [f] + DirectivesOf(rest, stop)
  {
    hide Cut, Stays, Run, Guarded;
    var line := f + [','] + rest;
    assert line == f + ([','] + rest) && [] + f == f;
    CutGuarded(Plain, [], f, [','] + rest, |f| + 1 + stop);
    CutComma(f, rest, 1 + stop);
    assert line[..|f| + 1 + stop] == f + ([','] + rest[..stop]);
    RunPlus(Plain, f, [','] + rest[..stop]);
    RunComma(rest[..stop]);
    assert stop < |rest| ==> line[|f| + 1 + stop] == rest[stop] && line[|f| + 1 + stop + 1..] == rest[stop + 1..];
  }

  lemma RunComma(s: string)
    ensures Run(Plain, [','] + s) == Run(Plain, s)
  {
    assert ([','] + s)[1..] == s;
  }

  // ---- what is cut is such a list --------------------------------------------------------------

  lemma {:induction false} AfterTheStop(field: string, s: string, ahead: int)
    requires Trailing(field) && Stays(Run(Quoted, field), s) && ahead < 0
    ensures var fields := Cut(Plain, field, s, ahead);
            fields != [] && AllTrailing(fields) && Joined(fields) == field + s
    decreases |s|
  {
    hide Run, Stays;
    CutNext(Plain, field, s, ahead);
    if s == [] {
      assert field + s == field;
    } else if s[0] == ',' {
      StaysComma(Run(Quoted, field), s);
      StaysNothing();
      AfterTheStop([], s[1..], ahead - 1);
      JoinedFirst(field, Cut(Plain, [], s[1..], ahead - 1));
      assert s == [','] + ([] + s[1..]);
    } else {
      FieldGrows(field, s);
      AfterTheStop(field + [s[0]], s[1..], ahead - 1);
      assert field + [s[0]] + s[1..] == field + s;
    }
  }

  lemma JoinedFirst(field: string, rest: seq<string>)
    requires rest != []
    ensures Joined([field] + rest) == field + ([','] + Joined(rest))
  {
    assert ([field] + rest)[1..] == rest;
  }

  lemma StaysComma(q: Quoting, s: string)
    requires s != [] && s[0] == ',' && Stays(q, s)
    ensures Stays(Quoted, s[1..])
  {
  }

  /** One character more of a field inside the string. */
  lemma FieldGrows(field: string, s: string)
    requires Trailing(field) && s != [] && s[0] != ',' && Stays(Run(Quoted, field), s)
    ensures Trailing(field + [s[0]]) && Stays(Run(Quoted, field + [s[0]]), s[1..])
  {
    RunPlus(Quoted, field, [s[0]]);
    StaysPlus(Quoted, field, [s[0]]);
    assert [s[0]][1..] == [];
  }

  lemma {:induction false} AtTheStop(a: string, b: string, s: string, ahead: int)
    requires Balanced(a) && Trailing(b) && Stays(Run(Quoted, b), s) && ahead < 0
    ensures var fields := Cut(Plain, a + ['"'] + b, s, ahead);
            fields != [] && OpensAt(fields[0], |a|) && AllTrailing(fields[1..]) && Joined(fields) == a + ['"'] + b + s
    decreases |s|
  {
    hide Run, Stays, Guarded;
    var field := a + ['"'] + b;
    CutNext(Plain, field, s, ahead);
    assert field[..|a|] == a && field[|a|] == '"' && field[|a| + 1..] == b;
    if s == [] {
      assert field + s == field;
    } else if s[0] == ',' {
      StaysComma(Run(Quoted, b), s);
      StaysNothing();
      AfterTheStop([], s[1..], ahead - 1);
      JoinedFirst(field, Cut(Plain, [], s[1..], ahead - 1));
      assert s == [','] + ([] + s[1..]);
    } else {
      FieldGrows(b, s);
      AtTheStop(a, b + [s[0]], s[1..], ahead - 1);
      assert a + ['"'] + (b + [s[0]]) == field + [s[0]];
      assert field + [s[0]] + s[1..] == field + s;
    }
  }

  lemma {:induction false} UpToTheStop(q: Quoting, field: string, s: string, ahead: nat)
    requires Guarded(Plain, field) && q == Run(Plain, field) && ahead <= |s| && Run(q, s[..ahead]) == Plain
    requires ahead < |s| ==> s[ahead] == '"' && Stays(Quoted, s[ahead + 1..])
    ensures var fields := Cut(q, field, s, ahead);
            fields != [] && Laid(fields) && Joined(fields) == field + s
    decreases |s|
  {
    hide Run, Stays, Guarded, OpensAt, AllTrailing;
    CutNext(q, field, s, ahead);
    RunsOne(q, s, ahead);
    if s == [] {
      assert field + s == field;
      LaidOne(field);
    } else if ahead == 0 {
      assert field + ['"'] + [] == field + ['"'];
      StaysNothing();
      AtTheStop(field, [], s[1..], -1);
      LaidOpened(Cut(Plain, field + ['"'] + [], s[1..], -1), |field|);
      assert field + ['"'] + [] + s[1..] == field + s;
    } else if s[0] == ',' && q == Plain {
      OneNearer(s, ahead);
      NothingGuarded();
      UpToTheStop(Plain, [], s[1..], ahead - 1);
      var rest := Cut(Plain, [], s[1..], ahead - 1);
      JoinedFirst(field, rest);
      LaidFirst(field, rest);
      assert s == [','] + ([] + s[1..]);
    } else {
      OneNearer(s, ahead);
      GuardGrows(q, field, s[0]);
      UpToTheStop(Read(q, s[0]), field + [s[0]], s[1..], ahead - 1);
      assert field + [s[0]] + s[1..] == field + s;
    }
  }

  lemma OneNearer(s: string, n: nat)
    requires 0 < n <= |s|
    ensures s[1..][..n - 1] == s[..n][1..]
    ensures n < |s| ==> s[1..][n - 1] == s[n] && s[1..][n..] == s[n + 1..]
  {
  }

  lemma RunsOne(q: Quoting, s: string, n: nat)
    requires n <= |s|
    ensures Run(q, s[..n]) == if n == 0 then q else Run(Read(q, s[0]), s[..n][1..])
  {
  }

  lemma NothingGuarded()
    ensures Guarded(Plain, []) && Run(Plain, []) == Plain
  {
  }

  lemma GuardGrows(q: Quoting, field: string, c: char)
    requires Guarded(Plain, field) && q == Run(Plain, field) && !(c == ',' && q == Plain)
    ensures Guarded(Plain, field + [c]) && Run(Plain, field + [c]) == Read(q, c)
  {
    GuardedPlus(Plain, field, [c]);
    RunPlus(Plain, field, [c]);
    assert [c][1..] == [];
  }

  lemma LaidOne(field: string)
    requires Balanced(field)
    ensures Laid([field])
  {
    assert [field][1..] == [];
  }

  lemma LaidFirst(field: string, rest: seq<string>)
    requires Balanced(field) && Laid(rest)
    ensures Laid([field] + rest)
  {
    assert ([field] + rest)[1..] == rest;
  }

  /** A field that opens a string is not balanced. */
  lemma OpenIsUnbalanced(f: string, o: nat)
    requires OpensAt(f, o)
    ensures Run(Plain, f) != Plain
  {
    assert f == f[..o] + (['"'] + f[o + 1..]);
    RunPlus(Plain, f[..o], ['"'] + f[o + 1..]);
    assert (['"'] + f[o + 1..])[1..] == f[o + 1..];
    StaysRuns(Quoted, f[o + 1..]);
  }

  lemma LaidOpened(fields: seq<string>, o: nat)
    requires fields != [] && OpensAt(fields[0], o) && AllTrailing(fields[1..])
    ensures Laid(fields)
  {
    OpenIsUnbalanced(fields[0], o);
  }

  /** Every line is the join of its directives, and they are balanced up to the stop. */
  lemma DirectivesAreLaid(line: string, stop: nat)
    requires IsStop(line, stop)
    ensures var fields := DirectivesOf(line, stop);
            fields != [] && Laid(fields) && Joined(fields) == line && stop == StopOf(fields)
  {
    hide Run, Stays, Guarded, Laid, Cut;
    NothingGuarded();
    UpToTheStop(Plain, [], line, stop);
    assert [] + line == line;
    JoinedIsCut(DirectivesOf(line, stop));
    OneStop(line, stop, StopOf(DirectivesOf(line, stop)));
  }

  // ---- which directives lie before the stop -------------------------------------------------------

  /** Where a directive begins in the line. */
  function Offset(fields: seq<string>, j: nat): nat
    requires j <= |fields|
  {
    if j == 0 then 0 else |fields[0]| + 1 + Offset(fields[1..], j - 1)
  }

  predicate AllBalanced(fields: seq<string>) {
    forall i :: 0 <= i < |fields| ==> Balanced(fields[i])
  }

  /** A directive lies wholly before the stop if and only if it and those before it are balanced. */
  lemma {:induction false} ReadableIsBalanced(fields: seq<string>, j: nat)
    requires Laid(fields) && j < |fields|
    ensures Offset(fields, j) + |fields[j]| <= StopOf(fields) <==> AllBalanced(fields[..j + 1])
    decreases j
  {
    hide Run, Guarded;
    var f := fields[0];
    if !Balanced(f) {
      var o := StopOf(fields);
      assert OpensAt(f, o);
      assert fields[..j + 1][0] == f;
      OffsetIsPast(fields, j);
    } else if j > 0 {
      ReadableIsBalanced(fields[1..], j - 1);
      assert fields[..j + 1] == [f] + fields[1..][..j];
    }
  }

  lemma OffsetIsPast(fields: seq<string>, j: nat)
    requires j < |fields|
    ensures Offset(fields, j) + |fields[j]| >= |fields[0]|
  {
  }
}
