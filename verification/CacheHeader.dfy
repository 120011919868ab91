/**
 The header map `privateIfCookies` rewrites (cache.go).

 The loops over its lines and directives are proved against the guard's functions on values,
 and the map afterwards is stated whole. A field may be under several spellings of its name, and
 all of them are read and replaced.
 */
module CacheHeader {
  import opened CacheGuard
  import opened Directives
  import opened Wrappers

  function Lower(c: char): char {
    if 'A' <= c <= 'Z' then c - 'A' + 'a' else c
  }

  /** Canonical field names differ from their other spellings in case and in nothing else. */
  predicate SameField(key: string, canonical: string) {
    |key| == |canonical| && forall j :: 0 <= j < |key| ==> Lower(key[j]) == Lower(canonical[j])
  }

  /** One field under two spellings: letter by letter the same, or the same letter in the other case. */
  lemma SameFieldIs(key: string, canonical: string)
    ensures SameField(key, canonical) <==>
              |key| == |canonical| && forall j :: 0 <= j < |key| ==>
                || key[j] == canonical[j]
                || (65 <= key[j] as int <= 90 && canonical[j] as int == key[j] as int + 32)
                || (65 <= canonical[j] as int <= 90 && key[j] as int == canonical[j] as int + 32)
  {
  }

  /** The keys a field is under, each once. */
  predicate FieldKeys(h: map<string, seq<string>>, canonical: string, keys: seq<string>) {
    && (forall k :: k in h && SameField(k, canonical) ==> k in keys)
    && (forall j :: 0 <= j < |keys| ==> keys[j] in h && SameField(keys[j], canonical))
    && (forall i, j :: 0 <= i < j < |keys| ==> keys[i] != keys[j])
  }

  function LinesOf(h: map<string, seq<string>>, keys: seq<string>): seq<string>
    requires forall j :: 0 <= j < |keys| ==> keys[j] in h
  {
    if keys == [] then [] else LinesOf(h, keys[..|keys| - 1]) + h[keys[|keys| - 1]]
  }

  // ---- the seams ---------------------------------------------------------------------------

  lemma {:induction false} RunToNext(q: Quoting, s: string, i: nat, ahead: int)
    requires i < |s|
    ensures RunTo(q, s[..i + 1], ahead) == ReadTo(RunTo(q, s[..i], ahead), s[i], ahead - i)
    decreases i
  {
    assert s[..i + 1][1..] == s[1..][..i];
    if i > 0 {
      assert s[..i][1..] == s[1..][..i - 1];
      RunToNext(ReadTo(q, s[0], ahead), s[1..], i - 1, ahead - 1);
    } else {
      assert s[1..][..0] == [] && s[..0] == [];
    }
  }

  function Shifted(ahead: nat, seams: set<nat>): set<nat> {
    set k | k in seams :: ahead + k
  }

  lemma SeamsNext(lines: seq<string>, i: nat, at: nat, found: set<nat>)
    requires i + 1 < |lines| && Seams(lines) == found + Shifted(at, Seams(lines[i..]))
    ensures Seams(lines) == (found + {at + |lines[i]|}) + Shifted(at + |lines[i]| + 1, Seams(lines[i + 1..]))
  {
    hide Seams, Shifted;
    var rest := lines[i..];
    assert rest[0] == lines[i] && rest[1..] == lines[i + 1..];
    SeamsFirst(rest);
    ShiftedTwice(at, |lines[i]|, Seams(lines[i + 1..]));
  }

  lemma SeamsFirst(lines: seq<string>)
    requires |lines| >= 2
    ensures Seams(lines) == {|lines[0]|} + Shifted(|lines[0]| + 1, Seams(lines[1..]))
  {
  }

  lemma ShiftedTwice(at: nat, n: nat, seams: set<nat>)
    ensures Shifted(at, {n} + Shifted(n + 1, seams)) == {at + n} + Shifted(at + n + 1, seams)
  {
    var inner := {n} + Shifted(n + 1, seams);
    assert n in inner;
    forall m | m in seams ensures n + 1 + m in inner {
      assert n + 1 + m in Shifted(n + 1, seams);
    }
  }

  /** `quotedSpanCrossesALine`. */
  method QuotedSpanCrossesALine(lines: seq<string>, value: string, stop: nat) returns (crosses: bool)
    ensures crosses == Crosses(lines, value, stop)
  {
    hide Seams, RunTo, Shifted;
    if |lines| < 2 {
      NoSeams(lines);
      return false;
    }
    var boundary: set<nat> := {};
    var at: nat := 0;
    NothingShifted(lines);
    for i := 0 to |lines| - 1
      invariant Seams(lines) == boundary + Shifted(at, Seams(lines[i..]))
    {
      SeamsNext(lines, i, at, boundary);
      at := at + |lines[i]|;
      boundary := boundary + {at};
      at := at + 1;
    }
    LastSeams(lines[|lines| - 1..], at);
    assert boundary == Seams(lines);
    var quoted, escaped := false, false;
    RunToNothing(value, stop);
    for i := 0 to |value|
      invariant RunTo(Plain, value[..i], stop) == if escaped then Escaped else if quoted then Quoted else Plain
      invariant escaped ==> quoted
      invariant forall k :: k in Seams(lines) && k < i ==> RunTo(Plain, value[..k], stop) == Plain
    {
      if quoted && i in boundary {
        return true;
      }
      RunToNext(Plain, value, i, stop);
      var c := value[i];
      if escaped {
        escaped := false;
      } else if quoted && c == '\\' {
        escaped := true;
      } else if c == '"' && i < stop {
        quoted := !quoted;
      }
    }
    return false;
  }

  lemma NoSeams(lines: seq<string>)
    requires |lines| < 2
    ensures Seams(lines) == {}
  {
  }

  lemma LastSeams(lines: seq<string>, at: nat)
    requires |lines| < 2
    ensures Shifted(at, Seams(lines)) == {}
  {
  }

  lemma NothingShifted(lines: seq<string>)
    ensures Shifted(0, Seams(lines[0..])) == Seams(lines)
  {
    assert lines[0..] == lines;
    forall k ensures k in Shifted(0, Seams(lines)) <==> k in Seams(lines) {
      if k in Seams(lines) {
        assert 0 + k in Shifted(0, Seams(lines));
      }
    }
  }

  lemma RunToNothing(value: string, stop: nat)
    ensures RunTo(Plain, value[..0], stop) == Plain
  {
  }

  // ---- the guard itself -----------------------------------------------------------------------

  /** The loop over the directives: what is kept, and what was seen on the way. */
  method Judge(fields: seq<string>, stop: nat) returns (kept: seq<string>, hasPrivate: bool, changed: bool)
    requires Laid(fields) && stop == StopOf(fields)
    ensures kept == KeptAll(fields) && changed == Changes(fields) && hasPrivate == ClaimsReadably(fields)
  {
    hide KeptAll, Laid, Balanced, IsPublic, IsShared, IsPrivate, TrimSpace, Bare, Name;
    kept, hasPrivate, changed := [], false, false;
    var offset := 0;
    KeptNothing();
    for j := 0 to |fields|
      invariant kept == KeptAll(fields[..j]) && offset == Offset(fields, j)
      invariant changed <==> exists i :: 0 <= i < j && (IsPublic(fields[i]) || IsShared(fields[i]))
      invariant hasPrivate <==> exists i :: 0 <= i < j && AllBalanced(fields[..i + 1]) && Claims(fields[i])
    {
      var f := fields[j];
      KeptNext(fields, j);
      OffsetNext(fields, j);
      ReadableIsBalanced(fields, j);
      var readable := offset + |f| <= stop;
      offset := offset + |f| + 1;
      if IsPublic(f) {
        kept := kept + [LeadingSpace(f) + "private"];
        hasPrivate, changed := hasPrivate || readable, true;
      } else if IsShared(f) {
        SharedIsNotPrivate(f);
        changed := true;
      } else if TrimSpace(f) == "" {
        BlankClaimsNothing(f);
      } else {
        hasPrivate := hasPrivate || (readable && IsPrivate(f));
        kept := kept + [f];
      }
    }
    assert fields[..|fields|] == fields;
  }

  lemma KeptNothing()
    ensures KeptAll([]) == []
  {
  }

  lemma {:induction false} KeptPlus(a: seq<string>, b: seq<string>)
    ensures KeptAll(a + b) == KeptAll(a) + KeptAll(b)
  {
    hide Kept;
    if a == [] {
      assert a + b == b;
    } else {
      assert (a + b)[1..] == a[1..] + b;
      KeptPlus(a[1..], b);
    }
  }

  lemma KeptNext(fields: seq<string>, j: nat)
    requires j < |fields|
    ensures KeptAll(fields[..j + 1]) == KeptAll(fields[..j]) + Kept(fields[j])
  {
    hide Kept;
    assert fields[..j + 1] == fields[..j] + [fields[j]];
    KeptPlus(fields[..j], [fields[j]]);
    assert [fields[j]][1..] == [];
  }

  lemma {:induction false} OffsetNext(fields: seq<string>, j: nat)
    requires j < |fields|
    ensures Offset(fields, j + 1) == Offset(fields, j) + |fields[j]| + 1
  {
    if j > 0 {
      OffsetNext(fields[1..], j - 1);
    }
  }

  lemma SharedIsNotPrivate(f: string)
    requires IsShared(f)
    ensures !IsPrivate(f)
  {
  }

  lemma BlankClaimsNothing(f: string)
    requires TrimSpace(f) == ""
    ensures !IsPrivate(f)
  {
    if Bare(f) {
      BareName(f);
    }
  }

  /** The kept directives as one line again. */
  method WriteLine(kept: seq<string>) returns (line: string)
    ensures line == Joined(Spaced(kept))
  {
    hide Joined, Spaced;
    line := "";
    JoinedNothing();
    for i := 0 to |kept|
      invariant line == Joined(Spaced(kept[..i]))
    {
      SpacedNext(kept, i);
      if i > 0 {
        line := line + ",";
        if LeadingSpace(kept[i]) == "" {
          line := line + " ";
        }
      }
      line := line + kept[i];
    }
    assert kept[..|kept|] == kept;
  }

  lemma JoinedNothing()
    ensures Joined(Spaced([])) == ""
  {
  }

  lemma {:induction false} JoinedLast(fields: seq<string>, last: string)
    requires fields != []
    ensures Joined(fields + [last]) == Joined(fields) + "," + last
  {
    if |fields| == 1 {
      assert (fields + [last])[1..] == [last];
    } else {
      assert (fields + [last])[1..] == fields[1..] + [last];
      JoinedLast(fields[1..], last);
    }
  }

  lemma SpacedNext(kept: seq<string>, i: nat)
    requires i < |kept|
    ensures Joined(Spaced(kept[..i + 1])) ==
            if i == 0 then kept[i] else Joined(Spaced(kept[..i])) + "," + (if LeadingSpace(kept[i]) == "" then " " else "") + kept[i]
  {
    hide LeadingSpace;
    if i > 0 {
      assert Spaced(kept[..i + 1]) == Spaced(kept[..i]) + [SpacedOne(kept[i])];
      JoinedLast(Spaced(kept[..i]), SpacedOne(kept[i]));
    } else {
      assert Spaced(kept[..i + 1]) == [kept[i]];
    }
  }

  class Header {
    var fields: map<string, seq<string>>

    constructor (fields: map<string, seq<string>>)
      ensures this.fields == fields
    {
      this.fields := fields;
    }

    method HasField(canonical: string) returns (has: bool)
      ensures has <==> exists k :: k in fields && SameField(k, canonical)
    {
      hide SameField;
      var todo := fields.Keys;
      while todo != {}
        invariant todo <= fields.Keys
        invariant forall k :: k in fields && k !in todo ==> !SameField(k, canonical)
        decreases todo
      {
        var k :| k in todo;
        todo := todo - {k};
        if SameField(k, canonical) {
          return true;
        }
      }
      return false;
    }

    /** `keys` are the spellings the field is under, in the order they go out. */
    method PrivateIfCookies(keys: seq<string>) returns (ghost stop: nat, ghost out: Option<string>)
      requires FieldKeys(fields, "Cache-Control", keys)
      modifies this
      ensures var lines := LinesOf(old(fields), keys);
              if (exists k :: k in old(fields) && SameField(k, "Set-Cookie")) && lines != [] then
                && IsStop(Joined(lines), stop) && Decides(lines, stop, out)
                && fields == Applied(old(fields), keys, out)
              else fields == old(fields)
    {
      hide IsStop, Joined, Crosses, LinesOf, SameField, Spaced, ClaimsReadably, Changes, KeptAll, TrimSpace;
      stop, out := 0, None;
      var has := HasField("Set-Cookie");
      if !has {
        return;
      }
      var lines := Gather(fields, keys);
      if lines == [] {
        return;
      }
      var value := Joined(lines);
      var read, split := SplitDirectives(value);
      stop := split;
      var at := UnbalancedQuoteAt(value);
      OneStop(value, at, stop);
      DirectivesAreLaid(value, stop);
      var kept, hasPrivate, changed := Judge(read, at);
      if !hasPrivate {
        kept := ["private"] + kept;
        changed := true;
      }
      var crosses := QuotedSpanCrossesALine(lines, value, at);
      if !changed && !crosses {
        return;
      }
      var line := WriteLine(kept);
      out := Some(line);
      fields := fields - (set k | k in keys);
      PrivateIsWritten(read);
      if TrimSpace(line) != "" {
        fields := fields["Cache-Control" := [line]];
      }
    }
  }

  /** The one line, under the canonical key, in place of every spelling it was read from. */
  function Applied(h: map<string, seq<string>>, keys: seq<string>, out: Option<string>): map<string, seq<string>> {
    if out.Some? then (h - (set k | k in keys))["Cache-Control" := [out.value]] else h
  }

  method Gather(h: map<string, seq<string>>, keys: seq<string>) returns (lines: seq<string>)
    requires forall j :: 0 <= j < |keys| ==> keys[j] in h
    ensures lines == LinesOf(h, keys)
  {
    lines := [];
    for i := 0 to |keys|
      invariant lines == LinesOf(h, keys[..i])
    {
      assert keys[..i + 1][..i] == keys[..i];
      lines := lines + h[keys[i]];
    }
    assert keys[..|keys|] == keys;
  }

  /** The line the guard writes is never blank. */
  lemma PrivateIsWritten(fields: seq<string>)
    ensures TrimSpace(Joined(Spaced(Private(fields)))) != ""
  {
    PrivateSays(fields);
    SpacedSays(Private(fields));
    SomePrivate(Spaced(Private(fields)));
  }

  lemma SomePrivate(fields: seq<string>)
    requires SaysPrivate(fields)
    ensures TrimSpace(Joined(fields)) != ""
  {
    hide IsPrivate, Balanced, TrimSpace;
    var j :| 0 <= j < |fields| && AllBalanced(fields[..j + 1]) && IsPrivate(fields[j]);
    NotBlank(fields[j]);
    BlankJoin(fields, j);
  }

  predicate Blank(s: string) {
    forall j :: 0 <= j < |s| ==> IsSpace(s[j])
  }

  lemma {:induction false} BlankIsTrimmed(s: string)
    ensures TrimSpace(s) == "" <==> Blank(s)
  {
    LeftBlank(s);
    RightBlank(TrimLeft(s));
  }

  lemma {:induction false} LeftBlank(s: string)
    ensures Blank(TrimLeft(s)) <==> Blank(s)
  {
    hide IsSpace;
    if s != [] && IsSpace(s[0]) {
      LeftBlank(s[1..]);
      assert s == [s[0]] + s[1..];
    }
  }

  lemma {:induction false} RightBlank(s: string)
    ensures TrimRight(s) == "" <==> Blank(s)
  {
    hide IsSpace;
    if s != [] && IsSpace(s[|s| - 1]) {
      RightBlank(s[..|s| - 1]);
      assert s == s[..|s| - 1] + [s[|s| - 1]];
    }
  }

  lemma BlankJoin(fields: seq<string>, j: nat)
    requires j < |fields| && TrimSpace(fields[j]) != ""
    ensures TrimSpace(Joined(fields)) != ""
  {
    hide TrimSpace;
    BlankIsTrimmed(fields[j]);
    BlankIsTrimmed(Joined(fields));
    InJoin(fields, j);
  }

  lemma {:induction false} InJoin(fields: seq<string>, j: nat)
    requires j < |fields| && !Blank(fields[j])
    ensures !Blank(Joined(fields))
  {
    hide IsSpace;
    var i :| 0 <= i < |fields[j]| && !IsSpace(fields[j][i]);
    if j == 0 {
      assert Joined(fields)[i] == fields[j][i];
    } else {
      InJoin(fields[1..], j - 1);
      var k :| 0 <= k < |Joined(fields[1..])| && !IsSpace(Joined(fields[1..])[k]);
      assert Joined(fields)[|fields[0]| + 1 + k] == Joined(fields[1..])[k];
    }
  }
}
