/**
 What the lookup of setup/environment.ts finds in a file after the upsert of setup/set-env.ts, for every
 file.  The two disagree about lines: the lookup splits at '\n' and trims, while the regular expression of
 the upsert neither allows a key to be indented nor ends a line at '\n' only.
 */
module EnvLookup {
  import opened Options
  import opened Text
  import opened EnvFile

  /** What the lookup makes of a stored value. */
  function Stored(value: string): Option<string> {
    if Trim(value) == "" then None else Some(Trim(value))
  }

  // ---------- Reading one line ----------

  lemma {:induction false} TrimEndKeeps(p: string, v: string)
    requires p != "" && !IsSpace(p[|p| - 1])
    ensures TrimEnd(p + v) == p + TrimEnd(v)
    decreases |v|
  {
    hide IsSpaceCode;
    if v == "" {
      assert p + v == p;
    } else if IsSpace(v[|v| - 1]) {
      assert (p + v)[..|p + v| - 1] == p + v[..|v| - 1];
      TrimEndKeeps(p, v[..|v| - 1]);
    }
  }

  /** Text that begins visibly is not trimmed away behind anything. */
  lemma {:induction false} TrimStartKeeps(u: string, s: string)
    requires s != "" && !IsSpace(s[0])
    ensures TrimStart(u + s) == TrimStart(u) + s
    decreases |u|
  {
    hide IsSpaceCode;
    if u == "" {
      assert u + s == s;
    } else {
      assert (u + s)[0] == u[0] && (u + s)[1..] == u[1..] + s;
      if IsSpace(u[0]) { TrimStartKeeps(u[1..], s); }
    }
  }

  /** What is left of a line `b` + key + `=` + `x` when it is trimmed. */
  lemma TrimmedLine(b: string, key: string, x: string)
    requires IsKey(key)
    ensures Trim(b + (key + "=") + x) == TrimStart(b) + (key + "=") + TrimEnd(x)
  {
    var start := key + "=";
    KeyIsPlain(key);
    assert b + start + x == b + (start + x) && (start + x)[0] == start[0];
    TrimStartKeeps(b, start + x);
    var p := TrimStart(b) + start;
    assert TrimStart(b) + (start + x) == p + x && p[|p| - 1] == start[|start| - 1];
    TrimEndKeeps(p, x);
  }

  lemma TrimTail(x: string)
    ensures Trim(TrimEnd(x)) == Trim(x)
  {
    hide Trim;
    TrimEndShape(x);
    TrimEndSplits(x);
    assert x == TrimEnd(x) + x[|TrimEnd(x)|..];
    TrimDrops(TrimEnd(x), x[|TrimEnd(x)|..]);
  }

  lemma {:induction false} BlankTrims(b: string)
    ensures Blank(b) <==> TrimStart(b) == ""
    ensures Blank(b) <==> TrimEnd(b) == ""
  {
    assert b[..|b|] == b && b[0..] == b;
    if Blank(b) {
      TrimStartSkips(b, "");
      TrimEndSkips("", b);
      assert b + "" == b && "" + b == b;
    } else {
      TrimStartSplits(b);
      TrimEndSplits(b);
    }
  }

  /** Behind nothing but white space the line reads as the key, with all that follows as its value. */
  lemma ReadsAsKey(b: string, key: string, x: string)
    requires IsKey(key) && Blank(b)
    ensures ReadLine(b + (key + "=") + x) == Some((key, Trim(x)))
  {
    hide Trim, TrimEnd, TrimStart, IndexOf;
    var start := key + "=";
    KeyIsPlain(key);
    TrimmedLine(b, key, x);
    BlankTrims(b);
    var trimmed := start + TrimEnd(x);
    assert "" + start + TrimEnd(x) == trimmed;
    assert trimmed[0..|key|] == key && trimmed[|key|] == '=';
    IndexIs(trimmed, '=', 0, |key|);
    assert trimmed[|key| + 1..] == TrimEnd(x) && trimmed[0] == start[0] == key[0];
    TrimTail(x);
  }

  /** The key read from a line whose visible text begins before `key=`: it does not depend on what follows. */
  function KeyBehind(t: string, key: string): Option<string>
    requires t != ""
  {
    var eq := IndexOf(t, '=');
    if t[0] == '#' || eq == 0 then None else if eq == -1 then Some(t + key) else Some(t[..eq])
  }

  lemma ReadsBehind(b: string, key: string, x: string)
    requires IsKey(key) && !Blank(b)
    ensures TrimStart(b) != ""
    ensures
      var t, line := TrimStart(b), b + (key + "=") + x;
      var eq := IndexOf(t, '=');
      match KeyBehind(t, key)
      case None => ReadLine(line) == None
      case Some(k) => ReadLine(line) == Some((k, if eq == -1 then Trim(x) else Trim(t[eq + 1..] + (key + "=") + TrimEnd(x))))
  {
    hide Trim, TrimEnd, TrimStart, IsKey;
    var start, t := key + "=", TrimStart(b);
    KeyIsPlain(key);
    BlankTrims(b);
    TrimmedLine(b, key, x);
    TrimTail(x);
    var trimmed := t + start + TrimEnd(x);
    var eq := IndexOf(t, '=');
    assert trimmed[0] == t[0];
    if eq == -1 {
      var at := |t| + |key|;
      assert trimmed[at] == '=' && trimmed[..at] == t + key && trimmed[at + 1..] == TrimEnd(x);
      assert t[0..] == t && '=' !in trimmed[0..at];
      IndexIs(trimmed, '=', 0, at);
    } else {
      assert trimmed[eq] == '=' && trimmed[0..eq] == t[0..eq] && trimmed[..eq] == t[..eq];
      IndexIs(trimmed, '=', 0, eq);
      assert trimmed[eq + 1..] == t[eq + 1..] + start + TrimEnd(x);
    }
  }

  // ---------- What the lookup reads ----------

  /** The line assigns `value` to `key`: white space, the key up to the first `=`, and the rest trimmed. */
  ghost predicate Assigns(line: string, key: string, value: string) {
    exists a, x :: AssignsAs(line, a, key, x) && value == Trim(x)
  }

  ghost predicate AssignsAs(line: string, a: string, key: string, x: string) {
    && line == a + key + "=" + x && Blank(a)
    && key != "" && !IsSpace(key[0]) && key[0] != '#' && '=' !in key
  }

  lemma AssignedIsRead(line: string, a: string, key: string, x: string)
    requires AssignsAs(line, a, key, x)
    ensures ReadLine(line) == Some((key, Trim(x)))
  {
    hide Trim, TrimEnd, TrimStart, IndexOf;
    var start := key + "=";
    assert line == a + start + x;
    TrimAssigned(a, start, x);
    TrimTail(x);
    var trimmed := start + TrimEnd(x);
    assert trimmed[0..|key|] == key && trimmed[|key|] == '=' && trimmed[0] == key[0];
    IndexIs(trimmed, '=', 0, |key|);
    assert trimmed[..|key|] == key && trimmed[|key| + 1..] == TrimEnd(x);
  }

  lemma TrimAssigned(a: string, start: string, x: string)
    requires Blank(a) && start != "" && !IsSpace(start[0]) && !IsSpace(start[|start| - 1])
    ensures Trim(a + start + x) == start + TrimEnd(x)
  {
    hide TrimStart, TrimEnd, IsSpace, Blank;
    var shown := start + x;
    assert a + start + x == a + shown && shown[0] == start[0];
    TrimStartSkips(a, shown);
    TrimmedEnds(shown);
    TrimEndKeeps(start, x);
  }

  lemma ReadIsAssigned(line: string) returns (a: string, x: string)
    requires ReadLine(line).Some?
    ensures AssignsAs(line, a, ReadLine(line).value.0, x) && ReadLine(line).value.1 == Trim(x)
  {
    hide Trim, IndexOf, IsSpace;
    var trimmed := Trim(line);
    var front, back := TrimSplits(line);
    TrimTwice(line);
    TrimFixed(trimmed);
    var eq := IndexOf(trimmed, '=');
    var key, rest := trimmed[..eq], trimmed[eq + 1..];
    assert trimmed == key + "=" + rest && key == trimmed[0..eq];
    a, x := front, rest + back;
    assert line == a + key + "=" + x;
    TrimDrops(rest, back);
  }

  lemma AssignsIsReading(line: string, key: string, value: string)
    ensures Assigns(line, key, value) <==> ReadLine(line) == Some((key, value))
  {
    hide ReadLine, AssignsAs, Trim;
    if Assigns(line, key, value) {
      var a, x :| AssignsAs(line, a, key, x) && value == Trim(x);
      AssignedIsRead(line, a, key, x);
    }
    if ReadLine(line) == Some((key, value)) {
      var a, x := ReadIsAssigned(line);
    }
  }

  /** The first line that assigns anything to the key, at index `i`, assigns `value`. */
  ghost predicate FirstAssigns(lines: seq<string>, key: string, value: string, i: nat) {
    && i < |lines| && Assigns(lines[i], key, value)
    && forall j, v :: 0 <= j < i ==> !Assigns(lines[j], key, v)
  }

  /** The lookup finds a value exactly when the first line that assigns the key assigns that value and it is not empty. */
  lemma {:induction false} FindsExactlyWhen(lines: seq<string>, key: string, value: string)
    ensures Lookup(lines, key) == Some(value) <==> value != "" && exists i: nat :: FirstAssigns(lines, key, value, i)
  {
    hide Assigns, ReadLine;
    if lines != [] {
      var first, rest := lines[0], lines[1..];
      forall v ensures Assigns(first, key, v) <==> ReadLine(first) == Some((key, v)) {
        AssignsIsReading(first, key, v);
      }
      if Reads(first, key) {
        var v := ReadLine(first).value.1;
        assert Assigns(first, key, v) && FirstAssigns(lines, key, v, 0);
      } else {
        FindsExactlyWhen(rest, key, value);
        forall i: nat | i < |rest| ensures FirstAssigns(rest, key, value, i) <==> FirstAssigns(lines, key, value, i + 1) {
          FirstAssignsShift(lines, key, value, i);
        }
        if value != "" && exists i: nat :: FirstAssigns(lines, key, value, i) {
          var i: nat :| FirstAssigns(lines, key, value, i);
          assert i == 0 ==> Assigns(first, key, value);
          assert i > 0 && FirstAssigns(rest, key, value, i - 1);
        }
      }
    }
  }

  lemma FirstAssignsShift(lines: seq<string>, key: string, value: string, i: nat)
    requires i < |lines| - 1 && forall v :: !Assigns(lines[0], key, v)
    ensures FirstAssigns(lines[1..], key, value, i) <==> FirstAssigns(lines, key, value, i + 1)
  {
    hide Assigns;
    assert forall j :: 0 <= j < |lines| - 1 ==> lines[1..][j] == lines[j + 1];
    if FirstAssigns(lines[1..], key, value, i) {
      forall j, v | 0 <= j < i + 1 ensures !Assigns(lines[j], key, v) {
        if j > 0 { assert !Assigns(lines[1..][j - 1], key, v); }
      }
    }
    if FirstAssigns(lines, key, value, i + 1) {
      forall j, v | 0 <= j < i ensures !Assigns(lines[1..][j], key, v) {
        assert !Assigns(lines[j + 1], key, v);
      }
    }
  }

  // ---------- The line a replace changes ----------

  function Before(line: string, key: string): string
    requires Matches(line, key)
  {
    line[..FindMatch(line, key, 0)]
  }

  function After(line: string, key: string): string
    requires Matches(line, key)
  {
    line[LineStop(line, FindMatch(line, key, 0))..]
  }

  lemma CutLine(line: string, p: nat, q: nat, start: string)
    requires p <= q <= |line| && start <= line[p..q]
    ensures p + |start| <= |line| && line == line[..p] + start + line[p + |start|..]
  {
    assert line[p..p + |start|] == line[p..q][..|start|] == start;
  }

  lemma Regroup(b: string, start: string, value: string, a: string)
    ensures b + (start + value) + a == b + start + (value + a)
  {
  }

  lemma MatchedLine(line: string, key: string, value: string) returns (x: string)
    requires IsKey(key) && Matches(line, key)
    ensures line == Before(line, key) + (key + "=") + x
    ensures NoPattern(value) ==> Upsert(line, key, value) == Before(line, key) + (key + "=") + (value + After(line, key))
  {
    hide IsKey, NoPattern, Upsert, MatchAt, FindMatch, LineStop;
    var p := FindMatch(line, key, 0);
    MatchInside(line, key, p);
    var q := LineStop(line, p);
    KeyInLine(line, key, p, q);
    CutLine(line, p, q, key + "=");
    x := line[p + |key + "="|..];
    if NoPattern(value) {
      UpsertAt(line, key, value, p, q);
      Regroup(line[..p], key + "=", value, line[q..]);
    }
  }

  lemma SameReader(b: string, key: string, x: string, y: string, k: string)
    requires IsKey(key)
    ensures Reads(b + (key + "=") + x, k) <==> Reads(b + (key + "=") + y, k)
  {
    hide IsKey, ReadLine, Trim, TrimStart, TrimEnd;
    if Blank(b) {
      ReadsAsKey(b, key, x);
      ReadsAsKey(b, key, y);
    } else {
      ReadsBehind(b, key, x);
      ReadsBehind(b, key, y);
    }
  }

  lemma TrimGrows(v: string, a: string)
    ensures Blank(a) ==> Trim(v + a) == Trim(v)
    ensures |Trim(v + a)| >= |Trim(v)|
    ensures !Blank(a) ==> |Trim(v + a)| > |Trim(v)|
  {
    hide IsSpaceCode;
    if Blank(a) {
      TrimDrops(v, a);
    } else {
      var p, d := TrimSplits(v);
      var t := Trim(v);
      BlankTrims(a);
      BlankTrims(d + a);
      TrimFixed(t);
      TrimTwice(v);
      assert v + a == p + (t + (d + a));
      TrimStartSkips(p, t + (d + a));
      VisibleStays(d, a);
      if t == "" {
        assert t + (d + a) == d + a;
        BlankTrims(TrimStart(d + a));
        StillVisible(d + a);
      } else {
        TrimmedEnds(t + (d + a));
        assert (t + (d + a))[0] == t[0];
        TrimEndKeeps(t, d + a);
      }
    }
  }

  lemma VisibleStays(d: string, a: string)
    requires !Blank(a)
    ensures !Blank(d + a)
  {
    var c :| c in a && !IsSpace(c);
    assert c in d + a;
  }

  lemma {:induction false} StillVisible(s: string)
    requires !Blank(s)
    ensures !Blank(TrimStart(s))
  {
    TrimStartSplits(s);
    TrimStartShape(s);
    var n := |s| - |TrimStart(s)|;
    assert s == s[..n] + s[n..];
  }

  lemma TrimAround(u: string, start: string, w: string)
    requires start != "" && !IsSpace(start[0]) && !IsSpace(start[|start| - 1])
    ensures |Trim(u + start + TrimEnd(w))| >= |start| + |TrimEnd(w)|
  {
    hide IsSpaceCode;
    var e := TrimEnd(w);
    TrimEndShape(w);
    TrimmedEnds(e);
    assert u + start + e == u + (start + e) && (start + e)[0] == start[0];
    TrimStartKeeps(u, start + e);
    var p := TrimStart(u) + start;
    assert TrimStart(u) + (start + e) == p + e && p[|p| - 1] == start[|start| - 1];
    TrimEndKeeps(p, e);
  }

  lemma {:induction false} TrimIsShorter(v: string, a: string)
    ensures |TrimEnd(v + a)| >= |Trim(v)|
  {
    TrimGrows(v, a);
    TrimTail(v + a);
    TrimStartShape(TrimEnd(v + a));
    TrimEndShape(TrimStart(TrimEnd(v + a)));
  }

  /** A replaced line that reads as anything reads a value at least as long as the new one; as the key, never the new one itself, unless all around it is white space. */
  lemma ReadsLong(b: string, key: string, value: string, a: string, k: string)
    requires IsKey(key) && Reads(b + (key + "=") + (value + a), k)
    ensures |ReadLine(b + (key + "=") + (value + a)).value.1| >= |Trim(value)|
    ensures k == key && !(Blank(b) && Blank(a)) ==> |ReadLine(b + (key + "=") + (value + a)).value.1| > |Trim(value)|
  {
    hide ReadLine, Trim, TrimStart, TrimEnd;
    var start, x := key + "=", value + a;
    KeyIsPlain(key);
    TrimGrows(value, a);
    if Blank(b) {
      ReadsAsKey(b, key, x);
    } else {
      ReadsBehind(b, key, x);
      var t := TrimStart(b);
      var eq := IndexOf(t, '=');
      if eq != -1 {
        TrimAround(t[eq + 1..], start, x);
        TrimIsShorter(value, a);
      }
    }
  }

  lemma ReadsShort(line: string, k: string)
    requires Reads(line, k)
    ensures |ReadLine(line).value.1| <= |line|
  {
  }

  // ---------- All lines ----------

  /** A value whose length no line reaches. */
  ghost predicate Longer(value: string, lines: seq<string>) {
    forall line :: line in lines ==> |Trim(value)| > |line|
  }

  /**
   The first line that the upsert replaces or the lookup reads as the key is one it replaces, with nothing
   but white space around what it replaces; or there is no such line.
   */
  predicate Clean(lines: seq<string>, key: string) {
    lines == [] ||
    if Matches(lines[0], key) then Blank(Before(lines[0], key)) && Blank(After(lines[0], key))
    else !Reads(lines[0], key) && Clean(lines[1..], key)
  }

  /** The line the upsert replaces, if any, is not the one that the lookup reads for `other`. */
  predicate Spares(lines: seq<string>, key: string, other: string) {
    lines == [] ||
    if Matches(lines[0], key) then !Reads(lines[0], other)
    else Reads(lines[0], other) || Spares(lines[1..], key, other)
  }

  lemma {:induction false} LookupShort(lines: seq<string>, k: string, value: string)
    requires Longer(value, lines)
    ensures Lookup(lines, k).Some? ==> |Lookup(lines, k).value| < |Trim(value)|
    decreases |lines|
  {
    hide ReadLine, Trim;
    if lines != [] {
      assert lines[0] in lines && forall line :: line in lines[1..] ==> line in lines;
      if Reads(lines[0], k) {
        ReadsShort(lines[0], k);
      } else {
        LookupShort(lines[1..], k, value);
      }
    }
  }

  /** The replaced line, for the key. */
  lemma ReplacedLine(line: string, key: string, value: string)
    requires IsKey(key) && NoPattern(value) && Matches(line, key)
    ensures
      var line' := Upsert(line, key, value);
      if Blank(Before(line, key)) && Blank(After(line, key))
      then Reads(line', key) && ReadLine(line').value.1 == Trim(value)
      else Reads(line', key) ==> |ReadLine(line').value.1| > |Trim(value)|
  {
    hide IsKey, NoPattern, Matches, Upsert, Before, After, ReadLine, Trim;
    var x := MatchedLine(line, key, value);
    var b, a := Before(line, key), After(line, key);
    if Blank(b) && Blank(a) {
      ReadsAsKey(b, key, value + a);
      TrimGrows(value, a);
    } else if Reads(Upsert(line, key, value), key) {
      ReadsLong(b, key, value, a, key);
    }
  }

  /** The replaced line, for any key. */
  lemma ReplacedLineReads(line: string, key: string, value: string, k: string)
    requires IsKey(key) && NoPattern(value) && Matches(line, key)
    ensures
      var line' := Upsert(line, key, value);
      && (Reads(line', k) <==> Reads(line, k))
      && (Reads(line', k) ==> |ReadLine(line').value.1| >= |Trim(value)|)
  {
    hide IsKey, NoPattern, Matches, Upsert, Before, After, ReadLine, Trim;
    var x := MatchedLine(line, key, value);
    var b, a := Before(line, key), After(line, key);
    SameReader(b, key, x, value + a, k);
    if Reads(Upsert(line, key, value), k) {
      ReadsLong(b, key, value, a, k);
    }
  }

  lemma {:induction false} LookupReplaced(lines: seq<string>, key: string, value: string)
    requires IsKey(key) && NoPattern(value) && SomeMatch(lines, key)
    ensures Clean(lines, key) ==> Lookup(ReplaceFirst(lines, key, value), key) == Stored(value)
    ensures !Clean(lines, key) && Longer(value, lines) ==> Lookup(ReplaceFirst(lines, key, value), key) != Stored(value)
    decreases |lines|
  {
    hide IsKey, NoPattern, Matches, Upsert, Before, After, ReadLine, Trim;
    var first, rest := lines[0], lines[1..];
    assert lines == [first] + rest && first in lines && forall line :: line in rest ==> line in lines;
    if Matches(first, key) {
      ReplacedLine(first, key, value);
      assert ([Upsert(first, key, value)] + rest)[1..] == rest;
      if Longer(value, lines) { LookupShort(rest, key, value); }
    } else {
      assert ([first] + ReplaceFirst(rest, key, value))[1..] == ReplaceFirst(rest, key, value);
      if Reads(first, key) {
        ReadsShort(first, key);
      } else {
        LookupReplaced(rest, key, value);
      }
    }
  }

  lemma {:induction false} OtherReplaced(lines: seq<string>, key: string, value: string, other: string)
    requires IsKey(key) && NoPattern(value) && SomeMatch(lines, key) && other != key
    ensures Spares(lines, key, other) ==> Lookup(ReplaceFirst(lines, key, value), other) == Lookup(lines, other)
    ensures !Spares(lines, key, other) && Longer(value, lines) ==>
              Lookup(ReplaceFirst(lines, key, value), other) != Lookup(lines, other)
    decreases |lines|
  {
    hide IsKey, NoPattern, Matches, Upsert, Before, After, ReadLine, Trim;
    var first, rest := lines[0], lines[1..];
    assert lines == [first] + rest && first in lines && forall line :: line in rest ==> line in lines;
    if Matches(first, key) {
      ReplacedLineReads(first, key, value, other);
      assert ([Upsert(first, key, value)] + rest)[1..] == rest;
      if Longer(value, lines) { LookupShort(lines, other, value); }
    } else {
      assert ([first] + ReplaceFirst(rest, key, value))[1..] == ReplaceFirst(rest, key, value);
      if !Reads(first, other) {
        OtherReplaced(rest, key, value, other);
      }
    }
  }

  lemma {:induction false} LookupAdded(lines: seq<string>, key: string, value: string)
    requires IsKey(key) && !SomeMatch(lines, key)
    ensures Clean(lines, key) ==> Lookup(lines + [NewLine(key, value), ""], key) == Stored(value)
    ensures !Clean(lines, key) && Longer(value, lines) ==> Lookup(lines + [NewLine(key, value), ""], key) != Stored(value)
    decreases |lines|
  {
    hide IsKey, Matches, ReadLine, Trim, NewLine;
    var added := [NewLine(key, value), ""];
    if lines == [] {
      assert lines + added == added;
      NewLineReads(key, value);
    } else {
      var first, rest := lines[0], lines[1..];
      assert lines == [first] + rest && first in lines && forall line :: line in rest ==> line in lines;
      assert (lines + added)[0] == first && (lines + added)[1..] == rest + added;
      if Reads(first, key) {
        ReadsShort(first, key);
      } else {
        LookupAdded(rest, key, value);
      }
    }
  }

  lemma NewLineReads(key: string, value: string)
    requires IsKey(key)
    ensures ReadLine(NewLine(key, value)) == Some((key, Trim(value)))
  {
    ReadsAsKey("", key, value);
    assert "" + (key + "=") + value == NewLine(key, value);
  }

  lemma {:induction false} OtherAdded(lines: seq<string>, key: string, value: string, other: string)
    requires IsKey(key) && !SomeMatch(lines, key) && other != key
    ensures Spares(lines, key, other)
    ensures Lookup(lines + [NewLine(key, value), ""], other) == Lookup(lines, other)
    decreases |lines|
  {
    hide IsKey, Matches, ReadLine, Trim, NewLine;
    var added := [NewLine(key, value), ""];
    if lines == [] {
      assert lines + added == added && added[1..] == [""] && [""][1..] == [];
      NewLineReads(key, value);
      BlankReadsNothing();
    } else {
      var first, rest := lines[0], lines[1..];
      assert lines == [first] + rest && first in lines && forall line :: line in rest ==> line in lines;
      assert (lines + added)[0] == first && (lines + added)[1..] == rest + added;
      OtherAdded(rest, key, value, other);
    }
  }

  lemma BlankReadsNothing()
    ensures ReadLine("") == None
  {
  }

  /** The empty line behind a final newline is neither read nor matched. */
  lemma {:induction false} BlankLastLine(lines: seq<string>, key: string, k: string)
    requires lines != [] && lines[|lines| - 1] == ""
    ensures Lookup(lines[..|lines| - 1], k) == Lookup(lines, k)
    ensures Clean(lines[..|lines| - 1], key) == Clean(lines, key)
    ensures Spares(lines[..|lines| - 1], key, k) == Spares(lines, key, k)
    decreases |lines|
  {
    hide ReadLine, Before, After;
    BlankReadsNothing();
    if |lines| > 1 {
      var front := lines[..|lines| - 1];
      assert front[0] == lines[0] && front[1..] == lines[1..][..|lines[1..]| - 1];
      BlankLastLine(lines[1..], key, k);
    } else {
      assert lines[..0] == [] && lines[1..] == [] && !Matches("", key);
    }
  }

  // ---------- Main results ----------

  /** What an upsert stores as given: any line when it appends, one without replacement patterns when it replaces. */
  ghost predicate GoodValue(content: string, key: string, value: string) {
    OneLine(value) && (SomeMatch(Lines(content), key) ==> NoPattern(value))
  }

  lemma Looked(content: string, key: string, value: string)
    requires IsKey(key) && GoodValue(content, key, value)
    ensures Clean(Lines(content), key) ==> Read(Upsert(content, key, value), key) == Stored(value)
    ensures !Clean(Lines(content), key) && Longer(value, Lines(content)) ==>
              Read(Upsert(content, key, value), key) != Stored(value)
  {
    hide IsKey, OneLine, NoPattern, NewLine, Upsert, Lines, Stored, Clean, Lookup, Trim, ReplaceFirst, SomeMatch;
    var lines := Lines(content);
    if SomeMatch(lines, key) {
      ReplacedLines(content, key, value);
      LookupReplaced(lines, key, value);
    } else {
      var base := Appended(content, key, value, key);
      LookupAdded(base, key, value);
    }
  }

  /** The lines an append starts from: all of them, without the empty one behind a final newline. */
  lemma Appended(content: string, key: string, value: string, k: string) returns (base: seq<string>)
    requires IsKey(key) && OneLine(value) && !SomeMatch(Lines(content), key)
    ensures Lines(Upsert(content, key, value)) == base + [NewLine(key, value), ""] && !SomeMatch(base, key)
    ensures Clean(base, key) == Clean(Lines(content), key) && Lookup(base, k) == Lookup(Lines(content), k)
    ensures Spares(base, key, k) == Spares(Lines(content), key, k)
    ensures Longer(value, Lines(content)) ==> Longer(value, base)
  {
    hide IsKey, OneLine, NewLine, Upsert, Lines, Clean, Spares, Lookup, Trim, Matches;
    var lines := Lines(content);
    AppendedLines(content, key, value);
    base := if lines[|lines| - 1] == "" then lines[..|lines| - 1] else lines;
    if lines[|lines| - 1] == "" { BlankLastLine(lines, key, k); }
    assert forall line :: line in base ==> line in lines;
  }

  function Xs(n: nat): string {
    seq(n, _ => 'x')
  }

  /** There is always a value, good for any file, that is longer than every line. */
  lemma LongValue(lines: seq<string>) returns (value: string)
    ensures Longer(value, lines) && OneLine(value) && NoPattern(value)
  {
    var n := Longest(lines);
    value := Xs(n + 1);
    TrimFixed(value);
  }

  lemma {:induction false} Longest(lines: seq<string>) returns (n: nat)
    ensures forall line :: line in lines ==> |line| <= n
    decreases |lines|
  {
    n := 0;
    if lines != [] {
      var m := Longest(lines[1..]);
      n := if m > |lines[0]| then m else |lines[0]|;
      assert lines == [lines[0]] + lines[1..];
    }
  }

  ghost predicate FindsStored(content: string, key: string) {
    forall value: string :: GoodValue(content, key, value) ==> Read(Upsert(content, key, value), key) == Stored(value)
  }

  /**
   Main result: in any file, the lookup finds every value an upsert stores as given if and only if the
   first line that the upsert replaces or the lookup reads as the key is one the upsert replaces, alone on
   its line but for white space; or there is none, and the upsert appends.
   */
  lemma LookupAfterUpsertExactlyWhen(content: string, key: string)
    requires IsKey(key)
    ensures FindsStored(content, key) <==> Clean(Lines(content), key)
  {
    hide IsKey, OneLine, NoPattern, Upsert, Lines, Stored, Clean, Read, Longer, SomeMatch;
    forall value: string | GoodValue(content, key, value) && Clean(Lines(content), key)
      ensures Read(Upsert(content, key, value), key) == Stored(value)
    {
      Looked(content, key, value);
    }
    if !Clean(Lines(content), key) {
      var value := LongValue(Lines(content));
      assert GoodValue(content, key, value);
      Looked(content, key, value);
    }
  }

  ghost predicate KeepsOther(content: string, key: string, other: string) {
    forall value: string :: GoodValue(content, key, value) ==> Read(Upsert(content, key, value), other) == Read(content, other)
  }

  lemma OtherLooked(content: string, key: string, value: string, other: string)
    requires IsKey(key) && GoodValue(content, key, value) && other != key
    ensures Spares(Lines(content), key, other) ==> Read(Upsert(content, key, value), other) == Read(content, other)
    ensures !Spares(Lines(content), key, other) && Longer(value, Lines(content)) ==>
              Read(Upsert(content, key, value), other) != Read(content, other)
  {
    hide IsKey, OneLine, NoPattern, NewLine, Upsert, Lines, Spares, Lookup, Trim, ReplaceFirst, SomeMatch;
    var lines := Lines(content);
    if SomeMatch(lines, key) {
      ReplacedLines(content, key, value);
      OtherReplaced(lines, key, value, other);
    } else {
      var base := Appended(content, key, value, other);
      OtherAdded(base, key, value, other);
    }
  }

  /**
   Main result: in any file, no upsert changes what is found for another key if and only if the line it
   replaces, if any, is not the one the lookup reads for that other key.
   */
  lemma OthersKeptExactlyWhen(content: string, key: string, other: string)
    requires IsKey(key) && other != key
    ensures KeepsOther(content, key, other) <==> Spares(Lines(content), key, other)
  {
    hide IsKey, OneLine, NoPattern, Upsert, Lines, Spares, Read, Longer, SomeMatch;
    forall value: string | GoodValue(content, key, value) && Spares(Lines(content), key, other)
      ensures Read(Upsert(content, key, value), other) == Read(content, other)
    {
      OtherLooked(content, key, value, other);
    }
    if !Spares(Lines(content), key, other) {
      var value := LongValue(Lines(content));
      assert GoodValue(content, key, value);
      OtherLooked(content, key, value, other);
    }
  }

  // ---------- Files with ordinary line ends ----------

  /** Line ends other than '\n' occur only as the '\r' of a "\r\n". */
  predicate PlainLine(line: string) {
    forall i :: 0 <= i < |line| && IsLineEnd(line[i]) ==> i == |line| - 1 && line[i] == '\r'
  }

  ghost predicate PlainText(content: string) {
    forall line :: line in Lines(content) ==> PlainLine(line)
  }

  /** The first line that reads as the key, if any, is one an upsert replaces: it is not indented. */
  predicate Unindented(lines: seq<string>, key: string) {
    lines == [] || if Reads(lines[0], key) then Matches(lines[0], key) else Unindented(lines[1..], key)
  }

  lemma PlainMatch(line: string, key: string)
    requires IsKey(key) && PlainLine(line) && Matches(line, key)
    ensures Before(line, key) == "" && Blank(After(line, key)) && Reads(line, key)
    ensures forall k :: Reads(line, k) ==> k == key
  {
    hide ReadLine, Trim;
    var p := FindMatch(line, key, 0);
    MatchInside(line, key, p);
    var q := LineStop(line, p);
    KeyInLine(line, key, p, q);
    assert p == 0;
    assert q < |line| ==> q == |line| - 1 && line[q..] == ['\r'];
    var x := MatchedLine(line, key, "");
    ReadsAsKey("", key, x);
  }

  lemma {:induction false} PlainLines(lines: seq<string>, key: string, other: string)
    requires IsKey(key) && other != key && forall line :: line in lines ==> PlainLine(line)
    ensures Clean(lines, key) <==> Unindented(lines, key)
    ensures Spares(lines, key, other)
    decreases |lines|
  {
    hide IsKey, PlainLine, Matches, Reads;
    if lines != [] {
      assert lines[0] in lines && forall line :: line in lines[1..] ==> line in lines;
      if Matches(lines[0], key) { PlainMatch(lines[0], key); }
      PlainLines(lines[1..], key, other);
    }
  }

  /**
   In a file whose line ends are LF or CRLF an upsert never changes what is found for another key, and what
   it stores is found if and only if the first line that reads as the key, if there is one, is not indented.
   */
  lemma PlainFiles(content: string, key: string, other: string)
    requires IsKey(key) && other != key && PlainText(content)
    ensures KeepsOther(content, key, other)
    ensures FindsStored(content, key) <==> Unindented(Lines(content), key)
  {
    hide IsKey, KeepsOther, FindsStored, Clean, Spares, Unindented, Lines;
    PlainLines(Lines(content), key, other);
    LookupAfterUpsertExactlyWhen(content, key);
    OthersKeptExactlyWhen(content, key, other);
  }

  // ---------- Two files in which it goes wrong ----------

  /** An indented line goes on answering, whatever is stored. */
  lemma IndentedLineShadows(value: string)
    requires OneLine(value)
    ensures Read(Upsert(" A=1\n", "A", value), "A") == Some("1")
  {
    hide OneLine, Upsert, Lines, ReadLine, Trim, NewLine;
    var line, content := " A=1", " A=1\n";
    LinesCons(line, "");
    OneLineOnly("");
    assert content == line + "\n" + "" && Lines(content) == [line, ""];
    NoMatchIn(line);
    NoMatchIn("");
    AppendedLines(content, "A", value);
    assert [line, ""][..1] == [line];
    ReadsOne(" ", "A", "1");
    assert " " + "A" + "=" + "1" == line;
  }

  lemma NoMatchIn(line: string)
    requires line == "" || line == " A=1"
    ensures !Matches(line, "A")
  {
    var start := "A" + "=";
    assert start[0] == 'A';
    forall q: nat ensures !MatchAt(line, "A", q) {
      if q == 0 && line != "" { assert line[0..][0] == ' '; }
    }
  }

  lemma ReadsOne(b: string, key: string, x: string)
    requires IsKey(key) && Blank(b) && x != "" && !IsSpace(x[0]) && !IsSpace(x[|x| - 1])
    ensures ReadLine(b + key + "=" + x) == Some((key, x))
  {
    ReadsAsKey(b, key, x);
    TrimFixed(x);
    assert b + (key + "=") + x == b + key + "=" + x;
  }

  const SPOILED: string := "B=1\rA=2"

  lemma SpoiledMatch()
    ensures FindMatch(SPOILED, "A", 0) == 4 && LineStop(SPOILED, 4) == 7
  {
    assert SPOILED[4..] == "A=2" && "A" + "=" == "A=" && MatchAt(SPOILED, "A", 4);
    forall q: nat | q < 4 ensures !MatchAt(SPOILED, "A", q) {
      if q == 0 { assert SPOILED[0..][0] == 'B'; } else { assert SPOILED[q - 1] == "B=1"[q - 1]; }
    }
    FoundAt(SPOILED, "A", 4);
    StopAt(SPOILED, 4, 7);
  }

  lemma SpoiledUpsert()
    ensures Upsert(SPOILED, "A", "3") == "B=1\rA=3"
  {
    hide Expand, Upsert, FindMatch, LineStop;
    SpoiledMatch();
    UpsertAt(SPOILED, "A", "3", 4, 7);
    assert SPOILED[..4] + NewLine("A", "3") + SPOILED[7..] == "B=1\rA=3";
  }

  lemma SpoiledRead(line: string, x: string)
    requires line == "B=1\rA=" + x && (x == "2" || x == "3")
    ensures Read(line, "A") == None && Read(line, "B") == Some("1\rA=" + x)
  {
    hide ReadLine, Lines, Trim;
    OneLineOnly(line);
    var value := "1\rA=" + x;
    assert value[|value| - 1] == x[0] && value[0] == '1';
    ReadsOne("", "B", value);
    assert "" + "B" + "=" + value == line && "B"[0] != "A"[0];
    assert [line][1..] == [];
    assert Lookup([line], "A") == None && Lookup([line], "B") == Some(value);
  }

  /** Behind a lone carriage return a line is replaced but not found, and the value of the key before it changes. */
  lemma CarriageReturnSpoils()
    ensures
      var after := Upsert(SPOILED, "A", "3");
      && Read(after, "A") == None
      && Read(SPOILED, "B") == Some("1\rA=2") && Read(after, "B") == Some("1\rA=3")
  {
    hide Upsert, Read;
    SpoiledUpsert();
    SpoiledRead(SPOILED, "2");
    SpoiledRead("B=1\rA=3", "3");
    assert "1\rA=" + "2" == "1\rA=2" && "1\rA=" + "3" == "1\rA=3";
  }
}
