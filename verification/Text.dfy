/**
 The JavaScript string operations the modelled code uses, and the facts about them that the proofs
 need.  A `char` stands for one UTF-16 code unit, so lengths and positions are JavaScript's.
 */
module Text {

  /** White space as `\s`, `trim`, `trimStart` and `trimEnd` understand it, by code unit. */
  predicate IsSpaceCode(u: int) {
    || 0x09 <= u <= 0x0d || u == 0x20 || u == 0xa0 || u == 0x1680 || 0x2000 <= u <= 0x200a
    || u == 0x2028 || u == 0x2029 || u == 0x202f || u == 0x205f || u == 0x3000 || u == 0xfeff
  }

  predicate IsSpace(c: char) {
    IsSpaceCode(c as int)
  }

  ghost predicate NoSpace(s: string) {
    forall c :: c in s ==> !IsSpace(c)
  }

  /** The longest prefix without white space. */
  function Word(s: string): (r: string)
    ensures r <= s
  {
    if s == [] || IsSpace(s[0]) then [] else [s[0]] + Word(s[1..])
  }

  function TrimStart(s: string): (r: string)
    ensures |r| <= |s|
  {
    if s != [] && IsSpace(s[0]) then TrimStart(s[1..]) else s
  }

  function TrimEnd(s: string): (r: string)
    ensures |r| <= |s|
  {
    if s != [] && IsSpace(s[|s| - 1]) then TrimEnd(s[..|s| - 1]) else s
  }

  function Trim(s: string): (r: string)
    ensures |r| <= |s|
  {
    TrimEnd(TrimStart(s))
  }

  /** The position of the first `c` at or after `from`, or -1. */
  function IndexOf(s: string, c: char, from: nat := 0): (i: int)
    requires from <= |s|
    ensures i == -1 ==> c !in s[from..]
    ensures i != -1 ==> from <= i < |s| && s[i] == c && c !in s[from..i]
    decreases |s| - from
  {
    if from == |s| then -1
    else if s[from] == c then from
    else
      var i := IndexOf(s, c, from + 1);
      assert s[from..] == [s[from]] + s[from + 1..];
      assert i != -1 ==> s[from..i] == [s[from]] + s[from + 1..i];
      i
  }

  /** split('\n'): the lines of `s`; the last one is what follows the last newline. */
  function Lines(s: string): (r: seq<string>)
    ensures r != []
    ensures forall line :: line in r ==> '\n' !in line
    decreases |s|
  {
    var i := IndexOf(s, '\n');
    if i == -1 then [s] else [s[..i]] + Lines(s[i + 1..])
  }

  /** join('\n'). */
  function Join(lines: seq<string>): string {
    if lines == [] then "" else if |lines| == 1 then lines[0] else lines[0] + "\n" + Join(lines[1..])
  }

  lemma {:induction false} IndexIs(s: string, c: char, from: nat, i: nat)
    requires from <= i < |s| && s[i] == c && c !in s[from..i]
    ensures IndexOf(s, c, from) == i
    decreases i - from
  {
    if from < i {
      assert s[from..i] == [s[from]] + s[from + 1..i];
      IndexIs(s, c, from + 1, i);
    }
  }

  lemma FirstNewline(line: string, rest: string)
    requires '\n' !in line
    ensures IndexOf(line + "\n" + rest, '\n') == |line|
    ensures (line + "\n" + rest)[..|line|] == line && (line + "\n" + rest)[|line| + 1..] == rest
  {
    var s := line + "\n" + rest;
    assert s[0..|line|] == line;
    IndexIs(s, '\n', 0, |line|);
  }

  lemma LinesCons(line: string, rest: string)
    requires '\n' !in line
    ensures Lines(line + "\n" + rest) == [line] + Lines(rest)
  {
    FirstNewline(line, rest);
  }

  /** One step of splitting: `first` is the first line and `rest`, if any, what follows its newline. */
  lemma FirstLine(s: string) returns (first: string, more: bool, rest: string)
    ensures '\n' !in first
    ensures !more ==> s == first && Lines(s) == [s]
    ensures more ==> |rest| < |s| && s == first + "\n" + rest && Lines(s) == [first] + Lines(rest)
  {
    var i := IndexOf(s, '\n');
    more := i != -1;
    if more {
      first, rest := s[..i], s[i + 1..];
      assert s[0..i] == first;
    } else {
      first, rest := s, "";
      assert s[0..] == s;
    }
  }

  /** Appending text only changes the last line. */
  lemma {:induction false} LinesAppend(a: string, b: string)
    ensures Lines(a + b) == Lines(a)[..|Lines(a)| - 1] + Lines(Lines(a)[|Lines(a)| - 1] + b)
    decreases |a|
  {
    hide Lines, IndexOf;
    var line, more, rest := FirstLine(a);
    var lines := Lines(rest);
    if more {
      LinesAppend(rest, b);
      LinesCons(line, rest + b);
      assert a + b == line + "\n" + (rest + b);
      assert ([line] + lines)[..|lines|] == [line] + lines[..|lines| - 1];
    } else {
      assert Lines(a)[..0] == [] && [] + Lines(a + b) == Lines(a + b);
    }
  }

  lemma {:induction false} TrimmedEnds(s: string)
    ensures TrimStart(s) == s <==> s == [] || !IsSpace(s[0])
    ensures TrimEnd(s) == s <==> s == [] || !IsSpace(s[|s| - 1])
  {
  }

  lemma {:induction false} TrimStartShape(s: string)
    ensures TrimStart(s) == [] || !IsSpace(TrimStart(s)[0])
    ensures TrimStart(s) == s[|s| - |TrimStart(s)|..]
    decreases |s|
  {
    if s != [] && IsSpace(s[0]) { TrimStartShape(s[1..]); }
  }

  lemma {:induction false} TrimEndShape(s: string)
    ensures TrimEnd(s) == [] || !IsSpace(TrimEnd(s)[|TrimEnd(s)| - 1])
    ensures TrimEnd(s) == s[..|TrimEnd(s)|]
    decreases |s|
  {
    if s != [] && IsSpace(s[|s| - 1]) { TrimEndShape(s[..|s| - 1]); }
  }

  /** What is trimmed to itself begins and ends with something visible. */
  lemma TrimFixed(s: string)
    ensures Trim(s) == s <==> s == [] || (!IsSpace(s[0]) && !IsSpace(s[|s| - 1]))
  {
    TrimmedEnds(s);
    if Trim(s) == s {
      assert |TrimStart(s)| == |s|;
      TrimStartShape(s);
      assert TrimStart(s) == s;
    }
  }

  lemma TrimTwice(s: string)
    ensures Trim(Trim(s)) == Trim(s)
  {
    var t := TrimStart(s);
    TrimStartShape(s);
    TrimEndShape(t);
    TrimFixed(Trim(s));
  }

  lemma TrimLeadingSpace(s: string)
    ensures Trim(" " + s) == Trim(s)
  {
    assert (" " + s)[1..] == s;
  }

  lemma {:induction false} WordOf(word: string, rest: string)
    requires NoSpace(word) && (rest == "" || IsSpace(rest[0]))
    ensures Word(word + rest) == word
    decreases |word|
  {
    if word == "" {
      assert word + rest == rest;
    } else {
      assert (word + rest)[1..] == word[1..] + rest;
      assert word == [word[0]] + word[1..];
      WordOf(word[1..], rest);
    }
  }

  lemma {:induction false} WordHasNoSpace(s: string)
    ensures NoSpace(Word(s)) && (Word(s) == s || IsSpace(s[|Word(s)|]))
  {
    if s != [] && !IsSpace(s[0]) { WordHasNoSpace(s[1..]); }
  }

  predicate Blank(s: string) {
    forall c :: c in s ==> IsSpace(c)
  }

  lemma {:induction false} TrimStartSkips(a: string, s: string)
    requires Blank(a)
    ensures TrimStart(a + s) == TrimStart(s)
    decreases |a|
  {
    if a == "" {
      assert a + s == s;
    } else {
      assert (a + s)[0] == a[0] && (a + s)[1..] == a[1..] + s;
      TrimStartSkips(a[1..], s);
    }
  }

  lemma {:induction false} TrimEndSkips(s: string, d: string)
    requires Blank(d)
    ensures TrimEnd(s + d) == TrimEnd(s)
    decreases |d|
  {
    if d == "" {
      assert s + d == s;
    } else {
      var last := |d| - 1;
      assert (s + d)[|s + d| - 1] == d[last] && (s + d)[..|s + d| - 1] == s + d[..last];
      TrimEndSkips(s, d[..last]);
    }
  }

  /** Trimming removes exactly the white space around what is visible. */
  lemma TrimIs(a: string, s: string, d: string)
    requires Blank(a) && Blank(d) && Trim(s) == s
    ensures Trim(a + s + d) == s
  {
    TrimFixed(s);
    TrimmedEnds(s);
    assert a + s + d == a + (s + d);
    TrimStartSkips(a, s + d);
    if s == "" {
      assert s + d == d + "";
      TrimStartSkips(d, "");
    } else {
      TrimmedEnds(s + d);
      TrimEndSkips(s, d);
    }
  }

  lemma {:induction false} TrimStartSplits(s: string)
    ensures Blank(s[..|s| - |TrimStart(s)|])
    decreases |s|
  {
    if s != [] && IsSpace(s[0]) {
      TrimStartSplits(s[1..]);
      assert s[..|s| - |TrimStart(s)|] == [s[0]] + s[1..][..|s| - 1 - |TrimStart(s)|];
    }
  }

  lemma {:induction false} TrimEndSplits(s: string)
    ensures Blank(s[|TrimEnd(s)|..])
    decreases |s|
  {
    if s != [] && IsSpace(s[|s| - 1]) {
      TrimEndSplits(s[..|s| - 1]);
      assert s[|TrimEnd(s)|..] == s[..|s| - 1][|TrimEnd(s)|..] + [s[|s| - 1]];
    }
  }

  lemma TrimSplits(s: string) returns (a: string, d: string)
    ensures Blank(a) && Blank(d) && s == a + Trim(s) + d
  {
    var t := TrimStart(s);
    TrimStartShape(s);
    TrimStartSplits(s);
    TrimEndShape(t);
    TrimEndSplits(t);
    a, d := s[..|s| - |t|], t[|Trim(s)|..];
    assert s == a + t && t == Trim(s) + d;
  }

  lemma TrimDrops(s: string, d: string)
    requires Blank(d)
    ensures Trim(s + d) == Trim(s)
  {
    hide Trim, IsSpace;
    var a, e := TrimSplits(s);
    TrimTwice(s);
    var t := Trim(s);
    assert a + t + e + d == a + t + (e + d);
    TrimIs(a, t, e + d);
  }

  /** Every line followed by a newline. */
  function Unlines(lines: seq<string>): string {
    if lines == [] then "" else lines[0] + "\n" + Unlines(lines[1..])
  }

  lemma {:induction false} LinesOfUnlines(lines: seq<string>)
    requires forall line :: line in lines ==> '\n' !in line
    ensures Lines(Unlines(lines)) == lines + [""]
    decreases |lines|
  {
    hide Lines, IndexOf;
    if lines == [] {
      var first, more, rest := FirstLine("");
      assert [] + [""] == [""];
    } else {
      assert lines == [lines[0]] + lines[1..];
      LinesOfUnlines(lines[1..]);
      LinesCons(lines[0], Unlines(lines[1..]));
    }
  }

  lemma {:induction false} UnlinesIsJoin(lines: seq<string>)
    requires lines != []
    ensures Unlines(lines) == Join(lines) + "\n"
    decreases |lines|
  {
    if |lines| > 1 { UnlinesIsJoin(lines[1..]); }
  }
}
