/**
 The .env file: the upsert of setup/set-env.ts, a multi-line regular-expression replace on the
 raw text, against the line-wise lookup of setup/environment.ts.
 */
module EnvFile {
  import opened Options
  import opened Text

  // ---------- The upsert ----------

  /** /^[A-Z][A-Z0-9_]*$/ */
  predicate IsKey(key: string) {
    && key != "" && 'A' <= key[0] <= 'Z'
    && forall c :: c in key ==> 'A' <= c <= 'Z' || '0' <= c <= '9' || c == '_'
  }

  /** What `^`, `$` and `.` take for the end of a line. */
  predicate IsLineEnd(c: char) {
    c == '\n' || c == '\r' || c as int == 0x2028 || c as int == 0x2029
  }

  /** The regular expression ^key=.*$ matches at position `p`. */
  predicate MatchAt(content: string, key: string, p: nat) {
    p < |content| && (p > 0 ==> IsLineEnd(content[p - 1])) && key + "=" <= content[p..]
  }

  /** The leftmost match at or after `from`, or -1. */
  function FindMatch(content: string, key: string, from: nat): (p: int)
    ensures p == -1 ==> forall q: nat :: from <= q ==> !MatchAt(content, key, q)
    ensures p != -1 ==> from <= p && MatchAt(content, key, p) && forall q: nat :: from <= q < p ==> !MatchAt(content, key, q)
    decreases |content| - from
  {
    if from >= |content| then -1
    else if MatchAt(content, key, from) then from
    else FindMatch(content, key, from + 1)
  }

  /** Where `.*` stops: the first line end at or after `from`, or the end of the text. */
  function LineStop(content: string, from: nat): (q: nat)
    requires from <= |content|
    ensures from <= q <= |content| && (q < |content| ==> IsLineEnd(content[q]))
    ensures forall i :: from <= i < q ==> !IsLineEnd(content[i])
    decreases |content| - from
  {
    if from < |content| && !IsLineEnd(content[from]) then LineStop(content, from + 1) else from
  }

  predicate IsPattern(c: char) {
    c == '$' || c == '&' || c == '`' || c == '\''
  }

  /** What the replacement pattern `$c` stands for. */
  function Substitute(c: char, before: string, match_: string, after: string): string {
    if c == '$' then "$" else if c == '&' then match_ else if c == '`' then before else after
  }

  /** String.replace expands the replacement patterns from left to right; the regular expression has no groups. */
  function Expand(t: string, before: string, match_: string, after: string): string {
    if |t| >= 2 && t[0] == '$' && IsPattern(t[1]) then Substitute(t[1], before, match_, after) + Expand(t[2..], before, match_, after)
    else if t == "" then ""
    else [t[0]] + Expand(t[1..], before, match_, after)
  }

  function NewLine(key: string, value: string): string {
    key + "=" + value
  }

  function Upsert(content: string, key: string, value: string): string {
    var p := FindMatch(content, key, 0);
    if p != -1 then
      var q := LineStop(content, p);
      content[..p] + Expand(NewLine(key, value), content[..p], content[p..q], content[q..]) + content[q..]
    else
      content + (if content != "" && content[|content| - 1] != '\n' then "\n" else "") + NewLine(key, value) + "\n"
  }

  /** The step itself: None for a key that is refused; otherwise the new content and whether the key existed. */
  method SetEnv(content: string, key: string, value: string) returns (r: Option<(string, bool)>)
    ensures r == if IsKey(key) then Some((Upsert(content, key, value), exists p: nat :: MatchAt(content, key, p))) else None
  {
    if !IsKey(key) {
      return None;
    }
    var p := FindMatch(content, key, 0);
    var existed := p != -1;
    var updated := content;
    if existed {
      var q := LineStop(content, p);
      updated := content[..p] + Expand(NewLine(key, value), content[..p], content[p..q], content[q..]) + content[q..];
    } else {
      var sep := if content != "" && content[|content| - 1] != '\n' then "\n" else "";
      updated := content + sep + NewLine(key, value) + "\n";
    }
    r := Some((updated, existed));
  }

  // ---------- The lookup ----------

  /** The key and the value of a line, if it has them. */
  function ReadLine(line: string): Option<(string, string)> {
    var trimmed := Trim(line);
    if trimmed == "" || trimmed[0] == '#' then None
    else
      var eq := IndexOf(trimmed, '=');
      if eq < 1 then None else Some((trimmed[..eq], Trim(trimmed[eq + 1..])))
  }

  predicate Reads(line: string, key: string) {
    ReadLine(line).Some? && ReadLine(line).value.0 == key
  }

  /** The value of the first line that reads as `key`; an empty value counts as none. */
  function Lookup(lines: seq<string>, key: string): Option<string> {
    if lines == [] then None
    else if Reads(lines[0], key) then
      var value := ReadLine(lines[0]).value.1;
      if value == "" then None else Some(value)
    else Lookup(lines[1..], key)
  }

  function Read(content: string, key: string): Option<string> {
    Lookup(Lines(content), key)
  }

  method ReadEnvKey(content: string, key: string) returns (r: Option<string>)
    ensures r == Read(content, key)
  {
    var lines := Lines(content);
    for i := 0 to |lines|
      invariant Lookup(lines, key) == Lookup(lines[i..], key)
    {
      assert lines[i..][1..] == lines[i + 1..];
      var trimmed := Trim(lines[i]);
      if trimmed == "" || trimmed[0] == '#' {
        continue;
      }
      var eq := IndexOf(trimmed, '=');
      if eq < 1 {
        continue;
      }
      if trimmed[..eq] == key {
        var value := Trim(trimmed[eq + 1..]);
        return if value == "" then None else Some(value);
      }
    }
    r := None;
  }

  // ---------- The upsert, line by line ----------

  /** A value that one line can hold. */
  ghost predicate OneLine(value: string) {
    forall c :: c in value ==> !IsLineEnd(c)
  }

  /** None of `$$`, `$&`, `` $` `` and `$'` occurs in the value. */
  ghost predicate NoPattern(value: string) {
    forall i :: 0 <= i < |value| - 1 && value[i] == '$' ==> !IsPattern(value[i + 1])
  }

  /** The regular expression matches in the line: at its start, or behind a line end other than '\n'. */
  predicate Matches(line: string, key: string) {
    FindMatch(line, key, 0) != -1
  }

  function ReplaceFirst(lines: seq<string>, key: string, value: string): seq<string> {
    if lines == [] then []
    else if Matches(lines[0], key) then [Upsert(lines[0], key, value)] + lines[1..]
    else [lines[0]] + ReplaceFirst(lines[1..], key, value)
  }

  ghost predicate SomeMatch(lines: seq<string>, key: string) {
    exists line :: line in lines && Matches(line, key)
  }

  lemma {:induction false} ExpandPlain(t: string, before: string, match_: string, after: string)
    requires NoPattern(t)
    ensures Expand(t, before, match_, after) == t
    decreases |t|
  {
    if t != "" { ExpandPlain(t[1..], before, match_, after); }
  }

  lemma {:induction false} ExpandSkips(start: string, t: string, before: string, match_: string, after: string)
    requires '$' !in start
    ensures Expand(start + t, before, match_, after) == start + Expand(t, before, match_, after)
    decreases |start|
  {
    if start == "" {
      assert start + t == t;
    } else {
      assert (start + t)[0] == start[0] && start[0] in start && (start + t)[1..] == start[1..] + t;
      ExpandSkips(start[1..], t, before, match_, after);
    }
  }

  /** Only the value is expanded: a key holds no `$`. */
  lemma NewLineExpands(key: string, value: string, before: string, match_: string, after: string)
    requires IsKey(key)
    ensures Expand(NewLine(key, value), before, match_, after) == NewLine(key, Expand(value, before, match_, after))
  {
    var start := key + "=";
    assert NewLine(key, value) == start + value;
    ExpandSkips(start, value, before, match_, after);
  }

  lemma KeyIsPlain(key: string)
    requires IsKey(key)
    ensures forall i :: 0 <= i < |key + "="| ==> !IsLineEnd((key + "=")[i]) && !IsSpace((key + "=")[i])
    ensures '=' !in key && key[0] != '#'
  {
    forall i | 0 <= i < |key| ensures !IsLineEnd(key[i]) && !IsSpace(key[i]) {
      assert key[i] in key;
    }
  }

  /** Whether the key begins at a position of a line does not depend on what follows the line. */
  lemma MatchInLine(line: string, rest: string, key: string, q: nat)
    requires IsKey(key) && '\n' !in line && q <= |line|
    ensures MatchAt(line + "\n" + rest, key, q) <==> MatchAt(line, key, q)
  {
    var start, content := key + "=", line + "\n" + rest;
    KeyIsPlain(key);
    assert content[..|line|] == line && content[|line|] == '\n';
    if MatchAt(content, key, q) {
      assert forall i :: 0 <= i < |start| ==> content[q..][i] == start[i];
      forall k | q <= k < q + |start| ensures !IsLineEnd(content[k]) {
        assert content[k] == start[k - q];
      }
      assert q + |start| <= |line|;
      assert start == content[q..][..|start|] == content[q..q + |start|] == line[q..q + |start|] == line[q..][..|start|];
    }
    if MatchAt(line, key, q) {
      assert start == line[q..][..|start|] == content[q..][..|start|];
    }
  }

  lemma MatchShift(line: string, rest: string, key: string, q: nat)
    ensures MatchAt(line + "\n" + rest, key, |line| + 1 + q) <==> MatchAt(rest, key, q)
  {
    var content := line + "\n" + rest;
    if q <= |rest| {
      assert content[|line| + 1 + q..] == rest[q..];
    }
    assert content[|line|] == '\n';
    assert forall i :: 0 <= i < |rest| ==> content[|line| + 1 + i] == rest[i];
  }

  /** The leftmost match is where it is. */
  lemma FoundAt(content: string, key: string, p: nat)
    requires MatchAt(content, key, p) && forall q: nat :: q < p ==> !MatchAt(content, key, q)
    ensures FindMatch(content, key, 0) == p
  {
    var found := FindMatch(content, key, 0);
    assert found != -1;
  }

  /** The leftmost match is in the first line, or where it is in the rest. */
  lemma FindShift(line: string, rest: string, key: string)
    requires IsKey(key) && '\n' !in line
    ensures
      var content, p := line + "\n" + rest, FindMatch(rest, key, 0);
      FindMatch(content, key, 0) ==
      if Matches(line, key) then FindMatch(line, key, 0) else if p == -1 then -1 else |line| + 1 + p
  {
    hide MatchAt;
    var content := line + "\n" + rest;
    var p := FindMatch(rest, key, 0);
    forall q: nat | q <= |line| ensures MatchAt(content, key, q) <==> MatchAt(line, key, q) {
      MatchInLine(line, rest, key, q);
    }
    forall q: nat | q > |line| ensures MatchAt(content, key, q) <==> MatchAt(rest, key, q - |line| - 1) {
      MatchShift(line, rest, key, q - |line| - 1);
    }
    if Matches(line, key) {
      var first := FindMatch(line, key, 0);
      MatchInside(line, key, first);
      FoundAt(content, key, first);
    } else if p != -1 {
      FoundAt(content, key, |line| + 1 + p);
    } else {
      var found := FindMatch(content, key, 0);
      assert found == -1;
    }
  }

  lemma MatchInside(content: string, key: string, p: nat)
    requires MatchAt(content, key, p)
    ensures p < |content|
  {
  }

  lemma KeyInLine(content: string, key: string, p: nat, q: nat)
    requires IsKey(key) && MatchAt(content, key, p) && q == LineStop(content, p)
    ensures p + |key| + 1 <= q && key + "=" <= content[p..q]
  {
    KeyIsPlain(key);
    var start := key + "=";
    assert forall i :: 0 <= i < |start| ==> content[p..][i] == start[i];
    forall i | p <= i < p + |start| ensures !IsLineEnd(content[i]) {
      assert content[i] == start[i - p];
    }
  }

  lemma StopAt(content: string, from: nat, q: nat)
    requires from <= q <= |content| && (q < |content| ==> IsLineEnd(content[q]))
    requires forall i :: from <= i < q ==> !IsLineEnd(content[i])
    ensures LineStop(content, from) == q
  {
  }

  lemma StopShift(line: string, rest: string, p: nat)
    requires p <= |rest|
    ensures LineStop(line + "\n" + rest, |line| + 1 + p) == |line| + 1 + LineStop(rest, p)
  {
    var content := line + "\n" + rest;
    assert forall i :: 0 <= i < |rest| ==> content[|line| + 1 + i] == rest[i];
    StopAt(content, |line| + 1 + p, |line| + 1 + LineStop(rest, p));
  }

  lemma StopInLine(line: string, rest: string, p: nat)
    requires p <= |line|
    ensures LineStop(line + "\n" + rest, p) == LineStop(line, p)
  {
    var content := line + "\n" + rest;
    assert forall i :: 0 <= i < |line| ==> content[i] == line[i];
    assert content[|line|] == '\n';
    StopAt(content, p, LineStop(line, p));
  }

  lemma UpsertAt(content: string, key: string, value: string, p: nat, q: nat)
    requires IsKey(key) && NoPattern(value)
    requires FindMatch(content, key, 0) == p && p <= |content| && q == LineStop(content, p)
    ensures Upsert(content, key, value) == content[..p] + NewLine(key, value) + content[q..]
  {
    hide Expand, MatchAt, NoPattern, IsKey, FindMatch, LineStop, NewLine;
    NewLineExpands(key, value, content[..p], content[p..q], content[q..]);
    ExpandPlain(value, content[..p], content[p..q], content[q..]);
  }

  lemma UpsertFirstLine(line: string, rest: string, key: string, value: string)
    requires IsKey(key) && NoPattern(value) && '\n' !in line && Matches(line, key)
    ensures Upsert(line + "\n" + rest, key, value) == Upsert(line, key, value) + "\n" + rest
  {
    hide Upsert, NewLine, LineStop, MatchAt, FindMatch, NoPattern, IsKey;
    var content := line + "\n" + rest;
    FindShift(line, rest, key);
    var p := FindMatch(line, key, 0);
    MatchInside(line, key, p);
    StopInLine(line, rest, p);
    var q := LineStop(line, p);
    UpsertAt(content, key, value, p, q);
    UpsertAt(line, key, value, p, q);
    assert content[..p] == line[..p] && content[q..] == line[q..] + "\n" + rest;
  }

  lemma UpsertLaterLine(line: string, rest: string, key: string, value: string)
    requires IsKey(key) && NoPattern(value) && '\n' !in line && !Matches(line, key) && FindMatch(rest, key, 0) != -1
    ensures Upsert(line + "\n" + rest, key, value) == line + "\n" + Upsert(rest, key, value)
  {
    hide Upsert, NewLine, LineStop, MatchAt, FindMatch, NoPattern, IsKey;
    var content := line + "\n" + rest;
    FindShift(line, rest, key);
    var p := FindMatch(rest, key, 0);
    MatchInside(rest, key, p);
    StopShift(line, rest, p);
    var q := LineStop(rest, p);
    UpsertAt(rest, key, value, p, q);
    UpsertAt(content, key, value, |line| + 1 + p, |line| + 1 + q);
    assert content[..|line| + 1 + p] == line + "\n" + rest[..p];
    assert content[|line| + 1 + q..] == rest[q..];
  }

  /** The multi-line pattern matches somewhere exactly when it matches in one of the lines. */
  lemma {:induction false} MatchIsInLine(content: string, key: string)
    requires IsKey(key)
    ensures FindMatch(content, key, 0) != -1 <==> SomeMatch(Lines(content), key)
    decreases |content|
  {
    hide Lines, MatchAt, FindMatch, IsKey;
    var line, more, rest := FirstLine(content);
    if more {
      MatchIsInLine(rest, key);
      FindShift(line, rest, key);
      assert line in Lines(content);
      assert forall l :: l in Lines(content) <==> l == line || l in Lines(rest);
    } else {
      assert Lines(content) == [content] && content in [content];
    }
  }

  /** A replace changes the first line with a match, as if that line were the whole text, and no other. */
  lemma {:induction false} ReplacedLines(content: string, key: string, value: string)
    requires IsKey(key) && OneLine(value) && NoPattern(value) && SomeMatch(Lines(content), key)
    ensures Lines(Upsert(content, key, value)) == ReplaceFirst(Lines(content), key, value)
    decreases |content|
  {
    hide Lines, Upsert, FindMatch, MatchAt, NoPattern, OneLine, IsKey, Matches;
    var line, more, rest := FirstLine(content);
    var lines := Lines(rest);
    if Matches(line, key) {
      UpsertStaysOpen(line, key, value);
      if more {
        UpsertFirstLine(line, rest, key, value);
        LinesCons(Upsert(line, key, value), rest);
        assert ([line] + lines)[1..] == lines;
      } else {
        OneLineOnly(Upsert(line, key, value));
        assert [line][1..] == [];
      }
    } else {
      assert more by { assert forall l :: l in [line] ==> l == line; }
      assert forall l :: l in Lines(content) <==> l == line || l in lines;
      MatchIsInLine(rest, key);
      UpsertLaterLine(line, rest, key, value);
      ReplacedLines(rest, key, value);
      LinesCons(line, Upsert(rest, key, value));
      assert ([line] + lines)[1..] == lines;
    }
  }

  lemma OneLineOnly(line: string)
    requires '\n' !in line
    ensures Lines(line) == [line]
  {
    assert line[0..] == line;
  }

  lemma UpsertStaysOpen(line: string, key: string, value: string)
    requires IsKey(key) && OneLine(value) && NoPattern(value) && '\n' !in line && Matches(line, key)
    ensures '\n' !in Upsert(line, key, value)
  {
    hide NoPattern, LineStop, MatchAt, FindMatch, IsKey, Upsert;
    var p := FindMatch(line, key, 0);
    MatchInside(line, key, p);
    UpsertAt(line, key, value, p, LineStop(line, p));
    LineOpen(key, value);
  }

  lemma LineOpen(key: string, value: string)
    requires IsKey(key) && OneLine(value)
    ensures '\n' !in NewLine(key, value)
  {
    assert IsLineEnd('\n');
  }

  lemma AppendAt(content: string, key: string, value: string)
    requires FindMatch(content, key, 0) == -1
    ensures Upsert(content, key, value) ==
            if content == "" || content[|content| - 1] == '\n' then content + (NewLine(key, value) + "\n")
            else content + ("\n" + (NewLine(key, value) + "\n"))
  {
    hide FindMatch, NewLine;
    assert content + "" == content;
  }

  /** A new key goes at the end, on a line of its own. */
  lemma AppendedLines(content: string, key: string, value: string)
    requires IsKey(key) && OneLine(value) && !SomeMatch(Lines(content), key)
    ensures
      var lines := Lines(content);
      Lines(Upsert(content, key, value)) ==
      (if lines[|lines| - 1] == "" then lines[..|lines| - 1] else lines) + [NewLine(key, value), ""]
  {
    hide Lines, MatchAt, FindMatch, OneLine, Upsert, NewLine, IsKey, SomeMatch;
    MatchIsInLine(content, key);
    AppendAt(content, key, value);
    LastLine(content);
    NewLineAlone(key, value);
    var lines := Lines(content);
    var last := lines[|lines| - 1];
    var added := NewLine(key, value) + "\n";
    if last == "" {
      LinesAppend(content, added);
      assert last + added == added;
    } else {
      LinesAppend(content, "\n" + added);
      LinesCons(last, added);
      assert last + ("\n" + added) == last + "\n" + added;
      assert lines == lines[..|lines| - 1] + [last];
    }
  }

  lemma NewLineAlone(key: string, value: string)
    requires IsKey(key) && OneLine(value)
    ensures Lines(NewLine(key, value) + "\n") == [NewLine(key, value), ""]
  {
    hide Lines, NewLine;
    LineOpen(key, value);
    var line := NewLine(key, value);
    LinesCons(line, "");
    OneLineOnly("");
    assert line + "\n" + "" == line + "\n";
  }

  lemma {:induction false} LastLine(content: string)
    ensures Lines(content)[|Lines(content)| - 1] == "" <==> content == "" || content[|content| - 1] == '\n'
    decreases |content|
  {
    hide Lines;
    var line, more, rest := FirstLine(content);
    if more {
      LastLine(rest);
    }
  }

  lemma NewLineHasNoEnd(key: string, value: string)
    requires IsKey(key) && OneLine(value)
    ensures forall i :: 0 <= i < |NewLine(key, value)| ==> !IsLineEnd(NewLine(key, value)[i])
  {
    KeyIsPlain(key);
    var line := NewLine(key, value);
    forall i | 0 <= i < |line| ensures !IsLineEnd(line[i]) {
      if i < |key + "="| {
        assert line[i] == (key + "=")[i];
      } else {
        assert line[i] in value;
      }
    }
  }
}
