/**
 What replacement patterns in a value do to the upsert of setup/set-env.ts: exactly when a line is
 stored as given, and exactly when a second identical upsert changes nothing.
 */
module EnvPatterns {
  import opened EnvFile

  ghost predicate HasEnd(s: string) {
    exists c :: c in s && IsLineEnd(c)
  }

  /** Expanding the value meets the pattern `$c`. */
  predicate Uses(t: string, c: char) {
    if |t| >= 2 && t[0] == '$' && IsPattern(t[1]) then t[1] == c || Uses(t[2..], c)
    else t != "" && Uses(t[1..], c)
  }

  lemma {:induction false} PlainUsesNone(t: string, c: char)
    requires NoPattern(t)
    ensures !Uses(t, c)
    decreases |t|
  {
    if t != "" { PlainUsesNone(t[1..], c); }
  }

  // ---------- Stored as given ----------

  /** What a replace finds around a line: line ends on both sides, or nothing; the line begins with the key. */
  ghost predicate Around(before: string, match_: string, after: string) {
    && (before == "" || HasEnd(before)) && (after == "" || HasEnd(after))
    && !HasEnd(match_) && match_ != "" && 'A' <= match_[0] <= 'Z'
  }

  ghost predicate OnlyMarks(w: string) {
    forall c :: c in w ==> c == '$' || c == '`' || c == '\''
  }

  lemma EndStays(a: string, b: string)
    ensures HasEnd(a + b) <==> HasEnd(a) || HasEnd(b)
  {
    if c :| c in a && IsLineEnd(c) { assert c in a + b; }
    if c :| c in b && IsLineEnd(c) { assert c in a + b; }
  }

  /** What an earlier pattern has removed cannot be made up for further on. */
  lemma {:induction false} NeverCatchesUp(w: string, t: string, before: string, match_: string, after: string)
    requires w != "" && OnlyMarks(w) && OneLine(t) && Around(before, match_, after)
    ensures Expand(t, before, match_, after) != w + t
    decreases |t|
  {
    hide IsLineEnd, OneLine, HasEnd;
    MarksAndLinesHaveNoEnd(w, t);
    if |t| >= 2 && t[0] == '$' && IsPattern(t[1]) {
      var rest := Expand(t[2..], before, match_, after);
      var sub := Substitute(t[1], before, match_, after);
      EndStays(sub, rest);
      LineSuffix(t, 2);
      if t[1] == '$' {
        assert (sub + rest)[1..] == rest && (w + t)[1..] == w[1..] + t[..2] + t[2..];
        TailMarks(w, t[..2]);
        NeverCatchesUp(w[1..] + t[..2], t[2..], before, match_, after);
      } else if t[1] == '&' {
        assert (sub + rest)[0] == match_[0] && (w + t)[0] == w[0] && w[0] in w;
      } else if sub == "" {
        assert sub + rest == rest && w + t == w + t[..2] + t[2..];
        NeverCatchesUp(w + t[..2], t[2..], before, match_, after);
      }
    } else if t != "" {
      var rest := Expand(t[1..], before, match_, after);
      assert ([t[0]] + rest)[1..] == rest && ([t[0]] + rest)[0] == t[0];
      assert (w + t)[0] == w[0] && (w + t)[1..] == w[1..] + [t[0]] + t[1..];
      LineSuffix(t, 1);
      if t[0] == w[0] {
        assert w[0] in w;
        TailMarks(w, [t[0]]);
        NeverCatchesUp(w[1..] + [t[0]], t[1..], before, match_, after);
      }
    }
  }

  lemma MarksAndLinesHaveNoEnd(w: string, t: string)
    requires OnlyMarks(w) && OneLine(t)
    ensures !HasEnd(w + t)
  {
  }

  lemma LineSuffix(t: string, n: nat)
    requires OneLine(t) && n <= |t|
    ensures OneLine(t[n..])
  {
  }

  lemma TailMarks(w: string, more: string)
    requires w != "" && OnlyMarks(w) && OnlyMarks(more)
    ensures OnlyMarks(w[1..] + more)
  {
    assert forall c :: c in w[1..] ==> c in w;
  }

  lemma PatternIsExpanded(t: string, before: string, match_: string, after: string)
    requires OneLine(t) && Around(before, match_, after)
    requires |t| >= 2 && t[0] == '$' && IsPattern(t[1])
    ensures Expand(t, before, match_, after) != t
  {
    hide IsLineEnd, OneLine, HasEnd;
    var rest := Expand(t[2..], before, match_, after);
    var sub := Substitute(t[1], before, match_, after);
    EndStays(sub, rest);
    MarksAndLinesHaveNoEnd("", t);
    assert "" + t == t;
    LineSuffix(t, 2);
    if t[1] == '$' {
      assert (sub + rest)[1..] == rest && t[1..] == "$" + t[2..];
      NeverCatchesUp("$", t[2..], before, match_, after);
    } else if t[1] == '&' {
      assert (sub + rest)[0] == match_[0];
    } else if sub == "" {
      assert sub + rest == rest && t == t[..2] + t[2..];
      NeverCatchesUp(t[..2], t[2..], before, match_, after);
    }
  }

  lemma PatternLater(t: string)
    requires t != "" && !(|t| >= 2 && t[0] == '$' && IsPattern(t[1]))
    ensures NoPattern(t) <==> NoPattern(t[1..])
  {
    if !NoPattern(t) {
      var i :| 0 <= i < |t| - 1 && t[i] == '$' && IsPattern(t[i + 1]);
      assert t[1..][i - 1] == '$';
    }
    assert forall i :: 0 <= i < |t[1..]| ==> t[1..][i] == t[i + 1];
  }

  /** A value survives expansion exactly when it holds no replacement pattern. */
  lemma {:induction false} ExpandsToItselfExactlyWhen(t: string, before: string, match_: string, after: string)
    requires OneLine(t) && Around(before, match_, after)
    ensures Expand(t, before, match_, after) == t <==> NoPattern(t)
    decreases |t|
  {
    hide OneLine, Around, Substitute;
    if t != "" {
      if |t| >= 2 && t[0] == '$' && IsPattern(t[1]) {
        PatternIsExpanded(t, before, match_, after);
      } else {
        hide NoPattern;
        var rest := Expand(t[1..], before, match_, after);
        assert ([t[0]] + rest)[1..] == rest && t == [t[0]] + t[1..];
        PatternLater(t);
        LineSuffix(t, 1);
        ExpandsToItselfExactlyWhen(t[1..], before, match_, after);
      }
    }
  }

  // ---------- The stored line ----------

  /** The text around a match of the regular expression is as a replace needs it. */
  lemma MatchAround(content: string, key: string, p: nat, q: nat)
    requires IsKey(key) && MatchAt(content, key, p) && q == LineStop(content, p)
    ensures Around(content[..p], content[p..q], content[q..])
    ensures key + "=" <= content[p..q]
  {
    var before, match_, after := content[..p], content[p..q], content[q..];
    if p > 0 { assert before[p - 1] in before; }
    if q < |content| { assert after[0] in after; }
    KeyInLine(content, key, p, q);
    assert forall c :: c in match_ ==> !IsLineEnd(c);
    assert match_[0] == key[0];
  }

  /**
   A replace stores the line as given if and only if the value holds none of `$$`, `$&`, `` $` `` and `$'`.
   */
  lemma StoredAsGivenExactlyWhen(content: string, key: string, value: string)
    requires IsKey(key) && OneLine(value) && FindMatch(content, key, 0) != -1
    ensures
      var p := FindMatch(content, key, 0);
      Upsert(content, key, value) == content[..p] + NewLine(key, value) + content[LineStop(content, p)..] <==> NoPattern(value)
  {
    hide IsKey, OneLine, NoPattern, Expand, FindMatch, MatchAt, LineStop;
    var p := FindMatch(content, key, 0);
    MatchInside(content, key, p);
    var q := LineStop(content, p);
    var before, match_, after := content[..p], content[p..q], content[q..];
    MatchAround(content, key, p, q);
    NewLineExpands(key, value, before, match_, after);
    ExpandsToItselfExactlyWhen(value, before, match_, after);
    SameMiddle(before, NewLine(key, Expand(value, before, match_, after)), NewLine(key, value), after);
    SameMiddle(key + "=", Expand(value, before, match_, after), value, "");
    NewLineIs(key, value);
    NewLineIs(key, Expand(value, before, match_, after));
  }

  lemma NewLineIs(key: string, value: string)
    ensures NewLine(key, value) == key + "=" + value + ""
  {
  }

  lemma SameMiddle(a: string, x: string, y: string, b: string)
    ensures a + x + b == a + y + b <==> x == y
  {
    if a + x + b == a + y + b {
      assert |x| == |y|;
      assert x == (a + x + b)[|a|..|a| + |x|] && y == (a + y + b)[|a|..|a| + |y|];
    }
  }

  // ---------- What an expansion consists of ----------

  lemma {:induction false} ExpansionHasEnd(t: string, before: string, match_: string, after: string)
    requires (Uses(t, '`') && HasEnd(before)) || (Uses(t, '\'') && HasEnd(after))
    ensures HasEnd(Expand(t, before, match_, after))
    decreases |t|
  {
    hide HasEnd;
    if |t| >= 2 && t[0] == '$' && IsPattern(t[1]) {
      EndStays(Substitute(t[1], before, match_, after), Expand(t[2..], before, match_, after));
      if (Uses(t[2..], '`') && HasEnd(before)) || (Uses(t[2..], '\'') && HasEnd(after)) {
        ExpansionHasEnd(t[2..], before, match_, after);
      }
    } else {
      EndStays([t[0]], Expand(t[1..], before, match_, after));
      ExpansionHasEnd(t[1..], before, match_, after);
    }
  }

  lemma {:induction false} ExpansionHasNoEnd(t: string, before: string, match_: string, after: string)
    requires OneLine(t) && !HasEnd(match_)
    requires (Uses(t, '`') ==> before == "") && (Uses(t, '\'') ==> after == "")
    ensures !HasEnd(Expand(t, before, match_, after))
    decreases |t|
  {
    if |t| >= 2 && t[0] == '$' && IsPattern(t[1]) {
      EndStays(Substitute(t[1], before, match_, after), Expand(t[2..], before, match_, after));
      ExpansionHasNoEnd(t[2..], before, match_, after);
    } else if t != "" {
      EndStays([t[0]], Expand(t[1..], before, match_, after));
      ExpansionHasNoEnd(t[1..], before, match_, after);
    }
  }

  /** Only `$&` looks at the old line. */
  lemma {:induction false} OldLineUnread(t: string, before: string, a: string, b: string, after: string)
    requires !Uses(t, '&')
    ensures Expand(t, before, a, after) == Expand(t, before, b, after)
    decreases |t|
  {
    if |t| >= 2 && t[0] == '$' && IsPattern(t[1]) {
      OldLineUnread(t[2..], before, a, b, after);
    } else if t != "" {
      OldLineUnread(t[1..], before, a, b, after);
    }
  }

  /** And then a longer old line makes a longer expansion. */
  lemma {:induction false} OldLineCounts(t: string, before: string, old_: string, longer: string, after: string)
    requires |longer| > |old_|
    ensures |Expand(t, before, longer, after)| >= |Expand(t, before, old_, after)|
    ensures Uses(t, '&') ==> |Expand(t, before, longer, after)| > |Expand(t, before, old_, after)| >= |old_|
    decreases |t|
  {
    if |t| >= 2 && t[0] == '$' && IsPattern(t[1]) {
      OldLineCounts(t[2..], before, old_, longer, after);
    } else if t != "" {
      OldLineCounts(t[1..], before, old_, longer, after);
    }
  }

  // ---------- The second upsert ----------

  ghost predicate LineStart(b: string) {
    b == "" || IsLineEnd(b[|b| - 1])
  }

  /** Whether the key begins a line inside `b` does not depend on what follows `b`. */
  lemma MatchesBefore(b: string, x: string, y: string, key: string, q: nat)
    requires IsKey(key) && LineStart(b) && q < |b| && MatchAt(b + x, key, q)
    ensures MatchAt(b + y, key, q)
  {
    KeyIsPlain(key);
    var start := key + "=";
    var text := b + x;
    assert forall i :: 0 <= i < |start| ==> text[q..][i] == start[i];
    forall k | q <= k < q + |start| ensures !IsLineEnd(text[k]) {
      assert text[k] == start[k - q];
    }
    assert text[|b| - 1] == b[|b| - 1] && q + |start| < |b|;
    assert text[q..][..|start|] == b[q..q + |start|] == (b + y)[q..][..|start|];
  }

  lemma FoundBehind(b: string, x: string, y: string, key: string)
    requires IsKey(key) && LineStart(b) && key + "=" <= x
    requires forall q: nat :: q < |b| ==> !MatchAt(b + y, key, q)
    ensures FindMatch(b + x, key, 0) == |b| && MatchAt(b + x, key, |b|)
  {
    forall q: nat | q < |b| ensures !MatchAt(b + x, key, q) {
      if MatchAt(b + x, key, q) { MatchesBefore(b, x, y, key, q); }
    }
    assert (b + x)[|b|..] == x;
    FoundAt(b + x, key, |b|);
  }

  /** The upsert of a text with a match at `p`, in terms of what stands around it. */
  lemma UpsertFound(content: string, key: string, value: string, b: string, m: string, a: string)
    requires IsKey(key) && content == b + m + a && FindMatch(content, key, 0) == |b| && LineStop(content, |b|) == |b| + |m|
    ensures Upsert(content, key, value) == b + (key + "=" + Expand(value, b, m, a)) + a
  {
    hide FindMatch, LineStop, Expand, IsKey;
    assert content[..|b|] == b && content[|b|..|b| + |m|] == m && content[|b| + |m|..] == a;
    NewLineExpands(key, value, b, m, a);
    NewLineIs(key, Expand(value, b, m, a));
  }

  lemma CutAt(b: string, x: string, q: nat)
    requires |b| <= q <= |b + x|
    ensures (b + x)[..|b|] == b && b + x == b + (b + x)[|b|..q] + (b + x)[q..]
    ensures x == (b + x)[|b|..q] + (b + x)[q..]
  {
    assert (b + x)[|b|..] == x;
  }

  /**
   The second upsert of a text in which line `m` is the key's: it changes nothing exactly when the
   expansion of the value is what stands there already.
   */
  lemma SecondUpsert(b: string, x: string, a: string, y: string, key: string, value: string) returns (m: string, rest: string)
    requires IsKey(key) && LineStart(b) && key + "=" <= x && (a == "" || IsLineEnd(a[0]))
    requires forall q: nat :: q < |b| ==> !MatchAt(b + y, key, q)
    ensures x + a == m + rest && Around(b, m, rest)
    ensures !HasEnd(x) ==> m == x && rest == a
    ensures Upsert(b + x + a, key, value) == b + x + a <==> key + "=" + Expand(value, b, m, rest) == m
  {
    hide IsKey, Upsert, FindMatch, Expand, MatchAt, Around, HasEnd, LineStart, LineStop;
    var content := b + (x + a);
    assert b + x + a == content && key + "=" <= x + a;
    FoundBehind(b, x + a, y, key);
    MatchInside(content, key, |b|);
    var q := LineStop(content, |b|);
    m, rest := content[|b|..q], content[q..];
    CutAt(b, x + a, q);
    MatchAround(content, key, |b|, q);
    if !HasEnd(x) { StopsBehind(b, x, a); }
    UpsertFound(content, key, value, b, m, rest);
    SameMiddle(b, key + "=" + Expand(value, b, m, rest), m, rest);
  }

  lemma StopsBehind(b: string, x: string, a: string)
    requires !HasEnd(x) && (a == "" || IsLineEnd(a[0]))
    ensures LineStop(b + x + a, |b|) == |b| + |x|
    ensures (b + x + a)[|b|..|b| + |x|] == x && (b + x + a)[|b| + |x|..] == a
  {
    var content := b + x + a;
    forall i | |b| <= i < |b| + |x| ensures !IsLineEnd(content[i]) {
      assert content[i] == x[i - |b|] && x[i - |b|] in x;
    }
    StopAt(content, |b|, |b| + |x|);
  }

  /** Expanding the value again gives the same: it neither refers to its own old line nor to text around it. */
  ghost predicate Settled(value: string, before: string, after: string) {
    && !Uses(value, '&')
    && (Uses(value, '`') ==> before == "")
    && (Uses(value, '\'') ==> after == "")
  }

  lemma TwiceReplaced(b: string, m: string, a: string, key: string, value: string)
    requires IsKey(key) && OneLine(value) && Around(b, m, a) && LineStart(b) && (a == "" || IsLineEnd(a[0]))
    requires forall q: nat :: q < |b| ==> !MatchAt(b + (m + a), key, q)
    ensures
      var once := b + (key + "=" + Expand(value, b, m, a)) + a;
      Upsert(once, key, value) == once <==> Settled(value, b, a)
  {
    hide IsKey, OneLine, Expand, MatchAt, Upsert, HasEnd, LineStart, Uses;
    var e := Expand(value, b, m, a);
    var start := key + "=";
    var x := start + e;
    var old_, rest := SecondUpsert(b, x, a, m + a, key, value);
    var again := Expand(value, b, old_, rest);
    EndStays(x, a);
    EndStays(old_, rest);
    EndStays(start, again);
    if (Uses(value, '`') ==> b == "") && (Uses(value, '\'') ==> a == "") {
      ExpansionHasNoEnd(value, b, m, a);
      StartHasNoEnd(key);
      EndStays(start, e);
      SameMiddle(start, again, e, "");
      assert start + again + "" == start + again && start + e + "" == start + e;
      if Uses(value, '&') {
        OldLineIsInside(value, b, m, a);
        OldLineCounts(value, b, m, old_, a);
      } else {
        OldLineUnread(value, b, m, old_, a);
      }
    } else {
      ExpansionHasEnd(value, b, old_, rest);
    }
  }

  lemma StartHasNoEnd(key: string)
    requires IsKey(key)
    ensures !HasEnd(key + "=")
  {
    KeyIsPlain(key);
    var start := key + "=";
    forall c | c in start ensures !IsLineEnd(c) {
      var i :| 0 <= i < |start| && start[i] == c;
    }
  }

  lemma {:induction false} OldLineIsInside(value: string, b: string, m: string, a: string)
    requires Uses(value, '&')
    ensures |Expand(value, b, m, a)| >= |m|
  {
    OldLineCounts(value, b, m, m + "x", a);
  }

  lemma BreakAddsNone(content: string, key: string, q: nat)
    requires IsKey(key) && MatchAt(content + "\n", key, q)
    ensures MatchAt(content, key, q)
  {
    KeyIsPlain(key);
    var start, text := key + "=", content + "\n";
    assert forall i :: 0 <= i < |start| ==> text[q..][i] == start[i];
    forall k | q <= k < q + |start| ensures !IsLineEnd(text[k]) {
      assert text[k] == start[k - q];
    }
    assert IsLineEnd(text[|content|]) && q + |start| <= |content|;
    assert text[q..][..|start|] == content[q..q + |start|] == content[q..][..|start|];
  }

  lemma TwiceAppended(content: string, key: string, value: string)
    requires IsKey(key) && OneLine(value) && FindMatch(content, key, 0) == -1
    ensures
      var once := Upsert(content, key, value);
      Upsert(once, key, value) == once <==> NoPattern(value)
  {
    hide IsKey, OneLine, NoPattern, Expand, MatchAt, Upsert, HasEnd, FindMatch;
    var b := if content == "" || content[|content| - 1] == '\n' then content else content + "\n";
    AppendAt(content, key, value);
    var line := NewLine(key, value);
    var once := b + line + "\n";
    assert Upsert(content, key, value) == once;
    forall q: nat | q < |b| ensures !MatchAt(b + "", key, q) {
      assert b + "" == b;
      if b != content && MatchAt(b, key, q) { BreakAddsNone(content, key, q); }
    }
    NewLineIs(key, value);
    LineHasNoEnd(key, value);
    var old_, rest := SecondUpsert(b, line, "\n", "", key, value);
    ExpandsToItselfExactlyWhen(value, b, line, "\n");
    SameMiddle(key + "=", Expand(value, b, line, "\n"), value, "");
    assert key + "=" + Expand(value, b, line, "\n") + "" == key + "=" + Expand(value, b, line, "\n");
  }

  lemma LineHasNoEnd(key: string, value: string)
    requires IsKey(key) && OneLine(value)
    ensures !HasEnd(NewLine(key, value))
  {
    NewLineHasNoEnd(key, value);
    var line := NewLine(key, value);
    forall c | c in line ensures !IsLineEnd(c) {
      var i :| 0 <= i < |line| && line[i] == c;
    }
  }

  /** What a value must not hold for a second upsert to change nothing. */
  ghost predicate Repeatable(content: string, key: string, value: string) {
    var p := FindMatch(content, key, 0);
    if p == -1 then NoPattern(value) else Settled(value, content[..p], content[LineStop(content, p)..])
  }

  /**
   Main result: a second identical upsert changes nothing if and only if the value holds no replacement
   pattern, when the first upsert appends; and when it replaces, if and only if the value uses no `$&`,
   no `` $` `` behind other text and no `$'` before other text.
   */
  lemma UpsertTwiceExactlyWhen(content: string, key: string, value: string)
    requires IsKey(key) && OneLine(value)
    ensures
      var once := Upsert(content, key, value);
      Upsert(once, key, value) == once <==> Repeatable(content, key, value)
    ensures NoPattern(value) ==> Repeatable(content, key, value)
  {
    hide IsKey, OneLine, NoPattern, Expand, MatchAt, Around, LineStop, FindMatch, Upsert;
    if NoPattern(value) {
      PlainUsesNone(value, '&');
      PlainUsesNone(value, '`');
      PlainUsesNone(value, '\'');
    }
    var p := FindMatch(content, key, 0);
    if p == -1 {
      TwiceAppended(content, key, value);
    } else {
      MatchInside(content, key, p);
      var q := LineStop(content, p);
      var b, m, a := content[..p], content[p..q], content[q..];
      assert content == b + m + a && content == b + (m + a);
      MatchAround(content, key, p, q);
      StartsLine(content, key, p);
      UpsertFound(content, key, value, b, m, a);
      TwiceReplaced(b, m, a, key, value);
    }
  }

  lemma StartsLine(content: string, key: string, p: nat)
    requires MatchAt(content, key, p)
    ensures LineStart(content[..p])
  {
  }

  /** The pattern `$&` puts the old line into the new one. */
  lemma DollarIsExpanded()
    ensures Upsert("A=1", "A", "$&") == "A=A=1"
  {
    hide Expand;
    var content := "A=1";
    assert MatchAt(content, "A", 0);
    FoundAt(content, "A", 0);
    StopAt(content, 0, 3);
    assert content == "" + content + "" && "A" + "=" == "A=";
    ExpandsToOldLine(content);
    UpsertFound(content, "A", "$&", "", content, "");
  }

  lemma ExpandsToOldLine(line: string)
    ensures Expand("$&", "", line, "") == line
  {
    assert "$&"[2..] == "" && line + "" == line;
  }
}
