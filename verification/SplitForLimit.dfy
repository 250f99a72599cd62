/** Cutting a text into messages a platform accepts: `splitForLimit` in src/channels/chat-sdk-bridge.ts. */
module Splitting {
  import opened Text

  predicate At(s: string, pattern: string, i: nat) {
    i + |pattern| <= |s| && s[i..i + |pattern|] == pattern
  }

  /** lastIndexOf(pattern, from): the last occurrence that begins at `from` or before, or -1. */
  function LastIndexOf(s: string, pattern: string, from: nat): (i: int)
    ensures i == -1 ==> forall k: nat :: k <= from ==> !At(s, pattern, k)
    ensures i != -1 ==> 0 <= i <= from && At(s, pattern, i) && forall k: nat :: i < k <= from ==> !At(s, pattern, k)
    decreases from
  {
    if At(s, pattern, from) then from else if from == 0 then -1 else LastIndexOf(s, pattern, from - 1)
  }

  /** Where the next chunk ends: before a paragraph break, a newline or a space if there is one past position 0. */
  function Cut(remaining: string, limit: nat): (cut: nat)
    ensures cut <= limit && (limit > 0 ==> cut > 0)
  {
    var paragraph := LastIndexOf(remaining, "\n\n", limit);
    if paragraph > 0 then paragraph
    else
      var newline := LastIndexOf(remaining, "\n", limit);
      if newline > 0 then newline
      else
        var space := LastIndexOf(remaining, " ", limit);
        if space > 0 then space else limit
  }

  /** When the loop comes to an end; `EndsExactlyWhen` shows that this is exact. */
  ghost predicate Ends(text: string, limit: nat) {
    limit > 0 || Blank(text)
  }

  lemma RestShrinks(remaining: string, limit: nat)
    requires Ends(remaining, limit) && |remaining| > limit
    ensures var rest := TrimStart(remaining[Cut(remaining, limit)..]); |rest| < |remaining| && Ends(rest, limit)
  {
    if limit == 0 {
      TrimStartSkips(remaining, "");
      assert remaining + "" == remaining && remaining[0..] == remaining;
    }
  }

  function Pieces(remaining: string, limit: nat): seq<string>
    requires Ends(remaining, limit)
    decreases |remaining|
  {
    if |remaining| > limit then
      var cut := Cut(remaining, limit);
      RestShrinks(remaining, limit);
      [TrimEnd(remaining[..cut])] + Pieces(TrimStart(remaining[cut..]), limit)
    else if |remaining| > 0 then [remaining]
    else []
  }

  function Split(text: string, limit: nat): seq<string>
    requires Ends(text, limit)
  {
    if |text| <= limit then [text] else Pieces(text, limit)
  }

  method SplitForLimit(text: string, limit: nat) returns (chunks: seq<string>)
    requires Ends(text, limit)
    ensures chunks == Split(text, limit)
  {
    hide At, TrimEnd, TrimStart, Blank;
    if |text| <= limit {
      return [text];
    }
    chunks := [];
    var remaining := text;
    while |remaining| > limit
      invariant Ends(remaining, limit)
      invariant Pieces(text, limit) == chunks + Pieces(remaining, limit)
      decreases |remaining|
    {
      var cut := LastIndexOf(remaining, "\n\n", limit);
      if cut <= 0 { cut := LastIndexOf(remaining, "\n", limit); }
      if cut <= 0 { cut := LastIndexOf(remaining, " ", limit); }
      if cut <= 0 { cut := limit; }
      assert cut == Cut(remaining, limit);
      RestShrinks(remaining, limit);
      chunks := chunks + [TrimEnd(remaining[..cut])];
      remaining := TrimStart(remaining[cut..]);
    }
    if |remaining| > 0 {
      chunks := chunks + [remaining];
    }
  }

  // ---------- Where it cuts ----------

  ghost predicate Within(s: string, pattern: string, limit: nat) {
    exists k: nat :: 1 <= k <= limit && At(s, pattern, k)
  }

  ghost predicate LastWithin(s: string, pattern: string, limit: nat, k: nat) {
    1 <= k <= limit && At(s, pattern, k) && forall j: nat :: k < j <= limit ==> !At(s, pattern, j)
  }

  /**
   The cut is the last paragraph break at positions 1..limit, else the last newline there, else the
   last space there; a hard cut happens exactly when there is no newline and no space there.
   */
  lemma CutIsBest(remaining: string, limit: nat)
    ensures
      var cut := Cut(remaining, limit);
      if Within(remaining, "\n\n", limit) then LastWithin(remaining, "\n\n", limit, cut)
      else if Within(remaining, "\n", limit) then LastWithin(remaining, "\n", limit, cut)
      else if Within(remaining, " ", limit) then LastWithin(remaining, " ", limit, cut)
      else cut == limit
  {
    var paragraph := LastIndexOf(remaining, "\n\n", limit);
    var newline := LastIndexOf(remaining, "\n", limit);
    var space := LastIndexOf(remaining, " ", limit);
    assert paragraph > 0 <==> Within(remaining, "\n\n", limit);
    assert newline > 0 <==> Within(remaining, "\n", limit);
    assert space > 0 <==> Within(remaining, " ", limit);
  }

  // ---------- Whether it ends ----------

  /** What is left after `n` turns of the loop, or when it ends before. */
  function RestAfter(remaining: string, limit: nat, n: nat): string
    decreases n
  {
    if n == 0 || |remaining| <= limit then remaining
    else RestAfter(TrimStart(remaining[Cut(remaining, limit)..]), limit, n - 1)
  }

  lemma {:induction false} Finishes(remaining: string, limit: nat) returns (n: nat)
    requires Ends(remaining, limit)
    ensures |RestAfter(remaining, limit, n)| <= limit
    decreases |remaining|
  {
    hide Cut, Ends;
    if |remaining| <= limit {
      n := 0;
    } else {
      RestShrinks(remaining, limit);
      var m := Finishes(TrimStart(remaining[Cut(remaining, limit)..]), limit);
      n := m + 1;
    }
  }

  lemma {:induction false} VisibleStays(remaining: string, n: nat)
    requires !Blank(remaining)
    ensures !Blank(RestAfter(remaining, 0, n))
    decreases n
  {
    hide IsSpace;
    if n > 0 {
      var rest := TrimStart(remaining);
      TrimStartSplits(remaining);
      TrimStartShape(remaining);
      assert remaining[0..] == remaining && remaining == remaining[..|remaining| - |rest|] + rest;
      VisibleStays(rest, n - 1);
    }
  }

  /**
   The loop ends if and only if the limit is at least 1 or nothing in the text is visible; with limit 0
   such a text gives one empty chunk.
   */
  lemma EndsExactlyWhen(text: string, limit: nat)
    ensures (exists n: nat :: |RestAfter(text, limit, n)| <= limit) <==> Ends(text, limit)
    ensures Blank(text) ==> Split(text, 0) == [""]
  {
    if Ends(text, limit) {
      var n := Finishes(text, limit);
    } else {
      forall n: nat ensures |RestAfter(text, limit, n)| > limit {
        VisibleStays(text, n);
      }
    }
    if Blank(text) && text != "" {
      TrimStartSkips(text, "");
      assert text + "" == text && text[0..] == text;
      assert Pieces("", 0) == [] && TrimEnd(text[..0]) == "";
    }
  }

  // ---------- What the chunks are ----------

  lemma {:induction false} PiecesFit(remaining: string, limit: nat)
    requires Ends(remaining, limit)
    ensures forall c :: c in Pieces(remaining, limit) ==> |c| <= limit
    decreases |remaining|
  {
    hide Cut;
    if |remaining| > limit {
      RestShrinks(remaining, limit);
      PiecesFit(TrimStart(remaining[Cut(remaining, limit)..]), limit);
    }
  }

  /** Every chunk fits. */
  lemma ChunksFit(text: string, limit: nat)
    requires Ends(text, limit)
    ensures forall c :: c in Split(text, limit) ==> |c| <= limit
  {
    PiecesFit(text, limit);
  }

  function Visible(s: string): string {
    if s == "" then "" else (if IsSpace(s[0]) then "" else [s[0]]) + Visible(s[1..])
  }

  function Concat(chunks: seq<string>): string {
    if chunks == [] then "" else chunks[0] + Concat(chunks[1..])
  }

  lemma {:induction false} VisibleConcat(a: string, b: string)
    ensures Visible(a + b) == Visible(a) + Visible(b)
  {
    hide IsSpace;
    if a == "" {
      assert a + b == b;
    } else {
      assert (a + b)[1..] == a[1..] + b;
      VisibleConcat(a[1..], b);
    }
  }

  lemma {:induction false} VisibleTrimStart(s: string)
    ensures Visible(TrimStart(s)) == Visible(s)
  {
    if s != "" && IsSpace(s[0]) { VisibleTrimStart(s[1..]); }
  }

  lemma {:induction false} VisibleTrimEnd(s: string)
    ensures Visible(TrimEnd(s)) == Visible(s)
  {
    hide IsSpaceCode;
    if s != "" && IsSpace(s[|s| - 1]) {
      var last := s[|s| - 1..];
      assert s == s[..|s| - 1] + last && last[1..] == "";
      VisibleConcat(s[..|s| - 1], last);
      VisibleTrimEnd(s[..|s| - 1]);
    }
  }

  lemma {:induction false} PiecesKeepVisible(remaining: string, limit: nat)
    requires Ends(remaining, limit)
    ensures Visible(Concat(Pieces(remaining, limit))) == Visible(remaining)
    decreases |remaining|
  {
    hide Cut, IsSpace;
    if |remaining| > limit {
      RestShrinks(remaining, limit);
      var cut := Cut(remaining, limit);
      var head, rest := remaining[..cut], TrimStart(remaining[cut..]);
      PiecesKeepVisible(rest, limit);
      VisibleTrimEnd(head);
      VisibleTrimStart(remaining[cut..]);
      assert remaining == head + remaining[cut..];
      VisibleConcat(head, remaining[cut..]);
      VisibleConcat(TrimEnd(head), Concat(Pieces(rest, limit)));
      assert Pieces(remaining, limit)[1..] == Pieces(rest, limit);
    } else if |remaining| > 0 {
      assert [remaining][1..] == [] && remaining + "" == remaining;
    }
  }

  /** No visible character is lost, added or moved. */
  lemma NothingVisibleLost(text: string, limit: nat)
    requires Ends(text, limit)
    ensures Visible(Concat(Split(text, limit))) == Visible(text)
  {
    PiecesKeepVisible(text, limit);
    assert [text][1..] == [] && text + "" == text;
  }

  lemma {:induction false} PiecesStartVisibly(remaining: string, limit: nat)
    requires Ends(remaining, limit)
    ensures forall i :: 0 < i < |Pieces(remaining, limit)| ==>
              Pieces(remaining, limit)[i] != "" && !IsSpace(Pieces(remaining, limit)[i][0])
    ensures remaining != "" && !IsSpace(remaining[0]) ==>
              Pieces(remaining, limit) != [] && Pieces(remaining, limit)[0] != "" && !IsSpace(Pieces(remaining, limit)[0][0])
    decreases |remaining|
  {
    hide IsSpaceCode, Cut;
    if |remaining| > limit {
      RestShrinks(remaining, limit);
      var cut := Cut(remaining, limit);
      var rest := TrimStart(remaining[cut..]);
      TrimStartShape(remaining[cut..]);
      PiecesStartVisibly(rest, limit);
      if !IsSpace(remaining[0]) {
        VisibleHeadStays(remaining[..cut]);
      }
      if rest == "" {
        assert Pieces(rest, limit) == [];
      }
    }
  }

  lemma {:induction false} VisibleHeadStays(s: string)
    requires s != "" && !IsSpace(s[0])
    ensures TrimEnd(s) != "" && TrimEnd(s)[0] == s[0]
    decreases |s|
  {
    if IsSpace(s[|s| - 1]) { VisibleHeadStays(s[..|s| - 1]); }
  }

  /** Only the first chunk can be blank, or begin with white space. */
  lemma LaterChunksAreVisible(text: string, limit: nat)
    requires Ends(text, limit)
    ensures forall i :: 0 < i < |Split(text, limit)| ==> Split(text, limit)[i] != "" && !IsSpace(Split(text, limit)[i][0])
  {
    PiecesStartVisibly(text, limit);
  }

  // ---------- How the chunks make up the text ----------

  /** A text that fits is sent as it is. */
  lemma FitsUnchanged(text: string, limit: nat)
    requires |text| <= limit
    ensures Split(text, limit) == [text]
  {
  }

  /**
   Of a longer text, the first chunk is what stands before the best cut and the others are the chunks
   of what follows it, without the white space on either side.
   */
  lemma SplitsAtBest(text: string, limit: nat) returns (cut: nat)
    requires limit > 0 && |text| > limit
    ensures
      if Within(text, "\n\n", limit) then LastWithin(text, "\n\n", limit, cut)
      else if Within(text, "\n", limit) then LastWithin(text, "\n", limit, cut)
      else if Within(text, " ", limit) then LastWithin(text, " ", limit, cut)
      else cut == limit
    ensures
      var rest := TrimStart(text[cut..]);
      Split(text, limit) == [TrimEnd(text[..cut])] + if rest == "" then [] else Split(rest, limit)
  {
    hide TrimStart, TrimEnd, Within, LastWithin;
    CutIsBest(text, limit);
    cut := Cut(text, limit);
    var rest := TrimStart(text[cut..]);
    assert Split(text, limit) == [TrimEnd(text[..cut])] + Pieces(rest, limit);
    assert rest == "" ==> Pieces(rest, limit) == [];
  }

  function Interleave(chunks: seq<string>, gaps: seq<string>): string
    requires |chunks| == |gaps|
  {
    if chunks == [] then "" else chunks[0] + gaps[0] + Interleave(chunks[1..], gaps[1..])
  }

  ghost predicate EndsVisibly(chunk: string) {
    chunk == "" || !IsSpace(chunk[|chunk| - 1])
  }

  /** What is trimmed away around a cut. */
  lemma GapAround(text: string, cut: nat) returns (gap: string)
    requires cut <= |text|
    ensures Blank(gap) && text == TrimEnd(text[..cut]) + gap + TrimStart(text[cut..])
    ensures EndsVisibly(TrimEnd(text[..cut]))
  {
    hide TrimStart, TrimEnd, IsSpace;
    var head, tail := text[..cut], text[cut..];
    TrimEndShape(head);
    TrimEndSplits(head);
    TrimStartShape(tail);
    TrimStartSplits(tail);
    var before, after := head[|TrimEnd(head)|..], tail[..|tail| - |TrimStart(tail)|];
    assert text == head + tail && head == TrimEnd(head) + before && tail == after + TrimStart(tail);
    gap := before + after;
    assert TrimEnd(head) + gap + TrimStart(tail) == text;
  }

  lemma {:induction false} PiecesReassemble(remaining: string, limit: nat) returns (gaps: seq<string>)
    requires Ends(remaining, limit)
    ensures |gaps| == |Pieces(remaining, limit)| && forall g :: g in gaps ==> Blank(g)
    ensures Interleave(Pieces(remaining, limit), gaps) == remaining
    ensures forall i :: 0 <= i < |gaps| - 1 ==> EndsVisibly(Pieces(remaining, limit)[i])
    decreases |remaining|
  {
    hide Cut, Blank, TrimStart, TrimEnd, EndsVisibly;
    if |remaining| > limit {
      var cut := Cut(remaining, limit);
      var rest := TrimStart(remaining[cut..]);
      RestShrinks(remaining, limit);
      var gap := GapAround(remaining, cut);
      var more := PiecesReassemble(rest, limit);
      gaps := [gap] + more;
      assert Pieces(remaining, limit)[1..] == Pieces(rest, limit) && gaps[1..] == more;
    } else if |remaining| > 0 {
      gaps := [""];
      NothingIsBlank();
      assert Interleave([remaining], [""]) == remaining + "" + Interleave([], []);
    } else {
      gaps := [];
    }
  }

  lemma NothingIsBlank()
    ensures Blank("")
  {
  }

  /** Nothing but white space goes, and only between chunks or at the end: with those gaps the chunks are the text. */
  lemma Reassembles(text: string, limit: nat) returns (gaps: seq<string>)
    requires Ends(text, limit)
    ensures |gaps| == |Split(text, limit)| && forall g :: g in gaps ==> Blank(g)
    ensures Interleave(Split(text, limit), gaps) == text
    ensures forall i :: 0 <= i < |gaps| - 1 ==> EndsVisibly(Split(text, limit)[i])
  {
    if |text| <= limit {
      gaps := [""];
      assert Interleave([text], [""]) == text + "" + Interleave([], []);
    } else {
      gaps := PiecesReassemble(text, limit);
    }
  }

  // ---------- Words ----------

  function Words(s: string): seq<string>
    decreases |s|
  {
    if s == "" then []
    else if IsSpace(s[0]) then Words(s[1..])
    else
      WordHasNoSpace(s);
      assert Word(s) != "";
      [Word(s)] + Words(s[|Word(s)|..])
  }

  function WordsOfAll(chunks: seq<string>): seq<string> {
    if chunks == [] then [] else Words(chunks[0]) + WordsOfAll(chunks[1..])
  }

  lemma WordSplits(a: string) returns (word: string, rest: string)
    requires a != "" && !IsSpace(a[0])
    ensures a == word + rest && word != "" && NoSpace(word) && (rest == "" || IsSpace(rest[0]))
  {
    word, rest := Word(a), a[|Word(a)|..];
    WordHasNoSpace(a);
  }

  lemma WordsCons(word: string, rest: string)
    requires word != "" && NoSpace(word) && (rest == "" || IsSpace(rest[0]))
    ensures Words(word + rest) == [word] + Words(rest)
  {
    hide IsSpace;
    WordOf(word, rest);
    assert (word + rest)[0] == word[0] && (word + rest)[|word|..] == rest;
  }

  lemma {:induction false} WordsSplitAtSpace(a: string, b: string)
    requires b == "" || IsSpace(b[0])
    ensures Words(a + b) == Words(a) + Words(b)
    decreases |a|
  {
    hide IsSpace, NoSpace;
    if a == "" {
      assert a + b == b;
    } else if IsSpace(a[0]) {
      assert (a + b)[1..] == a[1..] + b;
      WordsSplitAtSpace(a[1..], b);
    } else {
      hide Words;
      var word, rest := WordSplits(a);
      assert a + b == word + (rest + b);
      assert rest == "" ==> rest + b == b;
      WordsCons(word, rest);
      WordsCons(word, rest + b);
      WordsSplitAtSpace(rest, b);
    }
  }

  lemma {:induction false} WordsTrimStart(s: string)
    ensures Words(TrimStart(s)) == Words(s)
  {
    if s != "" && IsSpace(s[0]) { WordsTrimStart(s[1..]); }
  }

  lemma {:induction false} WordsTrimEnd(s: string)
    ensures Words(TrimEnd(s)) == Words(s)
  {
    hide IsSpaceCode;
    if s != "" && IsSpace(s[|s| - 1]) {
      var last := s[|s| - 1..];
      assert s == s[..|s| - 1] + last && last[1..] == "";
      WordsSplitAtSpace(s[..|s| - 1], last);
      WordsTrimEnd(s[..|s| - 1]);
    }
  }

  /** A space or a newline among the `n` characters from `from` on. */
  ghost predicate BreakIn(text: string, from: nat, n: nat)
    requires from + n <= |text|
  {
    exists k :: from <= k < from + n && (text[k] == ' ' || text[k] == '\n')
  }

  /** Every `limit` consecutive characters hold a space or a newline. */
  ghost predicate Breakable(text: string, limit: nat) {
    forall i: nat :: i + limit <= |text| ==> BreakIn(text, i, limit)
  }

  lemma CutAtSpace(remaining: string, limit: nat)
    requires limit > 0 && |remaining| > limit && Breakable(remaining, limit)
    ensures IsSpace(remaining[Cut(remaining, limit)])
  {
    CutIsBest(remaining, limit);
    var cut := Cut(remaining, limit);
    assert BreakIn(remaining, 1, limit);
    var k :| 1 <= k < 1 + limit && (remaining[k] == ' ' || remaining[k] == '\n');
    assert remaining[k..k + 1] == [remaining[k]];
    assert At(remaining, " ", k) || At(remaining, "\n", k);
    if At(remaining, "\n\n", cut) {
      assert remaining[cut..cut + 2][0] == '\n';
    } else if At(remaining, "\n", cut) {
      assert remaining[cut..cut + 1][0] == '\n';
    } else {
      assert remaining[cut..cut + 1][0] == ' ';
    }
  }

  lemma BreakableSuffix(text: string, limit: nat, from: nat)
    requires Breakable(text, limit) && from <= |text|
    ensures Breakable(text[from..], limit)
  {
    var s := text[from..];
    forall i: nat | i + limit <= |s| ensures BreakIn(s, i, limit) {
      var j: nat := from + i;
      assert BreakIn(text, j, limit);
      var k :| j <= k < j + limit && (text[k] == ' ' || text[k] == '\n');
      assert s[k - from] == text[k];
    }
  }

  lemma {:induction false} PiecesKeepWords(remaining: string, limit: nat)
    requires limit > 0 && Breakable(remaining, limit)
    ensures WordsOfAll(Pieces(remaining, limit)) == Words(remaining)
    decreases |remaining|
  {
    hide Cut, IsSpace, Breakable, Words;
    if |remaining| > limit {
      var cut := Cut(remaining, limit);
      var head, tail := remaining[..cut], remaining[cut..];
      var rest := TrimStart(tail);
      CutAtSpace(remaining, limit);
      TrimStartShape(tail);
      BreakableSuffix(remaining, limit, cut);
      BreakableSuffix(tail, limit, |tail| - |rest|);
      PiecesKeepWords(rest, limit);
      assert remaining == head + tail;
      WordsSplitAtSpace(head, tail);
      WordsTrimEnd(head);
      WordsTrimStart(tail);
      assert Pieces(remaining, limit)[1..] == Pieces(rest, limit);
    } else if |remaining| > 0 {
      assert [remaining][1..] == [];
    } else {
      NoWords(remaining);
    }
  }

  lemma NoWords(s: string)
    requires s == ""
    ensures Words(s) == []
  {
  }

  /** A text that never goes `limit` characters without a space or newline is cut between words only. */
  lemma WordsStayWhole(text: string, limit: nat)
    requires limit > 0 && Breakable(text, limit)
    ensures WordsOfAll(Split(text, limit)) == Words(text)
  {
    PiecesKeepWords(text, limit);
    assert [text][1..] == [];
  }
}
