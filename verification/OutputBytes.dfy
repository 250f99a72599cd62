/**
 The bytes of a setup step's output (`spawnStep` in setup/lib/runner.ts): each chunk that arrives is
 decoded on its own and then written to the status stream.  All the stream looks for are characters of
 one UTF-16 code unit, so it makes no difference to it that a `char` is a scalar value here.
 */
module OutputBytes {
  import opened Text
  import opened Utf8
  import StatusBlocks

  function Flat(chunks: seq<seq<Byte>>): seq<Byte> {
    if chunks == [] then [] else chunks[0] + Flat(chunks[1..])
  }

  /** chunk.toString('utf-8') for every chunk. */
  function DecodeEach(chunks: seq<seq<Byte>>): seq<string> {
    if chunks == [] then [] else [Decode(chunks[0])] + DecodeEach(chunks[1..])
  }

  /** No chunk begins in the middle of a character. */
  predicate CutBetween(chunks: seq<seq<Byte>>) {
    forall i :: 0 <= i < |chunks| && chunks[i] != [] ==> !IsContinuation(chunks[i][0])
  }

  ghost predicate Leftover(s: seq<Byte>) {
    forall i :: 0 <= i < |s| ==> IsContinuation(s[i])
  }

  // ---------- Where a cut falls ----------

  lemma EncodeTake(t: string, j: nat)
    requires t != "" && j <= |t| - 1
    ensures EncodeAll(t[..j + 1]) == Encode(t[0]) + EncodeAll(t[1..][..j])
    ensures t[1..][j..] == t[j + 1..] && (j < |t| - 1 ==> t[1..][j] == t[j + 1] && t[1..][j + 1..] == t[j + 2..])
  {
    hide Encode;
    assert t[..j + 1][0] == t[0] && t[..j + 1][1..] == t[1..][..j];
  }

  lemma CutBehind(e: seq<Byte>, all: seq<Byte>, n: nat)
    requires |e| <= n <= |e| + |all|
    ensures (e + all)[..n] == e + all[..n - |e|] && (e + all)[n..] == all[n - |e|..]
  {
  }

  lemma CutWithin(e: seq<Byte>, all: seq<Byte>, n: nat)
    requires n <= |e|
    ensures (e + all)[..n] == [] + e[..n] && (e + all)[n..] == e[n..] + all
  {
  }

  /** The first `n` bytes of a text: whole characters, then part of one if the cut is inside it. */
  lemma {:induction false} CutSplits(t: string, n: nat) returns (i: nat, m: nat)
    requires n <= |EncodeAll(t)|
    ensures i <= |t| && (i == |t| ==> m == 0) && (i < |t| ==> m < |Encode(t[i])|)
    ensures EncodeAll(t)[..n] == EncodeAll(t[..i]) + (if m == 0 then [] else Encode(t[i])[..m])
    ensures EncodeAll(t)[n..] == if m == 0 then EncodeAll(t[i..]) else Encode(t[i])[m..] + EncodeAll(t[i + 1..])
    decreases |t|
  {
    hide Encode;
    if n == 0 {
      i, m := 0, 0;
      if t != "" { EncodeShape(t[0]); }
      assert t[..0] == "" && t[0..] == t;
      CutWithin([], EncodeAll(t), 0);
    } else {
      var e, all := Encode(t[0]), EncodeAll(t[1..]);
      EncodeShape(t[0]);
      assert EncodeAll(t) == e + all && EncodeAll("") == [];
      hide EncodeAll;
      if n < |e| {
        i, m := 0, n;
        CutWithin(e, all, n);
      } else {
        var j, k := CutSplits(t[1..], n - |e|);
        i, m := j + 1, k;
        CutBehind(e, all, n);
        EncodeTake(t, j);
      }
    }
  }

  function Replacements(n: nat): string {
    seq(n, _ => REPLACEMENT)
  }

  lemma {:induction false} LeftoverDecoded(s: seq<Byte>, rest: seq<Byte>)
    requires Leftover(s)
    ensures Decode(s + rest) == Replacements(|s|) + Decode(rest)
    decreases |s|
  {
    hide Decode;
    if s == [] {
      assert s + rest == rest && Replacements(0) + Decode(rest) == Decode(rest);
    } else {
      assert s + rest == [s[0]] + (s[1..] + rest);
      DecodeContinuation(s[0], s[1..] + rest);
      LeftoverDecoded(s[1..], rest);
      assert [REPLACEMENT] + Replacements(|s| - 1) == Replacements(|s|);
    }
  }

  /** A chunk made of leftover bytes, whole characters and part of one. */
  lemma ChunkDecoded(s: seq<Byte>, t: string, c: char, m: nat)
    requires Leftover(s) && m < |Encode(c)|
    ensures Decode(s + EncodeAll(t) + Encode(c)[..m]) == Replacements(|s|) + t + (if m == 0 then "" else [REPLACEMENT])
  {
    hide Decode, Encode;
    var p := Encode(c)[..m];
    assert s + EncodeAll(t) + p == s + (EncodeAll(t) + p);
    LeftoverDecoded(s, EncodeAll(t) + p);
    DecodeAll(t, p);
    if m == 0 {
      NothingDecoded();
      assert p == [];
    } else {
      DecodeCut(c, m);
    }
    assert Replacements(|s|) + (t + Decode(p)) == Replacements(|s|) + t + Decode(p);
  }

  lemma NothingDecoded()
    ensures Decode([]) == ""
  {
  }

  // ---------- All chunks ----------

  lemma {:induction false} CutInside(chunks: seq<seq<Byte>>)
    requires Flat(chunks) != [] && IsContinuation(Flat(chunks)[0])
    ensures !CutBetween(chunks)
    decreases |chunks|
  {
    if chunks[0] == [] {
      assert Flat(chunks) == Flat(chunks[1..]);
      CutInside(chunks[1..]);
      var i :| 0 <= i < |chunks[1..]| && chunks[1..][i] != [] && IsContinuation(chunks[1..][i][0]);
      assert chunks[i + 1] == chunks[1..][i];
    }
  }

  lemma CutBetweenFirst(chunks: seq<seq<Byte>>)
    requires chunks != []
    ensures CutBetween(chunks) <==> (chunks[0] != [] ==> !IsContinuation(chunks[0][0])) && CutBetween(chunks[1..])
  {
    assert forall i :: 0 <= i < |chunks[1..]| ==> chunks[1..][i] == chunks[i + 1];
    assert forall i :: 1 <= i < |chunks| ==> chunks[i] == chunks[1..][i - 1];
  }

  lemma NoBytes(t: string)
    requires EncodeAll(t) == []
    ensures t == ""
  {
    if t != "" { EncodeShape(t[0]); }
  }

  lemma WithinLeftover(first: seq<Byte>, tail: seq<Byte>, s: seq<Byte>, e: seq<Byte>)
    requires Leftover(s) && first + tail == s + e && |first| <= |s|
    ensures Leftover(first) && Leftover(s[|first|..]) && tail == s[|first|..] + e
  {
    assert first == (first + tail)[..|first|] == s[..|first|];
    assert tail == (first + tail)[|first|..] == (s + e)[|first|..];
  }

  lemma BeyondLeftover(first: seq<Byte>, tail: seq<Byte>, s: seq<Byte>, t: string) returns (i: nat, m: nat, rest: seq<Byte>)
    requires Leftover(s) && first + tail == s + EncodeAll(t) && |first| > |s|
    ensures i <= |t| && (m != 0 ==> i < |t|)
    ensures Decode(first) == Replacements(|s|) + t[..i] + (if m == 0 then "" else [REPLACEMENT])
    ensures m == 0 ==> rest == [] && tail == EncodeAll(t[i..])
    ensures m != 0 ==> rest != [] && Leftover(rest) && tail == rest + EncodeAll(t[i + 1..])
    ensures s == [] ==> !IsContinuation(first[0])
  {
    hide Encode, Decode;
    var e, n := EncodeAll(t), |first| - |s|;
    assert first == (first + tail)[..|first|] == s + e[..n];
    assert tail == (first + tail)[|first|..] == e[n..];
    i, m := CutSplits(t, n);
    FirstIsLead(t);
    if m == 0 {
      rest := [];
      assert first == s + EncodeAll(t[..i]) + Encode('x')[..0];
      EncodeShape('x');
      ChunkDecoded(s, t[..i], 'x', 0);
    } else {
      rest := Encode(t[i])[m..];
      EncodeShape(t[i]);
      assert first == s + EncodeAll(t[..i]) + Encode(t[i])[..m];
      ChunkDecoded(s, t[..i], t[i], m);
    }
  }

  lemma FirstIsLead(t: string)
    ensures EncodeAll(t) != [] ==> !IsContinuation(EncodeAll(t)[0])
  {
    if t != "" { EncodeShape(t[0]); }
  }

  lemma SplitText(t: string, i: nat, decoded: string)
    requires i <= |t|
    ensures t[..i] + decoded == t <==> decoded == t[i..]
  {
    assert t == t[..i] + t[i..];
    if t[..i] + decoded == t { assert decoded == t[i..]; }
  }

  lemma ConcatFirst(chunks: seq<seq<Byte>>)
    requires chunks != []
    ensures StatusBlocks.Concat(DecodeEach(chunks)) == Decode(chunks[0]) + StatusBlocks.Concat(DecodeEach(chunks[1..]))
  {
    hide Decode;
    assert DecodeEach(chunks)[1..] == DecodeEach(chunks[1..]);
  }

  /**
   Decoding chunks that begin with the leftover of a character: never shorter than what was encoded, and,
   without a leftover, right exactly when no cut falls inside a character.
   */
  lemma {:induction false} DecodedLength(chunks: seq<seq<Byte>>, s: seq<Byte>, t: string)
    requires Leftover(s) && Flat(chunks) == s + EncodeAll(t)
    ensures |StatusBlocks.Concat(DecodeEach(chunks))| >= |s| + |t|
    ensures s == [] ==> (StatusBlocks.Concat(DecodeEach(chunks)) == t <==> CutBetween(chunks))
    decreases |chunks|
  {
    hide Decode, Encode, CutBetween, EncodeAll, DecodeEach;
    if chunks == [] {
      assert s == [] && EncodeAll(t) == [];
      NoBytes(t);
      NoChunks();
    } else {
      var first, rest := chunks[0], chunks[1..];
      ConcatFirst(chunks);
      CutBetweenFirst(chunks);
      if |first| <= |s| {
        WithinLeftover(first, Flat(rest), s, EncodeAll(t));
        LeftoverDecoded(first, []);
        NothingDecoded();
        assert first + [] == first;
        DecodedLength(rest, s[|first|..], t);
      } else {
        var i, m, s' := BeyondLeftover(first, Flat(rest), s, t);
        var remaining := if m == 0 then t[i..] else t[i + 1..];
        assert [] + EncodeAll(remaining) == EncodeAll(remaining);
        DecodedLength(rest, s', remaining);
        SplitText(t, i, StatusBlocks.Concat(DecodeEach(rest)));
        if s == [] {
          assert Replacements(0) + t[..i] == t[..i] && t[..i] + "" == t[..i];
          if m != 0 { CutInside(rest); }
        }
      }
    }
  }

  lemma NoChunks()
    ensures StatusBlocks.Concat(DecodeEach([])) == "" && CutBetween([])
  {
  }

  // ---------- The status stream ----------

  /** Whether the stream ends up as if it had been given the whole text at once. */
  ghost predicate ReadAsWritten(chunks: seq<seq<Byte>>, text: string) {
    StatusBlocks.WriteAll(StatusBlocks.Init(), DecodeEach(chunks)) == StatusBlocks.Write(StatusBlocks.Init(), text)
  }

  /**
   Main result: when the bytes of a text arrive in chunks, the stream reads the text that was written, with
   all that follows for the blocks, if and only if no chunk begins in the middle of a character.
   */
  lemma ReadAsWrittenExactlyWhen(chunks: seq<seq<Byte>>, text: string)
    requires Flat(chunks) == EncodeAll(text)
    ensures ReadAsWritten(chunks, text) <==> CutBetween(chunks)
  {
    hide EncodeAll, DecodeEach, CutBetween, StatusBlocks.Write, StatusBlocks.WriteAll;
    var decoded := DecodeEach(chunks);
    var whole := StatusBlocks.Concat(decoded);
    assert [] + EncodeAll(text) == EncodeAll(text);
    DecodedLength(chunks, [], text);
    StatusBlocks.ChunkIndependent(StatusBlocks.Init(), decoded);
    StatusBlocks.WriteReadsLines(StatusBlocks.Init(), whole);
    StatusBlocks.WriteReadsLines(StatusBlocks.Init(), text);
    assert "" + whole == whole && "" + text == text;
  }

  /** So printed blocks come back whenever the cuts fall between characters. */
  lemma PrintedBytesParse(items: seq<StatusBlocks.Item>, chunks: seq<seq<Byte>>)
    requires forall item :: item in items ==> StatusBlocks.GoodItem(item)
    requires Flat(chunks) == EncodeAll(Unlines(StatusBlocks.OutputLines(items))) && CutBetween(chunks)
    ensures StatusBlocks.WriteAll(StatusBlocks.Init(), DecodeEach(chunks)).blocks == StatusBlocks.PrintedBlocks(items)
  {
    hide EncodeAll, DecodeEach, CutBetween, StatusBlocks.WriteAll, StatusBlocks.GoodItem;
    var text := Unlines(StatusBlocks.OutputLines(items));
    assert [] + EncodeAll(text) == EncodeAll(text);
    DecodedLength(chunks, [], text);
    StatusBlocks.ParseUndoesPrint(items, DecodeEach(chunks));
  }

  /** A two-byte character whose bytes arrive in different chunks is not read as written. */
  lemma CutInsideGarbles()
    ensures Flat([[0xc3], [0xa9]]) == EncodeAll("\U{00E9}") && !ReadAsWritten([[0xc3], [0xa9]], "\U{00E9}")
  {
    hide ReadAsWritten;
    var chunks: seq<seq<Byte>> := [[0xc3], [0xa9]];
    assert chunks[1..][1..] == [] && Flat(chunks[1..]) == [0xa9] && Flat(chunks) == [0xc3, 0xa9];
    var text := "\U{00E9}";
    assert text[1..] == "" && EncodeAll(text) == Encode(text[0]) == [0xc3, 0xa9];
    assert IsContinuation(chunks[1][0]) && !CutBetween(chunks);
    ReadAsWrittenExactlyWhen(chunks, text);
  }
}
