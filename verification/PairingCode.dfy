/**
 The four-digit pairing codes of src/channels/telegram-pairing.ts: how a drawn number becomes a code,
 and which messages carry one.
 */
module PairingCode {
  import opened Options
  import opened Text

  predicate IsDigit(c: char) {
    '0' <= c <= '9'
  }

  /** `\w` */
  predicate IsWordChar(c: char) {
    'a' <= c <= 'z' || 'A' <= c <= 'Z' || IsDigit(c) || c == '_'
  }

  predicate IsCode(s: string) {
    |s| == 4 && forall i :: 0 <= i < |s| ==> IsDigit(s[i])
  }

  // ---------- Drawing ----------

  function ToString(n: nat): string {
    if n < 10 then [('0' as int + n) as char] else ToString(n / 10) + [('0' as int + n % 10) as char]
  }

  function PadStart(s: string, width: nat): string {
    if |s| >= width then s else seq(width - |s|, _ => '0') + s
  }

  /** The code of a drawn number: decimal, zero-padded to four digits. */
  function Code(n: nat): string {
    PadStart(ToString(n), 4)
  }

  function Value(s: string): nat
    requires forall i :: 0 <= i < |s| ==> IsDigit(s[i])
  {
    if s == [] then 0
    else
      var last := s[|s| - 1];
      assert IsDigit(last);
      10 * Value(s[..|s| - 1]) + (last as int - '0' as int)
  }

  lemma {:induction false} ToStringShape(n: nat)
    ensures forall i :: 0 <= i < |ToString(n)| ==> IsDigit(ToString(n)[i])
    ensures Value(ToString(n)) == n && ToString(n) != ""
    ensures n < 10 ==> |ToString(n)| == 1
    ensures n < 100 ==> |ToString(n)| <= 2
    ensures n < 1000 ==> |ToString(n)| <= 3
    ensures n < 10000 ==> |ToString(n)| <= 4
  {
    if n < 10 {
      assert ToString(n)[..0] == [];
    } else {
      ToStringShape(n / 10);
      assert ToString(n)[..|ToString(n)| - 1] == ToString(n / 10);
    }
  }

  lemma {:induction false} PadKeepsValue(zeros: nat, s: string)
    requires forall i :: 0 <= i < |s| ==> IsDigit(s[i])
    ensures Value(seq(zeros, _ => '0') + s) == Value(s)
    decreases zeros + |s|
  {
    var t := seq(zeros, _ => '0') + s;
    if s != [] {
      assert t[..|t| - 1] == seq(zeros, _ => '0') + s[..|s| - 1];
      PadKeepsValue(zeros, s[..|s| - 1]);
    } else if zeros > 0 {
      assert t[..|t| - 1] == seq(zeros - 1, _ => '0') + s;
      PadKeepsValue(zeros - 1, s);
    } else {
      assert t == s;
    }
  }

  /** Every draw gives a code, and the code determines the draw: all 10000 codes are available. */
  lemma CodeIsFaithful(n: nat)
    requires n < 10000
    ensures IsCode(Code(n)) && Value(Code(n)) == n
  {
    var s := ToString(n);
    ToStringShape(n);
    if |s| < 4 {
      PadKeepsValue(4 - |s|, s);
    }
  }

  // ---------- Recognising ----------

  /** A bot username consists of word characters, so the pattern built from it matches it literally. */
  type BotName = s: string | s != "" && forall i :: 0 <= i < |s| ==> IsWordChar(s[i]) witness "b"

  function Lower(c: char): char {
    if 'A' <= c <= 'Z' then (c as int + 32) as char else c
  }

  predicate SameName(a: string, b: string) {
    |a| == |b| && forall i :: 0 <= i < |a| ==> Lower(a[i]) == Lower(b[i])
  }

  /** extractAddressedText: what follows a leading `@bot` that ends at a word boundary. */
  function ExtractAddressedText(text: string, bot: BotName): Option<string> {
    var t := Trim(text);
    var end := 1 + |bot|;
    if |t| >= end && t[0] == '@' && SameName(t[1..end], bot) && (|t| == end || !IsWordChar(t[end]))
    then Some(Trim(t[end..]))
    else None
  }

  function ExtractCode(text: string, bot: BotName): Option<string> {
    var addressed := ExtractAddressedText(text, bot);
    var candidate := Trim(if addressed.Some? then addressed.value else text);
    if IsCode(candidate) then Some(candidate) else None
  }

  ghost predicate Bare(text: string, c: string, a: string, d: string) {
    Blank(a) && Blank(d) && text == a + c + d
  }

  /** The same character, or the same letter in the other case. */
  ghost predicate Alike(c: char, d: char) {
    || c == d
    || ('a' <= c <= 'z' && d as int == c as int - ('a' as int - 'A' as int))
    || ('A' <= c <= 'Z' && d as int == c as int + ('a' as int - 'A' as int))
  }

  ghost predicate Addressed(text: string, bot: string, c: string, a: string, name: string, b: string, d: string) {
    && Blank(a) && Blank(b) && b != "" && Blank(d) && text == a + ("@" + name + b + c) + d
    && |name| == |bot| && forall i :: 0 <= i < |name| ==> Alike(name[i], bot[i])
  }

  lemma SameNameIs(a: string, b: string)
    ensures SameName(a, b) <==> |a| == |b| && forall i :: 0 <= i < |a| ==> Alike(a[i], b[i])
  {
    if |a| == |b| {
      forall i | 0 <= i < |a| ensures Lower(a[i]) == Lower(b[i]) <==> Alike(a[i], b[i]) {
        LowerIs(a[i], b[i]);
      }
    }
  }

  lemma LowerIs(c: char, d: char)
    ensures Lower(c) == Lower(d) <==> Alike(c, d)
  {
  }

  lemma CodeIsTrimmed(c: string)
    requires IsCode(c)
    ensures Trim(c) == c && IsWordChar(c[0]) && c[0] != '@'
  {
    TrimFixed(c);
  }

  lemma BareIsExtracted(text: string, bot: BotName, c: string, a: string, d: string)
    requires IsCode(c) && Bare(text, c, a, d)
    ensures ExtractCode(text, bot) == Some(c)
  {
    hide Trim;
    CodeIsTrimmed(c);
    TrimIs(a, c, d);
  }

  lemma AddressedIsExtracted(text: string, bot: BotName, c: string, a: string, name: string, b: string, d: string)
    requires IsCode(c) && Addressed(text, bot, c, a, name, b, d)
    ensures ExtractCode(text, bot) == Some(c)
  {
    hide Trim;
    CodeIsTrimmed(c);
    SameNameIs(name, bot);
    var t := "@" + name + b + c;
    TrimFixed(t);
    TrimIs(a, t, d);
    var end := 1 + |bot|;
    assert t[1..end] == name && t[end] == b[0] && t[end..] == b + c + "";
    assert b[0] in b;
    TrimIs(b, c, "");
  }

  lemma AddressedCarries(text: string, bot: BotName, c: string)
    requires ExtractAddressedText(text, bot).Some? && ExtractCode(text, bot) == Some(c)
    ensures exists a, name, b, d :: Addressed(text, bot, c, a, name, b, d)
  {
    hide Trim;
    var t, end := Trim(text), 1 + |bot|;
    var u := t[end..];
    TrimTwice(u);
    var a, d := TrimSplits(text);
    var b, d' := TrimSplits(u);
    CodeIsTrimmed(c);
    assert Trim(u) == c;
    assert u == b + c + d' && !IsWordChar(u[0]);
    assert b != "";
    assert t == "@" + t[1..end] + u;
    assert text == a + ("@" + t[1..end] + b + c) + (d' + d);
    SameNameIs(t[1..end], bot);
    assert Addressed(text, bot, c, a, t[1..end], b, d' + d);
  }

  /**
   A message carries the code `c` exactly when, white space aside, it is those four digits, or `@bot`
   in any letter case, white space and those four digits.  Anything else around them hides the code.
   */
  lemma CarriesExactlyWhen(text: string, bot: BotName, c: string)
    ensures ExtractCode(text, bot) == Some(c) <==>
            IsCode(c) && ((exists a, d :: Bare(text, c, a, d)) || (exists a, name, b, d :: Addressed(text, bot, c, a, name, b, d)))
  {
    if ExtractCode(text, bot) == Some(c) {
      if ExtractAddressedText(text, bot).Some? {
        AddressedCarries(text, bot, c);
      } else {
        var a, d := TrimSplits(text);
        assert Bare(text, c, a, d);
      }
    }
    if IsCode(c) {
      if a, d :| Bare(text, c, a, d) {
        BareIsExtracted(text, bot, c, a, d);
      } else if a, name, b, d :| Addressed(text, bot, c, a, name, b, d) {
        AddressedIsExtracted(text, bot, c, a, name, b, d);
      }
    }
  }
}
