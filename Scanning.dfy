/** How `java.util.Scanner` with its default delimiter splits one line into tokens:
    the tokens are the maximal runs of characters that are not white space. */
module Scanning {
  import opened Wrappers
  import opened Seqs

  /** `Character.isWhitespace`: the Unicode space, line and paragraph separators other than the
      no-break spaces, and the ASCII controls tab, line feed, vertical tab, form feed, carriage
      return and the four separators U+001C to U+001F. */
  predicate IsWhitespace(c: char) {
    var n := c as int;
    (0x09 <= n <= 0x0D) || (0x1C <= n <= 0x20) || n == 0x1680 ||
    (0x2000 <= n <= 0x2006) || (0x2008 <= n <= 0x200A) ||
    n == 0x2028 || n == 0x2029 || n == 0x205F || n == 0x3000
  }

  /** A token: non-empty and free of white space. */
  predicate IsWord(w: string) {
    |w| > 0 && forall i :: 0 <= i < |w| ==> !IsWhitespace(w[i])
  }

  /** The length of the run of non-white-space characters that `s` starts with. */
  function WordLength(s: string): (n: nat)
    ensures n <= |s|
    ensures forall i :: 0 <= i < n ==> !IsWhitespace(s[i])
    ensures n < |s| ==> IsWhitespace(s[n])
  {
    match FirstIndex(s, IsWhitespace)
    case Some(n) => n
    case None => |s|
  }

  /** The tokens `Scanner.next()` returns for `s`, in order, until `hasNext()` is false. */
  function Tokens(s: string): (words: seq<string>)
    ensures forall k :: 0 <= k < |words| ==> IsWord(words[k])
    decreases |s|
  {
    if s == [] then []
    else if IsWhitespace(s[0]) then Tokens(s[1..])
    else
      var n := WordLength(s);
      [s[..n]] + Tokens(s[n..])
  }

  /** The words written out with one space between neighbours. */
  function JoinWords(words: seq<string>): (s: string)
  {
    if words == [] then ""
    else if |words| == 1 then words[0]
    else words[0] + " " + JoinWords(words[1..])
  }

  /** A word followed by white space or by nothing is read back as one token. */
  lemma TokensOfWordThen(w: string, rest: string)
    requires IsWord(w)
    requires rest == [] || IsWhitespace(rest[0])
    ensures Tokens(w + rest) == [w] + Tokens(rest)
  {
    var s := w + rest;
    assert forall i :: 0 <= i < |w| ==> s[i] == w[i];
    if rest == [] {
      FirstIndexNone(s);
    } else {
      FirstIndexAt(s, IsWhitespace, |w|);
    }
    assert WordLength(s) == |w|;
    assert s[..|w|] == w && s[|w|..] == rest;
  }

  lemma FirstIndexNone(s: string)
    requires forall i :: 0 <= i < |s| ==> !IsWhitespace(s[i])
    ensures FirstIndex(s, IsWhitespace) == None
  {
  }

  /** Scanning words that were joined with single spaces gives back exactly those words. */
  lemma {:induction false} TokensOfJoinWords(words: seq<string>)
    requires forall k :: 0 <= k < |words| ==> IsWord(words[k])
    ensures Tokens(JoinWords(words)) == words
  {
    if words == [] {
    } else if |words| == 1 {
      TokensOfWordThen(words[0], "");
      assert words[0] + "" == words[0];
      assert Tokens("") == [];
    } else {
      var rest := JoinWords(words[1..]);
      assert words[0] + " " + rest == words[0] + (" " + rest);
      TokensOfWordThen(words[0], " " + rest);
      assert (" " + rest)[1..] == rest;
      TokensOfJoinWords(words[1..]);
    }
  }

  /** White space before a line's text yields no token: a header may separate its words by
      any run of tabs and spaces. */
  lemma {:induction false} TokensSkipBlanks(ws: string, s: string)
    requires forall i :: 0 <= i < |ws| ==> IsWhitespace(ws[i])
    ensures Tokens(ws + s) == Tokens(s)
  {
    if ws != [] {
      var t := ws + s;
      assert t[0] == ws[0] && t[1..] == ws[1..] + s;
      TokensSkipBlanks(ws[1..], s);
    } else {
      assert ws + s == s;
    }
  }

  /** A word, a non-empty run of white space, and more text: the word is the first token and
      the rest are the text's tokens. */
  lemma TokensOfWordBlanks(w: string, ws: string, rest: string)
    requires IsWord(w)
    requires |ws| > 0 && forall i :: 0 <= i < |ws| ==> IsWhitespace(ws[i])
    ensures Tokens(w + ws + rest) == [w] + Tokens(rest)
  {
    assert w + ws + rest == w + (ws + rest);
    TokensOfWordThen(w, ws + rest);
    TokensSkipBlanks(ws, rest);
  }

  /** Three words separated by non-empty runs of white space, then white space or nothing,
      scan as those three words followed by the tokens of the rest. */
  lemma TokensOfThreeWords(w1: string, ws1: string, w2: string, ws2: string, w3: string, rest: string)
    requires IsWord(w1) && IsWord(w2) && IsWord(w3)
    requires |ws1| > 0 && forall i :: 0 <= i < |ws1| ==> IsWhitespace(ws1[i])
    requires |ws2| > 0 && forall i :: 0 <= i < |ws2| ==> IsWhitespace(ws2[i])
    requires rest == [] || IsWhitespace(rest[0])
    ensures Tokens(w1 + ws1 + (w2 + ws2 + (w3 + rest))) == [w1, w2, w3] + Tokens(rest)
  {
    TokensOfWordThen(w3, rest);
    TokensOfWordBlanks(w2, ws2, w3 + rest);
    TokensOfWordBlanks(w1, ws1, w2 + ws2 + (w3 + rest));
    assert [w1] + ([w2] + ([w3] + Tokens(rest))) == [w1, w2, w3] + Tokens(rest);
  }
}
