/** The parts of `java.lang.String` that the catalog parser relies on, on `string` values.
    Case mapping is restricted to the ASCII letters. */
module JavaString {
  import opened Wrappers
  import opened Seqs

  /** `s.startsWith(prefix)` */
  predicate StartsWith(s: string, prefix: string) {
    |prefix| <= |s| && s[..|prefix|] == prefix
  }

  /** `s.endsWith(suffix)` */
  predicate EndsWith(s: string, suffix: string) {
    |suffix| <= |s| && s[|s| - |suffix|..] == suffix
  }

  predicate IsAsciiUpper(c: char) { 'A' <= c <= 'Z' }
  predicate IsAsciiLower(c: char) { 'a' <= c <= 'z' }

  function ToUpperChar(c: char): (u: char)
    ensures !IsAsciiLower(u)
    ensures !IsAsciiLower(c) ==> u == c
  {
    if IsAsciiLower(c) then (c as int - 32) as char else c
  }

  function ToLowerChar(c: char): (l: char)
    ensures !IsAsciiUpper(l)
    ensures !IsAsciiUpper(c) ==> l == c
  {
    if IsAsciiUpper(c) then (c as int + 32) as char else c
  }

  /** Two characters are the same letter up to case exactly when they agree after lowering. */
  predicate SameIgnoringCase(a: char, b: char) {
    ToLowerChar(a) == ToLowerChar(b)
  }

  /** `a.equalsIgnoreCase(b)`, on ASCII letters. */
  predicate EqualIgnoringCase(a: string, b: string) {
    |a| == |b| && forall i :: 0 <= i < |a| ==> SameIgnoringCase(a[i], b[i])
  }

  /** `s.toUpperCase()` */
  function ToUpperCase(s: string): (r: string)
    ensures |r| == |s|
    ensures forall i :: 0 <= i < |r| ==> !IsAsciiLower(r[i])
    ensures EqualIgnoringCase(r, s)
  {
    seq(|s|, i requires 0 <= i < |s| => ToUpperChar(s[i]))
  }

  /** `s.toLowerCase()` */
  function ToLowerCase(s: string): (r: string)
    ensures |r| == |s|
    ensures forall i :: 0 <= i < |r| ==> !IsAsciiUpper(r[i])
    ensures EqualIgnoringCase(r, s)
  {
    seq(|s|, i requires 0 <= i < |s| => ToLowerChar(s[i]))
  }

  /** `s.replace(from, to)` for characters. */
  function Replace(s: string, from: char, to: char): (r: string) {
    if s == [] then [] else [if s[0] == from then to else s[0]] + Replace(s[1..], from, to)
  }

  /** Every occurrence of `from`, and nothing else, becomes `to`. */
  lemma {:induction false} ReplaceEach(s: string, from: char, to: char)
    ensures |Replace(s, from, to)| == |s|
    ensures forall i :: 0 <= i < |s| && s[i] != from ==> Replace(s, from, to)[i] == s[i]
    ensures forall i :: 0 <= i < |s| && s[i] == from ==> Replace(s, from, to)[i] == to
  {
    if s != [] {
      ReplaceEach(s[1..], from, to);
      assert forall i :: 1 <= i < |s| ==> Replace(s, from, to)[i] == Replace(s[1..], from, to)[i - 1];
    }
  }

  /** `String.trim` removes every leading and trailing character up to and including the space. */
  predicate IsTrimmable(c: char) { c <= ' ' }

  /** Drops the leading trimmable characters. */
  function TrimStart(s: string): (r: string) {
    if |s| > 0 && IsTrimmable(s[0]) then TrimStart(s[1..]) else s
  }

  /** Drops the trailing trimmable characters. */
  function TrimEnd(s: string): (r: string) {
    if |s| > 0 && IsTrimmable(s[|s| - 1]) then TrimEnd(s[..|s| - 1]) else s
  }

  /** `s.trim()` */
  function Trim(s: string): (r: string) {
    TrimEnd(TrimStart(s))
  }

  /** `TrimStart` removes a prefix of trimmable characters, and no more. */
  lemma {:induction false} TrimStartDropsBlanks(s: string)
    ensures |TrimStart(s)| <= |s| && TrimStart(s) == s[|s| - |TrimStart(s)|..]
    ensures forall i :: 0 <= i < |s| - |TrimStart(s)| ==> IsTrimmable(s[i])
    ensures |TrimStart(s)| > 0 ==> !IsTrimmable(TrimStart(s)[0])
  {
    if |s| > 0 && IsTrimmable(s[0]) {
      TrimStartDropsBlanks(s[1..]);
      assert forall i :: 1 <= i < |s| ==> s[i] == s[1..][i - 1];
    }
  }

  /** `TrimEnd` removes a suffix of trimmable characters, and no more. */
  lemma {:induction false} TrimEndDropsBlanks(s: string)
    ensures |TrimEnd(s)| <= |s| && TrimEnd(s) == s[..|TrimEnd(s)|]
    ensures forall i :: |TrimEnd(s)| <= i < |s| ==> IsTrimmable(s[i])
    ensures |TrimEnd(s)| > 0 ==> !IsTrimmable(TrimEnd(s)[|TrimEnd(s)| - 1])
  {
    if |s| > 0 && IsTrimmable(s[|s| - 1]) {
      TrimEndDropsBlanks(s[..|s| - 1]);
      assert forall i :: 0 <= i < |s| - 1 ==> s[i] == s[..|s| - 1][i];
    }
  }

  /** `Trim(s)` is the infix of `s` left when the trimmable characters at both ends are
      removed: it neither starts nor ends with one, and it is empty exactly when `s` has
      nothing else. */
  lemma TrimKeepsInfix(s: string)
    ensures |TrimStart(s)| <= |s|
    ensures var r, a := Trim(s), |s| - |TrimStart(s)|;
      a + |r| <= |s| && r == s[a..a + |r|] &&
      (forall i :: 0 <= i < a ==> IsTrimmable(s[i])) &&
      (forall i :: a + |r| <= i < |s| ==> IsTrimmable(s[i])) &&
      (|r| > 0 ==> !IsTrimmable(r[0]) && !IsTrimmable(r[|r| - 1]))
  {
    var t := TrimStart(s);
    TrimStartDropsBlanks(s);
    TrimEndDropsBlanks(t);
    var r, a := Trim(s), |s| - |t|;
    assert |r| > 0 ==> r[0] == t[0];
    forall i | a + |r| <= i < |s| ensures IsTrimmable(s[i]) {
      assert s[i] == t[i - a];
    }
  }

  /** `n` copies of a character. */
  function Repeat(c: char, n: nat): (r: string)
    ensures |r| == n && forall i :: 0 <= i < n ==> r[i] == c
  {
    seq(n, _ => c)
  }

  /** Trimming removes any amount of blank padding around text that starts and ends with a
      character it keeps. */
  lemma {:induction false} TrimPadded(x: string, n: nat, m: nat)
    requires |x| > 0 && !IsTrimmable(x[0]) && !IsTrimmable(x[|x| - 1])
    ensures Trim(Repeat(' ', n) + x + Repeat(' ', m)) == x
  {
    TrimStartPadded(x + Repeat(' ', m), n);
    assert Repeat(' ', n) + x + Repeat(' ', m) == Repeat(' ', n) + (x + Repeat(' ', m));
    TrimEndPadded(x, m);
  }

  lemma {:induction false} TrimStartPadded(x: string, n: nat)
    requires |x| > 0 && !IsTrimmable(x[0])
    ensures TrimStart(Repeat(' ', n) + x) == x
  {
    if n > 0 {
      assert (Repeat(' ', n) + x)[1..] == Repeat(' ', n - 1) + x;
      TrimStartPadded(x, n - 1);
    }
  }

  lemma {:induction false} TrimEndPadded(x: string, m: nat)
    requires |x| > 0 && !IsTrimmable(x[|x| - 1])
    ensures TrimEnd(x + Repeat(' ', m)) == x
  {
    if m > 0 {
      var s := x + Repeat(' ', m);
      assert s[..|s| - 1] == x + Repeat(' ', m - 1);
      TrimEndPadded(x, m - 1);
    } else {
      assert x + Repeat(' ', 0) == x;
    }
  }

  /** `s.indexOf(c)`, with `None` for the source's `-1`. */
  function IndexOf(s: string, c: char): (r: Option<nat>) {
    if s == [] then None
    else if s[0] == c then Some(0)
    else
      match IndexOf(s[1..], c)
      case None => None
      case Some(k) => Some(k + 1)
  }

  /** `IndexOf` finds the first occurrence of the character, and `None` means there is none. */
  lemma {:induction false} IndexOfFirst(s: string, c: char)
    ensures IndexOf(s, c).Some? ==>
      IndexOf(s, c).value < |s| && s[IndexOf(s, c).value] == c && c !in s[..IndexOf(s, c).value]
    ensures IndexOf(s, c).None? <==> c !in s
  {
    if s != [] && s[0] != c {
      IndexOfFirst(s[1..], c);
      assert s == [s[0]] + s[1..];
      match IndexOf(s[1..], c)
      case None =>
      case Some(k) =>
        assert s[..k + 1] == [s[0]] + s[1..][..k];
    }
  }

  /** The first occurrence of `c` in `a + [c] + b` is the one that follows `a`, when `a` has none. */
  lemma {:induction false} IndexOfAfter(a: string, c: char, b: string)
    requires c !in a
    ensures IndexOf(a + [c] + b, c) == Some(|a|)
  {
    if a != [] {
      assert (a + [c] + b)[1..] == a[1..] + [c] + b;
      IndexOfAfter(a[1..], c, b);
    }
  }
}
