/** C strings and the <string.h> calls http_conn.cpp makes on them. A C string is the text up to its NUL. */
module HttpText {
  import opened Wrappers

  const NUL: char := '\0'
  const CR: char := '\r'
  const LF: char := '\n'
  const CRLF: string := [CR, LF]

  predicate NulFree(s: string) {
    NUL !in s
  }

  predicate IsBlank(c: char) {
    c == ' ' || c == '\t'
  }

  predicate AllBlank(s: string) {
    forall i :: 0 <= i < |s| ==> IsBlank(s[i])
  }

  predicate NoBlank(s: string) {
    forall i :: 0 <= i < |s| ==> !IsBlank(s[i])
  }

  function Lower(c: char): char {
    if 'A' <= c <= 'Z' then c - 'A' + 'a' else c
  }

  /** strcasecmp(a, b) == 0 */
  predicate SameText(a: string, b: string) {
    |a| == |b| && forall i :: 0 <= i < |a| ==> Lower(a[i]) == Lower(b[i])
  }

  /** The same letter in either case, or the same character. */
  predicate SameLetter(a: char, b: char) {
    || a == b
    || ('A' <= a <= 'Z' && b as int == a as int + 32)
    || ('A' <= b <= 'Z' && a as int == b as int + 32)
  }

  predicate SameWord(a: string, b: string) {
    |a| == |b| && forall i :: 0 <= i < |a| ==> SameLetter(a[i], b[i])
  }

  lemma LetterIs(a: char, b: char)
    ensures Lower(a) == Lower(b) <==> SameLetter(a, b)
  {
  }

  /** strcasecmp answers 0 exactly on the same words, letter case apart. */
  lemma SameTextIs(a: string, b: string)
    ensures SameText(a, b) <==> SameWord(a, b)
  {
    if |a| == |b| {
      forall i | 0 <= i < |a| ensures Lower(a[i]) == Lower(b[i]) <==> SameLetter(a[i], b[i]) {
        LetterIs(a[i], b[i]);
      }
    }
  }

  /** Spaces and tabs only. */
  predicate IsGap(s: string) {
    forall i :: 0 <= i < |s| ==> s[i] == ' ' || s[i] == '\t'
  }

  /** No space and no tab. */
  predicate IsSolid(s: string) {
    ' ' !in s && '\t' !in s
  }

  lemma BlanksAre(s: string)
    ensures AllBlank(s) <==> IsGap(s)
    ensures NoBlank(s) <==> IsSolid(s)
  {
    if IsSolid(s) {
      forall i | 0 <= i < |s| ensures !IsBlank(s[i]) {
        assert s[i] in s;
      }
    }
  }

  /** What strncasecmp looks at: at most n characters, ending with the terminator when it comes into reach. */
  function Window(s: string, n: nat): string {
    if n <= |s| then s[..n] else s + [NUL]
  }

  /** strncasecmp(a, b, n) == 0 */
  predicate SamePrefix(a: string, b: string, n: nat) {
    SameText(Window(a, n), Window(b, n))
  }

  /** strspn(s, " \t") */
  function Span(s: string): (n: nat)
    ensures n <= |s| && AllBlank(s[..n]) && (n < |s| ==> !IsBlank(s[n]))
  {
    if s == [] || !IsBlank(s[0]) then 0
    else
      assert s[..1 + Span(s[1..])] == [s[0]] + s[1..][..Span(s[1..])];
      1 + Span(s[1..])
  }

  /** strpbrk(s, " \t") as an offset; |s| stands for NULL. */
  function Break(s: string): (n: nat)
    ensures n <= |s| && NoBlank(s[..n]) && (n < |s| ==> IsBlank(s[n]))
  {
    if s == [] || IsBlank(s[0]) then 0
    else
      assert s[..1 + Break(s[1..])] == [s[0]] + s[1..][..Break(s[1..])];
      1 + Break(s[1..])
  }

  /** strchr(s, c) as an offset; |s| stands for NULL. */
  function Find(s: string, c: char): (n: nat)
    ensures n <= |s| && c !in s[..n] && (n < |s| ==> s[n] == c)
  {
    if s == [] || s[0] == c then 0
    else
      assert s[..1 + Find(s[1..], c)] == [s[0]] + s[1..][..Find(s[1..], c)];
      1 + Find(s[1..], c)
  }

  /** atol on a string that may start with blanks and a sign; what follows the digits is ignored. */
  function Atol(s: string): int {
    var t := s[Span(s)..];
    if t != [] && t[0] == '-' then -Digits(t[1..], 0)
    else if t != [] && t[0] == '+' then Digits(t[1..], 0)
    else Digits(t, 0)
  }

  function Digits(s: string, acc: int): int {
    if s != [] && '0' <= s[0] <= '9' then Digits(s[1..], 10 * acc + (s[0] as int - '0' as int)) else acc
  }

  /** The C string that starts at index i of a buffer. */
  function StringAt(b: string, i: nat): string
    decreases |b| - i
  {
    if i >= |b| || b[i] == NUL then [] else [b[i]] + StringAt(b, i + 1)
  }

  /** Index i of the buffer holds exactly the C string s, terminator included. */
  ghost predicate Holds(b: string, i: nat, s: string) {
    i + |s| < |b| && b[i..i + |s|] == s && b[i + |s|] == NUL && NulFree(s)
  }

  lemma {:induction false} HoldsIsStringAt(b: string, i: nat, s: string)
    requires Holds(b, i, s)
    ensures StringAt(b, i) == s && NulFree(s) && i + |s| < |b|
    decreases |s|
  {
    if s != [] {
      assert b[i] == s[0];
      assert b[i + 1..i + |s|] == s[1..];
      HoldsIsStringAt(b, i + 1, s[1..]);
    }
  }

  lemma HoldsSuffix(b: string, i: nat, s: string, k: nat)
    requires Holds(b, i, s) && k <= |s|
    ensures Holds(b, i + k, s[k..])
  {
    assert b[i + k..i + |s|] == s[k..];
  }

  /** Writing a NUL inside a C string cuts it in two. */
  lemma HoldsCut(b: string, i: nat, s: string, k: nat)
    requires Holds(b, i, s) && k < |s|
    ensures Holds(b[i + k := NUL], i, s[..k]) && Holds(b[i + k := NUL], i + k + 1, s[k + 1..])
  {
    var c := b[i + k := NUL];
    assert forall j :: 0 <= j < |s| ==> b[i + j] == b[i..i + |s|][j] == s[j];
    assert c[i..i + k] == s[..k];
    assert c[i + k + 1..i + |s|] == s[k + 1..];
  }

  /** A C string survives writes behind its terminator. */
  lemma HoldsFrame(b: string, c: string, i: nat, s: string, lim: nat)
    requires Holds(b, i, s) && i + |s| < lim <= |b| == |c| && b[..lim] == c[..lim]
    ensures Holds(c, i, s)
  {
    assert forall j :: 0 <= j < lim ==> b[j] == b[..lim][j] == c[..lim][j] == c[j];
    assert c[i..i + |s|] == b[i..i + |s|];
  }
}
