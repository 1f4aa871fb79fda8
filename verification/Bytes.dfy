/**
 Searches over byte strings. A byte is a `char`; a range of pointers into a buffer is
 the string of the bytes it covers, and the end pointer of a failed search is the length.
 */
module Bytes {

  datatype Option<+T> = None | Some(value: T)

  const CRLF: string := "\r\n"

  /** std::find: the first position of c, or |s| when c does not occur. */
  function Find(s: string, c: char): (k: nat)
    ensures k <= |s|
    ensures forall j :: 0 <= j < k ==> s[j] != c
    ensures k < |s| ==> s[k] == c
  {
    if s == [] || s[0] == c then 0 else 1 + Find(s[1..], c)
  }

  predicate IsCrlf(s: string, k: nat) {
    k + 1 < |s| && s[k] == '\r' && s[k + 1] == '\n'
  }

  /** std::search for "\r\n": the first position of the pair, or |s|. */
  function FindCrlf(s: string): (k: nat)
    ensures k <= |s|
    ensures forall j: nat :: j < k ==> !IsCrlf(s, j)
    ensures k < |s| ==> IsCrlf(s, k)
  {
    if s == [] || IsCrlf(s, 0) then 0 else
      var k := FindCrlf(s[1..]);
      assert forall j: nat :: 0 < j ==> IsCrlf(s, j) == IsCrlf(s[1..], j - 1);
      1 + k
  }

  predicate NoCrOrLf(s: string) {
    '\r' !in s && '\n' !in s
  }

  /** A CR/LF-free line is found whole when its terminator follows. */
  lemma FindCrlfAfterLine(line: string, tail: string)
    requires NoCrOrLf(line)
    ensures FindCrlf(line + CRLF + tail) == |line|
  {
    var s := line + CRLF + tail;
    assert IsCrlf(s, |line|);
    assert forall j :: 0 <= j < |line| ==> s[j] == line[j];
  }

  /** Bytes that arrive later never move a line end that was already found. */
  lemma FindCrlfStable(s: string, later: string)
    requires FindCrlf(s) < |s|
    ensures FindCrlf(s + later) == FindCrlf(s)
  {
    var k := FindCrlf(s);
    assert IsCrlf(s + later, k);
    assert forall j: nat :: j < k ==> IsCrlf(s + later, j) == IsCrlf(s, j);
  }

  /** ::isspace in the "C" locale. */
  predicate IsSpace(c: char) {
    c == ' ' || ('\t' <= c <= '\r')
  }

  /** The six characters that are white space, and the two that end a line. */
  lemma Literals(s: string, k: nat)
    ensures k < |s| ==> (IsSpace(s[k]) <==> s[k] in " \t\n\r" || s[k] as int == 11 || s[k] as int == 12)
    ensures IsCrlf(s, k) <==> k + 2 <= |s| && s[k..k + 2] == "\r\n"
  {
    if k + 2 <= |s| {
      assert s[k..k + 2] == [s[k], s[k + 1]];
    }
  }

  function TrimLeft(s: string): string {
    if s != [] && IsSpace(s[0]) then TrimLeft(s[1..]) else s
  }

  function TrimRight(s: string): string {
    if s != [] && IsSpace(s[|s| - 1]) then TrimRight(s[..|s| - 1]) else s
  }

  predicate AllSpace(s: string) {
    forall j :: 0 <= j < |s| ==> IsSpace(s[j])
  }

  predicate Trimmed(s: string) {
    s == [] || (!IsSpace(s[0]) && !IsSpace(s[|s| - 1]))
  }

  lemma {:induction false} TrimLeftInverse(before: string, rest: string)
    requires AllSpace(before) && (rest == [] || !IsSpace(rest[0]))
    ensures TrimLeft(before + rest) == rest
    decreases |before|
  {
    if before == [] {
      assert before + rest == rest;
    } else {
      assert (before + rest)[1..] == before[1..] + rest;
      assert forall j :: 0 <= j < |before| - 1 ==> before[1..][j] == before[j + 1];
      TrimLeftInverse(before[1..], rest);
    }
  }

  lemma {:induction false} TrimRightInverse(rest: string, after: string)
    requires AllSpace(after) && (rest == [] || !IsSpace(rest[|rest| - 1]))
    ensures TrimRight(rest + after) == rest
    decreases |after|
  {
    if after == [] {
      assert rest + after == rest;
    } else {
      var shorter := after[..|after| - 1];
      assert (rest + after)[..|rest + after| - 1] == rest + shorter;
      TrimRightInverse(rest, shorter);
    }
  }

  /** Optional white space around a trimmed value is exactly what trimming removes. */
  lemma TrimInverse(before: string, value: string, after: string)
    requires AllSpace(before) && AllSpace(after) && Trimmed(value)
    ensures TrimRight(TrimLeft(before + value + after)) == value
  {
    if value == [] {
      assert AllSpace(before + value + after);
      assert before + value + after == (before + value + after) + [];
      TrimLeftInverse(before + value + after, []);
    } else {
      assert before + value + after == before + (value + after);
      TrimLeftInverse(before, value + after);
      TrimRightInverse(value, after);
    }
  }

  /** ::snprintf into a buffer of the given size: cut so that the terminator fits. */
  function Snprintf(size: nat, text: string): string
    requires size > 0
  {
    if |text| < size then text else text[..size - 1]
  }
}
