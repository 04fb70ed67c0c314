/** The string operations the command parser relies on, as std::string and std::stoul define them. */
module Text {

  /** string::npos as an unsigned int of the 32-bit build. */
  const NPOS: nat := 0xFFFF_FFFF

  /** find(c, start). */
  function FindChar(s: string, c: char, start: nat): (p: nat)
    requires |s| < NPOS
    ensures p == NPOS || (start <= p < |s| && s[p] == c)
    ensures forall i :: start <= i < p && i < |s| ==> s[i] != c
    decreases |s| - start
  {
    if start >= |s| then NPOS else if s[start] == c then start else FindChar(s, c, start + 1)
  }

  predicate CrlfAt(s: string, i: nat) {
    i + 2 <= |s| && s[i] == '\r' && s[i + 1] == '\n'
  }

  /** The first CRLF from start on, or -1. */
  function Find(s: string, start: nat): (p: int)
    ensures p == -1 || start <= p
    ensures p >= 0 ==> CrlfAt(s, p)
    ensures forall i :: start <= i && (p < 0 || i < p) ==> !CrlfAt(s, i)
    decreases |s| - start
  {
    if start + 2 > |s| then -1
    else if CrlfAt(s, start) then start
    else Find(s, start + 1)
  }

  /** find("\r\n", start). */
  function FindCrlf(s: string, start: nat): (p: nat)
    requires |s| < NPOS
    ensures p == NPOS || (start <= p && CrlfAt(s, p))
    ensures forall i :: start <= i < p ==> !CrlfAt(s, i)
  {
    var p := Find(s, start);
    if p < 0 then NPOS else p
  }

  /** substr(start, stop - start), the count being an unsigned difference; substr clamps it to the end. */
  function Sub(s: string, start: nat, stop: nat): string
    requires start <= |s| < NPOS
  {
    var count := (stop - start) % 0x1_0000_0000;
    if start + count <= |s| then s[start..start + count] else s[start..]
  }

  lemma SubSlice(s: string, start: nat, stop: nat)
    requires start <= stop <= |s| < NPOS
    ensures Sub(s, start, stop) == s[start..stop]
  {
  }

  // ---------- decimal numbers ----------

  predicate IsDigit(c: char) {
    '0' <= c <= '9'
  }

  predicate IsSpace(c: char) {
    c in {' ', '\t', '\n', 11 as char, 12 as char, '\r'}
  }

  function DigitValue(c: char): nat
    requires IsDigit(c)
  {
    c as nat - '0' as nat
  }

  /** to_string of an unsigned number. */
  function Dec(n: nat): (s: string)
    ensures |s| >= 1 && forall i :: 0 <= i < |s| ==> IsDigit(s[i])
  {
    if n < 10 then [('0' as nat + n) as char] else Dec(n / 10) + [('0' as nat + n % 10) as char]
  }

  /** The length of the run of digits at the front. */
  function DigitRun(s: string): (n: nat)
    ensures n <= |s|
  {
    if s != "" && IsDigit(s[0]) then 1 + DigitRun(s[1..]) else 0
  }

  function Value(s: string): nat
    requires forall i :: 0 <= i < |s| ==> IsDigit(s[i])
  {
    if s == "" then 0 else 10 * Value(s[..|s| - 1]) + DigitValue(s[|s| - 1])
  }

  lemma {:induction false} DigitRunDigits(s: string)
    ensures forall i :: 0 <= i < DigitRun(s) ==> IsDigit(s[i])
  {
    if s != "" && IsDigit(s[0]) {
      DigitRunDigits(s[1..]);
      assert forall i :: 0 <= i < DigitRun(s) ==> s[i] == (if i == 0 then s[0] else s[1..][i - 1]);
    }
  }

  function SkipSpaces(s: string): string {
    if s != "" && IsSpace(s[0]) then SkipSpaces(s[1..]) else s
  }

  datatype Number = Invalid | TooLarge | Number(value: nat)

  /** stoul in base ten: leading white space, one sign, then as many digits as there are. */
  function Stoul(s: string): Number {
    var t := SkipSpaces(s);
    var negative := t != "" && t[0] == '-';
    var u := if t != "" && (t[0] == '-' || t[0] == '+') then t[1..] else t;
    var n := DigitRun(u);
    DigitRunDigits(u);
    if n == 0 then Invalid
    else if Value(u[..n]) >= 0x1_0000_0000 then TooLarge
    else if negative then Number((0x1_0000_0000 - Value(u[..n])) % 0x1_0000_0000)
    else Number(Value(u[..n]))
  }

  lemma {:induction false} ValueDec(n: nat)
    ensures Value(Dec(n)) == n
  {
    if n >= 10 {
      ValueDec(n / 10);
      var s := Dec(n);
      assert s[..|s| - 1] == Dec(n / 10);
    } else {
      assert Dec(n)[..0] == "";
    }
  }

  lemma {:induction false} DigitRunAll(s: string)
    requires forall i :: 0 <= i < |s| ==> IsDigit(s[i])
    ensures DigitRun(s) == |s|
  {
    if s != "" {
      DigitRunAll(s[1..]);
    }
  }

  /** stoul reads back what to_string printed, and throws out_of_range on exactly what needs more than 32 bits. */
  lemma StoulDecIff(n: nat)
    ensures Stoul(Dec(n)) == if n < 0x1_0000_0000 then Number(n) else TooLarge
  {
    var s := Dec(n);
    ValueDec(n);
    DigitRunAll(s);
    assert IsDigit(s[0]);
    assert s[..|s|] == s;
  }

  lemma StoulDec(n: nat)
    requires n < 0x1_0000_0000
    ensures Stoul(Dec(n)) == Number(n)
  {
    StoulDecIff(n);
  }

  // ---------- finding the end of a token ----------

  predicate Free(s: string, c: char) {
    forall i :: 0 <= i < |s| ==> s[i] != c
  }

  predicate CrlfFree(s: string) {
    forall i :: 0 <= i < |s| ==> !CrlfAt(s, i)
  }

  predicate Token(s: string) {
    Free(s, ' ') && CrlfFree(s)
  }

  /** A token free of c that is followed by c ends where find says. */
  lemma TokenEnd(s: string, start: nat, tok: string, c: char)
    requires start + |tok| < |s| < NPOS && s[start..start + |tok|] == tok && s[start + |tok|] == c && Free(tok, c)
    ensures FindChar(s, c, start) == start + |tok| && Sub(s, start, start + |tok|) == tok
  {
    assert forall i :: start <= i < start + |tok| ==> s[i] == tok[i - start];
  }

  /** If a token free of c runs up to e, find does not stop before e. */
  lemma TokenRuns(s: string, start: nat, tok: string, c: char)
    requires start + |tok| <= |s| < NPOS && s[start..start + |tok|] == tok && Free(tok, c)
    ensures FindChar(s, c, start) >= start + |tok|
  {
    assert forall i :: start <= i < start + |tok| ==> s[i] == tok[i - start];
  }

  lemma Peel(s: string, at: nat, field: string, rest: string)
    requires at <= |s| && s[at..] == field + rest
    ensures at + |field| <= |s| && s[at..at + |field|] == field && s[at + |field|..] == rest
  {
    assert s[at..][..|field|] == field && s[at..][|field|..] == rest;
  }

  /** t is what s holds from position at on. */
  ghost predicate Suffix(s: string, at: nat, t: string) {
    at <= |s| && s[at..] == t
  }

  lemma WholeSuffix(s: string)
    ensures Suffix(s, 0, s)
  {
  }

  lemma SuffixBound(s: string, at: nat, t: string)
    requires Suffix(s, at, t)
    ensures at + |t| == |s| && s[at..] == t
  {
  }

  /** A token followed by a space, and the text after the space. */
  lemma PeelToken(s: string, at: nat, tok: string, rest: string)
    requires |s| < NPOS && Suffix(s, at, tok + (" " + rest)) && Free(tok, ' ')
    ensures Suffix(s, at + |tok| + 1, rest)
    ensures FindChar(s, ' ', at) == at + |tok| && Sub(s, at, at + |tok|) == tok
  {
    hide FindChar, Sub, Free;
    Peel(s, at, tok, " " + rest);
    Peel(s, at + |tok|, " ", rest);
    assert s[at + |tok|] == s[at + |tok|..at + |tok| + 1][0];
    TokenEnd(s, at, tok, ' ');
  }

  lemma CrlfFreeSpace(a: string, b: string)
    requires CrlfFree(a) && CrlfFree(b)
    ensures CrlfFree(a + (" " + b))
  {
    var s := a + (" " + b);
    forall i | 0 <= i < |s|
      ensures !CrlfAt(s, i)
    {
      if i + 1 < |a| {
        assert !CrlfAt(a, i);
      } else if i > |a| {
        assert !CrlfAt(b, i - |a| - 1);
      }
    }
  }

  lemma DecTokens(n: nat)
    ensures Free(Dec(n), ' ') && CrlfFree(Dec(n))
  {
    forall i | 0 <= i < |Dec(n)|
      ensures !CrlfAt(Dec(n), i)
    {
      assert IsDigit(Dec(n)[i]);
    }
  }

  /** The first CRLF after a line without one is the one that ends it. */
  lemma LineEnd(line: string, rest: string, start: nat)
    requires CrlfFree(line) && start <= |line| && |line + ("\r\n" + rest)| < NPOS
    ensures FindCrlf(line + ("\r\n" + rest), start) == |line|
  {
    var s := line + ("\r\n" + rest);
    assert CrlfAt(s, |line|);
    forall i | 0 <= i < |line|
      ensures !CrlfAt(s, i)
    {
      assert !CrlfAt(line, i);
    }
  }

  lemma LastToken(s: string, at: nat, tok: string)
    requires |s| < NPOS && Suffix(s, at, tok + "\r\n") && Free(tok, ' ')
    ensures FindChar(s, ' ', at) >= at + |tok| && FindChar(s, ' ', at) != at + |tok| && Sub(s, at, at + |tok|) == tok
  {
    Peel(s, at, tok, "\r\n");
    assert s[at + |tok|] == s[at + |tok|..][0] == '\r';
    TokenRuns(s, at, tok, ' ');
  }
}
