/** The error line each malformed storage command is answered with. */
module CommandErrors {
  import opened Text
  import opened Commands

  /** A line, its CRLF and whatever has arrived behind it. */
  function Arrived(line: string, rest: string): string {
    line + ("\r\n" + rest)
  }

  function Two(a: string, b: string): string {
    a + (" " + b)
  }

  lemma TwoArrived(a: string, b: string, rest: string)
    ensures Arrived(Two(a, b), rest) == Two(a, Arrived(b, rest))
  {
  }

  /** A field followed by a space: what the searches find, and what is left. */
  lemma FirstField(s: string, at: nat, field: string, line: string, rest: string)
    requires |s| < NPOS && Token(field) && Suffix(s, at, Arrived(Two(field, line), rest))
    ensures FindChar(s, ' ', at) == at + |field| && Sub(s, at, at + |field|) == field
    ensures Suffix(s, at + |field| + 1, Arrived(line, rest))
  {
    hide FindChar, Sub, Suffix, Free, CrlfFree;
    TwoArrived(field, line, rest);
    PeelToken(s, at, field, Arrived(line, rest));
  }

  /** A line of the word alone. */
  lemma KeyMissing(word: string, rest: string, isCas: bool, short: bool, now: nat)
    requires Token(word) && |Arrived(word, rest)| < NPOS
    ensures Common(Arrived(word, rest), isCas, short, now) == Error("CLIENT_ERROR key not found\r\n")
  {
    hide FindChar, FindCrlf, Free, CrlfFree, ParseBytes, Stoul;
    var s := Arrived(word, rest);
    WholeSuffix(s);
    LineEnd(word, rest, 0);
    LastField(s, 0, word, rest);
  }

  /** A line of word and key. */
  lemma FlagsMissing(word: string, key: string, rest: string, isCas: bool, short: bool, now: nat)
    requires Token(word) && Token(key) && |Arrived(Two(word, key), rest)| < NPOS
    ensures Common(Arrived(Two(word, key), rest), isCas, short, now) == Error("CLIENT_ERROR flags not found\r\n")
  {
    hide FindChar, FindCrlf, Free, CrlfFree, ParseBytes, Stoul, Suffix;
    var s := Arrived(Two(word, key), rest);
    WholeSuffix(s);
    CrlfFreeSpace(word, key);
    LineEnd(Two(word, key), rest, 0);
    FirstField(s, 0, word, key, rest);
    LastField(s, |word| + 1, key, rest);
  }

  /** A line of word, key and flags. */
  lemma ExpTimeMissing(word: string, key: string, flags: string, rest: string, isCas: bool, now: nat)
    requires Token(word) && Token(key) && Token(flags) && |Arrived(Two(word, Two(key, flags)), rest)| < NPOS
    ensures Common(Arrived(Two(word, Two(key, flags)), rest), isCas, false, now)
         == Error("CLIENT_ERROR expiry time not found\r\n")
  {
    hide FindChar, FindCrlf, Free, CrlfFree, ParseBytes, Stoul, Suffix;
    var s := Arrived(Two(word, Two(key, flags)), rest);
    WholeSuffix(s);
    CrlfFreeSpace(key, flags);
    CrlfFreeSpace(word, Two(key, flags));
    LineEnd(Two(word, Two(key, flags)), rest, 0);
    FirstField(s, 0, word, Two(key, flags), rest);
    FirstField(s, |word| + 1, key, flags, rest);
    LastField(s, |word| + 1 + |key| + 1, flags, rest);
  }

  /** What the searches up to the exptime field find. */
  lemma FlagsFound(word: string, key: string, flags: string, line: string, rest: string)
    requires Token(word) && Token(key) && Token(flags) && CrlfFree(line)
    requires |Arrived(Two(word, Two(key, Two(flags, line))), rest)| < NPOS
    ensures var s := Arrived(Two(word, Two(key, Two(flags, line))), rest);
      var k0, f0, at := |word| + 1, |word| + |key| + 2, |word| + |key| + |flags| + 3;
      && Suffix(s, at, Arrived(line, rest)) && at + |line| + 2 <= |s|
      && (forall start: nat :: start <= at + |line| ==> FindCrlf(s, start) == at + |line|)
      && FindChar(s, ' ', 0) == |word|
      && FindChar(s, ' ', k0) == f0 - 1 && Sub(s, k0, f0 - 1) == key
      && FindChar(s, ' ', f0) == at - 1 && Sub(s, f0, at - 1) == flags
  {
    hide FindChar, FindCrlf, Free, CrlfFree, Suffix, Sub;
    var l2 := Two(flags, line);
    var l1 := Two(key, l2);
    var whole := Two(word, l1);
    var s := Arrived(whole, rest);
    WholeSuffix(s);
    CrlfFreeSpace(flags, line);
    CrlfFreeSpace(key, l2);
    CrlfFreeSpace(word, l1);
    forall start: nat | start <= |whole|
      ensures FindCrlf(s, start) == |whole|
    {
      LineEnd(whole, rest, start);
    }
    FirstField(s, 0, word, l1, rest);
    FirstField(s, |word| + 1, key, l2, rest);
    FirstField(s, |word| + 1 + |key| + 1, flags, line, rest);
  }

  /** What precedes the exptime field has been read: the answer depends on that field and on what follows it. */
  lemma UpToExpTime(word: string, key: string, flags: string, line: string, rest: string, isCas: bool, now: nat)
    requires Token(word) && Token(key) && Token(flags) && CrlfFree(line)
    requires |Arrived(Two(word, Two(key, Two(flags, line))), rest)| < NPOS
    ensures var s, at := Arrived(Two(word, Two(key, Two(flags, line))), rest), |word| + |key| + |flags| + 3;
      && Suffix(s, at, Arrived(line, rest)) && at + |line| + 2 <= |s|
      && (forall start: nat :: start <= at + |line| ==> FindCrlf(s, start) == at + |line|)
      && var e1 := FindChar(s, ' ', at);
         Common(s, isCas, false, now) ==
         match Stoul(Sub(s, at, e1))
         case Invalid => Error("CLIENT_ERROR invalid expiry time\r\n")
         case TooLarge => Throws
         case Number(n) =>
           if e1 == NPOS || e1 > at + |line| then Error("CLIENT_ERROR bytes not found\r\n")
           else ParseBytes(s, isCas, at + |line|, e1 + 1, Storage(key, flags, Expiry(n, now), 0, "", false, ""))
  {
    hide FindChar, FindCrlf, Free, CrlfFree, ParseBytes, Stoul, Suffix, Sub, Expiry, Two, Arrived;
    FlagsFound(word, key, flags, line, rest);
  }

  /** An exptime that stoul refuses. */
  lemma ExpTimeInvalid(word: string, key: string, flags: string, expTime: string, line: string, rest: string,
                       isCas: bool, now: nat)
    requires Token(word) && Token(key) && Token(flags) && Token(expTime) && CrlfFree(line)
    requires Stoul(expTime) == Invalid && |Arrived(Two(word, Two(key, Two(flags, Two(expTime, line)))), rest)| < NPOS
    ensures Common(Arrived(Two(word, Two(key, Two(flags, Two(expTime, line)))), rest), isCas, false, now)
         == Error("CLIENT_ERROR invalid expiry time\r\n")
  {
    hide FindChar, FindCrlf, Free, CrlfFree, ParseBytes, Stoul, Suffix, Sub, Expiry, Common;
    CrlfFreeSpace(expTime, line);
    UpToExpTime(word, key, flags, Two(expTime, line), rest, isCas, now);
    FirstField(Arrived(Two(word, Two(key, Two(flags, Two(expTime, line)))), rest), |word| + |key| + |flags| + 3,
               expTime, line, rest);
  }

  lemma StoulDecThen(n: nat, tail: string)
    requires n < 0x1_0000_0000 && (tail == "" || !IsDigit(tail[0]))
    ensures Stoul(Dec(n) + tail) == Number(n)
  {
    hide DigitRun, Value, IsDigit, SkipSpaces, Dec;
    var s := Dec(n) + tail;
    StartsAtOnce(s);
    DigitRunThen(Dec(n), tail);
    ValueDec(n);
    assert s[..|Dec(n)|] == Dec(n);
  }

  lemma {:induction false} DigitRunThen(s: string, tail: string)
    requires (forall i :: 0 <= i < |s| ==> IsDigit(s[i])) && (tail == "" || !IsDigit(tail[0]))
    ensures DigitRun(s + tail) == |s|
  {
    if s != "" {
      DigitRunThen(s[1..], tail);
      assert (s + tail)[1..] == s[1..] + tail;
    } else {
      assert s + tail == tail;
    }
  }

  lemma SubToEnd(s: string, at: nat)
    requires at <= |s| < NPOS
    ensures Sub(s, at, NPOS) == s[at..|s|]
  {
  }

  /** A number that ends its line reads as that number, however far the search for a space went. */
  lemma NumberBeforeCrlf(s: string, at: nat, n: nat, rest: string)
    requires |s| < NPOS && n < 0x1_0000_0000 && Suffix(s, at, Arrived(Dec(n), rest))
    ensures FindChar(s, ' ', at) > at + |Dec(n)| && Stoul(Sub(s, at, FindChar(s, ' ', at))) == Number(n)
  {
    hide FindChar, Stoul, Dec, Sub, Free, CrlfFree;
    DecTokens(n);
    LastField(s, at, Dec(n), rest);
    var e1 := FindChar(s, ' ', at);
    var stop := if e1 == NPOS then |s| else e1;
    if e1 == NPOS {
      SubToEnd(s, at);
    } else {
      SubSlice(s, at, e1);
    }
    var tail := ("\r\n" + rest)[..stop - at - |Dec(n)|];
    assert s[at..stop] == s[at..][..stop - at] == Dec(n) + tail;
    StoulDecThen(n, tail);
  }

  /** A line of word, key, flags and exptime. */
  lemma BytesMissing(word: string, key: string, flags: string, n: nat, rest: string, isCas: bool, now: nat)
    requires Token(word) && Token(key) && Token(flags) && n < 0x1_0000_0000
    requires |Arrived(Two(word, Two(key, Two(flags, Dec(n)))), rest)| < NPOS
    ensures Common(Arrived(Two(word, Two(key, Two(flags, Dec(n)))), rest), isCas, false, now)
         == Error("CLIENT_ERROR bytes not found\r\n")
  {
    hide FindChar, FindCrlf, Free, CrlfFree, ParseBytes, Stoul, Suffix, Sub, Expiry, Common, Dec;
    DecTokens(n);
    UpToExpTime(word, key, flags, Dec(n), rest, isCas, now);
    NumberBeforeCrlf(Arrived(Two(word, Two(key, Two(flags, Dec(n)))), rest), |word| + |key| + |flags| + 3, n, rest);
  }

  /** Everything before the bytes field has been read. */
  lemma UpToBytes(word: string, key: string, flags: string, n: nat, line: string, rest: string, isCas: bool, now: nat)
    requires Token(word) && Token(key) && Token(flags) && n < 0x1_0000_0000 && CrlfFree(line)
    requires |Arrived(Two(word, Two(key, Two(flags, Two(Dec(n), line)))), rest)| < NPOS
    ensures var s := Arrived(Two(word, Two(key, Two(flags, Two(Dec(n), line)))), rest);
      var at := |word| + |key| + |flags| + |Dec(n)| + 4;
      && Suffix(s, at, Arrived(line, rest)) && at + |line| + 2 <= |s|
      && (forall start: nat :: start <= at + |line| ==> FindCrlf(s, start) == at + |line|)
      && Common(s, isCas, false, now) ==
         ParseBytes(s, isCas, at + |line|, at, Storage(key, flags, Expiry(n, now), 0, "", false, ""))
  {
    hide FindChar, FindCrlf, Free, CrlfFree, ParseBytes, Stoul, Suffix, Sub, Expiry, Common, Dec;
    DecTokens(n);
    CrlfFreeSpace(Dec(n), line);
    UpToExpTime(word, key, flags, Two(Dec(n), line), rest, isCas, now);
    FirstField(Arrived(Two(word, Two(key, Two(flags, Two(Dec(n), line)))), rest), |word| + |key| + |flags| + 3,
               Dec(n), line, rest);
    StoulDec(n);
  }

  /** A byte count that stoul refuses. */
  lemma BytesInvalid(word: string, key: string, flags: string, n: nat, bytes: string, rest: string, now: nat)
    requires Token(word) && Token(key) && Token(flags) && n < 0x1_0000_0000 && Token(bytes)
    requires Stoul(bytes) == Invalid && |Arrived(Two(word, Two(key, Two(flags, Two(Dec(n), bytes)))), rest)| < NPOS
    ensures Common(Arrived(Two(word, Two(key, Two(flags, Two(Dec(n), bytes)))), rest), false, false, now)
         == Error("CLIENT_ERROR invalid number of bytes\r\n")
  {
    hide FindChar, FindCrlf, Free, CrlfFree, Stoul, Suffix, Sub, Expiry, Common, Dec, ParseTail;
    UpToBytes(word, key, flags, n, bytes, rest, false, now);
    var s := Arrived(Two(word, Two(key, Two(flags, Two(Dec(n), bytes)))), rest);
    var at := |word| + |key| + |flags| + |Dec(n)| + 4;
    TailPlain(s, false, at + |bytes|, at, bytes, Sub(s, at, FindChar(s, ' ', at)),
              Storage(key, flags, Expiry(n, now), 0, "", false, ""), rest);
  }

  /** A word other than noreply after the byte count; either spelling of noreply is taken, and so is nothing. */
  lemma JunkIff(word: string, key: string, flags: string, n: nat, bytes: string, junk: string, rest: string, now: nat)
    requires Token(word) && Token(key) && Token(flags) && n < 0x1_0000_0000 && Token(bytes) && CrlfFree(junk)
    requires |Arrived(Two(word, Two(key, Two(flags, Two(Dec(n), Two(bytes, junk))))), rest)| < NPOS
    ensures Common(Arrived(Two(word, Two(key, Two(flags, Two(Dec(n), Two(bytes, junk))))), rest), false, false, now)
         == Error("CLIENT_ERROR junk found instead of \"noreply\"\r\n")
         <==> junk !in {"", "noreply", "noreply "}
  {
    hide FindChar, FindCrlf, Free, CrlfFree, Stoul, Suffix, Sub, Expiry, Common, Dec, ParseBytes;
    CrlfFreeSpace(bytes, junk);
    var line := Two(bytes, junk);
    UpToBytes(word, key, flags, n, line, rest, false, now);
    var s := Arrived(Two(word, Two(key, Two(flags, Two(Dec(n), line)))), rest);
    JunkTail(s, |word| + |key| + |flags| + |Dec(n)| + 4, bytes, junk, rest,
             Storage(key, flags, Expiry(n, now), 0, "", false, ""));
  }

  lemma JunkTail(s: string, at: nat, bytes: string, junk: string, rest: string, store: Storage)
    requires |s| < NPOS && Token(bytes) && Suffix(s, at, Arrived(Two(bytes, junk), rest))
    requires var endl := at + |Two(bytes, junk)|; endl + 2 <= |s| && FindCrlf(s, at + |bytes| + 1) == endl
    ensures ParseBytes(s, false, at + |Two(bytes, junk)|, at, store)
         == Error("CLIENT_ERROR junk found instead of \"noreply\"\r\n")
         <==> junk !in {"", "noreply", "noreply "}
  {
    hide FindChar, FindCrlf, Free, CrlfFree, Suffix, Sub, ParseCount;
    FirstField(s, at, bytes, junk, rest);
    JunkRead(s, at + |bytes| + 1, junk, rest);
    CountIsNoJunk(s, at + |Two(bytes, junk)|, bytes, store.(noreply := false));
    CountIsNoJunk(s, at + |Two(bytes, junk)|, bytes, store.(noreply := true));
  }

  lemma JunkRead(s: string, at: nat, junk: string, rest: string)
    requires |s| < NPOS && Suffix(s, at, Arrived(junk, rest))
    ensures at + |junk| <= |s| && Sub(s, at, at + |junk|) == junk
  {
    hide Sub;
    Peel(s, at, junk, "\r\n" + rest);
    SubSlice(s, at, at + |junk|);
  }

  lemma CountIsNoJunk(s: string, endl: nat, bytes: string, store: Storage)
    requires |s| < NPOS && endl + 2 <= |s|
    ensures ParseCount(s, endl, bytes, store) != Error("CLIENT_ERROR junk found instead of \"noreply\"\r\n")
  {
    hide Sub, Stoul;
    assert "CLIENT_ERROR invalid number of bytes\r\n"[13] == 'i' && "CLIENT_ERROR junk found"[13] == 'j';
  }

  /** A cas line without its cas field is refused only if a space follows later in the input; else bytes is the cas. */
  lemma CasMissingIff(word: string, key: string, flags: string, n: nat, bytes: string, rest: string, now: nat)
    requires Token(word) && Token(key) && Token(flags) && n < 0x1_0000_0000 && Token(bytes)
    requires |Arrived(Two(word, Two(key, Two(flags, Two(Dec(n), bytes)))), rest)| < NPOS
    ensures Common(Arrived(Two(word, Two(key, Two(flags, Two(Dec(n), bytes)))), rest), true, false, now)
         == Error("CLIENT_ERROR cas string not found\r\n")
         <==> !Free(rest, ' ')
  {
    hide FindChar, FindCrlf, Free, CrlfFree, Stoul, Suffix, Sub, Expiry, Common, Dec, ParseCount;
    UpToBytes(word, key, flags, n, bytes, rest, true, now);
    var s := Arrived(Two(word, Two(key, Two(flags, Two(Dec(n), bytes)))), rest);
    var at := |word| + |key| + |flags| + |Dec(n)| + 4;
    LastField(s, at, bytes, rest);
    LaterSpace(s, at, bytes, rest);
    CountIsNoCas(s, at + |bytes|, Sub(s, at, FindChar(s, ' ', at)),
                 Storage(key, flags, Expiry(n, now), 0, Sub(s, at, at + |bytes|), false, ""));
  }

  lemma LaterSpace(s: string, at: nat, field: string, rest: string)
    requires |s| < NPOS && Suffix(s, at, Arrived(field, rest)) && FindChar(s, ' ', at) > at + |field|
    ensures FindChar(s, ' ', at) == NPOS <==> Free(rest, ' ')
  {
    hide FindChar;
    var b1, behind := FindChar(s, ' ', at), at + |field| + 2;
    Peel(s, at, field, "\r\n" + rest);
    Peel(s, at + |field|, "\r\n", rest);
    assert s[behind..] == rest;
    if b1 != NPOS {
      assert s[at + |field| + 1] == s[at + |field|..behind][1] == '\n';
      assert rest[b1 - behind] == ' ';
    } else {
      assert forall k :: 0 <= k < |rest| ==> rest[k] == s[behind + k];
    }
  }

  lemma CountIsNoCas(s: string, endl: nat, bytes: string, store: Storage)
    requires |s| < NPOS && endl + 2 <= |s|
    ensures ParseCount(s, endl, bytes, store) != Error("CLIENT_ERROR cas string not found\r\n")
  {
    hide Sub, Stoul;
    assert "CLIENT_ERROR invalid number of bytes\r\n"[13] == 'i' && "CLIENT_ERROR cas string"[13] == 'c';
  }

  // ---------- the short form of append and prepend ----------

  lemma DigitsInside(s: string, n: nat)
    requires s == Dec(n)
    ensures |s| >= 1 && Token(s[1..]) && forall i :: 0 <= i < |s[1..]| ==> IsDigit(s[1..][i])
  {
    forall i | 0 <= i < |s[1..]|
      ensures IsDigit(s[1..][i])
    {
      assert s[1..][i] == s[i + 1];
    }
  }

  /** The cursor starts one character into the byte count, so its first digit is lost. */
  lemma ShortFormRead(word: string, key: string, n: nat, rest: string, now: nat)
    requires Token(word) && Token(key) && |Arrived(Two(word, Two(key, Dec(n))), rest)| < NPOS
    ensures var s, endl := Arrived(Two(word, Two(key, Dec(n))), rest), |Two(word, Two(key, Dec(n)))|;
      && endl + 2 <= |s|
      && Common(s, false, true, now) == ParseCount(s, endl, Dec(n)[1..], Storage(key, "", 0, 0, "", false, ""))
  {
    hide FindChar, FindCrlf, Free, CrlfFree, Stoul, Suffix, Sub, Dec, ParseTail, ParseCount;
    var line := Two(word, Two(key, Dec(n)));
    var s, field, at := Arrived(line, rest), Dec(n)[1..], |word| + |key| + 2;
    WholeSuffix(s);
    DecTokens(n);
    DigitsInside(Dec(n), n);
    CrlfFreeSpace(key, Dec(n));
    CrlfFreeSpace(word, Two(key, Dec(n)));
    LineEnd(line, rest, 0);
    LineEnd(line, rest, at + 1);
    FirstField(s, 0, word, Two(key, Dec(n)), rest);
    FirstField(s, |word| + 1, key, Dec(n), rest);
    OneIn(s, at, Dec(n), rest);
    TailPlain(s, false, |line|, at + 1, field, Sub(s, at + 1, FindChar(s, ' ', at + 1)),
              Storage(key, "", 0, 0, "", false, ""), rest);
  }

  lemma OneIn(s: string, at: nat, field: string, rest: string)
    requires |field| >= 1 && Suffix(s, at, Arrived(field, rest))
    ensures Suffix(s, at + 1, Arrived(field[1..], rest))
  {
    assert s[at + 1..] == s[at..][1..];
  }

  lemma {:induction false} ValueDrops(s: string)
    requires |s| >= 1 && forall i :: 0 <= i < |s| ==> IsDigit(s[i])
    ensures Value(s[1..]) + DigitValue(s[0]) <= Value(s)
  {
    var u := s[..|s| - 1];
    if u == "" {
      assert s[1..] == "";
    } else {
      ValueDrops(u);
      assert s[1..][..|s| - 2] == u[1..];
    }
  }

  lemma {:induction false} NoLeadingZero(n: nat)
    requires n >= 1
    ensures Dec(n)[0] != '0'
  {
    if n >= 10 {
      NoLeadingZero(n / 10);
    }
  }

  lemma StoulDigits(s: string)
    requires forall i :: 0 <= i < |s| ==> IsDigit(s[i])
    ensures Stoul(s) == if s == "" then Invalid else if Value(s) < 0x1_0000_0000 then Number(Value(s)) else TooLarge
  {
    hide DigitRun, Value, IsDigit, SkipSpaces;
    DigitRunAll(s);
    StartsAtOnce(s);
    assert s[..|s|] == s;
  }

  lemma StartsAtOnce(s: string)
    requires s != "" ==> IsDigit(s[0])
    ensures SkipSpaces(s) == s && (s != "" ==> s[0] != '-' && s[0] != '+')
  {
  }

  /**
   * So the short form is never read as it was written: a count of one digit is answered as a malformed full form, and
   * a longer one is read as a smaller number.
   */
  lemma ShortFormNeverRight(word: string, key: string, n: nat, rest: string, now: nat)
    requires word in {"append", "prepend"} && Token(key) && |Arrived(Two(word, Two(key, Dec(n))), rest)| < NPOS
    ensures var r := ParseStorage(word, Arrived(Two(word, Two(key, Dec(n))), rest), now);
      if n < 10 then r == Error("CLIENT_ERROR expiry time not found\r\n")
      else if Value(Dec(n)[1..]) >= 0x1_0000_0000 then r == Throws
      else r.Parsed? && r.store.key == key && r.store.bytes == Value(Dec(n)[1..]) < n
  {
    hide Common, Free, CrlfFree, Stoul, Sub, ToInt, Value;
    WordTokens(word);
    DecTokens(n);
    DigitsInside(Dec(n), n);
    StoulDigits(Dec(n)[1..]);
    ShortFormRead(word, key, n, rest, now);
    if n < 10 {
      ExpTimeMissing(word, key, Dec(n), rest, false, now);
    } else {
      NoLeadingZero(n);
      ValueDrops(Dec(n));
      ValueDec(n);
    }
  }
}
