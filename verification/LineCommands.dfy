/**
 * The one-line commands that read numbers: incr, decr, touch, flush_all and verbosity. stoul throws invalid_argument
 * or out_of_range, and what no handler catches ends the server.
 */
module LineCommands {
  import opened Machine
  import opened Wrappers
  import opened Text

  /** What a handler does: a reply, a reply and a new value for the key, or an exception nobody catches. */
  datatype Handled = Replied(output: string) | Updated(key: string, value: string, output: string) | Escaped

  // ---------- fields ----------

  /** Key, number and whether noreply ends the line; None when a field is missing. */
  datatype Fields = Fields(key: string, number: string, noreply: bool)

  /** noreply is what is between position start and the end of the line. */
  function SaysNoreply(input: string, start: nat, endl: nat): bool
    requires |input| < NPOS
  {
    start <= |input| && Sub(input, start, endl) == "noreply"
  }

  /** The end of the field that starts at start, and whether another one follows on the line. */
  function FieldEnd(input: string, start: nat, endl: nat): (nat, bool)
    requires |input| < NPOS
  {
    var space := FindChar(input, ' ', start);
    if space == NPOS || space > endl then (endl, false) else (space, true)
  }

  function KeyAndNumber(input: string): Option<Fields>
    requires |input| < NPOS
  {
    var endl := FindCrlf(input, 0);
    var sp := FindChar(input, ' ', 0);
    if sp == NPOS || sp > endl then None
    else
      var k1 := FindChar(input, ' ', sp + 1);
      if k1 == NPOS || k1 > endl then None
      else
        var (end, more) := FieldEnd(input, k1 + 1, endl);
        Some(Fields(Sub(input, sp + 1, k1), Sub(input, k1 + 1, end), more && SaysNoreply(input, end + 1, endl)))
  }

  /** What follows the command word on its line. */
  datatype Options = NoOption | One(first: string) | Two(first: string, second: string)

  function LineOptions(input: string): Options
    requires |input| < NPOS
  {
    var endl := FindCrlf(input, 0);
    var sp := FindChar(input, ' ', 0);
    if sp == NPOS || sp > endl then NoOption
    else
      var (end, more) := FieldEnd(input, sp + 1, endl);
      var field := Sub(input, sp + 1, end);
      if more then Two(field, if end + 1 <= |input| then Sub(input, end + 1, endl) else "") else One(field)
  }

  /** The number flush_all reads: none without options or when the only option is noreply. */
  function FlushNumber(input: string): Option<string>
    requires |input| < NPOS
  {
    match LineOptions(input)
    case NoOption => None
    case One(first) => if first == "noreply" then None else Some(first)
    case Two(first, _) => Some(first)
  }

  function VerbosityNumber(input: string): Option<string>
    requires |input| < NPOS
  {
    match LineOptions(input)
    case NoOption => None
    case One(first) => Some(first)
    case Two(first, _) => Some(first)
  }

  // ---------- when a handler throws ----------

  predicate TooLargeIn(field: Option<string>) {
    field.Some? && Stoul(field.value) == TooLarge
  }

  /** stored gives the value a live key holds. */
  predicate ArithmeticEscapes(input: string, stored: string -> Option<string>)
    requires |input| < NPOS
  {
    var f := KeyAndNumber(input);
    f.Some? && stored(f.value.key).Some? &&
    !(Stoul(f.value.number).Number? && Stoul(stored(f.value.key).value).Number?)
  }

  /** The exceptions that leave cmdProcessCommand on a one-line command. */
  predicate Escapes(word: string, input: string, stored: string -> Option<string>)
    requires |input| < NPOS
  {
    if word == "incr" || word == "decr" then ArithmeticEscapes(input, stored)
    else if word == "touch" then KeyAndNumber(input).Some? && Stoul(KeyAndNumber(input).value.number) == TooLarge
    else if word == "flush_all" then TooLargeIn(FlushNumber(input))
    else if word == "verbosity" then TooLargeIn(VerbosityNumber(input))
    else false
  }

  // ---------- the handlers ----------

  const NOT_FOUND := "NOT_FOUND\r\n"
  const NO_KEY := "CLIENT_ERROR key not found\r\n"
  const NO_VALUE := "CLIENT_ERROR value not found\r\n"
  const BAD_VALUE := "CLIENT_ERROR invalid format for value\r\n"
  const BAD_EXPIRY := "CLIENT_ERROR invalid expiry time\r\n"
  const BAD_NOREPLY := "CLIENT_ERROR invalid noreply field\r\n"

  /** The first space of the line comes before its end. */
  predicate HasOption(input: string)
    requires |input| < NPOS
  {
    FindChar(input, ' ', 0) != NPOS && FindChar(input, ' ', 0) <= FindCrlf(input, 0)
  }

  /** The common beginning of incr, decr and touch, with its two cursors. */
  method ReadFields(input: string) returns (r: Option<Fields>, error: string)
    requires |input| < NPOS
    ensures r == KeyAndNumber(input)
    ensures r.None? ==> error == if HasOption(input) then NO_VALUE else NO_KEY
  {
    hide FindChar, FindCrlf, Sub;
    var nextSpace, nextEndl := FindChar(input, ' ', 0), FindCrlf(input, 0);
    var noreply := true;
    error := "";
    if nextSpace == NPOS || nextSpace > nextEndl {
      return None, NO_KEY;
    }
    nextSpace := nextSpace + 1;
    var tempSpace := FindChar(input, ' ', nextSpace);
    if tempSpace == NPOS || tempSpace > nextEndl {
      return None, NO_VALUE;
    }
    var key := Sub(input, nextSpace, tempSpace);
    nextSpace := tempSpace + 1;
    tempSpace := FindChar(input, ' ', nextSpace);
    if tempSpace == NPOS || tempSpace > nextEndl {
      noreply := false;
      tempSpace := nextEndl;
    }
    var number := Sub(input, nextSpace, tempSpace);
    nextSpace := (tempSpace + 1) % TWO32;
    if noreply && Sub(input, nextSpace, nextEndl) != "noreply" {
      noreply := false;
    }
    r := Some(Fields(key, number, noreply));
  }

  /** What cmdProcessIncr and cmdProcessDecr do about the fields f when the key's live value is stored. */
  ghost predicate ArithmeticDone(f: Fields, decr: bool, stored: Option<string>, r: Handled) {
    match stored
    case None => r == Replied(if f.noreply then "" else "NOT_FOUND\r\n")
    case Some(text) =>
      match (Stoul(f.number), Stoul(text))
      case (Number(amount), Number(was)) =>
        if amount == 0 && !f.noreply then r == Replied("CLIENT_ERROR invalid format for value\r\n")
        else
          && r.Updated? && r.key == f.key && r.output == (if f.noreply then "" else r.value + "\r\n")
          && r.value == Dec(if !decr then (was + amount) % TWO32 else if was <= amount then 0 else was - amount)
      case _ => r == Escaped
  }

  /** cmdProcessIncr and cmdProcessDecr, up to the insert of the new value. */
  method ProcessArithmetic(input: string, decr: bool, stored: string -> Option<string>) returns (r: Handled)
    requires |input| < NPOS
    ensures r.Escaped? <==> ArithmeticEscapes(input, stored)
    ensures match KeyAndNumber(input)
      case None => r == Replied(if HasOption(input) then NO_VALUE else NO_KEY)
      case Some(f) => ArithmeticDone(f, decr, stored(f.key), r)
  {
    hide KeyAndNumber, Stoul, Dec, HasOption;
    var fields, error := ReadFields(input);
    if fields.None? {
      return Replied(error);
    }
    var f := fields.value;
    var storedValue := stored(f.key);
    if storedValue.None? {
      return Replied(if f.noreply then "" else NOT_FOUND);
    }
    var inputNumber := Stoul(f.number);
    if !inputNumber.Number? {
      return Escaped;
    }
    var oldNumber := Stoul(storedValue.value);
    if !oldNumber.Number? {
      return Escaped;
    }
    var inputValue, oldValue := inputNumber.value, oldNumber.value;
    if inputValue == 0 && !f.noreply {
      return Replied(BAD_VALUE);
    }
    if !decr {
      inputValue := (inputValue + oldValue) % TWO32;
    } else if oldValue <= inputValue {
      inputValue := 0;
    } else {
      inputValue := oldValue - inputValue;
    }
    var value := Dec(inputValue);
    return Updated(f.key, value, if f.noreply then "" else value + "\r\n");
  }

  /** cmdProcessTouch, up to the insert with the new expiry. */
  method ProcessTouch(input: string, stored: string -> Option<string>) returns (r: Handled, expTime: nat)
    requires |input| < NPOS
    ensures r.Escaped? <==> Escapes("touch", input, stored)
    ensures match KeyAndNumber(input)
      case None => r == Replied(if HasOption(input) then NO_VALUE else NO_KEY)
      case Some(f) =>
        match Stoul(f.number)
        case Invalid => r == Replied("CLIENT_ERROR invalid expiry time\r\n")
        case TooLarge => r == Escaped
        case Number(n) =>
          match stored(f.key)
          case None => r == Replied(if f.noreply then "" else "NOT_FOUND\r\n")
          case Some(value) => expTime == n && r == Updated(f.key, value, if f.noreply then "" else "TOUCHED\r\n")
  {
    hide KeyAndNumber, Stoul, HasOption;
    expTime := 0;
    var fields, error := ReadFields(input);
    if fields.None? {
      return Replied(error), 0;
    }
    var f := fields.value;
    match Stoul(f.number) {
      case Invalid => return Replied(BAD_EXPIRY), 0;
      case TooLarge => return Escaped, 0;
      case Number(n) => expTime := n;
    }
    var value := stored(f.key);
    if value.None? {
      return Replied(if f.noreply then "" else NOT_FOUND), expTime;
    }
    return Updated(f.key, value.value, if f.noreply then "" else "TOUCHED\r\n"), expTime;
  }

  /** cmdProcessFlushAll; armed is the delay dbSetFlushAll is called with, if it is. */
  method ProcessFlushAll(input: string) returns (r: Handled, armed: Option<nat>)
    requires |input| < NPOS
    ensures r.Escaped? <==> TooLargeIn(FlushNumber(input))
    ensures match LineOptions(input)
      case NoOption => armed == Some(0) && r == Replied("OK\r\n")
      case One(number) =>
        if number == "noreply" then armed == Some(0) && r == Replied("") else
        (match Stoul(number)
         case Invalid => armed == None && r == Replied("CLIENT_ERROR invalid expiry time\r\n")
         case TooLarge => armed == None && r == Escaped
         case Number(n) => armed == Some(n) && r == Replied("OK\r\n"))
      case Two(number, second) =>
        (match Stoul(number)
         case Invalid => armed == None && r == Replied("CLIENT_ERROR invalid expiry time\r\n")
         case TooLarge => armed == None && r == Escaped
         case Number(n) =>
           if second == "noreply" then armed == Some(n) && r == Replied("")
           else armed == None && r == Replied("CLIENT_ERROR invalid noreply field\r\n"))
  {
    hide FindChar, FindCrlf, Sub, Stoul;
    armed := None;
    var nextSpace, nextEndl := FindChar(input, ' ', 0), FindCrlf(input, 0);
    if nextSpace == NPOS || nextSpace > nextEndl {
      return Replied("OK\r\n"), Some(0);
    }
    nextSpace := nextSpace + 1;
    var tempSpace := FindChar(input, ' ', nextSpace);
    if tempSpace == NPOS || tempSpace > nextEndl {
      var expTimeStr := Sub(input, nextSpace, nextEndl);
      if expTimeStr == "noreply" {
        return Replied(""), Some(0);
      }
      match Stoul(expTimeStr) {
        case Invalid => return Replied(BAD_EXPIRY), None;
        case TooLarge => return Escaped, None;
        case Number(n) => return Replied("OK\r\n"), Some(n);
      }
    }
    var expTimeStr := Sub(input, nextSpace, tempSpace);
    nextSpace := tempSpace + 1;
    match Stoul(expTimeStr) {
      case Invalid => return Replied(BAD_EXPIRY), None;
      case TooLarge => return Escaped, None;
      case Number(n) =>
        if Sub(input, nextSpace, nextEndl) != "noreply" {
          return Replied(BAD_NOREPLY), None;
        }
        return Replied(""), Some(n);
    }
  }

  /** cmdProcessVerbosity. */
  method ProcessVerbosity(input: string) returns (r: Handled)
    requires |input| < NPOS
    ensures r.Escaped? <==> TooLargeIn(VerbosityNumber(input))
    ensures match VerbosityNumber(input)
      case None => r == Replied("CLIENT_ERROR exp time not found\r\n")
      case Some(number) =>
        match Stoul(number)
        case Invalid => r == Replied("CLIENT_ERROR invalid expiry time\r\n")
        case TooLarge => r == Escaped
        case Number(_) =>
          r == Replied(if LineOptions(input).Two? && LineOptions(input).second == "noreply" then "" else "OK\r\n")
  {
    hide FindChar, FindCrlf, Sub, Stoul;
    var nextSpace, nextEndl := FindChar(input, ' ', 0), FindCrlf(input, 0);
    var noreply := true;
    if nextSpace == NPOS || nextSpace > nextEndl {
      return Replied("CLIENT_ERROR exp time not found\r\n");
    }
    nextSpace := nextSpace + 1;
    var tempSpace := FindChar(input, ' ', nextSpace);
    if tempSpace == NPOS || tempSpace > nextEndl {
      noreply := false;
      tempSpace := nextEndl;
    }
    var verbStr := Sub(input, nextSpace, tempSpace);
    nextSpace := (tempSpace + 1) % TWO32;
    match Stoul(verbStr) {
      case Invalid => return Replied(BAD_EXPIRY);
      case TooLarge => return Escaped;
      case Number(_) =>
    }
    if noreply && Sub(input, nextSpace, nextEndl) != "noreply" {
      noreply := false;
    }
    return Replied(if noreply then "" else "OK\r\n");
  }

  // ---------- exactly when, on the lines clients send ----------

  function NumberLine(word: string, number: string): string {
    word + (" " + (number + "\r\n"))
  }

  function KeyLine(word: string, key: string, number: string): string {
    word + (" " + (key + (" " + (number + "\r\n"))))
  }

  lemma BareLineOptions(word: string)
    requires Token(word) && |word| + 2 < NPOS
    ensures LineOptions(word + "\r\n") == NoOption
  {
    hide CrlfFree;
    var s := word + "\r\n";
    assert s == word + ("\r\n" + "");
    LineEnd(word, "", 0);
    assert forall i :: 0 <= i < |s| ==> s[i] != ' ';
  }

  lemma NumberLineFields(word: string, number: string)
    requires Token(word) && Token(number) && |NumberLine(word, number)| < NPOS
    ensures LineOptions(NumberLine(word, number)) == One(number)
  {
    hide FindChar, FindCrlf, Sub, Free, CrlfFree, Suffix;
    var s, line := NumberLine(word, number), word + (" " + number);
    CrlfFreeSpace(word, number);
    assert s == line + ("\r\n" + "");
    LineEnd(line, "", 0);
    WholeSuffix(s);
    PeelToken(s, 0, word, number + "\r\n");
    SuffixBound(s, |word| + 1, number + "\r\n");
    LastToken(s, |word| + 1, number);
  }

  /** The same line shape as a key line, read as two options. */
  lemma TwoOptions(word: string, first: string, second: string)
    requires Token(word) && Token(first) && Token(second) && |KeyLine(word, first, second)| < NPOS
    ensures LineOptions(KeyLine(word, first, second)) == Two(first, second)
  {
    hide FindChar, FindCrlf, Sub, Free, CrlfFree, Suffix;
    var s, line := KeyLine(word, first, second), word + (" " + (first + (" " + second)));
    CrlfFreeSpace(first, second);
    CrlfFreeSpace(word, first + (" " + second));
    assert s == line + ("\r\n" + "");
    LineEnd(line, "", 0);
    WholeSuffix(s);
    PeelToken(s, 0, word, first + (" " + (second + "\r\n")));
    var at := |word| + 1;
    SuffixBound(s, at, first + (" " + (second + "\r\n")));
    PeelToken(s, at, first, second + "\r\n");
    SuffixBound(s, at + |first| + 1, second + "\r\n");
    LastToken(s, at + |first| + 1, second);
  }

  lemma KeyLineFields(word: string, key: string, number: string)
    requires Token(word) && Token(key) && Token(number) && |KeyLine(word, key, number)| < NPOS
    ensures KeyAndNumber(KeyLine(word, key, number)) == Some(Fields(key, number, false))
  {
    hide FindChar, FindCrlf, Sub, Free, CrlfFree, Suffix;
    var s, line := KeyLine(word, key, number), word + (" " + (key + (" " + number)));
    CrlfFreeSpace(key, number);
    CrlfFreeSpace(word, key + (" " + number));
    assert s == line + ("\r\n" + "");
    LineEnd(line, "", 0);
    WholeSuffix(s);
    PeelToken(s, 0, word, key + (" " + (number + "\r\n")));
    var at := |word| + 1;
    SuffixBound(s, at, key + (" " + (number + "\r\n")));
    PeelToken(s, at, key, number + "\r\n");
    SuffixBound(s, at + |key| + 1, number + "\r\n");
    LastToken(s, at + |key| + 1, number);
  }

  /** With a word behind the number: noreply is read as such, anything else is not. */
  lemma KeyLineNoreply(word: string, key: string, number: string, last: string)
    requires Token(word) && Token(key) && Token(number) && Token(last)
    requires |KeyLine(word, key, number + (" " + last))| < NPOS
    ensures KeyAndNumber(KeyLine(word, key, number + (" " + last))) == Some(Fields(key, number, last == "noreply"))
  {
    hide FindChar, FindCrlf, Sub, Free, CrlfFree, Suffix, FieldEnd, SaysNoreply;
    var tail := number + (" " + last);
    CrlfFreeSpace(number, last);
    KeyFound(word, key, tail);
    var s, n := KeyLine(word, key, tail), |word| + 1 + |key| + 1;
    assert tail + "\r\n" == number + (" " + (last + "\r\n"));
    TailFound(s, n, number, last);
  }

  /** The searches for word and key on a line, and what is left of it. */
  lemma KeyFound(word: string, key: string, tail: string)
    requires Token(word) && Token(key) && CrlfFree(tail) && |KeyLine(word, key, tail)| < NPOS
    ensures var s, at, n := KeyLine(word, key, tail), |word| + 1, |word| + 1 + |key| + 1;
      && FindCrlf(s, 0) == |s| - 2 && FindChar(s, ' ', 0) == at - 1 && at <= |s|
      && FindChar(s, ' ', at) == n - 1 && Sub(s, at, n - 1) == key && n <= |s| - 2 && Suffix(s, n, tail + "\r\n")
  {
    hide FindChar, FindCrlf, Sub, Free, CrlfFree, Suffix;
    var s, line := KeyLine(word, key, tail), word + (" " + (key + (" " + tail)));
    CrlfFreeSpace(key, tail);
    CrlfFreeSpace(word, key + (" " + tail));
    assert s == line + ("\r\n" + "");
    LineEnd(line, "", 0);
    WholeSuffix(s);
    PeelToken(s, 0, word, key + (" " + (tail + "\r\n")));
    var at := |word| + 1;
    SuffixBound(s, at, key + (" " + (tail + "\r\n")));
    PeelToken(s, at, key, tail + "\r\n");
    SuffixBound(s, at + |key| + 1, tail + "\r\n");
  }

  lemma TailFound(s: string, n: nat, number: string, last: string)
    requires |s| < NPOS && Suffix(s, n, number + (" " + (last + "\r\n"))) && Token(number) && Token(last)
    ensures n + |number| + 1 <= |s| - 2 && FieldEnd(s, n, |s| - 2) == (n + |number|, true)
    ensures Sub(s, n, n + |number|) == number && (SaysNoreply(s, n + |number| + 1, |s| - 2) <==> last == "noreply")
  {
    hide FindChar, Sub, Free, CrlfFree, Suffix;
    SuffixBound(s, n, number + (" " + (last + "\r\n")));
    PeelToken(s, n, number, last + "\r\n");
    SuffixBound(s, n + |number| + 1, last + "\r\n");
    LastToken(s, n + |number| + 1, last);
  }

  /** touch ends the server if and only if its expiry is a number of more than 32 bits. */
  lemma TouchEscapesIff(key: string, number: string, stored: string -> Option<string>)
    requires Token(key) && Token(number) && |KeyLine("touch", key, number)| < NPOS
    ensures Escapes("touch", KeyLine("touch", key, number), stored) <==> Stoul(number) == TooLarge
  {
    hide KeyAndNumber, Stoul, KeyLine;
    KeyLineFields("touch", key, number);
  }

  /** flush_all and verbosity likewise. */
  lemma FlushEscapesIff(word: string, number: string, stored: string -> Option<string>)
    requires word == "flush_all" || word == "verbosity"
    requires Token(number) && number != "noreply" && |NumberLine(word, number)| < NPOS
    ensures Escapes(word, NumberLine(word, number), stored) <==> Stoul(number) == TooLarge
  {
    hide LineOptions, Stoul, NumberLine, Free, CrlfFree;
    assert Token(word) by { FlushWords(word); }
    NumberLineFields(word, number);
  }

  lemma FlushWords(word: string)
    requires word == "flush_all" || word == "verbosity"
    ensures Token(word)
  {
  }

  /** incr and decr do so if and only if the key is live and the amount or the stored value is no 32-bit number. */
  lemma ArithmeticEscapesIff(word: string, key: string, number: string, stored: string -> Option<string>)
    requires word == "incr" || word == "decr"
    requires Token(key) && Token(number) && |KeyLine(word, key, number)| < NPOS
    ensures Escapes(word, KeyLine(word, key, number), stored) <==>
      stored(key).Some? && !(Stoul(number).Number? && Stoul(stored(key).value).Number?)
  {
    hide KeyAndNumber, Stoul, KeyLine, Free, CrlfFree;
    assert Token(word) by { ArithmeticWords(word); }
    KeyLineFields(word, key, number);
  }

  lemma ArithmeticWords(word: string)
    requires word == "incr" || word == "decr"
    ensures Token(word)
  {
  }

  /** Printed numbers: exactly those of more than 32 bits end the server. */
  lemma PrintedNumberEscapesIff(key: string, n: nat, stored: string -> Option<string>)
    requires Token(key) && |KeyLine("touch", key, Dec(n))| < NPOS && |NumberLine("flush_all", Dec(n))| < NPOS
    ensures Escapes("touch", KeyLine("touch", key, Dec(n)), stored) <==> n >= TWO32
    ensures Escapes("flush_all", NumberLine("flush_all", Dec(n)), stored) <==> n >= TWO32
    ensures Escapes("verbosity", NumberLine("verbosity", Dec(n)), stored) <==> n >= TWO32
  {
    DecTokens(n);
    StoulDecIff(n);
    assert Dec(n) != "noreply" by { assert IsDigit(Dec(n)[0]) && !IsDigit("noreply"[0]); }
    hide Escapes, Dec, Stoul;
    TouchEscapesIff(key, Dec(n), stored);
    FlushEscapesIff("flush_all", Dec(n), stored);
    FlushEscapesIff("verbosity", Dec(n), stored);
  }

  /** After a set of "a" under k, incr k 1 ends the server; so do these lines whatever is stored. */
  lemma EscapingLines(stored: string -> Option<string>)
    requires stored("k") == Some("a")
    ensures Escapes("incr", KeyLine("incr", "k", "1"), stored)
    ensures Escapes("touch", KeyLine("touch", "k", Dec(99999999999)), stored)
    ensures Escapes("flush_all", NumberLine("flush_all", Dec(99999999999)), stored)
    ensures Escapes("verbosity", NumberLine("verbosity", Dec(99999999999)), stored)
  {
    hide Escapes, Dec, Stoul, Free, CrlfFree;
    DecLength();
    assert Token("k") && Token("1") by { ShortTokens(); }
    assert Stoul("a") == Invalid by { NotANumber(); }
    ArithmeticEscapesIff("incr", "k", "1", stored);
    PrintedNumberEscapesIff("k", 99999999999, stored);
  }

  lemma ShortTokens()
    ensures Token("k") && Token("1")
  {
  }

  lemma NotANumber()
    ensures Stoul("a") == Invalid
  {
  }

  lemma DecLength()
    ensures |Dec(99999999999)| <= 11
  {
  }
}
