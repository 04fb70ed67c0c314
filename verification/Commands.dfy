/** Parsing of storage commands, and what a storage command printed by the protocol's rules parses to. */
module Commands {
  import opened Wrappers
  import opened Text
  import L = LineCommands

  const EXPIRY_THRESHOLD: nat := 60 * 60 * 24 * 30

  datatype Storage = Storage(key: string, flags: string, expTime: nat, bytes: nat, cas: string, noreply: bool,
                             data: string)

  /** more is the result of the parser: how many bytes to read, zero when the command is complete. */
  datatype Parsed = Error(reply: string) | Throws | Parsed(store: Storage, more: int)

  /** An unsigned int returned as int. */
  function ToInt(x: nat): int {
    var u := x % 0x1_0000_0000;
    if u < 0x8000_0000 then u else u - 0x1_0000_0000
  }

  // ---------- cmdProcessCommon, src/scmd.cpp:22-172 ----------

  /** From the end of the line on: the data block, or how much of it is missing. */
  function Finish(input: string, endl: nat, store: Storage): Parsed
    requires |input| < NPOS && (endl == NPOS || endl + 2 <= |input|)
  {
    if endl == NPOS then Parsed(store, if store.bytes != 0 then ToInt(store.bytes + 2) else 0)
    else if store.bytes == 0 then Parsed(store, 0)
    else
      var data := Sub(input, endl + 2, endl + 2 + store.bytes);
      var store' := store.(data := data);
      if |data| < store.bytes then Parsed(store', ToInt(store.bytes + 2 - |data|)) else Parsed(store', 0)
  }

  /** The bytes field and what follows it on the line, from position b0. */
  function ParseBytes(input: string, isCas: bool, endl: nat, b0: nat, store: Storage): Parsed
    requires |input| < NPOS && (endl == NPOS || endl + 2 <= |input|)
  {
    if b0 > |input| then Throws
    else
      var b1 := FindChar(input, ' ', b0);
      var bytesStr := Sub(input, b0, b1);
      if isCas && b1 != NPOS then
        if b1 > endl then Error("CLIENT_ERROR cas string not found\r\n")
        else
          var c0 := b1 + 1;
          var c1 := FindChar(input, ' ', c0);
          ParseTail(input, isCas, endl, c0, c1, bytesStr, store.(cas := Sub(input, c0, c1)))
      else ParseTail(input, isCas, endl, b0, b1, bytesStr, store)
  }

  /** nextSpace starts the last field read, tempSpace is the space after it: is there a noreply? */
  function ParseTail(input: string, isCas: bool, endl: nat, nextSpace: nat, tempSpace: nat, bytesStr: string,
                     store: Storage): Parsed
    requires |input| < NPOS && (endl == NPOS || endl + 2 <= |input|) && nextSpace <= |input|
  {
    if tempSpace > endl then
      var field := Sub(input, nextSpace, FindCrlf(input, nextSpace));
      if isCas then ParseCount(input, endl, bytesStr, store.(cas := field, noreply := false))
      else ParseCount(input, endl, field, store.(noreply := false))
    else
      var n0 := (tempSpace + 1) % 0x1_0000_0000;
      if n0 == endl then ParseCount(input, endl, bytesStr, store.(noreply := false))
      else if n0 > |input| then Throws
      else
        var word := Sub(input, n0, FindCrlf(input, n0));
        if word != "noreply" && word != "noreply " then
          Error("CLIENT_ERROR junk found instead of \"noreply\"\r\n")
        else ParseCount(input, endl, bytesStr, store.(noreply := true))
  }

  function ParseCount(input: string, endl: nat, bytesStr: string, store: Storage): Parsed
    requires |input| < NPOS && (endl == NPOS || endl + 2 <= |input|)
  {
    match Stoul(bytesStr)
    case Invalid => Error("CLIENT_ERROR invalid number of bytes\r\n")
    case TooLarge => Throws
    case Number(n) => Finish(input, endl, store.(bytes := n))
  }

  function Expiry(n: nat, now: nat): nat {
    if n > EXPIRY_THRESHOLD then (n - now) % 0x1_0000_0000 else n
  }

  /** short says that flags and exptime are not expected; the cursor then starts one character into the field. */
  function Common(input: string, isCas: bool, short: bool, now: nat): Parsed
    requires |input| < NPOS
  {
    var endl := FindCrlf(input, 0);
    var sp := FindChar(input, ' ', 0);
    if sp == NPOS || sp > endl then Error("CLIENT_ERROR key not found\r\n")
    else
      var k1 := FindChar(input, ' ', sp + 1);
      var store := Storage(Sub(input, sp + 1, k1), "", 0, 0, "", false, "");
      if k1 == NPOS || k1 > endl then Error("CLIENT_ERROR flags not found\r\n")
      else if short then ParseBytes(input, isCas, endl, k1 + 2, store)
      else
        var f1 := FindChar(input, ' ', k1 + 1);
        if f1 == NPOS || f1 > endl then Error("CLIENT_ERROR expiry time not found\r\n")
        else
          var e1 := FindChar(input, ' ', f1 + 1);
          match Stoul(Sub(input, f1 + 1, e1))
          case Invalid => Error("CLIENT_ERROR invalid expiry time\r\n")
          case TooLarge => Throws
          case Number(n) =>
            if e1 == NPOS || e1 > endl then Error("CLIENT_ERROR bytes not found\r\n")
            else ParseBytes(input, isCas, endl, e1 + 1,
                            store.(flags := Sub(input, k1 + 1, f1), expTime := Expiry(n, now)))
  }

  /** cmdProcessCommon with its two cursors; isExistData is the source's name for the short form. */
  method ProcessCommon(input: string, isCas: bool, isExistData: bool, now: nat) returns (r: Parsed)
    requires |input| < NPOS
    ensures r == Common(input, isCas, isExistData, now)
  {
    hide FindChar, FindCrlf, Sub, Stoul, Expiry, ParseBytes;
    var nextSpace, nextEndl := FindChar(input, ' ', 0), FindCrlf(input, 0);
    if nextSpace == NPOS || nextSpace > nextEndl {
      return Error("CLIENT_ERROR key not found\r\n");
    }
    nextSpace := nextSpace + 1;
    var tempSpace := FindChar(input, ' ', nextSpace);
    var store := Storage(Sub(input, nextSpace, tempSpace), "", 0, 0, "", false, "");
    nextSpace := tempSpace;
    if nextSpace == NPOS || nextSpace > nextEndl {
      return Error("CLIENT_ERROR flags not found\r\n");
    }
    nextSpace := nextSpace + 1;
    if !isExistData {
      tempSpace := FindChar(input, ' ', nextSpace);
      store := store.(flags := Sub(input, nextSpace, tempSpace));
      nextSpace := tempSpace;
      if nextSpace == NPOS || nextSpace > nextEndl {
        return Error("CLIENT_ERROR expiry time not found\r\n");
      }
      nextSpace := nextSpace + 1;
      tempSpace := FindChar(input, ' ', nextSpace);
      match Stoul(Sub(input, nextSpace, tempSpace)) {
        case Invalid => return Error("CLIENT_ERROR invalid expiry time\r\n");
        case TooLarge => return Throws;
        case Number(n) => store := store.(expTime := Expiry(n, now));
      }
      nextSpace := tempSpace;
      if nextSpace == NPOS || nextSpace > nextEndl {
        return Error("CLIENT_ERROR bytes not found\r\n");
      }
    }
    nextSpace := nextSpace + 1;
    r := ProcessBytes(input, isCas, nextEndl, nextSpace, store);
  }

  /** The second half of cmdProcessCommon, from the bytes field at nextSpace on. */
  method ProcessBytes(input: string, isCas: bool, nextEndl: nat, start: nat, fields: Storage) returns (r: Parsed)
    requires |input| < NPOS && (nextEndl == NPOS || nextEndl + 2 <= |input|)
    ensures r == ParseBytes(input, isCas, nextEndl, start, fields)
  {
    hide FindChar, Sub, ParseTail;
    var nextSpace, store := start, fields;
    if nextSpace > |input| {
      return Throws;
    }
    var tempSpace := FindChar(input, ' ', nextSpace);
    var bytesStr := Sub(input, nextSpace, tempSpace);
    if isCas && tempSpace != NPOS {
      nextSpace := tempSpace;
      if nextSpace > nextEndl {
        return Error("CLIENT_ERROR cas string not found\r\n");
      }
      nextSpace := nextSpace + 1;
      tempSpace := FindChar(input, ' ', nextSpace);
      store := store.(cas := Sub(input, nextSpace, tempSpace));
    }
    r := ProcessTail(input, isCas, nextEndl, nextSpace, tempSpace, bytesStr, store);
  }

  /**
   * The middle of cmdProcessCommon: whether a noreply follows the last field, which starts at last and ends at
   * stop.
   */
  method ProcessTail(input: string, isCas: bool, nextEndl: nat, last: nat, stop: nat, bytes: string, fields: Storage)
    returns (r: Parsed)
    requires |input| < NPOS && (nextEndl == NPOS || nextEndl + 2 <= |input|) && last <= |input|
    ensures r == ParseTail(input, isCas, nextEndl, last, stop, bytes, fields)
  {
    hide FindCrlf, Sub, ParseCount;
    var nextSpace, tempSpace, bytesStr, store := last, stop, bytes, fields;
    if tempSpace > nextEndl {
      tempSpace := FindCrlf(input, nextSpace);
      if isCas {
        store := store.(cas := Sub(input, nextSpace, tempSpace));
      } else {
        bytesStr := Sub(input, nextSpace, tempSpace);
      }
      store := store.(noreply := false);
    } else {
      nextSpace := (tempSpace + 1) % 0x1_0000_0000;
      if nextSpace == nextEndl {
        store := store.(noreply := false);
      } else if nextSpace > |input| {
        return Throws;
      } else {
        tempSpace := FindCrlf(input, nextSpace);
        var noReplyStr := Sub(input, nextSpace, tempSpace);
        if noReplyStr != "noreply" && noReplyStr != "noreply " {
          return Error("CLIENT_ERROR junk found instead of \"noreply\"\r\n");
        }
        store := store.(noreply := true);
      }
    }
    r := ProcessData(input, nextEndl, bytesStr, store);
  }

  /** The end of cmdProcessCommon: the byte count and the data block. */
  method ProcessData(input: string, nextEndl: nat, bytesStr: string, fields: Storage) returns (r: Parsed)
    requires |input| < NPOS && (nextEndl == NPOS || nextEndl + 2 <= |input|)
    ensures r == ParseCount(input, nextEndl, bytesStr, fields)
  {
    hide Sub, Stoul, ToInt;
    var store := fields;
    match Stoul(bytesStr) {
      case Invalid => return Error("CLIENT_ERROR invalid number of bytes\r\n");
      case TooLarge => return Throws;
      case Number(n) => store := store.(bytes := n);
    }
    if nextEndl == NPOS && store.bytes != 0 {
      return Parsed(store, ToInt(store.bytes + 2));
    }
    if store.bytes == 0 {
      return Parsed(store, 0);
    }
    store := store.(data := Sub(input, nextEndl + 2, nextEndl + 2 + store.bytes));
    if |store.data| < store.bytes {
      return Parsed(store, ToInt(store.bytes + 2 - |store.data|));
    }
    return Parsed(store, 0);
  }

  /** The parse a command word asks for: append and prepend try the short form first, then the full one. */
  function ParseStorage(word: string, input: string, now: nat): Parsed
    requires |input| < NPOS
  {
    if word == "append" || word == "prepend" then
      var first := Common(input, false, true, now);
      if first.Error? then Common(input, false, false, now) else first
    else Common(input, word == "cas", false, now)
  }

  const STORAGE_WORDS: seq<string> := ["set", "add", "replace", "append", "prepend", "cas"]

  function CommandWord(input: string): string
    requires |input| < NPOS
  {
    var sp := FindChar(input, ' ', 0);
    Sub(input, 0, if sp == NPOS then FindCrlf(input, 0) else sp)
  }

  /** Stands for an exception that leaves cmdProcessCommand: nothing on the way to the thread's start catches it. */
  const ESCAPED: int := -2

  /** What cmdProcessCommand returns to the receive loop; stored gives the value a live key holds. */
  function Ask(input: string, now: nat, stored: string -> Option<string>): int
    requires |input| < NPOS
  {
    var word := CommandWord(input);
    if word in STORAGE_WORDS then
      match ParseStorage(word, input, now)
      case Parsed(_, more) => if more > 0 then more else 0
      case Error(_) => 0
      case Throws => ESCAPED
    else if L.Escapes(word, input, stored) then ESCAPED
    else if word == "quit" && |input| <= 6 then -1
    else 0
  }

  // ---------- the protocol's storage command ----------

  /** A storage request; cas is printed for the cas command only. */
  datatype Request = Request(word: string, key: string, flags: string, expTime: nat, cas: string, noreply: bool,
                             data: string)

  /** Fields that print as fields. */
  predicate Spelled(r: Request) {
    r.word in STORAGE_WORDS && Token(r.key) && Token(r.flags) && Token(r.cas)
  }

  predicate Printable(r: Request) {
    && Spelled(r)
    && r.expTime < 0x1_0000_0000 && r.data != ""
    && |Print(r)| < 0x8000_0000
  }

  function Options(r: Request): string {
    (if r.word == "cas" then " " + r.cas else "") + (if r.noreply then " noreply" else "")
  }

  function Line(r: Request): string {
    r.word + (" " + (r.key + (" " + (r.flags + (" " + (Dec(r.expTime) + (" " + (Dec(|r.data|) + Options(r)))))))))
  }

  /** The line, its CRLF, and so much of the data block as has arrived. */
  function Received(r: Request, block: string): string {
    Line(r) + ("\r\n" + block)
  }

  function Print(r: Request): string {
    Received(r, r.data + "\r\n")
  }

  lemma OptionsCrlfFree(r: Request, n: nat)
    requires Token(r.cas)
    ensures CrlfFree(Dec(n) + Options(r))
  {
    DecTokens(n);
    var bytes := Dec(n);
    assert CrlfFree("noreply");
    CrlfFreeSpace(bytes, r.cas);
    CrlfFreeSpace(bytes + (" " + r.cas), "noreply");
    CrlfFreeSpace(bytes, "noreply");
    if r.word == "cas" {
      if r.noreply {
        assert bytes + Options(r) == (bytes + (" " + r.cas)) + (" " + "noreply");
      } else {
        assert bytes + Options(r) == bytes + (" " + r.cas);
      }
    } else if r.noreply {
      assert bytes + Options(r) == bytes + (" " + "noreply");
    } else {
      assert bytes + Options(r) == bytes;
    }
  }

  lemma LineCrlfFree(r: Request)
    requires Spelled(r)
    ensures CrlfFree(Line(r))
  {
    hide CrlfFree, Options, Dec, Free, Print;
    OptionsCrlfFree(r, |r.data|);
    DecTokens(r.expTime);
    var t1 := Dec(|r.data|) + Options(r);
    var t2 := Dec(r.expTime) + (" " + t1);
    var t3 := r.flags + (" " + t2);
    var t4 := r.key + (" " + t3);
    CrlfFreeSpace(Dec(r.expTime), t1);
    CrlfFreeSpace(r.flags, t2);
    CrlfFreeSpace(r.key, t3);
    WordTokens(r.word);
    CrlfFreeSpace(r.word, t4);
  }

  lemma WordTokens(word: string)
    requires word in STORAGE_WORDS
    ensures Free(word, ' ') && CrlfFree(word)
  {
  }

  // ---------- where the fields of a received command are ----------

  lemma AppendNested(a: string, b: string, t: string)
    ensures (a + (" " + b)) + t == a + (" " + (b + t))
  {
  }

  /** The line from the bytes field on, with what has arrived of the data block. */
  function FromBytes(r: Request, block: string): string {
    Dec(|r.data|) + (Options(r) + ("\r\n" + block))
  }

  function FromExpTime(r: Request, block: string): string {
    Dec(r.expTime) + (" " + FromBytes(r, block))
  }

  function FromFlags(r: Request, block: string): string {
    r.flags + (" " + FromExpTime(r, block))
  }

  function FromKey(r: Request, block: string): string {
    r.key + (" " + FromFlags(r, block))
  }

  lemma ReceivedNested(r: Request, block: string)
    ensures Received(r, block) == r.word + (" " + FromKey(r, block))
  {
    hide Dec, Options;
    var t := "\r\n" + block;
    var l1 := Dec(|r.data|) + Options(r);
    var l2 := Dec(r.expTime) + (" " + l1);
    var l3 := r.flags + (" " + l2);
    var l4 := r.key + (" " + l3);
    assert l1 + t == FromBytes(r, block);
    AppendNested(Dec(r.expTime), l1, t);
    AppendNested(r.flags, l2, t);
    AppendNested(r.key, l3, t);
    AppendNested(r.word, l4, t);
  }

  // Positions of the fields.

  function KeyAt(r: Request): nat {
    |r.word| + 1
  }

  function FlagsAt(r: Request): nat {
    KeyAt(r) + |r.key| + 1
  }

  function ExpTimeAt(r: Request): nat {
    FlagsAt(r) + |r.flags| + 1
  }

  function BytesAt(r: Request): nat {
    ExpTimeAt(r) + |Dec(r.expTime)| + 1
  }

  lemma Positions(r: Request)
    ensures BytesAt(r) + |Dec(|r.data|)| + |Options(r)| == |Line(r)|
  {
  }

  /** What the searches for word and key find. */
  lemma KeyFound(r: Request, block: string)
    requires Spelled(r) && |Received(r, block)| < NPOS
    ensures var s := Received(r, block);
      && FindChar(s, ' ', 0) == |r.word| && Sub(s, 0, |r.word|) == r.word && KeyAt(r) <= |s|
      && FindChar(s, ' ', KeyAt(r)) == FlagsAt(r) - 1 && Sub(s, KeyAt(r), FlagsAt(r) - 1) == r.key
      && Suffix(s, FlagsAt(r), FromFlags(r, block))
  {
    hide FindChar, Sub, Dec, Received, FromFlags, CrlfFree, Print, Suffix;
    var s := Received(r, block);
    ReceivedNested(r, block);
    WordTokens(r.word);
    assert Suffix(s, 0, s) by { WholeSuffix(s); }
    PeelToken(s, 0, r.word, FromKey(r, block));
    SuffixBound(s, KeyAt(r), FromKey(r, block));
    PeelToken(s, KeyAt(r), r.key, FromFlags(r, block));
  }

  /** What the searches for flags and exptime find. */
  lemma ExpTimeFound(r: Request, block: string)
    requires Spelled(r) && |Received(r, block)| < NPOS
    ensures var s := Received(r, block);
      && ExpTimeAt(r) <= |s| && Suffix(s, ExpTimeAt(r), FromExpTime(r, block)) && FlagsAt(r) <= |s|
      && FindChar(s, ' ', FlagsAt(r)) == ExpTimeAt(r) - 1 && Sub(s, FlagsAt(r), ExpTimeAt(r) - 1) == r.flags
      && FindChar(s, ' ', ExpTimeAt(r)) == BytesAt(r) - 1 && Sub(s, ExpTimeAt(r), BytesAt(r) - 1) == Dec(r.expTime)
      && Suffix(s, BytesAt(r), FromBytes(r, block))
  {
    hide FindChar, Sub, Dec, Received, FromBytes, CrlfFree, Print, Suffix;
    var s := Received(r, block);
    KeyFound(r, block);
    SuffixBound(s, FlagsAt(r), FromFlags(r, block));
    PeelToken(s, FlagsAt(r), r.flags, FromExpTime(r, block));
    SuffixBound(s, ExpTimeAt(r), FromExpTime(r, block));
    DecTokens(r.expTime);
    PeelToken(s, ExpTimeAt(r), Dec(r.expTime), FromBytes(r, block));
  }

  /** The line of a received command ends where it should, seen from any of its positions. */
  lemma EndlFound(r: Request, block: string, start: nat)
    requires Spelled(r) && |Received(r, block)| < NPOS && start <= |Line(r)|
    ensures FindCrlf(Received(r, block), start) == |Line(r)| && |Line(r)| + 2 <= |Received(r, block)|
    ensures Received(r, block)[|Line(r)|] == '\r' && Received(r, block)[|Line(r)| + 2..] == block
  {
    hide FindCrlf, Line, CrlfFree, Spelled;
    LineCrlfFree(r);
    LineEnd(Line(r), block, start);
  }

  /** A last field on the line: no space is found before the end of the line, and it reads up to there. */
  lemma LastField(s: string, at: nat, field: string, block: string)
    requires |s| < NPOS && Suffix(s, at, field + ("\r\n" + block)) && Free(field, ' ')
    ensures at + |field| + 2 <= |s| && FindChar(s, ' ', at) > at + |field| && Sub(s, at, at + |field|) == field
  {
    hide FindChar, Sub, Free;
    if at + |field| <= |s| {
      SubSlice(s, at, at + |field|);
    }
    Peel(s, at, field, "\r\n" + block);
    Peel(s, at + |field|, "\r\n", block);
    assert s[at + |field|] == s[at + |field|..at + |field| + 2][0];
    TokenRuns(s, at, field, ' ');
  }

  // ---------- parsing a received command ----------

  /** The data so far, and how many bytes of block and CRLF are missing; the expiry kept is life. */
  function Outcome(r: Request, block: string, life: nat): Parsed {
    var n := |r.data|;
    var store := Storage(r.key, r.flags, life, n, if r.word == "cas" then r.cas else "", r.noreply,
                         if |block| < n then block else block[..n]);
    Parsed(store, if |block| < n then n + 2 - |block| else 0)
  }

  /** 30 days is the longest relative expiry; anything above is a time of day and turns into what is left until it. */
  function LifeLeft(r: Request, now: nat): nat {
    if r.expTime <= 2_592_000 then r.expTime else (r.expTime - now) % 0x1_0000_0000
  }

  lemma ExpiryIsLifeLeft(r: Request, now: nat)
    ensures Expiry(r.expTime, now) == LifeLeft(r, now)
  {
  }

  /** A time of day that has passed wraps to a far one: the test that was to refuse it compares an unsigned number. */
  lemma PastExpiryWraps(r: Request, now: nat)
    requires 2_592_000 < r.expTime < now < 0x1_0000_0000
    ensures now + LifeLeft(r, now) == r.expTime + 0x1_0000_0000
  {
  }

  /** The store when the line has been read. */
  function LineStore(r: Request, life: nat, cas: string, noreply: bool): Storage {
    Storage(r.key, r.flags, life, 0, cas, noreply, "")
  }

  lemma DataRead(s: string, at: nat, block: string, n: nat)
    requires |s| < NPOS && Suffix(s, at, block) && at + n < 0x1_0000_0000
    ensures at <= |s| && Sub(s, at, at + n) == if |block| < n then block else block[..n]
  {
    if |block| >= n {
      assert s[at..at + n] == s[at..][..n];
    }
  }

  lemma SmallInt(x: nat)
    requires x < 0x8000_0000
    ensures ToInt(x) == x
  {
  }

  lemma CountParsed(r: Request, block: string, life: nat)
    requires Printable(r) && |Received(r, block)| < 0x8000_0000
    ensures |Line(r)| + 2 <= |Received(r, block)|
    ensures ParseCount(Received(r, block), |Line(r)|, Dec(|r.data|),
                       LineStore(r, life, if r.word == "cas" then r.cas else "", r.noreply))
         == Outcome(r, block, life)
  {
    hide Printable, Dec, Stoul, Line, FindCrlf, Received, Sub, ToInt;
    PrintableLimits(r);
    EndlFound(r, block, 0);
    PrintedLength(r);
    StoulDec(|r.data|);
    if |block| < |r.data| {
      SmallInt(|r.data| + 2 - |block|);
    }
    DataRead(Received(r, block), |Line(r)| + 2, block, |r.data|);
  }

  lemma PrintedLength(r: Request)
    ensures |Print(r)| == |Line(r)| + |r.data| + 4
  {
    hide Line;
  }

  /** The last field is followed by CRLF: no noreply. */
  lemma TailPlain(s: string, isCas: bool, endl: nat, at: nat, field: string, bytesStr: string, store: Storage,
                  block: string)
    requires |s| < NPOS && Suffix(s, at, field + ("\r\n" + block)) && Free(field, ' ')
    requires endl == at + |field| && FindCrlf(s, at) == endl && endl + 2 <= |s|
    ensures at <= |s| && FindChar(s, ' ', at) > endl
    ensures ParseTail(s, isCas, endl, at, FindChar(s, ' ', at), bytesStr, store) ==
      if isCas then ParseCount(s, endl, bytesStr, store.(cas := field, noreply := false))
      else ParseCount(s, endl, field, store.(noreply := false))
  {
    hide FindChar, FindCrlf, Sub, ParseCount, Suffix, Free;
    LastField(s, at, field, block);
  }

  /** The last field is followed by a space and noreply. */
  lemma TailNoreply(s: string, isCas: bool, endl: nat, nextSpace: nat, tempSpace: nat, bytesStr: string,
                    store: Storage, block: string)
    requires |s| < NPOS && Suffix(s, tempSpace + 1, "noreply" + ("\r\n" + block)) && nextSpace <= |s|
    requires endl == tempSpace + 8 && FindCrlf(s, tempSpace + 1) == endl && endl + 2 <= |s|
    ensures ParseTail(s, isCas, endl, nextSpace, tempSpace, bytesStr, store) ==
            ParseCount(s, endl, bytesStr, store.(noreply := true))
  {
    hide FindChar, FindCrlf, Sub, ParseCount, Suffix;
    LastField(s, tempSpace + 1, "noreply", block);
  }

  lemma PlainTail(r: Request, block: string, life: nat)
    requires Printable(r) && |Received(r, block)| < 0x8000_0000 && r.word != "cas"
    ensures |Line(r)| + 2 <= |Received(r, block)|
    ensures ParseBytes(Received(r, block), false, |Line(r)|, BytesAt(r), LineStore(r, life, "", false))
         == Outcome(r, block, life)
  {
    hide Dec, Stoul, Line, FindCrlf, FindChar, Received, ParseCount, ParseTail, Sub, Outcome, Printable, Suffix,
         BytesAt;
    var s, b0, bytes := Received(r, block), BytesAt(r), Dec(|r.data|);
    PrintableLimits(r);
    ExpTimeFound(r, block);
    SuffixBound(s, b0, FromBytes(r, block));
    Positions(r);
    EndlFound(r, block, b0);
    CountParsed(r, block, life);
    DecTokens(|r.data|);
    if r.noreply {
      assert Options(r) + ("\r\n" + block) == " " + ("noreply" + ("\r\n" + block));
      PeelToken(s, b0, bytes, "noreply" + ("\r\n" + block));
      EndlFound(r, block, b0 + |bytes| + 1);
      TailNoreply(s, false, |Line(r)|, b0, b0 + |bytes|, bytes, LineStore(r, life, "", false), block);
    } else {
      assert Options(r) + ("\r\n" + block) == "\r\n" + block;
      TailPlain(s, false, |Line(r)|, b0, bytes, Sub(s, b0, FindChar(s, ' ', b0)), LineStore(r, life, "", false),
                block);
    }
  }

  /** ParseBytes on a cas command moves on to the cas field. */
  lemma CasField(r: Request, block: string, rest: string, life: nat)
    requires Printable(r) && |Received(r, block)| < 0x8000_0000
    requires Options(r) + ("\r\n" + block) == " " + rest
    ensures var s, c0, endl := Received(r, block), BytesAt(r) + |Dec(|r.data|)| + 1, |Line(r)|;
      && endl + 2 <= |s| && c0 <= |s| && Suffix(s, c0, rest)
      && ParseBytes(s, true, endl, BytesAt(r), LineStore(r, life, "", false)) ==
         ParseTail(s, true, endl, c0, FindChar(s, ' ', c0), Dec(|r.data|),
                   LineStore(r, life, Sub(s, c0, FindChar(s, ' ', c0)), false))
  {
    hide Printable, Dec, Line, FindCrlf, FindChar, Received, ParseTail, Sub, Free, CrlfFree, Suffix, BytesAt, Options;
    var s, b0, bytes := Received(r, block), BytesAt(r), Dec(|r.data|);
    PrintableLimits(r);
    ExpTimeFound(r, block);
    SuffixBound(s, b0, FromBytes(r, block));
    Positions(r);
    EndlFound(r, block, b0);
    DecTokens(|r.data|);
    PeelToken(s, b0, bytes, rest);
    SuffixBound(s, b0 + |bytes| + 1, rest);
    OptionsLength(r, block, rest);
  }

  lemma OptionsLength(r: Request, block: string, rest: string)
    requires Options(r) + ("\r\n" + block) == " " + rest
    ensures |Options(r)| >= 1
  {
    hide Options;
    assert (Options(r) + ("\r\n" + block))[0] == (" " + rest)[0];
  }

  lemma CasPlainTail(r: Request, block: string, life: nat)
    requires Printable(r) && |Received(r, block)| < 0x8000_0000 && r.word == "cas" && !r.noreply
    ensures |Line(r)| + 2 <= |Received(r, block)|
    ensures ParseBytes(Received(r, block), true, |Line(r)|, BytesAt(r), LineStore(r, life, "", false))
         == Outcome(r, block, life)
  {
    hide Dec, Line, FindCrlf, FindChar, Received, ParseCount, ParseTail, ParseBytes, Sub, Outcome, Free, CrlfFree,
         Suffix, BytesAt;
    var s, c0, rest := Received(r, block), BytesAt(r) + |Dec(|r.data|)| + 1, r.cas + ("\r\n" + block);
    assert Options(r) + ("\r\n" + block) == " " + rest;
    CasField(r, block, rest, life);
    Positions(r);
    EndlFound(r, block, c0);
    CountParsed(r, block, life);
    TailPlain(s, true, |Line(r)|, c0, r.cas, Dec(|r.data|),
              LineStore(r, life, Sub(s, c0, FindChar(s, ' ', c0)), false), block);
  }

  lemma CasNoreplyTail(r: Request, block: string, life: nat)
    requires Printable(r) && |Received(r, block)| < 0x8000_0000 && r.word == "cas" && r.noreply
    ensures |Line(r)| + 2 <= |Received(r, block)|
    ensures ParseBytes(Received(r, block), true, |Line(r)|, BytesAt(r), LineStore(r, life, "", false))
         == Outcome(r, block, life)
  {
    hide Dec, Line, FindCrlf, FindChar, Received, ParseCount, ParseTail, ParseBytes, Sub, Outcome, Free, CrlfFree,
         Suffix, BytesAt;
    var s, c0, last := Received(r, block), BytesAt(r) + |Dec(|r.data|)| + 1, "noreply" + ("\r\n" + block);
    assert Options(r) + ("\r\n" + block) == " " + (r.cas + (" " + last));
    CasField(r, block, r.cas + (" " + last), life);
    Positions(r);
    PeelToken(s, c0, r.cas, last);
    EndlFound(r, block, c0 + |r.cas| + 1);
    CountParsed(r, block, life);
    TailNoreply(s, true, |Line(r)|, c0, c0 + |r.cas|, Dec(|r.data|), LineStore(r, life, r.cas, false), block);
  }

  lemma PrintableLimits(r: Request)
    requires Printable(r)
    ensures Spelled(r) && r.expTime < 0x1_0000_0000 && r.data != "" && |Print(r)| < 0x8000_0000
  {
  }

  /**
   * The full form parses to the fields printed and the data so far, and asks for exactly the missing bytes. An
   * expiry of at most 30 days is kept; a later one is a time of day, and what is left until then is kept.
   */
  lemma FullFormParsed(r: Request, block: string, now: nat)
    requires Printable(r) && |Received(r, block)| < 0x8000_0000
    ensures Common(Received(r, block), r.word == "cas", false, now) == Outcome(r, block, LifeLeft(r, now))
  {
    hide Dec, Stoul, Line, FindCrlf, FindChar, Received, ParseBytes, Sub, Outcome, Free, CrlfFree, Suffix, BytesAt,
         Printable, Spelled, Expiry, LifeLeft;
    var life := LifeLeft(r, now);
    ExpiryIsLifeLeft(r, now);
    PrintableLimits(r);
    KeyFound(r, block);
    ExpTimeFound(r, block);
    EndlFound(r, block, 0);
    StoulDec(r.expTime);
    Positions(r);
    BytesPositive(r);
    if r.word != "cas" {
      PlainTail(r, block, life);
    } else if r.noreply {
      CasNoreplyTail(r, block, life);
    } else {
      CasPlainTail(r, block, life);
    }
  }

  /** An expiry of more than 32 bits: stoul throws out_of_range, which the parser does not catch. */
  lemma LargeExpTimeThrows(r: Request, block: string, now: nat)
    requires Spelled(r) && r.expTime >= 0x1_0000_0000 && |Received(r, block)| < NPOS
    ensures Common(Received(r, block), r.word == "cas", false, now) == Throws
  {
    hide Dec, Stoul, Line, FindCrlf, FindChar, Received, ParseBytes, Sub, Free, CrlfFree, Suffix, BytesAt, Spelled;
    KeyFound(r, block);
    ExpTimeFound(r, block);
    EndlFound(r, block, 0);
    StoulDecIff(r.expTime);
    Positions(r);
    BytesPositive(r);
  }

  lemma BytesPositive(r: Request)
    ensures |Dec(|r.data|)| >= 1 && BytesAt(r) > ExpTimeAt(r) + 1
  {
  }

  lemma StartsWithDigit(s: string, at: nat, n: nat, rest: string)
    requires Suffix(s, at, Dec(n) + rest)
    ensures at < |s| && IsDigit(s[at])
  {
    assert s[at] == s[at..][0] == (Dec(n) + rest)[0] == Dec(n)[0];
  }

  /** Reading from a digit to the end of the line gives neither spelling of noreply. */
  lemma NotNoreply(s: string, at: nat, stop: nat)
    requires at < stop <= |s| < NPOS && IsDigit(s[at])
    ensures Sub(s, at, stop) != "noreply" && Sub(s, at, stop) != "noreply "
  {
    assert Sub(s, at, stop)[0] == s[at];
    assert "noreply"[0] == "noreply "[0] == 'n';
  }

  /** Where the short form, starting one character into the flags, finds its next space. */
  lemma ShortFormSpace(r: Request, block: string)
    requires Printable(r) && |Received(r, block)| < NPOS
    ensures var s := Received(r, block);
      FindChar(s, ' ', FlagsAt(r) + 1) == if r.flags == "" then BytesAt(r) - 1 else ExpTimeAt(r) - 1
  {
    hide Dec, Line, FindCrlf, Received, Sub, CrlfFree, Suffix, Print;
    var s := Received(r, block);
    KeyFound(r, block);
    ExpTimeFound(r, block);
    SuffixBound(s, FlagsAt(r), FromFlags(r, block));
    if r.flags != "" {
      assert s[FlagsAt(r)] == s[FlagsAt(r)..][0] == r.flags[0] != ' ';
    }
  }

  /** A field followed by a space and a digit is taken for a bytes field with junk after it. */
  lemma DigitAfterField(s: string, endl: nat, b0: nat, store: Storage)
    requires |s| < 0x8000_0000 && endl + 2 <= |s| && b0 <= |s|
    requires FindChar(s, ' ', b0) + 1 < endl && FindCrlf(s, FindChar(s, ' ', b0) + 1) == endl
    requires IsDigit(s[FindChar(s, ' ', b0) + 1])
    ensures ParseBytes(s, false, endl, b0, store).Error?
  {
    hide FindChar, FindCrlf, Sub, ParseCount, IsDigit;
    NotNoreply(s, FindChar(s, ' ', b0) + 1, endl);
  }

  /** On the full form, the first attempt of append and prepend always ends in an error, so the second is taken. */
  lemma ShortFormFails(r: Request, block: string, now: nat)
    requires Printable(r) && |Received(r, block)| < 0x8000_0000
    ensures Common(Received(r, block), false, true, now).Error?
  {
    hide Dec, Line, FindCrlf, FindChar, Received, Sub, Printable, Spelled, Suffix, BytesAt, Options,
         ParseBytes, IsDigit;
    var s := Received(r, block);
    PrintableLimits(r);
    KeyFound(r, block);
    EndlFound(r, block, 0);
    ShortFormSpace(r, block);
    DigitAfterFlags(r, block);
    Positions(r);
    BytesPositive(r);
    EndlFound(r, block, FindChar(s, ' ', FlagsAt(r) + 1) + 1);
    DigitAfterField(s, |Line(r)|, FlagsAt(r) + 1, Storage(Sub(s, KeyAt(r), FlagsAt(r) - 1), "", 0, 0, "", false, ""));
  }

  lemma DigitAfterFlags(r: Request, block: string)
    requires Printable(r) && |Received(r, block)| < NPOS
    ensures var s := Received(r, block);
      ExpTimeAt(r) < BytesAt(r) < |s| && IsDigit(s[ExpTimeAt(r)]) && IsDigit(s[BytesAt(r)])
  {
    hide Dec, Received, Printable, Suffix, IsDigit, Options;
    var s := Received(r, block);
    PrintableLimits(r);
    ExpTimeFound(r, block);
    StartsWithDigit(s, BytesAt(r), |r.data|, Options(r) + ("\r\n" + block));
    StartsWithDigit(s, ExpTimeAt(r), r.expTime, " " + FromBytes(r, block));
  }

  /**
   * Printing any storage command and parsing what has arrived of it recovers every field and the data so far;
   * while the data block is short, the result is the missing bytes and the two of the CRLF.
   */
  lemma PrintedCommandParses(r: Request, block: string, now: nat)
    requires Printable(r) && |Received(r, block)| < 0x8000_0000
    ensures ParseStorage(r.word, Received(r, block), now) == Outcome(r, block, LifeLeft(r, now))
  {
    hide Common, Outcome, Received, Print, Free, CrlfFree;
    FullFormParsed(r, block, now);
    ShortFormFails(r, block, now);
    assert r.word == "append" || r.word == "prepend" ==> r.word != "cas" by {
      assert "append"[0] != 'c' && "prepend"[0] != 'c';
    }
  }

  // ---------- what the receive loop sees ----------

  lemma WordFound(r: Request, block: string)
    requires Spelled(r) && |Received(r, block)| < NPOS
    ensures CommandWord(Received(r, block)) == r.word
  {
    hide FindChar, FindCrlf, Sub, Received, Print, Free, CrlfFree, Suffix;
    KeyFound(r, block);
  }

  lemma AskPrinted(r: Request, block: string, now: nat, stored: string -> Option<string>)
    requires Printable(r) && |Received(r, block)| < 0x8000_0000
    ensures Ask(Received(r, block), now, stored) == if |block| < |r.data| then |r.data| + 2 - |block| else 0
  {
    hide ParseStorage, Received, Print, Free, CrlfFree, CommandWord;
    WordFound(r, block);
    PrintedCommandParses(r, block, now);
  }

  /** So a set, add, replace or cas with such an expiry ends the server. */
  lemma LargeExpTimeEscapes(r: Request, block: string, now: nat, stored: string -> Option<string>)
    requires Spelled(r) && r.expTime >= 0x1_0000_0000 && |Received(r, block)| < NPOS
    requires r.word != "append" && r.word != "prepend"
    ensures Ask(Received(r, block), now, stored) == ESCAPED
  {
    hide Common, Received, Free, CrlfFree, CommandWord;
    WordFound(r, block);
    LargeExpTimeThrows(r, block, now);
  }
}
