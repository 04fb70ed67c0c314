/** get and gets: the list of keys on the line, and the reply a client decodes by its length fields. */
module GetReply {
  import opened Wrappers
  import opened Text

  // ---------- the key loop, src/scmd.cpp:501-526 ----------

  /** The keys from the space at nextSpace on, up to the end of the line. */
  function KeysFrom(input: string, nextSpace: nat, endl: nat): seq<string>
    requires nextSpace < |input| < NPOS
    decreases |input| - nextSpace
  {
    var start := nextSpace + 1;
    var tempSpace := FindChar(input, ' ', start);
    if tempSpace == NPOS || tempSpace > endl then [Sub(input, start, endl)]
    else [Sub(input, start, tempSpace)] + KeysFrom(input, tempSpace, endl)
  }

  datatype Keys = NoKey | Keys(keys: seq<string>)

  function KeysOf(input: string): Keys
    requires |input| < NPOS
  {
    var nextSpace, endl := FindChar(input, ' ', 0), FindCrlf(input, 0);
    if nextSpace == NPOS || nextSpace > endl then NoKey else Keys(KeysFrom(input, nextSpace, endl))
  }

  /** One turn of the key loop on the keys found so far. */
  lemma KeysFromNext(input: string, nextSpace: nat, endl: nat, keys: seq<string>)
    requires nextSpace < |input| < NPOS
    ensures var start, all := nextSpace + 1, keys + KeysFrom(input, nextSpace, endl);
      var tempSpace := FindChar(input, ' ', start);
      if tempSpace == NPOS || tempSpace > endl then all == keys + [Sub(input, start, endl)]
      else all == (keys + [Sub(input, start, tempSpace)]) + KeysFrom(input, tempSpace, endl)
  {
    hide FindChar, Sub;
  }

  method ParseKeys(input: string) returns (r: Keys)
    requires |input| < NPOS
    ensures r == KeysOf(input)
  {
    hide FindChar, FindCrlf, Sub, KeysFrom;
    var nextSpace := FindChar(input, ' ', 0);
    var nextEndl := FindCrlf(input, 0);
    if nextSpace == NPOS || nextSpace > nextEndl {
      return NoKey;
    }
    var keys: seq<string> := [];
    ghost var all := KeysFrom(input, nextSpace, nextEndl);
    while true
      invariant nextSpace < |input|
      invariant keys + KeysFrom(input, nextSpace, nextEndl) == all
      decreases |input| - nextSpace
    {
      KeysFromNext(input, nextSpace, nextEndl, keys);
      nextSpace := nextSpace + 1;
      var tempSpace := FindChar(input, ' ', nextSpace);
      if tempSpace == NPOS || tempSpace > nextEndl {
        break;
      }
      var key := Sub(input, nextSpace, tempSpace);
      keys := keys + [key];
      nextSpace := tempSpace;
    }
    keys := keys + [Sub(input, nextSpace, nextEndl)];
    return Keys(keys);
  }

  predicate Tokens(keys: seq<string>) {
    forall i :: 0 <= i < |keys| ==> Token(keys[i])
  }

  function JoinSpaces(keys: seq<string>): string
    requires keys != []
  {
    if |keys| == 1 then keys[0] else keys[0] + (" " + JoinSpaces(keys[1..]))
  }

  function GetLine(word: string, keys: seq<string>): string
    requires keys != []
  {
    word + (" " + (JoinSpaces(keys) + "\r\n"))
  }

  lemma {:induction false} JoinCrlfFree(keys: seq<string>)
    requires keys != [] && Tokens(keys)
    ensures CrlfFree(JoinSpaces(keys))
  {
    if |keys| > 1 {
      assert Tokens(keys[1..]);
      JoinCrlfFree(keys[1..]);
      CrlfFreeSpace(keys[0], JoinSpaces(keys[1..]));
    }
  }

  lemma {:induction false} KeysFromJoin(input: string, at: nat, keys: seq<string>, endl: nat)
    requires keys != [] && Tokens(keys) && at < |input| < NPOS
    requires Suffix(input, at + 1, JoinSpaces(keys) + "\r\n") && endl == at + 1 + |JoinSpaces(keys)|
    ensures KeysFrom(input, at, endl) == keys
    decreases |keys|
  {
    hide Suffix, FindChar, Sub, Free, CrlfFree;
    SuffixBound(input, at + 1, JoinSpaces(keys) + "\r\n");
    if |keys| == 1 {
      assert keys[0] + "\r\n" == keys[0] + ("\r\n" + "");
      LastToken(input, at + 1, keys[0]);
      assert keys == [keys[0]];
    } else {
      var rest := JoinSpaces(keys[1..]);
      assert (keys[0] + (" " + rest)) + "\r\n" == keys[0] + (" " + (rest + "\r\n"));
      PeelToken(input, at + 1, keys[0], rest + "\r\n");
      assert Tokens(keys[1..]);
      SuffixBound(input, at + 1 + |keys[0]| + 1, rest + "\r\n");
      KeysFromJoin(input, at + 1 + |keys[0]|, keys[1..], endl);
      assert keys == [keys[0]] + keys[1..];
    }
  }

  /** The key loop undoes joining the keys with single spaces. */
  lemma KeysRoundTrip(word: string, keys: seq<string>)
    requires keys != [] && Tokens(keys) && Token(word) && |GetLine(word, keys)| < NPOS
    ensures KeysOf(GetLine(word, keys)) == Keys(keys)
  {
    hide FindChar, FindCrlf, Sub, Free, CrlfFree, Suffix, KeysFrom, JoinSpaces;
    var s, line := GetLine(word, keys), word + (" " + JoinSpaces(keys));
    JoinCrlfFree(keys);
    CrlfFreeSpace(word, JoinSpaces(keys));
    assert s == line + ("\r\n" + "");
    LineEnd(line, "", 0);
    assert Suffix(s, 0, s) by { WholeSuffix(s); }
    PeelToken(s, 0, word, JoinSpaces(keys) + "\r\n");
    KeysFromJoin(s, |word|, keys, |line|);
  }

  // ---------- the reply, src/scmd.cpp:528-548 and 585-607 ----------

  datatype Item = Item(flags: string, cas: string, value: string)

  datatype Hit = Hit(key: string, item: Item)

  /** The keys found, in the order asked for; fetch(i) is what looking up the i-th key gave. */
  function Hits(keys: seq<string>, fetch: nat -> Option<Item>): seq<Hit> {
    if keys == [] then []
    else
      var last := |keys| - 1;
      var before := Hits(keys[..last], fetch);
      if fetch(last).Some? then before + [Hit(keys[last], fetch(last).value)] else before
  }

  /** at lists, in increasing order, exactly the positions at which a lookup found something. */
  ghost predicate FoundAt(at: seq<nat>, n: nat, fetch: nat -> Option<Item>) {
    && (forall j, k :: 0 <= j < k < |at| ==> at[j] < at[k])
    && (forall j :: 0 <= j < |at| ==> at[j] < n && fetch(at[j]).Some?)
    && (forall i: nat :: i < n && fetch(i).Some? ==> i in at)
  }

  lemma {:induction false} HitsFound(keys: seq<string>, fetch: nat -> Option<Item>) returns (at: seq<nat>)
    ensures FoundAt(at, |keys|, fetch) && |Hits(keys, fetch)| == |at|
    ensures forall j :: 0 <= j < |at| ==> at[j] < |keys| && fetch(at[j]).Some?
    ensures forall j :: 0 <= j < |at| ==> Hits(keys, fetch)[j] == Hit(keys[at[j]], fetch(at[j]).value)
  {
    if keys == [] {
      at := [];
    } else {
      var last := |keys| - 1;
      at := HitsFound(keys[..last], fetch);
      if fetch(last).Some? {
        at := at + [last];
      }
    }
  }

  /** One VALUE block; gets adds the cas value to the header. */
  function Block(h: Hit, withCas: bool): string {
    "VALUE " + (h.key + (" " + (h.item.flags + (" " + (Dec(|h.item.value|) +
    ((if withCas then " " + h.item.cas else "") + ("\r\n" + (h.item.value + "\r\n"))))))))
  }

  function Blocks(hits: seq<Hit>, withCas: bool): string {
    if hits == [] then "" else Block(hits[0], withCas) + Blocks(hits[1..], withCas)
  }

  function Reply(hits: seq<Hit>, withCas: bool): string {
    Blocks(hits, withCas) + "END\r\n"
  }

  lemma {:induction false} BlocksSnoc(hits: seq<Hit>, h: Hit, withCas: bool)
    ensures Blocks(hits + [h], withCas) == Blocks(hits, withCas) + Block(h, withCas)
  {
    hide Block;
    if hits == [] {
      assert [h][1..] == [];
      assert Block(h, withCas) + "" == "" + Block(h, withCas);
    } else {
      assert (hits + [h])[1..] == hits[1..] + [h];
      BlocksSnoc(hits[1..], h, withCas);
    }
  }

  // ---------- a client that decodes by length ----------

  /** What precedes the first c, and what follows it. */
  function SplitAt(s: string, c: char): Option<(string, string)> {
    if s == "" then None
    else if s[0] == c then Some(("", s[1..]))
    else match SplitAt(s[1..], c)
      case None => None
      case Some((a, b)) => Some(([s[0]] + a, b))
  }

  function SplitCrlf(s: string): Option<(string, string)> {
    var p := Find(s, 0);
    if p < 0 then None else Some((s[..p], s[p + 2..]))
  }

  lemma {:induction false} SplitToken(tok: string, c: char, rest: string)
    requires Free(tok, c)
    ensures SplitAt(tok + ([c] + rest), c) == Some((tok, rest))
  {
    if tok == "" {
      assert "" + ([c] + rest) == [c] + rest;
    } else {
      assert (tok + ([c] + rest))[1..] == tok[1..] + ([c] + rest);
      SplitToken(tok[1..], c, rest);
      assert [tok[0]] + tok[1..] == tok;
    }
  }

  lemma SplitLine(line: string, rest: string)
    requires CrlfFree(line)
    ensures SplitCrlf(line + ("\r\n" + rest)) == Some((line, rest))
  {
    var s := line + ("\r\n" + rest);
    CrlfBetween(line, rest);
    forall i | 0 <= i < |line|
      ensures !CrlfAt(s, i)
    {
      assert !CrlfAt(line, i);
    }
  }

  /** The value of the length a header announces, and the text after its CRLF. */
  function TakeValue(key: string, flags: string, cas: string, length: string, s: string): Option<(Hit, string)> {
    match Stoul(length)
    case Number(n) =>
      if CrlfAt(s, n) then Some((Hit(key, Item(flags, cas, s[..n])), s[n + 2..])) else None
    case _ => None
  }

  function DecodeBlock(s: string, withCas: bool): Option<(Hit, string)> {
    match SplitAt(s, ' ')
    case None => None
    case Some((key, s1)) =>
      match SplitAt(s1, ' ')
      case None => None
      case Some((flags, s2)) =>
        match SplitCrlf(s2)
        case None => None
        case Some((tail, s3)) =>
          if !withCas then TakeValue(key, flags, "", tail, s3)
          else match SplitAt(tail, ' ')
            case None => None
            case Some((length, cas)) => TakeValue(key, flags, cas, length, s3)
  }

  function Decode(s: string, withCas: bool): Option<seq<Hit>>
    decreases |s|
  {
    if s == "END\r\n" then Some([])
    else if |s| < 6 || s[..6] != "VALUE " then None
    else match DecodeBlock(s[6..], withCas)
      case None => None
      case Some((hit, rest)) =>
        if |rest| >= |s| then None
        else match Decode(rest, withCas)
          case None => None
          case Some(hits) => Some([hit] + hits)
  }

  /** What the client can see of a hit. */
  function Visible(h: Hit, withCas: bool): Hit {
    if withCas then h else h.(item := h.item.(cas := ""))
  }

  function VisibleHits(hits: seq<Hit>, withCas: bool): seq<Hit> {
    if hits == [] then [] else [Visible(hits[0], withCas)] + VisibleHits(hits[1..], withCas)
  }

  predicate WireSafe(h: Hit) {
    Token(h.key) && Token(h.item.flags) && Token(h.item.cas) && |h.item.value| < 0x1_0000_0000
  }

  lemma CrlfBetween(a: string, b: string)
    ensures var s := a + ("\r\n" + b); CrlfAt(s, |a|) && s[..|a|] == a && s[|a| + 2..] == b
  {
  }

  lemma ValueTaken(key: string, flags: string, cas: string, value: string, rest: string)
    requires |value| < 0x1_0000_0000
    ensures TakeValue(key, flags, cas, Dec(|value|), value + ("\r\n" + rest)) ==
            Some((Hit(key, Item(flags, cas, value)), rest))
  {
    hide Stoul, Dec;
    StoulDec(|value|);
    CrlfBetween(value, rest);
  }

  /** The header's last part splits into length and cas. */
  lemma HeaderTail(h: Hit, withCas: bool)
    requires WireSafe(h)
    ensures var tail := Dec(|h.item.value|) + (if withCas then " " + h.item.cas else "");
      CrlfFree(tail) && (withCas ==> SplitAt(tail, ' ') == Some((Dec(|h.item.value|), h.item.cas)))
  {
    hide Dec, Free, CrlfFree, SplitAt;
    DecTokens(|h.item.value|);
    var length := Dec(|h.item.value|);
    if withCas {
      CrlfFreeSpace(length, h.item.cas);
      SplitToken(length, ' ', h.item.cas);
    } else {
      assert length + "" == length;
    }
  }

  lemma BlockDecodes(h: Hit, withCas: bool, rest: string)
    requires WireSafe(h)
    ensures |Block(h, withCas)| >= 6
    ensures var s := Block(h, withCas) + rest;
      |s| >= 6 && s[..6] == "VALUE " && DecodeBlock(s[6..], withCas) == Some((Visible(h, withCas), rest))
  {
    hide Dec, Free, CrlfFree, SplitAt, SplitCrlf, TakeValue;
    var length, cas := Dec(|h.item.value|), if withCas then " " + h.item.cas else "";
    var tail := length + cas;
    var t3 := h.item.value + ("\r\n" + rest);
    var t2 := tail + ("\r\n" + t3);
    var t1 := h.item.flags + (" " + t2);
    var t0 := h.key + (" " + t1);
    assert Block(h, withCas) + rest == "VALUE " + t0;
    assert ("VALUE " + t0)[..6] == "VALUE " && ("VALUE " + t0)[6..] == t0;
    SplitToken(h.key, ' ', t1);
    SplitToken(h.item.flags, ' ', t2);
    HeaderTail(h, withCas);
    SplitLine(tail, t3);
    ValueTaken(h.key, h.item.flags, if withCas then h.item.cas else "", h.item.value, rest);
    assert !withCas ==> tail == length;
  }

  /**
   * Decoding the reply by its length fields gives exactly the hits in request order, whatever bytes the values
   * hold.
   */
  lemma {:induction false} ReplyDecodes(hits: seq<Hit>, withCas: bool)
    requires forall i :: 0 <= i < |hits| ==> WireSafe(hits[i])
    ensures Decode(Reply(hits, withCas), withCas) == Some(VisibleHits(hits, withCas))
  {
    hide Block, DecodeBlock, WireSafe, Visible;
    if hits == [] {
      assert "" + "END\r\n" == "END\r\n";
    } else {
      var rest := Reply(hits[1..], withCas);
      assert Reply(hits, withCas) == Block(hits[0], withCas) + rest;
      BlockDecodes(hits[0], withCas, rest);
      ReplyDecodes(hits[1..], withCas);
      assert Reply(hits, withCas)[0] == Reply(hits, withCas)[..6][0] == 'V';
      assert "END\r\n"[0] == 'E';
    }
  }

  lemma {:induction false} VisibleAt(hits: seq<Hit>, withCas: bool)
    ensures |VisibleHits(hits, withCas)| == |hits|
    ensures forall j :: 0 <= j < |hits| ==> VisibleHits(hits, withCas)[j] == Visible(hits[j], withCas)
  {
    hide Visible;
    if hits != [] {
      VisibleAt(hits[1..], withCas);
    }
  }

  lemma ReplyAnswers(keys: seq<string>, fetch: nat -> Option<Item>, withCas: bool) returns (at: seq<nat>)
    ensures FoundAt(at, |keys|, fetch)
    ensures AllWireSafe(keys, fetch) ==>
      var decoded := Decode(Reply(Hits(keys, fetch), withCas), withCas);
      decoded.Some? && Answers(decoded.value, at, keys, fetch, withCas)
  {
    hide Hits, Reply, Decode, VisibleHits, WireSafe, FoundAt;
    at := HitsFound(keys, fetch);
    if AllWireSafe(keys, fetch) {
      ReplyDecodes(Hits(keys, fetch), withCas);
      VisibleAt(Hits(keys, fetch), withCas);
    }
  }

  /** What a client that decodes the reply must get: one hit for each key found, in the order of the request. */
  ghost predicate Answers(hits: seq<Hit>, at: seq<nat>, keys: seq<string>, fetch: nat -> Option<Item>, withCas: bool) {
    && |hits| == |at|
    && forall j :: 0 <= j < |at| ==>
         && at[j] < |keys| && fetch(at[j]).Some? && hits[j].key == keys[at[j]]
         && hits[j].item.flags == fetch(at[j]).value.flags && hits[j].item.value == fetch(at[j]).value.value
         && hits[j].item.cas == if withCas then fetch(at[j]).value.cas else ""
  }

  /** The keys asked for, and the flags and cas values stored, are tokens. */
  ghost predicate AllWireSafe(keys: seq<string>, fetch: nat -> Option<Item>) {
    forall i: nat :: i < |keys| && fetch(i).Some? ==> WireSafe(Hit(keys[i], fetch(i).value))
  }

  /** The loop that looks each key up and appends its block. */
  method BuildReply(keys: seq<string>, fetch: nat -> Option<Item>, withCas: bool)
    returns (output: string, ghost at: seq<nat>)
    ensures output == Reply(Hits(keys, fetch), withCas)
    ensures FoundAt(at, |keys|, fetch)
    ensures AllWireSafe(keys, fetch) ==>
      Decode(output, withCas).Some? && Answers(Decode(output, withCas).value, at, keys, fetch, withCas)
  {
    at := ReplyAnswers(keys, fetch, withCas);
    output := "";
    var i := 0;
    while i < |keys|
      invariant 0 <= i <= |keys| && output == Blocks(Hits(keys[..i], fetch), withCas)
    {
      assert keys[..i + 1][..i] == keys[..i];
      var found := fetch(i);
      if found.Some? {
        var item := found.value;
        var block := "VALUE " + (keys[i] + (" " + (item.flags + (" " + (Dec(|item.value|) +
                     ((if withCas then " " + item.cas else "") + ("\r\n" + (item.value + "\r\n"))))))));
        BlocksSnoc(Hits(keys[..i], fetch), Hit(keys[i], item), withCas);
        output := output + block;
      }
      i := i + 1;
    }
    assert keys[..|keys|] == keys;
    output := output + "END\r\n";
  }

  /** The text of a reply, without and with the cas value. */
  lemma ReplyText()
    ensures Reply([Hit("k", Item("0", "7", "a"))], false) == "VALUE k 0 1\r\na\r\nEND\r\n"
    ensures Reply([Hit("k", Item("0", "7", "a"))], true) == "VALUE k 0 1 7\r\na\r\nEND\r\n"
  {
    BlockText();
    hide Block;
    var hits := [Hit("k", Item("0", "7", "a"))];
    assert hits[1..] == [];
    assert Blocks(hits, false) == Block(hits[0], false) + "" && Blocks(hits, true) == Block(hits[0], true) + "";
  }

  lemma BlockText()
    ensures Block(Hit("k", Item("0", "7", "a")), false) == "VALUE k 0 1\r\na\r\n"
    ensures Block(Hit("k", Item("0", "7", "a")), true) == "VALUE k 0 1 7\r\na\r\n"
  {
    assert Dec(1) == "1";
  }
}
