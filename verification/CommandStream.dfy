/** The receive loop and the command parser together: whole streams of printed commands. */
module CommandStream {
  import opened Text
  import opened Framing
  import opened Wrappers
  import C = Commands
  import L = LineCommands

  /** What a command meets: the time, and the values of the keys that are live. */
  datatype Moment = Moment(now: nat, stored: string -> Option<string>)

  /** What the command after these ones meets; other connections and the clock may have their part in it. */
  type World = seq<string> -> Moment

  /** What the loop gets back from cmdProcessCommand; buffers that long do not arise below. */
  function Asker(world: World): Parser {
    (done: seq<string>, data: string) =>
      if |data| < NPOS then C.Ask(data, world(done).now, world(done).stored) else 0
  }

  /** A storage command whose data does not itself end in CRLF, as a line and a body. */
  function AsCmd(r: C.Request): Cmd {
    Cmd(C.Line(r) + "\r\n", r.data + "\r\n")
  }

  predicate Storable(r: C.Request) {
    C.Printable(r) && !(|r.data| >= 2 && CrlfAt(r.data, |r.data| - 2))
  }

  lemma AsCmdBytes(r: C.Request, block: string)
    ensures AsCmd(r).line + block == C.Received(r, block)
    ensures Bytes(AsCmd(r)) == C.Print(r)
  {
    hide C.Line;
    assert C.Line(r) + "\r\n" + block == C.Line(r) + ("\r\n" + block);
    assert C.Line(r) + "\r\n" + (r.data + "\r\n") == C.Line(r) + ("\r\n" + (r.data + "\r\n"));
  }

  /** A buffer that ends in CRLF inside the body ends before the last byte of the data. */
  lemma CutInsideData(line: string, data: string, n: nat)
    requires |line| >= 2 && line[|line| - 1] == '\n' && data != ""
    requires !(|data| >= 2 && CrlfAt(data, |data| - 2))
    requires |line| <= n < |line| + |data| + 2 && CrlfAt(line + (data + "\r\n"), n - 2)
    ensures n - |line| < |data|
  {
  }

  lemma StorageWellFormed(r: C.Request, world: World, done: seq<string>)
    requires Storable(r)
    ensures WellFormed(At(Asker(world), done), AsCmd(r))
  {
    hide C.Ask, C.Line, Find, C.Received;
    var cmd, ask, m := AsCmd(r), At(Asker(world), done), world(done);
    var all := Bytes(cmd);
    AsCmdBytes(r, cmd.body);
    LineWellFormed(r);
    assert ask(all) == 0 by { C.AskPrinted(r, cmd.body, m.now, m.stored); }
    forall n | |cmd.line| <= n < |all| && CrlfAt(all, n - 2)
      ensures ask(all[..n]) == |all| - n
    {
      CutInsideData(cmd.line, r.data, n);
      var block := r.data[..n - |cmd.line|];
      assert all[..n] == cmd.line + block;
      AsCmdBytes(r, block);
      C.AskPrinted(r, block, m.now, m.stored);
    }
  }

  lemma LineWellFormed(r: C.Request)
    requires C.Printable(r)
    ensures |AsCmd(r).line| >= 4 && Find(AsCmd(r).line, 2) == |AsCmd(r).line| - 2
    ensures CrlfAt(Bytes(AsCmd(r)), |Bytes(AsCmd(r))| - 2)
  {
    C.LineCrlfFree(r);
    C.BytesPositive(r);
    C.Positions(r);
    hide C.Line, C.Printable;
    var line := C.Line(r);
    assert line + "\r\n" == line + ("\r\n" + "");
    LineEnd(line, "", 2);
  }

  /** Any other line of one command: no storage word in front, CRLF first at its end. */
  predicate OneLine(line: string) {
    && |line| >= 4 && Find(line, 2) == |line| - 2 && |line| < NPOS
    && C.CommandWord(line) !in C.STORAGE_WORDS
  }

  predicate BareQuit(line: string)
    requires |line| < NPOS
  {
    C.CommandWord(line) == "quit" && |line| <= 6
  }

  /** The handler returns and the loop goes on. */
  predicate Survives(line: string, m: Moment)
    requires |line| < NPOS
  {
    !BareQuit(line) && !L.Escapes(C.CommandWord(line), line, m.stored)
  }

  lemma OneLineWellFormed(line: string, world: World, done: seq<string>)
    requires OneLine(line) && Survives(line, world(done))
    ensures WellFormed(At(Asker(world), done), Cmd(line, ""))
  {
    hide C.CommandWord, Find, L.Escapes;
    assert line + "" == line;
  }

  datatype Item = Store(r: C.Request) | Other(line: string)

  /** Sent as the protocol wants it. */
  predicate Proper(i: Item) {
    match i
    case Store(r) => Storable(r)
    case Other(line) => OneLine(line)
  }

  /** And survived by the server at its moment. */
  predicate Acceptable(i: Item, m: Moment) {
    Proper(i) && (i.Other? ==> Survives(i.line, m))
  }

  /** Each item is acceptable when those before it are done. */
  predicate AllAcceptable(world: World, done: seq<string>, items: seq<Item>)
    decreases |items|
  {
    items != [] ==>
      Acceptable(items[0], world(done)) && AllAcceptable(world, done + [ItemBytes(items[0])], items[1..])
  }

  function ItemCmd(i: Item): Cmd {
    match i
    case Store(r) => AsCmd(r)
    case Other(line) => Cmd(line, "")
  }

  /** The bytes a client sends for each item. */
  function ItemBytes(i: Item): string {
    match i
    case Store(r) => C.Print(r)
    case Other(line) => line
  }

  function ItemCmds(items: seq<Item>): (cmds: seq<Cmd>)
    ensures |cmds| == |items|
  {
    seq(|items|, i requires 0 <= i < |items| => ItemCmd(items[i]))
  }

  function AllItemBytes(items: seq<Item>): (bytes: seq<string>)
    ensures |bytes| == |items|
  {
    seq(|items|, i requires 0 <= i < |items| => ItemBytes(items[i]))
  }

  lemma {:induction false} ItemsJoin(items: seq<Item>)
    ensures JoinCmds(ItemCmds(items)) == Join(AllItemBytes(items)) && AllBytes(ItemCmds(items)) == AllItemBytes(items)
  {
    hide C.Print, C.Line;
    if items != [] {
      ItemsJoin(items[1..]);
      assert ItemCmds(items)[1..] == ItemCmds(items[1..]) && AllItemBytes(items)[1..] == AllItemBytes(items[1..]);
      match items[0]
      case Store(r) => AsCmdBytes(r, "");
      case Other(line) => assert line + "" == line;
    }
  }

  /**
   * Whatever storage commands and one-line commands a client sends, and however the stream is cut into chunks: as long
   * as no handler throws and none is a quit, the parser is satisfied on exactly those commands, one after the other,
   * and nothing is left over.
   */
  lemma StreamsParseAlike(items: seq<Item>, chunks: seq<string>, world: World)
    requires AllAcceptable(world, [], items)
    requires (forall i :: 0 <= i < |chunks| ==> chunks[i] != "") && Join(chunks) == Join(AllItemBytes(items))
    ensures var r := Run(START, chunks, Asker(world));
      r.Running? && r.c.done == AllItemBytes(items) && r.c.data == "" && r.c.persistent == ""
  {
    hide AllAcceptable, AllWellFormed, Run, JoinCmds, Join, AllBytes;
    ItemsWellFormed(items, world, []);
    ItemsJoin(items);
    ChunkingIsIrrelevant(ItemCmds(items), chunks, Asker(world));
  }

  lemma {:induction false} ItemsWellFormed(items: seq<Item>, world: World, done: seq<string>)
    requires AllAcceptable(world, done, items)
    ensures AllWellFormed(Asker(world), done, ItemCmds(items))
    decreases |items|
  {
    hide Storable, OneLine, Survives, Asker, WellFormed, Bytes, ItemBytes;
    if items != [] {
      ItemBytesOfCmd(items[0]);
      assert ItemCmds(items)[1..] == ItemCmds(items[1..]);
      ItemsWellFormed(items[1..], world, done + [ItemBytes(items[0])]);
      match items[0]
      case Store(r) => StorageWellFormed(r, world, done);
      case Other(line) => OneLineWellFormed(line, world, done);
    }
  }

  /**
   * And while the stream is still arriving: at any wait for bytes exactly the items received in full are done, and
   * data holds the rest received, less than the next item.
   */
  lemma StreamsParseAsReceived(items: seq<Item>, chunks: seq<string>, tail: string, world: World) returns (k: nat)
    requires AllAcceptable(world, [], items)
    requires (forall i :: 0 <= i < |chunks| ==> chunks[i] != "") && Join(chunks) + tail == Join(AllItemBytes(items))
    ensures k <= |items|
    ensures var r := Run(START, chunks, Asker(world));
      && r.Running? && r.c.done == AllItemBytes(items[..k]) && r.c.persistent == ""
      && Join(chunks) == Join(AllItemBytes(items[..k])) + r.c.data
      && if k < |items| then |r.c.data| < |ItemBytes(items[k])| else r.c.data == ""
  {
    hide AllAcceptable, AllWellFormed, Run, JoinCmds, Join, AllBytes;
    ItemsWellFormed(items, world, []);
    ItemsJoin(items);
    k := DoneAsReceived(ItemCmds(items), chunks, tail, Asker(world));
    ItemsJoin(items[..k]);
    assert ItemCmds(items)[..k] == ItemCmds(items[..k]);
    if k < |items| {
      ItemBytesOfCmd(items[k]);
    }
  }

  lemma ItemBytesOfCmd(i: Item)
    ensures Bytes(ItemCmd(i)) == ItemBytes(i)
  {
    hide C.Print, C.Line;
    match i
    case Store(r) => AsCmdBytes(r, "");
    case Other(line) => assert line + "" == line;
  }

  // ---------- commands that end the loop ----------

  /** The parser that never ends the loop is content with every proper item. */
  lemma ProperStays(i: Item, world: World, done: seq<string>)
    requires Proper(i)
    ensures WellFormed(At(Stays(Asker(world)), done), ItemCmd(i))
  {
    hide Storable, WellFormed, Asker, OneLine;
    match i
    case Store(r) =>
      StorageWellFormed(r, world, done);
      StaysWellFormed(Asker(world), done, AsCmd(r));
    case Other(line) => LineStays(line, world, done);
  }

  lemma LineStays(line: string, world: World, done: seq<string>)
    requires OneLine(line)
    ensures WellFormed(At(Stays(Asker(world)), done), Cmd(line, ""))
  {
    hide C.CommandWord, Find, L.Escapes;
    var m := world(done);
    assert C.Ask(line, m.now, m.stored) <= 0;
    assert At(Stays(Asker(world)), done)(line) == 0;
    assert line + "" == line;
  }

  lemma {:induction false} AllProperStay(items: seq<Item>, world: World, done: seq<string>)
    requires forall i :: 0 <= i < |items| ==> Proper(items[i])
    ensures AllWellFormed(Stays(Asker(world)), done, ItemCmds(items))
    decreases |items|
  {
    hide Proper, Asker, WellFormed, Bytes, ItemBytes;
    if items != [] {
      ProperStays(items[0], world, done);
      assert ItemCmds(items)[0] == ItemCmd(items[0]) && ItemCmds(items)[1..] == ItemCmds(items[1..]);
      AllProperStay(items[1..], world, done + [Bytes(ItemCmd(items[0]))]);
    }
  }

  /**
   * A stream in which item k is a bare quit, or a line whose handler throws: however it is cut and whatever follows,
   * exactly the items before it are done, and the loop ends with what cmdProcessCommand said of it.
   */
  lemma LineEndsStream(items: seq<Item>, k: nat, chunks: seq<string>, world: World)
    requires (forall i :: 0 <= i < |items| ==> Proper(items[i])) && k < |items|
    requires items[k].Other? && OneLine(items[k].line)
    requires AllAcceptable(world, [], items[..k]) && !Survives(items[k].line, world(AllItemBytes(items[..k])))
    requires (forall i :: 0 <= i < |chunks| ==> chunks[i] != "") && Join(chunks) == Join(AllItemBytes(items))
    ensures var r := Run(START, chunks, Asker(world));
      && r.Ended? && r.c.done == AllItemBytes(items[..k])
      && r.c.readMore == if BareQuit(items[k].line) then -1 else C.ESCAPED
  {
    hide AllAcceptable, AllWellFormed, Run, JoinCmds, Join, Bytes, ItemBytes, Asker, AllBytes, Proper, OneLine,
         Survives, BareQuit, C.CommandWord;
    var cmds, ask := ItemCmds(items), Asker(world);
    AllProperStay(items, world, []);
    ItemsJoin(items);
    forall i | 0 <= i < k
      ensures ask(AllBytes(cmds[..i]), Bytes(cmds[i])) >= 0
    {
      AnsweredBefore(items, k, world, i);
    }
    ItemsJoin(items[..k]);
    assert cmds[..k] == ItemCmds(items[..k]);
    EndingAsked(items[k].line, world, AllItemBytes(items[..k]));
    EndCutsStream(cmds, k, chunks, ask);
  }

  lemma AnsweredBefore(items: seq<Item>, k: nat, world: World, i: nat)
    requires i < k <= |items| && AllAcceptable(world, [], items[..k])
    ensures Asker(world)(AllBytes(ItemCmds(items)[..i]), Bytes(ItemCmds(items)[i])) == 0
  {
    hide AllAcceptable, AllWellFormed, Bytes, AllBytes, Asker, ItemCmd;
    var cmds := ItemCmds(items);
    ItemsWellFormed(items[..k], world, []);
    AllAnswered(Asker(world), [], ItemCmds(items[..k]), i);
    assert ItemCmds(items[..k])[..i] == cmds[..i] && [] + AllBytes(cmds[..i]) == AllBytes(cmds[..i]);
  }

  lemma EndingAsked(line: string, world: World, done: seq<string>)
    requires OneLine(line) && !Survives(line, world(done))
    ensures Bytes(Cmd(line, "")) == line
    ensures Asker(world)(done, line) == if BareQuit(line) then -1 else C.ESCAPED
  {
    hide Find;
    assert line + "" == line;
  }

  const QUIT := "quit\r\n"

  lemma QuitIsBare()
    ensures OneLine(QUIT) && BareQuit(QUIT)
  {
    assert FindChar(QUIT, ' ', 0) == NPOS;
    LineEnd("quit", "", 0);
    assert "quit" + ("\r\n" + "") == QUIT;
    SubSlice(QUIT, 0, 4);
    hide C.CommandWord;
    assert CrlfAt(QUIT, 4);
  }

  /** A client that quits: the items before are done, then the connection closes, whatever it sends behind the quit. */
  lemma QuitClosesStream(items: seq<Item>, k: nat, chunks: seq<string>, world: World)
    requires (forall i :: 0 <= i < |items| ==> Proper(items[i])) && k < |items| && items[k] == Other(QUIT)
    requires AllAcceptable(world, [], items[..k])
    requires (forall i :: 0 <= i < |chunks| ==> chunks[i] != "") && Join(chunks) == Join(AllItemBytes(items))
    ensures var r := Run(START, chunks, Asker(world));
      r.Ended? && r.c.done == AllItemBytes(items[..k]) && r.c.readMore == -1
  {
    hide AllAcceptable, Run, Join, AllItemBytes, Proper, Asker, BareQuit;
    QuitIsBare();
    LineEndsStream(items, k, chunks, world);
  }

  // ---------- two commands that end the server ----------

  function SetA(): C.Request {
    C.Request("set", "k", "0", 0, "", false, "a")
  }

  function IncrK(): string {
    L.KeyLine("incr", "k", "1")
  }

  lemma SetAStorable()
    ensures Storable(SetA())
  {
    var r := SetA();
    assert C.Line(r) == "set k 0 0 1";
    assert |C.Print(r)| == 16;
  }

  lemma IncrKLine()
    ensures IncrK() == "incr k 1\r\n" && OneLine(IncrK()) && !BareQuit(IncrK()) && C.CommandWord(IncrK()) == "incr"
  {
    var line := "incr k 1\r\n";
    assert IncrK() == line;
    IncrKEnds(line);
    IncrKWord(line);
    hide Find, C.CommandWord;
  }

  lemma IncrKEnds(line: string)
    requires line == "incr k 1\r\n"
    ensures Find(line, 2) == 8
  {
    assert CrlfAt(line, 8);
  }

  lemma IncrKWord(line: string)
    requires line == "incr k 1\r\n"
    ensures C.CommandWord(line) == "incr"
  {
    assert FindChar(line, ' ', 0) == 4 by { assert line[4] == ' '; }
    SubSlice(line, 0, 4);
  }

  /** A set of a value that is no number, then an incr of it: the set is done, the incr ends the server. */
  lemma SetThenIncrEndsServer(chunks: seq<string>, world: World)
    requires (forall i :: 0 <= i < |chunks| ==> chunks[i] != "") && Join(chunks) == C.Print(SetA()) + IncrK()
    requires world([C.Print(SetA())]).stored("k") == Some("a")
    ensures var r := Run(START, chunks, Asker(world));
      r.Ended? && r.c.done == [C.Print(SetA())] && r.c.readMore == C.ESCAPED
  {
    hide *;
    SetAStorable();
    IncrKLine();
    IncrKEscapes(world([C.Print(SetA())]).stored);
    StoreThenEscape(SetA(), IncrK(), chunks, world);
  }

  lemma IncrKEscapes(stored: string -> Option<string>)
    requires stored("k") == Some("a")
    ensures |IncrK()| < NPOS && L.Escapes("incr", IncrK(), stored)
  {
    hide L.Escapes, Stoul, Free, CrlfFree;
    assert |IncrK()| == 10;
    L.ShortTokens();
    L.NotANumber();
    L.ArithmeticEscapesIff("incr", "k", "1", stored);
  }

  /** A storage command, then a line whose handler throws. */
  lemma StoreThenEscape(r: C.Request, line: string, chunks: seq<string>, world: World)
    requires Storable(r) && OneLine(line) && !BareQuit(line)
    requires L.Escapes(C.CommandWord(line), line, world([C.Print(r)]).stored)
    requires (forall i :: 0 <= i < |chunks| ==> chunks[i] != "") && Join(chunks) == C.Print(r) + line
    ensures var run := Run(START, chunks, Asker(world));
      run.Ended? && run.c.done == [C.Print(r)] && run.c.readMore == C.ESCAPED
  {
    hide C.Print, Run, Storable, OneLine, BareQuit, L.Escapes, C.CommandWord, Find, Join, Asker;
    var items := [Store(r), Other(line)];
    assert items[..1] == [Store(r)] && items[..1][1..] == [];
    assert AllItemBytes(items[..1]) == [C.Print(r)];
    assert AllItemBytes(items) == [C.Print(r), line];
    JoinTwo(C.Print(r), line);
    LineEndsStream(items, 1, chunks, world);
  }

  lemma JoinTwo(a: string, b: string)
    ensures Join([a, b]) == a + b
  {
    assert [a, b][1..] == [b] && [b][1..] == [];
    assert Join([b]) == b + Join([]);
  }
}
