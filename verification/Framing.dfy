/** The receive loop of a connection: bytes arrive in chunks, are cut at CRLF and offered to the command parser. */
module Framing {

  import opened Text

  /** The variables of the loop, and the buffers for which the parser returned zero. */
  datatype Conn = Conn(data: string, persistent: string, pos: nat, readMore: int, flag: bool, done: seq<string>)

  /** Ended: by a quit, by an exception that escapes from the parser, or by the client closing. */
  datatype Outcome = Running(c: Conn) | Ended(c: Conn)

  /** What the parser answers depends on the commands done so far: they have changed the store. */
  type Parser = (seq<string>, string) -> int

  function At(ask: Parser, done: seq<string>): string -> int {
    (data: string) => ask(done, data)
  }

  const START := Conn("", "", 0, 0, false, [])

  /** While bytes wait to be cut, data ends at the last CRLF found. */
  predicate Settled(c: Conn) {
    c.persistent != "" ==> |c.data| <= c.pos + 2
  }

  /** The part of a turn after new bytes have been appended to data. */
  function Cut(c: Conn, ask: string -> int): (r: Outcome)
    requires c.persistent == ""
    ensures Settled(r.c)
    ensures r.c.persistent == "" || |r.c.persistent| < |c.data| - (c.pos + 2)
  {
    var oldPos := c.pos + 2;
    var p := Find(c.data, oldPos);
    if p < 0 then Running(c)
    else
      var rest, data := c.data[p + 2..], c.data[..p + 2];
      var readMore := if c.flag then c.readMore - (p - oldPos + 2) else c.readMore;
      var c' := Conn(data, rest, p, readMore, false, c.done);
      if readMore > 0 then Running(c')
      else
        var more := ask(data);
        if more > 0 then Running(c'.(readMore := more))
        else if more < 0 then Ended(c'.(readMore := more))
        else Running(Conn("", rest, 0, 0, false, c.done + [data]))
  }

  /** The whole loop. An empty chunk is the client closing; running out of chunks is EWOULDBLOCK. */
  function Run(c: Conn, chunks: seq<string>, ask: Parser): Outcome
    requires Settled(c)
    decreases |chunks|, |c.persistent|
  {
    if c.persistent != "" then
      match Cut(c.(data := c.data + c.persistent, persistent := "", flag := true), At(ask, c.done))
      case Ended(c') => Ended(c')
      case Running(c') => Run(c', chunks, ask)
    else if chunks == [] then Running(c)
    else if chunks[0] == "" then Ended(c)
    else
      match Cut(c.(data := c.data + chunks[0], readMore := c.readMore - |chunks[0]|), At(ask, c.done))
      case Ended(c') => Ended(c')
      case Running(c') => Run(c', chunks[1..], ask)
  }

  // ---------- commands ----------

  /** A command line with its CRLF, and for a storage command the data block with its CRLF. */
  datatype Cmd = Cmd(line: string, body: string)

  function Bytes(c: Cmd): string {
    c.line + c.body
  }

  function Join(ss: seq<string>): string {
    if ss == [] then "" else ss[0] + Join(ss[1..])
  }

  function JoinCmds(cmds: seq<Cmd>): string {
    if cmds == [] then "" else Bytes(cmds[0]) + JoinCmds(cmds[1..])
  }

  function AllBytes(cmds: seq<Cmd>): seq<string> {
    if cmds == [] then [] else [Bytes(cmds[0])] + AllBytes(cmds[1..])
  }

  /**
   * The line ends at its first CRLF from index 2 on. The parser is content with the whole command, and on any
   * shorter buffer that covers the line and ends in CRLF it asks for exactly the missing bytes.
   */
  ghost predicate WellFormed(ask: string -> int, c: Cmd) {
    var all := Bytes(c);
    && |c.line| >= 4 && Find(c.line, 2) == |c.line| - 2
    && (c.body != "" ==> CrlfAt(all, |all| - 2) && |c.body| >= 2)
    && ask(all) == 0
    && forall n :: |c.line| <= n < |all| && CrlfAt(all, n - 2) ==> ask(all[..n]) == |all| - n
  }

  /** Each of the commands is well formed once those before it are done. */
  ghost predicate AllWellFormed(ask: Parser, done: seq<string>, cmds: seq<Cmd>)
    decreases |cmds|
  {
    cmds != [] ==>
      WellFormed(At(ask, done), cmds[0]) && AllWellFormed(ask, done + [Bytes(cmds[0])], cmds[1..])
  }

  lemma FirstWellFormed(ask: Parser, done: seq<string>, cmds: seq<Cmd>)
    requires AllWellFormed(ask, done, cmds) && cmds != []
    ensures WellFormed(At(ask, done), cmds[0])
  {
  }

  // ---------- where the loop stands within the current command ----------

  /** No line has been seen to end. */
  predicate AtLine(c: Conn) {
    c.pos == 0 && c.readMore <= 0
  }

  /** The parser has asked for more of a command of n bytes; readMore never overstates what is missing. */
  predicate InBody(c: Conn, cmd: Cmd) {
    var n := |Bytes(cmd)|;
    && |cmd.line| <= c.pos + 2 < n && c.pos + 2 <= |c.data| && CrlfAt(c.data, c.pos)
    && c.readMore <= n - (if c.flag then c.pos + 2 else |c.data|)
  }

  ghost predicate Inside(c: Conn, cmds: seq<Cmd>) {
    AtLine(c) || (cmds != [] && InBody(c, cmds[0]))
  }

  /** Everything received so far and still to come is the rest of the commands. */
  ghost predicate OnTrack(c: Conn, cmds: seq<Cmd>, chunks: seq<string>) {
    && Settled(c) && Inside(c, cmds)
    && c.data + c.persistent + Join(chunks) == JoinCmds(cmds)
    && Find(c.data, c.pos + 2) == -1
  }

  lemma CrlfApart(s: string, i: nat, j: nat)
    requires CrlfAt(s, i) && CrlfAt(s, j) && i < j
    ensures i + 2 <= j
  {
  }

  /** a followed by b is x followed by y. */
  ghost predicate Same(a: string, b: string, x: string, y: string) {
    a + b == x + y
  }

  /** A CRLF within both of two prefixes of one stream is a CRLF of both. */
  lemma SharedCrlf(a: string, tailA: string, b: string, tailB: string, i: nat)
    requires Same(a, tailA, b, tailB) && i + 2 <= |a| && i + 2 <= |b|
    ensures CrlfAt(a, i) <==> CrlfAt(b, i)
    ensures a[..i + 2] == b[..i + 2]
  {
    assert a[i] == (a + tailA)[i] && a[i + 1] == (a + tailA)[i + 1];
    assert b[i] == (b + tailB)[i] && b[i + 1] == (b + tailB)[i + 1];
    assert a[..i + 2] == (a + tailA)[..i + 2] && b[..i + 2] == (b + tailB)[..i + 2];
  }

  /** With no line ended yet, the first CRLF found ends the line of the current command. */
  lemma CutLine(data: string, tail: string, cmd: Cmd, after: string)
    requires |cmd.line| >= 4 && Find(cmd.line, 2) == |cmd.line| - 2
    requires Same(data, tail, Bytes(cmd), after) && Find(data, 2) >= 0
    ensures Find(data, 2) == |cmd.line| - 2 && data[..|cmd.line|] == cmd.line
  {
    var p, m := Find(data, 2), |cmd.line| - 2;
    assert Bytes(cmd) + after == cmd.line + (cmd.body + after);
    assert Same(data, tail, cmd.line, cmd.body + after);
    hide Same, Bytes;
    if p < m {
      SharedCrlf(data, tail, cmd.line, cmd.body + after, p);
    } else {
      SharedCrlf(data, tail, cmd.line, cmd.body + after, m);
    }
  }

  /** Within the body, the next CRLF found is no later than the one that ends the command. */
  lemma CutBody(data: string, tail: string, all: string, after: string, pos: nat)
    requires Same(data, tail, all, after) && |all| >= 2 && CrlfAt(all, |all| - 2)
    requires pos + 2 < |all| && CrlfAt(data, pos) && Find(data, pos + 2) >= 0
    ensures var n := Find(data, pos + 2) + 2; n <= |all| && data[..n] == all[..n]
  {
    hide Same;
    var p, last := Find(data, pos + 2), |all| - 2;
    SharedCrlf(data, tail, all, after, pos);
    CrlfApart(all, pos, last);
    if p > last {
      SharedCrlf(data, tail, all, after, last);
    } else {
      SharedCrlf(data, tail, all, after, p);
    }
  }

  lemma CommandEnds(ask: string -> int, cmd: Cmd)
    requires WellFormed(ask, cmd)
    ensures |Bytes(cmd)| >= |cmd.line| >= 4 && CrlfAt(Bytes(cmd), |Bytes(cmd)| - 2)
    ensures Find(cmd.line, 2) == |cmd.line| - 2 && Bytes(cmd)[..|cmd.line|] == cmd.line
  {
    assert CrlfAt(cmd.line, |cmd.line| - 2);
  }

  /** readMore after the bytes of a cut at p have been accounted for. */
  function Charged(c: Conn, p: int): int {
    if c.flag then c.readMore - (p - (c.pos + 2) + 2) else c.readMore
  }

  /** A cut covers the line and stays within the command, and readMore does not overstate what is missing. */
  ghost predicate GoodCut(c: Conn, cmd: Cmd, n: nat) {
    && 2 <= |cmd.line| <= n <= |Bytes(cmd)| && n <= |c.data| && c.data[..n] == Bytes(cmd)[..n]
    && CrlfAt(c.data[..n], n - 2) && Charged(c, n - 2) <= |Bytes(cmd)| - n
  }

  lemma CutAtLine(c: Conn, cmd: Cmd, after: string, tail: string, ask: string -> int)
    requires WellFormed(ask, cmd) && AtLine(c)
    requires Same(c.data, tail, Bytes(cmd), after) && Find(c.data, c.pos + 2) >= 0
    ensures GoodCut(c, cmd, Find(c.data, c.pos + 2) + 2)
  {
    hide Find, Bytes, WellFormed, Same;
    CommandEnds(ask, cmd);
    CutLine(c.data, tail, cmd, after);
    assert CrlfAt(cmd.line, |cmd.line| - 2);
  }

  lemma CutInBody(c: Conn, cmd: Cmd, after: string, tail: string, ask: string -> int)
    requires WellFormed(ask, cmd) && InBody(c, cmd)
    requires Same(c.data, tail, Bytes(cmd), after) && Find(c.data, c.pos + 2) >= 0
    ensures GoodCut(c, cmd, Find(c.data, c.pos + 2) + 2)
  {
    hide Find, Bytes, WellFormed, Same;
    CommandEnds(ask, cmd);
    CutBody(c.data, tail, Bytes(cmd), after, c.pos);
  }

  lemma CutPoint(c: Conn, cmd: Cmd, after: string, tail: string, ask: string -> int)
    requires WellFormed(ask, cmd) && (AtLine(c) || InBody(c, cmd))
    requires Same(c.data, tail, Bytes(cmd), after) && Find(c.data, c.pos + 2) >= 0
    ensures GoodCut(c, cmd, Find(c.data, c.pos + 2) + 2)
  {
    hide Find, Bytes, WellFormed, GoodCut, Same;
    if AtLine(c) {
      CutAtLine(c, cmd, after, tail, ask);
    } else {
      CutInBody(c, cmd, after, tail, ask);
    }
  }

  lemma DropShared(a: string, b: string, x: string, y: string)
    requires Same(a, b, x, y) && |x| <= |a|
    ensures a[..|x|] == x && a[|x|..] + b == y
  {
    assert a[..|x|] == (a + b)[..|x|] && x == (x + y)[..|x|];
    assert a[|x|..] + b == (a + b)[|x|..] && y == (x + y)[|x|..];
  }

  lemma NothingToFind(s: string, start: nat)
    requires |s| < start + 2
    ensures Find(s, start) == -1
  {
  }

  /** What a turn leaves, by what the parser says of the buffer cut at n. */
  lemma CutResult(c: Conn, n: nat, ask: string -> int)
    requires c.persistent == "" && n >= 2 && Find(c.data, c.pos + 2) == n - 2
    ensures n <= |c.data|
    ensures Charged(c, n - 2) <= 0 && ask(c.data[..n]) == 0 ==>
      Cut(c, ask) == Running(Conn("", c.data[n..], 0, 0, false, c.done + [c.data[..n]]))
    ensures Charged(c, n - 2) <= 0 && ask(c.data[..n]) > 0 ==>
      Cut(c, ask) == Running(Conn(c.data[..n], c.data[n..], n - 2, ask(c.data[..n]), false, c.done))
    ensures Charged(c, n - 2) > 0 ==>
      Cut(c, ask) == Running(Conn(c.data[..n], c.data[n..], n - 2, Charged(c, n - 2), false, c.done))
  {
  }

  /** A cut at the end of the command completes it. */
  lemma CutCompletes(c: Conn, cmds: seq<Cmd>, chunks: seq<string>, ask: string -> int)
    requires c.persistent == "" && cmds != [] && WellFormed(ask, cmds[0]) && Inside(c, cmds)
    requires c.data + Join(chunks) == JoinCmds(cmds)
    requires Find(c.data, c.pos + 2) + 2 == |Bytes(cmds[0])|
    ensures Cut(c, ask).Running? && OnTrack(Cut(c, ask).c, cmds[1..], chunks)
    ensures Cut(c, ask).c.done == c.done + [Bytes(cmds[0])]
  {
    var all, after := Bytes(cmds[0]), JoinCmds(cmds[1..]);
    hide Find, Cut, CrlfAt, InBody, Join, Charged;
    assert Same(c.data, Join(chunks), all, after);
    hide Same;
    CutPoint(c, cmds[0], after, Join(chunks), ask);
    CutResult(c, |all|, ask);
    DropShared(c.data, Join(chunks), all, after);
    NothingToFind("", 2);
    assert "" + c.data[|all|..] == c.data[|all|..];
  }

  /** A cut before the end leaves the loop waiting for the rest. */
  lemma CutWaits(c: Conn, cmds: seq<Cmd>, chunks: seq<string>, ask: string -> int)
    requires c.persistent == "" && cmds != [] && WellFormed(ask, cmds[0]) && Inside(c, cmds)
    requires c.data + Join(chunks) == JoinCmds(cmds)
    requires 0 <= Find(c.data, c.pos + 2) && Find(c.data, c.pos + 2) + 2 != |Bytes(cmds[0])|
    ensures Cut(c, ask).Running? && OnTrack(Cut(c, ask).c, cmds, chunks) && Cut(c, ask).c.done == c.done
  {
    hide Find, Cut, Join, Charged, Bytes;
    var all, n := Bytes(cmds[0]), Find(c.data, c.pos + 2) + 2;
    assert Same(c.data, Join(chunks), all, JoinCmds(cmds[1..]));
    hide Same;
    CutPoint(c, cmds[0], JoinCmds(cmds[1..]), Join(chunks), ask);
    assert CrlfAt(all, n - 2);
    CutResult(c, n, ask);
    NothingToFind(c.data[..n], n);
    hide JoinCmds, WellFormed;
    assert c.data[..n] + c.data[n..] == c.data;
    assert InBody(Cut(c, ask).c, cmds[0]);
  }

  /** One cut keeps the loop on track, either within the current command or past it. */
  lemma CutOnTrack(c: Conn, cmds: seq<Cmd>, chunks: seq<string>, ask: string -> int) returns (left: seq<Cmd>)
    requires c.persistent == "" && cmds != [] && WellFormed(ask, cmds[0]) && Inside(c, cmds)
    requires c.data + Join(chunks) == JoinCmds(cmds)
    ensures Cut(c, ask).Running? && OnTrack(Cut(c, ask).c, left, chunks)
    ensures || (left == cmds && Cut(c, ask).c.done == c.done)
            || (left == cmds[1..] && Cut(c, ask).c.done == c.done + [Bytes(cmds[0])])
  {
    hide Find, CrlfAt, AtLine, InBody, WellFormed, Bytes;
    var p := Find(c.data, c.pos + 2);
    left := cmds;
    if p < 0 {
      hide Join, JoinCmds;
      assert c.data + "" == c.data;
    } else if p + 2 == |Bytes(cmds[0])| {
      hide OnTrack, Cut;
      CutCompletes(c, cmds, chunks, ask);
      left := cmds[1..];
    } else {
      hide OnTrack, Cut;
      CutWaits(c, cmds, chunks, ask);
    }
  }

  /** Appending the bytes held back stays inside the current command. */
  lemma AppendHeld(c: Conn, cmds: seq<Cmd>, chunks: seq<string>)
    requires OnTrack(c, cmds, chunks) && c.persistent != "" && cmds != []
    ensures Inside(c.(data := c.data + c.persistent, persistent := "", flag := true), cmds)
  {
    hide Find, Bytes;
    var c1 := c.(data := c.data + c.persistent, persistent := "", flag := true);
    if !AtLine(c) {
      assert InBody(c1, cmds[0]);
    }
  }

  /** Appending a received chunk stays inside the current command. */
  lemma AppendReceived(c: Conn, cmds: seq<Cmd>, chunks: seq<string>)
    requires OnTrack(c, cmds, chunks) && c.persistent == "" && cmds != [] && chunks != []
    ensures var c1 := c.(data := c.data + chunks[0], readMore := c.readMore - |chunks[0]|);
      Inside(c1, cmds) && c1.data + Join(chunks[1..]) == JoinCmds(cmds)
  {
    hide Find, Bytes, JoinCmds;
    assert c.data + "" == c.data;
    assert c.data + (chunks[0] + Join(chunks[1..])) == c.data + chunks[0] + Join(chunks[1..]);
    if !AtLine(c) {
      assert InBody(c.(data := c.data + chunks[0], readMore := c.readMore - |chunks[0]|), cmds[0]);
    }
  }

  /** With no command outstanding there is nothing left, received or to come. */
  lemma Finished(c: Conn, chunks: seq<string>, tail: string)
    requires OnTrack(c, [], chunks + [tail]) && (forall i :: 0 <= i < |chunks| ==> chunks[i] != "")
    ensures chunks == [] && c.data == "" && c.persistent == "" && c.readMore <= 0 && tail == ""
  {
    JoinSnoc(chunks, tail);
  }

  lemma {:induction false} JoinSnoc(chunks: seq<string>, tail: string)
    ensures Join(chunks + [tail]) == Join(chunks) + tail
  {
    if chunks != [] {
      JoinSnoc(chunks[1..], tail);
      assert (chunks + [tail])[1..] == chunks[1..] + [tail];
    } else {
      assert (chunks + [tail])[1..] == [] && tail + "" == tail;
    }
  }

  /** With a command outstanding, less than all of it is held: its final CRLF would have been found. */
  lemma Unfinished(c: Conn, cmds: seq<Cmd>, tail: string, ask: string -> int)
    requires cmds != [] && WellFormed(ask, cmds[0]) && c.persistent == "" && OnTrack(c, cmds, [tail])
    ensures |c.data| < |Bytes(cmds[0])|
  {
    hide Find, AtLine, InBody, WellFormed, Bytes, Settled;
    HeldSame(c, cmds, tail);
    HoldsLess(c, cmds[0], JoinCmds(cmds[1..]), tail, ask);
  }

  lemma HeldSame(c: Conn, cmds: seq<Cmd>, tail: string)
    requires cmds != [] && c.persistent == "" && OnTrack(c, cmds, [tail])
    ensures Same(c.data, tail, Bytes(cmds[0]), JoinCmds(cmds[1..]))
  {
    hide Find, Inside, Bytes, Settled;
    assert [tail][1..] == [] && Join([tail]) == tail;
    assert c.data + "" == c.data;
  }

  lemma HoldsLess(c: Conn, cmd: Cmd, after: string, tail: string, ask: string -> int)
    requires WellFormed(ask, cmd) && (AtLine(c) || InBody(c, cmd))
    requires Same(c.data, tail, Bytes(cmd), after) && Find(c.data, c.pos + 2) == -1
    ensures |c.data| < |Bytes(cmd)|
  {
    hide Same, Bytes, WellFormed, Find;
    var all := Bytes(cmd);
    CommandEnds(ask, cmd);
    if |c.data| >= |all| {
      if !AtLine(c) {
        SharedCrlf(c.data, tail, all, after, c.pos);
        CrlfApart(all, c.pos, |all| - 2);
      }
      SharedCrlf(c.data, tail, all, after, |all| - 2);
      assert false;
    }
  }

  lemma DoneAlike(c: Conn, c': Conn, cmds: seq<Cmd>, left: seq<Cmd>)
    requires cmds != []
    requires (left == cmds && c'.done == c.done) || (left == cmds[1..] && c'.done == c.done + [Bytes(cmds[0])])
    ensures c'.done + AllBytes(left) == c.done + AllBytes(cmds)
  {
    hide Bytes;
    if left != cmds || c'.done != c.done {
      assert (c.done + [Bytes(cmds[0])]) + AllBytes(left) == c.done + ([Bytes(cmds[0])] + AllBytes(left));
    }
  }

  /** A turn on bytes held back. */
  lemma TurnHeld(c: Conn, cmds: seq<Cmd>, chunks: seq<string>, given: seq<string>, ask: Parser)
    returns (c': Conn, left: seq<Cmd>)
    requires Settled(c) && OnTrack(c, cmds, chunks) && AllWellFormed(ask, c.done, cmds)
    requires cmds != [] && c.persistent != ""
    ensures Settled(c') && |c'.persistent| < |c.persistent| && Run(c, given, ask) == Run(c', given, ask)
    ensures OnTrack(c', left, chunks) && AllWellFormed(ask, c'.done, left) && (left == cmds || left == cmds[1..])
    ensures c'.done + AllBytes(left) == c.done + AllBytes(cmds)
  {
    hide Find, Cut, Bytes, Join, JoinCmds, WellFormed, Inside, AllBytes;
    var c1 := c.(data := c.data + c.persistent, persistent := "", flag := true);
    AppendHeld(c, cmds, chunks);
    left := CutOnTrack(c1, cmds, chunks, At(ask, c.done));
    c' := Cut(c1, At(ask, c.done)).c;
    DoneAlike(c, c', cmds, left);
  }

  /** A turn on a received chunk. */
  lemma TurnReceived(c: Conn, cmds: seq<Cmd>, chunks: seq<string>, given: seq<string>, ask: Parser)
    returns (c': Conn, left: seq<Cmd>)
    requires Settled(c) && OnTrack(c, cmds, chunks) && AllWellFormed(ask, c.done, cmds)
    requires cmds != [] && c.persistent == ""
    requires chunks != [] && chunks[0] != "" && given != [] && given[0] == chunks[0]
    ensures Settled(c') && Run(c, given, ask) == Run(c', given[1..], ask)
    ensures OnTrack(c', left, chunks[1..]) && AllWellFormed(ask, c'.done, left) && (left == cmds || left == cmds[1..])
    ensures c'.done + AllBytes(left) == c.done + AllBytes(cmds)
  {
    hide Find, Cut, Bytes, Join, JoinCmds, WellFormed, Inside, AllBytes, OnTrack;
    var c1 := c.(data := c.data + chunks[0], readMore := c.readMore - |chunks[0]|);
    AppendReceived(c, cmds, chunks);
    left := CutOnTrack(c1, cmds, chunks[1..], At(ask, c.done));
    c' := Cut(c1, At(ask, c.done)).c;
    DoneAlike(c, c', cmds, left);
  }

  /**
   * From any point on track, after any chunks and whatever is still to come: the loop waits with all commands done
   * but those left, of which it holds less than the first.
   */
  lemma {:induction false} RunReceives(c: Conn, cmds: seq<Cmd>, chunks: seq<string>, tail: string, ask: Parser)
    returns (left: seq<Cmd>)
    requires Settled(c) && OnTrack(c, cmds, chunks + [tail]) && AllWellFormed(ask, c.done, cmds)
    requires forall i :: 0 <= i < |chunks| ==> chunks[i] != ""
    ensures var r := Run(c, chunks, ask);
      && r.Running? && r.c.persistent == "" && OnTrack(r.c, left, [tail])
      && r.c.done + AllBytes(left) == c.done + AllBytes(cmds)
      && (left != [] ==> |r.c.data| < |Bytes(left[0])|)
    ensures |left| <= |cmds| && left == cmds[|cmds| - |left|..]
    decreases |chunks|, |c.persistent|
  {
    hide OnTrack, AllWellFormed, Run, AllBytes, Bytes, Join;
    if cmds == [] {
      Finished(c, chunks, tail);
      left := cmds;
      assert chunks + [tail] == [tail];
      RunWaits(c, ask);
    } else if c.persistent != "" {
      var c', rest := TurnHeld(c, cmds, chunks + [tail], chunks, ask);
      left := RunReceives(c', rest, chunks, tail, ask);
    } else if chunks == [] {
      left := cmds;
      assert chunks + [tail] == [tail];
      FirstWellFormed(ask, c.done, cmds);
      Unfinished(c, cmds, tail, At(ask, c.done));
      RunWaits(c, ask);
    } else {
      assert (chunks + [tail])[1..] == chunks[1..] + [tail];
      var c', rest := TurnReceived(c, cmds, chunks + [tail], chunks, ask);
      left := RunReceives(c', rest, chunks[1..], tail, ask);
    }
  }

  lemma RunWaits(c: Conn, ask: Parser)
    requires c.persistent == ""
    ensures Settled(c) && Run(c, [], ask) == Running(c)
  {
  }

  lemma {:induction false} AllBytesSplit(cmds: seq<Cmd>, k: nat)
    requires k <= |cmds|
    ensures AllBytes(cmds) == AllBytes(cmds[..k]) + AllBytes(cmds[k..])
    ensures JoinCmds(cmds) == JoinCmds(cmds[..k]) + JoinCmds(cmds[k..])
  {
    hide Bytes;
    if k > 0 {
      AllBytesSplit(cmds[1..], k - 1);
      assert cmds[..k][1..] == cmds[1..][..k - 1] && cmds[k..] == cmds[1..][k - 1..];
    } else {
      assert cmds[0..] == cmds;
    }
  }

  lemma DropEqual<T>(a: seq<T>, b: seq<T>, x: seq<T>)
    requires a + x == b + x
    ensures a == b
  {
    assert |a| == |b|;
    assert a == (a + x)[..|a|] && b == (b + x)[..|b|];
  }

  /**
   * At any wait for bytes, with any part of the stream received in any chunks: exactly the first k commands are done,
   * data is the received part of the next one, which is not complete, and nothing is set aside.
   */
  lemma DoneAsReceived(cmds: seq<Cmd>, chunks: seq<string>, tail: string, ask: Parser) returns (k: nat)
    requires AllWellFormed(ask, [], cmds) && Join(chunks) + tail == JoinCmds(cmds)
    requires forall i :: 0 <= i < |chunks| ==> chunks[i] != ""
    ensures k <= |cmds|
    ensures var r := Run(START, chunks, ask);
      && r.Running? && r.c.done == AllBytes(cmds[..k]) && r.c.persistent == ""
      && Join(chunks) == JoinCmds(cmds[..k]) + r.c.data
      && if k < |cmds| then |r.c.data| < |Bytes(cmds[k])| else r.c.data == "" && r.c.readMore <= 0
  {
    hide Run, AllWellFormed, AllBytes, JoinCmds, Join, Bytes, OnTrack;
    StartOnTrack(cmds, chunks, tail);
    var left := RunReceives(START, cmds, chunks, tail, ask);
    k := |cmds| - |left|;
    AllBytesSplit(cmds, k);
    var c := Run(START, chunks, ask).c;
    assert [] + AllBytes(cmds) == AllBytes(cmds);
    DropEqual(c.done, AllBytes(cmds[..k]), AllBytes(left));
    Held(c, left, tail);
    ReceivedIs(Join(chunks), JoinCmds(cmds[..k]), c.data, tail);
    if left == [] {
      assert [] + [tail] == [tail];
      Finished(c, [], tail);
    }
  }

  lemma ReceivedIs(received: string, front: string, data: string, tail: string)
    requires received + tail == front + (data + tail)
    ensures received == front + data
  {
    assert front + (data + tail) == (front + data) + tail;
    DropEqual(received, front + data, tail);
  }

  lemma StartOnTrack(cmds: seq<Cmd>, chunks: seq<string>, tail: string)
    requires Join(chunks) + tail == JoinCmds(cmds)
    ensures OnTrack(START, cmds, chunks + [tail])
  {
    NothingToFind("", 2);
    JoinSnoc(chunks, tail);
    assert "" + "" + Join(chunks + [tail]) == Join(chunks + [tail]);
  }

  lemma Held(c: Conn, left: seq<Cmd>, tail: string)
    requires OnTrack(c, left, [tail]) && c.persistent == ""
    ensures c.data + tail == JoinCmds(left)
  {
    hide Find, JoinCmds, Inside;
    assert [tail][1..] == [] && Join([tail]) == tail;
    assert c.data + "" == c.data;
  }

  /**
   * Every way of cutting a stream of well-formed commands into non-empty chunks completes the same commands in
   * the same order, and ends with nothing left waiting.
   */
  lemma ChunkingIsIrrelevant(cmds: seq<Cmd>, chunks: seq<string>, ask: Parser)
    requires AllWellFormed(ask, [], cmds) && Join(chunks) == JoinCmds(cmds)
    requires forall i :: 0 <= i < |chunks| ==> chunks[i] != ""
    ensures var r := Run(START, chunks, ask);
      r.Running? && r.c.done == AllBytes(cmds) && r.c.data == "" && r.c.persistent == "" && r.c.readMore <= 0
  {
    hide Run, WellFormed, AllBytes, Bytes;
    assert Join(chunks) + "" == Join(chunks);
    var k := DoneAsReceived(cmds, chunks, "", ask);
    AllBytesSplit(cmds, k);
    if k < |cmds| {
      var c := Run(START, chunks, ask).c;
      DropFront(JoinCmds(cmds[..k]), c.data, JoinCmds(cmds[k..]));
      LongerThanFirst(cmds[k..]);
    } else {
      assert cmds[..k] == cmds;
    }
  }

  lemma DropFront(x: string, a: string, b: string)
    requires x + a == x + b
    ensures a == b
  {
    assert a == (x + a)[|x|..] && b == (x + b)[|x|..];
  }

  lemma LongerThanFirst(cmds: seq<Cmd>)
    requires cmds != []
    ensures |JoinCmds(cmds)| >= |Bytes(cmds[0])|
  {
  }

  // ---------- ending ----------

  /** The parser that answers what ends the loop as it answers any finished command. */
  function Stays(ask: Parser): Parser {
    (done: seq<string>, data: string) => if ask(done, data) < 0 then 0 else ask(done, data)
  }

  lemma StaysWellFormed(ask: Parser, done: seq<string>, c: Cmd)
    requires WellFormed(At(ask, done), c)
    ensures WellFormed(At(Stays(ask), done), c) && ask(done, Bytes(c)) == 0
  {
    hide Find, CrlfAt;
  }

  /** One turn with and without quitting: the same, or the one quits where the other completes a quit. */
  lemma CutStays(c: Conn, ask: Parser)
    requires c.persistent == ""
    ensures Cut(c, At(Stays(ask), c.done)).Running? && c.done <= Cut(c, At(Stays(ask), c.done)).c.done
    ensures var stayed, left := Cut(c, At(Stays(ask), c.done)).c, Cut(c, At(ask, c.done));
      || (left == Running(stayed) && stayed.done == c.done)
      || (left == Running(stayed) && exists d :: stayed.done == c.done + [d] && ask(c.done, d) >= 0)
      || (left.Ended? && left.c.done == c.done
          && exists d :: stayed.done == c.done + [d] && left.c.readMore == ask(c.done, d) < 0)
  {
    hide Find;
  }

  /** The state after the append of a turn, when there is something to append. */
  function Appended(c: Conn, chunks: seq<string>): Conn
    requires c.persistent != "" || chunks != []
  {
    if c.persistent != "" then c.(data := c.data + c.persistent, persistent := "", flag := true)
    else c.(data := c.data + chunks[0], readMore := c.readMore - |chunks[0]|)
  }

  function Remaining(c: Conn, chunks: seq<string>): seq<string>
    requires c.persistent != "" || chunks != []
  {
    if c.persistent != "" then chunks else chunks[1..]
  }

  /** The loop waits, or the client has closed. */
  predicate Over(c: Conn, chunks: seq<string>) {
    c.persistent == "" && (chunks == [] || chunks[0] == "")
  }

  lemma RunTurn(c: Conn, chunks: seq<string>, ask: Parser)
    requires Settled(c) && !Over(c, chunks)
    ensures var turn := Cut(Appended(c, chunks), At(ask, c.done));
      Run(c, chunks, ask) == if turn.Ended? then turn else Run(turn.c, Remaining(c, chunks), ask)
    ensures |Remaining(c, chunks)| < |chunks| ||
      (|Remaining(c, chunks)| == |chunks| && |Cut(Appended(c, chunks), At(ask, c.done)).c.persistent| < |c.persistent|)
  {
    hide Find;
  }

  lemma {:induction false} DoneGrows(c: Conn, chunks: seq<string>, ask: Parser)
    requires Settled(c)
    ensures c.done <= Run(c, chunks, Stays(ask)).c.done
    decreases |chunks|, |c.persistent|
  {
    hide Cut;
    if !Over(c, chunks) {
      RunTurn(c, chunks, Stays(ask));
      CutStays(Appended(c, chunks), ask);
      DoneGrows(Cut(Appended(c, chunks), At(Stays(ask), c.done)).c, Remaining(c, chunks), ask);
    }
  }

  /** None of the buffers from lo up to hi ends the loop, each asked once those before it are done. */
  ghost predicate Untroubled(ask: Parser, done: seq<string>, lo: nat, hi: nat)
    requires hi <= |done|
  {
    forall i :: lo <= i < hi ==> ask(done[..i], done[i]) >= 0
  }

  /**
   * What ends the loop cuts a run short: if the first k buffers that the loop would complete do not end it and the
   * next one does, the loop stops there with those k done; if none does, nothing changes.
   */
  lemma {:induction false} EndStops(c: Conn, chunks: seq<string>, ask: Parser, k: nat)
    requires Settled(c) && |c.done| <= k <= |Run(c, chunks, Stays(ask)).c.done|
    requires Untroubled(ask, Run(c, chunks, Stays(ask)).c.done, |c.done|, k)
    ensures var stayed, left := Run(c, chunks, Stays(ask)), Run(c, chunks, ask);
      && (k == |stayed.c.done| ==> left == stayed)
      && (k < |stayed.c.done| && ask(stayed.c.done[..k], stayed.c.done[k]) < 0 ==>
            left.Ended? && left.c.done == stayed.c.done[..k]
            && left.c.readMore == ask(stayed.c.done[..k], stayed.c.done[k]))
    decreases |chunks|, |c.persistent|
  {
    hide Cut;
    if !Over(c, chunks) {
      var was := Run(c, chunks, Stays(ask)).c.done;
      var c1 := Appended(c, chunks);
      RunTurn(c, chunks, ask);
      RunTurn(c, chunks, Stays(ask));
      CutStays(c1, ask);
      var c' := Cut(c1, At(Stays(ask), c.done)).c;
      DoneGrows(c', Remaining(c, chunks), ask);
      assert forall i :: 0 <= i < |c'.done| ==> c'.done[i] == was[i];
      assert was[..|c.done|] == c.done;
      if Cut(c1, At(ask, c.done)).Running? {
        if k < |c'.done| {
          assert k == |c.done| && ask(c.done, c'.done[k]) >= 0;
        } else {
          EndStops(c', Remaining(c, chunks), ask, k);
        }
      } else {
        assert ask(c.done, was[|c.done|]) < 0;
        assert k == |c.done|;
      }
    }
  }

  /** A stream with a command in it that ends the loop, however cut, completes exactly the commands before it. */
  lemma EndCutsStream(cmds: seq<Cmd>, k: nat, chunks: seq<string>, ask: Parser)
    requires AllWellFormed(Stays(ask), [], cmds) && Join(chunks) == JoinCmds(cmds)
    requires forall i :: 0 <= i < |chunks| ==> chunks[i] != ""
    requires k < |cmds| && ask(AllBytes(cmds[..k]), Bytes(cmds[k])) < 0
    requires forall i :: 0 <= i < k ==> ask(AllBytes(cmds[..i]), Bytes(cmds[i])) >= 0
    ensures var r := Run(START, chunks, ask);
      r.Ended? && r.c.done == AllBytes(cmds[..k]) && r.c.readMore == ask(AllBytes(cmds[..k]), Bytes(cmds[k]))
  {
    hide Run, AllWellFormed, Bytes, JoinCmds, Join;
    ChunkingIsIrrelevant(cmds, chunks, Stays(ask));
    AllBytesAt(cmds);
    forall i | 0 <= i <= k
      ensures AllBytes(cmds)[..i] == AllBytes(cmds[..i])
    {
      AllBytesPrefix(cmds, i);
    }
    EndStops(START, chunks, ask, k);
  }

  /** The parser is content with each of the commands when its turn comes. */
  lemma {:induction false} AllAnswered(ask: Parser, done: seq<string>, cmds: seq<Cmd>, i: nat)
    requires AllWellFormed(ask, done, cmds) && i < |cmds|
    ensures ask(done + AllBytes(cmds[..i]), Bytes(cmds[i])) == 0
    decreases |cmds|
  {
    hide Bytes;
    if i > 0 {
      AllAnswered(ask, done + [Bytes(cmds[0])], cmds[1..], i - 1);
      assert cmds[..i][1..] == cmds[1..][..i - 1];
      assert done + ([Bytes(cmds[0])] + AllBytes(cmds[1..][..i - 1])) ==
             (done + [Bytes(cmds[0])]) + AllBytes(cmds[1..][..i - 1]);
    } else {
      assert done + [] == done;
    }
  }

  lemma AllBytesPrefix(cmds: seq<Cmd>, k: nat)
    requires k <= |cmds|
    ensures |AllBytes(cmds)| == |cmds| && AllBytes(cmds)[..k] == AllBytes(cmds[..k])
  {
    hide Bytes, AllBytes;
    AllBytesAt(cmds);
    AllBytesSplit(cmds, k);
    AllBytesAt(cmds[..k]);
  }

  lemma {:induction false} AllBytesAt(cmds: seq<Cmd>)
    ensures |AllBytes(cmds)| == |cmds| && forall i :: 0 <= i < |cmds| ==> AllBytes(cmds)[i] == Bytes(cmds[i])
  {
    hide Bytes;
    if cmds != [] {
      AllBytesAt(cmds[1..]);
    }
  }

  // ---------- the loop ----------

  /** The part of a turn after the append: find CRLF, keep the rest aside, account for it, ask the parser. */
  method CutAndProcess(c: Conn, ask: string -> int) returns (r: Outcome)
    requires c.persistent == ""
    ensures r == Cut(c, ask)
  {
    var data, persistentData, pos, readMore, persistFlag := c.data, "", c.pos, c.readMore, c.flag;
    var oldPos := pos + 2;
    var found := Find(data, oldPos);
    if found == -1 {
      return Running(c);
    }
    pos := found;
    persistentData := data[pos + 2..];
    data := data[..pos + 2];
    if persistFlag {
      readMore := readMore - (pos - oldPos + 2);
      persistFlag := false;
    }
    if readMore > 0 {
      return Running(Conn(data, persistentData, pos, readMore, persistFlag, c.done));
    }
    readMore := ask(data);
    if readMore > 0 {
      return Running(Conn(data, persistentData, pos, readMore, persistFlag, c.done));
    } else if readMore < 0 {
      return Ended(Conn(data, persistentData, pos, readMore, persistFlag, c.done));
    }
    return Running(Conn("", persistentData, 0, readMore, persistFlag, c.done + [data]));
  }

  /** sockHandleIncomingConn: chunks are what successive recv calls deliver, ask is cmdProcessCommand's result. */
  method HandleIncomingConn(chunks: seq<string>, ask: Parser) returns (done: seq<string>, closed: bool)
    ensures done == Run(START, chunks, ask).c.done && closed == Run(START, chunks, ask).Ended?
  {
    hide Cut;
    var c, k := START, 0;
    closed := false;
    assert chunks[0..] == chunks;
    while true
      invariant 0 <= k <= |chunks| && Settled(c)
      invariant Run(c, chunks[k..], ask) == Run(START, chunks, ask)
      decreases |chunks| - k, |c.persistent|
    {
      var appended := c;
      if c.persistent != "" {
        appended := c.(data := c.data + c.persistent, persistent := "", flag := true);
      } else if k == |chunks| {
        break;
      } else if |chunks[k]| == 0 {
        closed := true;
        break;
      } else {
        appended := c.(data := c.data + chunks[k], readMore := c.readMore - |chunks[k]|);
        assert chunks[k..][1..] == chunks[k + 1..];
        k := k + 1;
      }
      var turn := CutAndProcess(appended, At(ask, c.done));
      c := turn.c;
      if turn.Ended? {
        closed := true;
        break;
      }
    }
    done := c.done;
  }
}
