/** Sending a message list piece by piece: ms_transmit of memaslap. */
module Transmit {
  import opened Machine
  import opened Messages
  import Udp

  datatype Result = Complete | Incomplete | SoftError | HardError

  /** All entries of a range point at data. */
  ghost predicate Ready(iov: seq<Iov>) {
    forall i :: 0 <= i < |iov| ==> iov[i].Slice? && Fits(iov[i])
  }

  lemma Associative<T>(a: seq<T>, b: seq<T>, c: seq<T>)
    ensures (a + b) + c == a + (b + c)
  {
  }

  lemma {:induction false} ConcatSplit(a: seq<Iov>, b: seq<Iov>)
    requires AllFit(a) && AllFit(b)
    ensures AllFit(a + b) && Concat(a + b) == Concat(a) + Concat(b)
    decreases |b|
  {
    hide Data, Concat, AllFit, Fits;
    if b == [] {
      assert a + b == a;
      NoEntries();
    } else {
      var front, last := b[..|b| - 1], b[|b| - 1];
      assert b == front + [last];
      SplitFit(front, last);
      ConcatSplit(a, front);
      Associative(a, front, [last]);
      ConcatSnoc(a + front, last);
      ConcatSnoc(front, last);
      Associative(Concat(a), Concat(front), Data(last));
    }
  }

  lemma ConcatCons(v: Iov, vs: seq<Iov>)
    requires Fits(v) && AllFit(vs)
    ensures AllFit([v] + vs) && Concat([v] + vs) == Data(v) + Concat(vs)
  {
    hide Data, Concat, AllFit, Fits;
    NoEntries();
    ConcatSnoc([], v);
    assert [] + [v] == [v] && [] + Data(v) == Data(v);
    ConcatSplit([v], vs);
  }

  lemma NoEntries()
    ensures AllFit([]) && Concat([]) == []
  {
  }

  lemma SplitFit(vs: seq<Iov>, v: Iov)
    requires AllFit(vs + [v])
    ensures AllFit(vs) && Fits(v)
  {
    assert forall i :: 0 <= i < |vs| ==> (vs + [v])[i] == vs[i];
    assert (vs + [v])[|vs|] == v;
  }

  /** The bytes message m still has to send. */
  function MsgBytes(iov: seq<Iov>, m: Msg): seq<Byte>
    requires m.at + m.iovlen <= |iov| && AllFit(iov)
  {
    Concat(iov[m.at..m.at + m.iovlen])
  }

  /** Messages lie one behind the other in the list of entries. */
  ghost predicate InLine(iov: seq<Iov>, msgs: seq<Msg>, from: nat) {
    && (forall k :: from <= k < |msgs| ==> msgs[k].at + msgs[k].iovlen <= |iov|)
    && (forall j, k :: from <= j < k < |msgs| ==> msgs[j].at + msgs[j].iovlen <= msgs[k].at)
  }

  /** What messages k and on still have to send. */
  function Pending(iov: seq<Iov>, msgs: seq<Msg>, k: nat): seq<Byte>
    requires AllFit(iov) && InLine(iov, msgs, k)
    decreases |msgs| - k
  {
    if k >= |msgs| then [] else MsgBytes(iov, msgs[k]) + Pending(iov, msgs, k + 1)
  }

  /** Later messages do not see a change to entries before them. */
  lemma {:induction false} PendingSame(iov: seq<Iov>, iov': seq<Iov>, msgs: seq<Msg>, msgs': seq<Msg>, k: nat,
                                       bound: nat)
    requires AllFit(iov) && AllFit(iov') && |iov'| == |iov| && |msgs'| == |msgs|
    requires InLine(iov, msgs, k) && InLine(iov', msgs', k)
    requires forall j :: k <= j < |msgs| ==> msgs'[j] == msgs[j] && msgs[j].at >= bound
    requires forall i :: bound <= i < |iov| ==> iov'[i] == iov[i]
    ensures Pending(iov', msgs', k) == Pending(iov, msgs, k)
    decreases |msgs| - k
  {
    hide Concat;
    if k < |msgs| {
      var m := msgs[k];
      assert iov'[m.at..m.at + m.iovlen] == iov[m.at..m.at + m.iovlen];
      PendingSame(iov, iov', msgs, msgs', k + 1, bound);
    }
  }

  /** Dropping the first entry of a message drops its bytes. */
  lemma DropEntry(iov: seq<Iov>, m: Msg)
    requires AllFit(iov) && m.iovlen > 0 && m.at + m.iovlen <= |iov|
    ensures MsgBytes(iov, m) == Data(iov[m.at]) + MsgBytes(iov, m.(at := m.at + 1, iovlen := m.iovlen - 1))
  {
    hide Concat;
    var vs := iov[m.at + 1..m.at + m.iovlen];
    assert iov[m.at..m.at + m.iovlen] == [iov[m.at]] + vs;
    ConcatCons(iov[m.at], vs);
  }

  /** Moving the start of the first entry drops that many bytes. */
  lemma AdvanceEntry(iov: seq<Iov>, m: Msg, n: nat)
    requires AllFit(iov) && m.iovlen > 0 && m.at + m.iovlen <= |iov|
    requires iov[m.at].Slice? && n <= iov[m.at].len
    ensures var v := iov[m.at]; var iov' := iov[m.at := Slice(v.buf, v.off + n, v.len - n)];
      AllFit(iov') && MsgBytes(iov, m) == Data(v)[..n] + MsgBytes(iov', m)
  {
    hide Concat;
    var v := iov[m.at];
    var v' := Slice(v.buf, v.off + n, v.len - n);
    var iov', vs := iov[m.at := v'], iov[m.at + 1..m.at + m.iovlen];
    assert iov[m.at..m.at + m.iovlen] == [v] + vs && iov'[m.at..m.at + m.iovlen] == [v'] + vs;
    ConcatCons(v, vs);
    ConcatCons(v', vs);
    assert Data(v) == Data(v)[..n] + Data(v');
  }

  class Transmitter {
    ghost const wire: seq<Byte>      // the content of the whole message list
    ghost var handed: seq<Byte>      // what the socket has accepted

    var iov: seq<Iov>
    var msgs: seq<Msg>               // msgused of them
    var msgcurr: nat

    ghost predicate Valid()
      reads this
    {
      && Ready(iov) && AllFit(iov) && msgcurr <= |msgs| && InLine(iov, msgs, msgcurr)
      && handed + Pending(iov, msgs, msgcurr) == wire
    }

    constructor (entries: seq<Iov>, messages: seq<Msg>)
      requires Ready(entries) && InLine(entries, messages, 0)
      ensures Valid() && handed == [] && wire == Pending(entries, messages, 0)
    {
      wire := Pending(entries, messages, 0);
      handed := [];
      iov, msgs, msgcurr := entries, messages, 0;
    }

    /** The message sendmsg is given, past one that has been written out. */
    function Current(): nat
      reads this
    {
      if msgcurr < |msgs| && msgs[msgcurr].iovlen == 0 then msgcurr + 1 else msgcurr
    }

    function Offered(): seq<Byte>
      reads this
      requires Ready(iov) && AllFit(iov) && InLine(iov, msgs, msgcurr)
    {
      if Current() < |msgs| then MsgBytes(iov, msgs[Current()]) else []
    }

    /**
     * ms_transmit, given what sendmsg returns: the bytes it took, or a failure that may be a full socket buffer.
     * What the socket has taken and what is pending together stay the message list.
     */
    method TransmitOnce(sent: int, wouldBlock: bool, eventSet: bool) returns (r: Result)
      requires Valid() && sent <= |Offered()|
      modifies this
      ensures Valid() && handed + Pending(iov, msgs, msgcurr) == wire
      ensures handed == old(handed) + (if sent > 0 then old(Offered())[..sent] else [])
      ensures r.Complete? <==> old(Current()) == |msgs|
      ensures r.Complete? ==> handed == wire
      ensures r.Incomplete? <==> old(Current()) < |msgs| && sent > 0
      ensures r.SoftError? <==> old(Current()) < |msgs| && sent == -1 && wouldBlock && eventSet
    {
      hide Concat;
      if msgcurr < |msgs| && msgs[msgcurr].iovlen == 0 {
        NothingLeft(iov, msgs[msgcurr]);
        msgcurr := msgcurr + 1;
      }
      if msgcurr < |msgs| {
        if sent > 0 {
          Consume(sent);
          return Incomplete;
        }
        return if sent == -1 && wouldBlock then (if eventSet then SoftError else HardError) else HardError;
      }
      return Complete;
    }

    /** Remove the completed entries of the current message, then adjust the one written in part. */
    method Consume(sent: nat)
      requires Valid() && msgcurr < |msgs| && sent <= |MsgBytes(iov, msgs[msgcurr])|
      modifies this`iov, this`msgs, this`handed
      ensures Valid() && handed == old(handed) + old(MsgBytes(iov, msgs[msgcurr]))[..sent]
      ensures |msgs| == old(|msgs|)
    {
      hide Concat, Data, Pending;
      var res, m := sent, msgs[msgcurr];
      ghost var all := MsgBytes(iov, m);
      ghost var taken: seq<Byte> := [];
      ghost var start := m.at;
      ghost var iov0, msgs0 := iov, msgs;
      while m.iovlen > 0 && res >= iov[m.at].len
        invariant iov == iov0 && msgs == msgs0 && handed == old(handed)
        invariant start <= m.at && m.at + m.iovlen == msgs[msgcurr].at + msgs[msgcurr].iovlen
        invariant m.gen == msgs[msgcurr].gen
        invariant 0 <= res && |taken| + res == sent && all == taken + MsgBytes(iov, m)
        decreases m.iovlen
      {
        DropEntry(iov, m);
        DataLength(iov[m.at]);
        taken := taken + Data(iov[m.at]);
        res := res - iov[m.at].len;
        m := m.(at := m.at + 1, iovlen := m.iovlen - 1);
      }
      if res > 0 {
        NothingLeft(iov, m);
        AdvanceEntry(iov, m, res);
        DataLength(iov[m.at]);
        taken := taken + Data(iov[m.at])[..res];
        iov := iov[m.at := Slice(iov[m.at].buf, iov[m.at].off + res, iov[m.at].len - res)];
      }
      msgs := msgs[msgcurr := m];
      assert all == taken + MsgBytes(iov, m) && |taken| == sent;
      Rest(iov0, iov, msgs0, msgs, msgcurr, handed, taken, wire);
      handed := handed + taken;
      assert taken == all[..sent];
    }
  }

  lemma DataLength(v: Iov)
    requires v.Slice? && Fits(v)
    ensures |Data(v)| == v.len
  {
  }

  lemma NothingLeft(iov: seq<Iov>, m: Msg)
    requires AllFit(iov) && m.at + m.iovlen <= |iov|
    ensures m.iovlen == 0 ==> MsgBytes(iov, m) == []
  {
  }

  /** The current message keeps its end, so the messages stay in line and later ones are untouched. */
  lemma StillInLine(iov: seq<Iov>, iov': seq<Iov>, msgs: seq<Msg>, msgs': seq<Msg>, k: nat)
    requires |iov'| == |iov| && k < |msgs| == |msgs'| && InLine(iov, msgs, k)
    requires forall j :: 0 <= j < |msgs| && j != k ==> msgs'[j] == msgs[j]
    requires msgs'[k].at + msgs'[k].iovlen == msgs[k].at + msgs[k].iovlen
    ensures InLine(iov', msgs', k) && InLine(iov', msgs', k + 1) && InLine(iov, msgs, k + 1)
    ensures forall j :: k + 1 <= j < |msgs| ==> msgs'[j] == msgs[j] && msgs[j].at >= msgs[k].at + msgs[k].iovlen
  {
  }

  lemma PendingHead(iov: seq<Iov>, msgs: seq<Msg>, k: nat)
    requires AllFit(iov) && InLine(iov, msgs, k) && k < |msgs| && InLine(iov, msgs, k + 1)
    ensures msgs[k].at + msgs[k].iovlen <= |iov|
    ensures Pending(iov, msgs, k) == MsgBytes(iov, msgs[k]) + Pending(iov, msgs, k + 1)
  {
    hide MsgBytes, AllFit;
  }

  /** Handing over taken from the current message moves it from pending to handed. */
  lemma Rest(iov: seq<Iov>, iov': seq<Iov>, msgs: seq<Msg>, msgs': seq<Msg>, k: nat, handed: seq<Byte>,
             taken: seq<Byte>, wire: seq<Byte>)
    requires AllFit(iov) && AllFit(iov') && |iov'| == |iov| && k < |msgs| == |msgs'|
    requires InLine(iov, msgs, k) && handed + Pending(iov, msgs, k) == wire
    requires forall j :: 0 <= j < |msgs| && j != k ==> msgs'[j] == msgs[j]
    requires msgs[k].at + msgs[k].iovlen <= |iov|
    requires msgs'[k].at + msgs'[k].iovlen == msgs[k].at + msgs[k].iovlen
    requires forall i :: msgs[k].at + msgs[k].iovlen <= i < |iov| ==> iov'[i] == iov[i]
    requires MsgBytes(iov, msgs[k]) == taken + MsgBytes(iov', msgs'[k])
    ensures InLine(iov', msgs', k) && handed + taken + Pending(iov', msgs', k) == wire
  {
    hide MsgBytes, InLine, Pending, AllFit;
    StillInLine(iov, iov', msgs, msgs', k);
    PendingSame(iov, iov', msgs, msgs', k + 1, msgs[k].at + msgs[k].iovlen);
    PendingHead(iov, msgs, k);
    PendingHead(iov', msgs', k);
    Reassociate(handed, taken, MsgBytes(iov', msgs'[k]), Pending(iov, msgs, k + 1));
  }

  lemma Reassociate(h: seq<Byte>, t: seq<Byte>, a: seq<Byte>, b: seq<Byte>)
    ensures h + ((t + a) + b) == h + t + (a + b)
  {
  }

  // ---------- from assembly to transmission ----------

  /** Message k of an assembled list lies where the counts of the messages before it say. */
  ghost predicate Consecutive(live: seq<Iov>, msgs: seq<Msg>) {
    AllFit(live) && (forall k :: 0 <= k < |msgs| ==> AtBefore(msgs, k)) && Before(msgs, |msgs|) == |live|
  }

  ghost predicate AtBefore(msgs: seq<Msg>, k: nat)
    requires k < |msgs|
  {
    msgs[k].at == Before(msgs, k)
  }

  lemma ConsecutiveInLine(live: seq<Iov>, msgs: seq<Msg>)
    requires Consecutive(live, msgs)
    ensures InLine(live, msgs, 0)
  {
    hide Concat;
    forall k | 0 <= k < |msgs|
      ensures msgs[k].at + msgs[k].iovlen <= |live|
    {
      assert AtBefore(msgs, k);
      BeforeMonotone(msgs, k + 1, |msgs|);
    }
    forall j, k | 0 <= j < k < |msgs|
      ensures msgs[j].at + msgs[j].iovlen <= msgs[k].at
    {
      assert AtBefore(msgs, j) && AtBefore(msgs, k);
      BeforeMonotone(msgs, j + 1, k);
    }
  }

  lemma {:induction false} PendingIsRest(live: seq<Iov>, msgs: seq<Msg>, k: nat)
    requires Consecutive(live, msgs) && InLine(live, msgs, k) && k <= |msgs|
    ensures Before(msgs, k) <= |live| && Pending(live, msgs, k) == Concat(live[Before(msgs, k)..])
    decreases |msgs| - k
  {
    hide Concat;
    BeforeMonotone(msgs, k, |msgs|);
    if k == |msgs| {
      NoEntries();
    } else {
      var here, next := Before(msgs, k), Before(msgs, k + 1);
      assert AtBefore(msgs, k);
      PendingIsRest(live, msgs, k + 1);
      ConcatSplit(live[here..next], live[next..]);
      assert live[here..] == live[here..next] + live[next..];
    }
  }

  lemma {:induction false} SlicesBefore(live: seq<Iov>, gen: nat, msgs: seq<Msg>, used: nat, msgbytes: nat,
                                        appended: seq<Byte>, k: nat)
    requires Built(false, live, gen, msgs, used, msgbytes, appended, false) && k <= used
    ensures Before(msgs, k) <= |live| && forall i :: 0 <= i < Before(msgs, k) ==> live[i].Slice?
  {
    hide Concat, Size, Fits;
    if k > 0 {
      SlicesBefore(live, gen, msgs, used, msgbytes, appended, k - 1);
      assert PlacedAt(msgs, k - 1, gen);
      var vs := Entries(live, msgs, k - 1);
      assert GoodMessage(false, vs);
      assert forall i :: Before(msgs, k - 1) <= i < Before(msgs, k) ==> live[i] == vs[i - Before(msgs, k - 1)];
    }
  }

  /**
   * A TCP list that the appends assembled is one ms_transmit can send, and what it will send is what was
   * appended, in order.
   */
  lemma AssembledIsSent(live: seq<Iov>, gen: nat, msgs: seq<Msg>, used: nat, msgbytes: nat, appended: seq<Byte>)
    requires Built(false, live, gen, msgs, used, msgbytes, appended, false)
    ensures Ready(live) && InLine(live, msgs[..used], 0) && Pending(live, msgs[..used], 0) == appended
  {
    hide Concat, Size;
    var list := msgs[..used];
    SlicesBefore(live, gen, msgs, used, msgbytes, appended, used);
    forall k | 0 <= k <= used
      ensures Before(list, k) == Before(msgs, k)
    {
      BeforeSame(list, msgs, k);
    }
    forall k | 0 <= k < used
      ensures AtBefore(list, k)
    {
      assert PlacedAt(msgs, k, gen);
    }
    ConsecutiveInLine(live, list);
    PendingIsRest(live, list, 0);
    assert live[0..] == live;
  }

  /** The slot in front of an assembled message holds none of what was appended. */
  lemma SlotFilled(live: seq<Iov>, h: seq<Byte>)
    requires AllFit(live) && live != [] && live[0].Reserved? && |h| == HEADER
    ensures var filled := live[0 := Slice(h, 0, HEADER)];
      AllFit(filled) && Concat(filled) == h + Concat(live)
  {
    hide Concat;
    var filled, rest := live[0 := Slice(h, 0, HEADER)], live[1..];
    assert live == [live[0]] + rest && filled == [filled[0]] + rest;
    ConcatCons(live[0], rest);
    ConcatCons(filled[0], rest);
    assert Data(filled[0]) == h && [] + Concat(rest) == Concat(rest);
  }

  /**
   * A UDP message that the appends assembled, with its header filled in, is one ms_transmit can send: the header
   * followed by what was appended, within the MTU, which a reader takes for packet 0 of 1 with that payload.
   */
  lemma UdpRequestIsSent(live: seq<Iov>, gen: nat, msgs: seq<Msg>, msgbytes: nat, appended: seq<Byte>, requestId: Word)
    requires Built(true, live, gen, msgs, 1, msgbytes, appended, false)
    ensures live != []
    ensures var h, filled := HeaderBytes(requestId, 0, 1), live[0 := Slice(HeaderBytes(requestId, 0, 1), 0, HEADER)];
      && Ready(filled) && InLine(filled, msgs[..1], 0) && Pending(filled, msgs[..1], 0) == h + appended
      && |h + appended| <= MTU && Udp.Holds(h + appended, 0, 0, 1, appended)
  {
    hide Concat, Size, HeaderBytes, Udp.Holds, Built;
    var h := HeaderBytes(requestId, 0, 1);
    OnlyMessage(live, gen, msgs, msgbytes, appended);
    var filled := live[0 := Slice(h, 0, HEADER)];
    SlotFilled(live, h);
    SizeOfContents(live);
    PendingOne(filled, msgs[..1]);
    HeaderHolds(requestId, appended);
  }

  /** The only message of a list is the whole list. */
  lemma OnlyMessage(live: seq<Iov>, gen: nat, msgs: seq<Msg>, msgbytes: nat, appended: seq<Byte>)
    requires Built(true, live, gen, msgs, 1, msgbytes, appended, false)
    ensures |msgs| >= 1 && msgs[0].at == 0 && msgs[0].iovlen == |live| && AllFit(live) && Concat(live) == appended
    ensures live != [] && live[0].Reserved? && Size(live) <= MTU && forall i :: 0 < i < |live| ==> live[i].Slice?
  {
    hide Concat, Size, Fits;
    assert PlacedAt(msgs, 0, gen) && Before(msgs, 1) == |live|;
    assert Entries(live, msgs, 0) == live;
    assert GoodMessage(true, Entries(live, msgs, 0));
  }

  lemma PendingOne(iov: seq<Iov>, msgs: seq<Msg>)
    requires AllFit(iov) && |msgs| == 1 && msgs[0].at == 0 && msgs[0].iovlen == |iov|
    ensures InLine(iov, msgs, 0) && Pending(iov, msgs, 0) == Concat(iov)
  {
    hide Concat;
    assert iov[0..|iov|] == iov;
    assert Pending(iov, msgs, 1) == [] && Concat(iov) + [] == Concat(iov);
  }

  lemma HeaderHolds(requestId: Word, payload: seq<Byte>)
    ensures Udp.Holds(HeaderBytes(requestId, 0, 1) + payload, 0, 0, 1, payload)
  {
    var h := HeaderBytes(requestId, 0, 1);
    assert h[2] == 0 && h[3] == 0 && h[4] == 0 && h[5] == 1;
    hide HeaderBytes;
    FieldsHold(h, payload);
  }

  lemma FieldsHold(h: seq<Byte>, payload: seq<Byte>)
    requires |h| == HEADER && h[2] == 0 && h[3] == 0 && h[4] == 0 && h[5] == 1
    ensures Udp.Holds(h + payload, 0, 0, 1, payload)
  {
    var buf := h + payload;
    assert buf[2] == 0 && buf[3] == 0 && buf[4] == 0 && buf[5] == 1;
    assert buf[HEADER..HEADER + |payload|] == payload;
  }

  /** A header slot and slices take up the header and the bytes of the slices. */
  lemma {:induction false} SizeOfContents(live: seq<Iov>)
    requires AllFit(live) && live != [] && live[0].Reserved? && forall i :: 0 < i < |live| ==> live[i].Slice?
    ensures Size(live) == HEADER + |Concat(live)|
  {
    var front := live[..|live| - 1];
    if front != [] {
      SizeOfContents(front);
    }
  }

  function Flatten(bufs: seq<seq<Byte>>): seq<Byte> {
    if bufs == [] then [] else Flatten(bufs[..|bufs| - 1]) + bufs[|bufs| - 1]
  }

  /** A request small enough for one datagram: an entry and the bytes for the header are left, and no empty end. */
  ghost predicate OneDatagram(bufs: seq<seq<Byte>>) {
    && |bufs| < IOV_MAX && |Flatten(bufs)| <= MTU - HEADER
    && (|Flatten(bufs)| == MTU - HEADER ==> bufs[|bufs| - 1] != [])
  }

  /**
   * A UDP request as memaslap builds it: a fresh list, its first message, the buffers one by one, the header. It is
   * accepted exactly when it is small enough for one datagram, and will be sent as its header and its buffers.
   */
  method BuildUdpRequest(bufs: seq<seq<Byte>>, requestId: Word) returns (iov: seq<Iov>, msgs: seq<Msg>, ok: bool)
    ensures ok <==> OneDatagram(bufs)
    ensures ok ==>
      && Ready(iov) && InLine(iov, msgs, 0)
      && Pending(iov, msgs, 0) == HeaderBytes(requestId, 0, 1) + Flatten(bufs)
  {
    hide Built, Concat, Size, HeaderBytes, Pending, InLine;
    var sender := new Sender(true, 400, 10);
    sender.AddMsghdr();
    var i := 0;
    while i < |bufs|
      invariant 0 <= i <= |bufs| && fresh(sender) && sender.Valid() && sender.udp && sender.msgused <= |sender.msgs|
      invariant sender.appended == Flatten(bufs[..i])
      invariant sender.msgused >= 1 && (sender.msgused == 1 <==> OneDatagram(bufs[..i]))
      invariant sender.msgused == 1 ==>
        sender.msgs[0].iovlen == i + 1 && sender.msgbytes == HEADER + |Flatten(bufs[..i])|
    {
      assert bufs[..i + 1][..i] == bufs[..i];
      sender.AddIov(bufs[i]);
      i := i + 1;
    }
    assert bufs[..|bufs|] == bufs;
    ghost var live := sender.iov[..sender.iovused];
    if sender.msgused == 1 {
      UdpRequestIsSent(live, sender.gen, sender.msgs, sender.msgbytes, sender.appended, requestId);
    }
    ok := sender.BuildUdpHeaders(requestId);
    iov, msgs := sender.iov[..sender.iovused], sender.msgs[..sender.msgused];
    if ok {
      assert iov == live[0 := Slice(HeaderBytes(requestId, 0, 1), 0, HEADER)];
    }
  }
}
