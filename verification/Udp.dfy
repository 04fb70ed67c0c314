/** Reassembly of UDP datagrams that arrive in any order, ms_sort_udp_packet of memaslap. */
module Udp {
  import opened Machine

  const PAYLOAD: nat := 1400       // UDP_MAX_PAYLOAD_SIZE
  const HEADER: nat := 8           // UDP_HEADER_SIZE
  const ROOM: nat := 1392          // payload bytes of a full datagram
  const MAX_PACKETS: nat := 0x1_0000
  const CAPACITY: nat := 0x10_0000 // UDP_DATA_BUFFER_SIZE

  /**
   * header and data pointers as the allocation of rudpbuf they point into and the number of the datagram there, -1
   * for NULL.
   */
  datatype Packet = Packet(gen: nat, slot: int, rbytes: nat, copybytes: nat)

  const NO_PACKET := Packet(0, -1, 0, 0)

  function Join(parts: seq<seq<Byte>>): seq<Byte> {
    if parts == [] then [] else Join(parts[..|parts| - 1]) + parts[|parts| - 1]
  }

  /** What has been delivered when ord packets are complete and copy bytes of the next one have gone out. */
  function DeliveredAt(sent: seq<seq<Byte>>, ord: nat, copy: nat): seq<Byte>
    requires ord <= |sent| && (ord < |sent| ==> copy <= |sent[ord]|)
  {
    Join(sent[..ord]) + (if ord < |sent| then sent[ord][..copy] else [])
  }

  lemma {:induction false} JoinPrefix(parts: seq<seq<Byte>>, n: nat)
    requires n <= |parts|
    ensures Join(parts[..n]) <= Join(parts)
    decreases |parts|
  {
    if n < |parts| {
      var front := parts[..|parts| - 1];
      JoinPrefix(front, n);
      assert front[..n] == parts[..n];
    } else {
      assert parts[..n] == parts;
    }
  }

  /** Whatever has been delivered is a prefix of the payloads joined in sequence order. */
  lemma DeliveredIsPrefix(sent: seq<seq<Byte>>, ord: nat, copy: nat)
    requires ord <= |sent| && (ord < |sent| ==> copy <= |sent[ord]|)
    ensures DeliveredAt(sent, ord, copy) <= Join(sent)
  {
    if ord < |sent| {
      JoinPrefix(sent, ord + 1);
      assert sent[..ord + 1][..ord] == sent[..ord];
    } else {
      assert sent[..ord] == sent;
    }
  }

  /** Two header bytes, most significant first. */
  function Pair(hi: int, lo: int): int {
    hi * 256 + lo
  }

  /** The datagram in the given slot carries this sequence number, packet count and payload. */
  predicate Holds(buf: seq<Byte>, slot: nat, seqNum: nat, total: nat, payload: seq<Byte>) {
    var at := slot * PAYLOAD;
    && at + HEADER + |payload| <= |buf|
    && Pair(buf[at + 2], buf[at + 3]) == seqNum
    && Pair(buf[at + 4], buf[at + 5]) == total
    && buf[at + HEADER..at + HEADER + |payload|] == payload
  }

  lemma HoldsBefore(buf: seq<Byte>, d: seq<Byte>, slot: nat, seqNum: nat, total: nat, payload: seq<Byte>)
    requires Holds(buf, slot, seqNum, total, payload)
    ensures Holds(buf + d, slot, seqNum, total, payload)
  {
    var lo, hi := slot * PAYLOAD + HEADER, slot * PAYLOAD + HEADER + |payload|;
    assert (buf + d)[lo..hi] == buf[lo..hi];
  }

  lemma HoldsBehind(buf: seq<Byte>, d: seq<Byte>, slot: nat, seqNum: nat, total: nat, payload: seq<Byte>)
    requires |buf| == slot * PAYLOAD && Holds(d, 0, seqNum, total, payload)
    ensures Holds(buf + d, slot, seqNum, total, payload)
  {
    assert (buf + d)[|buf| + HEADER..|buf| + HEADER + |payload|] == d[HEADER..HEADER + |payload|];
  }

  /** Packets of a message: all full but perhaps the last. */
  ghost predicate Message(sent: seq<seq<Byte>>) {
    && 0 < |sent| < MAX_PACKETS
    && (forall s :: 0 <= s < |sent| - 1 ==> |sent[s]| == ROOM)
    && |sent[|sent| - 1]| <= ROOM
  }

  /** The order of arrival: distinct numbers, and a short datagram only as the last of all. */
  ghost predicate Arrival(sent: seq<seq<Byte>>, arrivals: seq<nat>) {
    && (forall i :: 0 <= i < |arrivals| ==> arrivals[i] < |sent|)
    && (forall i, j :: 0 <= i < j < |arrivals| ==> arrivals[i] != arrivals[j])
    && (forall i :: 0 <= i < |arrivals| && |sent[arrivals[i]]| < ROOM ==> i == |arrivals| - 1 && |arrivals| == |sent|)
  }

  /** No more datagrams arrive than were sent. */
  lemma ArrivalsBounded(sent: seq<seq<Byte>>, arrivals: seq<nat>)
    requires forall i :: 0 <= i < |arrivals| ==> arrivals[i] < |sent|
    requires forall i, j :: 0 <= i < j < |arrivals| ==> arrivals[i] != arrivals[j]
    ensures |arrivals| <= |sent|
  {
    DistinctBelow(arrivals, |sent|);
  }

  lemma {:induction false} DistinctBelow(xs: seq<nat>, n: nat)
    requires forall i :: 0 <= i < |xs| ==> xs[i] < n
    requires forall i, j :: 0 <= i < j < |xs| ==> xs[i] != xs[j]
    ensures |xs| <= n
  {
    if xs != [] {
      assert xs[0] < n;
      if k :| 0 <= k < |xs| && xs[k] == n - 1 {
        var rest := xs[..k] + xs[k + 1..];
        assert forall i :: 0 <= i < |rest| ==> rest[i] == xs[if i < k then i else i + 1];
        DistinctBelow(rest, n - 1);
      } else {
        DistinctBelow(xs, n - 1);
      }
    }
  }

  /** The number of bytes the datagrams take up in rudpbuf. */
  ghost function Received(sent: seq<seq<Byte>>, arrivals: seq<nat>): nat
    requires forall i :: 0 <= i < |arrivals| ==> arrivals[i] < |sent|
  {
    if arrivals == [] then 0 else (|arrivals| - 1) * PAYLOAD + HEADER + |sent[arrivals[|arrivals| - 1]]|
  }

  /** rudpbuf holds the datagrams in the order they arrived. */
  ghost predicate Buffered(sent: seq<seq<Byte>>, arrivals: seq<nat>, buf: seq<Byte>) {
    && Message(sent) && Arrival(sent, arrivals)
    && |buf| == Received(sent, arrivals)
    && forall j :: 0 <= j < |arrivals| ==> Holds(buf, j, arrivals[j], |sent|, sent[arrivals[j]])
  }

  /** The packet array knows where the first seen datagrams are, and of nothing else. */
  ghost predicate Tabled(sent: seq<seq<Byte>>, arrivals: seq<nat>, seen: nat, table: seq<Packet>) {
    && |table| == MAX_PACKETS && |sent| < MAX_PACKETS && seen <= |arrivals|
    && (forall j :: 0 <= j < seen ==> arrivals[j] < |sent|)
    && (forall j :: 0 <= j < seen ==> table[arrivals[j]].slot == j && table[arrivals[j]].rbytes == |sent[arrivals[j]]|)
    && (forall s :: 0 <= s < MAX_PACKETS ==>
          table[s] == NO_PACKET || (0 <= table[s].slot < seen && arrivals[table[s].slot] == s))
  }

  /** Everything before ordcurr is out, part of ordcurr may be, nothing behind it is. */
  ghost predicate InOrder(sent: seq<seq<Byte>>, table: seq<Packet>, ordcurr: nat, delivered: seq<Byte>) {
    && |table| == MAX_PACKETS && ordcurr <= |sent| < MAX_PACKETS
    && (forall s :: 0 <= s < ordcurr ==> |sent[s]| == ROOM)
    && (forall s :: ordcurr < s < |sent| ==> table[s].copybytes == 0)
    && (ordcurr < |sent| ==> table[ordcurr].copybytes <= |sent[ordcurr]| &&
                             (|sent[ordcurr]| == ROOM ==> table[ordcurr].copybytes < ROOM))
    && delivered == DeliveredAt(sent, ordcurr, if ordcurr < |sent| then table[ordcurr].copybytes else 0)
  }

  lemma BufferedGrows(sent: seq<seq<Byte>>, arrivals: seq<nat>, buf: seq<Byte>, d: seq<Byte>, seqNum: nat)
    requires Buffered(sent, arrivals, buf)
    requires seqNum < |sent| && seqNum !in arrivals && Holds(d, 0, seqNum, |sent|, sent[seqNum])
    requires |d| == HEADER + |sent[seqNum]|
    requires |sent[seqNum]| < ROOM ==> |arrivals| == |sent| - 1
    ensures Buffered(sent, arrivals + [seqNum], buf + d)
  {
    hide Holds;
    ArrivalsBounded(sent, arrivals + [seqNum]);
    forall j | 0 <= j < |arrivals|
      ensures Holds(buf + d, j, arrivals[j], |sent|, sent[arrivals[j]])
    {
      HoldsBefore(buf, d, j, arrivals[j], |sent|, sent[arrivals[j]]);
    }
    HoldsBehind(buf, d, |arrivals|, seqNum, |sent|, sent[seqNum]);
  }

  /** How many datagrams take up n bytes, as the code counts them. */
  function DatagramCount(n: nat): nat {
    if n % PAYLOAD >= HEADER then n / PAYLOAD + 1 else n / PAYLOAD
  }

  /** Datagram j of recv in n bytes is taken to be full unless it is the last and n is no multiple of the size. */
  predicate TakenFull(n: nat, j: nat, recv: nat) {
    j != recv - 1 || n % PAYLOAD == 0
  }

  /** The payload length the code infers. */
  function Inferred(n: nat, j: nat, recv: nat): int {
    if TakenFull(n, j, recv) then ROOM else n % PAYLOAD - HEADER
  }

  /** The code's count of datagrams from the number of bytes is right. */
  lemma CountFromBytes(sent: seq<seq<Byte>>, arrivals: seq<nat>, buf: seq<Byte>)
    requires Buffered(sent, arrivals, buf) && arrivals != []
    ensures var n := |buf|; var last := |sent[arrivals[|arrivals| - 1]]|;
      && |arrivals| == DatagramCount(n)
      && (n % PAYLOAD == 0 <==> last == ROOM) && (last < ROOM ==> n % PAYLOAD - HEADER == last)
      && n >= HEADER
  {
    hide Holds;
    assert |sent[arrivals[|arrivals| - 1]]| <= ROOM;
  }

  /** While a datagram is missing, none of those that arrived is short. */
  lemma StillToCome(sent: seq<seq<Byte>>, arrivals: seq<nat>, buf: seq<Byte>, seqNum: nat)
    requires Buffered(sent, arrivals, buf) && seqNum < |sent| && seqNum !in arrivals
    ensures forall i :: 0 <= i < |arrivals| ==> arrivals[i] < |sent| && |sent[arrivals[i]]| >= ROOM
  {
    hide Holds;
    ArrivalsBounded(sent, arrivals + [seqNum]);
  }

  /** With as many arrivals as packets, every packet is known to the packet array. */
  lemma AllKnown(sent: seq<seq<Byte>>, arrivals: seq<nat>, buf: seq<Byte>, seen: nat, table: seq<Packet>, s: nat)
    requires Buffered(sent, arrivals, buf) && Tabled(sent, arrivals, seen, table)
    requires seen == |arrivals| == |sent| && s < |sent|
    ensures table[s].slot != -1 && table[s].rbytes == |sent[s]|
  {
    hide Holds;
    if s !in arrivals {
      ArrivalsBounded(sent, arrivals + [s]);
    } else {
      var j :| 0 <= j < |arrivals| && arrivals[j] == s;
    }
  }

  /** Entering the next datagram into the packet array. */
  lemma TabledGrows(sent: seq<seq<Byte>>, arrivals: seq<nat>, seen: nat, table: seq<Packet>, gen: nat)
    requires Arrival(sent, arrivals) && Tabled(sent, arrivals, seen, table) && seen < |arrivals|
    ensures table[arrivals[seen]] == NO_PACKET
    ensures var s := arrivals[seen];
      Tabled(sent, arrivals, seen + 1, table[s := table[s].(gen := gen, slot := seen, rbytes := |sent[s]|)])
  {
  }

  /** Entering an unseen datagram, or the last one again, leaves the delivery state alone. */
  lemma InOrderStays(sent: seq<seq<Byte>>, table: seq<Packet>, ordcurr: nat, delivered: seq<Byte>, s: nat,
                     gen: nat, slot: int, rbytes: nat)
    requires InOrder(sent, table, ordcurr, delivered) && s < MAX_PACKETS
    ensures InOrder(sent, table[s := table[s].(gen := gen, slot := slot, rbytes := rbytes)], ordcurr, delivered)
  {
  }

  /** What the code reads from the header of datagram j, and the payload length it infers. */
  lemma HeaderRead(sent: seq<seq<Byte>>, arrivals: seq<nat>, buf: seq<Byte>, j: nat)
    requires Buffered(sent, arrivals, buf) && j < |arrivals|
    ensures arrivals[j] < |sent| < MAX_PACKETS
    ensures j * PAYLOAD + HEADER <= |buf|
    ensures Pair(buf[j * PAYLOAD + 2], buf[j * PAYLOAD + 3]) == arrivals[j]
    ensures Pair(buf[j * PAYLOAD + 4], buf[j * PAYLOAD + 5]) == |sent|
    ensures |sent[arrivals[j]]| <= ROOM
    ensures TakenFull(|buf|, j, |arrivals|) <==> |sent[arrivals[j]]| == ROOM
    ensures !TakenFull(|buf|, j, |arrivals|) ==> j == |arrivals| - 1
    ensures |sent[arrivals[j]]| == Inferred(|buf|, j, |arrivals|)
  {
    CountFromBytes(sent, arrivals, buf);
  }

  /** The last datagram, when short, may be entered a second time: only its pointers change. */
  lemma EnteredAgain(sent: seq<seq<Byte>>, arrivals: seq<nat>, seen: nat, table: seq<Packet>, gen: nat)
    requires Tabled(sent, arrivals, seen, table) && seen > 0
    ensures var s := arrivals[seen - 1];
      Tabled(sent, arrivals, seen, table[s := table[s].(gen := gen, slot := seen - 1, rbytes := |sent[s]|)])
  {
  }

  /** The packet array once the datagrams from number i on have been entered. */
  ghost function Entered(sent: seq<seq<Byte>>, arrivals: seq<nat>, gen: nat, table: seq<Packet>, i: nat): seq<Packet>
    decreases |arrivals| - i
  {
    if i < |arrivals| && arrivals[i] < |sent| && arrivals[i] < |table| then
      var s := arrivals[i];
      Entered(sent, arrivals, gen, table[s := table[s].(gen := gen, slot := i, rbytes := |sent[s]|)], i + 1)
    else table
  }

  lemma EnteredNext(sent: seq<seq<Byte>>, arrivals: seq<nat>, gen: nat, table: seq<Packet>, i: nat)
    requires i < |arrivals| && arrivals[i] < |sent| && arrivals[i] < |table|
    ensures var s := arrivals[i];
      Entered(sent, arrivals, gen, table, i) ==
      Entered(sent, arrivals, gen, table[s := table[s].(gen := gen, slot := i, rbytes := |sent[s]|)], i + 1)
  {
  }

  lemma EnteredAll(sent: seq<seq<Byte>>, arrivals: seq<nat>, gen: nat, table: seq<Packet>)
    ensures Entered(sent, arrivals, gen, table, |arrivals|) == table
  {
  }

  // ---------- what the copy loop hands out ----------

  /** What the freed allocations of rudpbuf hold, by allocation and offset. */
  type Freed = (nat, nat) -> Byte

  predicate Pending(p: Packet) {
    p.slot >= 0 && p.copybytes < p.rbytes
  }

  /** Bytes are left to copy through pointers into an allocation that is gone. */
  predicate Stale(p: Packet, gen: nat) {
    Pending(p) && p.gen != gen
  }

  /** memcpy of len bytes from where the packet's pointers point. */
  function Fetch(p: Packet, gen: nat, buf: seq<Byte>, freed: Freed, len: nat): (piece: seq<Byte>)
    requires p.slot >= 0
    ensures |piece| == len
  {
    var at := p.slot * PAYLOAD + HEADER + p.copybytes;
    if p.gen == gen && at + len <= |buf| then buf[at..at + len] else seq(len, k requires 0 <= k => freed(p.gen, at + k))
  }

  /** The bytes of the copy loop, from packet i on, into space bytes. */
  function Output(table: seq<Packet>, gen: nat, buf: seq<Byte>, freed: Freed, i: nat, recv: nat, space: nat): seq<Byte>
    decreases recv - i
  {
    if i < recv && i < |table| && Pending(table[i]) then
      var left := table[i].rbytes - table[i].copybytes;
      if left < space then
        Fetch(table[i], gen, buf, freed, left) + Output(table, gen, buf, freed, i + 1, recv, space - left)
      else Fetch(table[i], gen, buf, freed, space)
    else []
  }

  /** The bytes it should hand out. */
  function Right(table: seq<Packet>, sent: seq<seq<Byte>>, i: nat, recv: nat, space: nat): seq<Byte>
    decreases recv - i
  {
    if i < recv && i < |table| && i < |sent| && Pending(table[i]) && table[i].rbytes == |sent[i]| then
      var p := table[i];
      if p.rbytes - p.copybytes < space then
        sent[i][p.copybytes..] + Right(table, sent, i + 1, recv, space - (p.rbytes - p.copybytes))
      else sent[i][p.copybytes..p.copybytes + space]
    else []
  }

  /** The loop comes to a packet whose pointers are stale, with room to copy from it. */
  predicate Exposed(table: seq<Packet>, gen: nat, i: nat, recv: nat, space: nat)
    decreases recv - i
  {
    && i < recv && i < |table| && Pending(table[i]) && space > 0
    && (table[i].gen != gen ||
        (table[i].rbytes - table[i].copybytes < space
         && Exposed(table, gen, i + 1, recv, space - (table[i].rbytes - table[i].copybytes))))
  }

  function LeftOver(table: seq<Packet>, i: nat, s: nat): nat
    requires i <= s <= |table|
    decreases s - i
  {
    if i == s then 0
    else (if Pending(table[i]) then table[i].rbytes - table[i].copybytes else 0) + LeftOver(table, i + 1, s)
  }

  /** Every packet from i to s has bytes left, and those before s leave some of the space. */
  ghost predicate Reaches(table: seq<Packet>, i: nat, s: nat, space: nat)
    requires i <= s <= |table|
  {
    (forall j :: i <= j < s ==> Pending(table[j])) && LeftOver(table, i, s) < space
  }

  ghost predicate ExposedAt(table: seq<Packet>, gen: nat, i: nat, recv: nat, space: nat, s: nat) {
    i <= s < recv && s < |table| && Stale(table[s], gen) && Reaches(table, i, s, space)
  }

  /** In one look: some stale packet is reached through packets that have all arrived and leave room for it. */
  lemma {:induction false} ExposedIff(table: seq<Packet>, gen: nat, i: nat, recv: nat, space: nat)
    ensures Exposed(table, gen, i, recv, space) <==> exists s :: ExposedAt(table, gen, i, recv, space, s)
    decreases recv - i
  {
    if i < recv && i < |table| && Pending(table[i]) && space > 0 {
      var left := table[i].rbytes - table[i].copybytes;
      if table[i].gen != gen {
        assert ExposedAt(table, gen, i, recv, space, i);
      } else {
        if left < space {
          var next: nat, rest: nat := i + 1, space - left;
          ExposedIff(table, gen, next, recv, rest);
          if s: nat :| ExposedAt(table, gen, next, recv, rest, s) {
            ExposedNext(table, gen, i, recv, space, s);
          }
        }
        forall s: nat | ExposedAt(table, gen, i, recv, space, s)
          ensures left < space && ExposedAt(table, gen, i + 1, recv, space - left, s)
        {
          ExposedNext(table, gen, i, recv, space, s);
        }
      }
    } else {
      forall s
        ensures !ExposedAt(table, gen, i, recv, space, s)
      {
        NotExposedAt(table, gen, i, recv, space, s);
      }
    }
  }

  lemma NotExposedAt(table: seq<Packet>, gen: nat, i: nat, recv: nat, space: nat, s: nat)
    requires i >= recv || i >= |table| || !Pending(table[i]) || space == 0
    ensures !ExposedAt(table, gen, i, recv, space, s)
  {
  }

  lemma ExposedNext(table: seq<Packet>, gen: nat, i: nat, recv: nat, space: nat, s: nat)
    requires i < recv && i < |table| && Pending(table[i]) && table[i].gen == gen
    ensures var left := table[i].rbytes - table[i].copybytes;
      ExposedAt(table, gen, i, recv, space, s) <==>
      left < space && ExposedAt(table, gen, i + 1, recv, space - left, s)
  {
  }

  /** Whatever is still to be copied is in the buffer, where its packet's slot says. */
  ghost predicate Backed(sent: seq<seq<Byte>>, buf: seq<Byte>, table: seq<Packet>) {
    forall s :: 0 <= s < |table| && Pending(table[s]) ==> BackedAt(sent, buf, table[s], s)
  }

  ghost predicate BackedAt(sent: seq<seq<Byte>>, buf: seq<Byte>, p: Packet, s: nat)
    requires p.slot >= 0
  {
    var at := p.slot * PAYLOAD + HEADER;
    s < |sent| && p.rbytes == |sent[s]| && at + p.rbytes <= |buf| && buf[at..at + p.rbytes] == sent[s]
  }

  lemma TabledBacked(sent: seq<seq<Byte>>, arrivals: seq<nat>, buf: seq<Byte>, seen: nat, table: seq<Packet>)
    requires Buffered(sent, arrivals, buf) && Tabled(sent, arrivals, seen, table)
    ensures Backed(sent, buf, table)
  {
    forall s | 0 <= s < |table| && Pending(table[s])
      ensures BackedAt(sent, buf, table[s], s)
    {
      assert Holds(buf, table[s].slot, s, |sent|, sent[s]);
    }
  }

  /** Through good pointers memcpy takes the bytes of the packet itself. */
  lemma FetchRight(sent: seq<seq<Byte>>, buf: seq<Byte>, p: Packet, s: nat, freed: Freed, len: nat)
    requires Pending(p) && BackedAt(sent, buf, p, s) && p.copybytes + len <= p.rbytes
    ensures Fetch(p, p.gen, buf, freed, len) == sent[s][p.copybytes..p.copybytes + len]
  {
    SliceOfSlice(buf, p.slot * PAYLOAD + HEADER, p.rbytes, p.copybytes, len);
  }

  lemma {:induction false} OutputLength(sent: seq<seq<Byte>>, buf: seq<Byte>, table: seq<Packet>, gen: nat,
                                        freed: Freed, i: nat, recv: nat, space: nat)
    requires Backed(sent, buf, table)
    ensures |Output(table, gen, buf, freed, i, recv, space)| == |Right(table, sent, i, recv, space)| <= space
    decreases recv - i
  {
    hide Fetch;
    if i < recv && i < |table| && Pending(table[i]) {
      assert BackedAt(sent, buf, table[i], i);
      var left := table[i].rbytes - table[i].copybytes;
      if left < space {
        OutputLength(sent, buf, table, gen, freed, i + 1, recv, space - left);
      }
    }
  }

  /** With no stale packet in reach, the bytes handed out are the right ones, whatever freed memory holds. */
  lemma {:induction false} OutputRight(sent: seq<seq<Byte>>, buf: seq<Byte>, table: seq<Packet>, gen: nat, freed: Freed,
                                       i: nat, recv: nat, space: nat)
    requires Backed(sent, buf, table) && !Exposed(table, gen, i, recv, space)
    ensures Output(table, gen, buf, freed, i, recv, space) == Right(table, sent, i, recv, space)
    decreases recv - i
  {
    hide Fetch;
    if i < recv && i < |table| && Pending(table[i]) && space > 0 {
      assert BackedAt(sent, buf, table[i], i);
      var p := table[i];
      var left := p.rbytes - p.copybytes;
      FetchRight(sent, buf, p, i, freed, if left < space then left else space);
      if left < space {
        OutputRight(sent, buf, table, gen, freed, i + 1, recv, space - left);
        assert sent[i][p.copybytes..p.copybytes + left] == sent[i][p.copybytes..];
      }
    } else {
      OutputLength(sent, buf, table, gen, freed, i, recv, space);
    }
  }

  function OtherThan(b: Byte): (freed: Freed)
    ensures forall g, o :: freed(g, o) != b
  {
    var x: nat := b;
    (g: nat, o: nat) => if x == 0 then 1 else 0
  }

  /** With one in reach, freed memory can hold bytes that make them wrong. */
  lemma {:induction false} OutputWrong(sent: seq<seq<Byte>>, buf: seq<Byte>, table: seq<Packet>, gen: nat,
                                       i: nat, recv: nat, space: nat) returns (freed: Freed)
    requires Backed(sent, buf, table) && Exposed(table, gen, i, recv, space)
    ensures Output(table, gen, buf, freed, i, recv, space) != Right(table, sent, i, recv, space)
    decreases recv - i
  {
    hide Fetch, Output, Right;
    assert BackedAt(sent, buf, table[i], i);
    var p := table[i];
    var left := p.rbytes - p.copybytes;
    if p.gen != gen {
      freed := OtherThan(sent[i][p.copybytes]);
      FirstWrong(sent, buf, table, gen, freed, i, recv, space);
    } else {
      freed := OutputWrong(sent, buf, table, gen, i + 1, recv, space - left);
      CopyTurn(sent, buf, table, gen, freed, i, recv, space);
      FetchRight(sent, buf, p, i, freed, left);
      DifferBehind(sent[i][p.copybytes..p.copybytes + left], Output(table, gen, buf, freed, i + 1, recv, space - left),
                   Right(table, sent, i + 1, recv, space - left));
    }
  }

  lemma FirstWrong(sent: seq<seq<Byte>>, buf: seq<Byte>, table: seq<Packet>, gen: nat, freed: Freed,
                   i: nat, recv: nat, space: nat)
    requires i < recv && i < |table| && Stale(table[i], gen) && BackedAt(sent, buf, table[i], i) && space > 0
    requires forall g, o :: freed(g, o) != sent[i][table[i].copybytes]
    ensures Output(table, gen, buf, freed, i, recv, space) != Right(table, sent, i, recv, space)
  {
    var p := table[i];
    var at := p.slot * PAYLOAD + HEADER + p.copybytes;
    var len := if p.rbytes - p.copybytes < space then p.rbytes - p.copybytes else space;
    assert Fetch(p, gen, buf, freed, len)[0] == freed(p.gen, at);
    hide Fetch;
    assert Output(table, gen, buf, freed, i, recv, space)[0] == Fetch(p, gen, buf, freed, len)[0];
    assert Right(table, sent, i, recv, space)[0] == sent[i][p.copybytes];
  }

  lemma DifferBehind(a: seq<Byte>, x: seq<Byte>, y: seq<Byte>)
    requires x != y
    ensures a + x != a + y
  {
    assert x == (a + x)[|a|..] && y == (a + y)[|a|..];
  }

  /** The right bytes continue what has been delivered. */
  lemma {:induction false} RightContinues(sent: seq<seq<Byte>>, buf: seq<Byte>, table: seq<Packet>, i: nat, recv: nat,
                                          space: nat)
    requires Backed(sent, buf, table) && |sent| < |table| && i <= |sent|
    requires forall s :: i < s < |sent| ==> table[s].copybytes == 0
    requires i < |sent| ==> table[i].copybytes <= |sent[i]|
    ensures var copy := if i < |sent| then table[i].copybytes else 0;
      DeliveredAt(sent, i, copy) + Right(table, sent, i, recv, space) <= Join(sent)
    decreases recv - i
  {
    hide DeliveredAt, Join;
    var copy := if i < |sent| then table[i].copybytes else 0;
    if i < recv && i < |sent| && Pending(table[i]) && table[i].rbytes == |sent[i]| {
      var left := table[i].rbytes - copy;
      if left < space {
        DeliveredMore(sent, i, copy, |sent[i]|);
        assert sent[i][copy..|sent[i]|] == sent[i][copy..];
        DeliveredWhole(sent, i);
        RightContinues(sent, buf, table, i + 1, recv, space - left);
        var d, a, x := DeliveredAt(sent, i, copy), sent[i][copy..], Right(table, sent, i + 1, recv, space - left);
        assert d + (a + x) == (d + a) + x;
      } else {
        DeliveredMore(sent, i, copy, copy + space);
        DeliveredIsPrefix(sent, i, copy + space);
      }
    } else {
      DeliveredIsPrefix(sent, i, copy);
      assert DeliveredAt(sent, i, copy) + [] == DeliveredAt(sent, i, copy);
    }
  }

  /** Entering datagram i, new or the last one again. */
  lemma EnterOne(sent: seq<seq<Byte>>, arrivals: seq<nat>, buf: seq<Byte>, gen: nat, table: seq<Packet>, seen: nat,
                 i: nat, ordcurr: nat, delivered: seq<Byte>)
    requires Buffered(sent, arrivals, buf) && Tabled(sent, arrivals, seen, table)
    requires InOrder(sent, table, ordcurr, delivered)
    requires i < |arrivals| && (i == seen || (i == seen - 1 && seen == |arrivals|))
    ensures arrivals[i] < |sent| < MAX_PACKETS == |table|
    ensures var s := arrivals[i]; var t := table[s := table[s].(gen := gen, slot := i, rbytes := |sent[s]|)];
      && Tabled(sent, arrivals, i + 1, t) && InOrder(sent, t, ordcurr, delivered)
      && Entered(sent, arrivals, gen, table, i) == Entered(sent, arrivals, gen, t, i + 1)
  {
    hide Buffered, Tabled, InOrder, Entered;
    TableLength(sent, table, ordcurr, delivered);
    BufferedArrival(sent, arrivals, buf);
    EnteredNext(sent, arrivals, gen, table, i);
    InOrderStays(sent, table, ordcurr, delivered, arrivals[i], gen, i, |sent[arrivals[i]]|);
    if i == seen {
      TabledGrows(sent, arrivals, seen, table, gen);
    } else {
      EnteredAgain(sent, arrivals, seen, table, gen);
    }
  }

  /** Entering the datagrams that are new keeps the packet array right and the delivery state as it was. */
  lemma {:induction false} EnteredRight(sent: seq<seq<Byte>>, arrivals: seq<nat>, buf: seq<Byte>, gen: nat,
                                        table: seq<Packet>, seen: nat, i: nat, ordcurr: nat, delivered: seq<Byte>)
    requires Buffered(sent, arrivals, buf) && Tabled(sent, arrivals, seen, table)
    requires InOrder(sent, table, ordcurr, delivered)
    requires i == seen || (i == seen - 1 && seen == |arrivals|)
    ensures var t := Entered(sent, arrivals, gen, table, i);
      Tabled(sent, arrivals, |arrivals|, t) && InOrder(sent, t, ordcurr, delivered)
    decreases |arrivals| - i
  {
    hide Buffered, Tabled, InOrder, Entered;
    TabledSeen(sent, arrivals, seen, table);
    if i < |arrivals| {
      EnterOne(sent, arrivals, buf, gen, table, seen, i, ordcurr, delivered);
      var s := arrivals[i];
      EnteredRight(sent, arrivals, buf, gen, table[s := table[s].(gen := gen, slot := i, rbytes := |sent[s]|)], i + 1,
                   i + 1, ordcurr, delivered);
    } else {
      EnteredAll(sent, arrivals, gen, table);
    }
  }

  /** A datagram might always fit; the buffer has grown only if one of its first size might not have. */
  ghost predicate Roomy(buf: seq<Byte>, capacity: nat, gen: nat) {
    && |buf| <= capacity && CAPACITY <= capacity
    && (capacity > CAPACITY ==> |buf| + PAYLOAD > CAPACITY)
    && (capacity == CAPACITY ==> gen == 0)
  }

  lemma DatagramFits(sent: seq<seq<Byte>>, arrivals: seq<nat>, buf: seq<Byte>, seqNum: nat)
    requires Buffered(sent, arrivals, buf) && seqNum < |sent|
    ensures |sent[seqNum]| <= ROOM
  {
  }

  lemma NothingYet(sent: seq<seq<Byte>>, table: seq<Packet>)
    requires Message(sent) && |table| == MAX_PACKETS && forall s :: 0 <= s < MAX_PACKETS ==> table[s] == NO_PACKET
    ensures Buffered(sent, [], []) && Tabled(sent, [], 0, table) && InOrder(sent, table, 0, [])
  {
    assert sent[..0] == [];
  }

  class Reader {
    ghost const sent: seq<seq<Byte>>
    ghost var arrivals: seq<nat>
    ghost var seen: nat              // how many of them the packet array knows
    ghost var intended: seq<Byte>    // what should have been handed out so far
    ghost var delivered: seq<Byte>   // what has been

    var buf: seq<Byte>               // rudpbuf up to rudpbytes
    var capacity: nat                // rudpsize
    var gen: nat                     // how often rudpbuf has moved
    const pkts: array<Packet>        // udppkt
    var packets: nat
    var recvpkt: nat
    var pktcurr: nat
    var ordcurr: nat

    ghost predicate Valid()
      reads this, pkts
    {
      && Buffered(sent, arrivals, buf)
      && Tabled(sent, arrivals, seen, pkts[..])
      && InOrder(sent, pkts[..], ordcurr, intended)
      && (packets == 0 || packets == |sent|)
      && (pktcurr == seen || (pktcurr == seen - 1 && seen == |arrivals| && |sent[arrivals[seen - 1]]| < ROOM))
      && Roomy(buf, capacity, gen)
      && (forall s :: 0 <= s < pkts.Length ==> pkts[s].gen <= gen)
    }

    /** Every byte handed out so far was the right one. */
    ghost predicate Clean()
      reads this
    {
      delivered == intended
    }

    /** The packet array as the next call will have it after its first loop. */
    ghost function Table(): seq<Packet>
      reads this, pkts
    {
      Entered(sent, arrivals, gen, pkts[..], pktcurr)
    }

    constructor (ghost message: seq<seq<Byte>>)
      requires Message(message)
      ensures Valid() && Clean() && fresh(pkts) && sent == message && arrivals == [] && delivered == []
      ensures gen == 0 && capacity == CAPACITY && pktcurr == seen == 0 && buf == []
    {
      hide Buffered, Tabled, InOrder;
      sent := message;
      arrivals, seen, intended, delivered, buf := [], 0, [], [], [];
      capacity, gen := CAPACITY, 0;
      pkts := new Packet[MAX_PACKETS](_ => NO_PACKET);
      packets, recvpkt, pktcurr, ordcurr := 0, 0, 0, 0;
      new;
      NothingYet(sent, pkts[..]);
    }

    /** Before each read: when a datagram might not fit, double rudpbuf, which may move it. No pointer is renewed. */
    method MakeRoom(moves: bool)
      requires Valid()
      modifies this`capacity, this`gen
      ensures Valid() && |buf| + PAYLOAD <= capacity
      ensures var grows := |buf| + PAYLOAD > old(capacity);
        && capacity == (if grows then 2 * old(capacity) else old(capacity))
        && gen == (if grows && moves then old(gen) + 1 else old(gen))
    {
      hide Buffered, Tabled, InOrder;
      if |buf| + PAYLOAD > capacity {
        capacity := capacity * 2;
        if moves {
          gen := gen + 1;
        }
      }
    }

    /** One turn of the read loop: a datagram read behind the bytes already there, after making room. */
    method Read(datagram: seq<Byte>, ghost seqNum: nat, moves: bool) returns (again: bool)
      requires Valid()
      requires seqNum < |sent| && seqNum !in arrivals && Holds(datagram, 0, seqNum, |sent|, sent[seqNum])
      requires |datagram| == HEADER + |sent[seqNum]|
      requires |sent[seqNum]| < ROOM ==> |arrivals| == |sent| - 1
      modifies this`buf, this`arrivals, this`capacity, this`gen
      ensures Valid() && arrivals == old(arrivals) + [seqNum] && buf == old(buf) + datagram
      ensures again <==> |buf| == capacity
      ensures var grows := |old(buf)| + PAYLOAD > old(capacity);
        && capacity == (if grows then 2 * old(capacity) else old(capacity))
        && gen == (if grows && moves then old(gen) + 1 else old(gen))
      ensures gen > old(gen) ==> forall s :: 0 <= s < pkts.Length && Pending(pkts[s]) ==> Stale(pkts[s], gen)
    {
      hide Buffered, InOrder, Holds;
      BufferedGrows(sent, arrivals, buf, datagram, seqNum);
      StillToCome(sent, arrivals, buf, seqNum);
      DatagramFits(sent, arrivals, buf, seqNum);
      MakeRoom(moves);
      var avail := capacity - |buf|;
      buf := buf + datagram;
      arrivals := arrivals + [seqNum];
      again := |datagram| == avail;
    }

    /** The next datagram to enter: a new one, or the last one again because it was short. */
    ghost predicate AtPacket(i: nat)
      reads this
    {
      i < |arrivals| && i == pktcurr && (i == seen || (i == seen - 1 && seen == |arrivals|))
    }

    method SetPacket(s: nat, p: Packet)
      requires s < pkts.Length
      modifies pkts
      ensures pkts[..] == old(pkts[..])[s := p]
    {
      pkts[s] := p;
    }

    method EnterPacket(i: nat)
      requires Valid() && AtPacket(i) && recvpkt == |arrivals|
      modifies this`pktcurr, this`seen, pkts
      ensures Valid() && seen == i + 1
      ensures Entered(sent, arrivals, gen, pkts[..], i + 1) == old(Table())
      ensures pktcurr == i + 1 || (pktcurr == i && i + 1 == |arrivals|)
    {
      hide InOrder, Buffered, Tabled, TakenFull, Inferred, Entered, Pair, Roomy;
      HeaderRead(sent, arrivals, buf, i);
      var header := i * PAYLOAD;
      var seqNum := Pair(buf[header + 2], buf[header + 3]);
      var full := TakenFull(|buf|, i, recvpkt);
      var rbytes := Inferred(|buf|, i, recvpkt);
      EnterOne(sent, arrivals, buf, gen, pkts[..], seen, i, ordcurr, intended);
      SetPacket(seqNum, pkts[seqNum].(gen := gen, slot := i, rbytes := rbytes));
      seen := i + 1;
      if full {
        pktcurr := pktcurr + 1;
      }
    }

    /** The first loop of ms_sort_udp_packet: enter the datagrams that are new since the last call. */
    method EnterPackets()
      requires Valid() && arrivals != []
      modifies this`packets, this`recvpkt, this`pktcurr, this`seen, pkts
      ensures Valid() && seen == |arrivals| == recvpkt && packets == |sent|
      ensures pkts[..] == old(Table())
    {
      hide InOrder, Buffered, Tabled, DatagramCount, Inferred, TakenFull, Entered;
      CountFromBytes(sent, arrivals, buf);
      recvpkt := DatagramCount(|buf|);
      HeaderRead(sent, arrivals, buf, 0);
      if packets == 0 {
        packets := Pair(buf[4], buf[5]);
      }
      TabledSeen(sent, arrivals, seen, pkts[..]);
      var i := pktcurr;
      while i < recvpkt
        invariant Valid() && recvpkt == |arrivals| && packets == |sent|
        invariant if i < recvpkt then AtPacket(i) else i == recvpkt == seen
        invariant Entered(sent, arrivals, gen, pkts[..], i) == old(Table())
      {
        EnterPacket(i);
        i := i + 1;
      }
      EnteredAll(sent, arrivals, gen, pkts[..]);
    }

    /** One memcpy of the second loop: bytes of packet ordcurr, as many as there are and as fit into space. */
    method CopyPacket(space: nat, freed: Freed) returns (piece: seq<Byte>)
      requires Valid() && ordcurr < MAX_PACKETS && pkts.Length == MAX_PACKETS && Pending(pkts[ordcurr])
      modifies this`ordcurr, this`intended, this`delivered, pkts
      ensures Valid() && delivered == old(delivered) + piece
      ensures var p, p' := old(pkts[ordcurr]), pkts[old(ordcurr)];
        && var len := if p.rbytes - p.copybytes > space then space else p.rbytes - p.copybytes;
        && piece == Fetch(p, gen, buf, freed, len)
        && old(ordcurr) < |sent| && p.rbytes == |sent[old(ordcurr)]|
        && intended == old(intended) + sent[old(ordcurr)][p.copybytes..p.copybytes + len]
        && pkts[..] == old(pkts[..])[old(ordcurr) := p'] && p' == p.(copybytes := p.copybytes + len)
        && ordcurr == (if p'.copybytes == p'.rbytes && p'.rbytes == ROOM then old(ordcurr) + 1 else old(ordcurr))
        && p.rbytes <= ROOM && (p.rbytes < ROOM ==> old(ordcurr) == |sent| - 1 && |arrivals| == |sent|)
    {
      hide InOrder, Buffered, Tabled, Fetch;
      ghost var table := pkts[..];
      var i := ordcurr;
      var p := pkts[i];
      var len := p.rbytes - p.copybytes;
      if len > space {
        len := space;
      }
      CopiedBytes(sent, arrivals, buf, seen, table, i, len);
      CopyStep(sent, table, i, intended, len);
      EntryKept(sent, arrivals, seen, table, i, p.copybytes + len);
      piece := Fetch(p, gen, buf, freed, len);
      delivered := delivered + piece;
      intended := intended + sent[i][p.copybytes..p.copybytes + len];
      SetPacket(i, p.(copybytes := p.copybytes + len));
      if pkts[i].copybytes == pkts[i].rbytes && pkts[i].rbytes == ROOM {
        ordcurr := ordcurr + 1;
      }
    }

    /** The second loop of ms_sort_udp_packet: copy from packet ordcurr on, from wherever the pointers point. */
    method CopyOut(rbytes: nat, freed: Freed) returns (out: seq<Byte>)
      requires Valid() && seen == recvpkt == |arrivals| && packets == |sent|
      modifies this`ordcurr, this`intended, this`delivered, pkts
      ensures Valid() && delivered == old(delivered) + out
      ensures out == Output(old(pkts[..]), gen, buf, freed, old(ordcurr), recvpkt, rbytes)
      ensures intended == old(intended) + Right(old(pkts[..]), sent, old(ordcurr), recvpkt, rbytes)
      ensures ordcurr < recvpkt && rbytes > 0 && out == [] ==> !Pending(pkts[ordcurr])
    {
      hide InOrder, Buffered, Tabled, Fetch, Output, Right, Backed, Progress;
      ghost var start, table := ordcurr, pkts[..];
      TableLength(sent, table, ordcurr, intended);
      ArrivalBound(sent, arrivals, buf);
      TabledBacked(sent, arrivals, buf, seen, table);
      out := [];
      ghost var right: seq<Byte> := [];
      ProgressStarts(sent, buf, table, gen, freed, start, recvpkt, rbytes);
      var i := ordcurr;
      while i < recvpkt
        invariant Valid() && start <= i == ordcurr && pkts.Length == MAX_PACKETS && |out| <= rbytes
        invariant forall s :: i <= s < MAX_PACKETS ==> pkts[s] == table[s]
        invariant delivered == old(delivered) + out && intended == old(intended) + right
        invariant (|out| == rbytes ==> rbytes == 0) && (i > start ==> out != [])
        invariant Progress(sent, buf, table, gen, freed, start, recvpkt, rbytes, i, out, right)
      {
        if pkts[i].slot == -1 || pkts[i].copybytes >= pkts[i].rbytes {
          break;
        }
        TabledEntry(sent, arrivals, seen, pkts[..], i);
        ProgressTurn(sent, buf, table, gen, freed, start, recvpkt, rbytes, i, out, right);
        right := right + sent[i][pkts[i].copybytes..pkts[i].copybytes + Length(pkts[i], rbytes - |out|)];
        var piece := CopyPacket(rbytes - |out|, freed);
        out := out + piece;
        ProgressEnds(sent, buf, table, gen, freed, start, recvpkt, rbytes, i + 1, out, right);
        if recvpkt == packets && i == recvpkt - 1 && pkts[i].copybytes == pkts[i].rbytes {
          return;
        }
        if |out| >= rbytes {
          return;
        }
        if i != recvpkt - 1 && pkts[i].rbytes < ROOM {
          return;
        }
        i := i + 1;
      }
      ProgressEnds(sent, buf, table, gen, freed, start, recvpkt, rbytes, i, out, right);
    }

    /**
     * The next call hands out a continuation of the message, whatever freed memory holds, if and only if it does not
     * come to a packet that was entered before the buffer last moved and has bytes left.
     */
    lemma PrefixIff(rbytes: nat)
      requires Valid() && Clean() && arrivals != []
      ensures ContinuesAlways(Table(), gen, buf, ordcurr, |arrivals|, rbytes, delivered, sent) <==>
              !Exposed(Table(), gen, ordcurr, |arrivals|, rbytes)
    {
      hide Buffered, Tabled, InOrder, Entered;
      EnteredRight(sent, arrivals, buf, gen, pkts[..], seen, pktcurr, ordcurr, intended);
      TabledBacked(sent, arrivals, buf, |arrivals|, Table());
      RightPrefix(sent, buf, Table(), ordcurr, |arrivals|, rbytes, intended);
      ContinuesIff(sent, buf, Table(), gen, ordcurr, |arrivals|, rbytes, delivered);
    }

    /** A message that leaves room for another datagram in the first buffer is always handed out right. */
    lemma SmallMessageSafe(rbytes: nat)
      requires Valid() && (|sent| + 1) * PAYLOAD <= CAPACITY
      ensures gen == 0 && !Exposed(Table(), gen, ordcurr, |arrivals|, rbytes)
    {
      hide Tabled, InOrder, Exposed, Entered;
      BufferBound(sent, arrivals, buf);
      EnteredGens(sent, arrivals, pkts[..], pktcurr);
      NoStaleInReach(Table(), gen, ordcurr, |arrivals|, rbytes);
    }

    /**
     * ms_sort_udp_packet: copy out what is next in sequence order, as far as it has arrived and fits into rbytes bytes.
     * n is -1 when nothing was copied.
     */
    method SortUdpPacket(rbytes: nat, freed: Freed) returns (n: int, out: seq<Byte>)
      requires Valid() && arrivals != []
      modifies this`packets, this`recvpkt, this`pktcurr, this`ordcurr, this`seen, this`intended, this`delivered, pkts
      ensures Valid() && seen == |arrivals| && delivered == old(delivered) + out
      ensures out == Output(old(Table()), gen, buf, freed, old(ordcurr), |arrivals|, rbytes)
      ensures intended == old(intended) + Right(old(Table()), sent, old(ordcurr), |arrivals|, rbytes)
      ensures intended <= Join(sent) && |out| <= rbytes
      ensures n == if out == [] then -1 else |out|
      ensures n == -1 && rbytes > 0 && |arrivals| == |sent| ==> intended == Join(sent)
      ensures old(Clean()) && !Exposed(old(Table()), gen, old(ordcurr), |arrivals|, rbytes) ==>
        Clean() && delivered <= Join(sent)
      ensures old(Clean()) && (|sent| + 1) * PAYLOAD <= CAPACITY ==> Clean() && delivered <= Join(sent)
    {
      hide InOrder, Buffered, Tabled, Output, Right, Exposed, Entered;
      if (|sent| + 1) * PAYLOAD <= CAPACITY {
        SmallMessageSafe(rbytes);
      }
      EnterPackets();
      ghost var table, start := pkts[..], ordcurr;
      TabledBacked(sent, arrivals, buf, seen, table);
      OutputLength(sent, buf, table, gen, freed, start, recvpkt, rbytes);
      if !Exposed(table, gen, start, recvpkt, rbytes) {
        OutputRight(sent, buf, table, gen, freed, start, recvpkt, rbytes);
      }
      out := CopyOut(rbytes, freed);
      n := if |out| == 0 then -1 else |out|;
      OrderedPrefix(sent, pkts[..], ordcurr, intended);
      if n == -1 && rbytes > 0 && |arrivals| == |sent| {
        TableLength(sent, pkts[..], ordcurr, intended);
        if ordcurr < |sent| {
          AllKnown(sent, arrivals, buf, seen, pkts[..], ordcurr);
          TabledEntry(sent, arrivals, seen, pkts[..], ordcurr);
        }
        AllDelivered(sent, arrivals, buf, pkts[..], ordcurr, intended);
      }
    }
  }

  /** Whatever freed memory holds, the bytes handed out next continue the message. */
  ghost predicate ContinuesAlways(table: seq<Packet>, gen: nat, buf: seq<Byte>, i: nat, recv: nat, space: nat,
                                  delivered: seq<Byte>, sent: seq<seq<Byte>>) {
    forall freed: Freed :: delivered + Output(table, gen, buf, freed, i, recv, space) <= Join(sent)
  }

  lemma ContinuesIff(sent: seq<seq<Byte>>, buf: seq<Byte>, table: seq<Packet>, gen: nat, i: nat, recv: nat, space: nat,
                     delivered: seq<Byte>)
    requires Backed(sent, buf, table) && delivered + Right(table, sent, i, recv, space) <= Join(sent)
    ensures ContinuesAlways(table, gen, buf, i, recv, space, delivered, sent) <==> !Exposed(table, gen, i, recv, space)
  {
    hide Output, Right, Exposed, Backed, Join;
    if Exposed(table, gen, i, recv, space) {
      var freed := OutputWrong(sent, buf, table, gen, i, recv, space);
      OutputLength(sent, buf, table, gen, freed, i, recv, space);
      NotBoth(delivered, Output(table, gen, buf, freed, i, recv, space),
              Right(table, sent, i, recv, space), Join(sent));
    } else {
      forall freed: Freed
        ensures delivered + Output(table, gen, buf, freed, i, recv, space) <= Join(sent)
      {
        OutputRight(sent, buf, table, gen, freed, i, recv, space);
      }
    }
  }

  lemma NotBoth(d: seq<Byte>, x: seq<Byte>, y: seq<Byte>, all: seq<Byte>)
    requires |x| == |y| && x != y && d + y <= all
    ensures !(d + x <= all)
  {
    assert x == (d + x)[|d|..] && y == (d + y)[|d|..];
    assert d + y == all[..|d| + |y|];
  }

  lemma RightPrefix(sent: seq<seq<Byte>>, buf: seq<Byte>, table: seq<Packet>, ordcurr: nat, recv: nat, space: nat,
                    delivered: seq<Byte>)
    requires Backed(sent, buf, table) && InOrder(sent, table, ordcurr, delivered)
    ensures delivered + Right(table, sent, ordcurr, recv, space) <= Join(sent)
  {
    hide Backed, Right, Join;
    RightContinues(sent, buf, table, ordcurr, recv, space);
  }

  lemma BufferBound(sent: seq<seq<Byte>>, arrivals: seq<nat>, buf: seq<Byte>)
    requires Buffered(sent, arrivals, buf)
    ensures |buf| <= |sent| * PAYLOAD
  {
    hide Holds;
    ArrivalsBounded(sent, arrivals);
  }

  lemma {:induction false} EnteredGens(sent: seq<seq<Byte>>, arrivals: seq<nat>, table: seq<Packet>, i: nat)
    requires forall s :: 0 <= s < |table| ==> table[s].gen == 0
    ensures forall s :: 0 <= s < |Entered(sent, arrivals, 0, table, i)| ==>
      Entered(sent, arrivals, 0, table, i)[s].gen == 0
    decreases |arrivals| - i
  {
    if i < |arrivals| && arrivals[i] < |sent| && arrivals[i] < |table| {
      var s := arrivals[i];
      EnteredGens(sent, arrivals, table[s := table[s].(gen := 0, slot := i, rbytes := |sent[s]|)], i + 1);
    }
  }

  lemma NoStaleInReach(table: seq<Packet>, gen: nat, i: nat, recv: nat, space: nat)
    requires forall s :: 0 <= s < |table| ==> table[s].gen == gen
    ensures !Exposed(table, gen, i, recv, space)
  {
    hide Exposed, Reaches;
    ExposedIff(table, gen, i, recv, space);
  }

  /** How much of packet p goes into space bytes. */
  function Length(p: Packet, space: nat): nat
    requires Pending(p)
  {
    if p.rbytes - p.copybytes > space then space else p.rbytes - p.copybytes
  }

  lemma Behind(a: seq<Byte>, b: seq<Byte>, c: seq<Byte>)
    ensures a + (b + c) == (a + b) + c
  {
  }

  /** One turn of the copy loop, seen from what it and the turns after it hand out. */
  lemma CopyTurn(sent: seq<seq<Byte>>, buf: seq<Byte>, table: seq<Packet>, gen: nat, freed: Freed,
                 i: nat, recv: nat, space: nat)
    requires i < recv && i < |table| && Backed(sent, buf, table)
    ensures !Pending(table[i]) ==>
      Output(table, gen, buf, freed, i, recv, space) == [] && Right(table, sent, i, recv, space) == []
    ensures Pending(table[i]) ==>
      var p, len := table[i], Length(table[i], space);
      && i < |sent| && p.rbytes == |sent[i]|
      && Output(table, gen, buf, freed, i, recv, space) ==
         Fetch(p, gen, buf, freed, len) + Output(table, gen, buf, freed, i + 1, recv, space - len)
      && Right(table, sent, i, recv, space) ==
         sent[i][p.copybytes..p.copybytes + len] + Right(table, sent, i + 1, recv, space - len)
  {
    if Pending(table[i]) {
      assert BackedAt(sent, buf, table[i], i);
    }
  }

  /** The loop stands at packet i: out and right are what it has handed out and should have. */
  ghost predicate Progress(sent: seq<seq<Byte>>, buf: seq<Byte>, table: seq<Packet>, gen: nat, freed: Freed,
                           start: nat, recv: nat, rbytes: nat, i: nat, out: seq<Byte>, right: seq<Byte>) {
    && |out| == |right| <= rbytes
    && out + Output(table, gen, buf, freed, i, recv, rbytes - |out|) ==
       Output(table, gen, buf, freed, start, recv, rbytes)
    && right + Right(table, sent, i, recv, rbytes - |out|) == Right(table, sent, start, recv, rbytes)
  }

  lemma ProgressStarts(sent: seq<seq<Byte>>, buf: seq<Byte>, table: seq<Packet>, gen: nat, freed: Freed,
                       start: nat, recv: nat, rbytes: nat)
    ensures Progress(sent, buf, table, gen, freed, start, recv, rbytes, start, [], [])
  {
    hide Output, Right;
    var x, y := Output(table, gen, buf, freed, start, recv, rbytes), Right(table, sent, start, recv, rbytes);
    assert [] + x == x && [] + y == y;
  }

  lemma ProgressTurn(sent: seq<seq<Byte>>, buf: seq<Byte>, table: seq<Packet>, gen: nat, freed: Freed,
                     start: nat, recv: nat, rbytes: nat, i: nat, out: seq<Byte>, right: seq<Byte>)
    requires Progress(sent, buf, table, gen, freed, start, recv, rbytes, i, out, right) && Backed(sent, buf, table)
    requires i < recv && i < |table| && Pending(table[i])
    ensures var p, len := table[i], Length(table[i], rbytes - |out|);
      && i < |sent| && p.rbytes == |sent[i]| && |out| + len <= rbytes
      && Progress(sent, buf, table, gen, freed, start, recv, rbytes, i + 1, out + Fetch(p, gen, buf, freed, len),
                  right + sent[i][p.copybytes..p.copybytes + len])
  {
    hide Output, Right, Fetch, Backed;
    var space := rbytes - |out|;
    CopyTurn(sent, buf, table, gen, freed, i, recv, space);
    var p, len := table[i], Length(table[i], space);
    Behind(out, Fetch(p, gen, buf, freed, len), Output(table, gen, buf, freed, i + 1, recv, space - len));
    Behind(right, sent[i][p.copybytes..p.copybytes + len], Right(table, sent, i + 1, recv, space - len));
  }

  /** At the end of the array or of the space, or at a packet with nothing to copy, all has been handed out. */
  lemma ProgressEnds(sent: seq<seq<Byte>>, buf: seq<Byte>, table: seq<Packet>, gen: nat, freed: Freed,
                     start: nat, recv: nat, rbytes: nat, i: nat, out: seq<Byte>, right: seq<Byte>)
    requires Progress(sent, buf, table, gen, freed, start, recv, rbytes, i, out, right)
    ensures i >= recv || |out| == rbytes || (i < |table| && !Pending(table[i])) ==>
      && out == Output(table, gen, buf, freed, start, recv, rbytes)
      && right == Right(table, sent, start, recv, rbytes)
  {
    assert out + [] == out && right + [] == right;
  }

  lemma JoinNext(sent: seq<seq<Byte>>, ord: nat)
    requires ord < |sent|
    ensures Join(sent[..ord + 1]) == Join(sent[..ord]) + sent[ord]
  {
    assert sent[..ord + 1][..ord] == sent[..ord];
  }

  lemma DeliveredMore(sent: seq<seq<Byte>>, ord: nat, from: nat, copy: nat)
    requires ord < |sent| && from <= copy <= |sent[ord]|
    ensures DeliveredAt(sent, ord, from) + sent[ord][from..copy] == DeliveredAt(sent, ord, copy)
  {
    hide Join;
    assert sent[ord][..from] + sent[ord][from..copy] == sent[ord][..copy];
  }

  lemma DeliveredWhole(sent: seq<seq<Byte>>, ord: nat)
    requires ord < |sent|
    ensures DeliveredAt(sent, ord, |sent[ord]|) == DeliveredAt(sent, ord + 1, 0)
  {
    hide Join;
    JoinNext(sent, ord);
    assert sent[ord][..|sent[ord]|] == sent[ord];
  }

  /** Copying len more bytes of packet ordcurr, and moving on when a full packet is complete. */
  lemma CopyStep(sent: seq<seq<Byte>>, table: seq<Packet>, ordcurr: nat, delivered: seq<Byte>, len: nat)
    requires InOrder(sent, table, ordcurr, delivered) && ordcurr < |sent|
    requires table[ordcurr].copybytes + len <= |sent[ordcurr]| <= ROOM
    ensures var p := table[ordcurr]; var copy := p.copybytes + len;
      InOrder(sent, table[ordcurr := p.(copybytes := copy)], if copy == ROOM then ordcurr + 1 else ordcurr,
              delivered + sent[ordcurr][p.copybytes..copy])
  {
    hide DeliveredAt;
    var from, copy := table[ordcurr].copybytes, table[ordcurr].copybytes + len;
    DeliveredMore(sent, ordcurr, from, copy);
    if copy == ROOM {
      DeliveredWhole(sent, ordcurr);
    }
  }

  lemma SliceOfSlice(s: seq<Byte>, lo: nat, m: nat, a: nat, len: nat)
    requires lo + m <= |s| && a + len <= m
    ensures s[lo + a..lo + a + len] == s[lo..lo + m][a..a + len]
  {
    var u, v := s[lo + a..lo + a + len], s[lo..lo + m][a..a + len];
    assert forall k :: 0 <= k < len ==> u[k] == v[k];
  }

  /** The bytes memcpy takes are those of the packet with this sequence number. */
  lemma CopiedBytes(sent: seq<seq<Byte>>, arrivals: seq<nat>, buf: seq<Byte>, seen: nat, table: seq<Packet>,
                    s: nat, len: nat)
    requires Buffered(sent, arrivals, buf) && Tabled(sent, arrivals, seen, table) && s < MAX_PACKETS
    requires table[s].slot >= 0 && table[s].copybytes + len <= table[s].rbytes
    ensures s < |sent| && table[s].rbytes == |sent[s]| <= ROOM
    ensures var p := table[s]; var at := p.slot * PAYLOAD + HEADER + p.copybytes;
      at + len <= |buf| && buf[at..at + len] == sent[s][p.copybytes..p.copybytes + len]
    ensures |sent[s]| < ROOM ==> s == |sent| - 1 && |arrivals| == |sent|
  {
    var p := table[s];
    assert Holds(buf, p.slot, s, |sent|, sent[s]);
    SliceOfSlice(buf, p.slot * PAYLOAD + HEADER, |sent[s]|, p.copybytes, len);
  }

  /** With every datagram in and nothing more to copy at ordcurr, everything has been delivered. */
  lemma AllDelivered(sent: seq<seq<Byte>>, arrivals: seq<nat>, buf: seq<Byte>, table: seq<Packet>, ordcurr: nat,
                     delivered: seq<Byte>)
    requires Buffered(sent, arrivals, buf) && InOrder(sent, table, ordcurr, delivered)
    requires ordcurr < |sent| ==> table[ordcurr].copybytes >= |sent[ordcurr]|
    ensures delivered == Join(sent)
  {
    if ordcurr < |sent| {
      JoinNext(sent, ordcurr);
      assert ordcurr == |sent| - 1 && sent[..ordcurr + 1] == sent;
      assert sent[ordcurr][..|sent[ordcurr]|] == sent[ordcurr];
    } else {
      assert sent[..ordcurr] == sent;
    }
  }

  lemma OrderedPrefix(sent: seq<seq<Byte>>, table: seq<Packet>, ordcurr: nat, delivered: seq<Byte>)
    requires InOrder(sent, table, ordcurr, delivered)
    ensures delivered <= Join(sent) && ordcurr <= |sent|
  {
    DeliveredIsPrefix(sent, ordcurr, if ordcurr < |sent| then table[ordcurr].copybytes else 0);
  }

  lemma TableLength(sent: seq<seq<Byte>>, table: seq<Packet>, ordcurr: nat, delivered: seq<Byte>)
    requires InOrder(sent, table, ordcurr, delivered)
    ensures |table| == MAX_PACKETS && |sent| < MAX_PACKETS
  {
  }

  lemma BufferedArrival(sent: seq<seq<Byte>>, arrivals: seq<nat>, buf: seq<Byte>)
    requires Buffered(sent, arrivals, buf)
    ensures Arrival(sent, arrivals)
  {
  }

  lemma ArrivalBound(sent: seq<seq<Byte>>, arrivals: seq<nat>, buf: seq<Byte>)
    requires Buffered(sent, arrivals, buf)
    ensures |arrivals| <= |sent| < MAX_PACKETS
  {
    ArrivalsBounded(sent, arrivals);
  }

  lemma TabledEntry(sent: seq<seq<Byte>>, arrivals: seq<nat>, seen: nat, table: seq<Packet>, s: nat)
    requires Tabled(sent, arrivals, seen, table) && s < MAX_PACKETS && table[s].slot != -1
    ensures table[s].slot >= 0
  {
  }

  /** Counting copied bytes does not disturb the packet array. */
  lemma EntryKept(sent: seq<seq<Byte>>, arrivals: seq<nat>, seen: nat, table: seq<Packet>, s: nat, copy: nat)
    requires Tabled(sent, arrivals, seen, table) && s < MAX_PACKETS && table[s].slot >= 0
    ensures Tabled(sent, arrivals, seen, table[s := table[s].(copybytes := copy)])
  {
  }

  lemma TabledSeen(sent: seq<seq<Byte>>, arrivals: seq<nat>, seen: nat, table: seq<Packet>)
    requires Tabled(sent, arrivals, seen, table)
    ensures seen <= |arrivals|
  {
  }

  // ---------- a reply that outgrows the buffer ----------

  const MANY: nat := 749

  function Sevens(): (p: seq<Byte>)
    ensures |p| == ROOM && forall k :: 0 <= k < ROOM ==> p[k] == 7
  {
    seq(ROOM, _ => 7)
  }

  function Reply(): (m: seq<seq<Byte>>)
    ensures |m| == MANY && Message(m) && forall k :: 0 <= k < MANY ==> m[k] == Sevens()
  {
    seq(MANY, _ => Sevens())
  }

  function Datagram(i: nat): (d: seq<Byte>)
    requires i < MANY
    ensures |d| == HEADER + ROOM && Holds(d, 0, i, MANY, Sevens())
  {
    var h: seq<Byte> := [0, 1, i / 256, i % 256, MANY / 256, MANY % 256, 1, 0];
    var d := h + Sevens();
    assert d[2] == i / 256 && d[3] == i % 256 && d[4] == MANY / 256 && d[5] == MANY % 256;
    assert d[HEADER..HEADER + ROOM] == Sevens();
    d
  }

  lemma {:induction false} JoinSevens(parts: seq<seq<Byte>>)
    requires forall k :: 0 <= k < |parts| ==> parts[k] == Sevens()
    ensures forall k :: 0 <= k < |Join(parts)| ==> Join(parts)[k] == 7
  {
    if parts != [] {
      JoinSevens(parts[..|parts| - 1]);
    }
  }

  /** The datagrams 1, 2, ... up to n. */
  function Later(n: nat): (a: seq<nat>)
    ensures |a| == n && forall k :: 0 <= k < n ==> a[k] == k + 1
  {
    seq(n, k requires 0 <= k => k + 1)
  }

  /** While nothing has been delivered and packet 0 is missing, nothing is handed out. */
  lemma FirstMissing(sent: seq<seq<Byte>>, arrivals: seq<nat>, buf: seq<Byte>, table: seq<Packet>, ordcurr: nat,
                     gen: nat, freed: Freed, space: nat)
    requires Buffered(sent, arrivals, buf) && Tabled(sent, arrivals, |arrivals|, table) && 0 !in arrivals
    requires InOrder(sent, table, ordcurr, []) && |sent[0]| == ROOM
    ensures ordcurr == 0 && table[0] == NO_PACKET
    ensures Output(table, gen, buf, freed, 0, |arrivals|, space) == [] && Right(table, sent, 0, |arrivals|, space) == []
  {
    hide Holds;
    if ordcurr > 0 {
      JoinLong(sent, ordcurr);
    }
  }

  lemma JoinLong(sent: seq<seq<Byte>>, n: nat)
    requires 0 < n <= |sent|
    ensures |Join(sent[..n])| >= |sent[0]|
  {
    JoinPrefix(sent[..n], 1);
    var first := sent[..n][..1];
    assert first == [sent[0]] && Join(first) == Join(first[..0]) + sent[0];
  }

  /** A full packet behind good pointers, then one behind stale ones: its first byte comes from freed memory. */
  lemma SecondStale(table: seq<Packet>, gen: nat, buf: seq<Byte>, freed: Freed, recv: nat)
    requires |table| >= 2 && recv >= 2 && Pending(table[0]) && Stale(table[1], gen)
    requires table[0].rbytes == table[1].rbytes == ROOM && table[0].copybytes == table[1].copybytes == 0
    ensures var out := Output(table, gen, buf, freed, 0, recv, 2 * ROOM);
      |out| > ROOM && out[ROOM] == freed(table[1].gen, table[1].slot * PAYLOAD + HEADER)
  {
    var p, q := Fetch(table[0], gen, buf, freed, ROOM), Fetch(table[1], gen, buf, freed, ROOM);
    assert Output(table, gen, buf, freed, 1, recv, ROOM) == q;
    assert Output(table, gen, buf, freed, 0, recv, 2 * ROOM) == p + q;
    assert q[0] == freed(table[1].gen, table[1].slot * PAYLOAD + HEADER);
  }

  /** The packet array when packet 0 has come last, after a move. */
  lemma TableAfterMove(sent: seq<seq<Byte>>, arrivals: seq<nat>, table: seq<Packet>, n: nat, ordcurr: nat)
    requires |arrivals| == n + 1 && Tabled(sent, arrivals[..n], n, table)
    requires InOrder(sent, table, ordcurr, []) && ordcurr == 0
    requires n >= 1 && arrivals[n] == 0 && arrivals[0] == 1 && 1 < |sent|
    requires |sent[0]| == |sent[1]| == ROOM && table[0] == NO_PACKET && table[1].gen == 0
    ensures var t := Entered(sent, arrivals, 1, table, n);
      && |t| >= 2 && Pending(t[0]) && Stale(t[1], 1)
      && t[0].rbytes == t[1].rbytes == ROOM && t[0].copybytes == t[1].copybytes == 0
  {
    assert arrivals[..n][0] == 1;
    var t1 := table[0 := table[0].(gen := 1, slot := n, rbytes := |sent[0]|)];
    assert Entered(sent, arrivals, 1, t1, n + 1) == t1;
  }

  /**
   * A reply of 749 full datagrams of which the first arrives last. By then the others have been entered; reading it
   * makes the buffer grow and move, and the next call copies datagram 1 from memory that has been freed.
   */
  method FreedBytesDelivered() returns (out: seq<Byte>)
    ensures !(out <= Join(Reply()))
  {
    hide Reply, Sevens, Datagram, Buffered, Tabled, InOrder, Holds, Entered, Output, Right, Exposed, Message, Later;
    var reader := new Reader(Reply());
    var k := 0;
    while k < MANY - 1
      invariant 0 <= k <= MANY - 1 && reader.Valid() && fresh(reader) && fresh(reader.pkts)
      invariant reader.sent == Reply() && reader.arrivals == Later(k) && |reader.buf| == k * PAYLOAD
      invariant reader.gen == 0 && reader.capacity == CAPACITY && reader.delivered == [] && reader.Clean()
      invariant reader.pktcurr == reader.seen == 0
    {
      var again := reader.Read(Datagram(k + 1), k + 1, true);
      k := k + 1;
      assert Later(k - 1) + [k] == Later(k);
    }
    var eights: Freed := (g: nat, o: nat) => 8;
    ghost var n := MANY - 1;
    ghost var others := reader.arrivals;
    EnteredRight(reader.sent, others, reader.buf, 0, reader.pkts[..], 0, 0, reader.ordcurr, []);
    FirstMissing(reader.sent, others, reader.buf, reader.Table(), reader.ordcurr, 0, eights, 2048);
    var none, nothing := reader.SortUdpPacket(2048, eights);
    FirstMissing(reader.sent, others, reader.buf, reader.pkts[..], reader.ordcurr, 0, eights, 2048);
    ghost var table := reader.pkts[..];
    TableLength(reader.sent, table, reader.ordcurr, []);
    assert table[1].gen == 0;
    var again := reader.Read(Datagram(0), 0, true);
    assert reader.arrivals[..n] == others;
    TableAfterMove(reader.sent, reader.arrivals, table, n, reader.ordcurr);
    SecondStale(reader.Table(), 1, reader.buf, eights, MANY);
    var count: int;
    count, out := reader.SortUdpPacket(2 * ROOM, eights);
    JoinSevens(Reply());
  }
}
