/** Scatter/gather assembly of requests and their partial transmission, as memaslap's connections do it. */
module Messages {
  import opened Machine

  const MTU: nat := 1400          // UDP_MAX_SEND_PAYLOAD_SIZE
  const HEADER: nat := 8          // UDP_HEADER_SIZE
  const IOV_MAX: nat := 1024

  /** len bytes of a buffer from an offset on; a slot kept free for a UDP header has no buffer yet. */
  datatype Iov = Reserved | Slice(buf: seq<Byte>, off: nat, len: nat)

  predicate Fits(v: Iov) {
    v.Slice? ==> v.off + v.len <= |v.buf|
  }

  function Len(v: Iov): nat {
    if v.Reserved? then HEADER else v.len
  }

  /** The bytes of the caller that an entry stands for. */
  function Data(v: Iov): seq<Byte>
    requires Fits(v)
  {
    if v.Reserved? then [] else v.buf[v.off..v.off + v.len]
  }

  ghost predicate AllFit(vs: seq<Iov>) {
    forall i :: 0 <= i < |vs| ==> Fits(vs[i])
  }

  function Concat(vs: seq<Iov>): seq<Byte>
    requires AllFit(vs)
  {
    if vs == [] then [] else Concat(vs[..|vs| - 1]) + Data(vs[|vs| - 1])
  }

  function Size(vs: seq<Iov>): nat {
    if vs == [] then 0 else Size(vs[..|vs| - 1]) + Len(vs[|vs| - 1])
  }

  lemma ConcatSnoc(vs: seq<Iov>, v: Iov)
    requires AllFit(vs) && Fits(v)
    ensures AllFit(vs + [v]) && Concat(vs + [v]) == Concat(vs) + Data(v) && Size(vs + [v]) == Size(vs) + Len(v)
  {
    assert (vs + [v])[..|vs|] == vs;
  }

  /** msg_iov as the allocation it points into and the index there; a reallocation makes old pointers stale. */
  datatype Msg = Msg(gen: nat, at: nat, iovlen: nat)

  /** The number of entries of the first k messages. */
  function Before(msgs: seq<Msg>, k: nat): nat
    requires k <= |msgs|
  {
    if k == 0 then 0 else Before(msgs, k - 1) + msgs[k - 1].iovlen
  }

  lemma {:induction false} BeforeSame(a: seq<Msg>, b: seq<Msg>, k: nat)
    requires k <= |a| && k <= |b| && forall j :: 0 <= j < k ==> a[j].iovlen == b[j].iovlen
    ensures Before(a, k) == Before(b, k)
  {
    if k > 0 {
      BeforeSame(a, b, k - 1);
    }
  }

  lemma {:induction false} BeforeMonotone(msgs: seq<Msg>, j: nat, k: nat)
    requires j <= k <= |msgs|
    ensures Before(msgs, j) <= Before(msgs, k)
  {
    if j < k {
      BeforeMonotone(msgs, j, k - 1);
    }
  }

  /** Every message points into the current list, right behind the entries of the messages before it. */
  ghost predicate Placed(msgs: seq<Msg>, used: nat, gen: nat, iovused: nat) {
    && used <= |msgs|
    && (forall k :: 0 <= k < used ==> PlacedAt(msgs, k, gen))
    && Before(msgs, used) == iovused
  }

  ghost predicate PlacedAt(msgs: seq<Msg>, k: nat, gen: nat)
    requires k < |msgs|
  {
    msgs[k].gen == gen && msgs[k].at == Before(msgs, k) && msgs[k].iovlen <= IOV_MAX
  }

  /** The entries of message k. */
  function Entries(iov: seq<Iov>, msgs: seq<Msg>, k: nat): seq<Iov>
    requires k < |msgs| && msgs[k].at + msgs[k].iovlen <= |iov|
  {
    iov[msgs[k].at..msgs[k].at + msgs[k].iovlen]
  }

  /** A UDP message starts with a slot for its header and is no longer than the MTU; a TCP message has no slot. */
  ghost predicate GoodMessage(udp: bool, vs: seq<Iov>) {
    if udp then vs != [] && vs[0].Reserved? && Size(vs) <= MTU && forall i :: 0 < i < |vs| ==> vs[i].Slice?
    else forall i :: 0 <= i < |vs| ==> vs[i].Slice?
  }

  /**
   * The message list under construction: live entries in the order they were appended, cut into messages. open
   * says that the last UDP message still lacks its header slot.
   */
  ghost predicate Built(udp: bool, live: seq<Iov>, gen: nat, msgs: seq<Msg>, used: nat, msgbytes: nat,
                        appended: seq<Byte>, open: bool) {
    && AllFit(live) && Concat(live) == appended && used <= |msgs| && Placed(msgs, used, gen, |live|)
    && (forall k :: 0 <= k < used ==> msgs[k].at + msgs[k].iovlen <= |live|)
    && (forall k :: 0 <= k < used && !(open && k == used - 1) ==> GoodMessage(udp, Entries(live, msgs, k)))
    && (open ==> udp && used > 0 && msgs[used - 1].iovlen == 0)
    && (used > 0 ==> msgbytes == Size(Entries(live, msgs, used - 1)))
  }

  /** Whether the last message can take the entry. */
  predicate Accepts(udp: bool, open: bool, msgbytes: nat, v: Iov) {
    if udp then (if open then v.Reserved? else v.Slice? && msgbytes + v.len <= MTU) else v.Slice?
  }

  lemma EntriesKept(live: seq<Iov>, more: seq<Iov>, msgs: seq<Msg>, msgs': seq<Msg>, k: nat)
    requires k < |msgs| && k < |msgs'| && msgs'[k].at == msgs[k].at && msgs'[k].iovlen == msgs[k].iovlen
    requires msgs[k].at + msgs[k].iovlen <= |live|
    ensures msgs'[k].at + msgs'[k].iovlen <= |live + more|
    ensures Entries(live + more, msgs', k) == Entries(live, msgs, k)
  {
  }

  lemma GoodSnoc(udp: bool, open: bool, vs: seq<Iov>, v: Iov)
    requires if open then vs == [] else GoodMessage(udp, vs)
    requires Accepts(udp, open, Size(vs), v) && (open ==> udp)
    ensures GoodMessage(udp, vs + [v]) && Size(vs + [v]) == Size(vs) + Len(v)
  {
    assert (vs + [v])[..|vs|] == vs;
  }

  /** The last message with one more entry. */
  function Lengthened(msgs: seq<Msg>, used: nat): (r: seq<Msg>)
    requires 0 < used <= |msgs|
    ensures |r| == |msgs|
  {
    msgs[used - 1 := msgs[used - 1].(iovlen := msgs[used - 1].iovlen + 1)]
  }

  lemma PlacedGrows(msgs: seq<Msg>, used: nat, gen: nat, iovused: nat)
    requires Placed(msgs, used, gen, iovused) && used > 0 && msgs[used - 1].iovlen < IOV_MAX
    ensures msgs[used - 1].at + msgs[used - 1].iovlen == iovused
    ensures Placed(Lengthened(msgs, used), used, gen, iovused + 1)
  {
    var msgs' := Lengthened(msgs, used);
    forall k | 0 <= k < used
      ensures Before(msgs', k) == Before(msgs, k) && PlacedAt(msgs', k, gen)
    {
      assert PlacedAt(msgs, k, gen);
      BeforeSame(msgs', msgs, k);
    }
    assert PlacedAt(msgs, used - 1, gen);
  }

  lemma EntriesGrow(live: seq<Iov>, msgs: seq<Msg>, used: nat, v: Iov)
    requires 0 < used <= |msgs| && msgs[used - 1].at + msgs[used - 1].iovlen == |live|
    ensures Entries(live + [v], Lengthened(msgs, used), used - 1) == Entries(live, msgs, used - 1) + [v]
  {
  }

  /** Writing one entry behind the live ones adds it to the last message. */
  lemma AppendEntry(udp: bool, live: seq<Iov>, gen: nat, msgs: seq<Msg>, used: nat, msgbytes: nat,
                    appended: seq<Byte>, open: bool, v: Iov)
    requires Built(udp, live, gen, msgs, used, msgbytes, appended, open) && used > 0 && Fits(v)
    requires Accepts(udp, open, msgbytes, v) && msgs[used - 1].iovlen < IOV_MAX
    ensures msgs[used - 1].at + msgs[used - 1].iovlen == |live|
    ensures Built(udp, live + [v], gen, Lengthened(msgs, used), used, msgbytes + Len(v), appended + Data(v), false)
  {
    hide Concat, Size, GoodMessage, Placed, AllFit, Entries, Accepts, Len, Data;
    var last, msgs' := used - 1, Lengthened(msgs, used);
    ConcatSnoc(live, v);
    PlacedGrows(msgs, used, gen, |live|);
    forall k | 0 <= k < last
      ensures Entries(live + [v], msgs', k) == Entries(live, msgs, k)
    {
      assert msgs'[k] == msgs[k];
      EntriesKept(live, [v], msgs, msgs', k);
    }
    EntriesGrow(live, msgs, used, v);
    EntriesCount(live, msgs, last);
    GoodSnoc(udp, open, Entries(live, msgs, last), v);
  }

  lemma EntriesCount(live: seq<Iov>, msgs: seq<Msg>, k: nat)
    requires k < |msgs| && msgs[k].at + msgs[k].iovlen <= |live|
    ensures |Entries(live, msgs, k)| == msgs[k].iovlen
  {
  }

  /** A new message header points right behind the live entries. */
  lemma AddMessage(udp: bool, live: seq<Iov>, gen: nat, msgs: seq<Msg>, used: nat, msgbytes: nat, appended: seq<Byte>)
    requires Built(udp, live, gen, msgs, used, msgbytes, appended, false) && used < |msgs|
    ensures Built(udp, live, gen, msgs[used := Msg(gen, |live|, 0)], used + 1, 0, appended, udp)
  {
    hide Concat;
    var msgs' := msgs[used := Msg(gen, |live|, 0)];
    BeforeSame(msgs', msgs, used);
    forall k | 0 <= k < used
      ensures PlacedAt(msgs', k, gen) && Entries(live, msgs', k) == Entries(live, msgs, k)
    {
      assert PlacedAt(msgs, k, gen);
      BeforeSame(msgs', msgs, k);
    }
    assert Entries(live, msgs', used) == [];
  }

  /** Message k of msgs' has the entries of message k, found by counting in the new list. */
  ghost predicate PointsTo(msgs: seq<Msg>, msgs': seq<Msg>, k: nat, gen': nat)
    requires k < |msgs| && k < |msgs'|
  {
    msgs'[k] == Msg(gen', Before(msgs, k), msgs[k].iovlen)
  }

  lemma {:induction false} CountedAlike(msgs: seq<Msg>, msgs': seq<Msg>, used: nat, gen': nat, k: nat)
    requires k <= used <= |msgs| == |msgs'| && forall j :: 0 <= j < used ==> PointsTo(msgs, msgs', j, gen')
    ensures Before(msgs', k) == Before(msgs, k)
  {
    if k > 0 {
      CountedAlike(msgs, msgs', used, gen', k - 1);
      assert PointsTo(msgs, msgs', k - 1, gen');
    }
  }

  /** After a reallocation, pointers recomputed from the entry counts are right again. */
  lemma Repointed(udp: bool, live: seq<Iov>, gen: nat, msgs: seq<Msg>, used: nat, msgbytes: nat, appended: seq<Byte>,
                  open: bool, gen': nat, msgs': seq<Msg>)
    requires Built(udp, live, gen, msgs, used, msgbytes, appended, open)
    requires |msgs'| == |msgs| && forall k :: 0 <= k < used ==> PointsTo(msgs, msgs', k, gen')
    ensures Built(udp, live, gen', msgs', used, msgbytes, appended, open)
  {
    hide Concat, GoodMessage, Size;
    CountedAlike(msgs, msgs', used, gen', used);
    forall k | 0 <= k < used
      ensures PlacedAt(msgs', k, gen') && msgs'[k].at + msgs'[k].iovlen <= |live|
      ensures Entries(live, msgs', k) == Entries(live, msgs, k)
    {
      assert PlacedAt(msgs, k, gen) && PointsTo(msgs, msgs', k, gen');
      CountedAlike(msgs, msgs', used, gen', k);
    }
  }

  // ---------- no message is closed before it is full ----------

  /** Message k can take no more: all its entries are used or, for UDP, all its bytes. */
  ghost predicate FullAt(udp: bool, live: seq<Iov>, msgs: seq<Msg>, k: nat)
    requires k < |msgs| && msgs[k].at + msgs[k].iovlen <= |live|
  {
    msgs[k].iovlen == IOV_MAX || (udp && Size(Entries(live, msgs, k)) == MTU)
  }

  ghost predicate AllPacked(udp: bool, live: seq<Iov>, msgs: seq<Msg>, used: nat) {
    forall k :: 0 <= k < used - 1 && k < |msgs| && msgs[k].at + msgs[k].iovlen <= |live| ==> FullAt(udp, live, msgs, k)
  }

  lemma PackedAppend(udp: bool, live: seq<Iov>, gen: nat, msgs: seq<Msg>, used: nat, msgbytes: nat,
                     appended: seq<Byte>, open: bool, v: Iov)
    requires Built(udp, live, gen, msgs, used, msgbytes, appended, open) && used > 0
    requires AllPacked(udp, live, msgs, used)
    ensures AllPacked(udp, live + [v], Lengthened(msgs, used), used)
  {
    hide Concat, Size, GoodMessage, Placed, AllFit, Entries;
    var msgs' := Lengthened(msgs, used);
    forall k | 0 <= k < used - 1
      ensures FullAt(udp, live + [v], msgs', k)
    {
      assert msgs'[k] == msgs[k] && FullAt(udp, live, msgs, k);
      EntriesKept(live, [v], msgs, msgs', k);
    }
  }

  lemma PackedAdd(udp: bool, live: seq<Iov>, gen: nat, msgs: seq<Msg>, used: nat, msgbytes: nat, appended: seq<Byte>)
    requires Built(udp, live, gen, msgs, used, msgbytes, appended, false) && used < |msgs|
    requires AllPacked(udp, live, msgs, used) && (used > 0 ==> FullAt(udp, live, msgs, used - 1))
    ensures AllPacked(udp, live, msgs[used := Msg(gen, |live|, 0)], used + 1)
  {
    hide Concat, Size, GoodMessage, Placed, AllFit;
    var msgs' := msgs[used := Msg(gen, |live|, 0)];
    forall k | 0 <= k < used
      ensures FullAt(udp, live, msgs', k)
    {
      assert msgs'[k] == msgs[k] && FullAt(udp, live, msgs, k);
    }
  }

  lemma PackedMore(udp: bool, live: seq<Iov>, msgs: seq<Msg>, used: nat, extra: seq<Msg>)
    requires used <= |msgs| && AllPacked(udp, live, msgs, used)
    ensures AllPacked(udp, live, msgs + extra, used)
  {
    hide Size;
    forall k | 0 <= k < used - 1 && (msgs + extra)[k].at + (msgs + extra)[k].iovlen <= |live|
      ensures FullAt(udp, live, msgs + extra, k)
    {
      assert (msgs + extra)[k] == msgs[k] && FullAt(udp, live, msgs, k);
    }
  }

  lemma PackedMoreIf(udp: bool, live: seq<Iov>, msgs: seq<Msg>, used: nat, extra: seq<Msg>, packed: bool)
    requires used <= |msgs| && (packed ==> AllPacked(udp, live, msgs, used))
    requires packed && used > 0 ==>
               msgs[used - 1].at + msgs[used - 1].iovlen <= |live| && FullAt(udp, live, msgs, used - 1)
    ensures packed ==> AllPacked(udp, live, msgs + extra, used)
    ensures packed && used > 0 ==> FullAt(udp, live, msgs + extra, used - 1)
  {
    hide AllPacked, Size;
    if packed {
      PackedMore(udp, live, msgs, used, extra);
    }
  }

  lemma PackedRepoint(udp: bool, live: seq<Iov>, gen: nat, msgs: seq<Msg>, used: nat, msgbytes: nat,
                      appended: seq<Byte>, open: bool, gen': nat, msgs': seq<Msg>)
    requires Built(udp, live, gen, msgs, used, msgbytes, appended, open) && AllPacked(udp, live, msgs, used)
    requires |msgs'| == |msgs| && forall k :: 0 <= k < used ==> PointsTo(msgs, msgs', k, gen')
    ensures AllPacked(udp, live, msgs', used)
  {
    hide Concat, Size, GoodMessage, AllFit;
    forall k | 0 <= k < used - 1
      ensures msgs'[k].at + msgs'[k].iovlen <= |live| && FullAt(udp, live, msgs', k)
    {
      assert PlacedAt(msgs, k, gen) && PointsTo(msgs, msgs', k, gen') && FullAt(udp, live, msgs, k);
    }
  }

  /** The header of packet i out of total: request id, packet number and count, most significant byte first. */
  function HeaderBytes(requestId: nat, i: nat, total: nat): (h: seq<Byte>)
    ensures |h| == HEADER
  {
    [requestId / 256 % 256, requestId % 256, i / 256 % 256, i % 256, total / 256 % 256, total % 256, 1, 0]
  }

  class Sender {
    const udp: bool
    var iov: seq<Iov>             // capacity iovsize, the first iovused in use
    var iovused: nat
    var gen: nat                  // allocation of iov, counted
    var msgs: seq<Msg>            // capacity msgsize, the first msgused in use
    var msgused: nat
    var msgbytes: nat
    ghost var appended: seq<Byte>

    ghost predicate Holds(open: bool)
      reads this
    {
      && 0 < |iov| && iovused <= |iov| && 0 < |msgs|
      && Built(udp, iov[..iovused], gen, msgs, msgused, msgbytes, appended, open)
    }

    /** Ready for appends: at least one message, each with its header slot. */
    ghost predicate Valid()
      reads this
    {
      Holds(false) && msgused > 0
    }

    /** Every message but the last is full. */
    ghost predicate Packed()
      reads this
    {
      iovused <= |iov| && AllPacked(udp, iov[..iovused], msgs, msgused)
    }

    /** Empty lists of some capacity, ready for the first ms_add_msghdr. */
    constructor (udp: bool, iovsize: nat, msgsize: nat)
      requires iovsize > 0 && msgsize > 0
      ensures Holds(false) && this.udp == udp && msgused == 0 && iovused == 0 && appended == []
      ensures |iov| == iovsize && |msgs| == msgsize && Packed()
    {
      this.udp := udp;
      iov, iovused, gen := seq(iovsize, _ => Reserved), 0, 0;
      msgs, msgused, msgbytes := seq(msgsize, _ => Msg(0, 0, 0)), 0, 0;
      appended := [];
    }

    /**
     * What every append keeps, spelled out: the slices join to what was appended, message k starts behind the
     * entries of the messages before it in the current list, and a UDP message is a header slot and slices that
     * together fit the MTU.
     */
    lemma Assembled(k: nat)
      requires Valid() && k < msgused
      ensures Concat(iov[..iovused]) == appended && Before(msgs, msgused) == iovused
      ensures msgs[k].gen == gen && msgs[k].at == Before(msgs, k) && msgs[k].at + msgs[k].iovlen <= iovused
      ensures var vs := Entries(iov[..iovused], msgs, k);
        if udp then vs != [] && vs[0].Reserved? && Size(vs) <= MTU && forall i :: 0 < i < |vs| ==> vs[i].Slice?
        else forall i :: 0 <= i < |vs| ==> vs[i].Slice?
    {
      assert PlacedAt(msgs, k, gen);
      assert GoodMessage(udp, Entries(iov[..iovused], msgs, k));
    }

    /** There is no message yet, or the last one is full. */
    ghost predicate LastFull()
      reads this
    {
      msgused > 0 ==>
        && iovused <= |iov| && msgused <= |msgs| && msgs[msgused - 1].at + msgs[msgused - 1].iovlen <= iovused
        && FullAt(udp, iov[..iovused], msgs, msgused - 1)
    }

    /** ms_ensure_iov_space: double the list and point every message at the new one. */
    method EnsureIovSpace(ghost open: bool)
      requires Holds(open)
      modifies this`iov, this`gen, this`msgs
      ensures Holds(open) && iovused < |iov|
      ensures iov[..iovused] == old(iov[..iovused]) && |msgs| == old(|msgs|)
      ensures |iov| == if old(iovused) >= old(|iov|) then 2 * old(|iov|) else old(|iov|)
      ensures forall k :: 0 <= k < msgused ==> msgs[k].iovlen == old(msgs[k].iovlen)
      ensures old(Packed()) ==> Packed()
    {
      hide Built, AllPacked;
      if iovused >= |iov| {
        ghost var live := iov[..iovused];
        BuiltBounds(udp, live, gen, msgs, msgused, msgbytes, appended, open);
        var newMsgs := Repoint(msgs, msgused, gen + 1);
        Repointed(udp, live, gen, msgs, msgused, msgbytes, appended, open, gen + 1, newMsgs);
        if Packed() {
          PackedRepoint(udp, live, gen, msgs, msgused, msgbytes, appended, open, gen + 1, newMsgs);
        }
        iov := iov + seq(|iov|, _ => Reserved);
        gen := gen + 1;
        msgs := newMsgs;
        assert iov[..iovused] == live;
      }
    }

    /** The tail of ms_add_iov: make room, write one entry behind the live ones, count it. */
    method PutEntry(v: Iov, ghost open: bool)
      requires Holds(open) && msgused > 0 && msgused <= |msgs| && msgs[msgused - 1].iovlen < IOV_MAX
      requires Fits(v) && Accepts(udp, open, msgbytes, v)
      modifies this
      ensures Valid() && appended == old(appended) + Data(v) && msgbytes == old(msgbytes) + Len(v)
      ensures msgused == old(msgused) <= |msgs| && msgs[msgused - 1].iovlen == old(msgs[msgused - 1].iovlen) + 1
      ensures |msgs| == old(|msgs|) && (old(Packed()) ==> Packed())
    {
      hide Built, Accepts, Data, Len, Fits, AllPacked;
      EnsureIovSpace(open);
      ghost var live := iov[..iovused];
      if Packed() {
        PackedAppend(udp, live, gen, msgs, msgused, msgbytes, appended, open, v);
      }
      AppendEntry(udp, live, gen, msgs, msgused, msgbytes, appended, open, v);
      var m := msgs[msgused - 1];
      iov := iov[m.at + m.iovlen := v];
      msgbytes := msgbytes + Len(v);
      iovused := iovused + 1;
      msgs := msgs[msgused - 1 := m.(iovlen := m.iovlen + 1)];
      appended := appended + Data(v);
      assert iov[..iovused] == live + [v];
    }

    /**
     * ms_add_msghdr: start a message behind the live entries. For UDP its first entry is the header slot, which
     * ms_add_iov appends in a single turn since the message is empty.
     */
    method AddMsghdr()
      requires Holds(false)
      modifies this
      ensures Valid() && appended == old(appended) && msgused == old(msgused) + 1 <= |msgs|
      ensures msgs[msgused - 1].iovlen == (if udp then 1 else 0) && msgbytes == (if udp then HEADER else 0)
      ensures |msgs| == if old(msgused) == old(|msgs|) then 2 * old(|msgs|) else old(|msgs|)
      ensures old(Packed() && LastFull()) ==> Packed()
    {
      hide Built, AllPacked;
      ghost var live := iov[..iovused];
      ghost var packed := Packed() && LastFull();
      BuiltBounds(udp, live, gen, msgs, msgused, msgbytes, appended, false);
      if |msgs| == msgused {
        ghost var extra := seq(|msgs|, _ => Msg(0, 0, 0));
        MoreMessages(udp, live, gen, msgs, msgused, msgbytes, appended, extra);
        PackedMoreIf(udp, live, msgs, msgused, extra, packed);
        msgs := msgs + seq(|msgs|, _ => Msg(0, 0, 0));
      }
      if packed {
        PackedAdd(udp, live, gen, msgs, msgused, msgbytes, appended);
      }
      AddMessage(udp, live, gen, msgs, msgused, msgbytes, appended);
      msgs := msgs[msgused := Msg(gen, iovused, 0)];
      msgbytes := 0;
      msgused := msgused + 1;
      if udp {
        PutEntry(Reserved, true);
        assert appended == old(appended) + [];
      }
    }

    /** ms_build_udp_headers: fill the header slot of the only message; more than one is refused. */
    method BuildUdpHeaders(requestId: Word) returns (ok: bool)
      requires Valid() && udp
      modifies this`iov
      ensures ok <==> msgused == 1
      ensures 0 < |old(iov)| &&
        iov == if ok then old(iov)[0 := Slice(HeaderBytes(requestId, 0, 1), 0, HEADER)] else old(iov)
    {
      hide Built;
      Assembled(0);
      if udp && msgused > 1 {
        return false;
      }
      var i: nat := 0;
      while i < msgused
        invariant i <= 1 == msgused
        invariant iov == if i == 0 then old(iov) else old(iov)[0 := Slice(HeaderBytes(requestId, 0, 1), 0, HEADER)]
      {
        iov := iov[msgs[i].at := Slice(HeaderBytes(requestId, i, msgused), 0, HEADER)];
        i := i + 1;
      }
      return true;
    }

    /** The last message takes buf as it is: an entry is free and, for UDP, so are the bytes. */
    ghost predicate Takes(buf: seq<Byte>)
      reads this
    {
      && 0 < msgused <= |msgs| && msgs[msgused - 1].iovlen < IOV_MAX
      && (udp ==> msgbytes < MTU && msgbytes + |buf| <= MTU)
    }

    /** The test before each entry: the last message is full. */
    ghost predicate Brimful()
      reads this
    {
      0 < msgused <= |msgs| && (msgs[msgused - 1].iovlen == IOV_MAX || (udp && msgbytes >= MTU))
    }

    /** One turn of the loop of ms_add_iov: so much of buf[off..off + len] as the last message, or a new one, takes. */
    method AddPart(buf: seq<Byte>, off: nat, len: nat) returns (leftover: nat)
      requires Valid() && off + len <= |buf|
      modifies this
      ensures Valid() && leftover <= len && appended == old(appended) + buf[off..off + (len - leftover)]
      ensures old(Packed()) ==> Packed()
      ensures 0 < old(msgused) <= old(|msgs|) && msgused == old(msgused) + (if old(Brimful()) then 1 else 0) <= |msgs|
      ensures !old(Brimful()) ==>
        && old(msgs[msgused - 1].iovlen) < IOV_MAX && msgbytes == old(msgbytes) + (len - leftover)
        && msgs[msgused - 1].iovlen == old(msgs[msgused - 1].iovlen) + 1
        && leftover == if udp && len + old(msgbytes) > MTU then len + old(msgbytes) - MTU else 0
      ensures leftover > 0 ==> udp && msgbytes == MTU && leftover < len
    {
      hide Built, AllPacked, FullAt;
      BuiltBounds(udp, iov[..iovused], gen, msgs, msgused, msgbytes, appended, false);
      BuiltMtu(udp, iov[..iovused], gen, msgs, msgused, msgbytes, appended);
      BuiltFull(udp, iov[..iovused], gen, msgs, msgused, msgbytes, appended);
      if msgs[msgused - 1].iovlen == IOV_MAX || (udp && msgbytes >= MTU) {
        AddMsghdr();
      }
      leftover := 0;
      if udp && len + msgbytes > MTU {
        leftover := len + msgbytes - MTU;
      }
      PutEntry(Slice(buf, off, len - leftover), false);
    }

    /**
     * ms_add_iov: append a buffer, starting a new message exactly when the last one is full and splitting at the MTU. A
     * buffer that the last message takes, and no other, becomes one more entry of it alone.
     */
    method AddIov(buf: seq<Byte>)
      requires Valid()
      modifies this
      ensures Valid() && appended == old(appended) + buf
      ensures old(Packed()) ==> Packed()
      ensures old(msgused) <= msgused <= |msgs| && (msgused == old(msgused) <==> old(Takes(buf)))
      ensures old(Takes(buf)) ==>
        && msgbytes == old(msgbytes) + |buf|
        && msgs[msgused - 1].iovlen == old(msgs[msgused - 1].iovlen) + 1
    {
      hide Built, AllPacked, FullAt, Valid, Packed;
      var leftover: nat := AddPart(buf, 0, |buf|);
      assert buf[0..|buf| - leftover] == buf[..|buf| - leftover];
      while leftover > 0
        invariant Valid() && leftover <= |buf| && appended == old(appended) + buf[..|buf| - leftover]
        invariant (old(Packed()) ==> Packed()) && old(msgused) <= msgused <= |msgs|
        invariant leftover > 0 ==> udp && msgbytes == MTU && 0 < msgused && !old(Takes(buf))
        invariant leftover == 0 ==> (msgused == old(msgused) <==> old(Takes(buf)))
        invariant old(Takes(buf)) ==>
          && leftover == 0 && msgbytes == old(msgbytes) + |buf|
          && msgs[msgused - 1].iovlen == old(msgs[msgused - 1].iovlen) + 1
        decreases leftover
      {
        var off: nat := |buf| - leftover;
        ghost var len := leftover;
        leftover := AddPart(buf, off, leftover);
        AppendedMore(old(appended), buf, off, len - leftover);
      }
      assert buf[..|buf|] == buf;
    }
  }

  lemma AppendedMore(start: seq<Byte>, buf: seq<Byte>, off: nat, len: nat)
    requires off + len <= |buf|
    ensures (start + buf[..off]) + buf[off..off + len] == start + buf[..off + len]
  {
  }

  /** Point all messages at the new list: each starts where the entries before it end. */
  method Repoint(msgs: seq<Msg>, used: nat, gen: nat) returns (r: seq<Msg>)
    requires used <= |msgs|
    ensures |r| == |msgs| && forall k :: 0 <= k < used ==> PointsTo(msgs, r, k, gen)
    ensures forall k :: 0 <= k < used ==> r[k].iovlen == msgs[k].iovlen
  {
    r := msgs;
    var i, iovnum := 0, 0;
    while i < used
      invariant 0 <= i <= used && |r| == |msgs| && iovnum == Before(msgs, i)
      invariant forall k :: 0 <= k < i ==> r[k].iovlen == msgs[k].iovlen && PointsTo(msgs, r, k, gen)
      invariant forall k :: i <= k < used ==> r[k] == msgs[k]
    {
      ghost var before := r;
      r := r[i := Msg(gen, iovnum, r[i].iovlen)];
      forall k | 0 <= k < i
        ensures PointsTo(msgs, r, k, gen)
      {
        assert PointsTo(msgs, before, k, gen) && r[k] == before[k];
      }
      iovnum := iovnum + r[i].iovlen;
      i := i + 1;
    }
  }

  lemma BuiltBounds(udp: bool, live: seq<Iov>, gen: nat, msgs: seq<Msg>, used: nat, msgbytes: nat,
                    appended: seq<Byte>, open: bool)
    requires Built(udp, live, gen, msgs, used, msgbytes, appended, open)
    ensures used <= |msgs| && forall k :: 0 <= k < used ==> msgs[k].iovlen <= IOV_MAX
  {
    forall k | 0 <= k < used
      ensures msgs[k].iovlen <= IOV_MAX
    {
      assert PlacedAt(msgs, k, gen);
    }
  }

  lemma MoreMessages(udp: bool, live: seq<Iov>, gen: nat, msgs: seq<Msg>, used: nat, msgbytes: nat,
                     appended: seq<Byte>, extra: seq<Msg>)
    requires Built(udp, live, gen, msgs, used, msgbytes, appended, false)
    ensures Built(udp, live, gen, msgs + extra, used, msgbytes, appended, false)
  {
    hide Concat, GoodMessage, Size;
    var msgs' := msgs + extra;
    BeforeSame(msgs', msgs, used);
    forall k | 0 <= k < used
      ensures PlacedAt(msgs', k, gen) && Entries(live, msgs', k) == Entries(live, msgs, k)
    {
      assert PlacedAt(msgs, k, gen);
      BeforeSame(msgs', msgs, k);
    }
  }

  /** What the guard of ms_add_iov tests is that the last message is full. */
  lemma BuiltFull(udp: bool, live: seq<Iov>, gen: nat, msgs: seq<Msg>, used: nat, msgbytes: nat, appended: seq<Byte>)
    requires Built(udp, live, gen, msgs, used, msgbytes, appended, false) && used > 0
    ensures msgs[used - 1].at + msgs[used - 1].iovlen <= |live|
    ensures FullAt(udp, live, msgs, used - 1) <==> msgs[used - 1].iovlen == IOV_MAX || (udp && msgbytes >= MTU)
  {
    hide Concat, Size;
    assert GoodMessage(udp, Entries(live, msgs, used - 1));
  }

  lemma BuiltMtu(udp: bool, live: seq<Iov>, gen: nat, msgs: seq<Msg>, used: nat, msgbytes: nat, appended: seq<Byte>)
    requires Built(udp, live, gen, msgs, used, msgbytes, appended, false) && used > 0
    ensures udp ==> msgbytes <= MTU
  {
    assert GoodMessage(udp, Entries(live, msgs, used - 1));
  }
}
