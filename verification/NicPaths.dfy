/** What the operations on packet buffers do from start to end: which bytes a receiver gets and
    the card sends, what is queued for whom, and where buffers end up. */
module NicPaths {
  import opened Basics
  import opened Checksums
  import opened Packets
  import opened NicRing

  /** `s'` has one more buffer put back than `s`: on the free list if there is room, otherwise
      it no longer exists. */
  ghost predicate PutBack(s: State, s': State, b: nat) {
    if |s.free| < FREE_LIST then s'.free == s.free + [b] && s'.known == s.known
    else s'.free == s.free && s'.known == s.known - {b}
  }

  // ----- receiving -----

  /** A leased packet that is UDP to another bound port joins the end of that port's queue; any
      other packet is put back. Nothing else changes. */
  lemma Delivered(s: State)
    requires Enabled(s, Deliver)
    ensures var s', b := After(s, Deliver), s.pc.buf;
            && s'.pc.Idle? && s'.data == s.data && s'.len == s.len && s'.held == s.held && s'.loose == s.loose
            && SameRings(s, s')
            && (forall q :: UdpTo(s, b, q) && q != s.pc.port && q in s.queues ==>
                  s'.queues == s.queues[q := s.queues[q] + [b]] && s'.free == s.free && s'.known == s.known)
            && ((forall q :: q in s.queues && q != s.pc.port ==> !UdpTo(s, b, q)) ==>
                  s'.queues == s.queues && PutBack(s, s', b))
  {
    hide ParseUdp, Bytes;
    var u := ParseUdp(Bytes(s, s.pc.buf));
    assert u.Some? ==> UdpTo(s, s.pc.buf, u.value.dstPort);
  }

  /** A receive by the driver, up to the new buffer in the ring. */
  ghost function Exchanged(s: State, p: nat, spare: nat): (r: State)
    requires Enabled(s, Receive(p, spare))
    ensures r == s.(free := Handed(s, spare).free, known := s.known + {spare}, rxBufs := s.rxBufs[s.rxHead := spare],
                    pc := Swapped(p, s.rxBufs[s.rxHead], s.rxDesc[s.rxHead].len))
  {
    hide ParseUdp, Bytes;
    After(After(s, Receive(p, spare)), Swap)
  }

  /** And up to the lease of the packet. */
  ghost function Received(s: State, p: nat, spare: nat): (r: State)
    requires Enabled(s, Receive(p, spare)) && s.rxDesc[s.rxHead].len <= 1514
    ensures var b, n := s.rxBufs[s.rxHead], s.rxDesc[s.rxHead].len;
            && r.pc == Leased(p, b) && r.data == s.data && r.len == s.len[b := n]
            && r.rxBufs == s.rxBufs[s.rxHead := spare] && r.rxDesc == s.rxDesc[s.rxHead := RxDesc(spare, 0, false)]
            && r.rdt == s.rxHead && r.rxHead == (s.rxHead + 1) % RX && r.rdh == s.rdh && RingShape(r)
  {
    hide ParseUdp, Bytes;
    After(After(Exchanged(s, p, spare), Describe), Advance)
  }

  /** Over every run: the packet leased is the one the card completed at the head of the ring, with
      the bytes the card put there, as many as it reported; the spare buffer takes its place, and
      the card has one more slot to fill. */
  lemma ReceivePath(s: State, steps: seq<Step>, t: State, p: nat, spare: nat)
    requires Begun(s) && Run(s, steps, t) && Enabled(t, Receive(p, spare)) && t.rxDesc[t.rxHead].len <= 1514
    ensures var b, n, r := t.rxDesc[t.rxHead].buffer, t.rxDesc[t.rxHead].len, Received(t, p, spare);
            && r.pc == Leased(p, b) && b != spare && Enabled(r, Deliver)
            && (b in t.data && n <= |t.data[b]| ==> Bytes(r, b) == t.data[b][..n])
            && At(r, RxSlot(t.rxHead), spare) && r.rxDesc[t.rxHead] == RxDesc(spare, 0, false)
            && CardOwns(r, t.rdt) && r.rxHead == (t.rxHead + 1) % RX
  {
    Reached(s, steps, t);
    hide Run, Begun;
    ReceiveFrom(t, p, spare);
  }

  lemma ReceiveFrom(t: State, p: nat, spare: nat)
    requires Inv(t) && Enabled(t, Receive(p, spare)) && t.rxDesc[t.rxHead].len <= 1514
    ensures var b, n, r := t.rxDesc[t.rxHead].buffer, t.rxDesc[t.rxHead].len, Received(t, p, spare);
            && r.pc == Leased(p, b) && b != spare && Enabled(r, Deliver)
            && (b in t.data && n <= |t.data[b]| ==> Bytes(r, b) == t.data[b][..n])
            && At(r, RxSlot(t.rxHead), spare) && r.rxDesc[t.rxHead] == RxDesc(spare, 0, false)
            && CardOwns(r, t.rdt) && r.rxHead == (t.rxHead + 1) % RX
  {
    hide Inv, Enabled, After;
    HeadBuffer(t, p, spare);
    var r := Received(t, p, spare);
    LeasedBytes(t, r, t.rxBufs[t.rxHead], t.rxDesc[t.rxHead].len);
    TailMoved(t, r);
    CanDeliver(r);
  }

  lemma CanDeliver(r: State)
    requires RingShape(r) && r.pc.Leased?
    ensures Enabled(r, Deliver)
  {
  }

  /** The buffer at the head, and the one that replaces it. */
  lemma HeadBuffer(t: State, p: nat, spare: nat)
    requires Inv(t) && Enabled(t, Receive(p, spare))
    ensures RingShape(t) && t.rxDesc[t.rxHead].buffer == t.rxBufs[t.rxHead] != spare
    ensures t.rdh != t.rxHead && t.rdt == (if t.rxHead == 0 then RX - 1 else t.rxHead - 1)
  {
    hide Lists, TxOk, QueuesOk;
    assert At(t, RxSlot(t.rxHead), t.rxBufs[t.rxHead]);
    assert At(t, if t.free == [] then Outside else FreeList, spare);
  }

  lemma LeasedBytes(t: State, r: State, b: nat, n: nat)
    requires r.data == t.data && r.len == t.len[b := n]
    ensures b in t.data && n <= |t.data[b]| ==> Bytes(r, b) == t.data[b][..n]
  {
  }

  /** Moving the tail on gives the card one more slot. */
  lemma TailMoved(t: State, r: State)
    requires RingShape(t) && t.rdh != t.rxHead && t.rdt == (if t.rxHead == 0 then RX - 1 else t.rxHead - 1)
    requires r.rdt == t.rxHead && r.rdh == t.rdh
    ensures CardOwns(r, t.rdt)
  {
  }

  /** The card puts a frame in the next slot it owns and completes it. */
  ghost function Arrived(s: State, bytes: seq<Byte>, n: nat): (r: State)
    requires RingShape(s) && s.rdh != s.rdt
    ensures var b := s.rxDesc[s.rdh].buffer;
            && RingShape(r) && r.data == s.data[b := bytes] && r.rxDesc == s.rxDesc[s.rdh := RxDesc(b, n, true)]
            && r == s.(data := r.data, rxDesc := r.rxDesc, rdh := (s.rdh + 1) % RX)
  {
    hide ParseUdp, Bytes;
    After(After(s, CardWrites(s.rdh, bytes)), CardCompletes(n))
  }

  lemma ArrivedKeeps(s: State, bytes: seq<Byte>, n: nat)
    requires Inv(s) && s.rdh != s.rdt
    ensures Inv(Arrived(s, bytes, n))
  {
    hide RxOk, TxOk, QueuesOk, Lists, Exact;
    StepKeeps(s, CardWrites(s.rdh, bytes));
    StepKeeps(After(s, CardWrites(s.rdh, bytes)), CardCompletes(n));
  }

  /** From the wire to the receiver: when nothing is pending, a frame that arrives is what the next
      receive leases. */
  lemma ArrivesAndIsLeased(s: State, steps: seq<Step>, t: State, p: nat, spare: nat, bytes: seq<Byte>, n: nat)
    requires Begun(s) && Run(s, steps, t) && t.pc.Idle? && p in t.queues && t.queues[p] == [] && Available(t, spare)
    requires RingShape(t) && t.rdh == t.rxHead && n <= |bytes| && n <= 1514
    ensures t.rdh != t.rdt
    ensures var u, b := Arrived(t, bytes, n), t.rxDesc[t.rdh].buffer;
            && Enabled(u, Receive(p, spare))
            && Received(u, p, spare).pc == Leased(p, b) && Bytes(Received(u, p, spare), b) == bytes[..n]
  {
    Reached(s, steps, t);
    hide Run, Begun;
    NothingPending(t);
    ArrivedKeeps(t, bytes, n);
    hide Inv;
    ReceiveFrom(Arrived(t, bytes, n), p, spare);
  }

  lemma NothingPending(t: State)
    requires Inv(t) && t.rdh == t.rxHead
    ensures t.rdh != t.rdt
  {
  }

  /** Packets outside the receive ring keep their bytes through every step of the card, the driver
      and other callers; only the caller that has a packet writes it, and only the receive that
      took it out of the ring sets its length. */
  lemma BytesKept(s: State, steps: seq<Step>, t: State, e: Step, place: Place, b: nat)
    requires Begun(s) && Run(s, steps, t) && Enabled(t, e) && At(t, place, b) && !place.RxSlot?
    requires !(e.Fill? && e.b == b) && !(e.Advance? && place == InFlight)
    ensures Bytes(After(t, e), b) == Bytes(t, b)
  {
    Reached(s, steps, t);
    hide Run, Begun;
    BytesKeptBy(t, e, place, b);
  }

  lemma BytesKeptBy(t: State, e: Step, place: Place, b: nat)
    requires Inv(t) && Enabled(t, e) && At(t, place, b) && !place.RxSlot?
    requires !(e.Fill? && e.b == b) && !(e.Advance? && place == InFlight)
    ensures Bytes(After(t, e), b) == Bytes(t, b)
  {
    OtherBytes(t, e, b);
    hide RxOk, TxOk, QueuesOk, Lists, After, Bytes;
    if e.CardWrites? { CardWritesRing(t, e.slot); }
    if e.Advance? { assert At(t, InFlight, t.pc.buf); }
  }

  lemma OtherBytes(s: State, e: Step, b: nat)
    requires Enabled(s, e)
    ensures || Bytes(After(s, e), b) == Bytes(s, b) || (e.Fill? && b == e.b) || (e.Advance? && b == s.pc.buf)
            || (e.CardWrites? && b == s.rxDesc[e.slot].buffer)
  {
    if e.Fill? || e.CardWrites? || e.Advance? {
      hide ParseUdp;
      Overwritten(s, e);
      hide After;
    } else {
      DataKept(s, e);
      hide After, ParseUdp;
    }
  }

  lemma Overwritten(s: State, e: Step)
    requires Enabled(s, e)
    ensures e.Fill? ==> After(s, e).data == s.data[e.b := e.bytes] && After(s, e).len == s.len[e.b := e.n]
    ensures e.CardWrites? ==> After(s, e).data == s.data[s.rxDesc[e.slot].buffer := e.bytes] && After(s, e).len == s.len
    ensures e.Advance? ==> After(s, e).data == s.data && After(s, e).len == s.len[s.pc.buf := s.pc.len]
  {
    hide ParseUdp, Bytes;
  }

  lemma DataKept(s: State, e: Step)
    requires Enabled(s, e) && !e.Fill? && !e.CardWrites? && !e.Advance?
    ensures After(s, e).data == s.data && After(s, e).len == s.len
  {
    hide ParseUdp, Bytes, Available, CardOwns;
    if e.Deliver? { Delivered(s); }
  }

  // ----- queues -----

  /** What a step does to the queue of one port. Only a receive for another port adds a packet, at
      the end, and only serving the port takes one, from the front. */
  lemma PortQueue(s: State, e: Step, q: nat)
    requires Enabled(s, e)
    ensures var s' := After(s, e);
            q in s'.queues <==> (q in s.queues && !(e.Unbind? && e.p == q)) || (e.Bind? && e.p == q)
    ensures var s' := After(s, e);
            if e.Bind? && e.p == q then s'.queues[q] == []
            else if q !in s'.queues then true
            else if e.Serve? && e.p == q then s'.queues[q] == s.queues[q][1..]
            else if e.Deliver? && s.pc.port != q && UdpTo(s, s.pc.buf, q) then s'.queues[q] == s.queues[q] + [s.pc.buf]
            else s'.queues[q] == s.queues[q]
  {
    hide ParseUdp, Bytes;
    if e.Deliver? { Delivered(s); }
    hide UdpTo;
  }

  /** Serving a port hands out its oldest packet and puts it back. */
  lemma ServedFirst(s: State, p: nat)
    requires Enabled(s, Serve(p))
    ensures var s' := After(s, Serve(p));
            s.queues[p] == [s.queues[p][0]] + s'.queues[p] && PutBack(s, s', s.queues[p][0])
  {
    hide ParseUdp, Bytes;
  }

  /** Giving back the packets of a queue taken off its port, one after the other. */
  ghost function GivenBack(s: State): (r: State)
    requires RingShape(s) && s.pc.Unbinding? && |s.free| <= FREE_LIST
    ensures r.pc.Idle?
    decreases |s.pc.rest|
  {
    hide ParseUdp, Bytes;
    if s.pc.rest == [] then After(s, GiveBack) else GivenBack(After(s, GiveBack))
  }

  ghost function Members(l: seq<nat>): set<nat> { set b | b in l }

  /** How many of these there is room for. */
  function Fitting(s: State, l: seq<nat>): (k: nat)
    requires |s.free| <= FREE_LIST
    ensures k <= |l|
  {
    if |l| <= FREE_LIST - |s.free| then |l| else FREE_LIST - |s.free|
  }

  /** As many as there is room for go on the free list in their order; the rest no longer exist.
      Nothing else changes. */
  lemma {:induction false} GivenBackAll(s: State)
    requires RingShape(s) && s.pc.Unbinding? && |s.free| <= FREE_LIST
    ensures var r, l := GivenBack(s), s.pc.rest;
            && r.free == s.free + l[..Fitting(s, l)] && r.known == s.known - Members(l[Fitting(s, l)..])
            && r == s.(free := r.free, known := r.known, pc := Idle)
    decreases |s.pc.rest|
  {
    var l := s.pc.rest;
    GiveBackStep(s);
    if l != [] {
      var s1 := After(s, GiveBack);
      assert GivenBack(s) == GivenBack(s1);
      hide After, GivenBack;
      GivenBackAll(s1);
      OneBack(s, s1, l);
    } else {
      assert GivenBack(s) == After(s, GiveBack);
    }
  }

  lemma OneBack(s: State, s1: State, l: seq<nat>)
    requires l != [] && |s.free| <= FREE_LIST && PutBack(s, s1, l[0])
    ensures var k, k1 := Fitting(s, l), Fitting(s1, l[1..]);
            s1.free + l[1..][..k1] == s.free + l[..k] && s1.known - Members(l[1..][k1..]) == s.known - Members(l[k..])
  {
    var k := Fitting(s, l);
    if |s.free| < FREE_LIST {
      assert l[..k] == [l[0]] + l[1..][..k - 1];
      assert l[1..][k - 1..] == l[k..];
    } else {
      assert l == [l[0]] + l[1..];
      assert l[0..] == l && l[1..][0..] == l[1..];
      assert Members(l) == {l[0]} + Members(l[1..]);
    }
  }

  lemma GiveBackStep(s: State)
    requires RingShape(s) && s.pc.Unbinding? && |s.free| <= FREE_LIST
    ensures var s1, l := After(s, GiveBack), s.pc.rest;
            && (l == [] ==> s1 == s.(pc := Idle))
            && (l != [] ==> PutBack(s, s1, l[0]) && s1 == s.(free := s1.free, known := s1.known, pc := Unbinding(l[1..])))
  {
    hide ParseUdp, Bytes;
  }

  /** Unbinding a port: its queue is gone, its packets are put back as far as there is room, and
      no other queue changes. */
  lemma UnbindPath(s: State, steps: seq<Step>, t: State, p: nat, id: nat)
    requires Begun(s) && Run(s, steps, t) && Enabled(t, Unbind(p, id)) && t.pc.Idle?
    ensures var u := After(t, Unbind(p, id));
            && Enabled(u, TakeLock(id)) && |After(u, TakeLock(id)).free| <= FREE_LIST
            && var r, l := GivenBack(After(u, TakeLock(id))), t.queues[p];
               && r.pc.Idle? && r.queues == t.queues - {p} && r.loose == t.loose && r.held == t.held
               && r.free == t.free + l[..Fitting(t, l)] && r.known == t.known - Members(l[Fitting(t, l)..])
  {
    Reached(s, steps, t);
    FreeBound(t);
    hide Run, Begun, Inv, After, GivenBack;
    TakesQueue(t, p, id);
    hide Enabled;
    GivenBackAll(After(After(t, Unbind(p, id)), TakeLock(id)));
  }

  lemma FreeBound(t: State)
    requires Inv(t)
    ensures |t.free| <= FREE_LIST
  {
  }

  lemma TakesQueue(t: State, p: nat, id: nat)
    requires Enabled(t, Unbind(p, id)) && t.pc.Idle?
    ensures var u := After(t, Unbind(p, id));
            && Enabled(u, TakeLock(id))
            && After(u, TakeLock(id)) == t.(queues := t.queues - {p}, pc := Unbinding(t.queues[p]))
  {
    hide ParseUdp, Bytes;
    assert t.loose[id := t.queues[p]] - {id} == t.loose;
  }

  // ----- sending -----

  ghost predicate Sending(p: Pc) { p.Filled? || p.Started? }

  /** No packet is longer than an Ethernet frame, and the descriptor of the packet being sent has
      its length. */
  ghost predicate SendOk(s: State)
    requires RingShape(s)
  {
    && (forall b :: b in s.len ==> s.len[b] <= 1514)
    && (Sending(s.pc) ==> s.txDesc[s.txHead].len == |Bytes(s, s.pc.buf)|)
  }

  lemma BytesBound(s: State, b: nat)
    requires RingShape(s) && SendOk(s)
    ensures |Bytes(s, b)| <= 1514
  {
  }

  lemma SendOkKeeps(s: State, e: Step)
    requires Inv(s) && SendOk(s) && Enabled(s, e)
    ensures RingShape(After(s, e)) && SendOk(After(s, e))
  {
    LensKept(s, e);
    hide Inv, After;
    if Sending(After(s, e).pc) {
      if e.Send? {
        BytesBound(s, e.b);
        SendsLength(s, e.b);
      } else {
        StillSending(s, e);
        StaysInFlight(s, e);
      }
    }
  }

  lemma LensKept(s: State, e: Step)
    requires Inv(s) && SendOk(s) && Enabled(s, e)
    ensures RingShape(After(s, e)) && forall b :: b in After(s, e).len ==> After(s, e).len[b] <= 1514
  {
    hide Inv, After;
    StepKeeps(s, e);
    ShapeOf(After(s, e));
    if e.Fill? || e.CardWrites? || e.Advance? { Overwritten(s, e); } else { DataKept(s, e); }
  }

  lemma ShapeOf(s: State)
    requires Inv(s)
    ensures RingShape(s)
  {
  }

  lemma SendsLength(s: State, b: nat)
    requires Enabled(s, Send(b)) && |Bytes(s, b)| <= 1514
    ensures var s' := After(s, Send(b)); RingShape(s') && s'.txDesc[s'.txHead].len == |Bytes(s', s'.pc.buf)|
  {
    hide ParseUdp;
  }

  lemma StillSending(s: State, e: Step)
    requires Enabled(s, e) && Sending(After(s, e).pc) && !e.Send?
    ensures var s' := After(s, e);
            && RingShape(s') && Sending(s.pc) && s'.pc.buf == s.pc.buf && s'.txDesc[s'.txHead].len == s.txDesc[s.txHead].len
  {
    hide ParseUdp, Bytes;
  }

  lemma StaysInFlight(s: State, e: Step)
    requires Inv(s) && Enabled(s, e) && Sending(s.pc)
    ensures Bytes(After(s, e), s.pc.buf) == Bytes(s, s.pc.buf)
  {
    assert At(s, InFlight, s.pc.buf);
    assert e.Fill? ==> At(s, Held, e.b);
    hide RxOk, TxOk, QueuesOk, Lists, RingShape, Bytes, ParseUdp, After;
    BytesKeptBy(s, e, InFlight, s.pc.buf);
  }

  lemma {:induction false} SendOkRun(s: State, steps: seq<Step>, t: State)
    requires Inv(s) && SendOk(s) && Run(s, steps, t)
    ensures Inv(t) && SendOk(t)
    decreases |steps|
  {
    if steps != [] {
      hide After, Enabled, Exact, Lists, RxOk, TxOk, QueuesOk;
      StepKeeps(s, steps[0]);
      SendOkKeeps(s, steps[0]);
      SendOkRun(After(s, steps[0]), steps[1..], t);
    }
  }

  /** Over every run, what the card is told to send is exactly the packet handed to the driver: its
      buffer, and its length, which fits in the descriptor's 16 bits. */
  lemma CardSendsPacket(s: State, steps: seq<Step>, t: State)
    requires Begun(s) && Run(s, steps, t) && RingShape(t) && t.tdh != t.tdt
    ensures t.pc.Started? && t.txDesc[t.tdh].buffer == t.pc.buf && t.txDesc[t.tdh].len == |Bytes(t, t.pc.buf)| <= 1514
  {
    BegunInv(s);
    SendOkRun(s, steps, t);
    hide Run, Begun;
    CardReadsSent(t);
    BytesBound(t, t.pc.buf);
  }

  /** A packet allocated and filled by a caller. */
  ghost function Prepared(s: State, spare: nat, bytes: seq<Byte>, n: nat): (r: State)
    requires Enabled(s, Allocate(spare)) && n <= |bytes| && n <= 1514
    ensures r.pc.Idle? && RingShape(r) && r.held == s.held + {spare} && SameRings(s, r)
    ensures r.data == s.data[spare := bytes] && r.len == s.len[spare := n] && r.queues == s.queues && r.loose == s.loose
    ensures r.free == Handed(s, spare).free && r.known == s.known + {spare}
  {
    hide ParseUdp, Bytes;
    After(After(s, Allocate(spare)), Fill(spare, bytes, n))
  }

  /** It is handed to the driver, which starts the card. */
  ghost function Started(s: State, b: nat): (r: State)
    requires RingShape(s) && s.pc.Idle? && b in s.held
    ensures r.pc == Pc.Started(b) && RingShape(r) && r.held == s.held - {b} && r.data == s.data && r.len == s.len
    ensures r.txDesc == s.txDesc[s.txHead := TxDesc(b, |Bytes(s, b)| % 0x1_0000, false)] && r.txHead == s.txHead
    ensures r.tdt == (s.txHead + 1) % TX && r.tdh == s.tdh && r.queues == s.queues && r.loose == s.loose
    ensures r.free == s.free && r.known == s.known
  {
    hide ParseUdp, Bytes;
    After(After(s, Send(b)), Start)
  }

  /** The card sends it, and the driver puts the buffer back. */
  ghost function Sent(s: State): (r: State)
    requires RingShape(s) && s.pc.Started? && s.tdh == s.txHead && s.tdh != s.tdt
    ensures r.pc.Idle? && r.txHead == (s.txHead + 1) % TX && PutBack(s, r, s.pc.buf)
    ensures r.held == s.held && r.queues == s.queues && r.data == s.data && r.len == s.len && r.loose == s.loose
  {
    hide ParseUdp, Bytes;
    After(After(s, CardSends), Finish)
  }

  /** Over every run, a send that is not interfered with: the card is given the bytes put in the
      packet, the ring goes one slot on, and the buffer is free again. */
  lemma SendPath(s: State, steps: seq<Step>, t: State, spare: nat, bytes: seq<Byte>, n: nat)
    requires Begun(s) && Run(s, steps, t) && Enabled(t, Allocate(spare)) && n <= |bytes| && n <= 1514
    ensures var r := Started(Prepared(t, spare, bytes, n), spare);
            && r.tdh == r.txHead != r.tdt && r.txDesc[r.tdh] == TxDesc(spare, n, false) && Bytes(r, spare) == bytes[..n]
            && var done := Sent(r);
               && done.pc.Idle? && done.txHead == (t.txHead + 1) % TX && done.held == t.held && done.queues == t.queues
               && done.free == (if t.free == [] then [spare] else t.free) && done.known == t.known + {spare}
  {
    Reached(s, steps, t);
    hide Run, Begun, Inv, Enabled, After, Bytes, PutBack, Handed, Started, Prepared, Sent;
    SpareBuffer(t, spare);
    HandsOver(t, spare, bytes, n);
    SentFrom(t, Started(Prepared(t, spare, bytes, n), spare), spare);
  }

  lemma SentFrom(t: State, r: State, spare: nat)
    requires RingShape(r) && r.pc == Pc.Started(spare) && r.tdh == r.txHead == t.txHead && r.tdh != r.tdt
    requires |t.free| <= FREE_LIST && (t.free != [] ==> spare == t.free[|t.free| - 1])
    requires r.held == t.held && r.queues == t.queues && r.free == Handed(t, spare).free && r.known == t.known + {spare}
    ensures var done := Sent(r);
            && done.pc.Idle? && done.txHead == (t.txHead + 1) % TX && done.held == t.held && done.queues == t.queues
            && done.free == (if t.free == [] then [spare] else t.free) && done.known == t.known + {spare}
  {
    hide After, RingShape, PutBack, Handed;
    FreeAgain(t, r, Sent(r), spare);
  }

  lemma HandsOver(t: State, spare: nat, bytes: seq<Byte>, n: nat)
    requires Enabled(t, Allocate(spare)) && n <= |bytes| && n <= 1514 && spare !in t.held && t.tdh == t.txHead
    ensures var r := Started(Prepared(t, spare, bytes, n), spare);
            && RingShape(r) && r.tdh == r.txHead == t.txHead && r.tdt != r.tdh && r.pc == Pc.Started(spare)
            && r.txDesc[r.tdh] == TxDesc(spare, n, false) && Bytes(r, spare) == bytes[..n]
            && r.held == t.held && r.queues == t.queues && r.free == Handed(t, spare).free && r.known == t.known + {spare}
  {
    hide After, Bytes, Handed, Enabled;
    var p := Prepared(t, spare, bytes, n);
    var r := Started(p, spare);
    FilledBytes(p, spare, bytes, n);
    FilledBytes(r, spare, bytes, n);
    assert t.held + {spare} - {spare} == t.held;
    assert r.tdt == (t.txHead + 1) % TX != t.txHead;
  }

  lemma FreeAgain(t: State, r: State, done: State, spare: nat)
    requires |t.free| <= FREE_LIST && PutBack(r, done, spare)
    requires t.free != [] ==> spare == t.free[|t.free| - 1]
    requires r.free == Handed(t, spare).free && r.known == t.known + {spare}
    ensures done.free == (if t.free == [] then [spare] else t.free) && done.known == t.known + {spare}
  {
    assert t.free != [] ==> t.free == t.free[..|t.free| - 1] + [spare];
  }

  /** A buffer to hand out is in nobody's hands, and while the driver is idle the send ring is
      empty. */
  lemma SpareBuffer(t: State, spare: nat)
    requires Inv(t) && Enabled(t, Allocate(spare))
    ensures spare !in t.held && t.tdh == t.tdt == t.txHead && RingShape(t) && |t.free| <= FREE_LIST
    ensures t.free != [] ==> spare == t.free[|t.free| - 1] && spare in t.known
  {
    hide RxOk, QueuesOk;
    assert At(t, if t.free == [] then Outside else FreeList, spare);
    assert spare in t.held ==> At(t, Held, spare);
    assert t.free != [] && spare !in t.known ==> At(t, Outside, spare);
  }

  lemma FilledBytes(r: State, b: nat, bytes: seq<Byte>, n: nat)
    requires b in r.data && r.data[b] == bytes && b in r.len && r.len[b] == n <= |bytes|
    ensures Bytes(r, b) == bytes[..n]
  {
  }

  /** A packet allocated and dropped without being sent no longer exists; nothing else changes. */
  lemma Discarded(s: State, steps: seq<Step>, t: State, spare: nat)
    requires Begun(s) && Run(s, steps, t) && Enabled(t, Allocate(spare))
    ensures var a := After(t, Allocate(spare));
            && spare in a.held && Enabled(a, Discard(spare))
            && var d := After(a, Discard(spare));
               d.held == t.held && d.known == t.known - {spare} && d.queues == t.queues && d.pc.Idle?
  {
    Reached(s, steps, t);
    hide Run, Begun, Inv, After;
    SpareBuffer(t, spare);
    DropsSpare(t, spare);
  }

  lemma DropsSpare(t: State, spare: nat)
    requires Enabled(t, Allocate(spare)) && spare !in t.held
    ensures var a := After(t, Allocate(spare));
            && spare in a.held && Enabled(a, Discard(spare))
            && After(a, Discard(spare)) == t.(free := a.free, known := t.known - {spare})
  {
    hide ParseUdp, Bytes;
    assert t.held + {spare} - {spare} == t.held;
    assert t.known + {spare} - {spare} == t.known - {spare};
  }
}
