/** Packet buffers shared with the network card. The card fills receive buffers and reads send
    buffers on its own, between any two steps of the driver; every buffer has one place. */
module NicRing {
  import opened Basics
  import opened Checksums
  import opened Packets

  const RX: nat := 8
  const TX: nat := 16
  const FREE_LIST: nat := 128

  datatype RxDesc = RxDesc(buffer: nat, len: nat, done: bool)
  datatype TxDesc = TxDesc(buffer: nat, len: nat, done: bool)

  /** What the holder of the driver lock is in the middle of. A receive: new buffer allocated,
      swapped in, descriptor rewritten, packet leased to the UDP layer. A send: descriptor
      written, card started. Or giving back the packets of a port no longer bound. */
  datatype Pc =
    | Idle
    | Allocated(port: nat, buf: nat, len: nat)
    | Swapped(port: nat, buf: nat, len: nat)
    | Described(port: nat, buf: nat, len: nat)
    | Leased(port: nat, buf: nat)
    | Filled(buf: nat)
    | Started(buf: nat)
    | Unbinding(rest: seq<nat>)

  /** Driver and card registers, rings, free list, packets allocated by callers, packets queued
      for bound ports, queues taken off their port that wait for the driver lock, the addresses
      of all buffers that exist, and what each holds. */
  datatype State = State(
    rxDesc: seq<RxDesc>, rxBufs: seq<nat>, rxHead: nat, rdh: nat, rdt: nat,
    txDesc: seq<TxDesc>, txHead: nat, tdh: nat, tdt: nat,
    free: seq<nat>, held: set<nat>, queues: map<nat, seq<nat>>, loose: map<nat, seq<nat>>, pc: Pc, known: set<nat>,
    data: map<nat, seq<Byte>>, len: map<nat, nat>)

  predicate RingShape(s: State) {
    && |s.rxDesc| == RX && |s.rxBufs| == RX && s.rxHead < RX && s.rdh < RX && s.rdt < RX
    && |s.txDesc| == TX && s.txHead < TX && s.tdh < TX && s.tdt < TX
  }

  // ----- places -----

  datatype Place = Outside | RxSlot(i: nat) | FreeList | Held | InFlight | Queued(port: nat) | Loose(id: nat) | Unbound

  predicate Carries(p: Pc, b: nat) { !p.Idle? && !p.Unbinding? && p.buf == b }

  ghost predicate At(s: State, p: Place, b: nat) {
    match p
    case Outside => b !in s.known
    case RxSlot(i) => i < |s.rxBufs| && s.rxBufs[i] == b
    case FreeList => b in s.free
    case Held => b in s.held
    case InFlight => Carries(s.pc, b)
    case Queued(port) => port in s.queues && b in s.queues[port]
    case Loose(id) => id in s.loose && b in s.loose[id]
    case Unbound => s.pc.Unbinding? && b in s.pc.rest
  }

  ghost predicate Placed(s: State, b: nat) { exists p :: At(s, p, b) }

  /** Every address is in exactly one place: a buffer of the driver in one of its lists or
      rings or hands, any other address outside. */
  ghost predicate Exact(s: State) {
    && (forall b: nat :: Placed(s, b))
    && (forall p, q, b: nat :: At(s, p, b) && At(s, q, b) ==> p == q)
  }

  // ----- the steps -----

  /** Slots from `head` on, counted around the ring. */
  function Off(i: nat, head: nat): int { if i >= head then i - head else i + RX - head }

  /** The slots the card may fill: from its head up to, not including, the tail. */
  predicate CardOwns(s: State, k: nat) { k < RX && s.rdh < RX && s.rdt < RX && Off(k, s.rdh) < Off(s.rdt, s.rdh) }

  function Bytes(s: State, b: nat): seq<Byte> {
    var d := if b in s.data then s.data[b] else [];
    var n := if b in s.len then s.len[b] else 0;
    if n <= |d| then d[..n] else d
  }

  /** The packet in the buffer parses as UDP to the port. */
  predicate UdpTo(s: State, b: nat, port: nat) {
    var u := ParseUdp(Bytes(s, b));
    u.Some? && u.value.dstPort == port
  }

  datatype Step =
    | CardWrites(slot: nat, bytes: seq<Byte>) | CardCompletes(n: nat) | CardSends
    | Bind(p: nat) | Unbind(p: nat, id: nat) | TakeLock(id: nat) | GiveBack
    | Serve(p: nat)
    | Receive(p: nat, spare: nat) | Swap | Describe | Advance | Deliver
    | Allocate(spare: nat) | Fill(b: nat, bytes: seq<Byte>, n: nat) | Discard(b: nat)
    | Send(b: nat) | Start | Finish

  /** A buffer to hand out: the last of the free list, or a new one. */
  ghost predicate Available(s: State, spare: nat) {
    if s.free == [] then spare !in s.known else spare == s.free[|s.free| - 1]
  }

  ghost function Handed(s: State, spare: nat): State {
    s.(free := if s.free == [] then [] else s.free[..|s.free| - 1], known := s.known + {spare})
  }

  /** A buffer put back: on the free list if there is room, otherwise back to the system. */
  ghost function Released(s: State, b: nat): State {
    var room := |s.free| < FREE_LIST;
    s.(free := if room then s.free + [b] else s.free, known := if room then s.known else s.known - {b})
  }

  /** The first packet queued for a port handed to its receiver and put back. */
  ghost function Served(s: State, p: nat): State
    requires p in s.queues && s.queues[p] != []
  {
    Released(s, s.queues[p][0]).(queues := s.queues[p := s.queues[p][1..]])
  }

  /** A receive holds the lock on the bound ports from start to end. */
  predicate InReceive(p: Pc) { p.Allocated? || p.Swapped? || p.Described? || p.Leased? }

  ghost predicate Enabled(s: State, e: Step) {
    && RingShape(s)
    && match e
       case CardWrites(k, bytes) => CardOwns(s, k)
       case CardCompletes(n) => s.rdh != s.rdt
       case CardSends => s.tdh != s.tdt
       case Bind(p) => !InReceive(s.pc) && p !in s.queues
       case Unbind(p, id) => !InReceive(s.pc) && p in s.queues && id !in s.loose
       case TakeLock(id) => s.pc.Idle? && id in s.loose
       case GiveBack => s.pc.Unbinding?
       case Serve(p) => s.pc.Idle? && p in s.queues && s.queues[p] != [] && ParseUdp(Bytes(s, s.queues[p][0])).Some?
       case Receive(p, spare) =>
         s.pc.Idle? && p in s.queues && s.queues[p] == [] && s.rxDesc[s.rxHead].done && Available(s, spare)
       case Swap => s.pc.Allocated?
       case Describe => s.pc.Swapped?
       case Advance => s.pc.Described? && s.pc.len <= 1514
       case Deliver => s.pc.Leased?
       case Allocate(spare) => s.pc.Idle? && Available(s, spare)
       case Fill(b, bytes, n) => b in s.held && n <= 1514
       case Discard(b) => b in s.held
       case Send(b) => s.pc.Idle? && b in s.held
       case Start => s.pc.Filled?
       case Finish => s.pc.Started? && s.txDesc[s.txHead].done
  }

  ghost function After(s: State, e: Step): State
    requires Enabled(s, e)
  {
    match e
    case CardWrites(k, bytes) => s.(data := s.data[s.rxDesc[k].buffer := bytes])
    case CardCompletes(n) =>
      s.(rxDesc := s.rxDesc[s.rdh := RxDesc(s.rxDesc[s.rdh].buffer, n, true)], rdh := (s.rdh + 1) % RX)
    case CardSends =>
      s.(txDesc := s.txDesc[s.tdh := TxDesc(s.txDesc[s.tdh].buffer, s.txDesc[s.tdh].len, true)], tdh := (s.tdh + 1) % TX)
    case Bind(p) => s.(queues := s.queues[p := []])
    case Unbind(p, id) => s.(loose := s.loose[id := s.queues[p]], queues := s.queues - {p})
    case TakeLock(id) => s.(pc := Unbinding(s.loose[id]), loose := s.loose - {id})
    case GiveBack =>
      if s.pc.rest == [] then s.(pc := Idle)
      else Released(s, s.pc.rest[0]).(pc := Unbinding(s.pc.rest[1..]))
    case Serve(p) => Served(s, p)
    case Receive(p, spare) => Handed(s, spare).(pc := Allocated(p, spare, s.rxDesc[s.rxHead].len))
    case Swap =>
      s.(rxBufs := s.rxBufs[s.rxHead := s.pc.buf], pc := Swapped(s.pc.port, s.rxBufs[s.rxHead], s.pc.len))
    case Describe =>
      s.(rxDesc := s.rxDesc[s.rxHead := RxDesc(s.rxBufs[s.rxHead], 0, false)], pc := Described(s.pc.port, s.pc.buf, s.pc.len))
    case Advance =>
      s.(rdt := s.rxHead, rxHead := (s.rxHead + 1) % RX, len := s.len[s.pc.buf := s.pc.len],
         pc := Leased(s.pc.port, s.pc.buf))
    case Deliver =>
      var u := ParseUdp(Bytes(s, s.pc.buf));
      if u.Some? && u.value.dstPort != s.pc.port && u.value.dstPort in s.queues then
        s.(queues := s.queues[u.value.dstPort := s.queues[u.value.dstPort] + [s.pc.buf]], pc := Idle)
      else
        Released(s, s.pc.buf).(pc := Idle)
    case Allocate(spare) => Handed(s, spare).(held := s.held + {spare})
    case Fill(b, bytes, n) => s.(data := s.data[b := bytes], len := s.len[b := n])
    case Discard(b) => s.(held := s.held - {b}, known := s.known - {b})
    case Send(b) =>
      s.(txDesc := s.txDesc[s.txHead := TxDesc(b, |Bytes(s, b)| % 0x1_0000, false)], held := s.held - {b}, pc := Filled(b))
    case Start => s.(tdt := (s.txHead + 1) % TX, pc := Started(s.pc.buf))
    case Finish => Released(s, s.pc.buf).(txHead := (s.txHead + 1) % TX, pc := Idle)
  }

  // ----- the invariant -----

  ghost predicate Lists(s: State) {
    && Distinct(s.free) && |s.free| <= FREE_LIST && (s.pc.Unbinding? ==> Distinct(s.pc.rest))
    && (forall p :: p in s.queues ==> Distinct(s.queues[p])) && (forall id :: id in s.loose ==> Distinct(s.loose[id]))
  }

  predicate Receiving(p: Pc) { p.Allocated? || p.Swapped? || p.Described? }

  /** The receive ring: the tail one slot behind the head, the packets that arrived next to be
      read, every descriptor naming the buffer of its slot. */
  ghost predicate RxOk(s: State)
    requires RingShape(s)
  {
    && s.rdt == (if s.rxHead == 0 then RX - 1 else s.rxHead - 1)
    && (forall i :: 0 <= i < RX ==>
          (s.rxDesc[i].done <==> Off(i, s.rxHead) < Off(s.rdh, s.rxHead) && !(s.pc.Described? && i == s.rxHead)))
    && (forall i :: 0 <= i < RX && !(s.pc.Swapped? && i == s.rxHead) ==> s.rxDesc[i].buffer == s.rxBufs[i])
    && (Receiving(s.pc) ==> s.rdh != s.rxHead)
  }

  /** The send ring: outside a send it is empty, in a send it holds the packet being sent. */
  ghost predicate TxOk(s: State)
    requires RingShape(s)
  {
    if s.pc.Started? then
      && s.tdt == (s.txHead + 1) % TX && s.txDesc[s.txHead].buffer == s.pc.buf
      && (if s.txDesc[s.txHead].done then s.tdh == s.tdt else s.tdh == s.txHead)
    else
      && s.tdt == s.txHead && s.tdh == s.txHead
      && (s.pc.Filled? ==> s.txDesc[s.txHead].buffer == s.pc.buf && !s.txDesc[s.txHead].done)
  }

  ghost predicate QueuesOk(s: State) { forall p, b :: p in s.queues && b in s.queues[p] ==> UdpTo(s, b, p) }

  ghost predicate Inv(s: State) { RingShape(s) && Exact(s) && Lists(s) && RxOk(s) && TxOk(s) && QueuesOk(s) }

  // ----- moving buffers -----

  /** Only the two places differ. */
  ghost predicate Elsewhere(s: State, s': State, from: Place, to: Place) {
    forall p, b: nat :: p != from && p != to ==> (At(s', p, b) <==> At(s, p, b))
  }

  lemma SamePlaces(s: State, s': State)
    requires Exact(s) && forall p, b: nat :: At(s', p, b) <==> At(s, p, b)
    ensures Exact(s')
  {
    hide At;
    forall b: nat
      ensures Placed(s', b)
    {
      assert Placed(s, b);
      var p :| At(s, p, b);
      assert At(s', p, b);
    }
  }

  /** Nothing that decides places changed. */
  predicate SameHolders(s: State, s': State) {
    && s'.rxBufs == s.rxBufs && s'.free == s.free && s'.held == s.held && s'.loose == s.loose && s'.known == s.known
    && (forall p :: p in s'.queues && s'.queues[p] != [] ==> p in s.queues && s'.queues[p] == s.queues[p])
    && (forall p :: p in s.queues && s.queues[p] != [] ==> p in s'.queues && s'.queues[p] == s.queues[p])
    && (s'.pc == s.pc
        || (InHand(s.pc) && InHand(s'.pc) && s'.pc.buf == s.pc.buf)
        || (s.pc == Unbinding([]) && s'.pc.Idle?))
  }

  predicate InHand(p: Pc) { !p.Idle? && !p.Unbinding? }

  lemma SameHands(s: State, s': State)
    requires Exact(s) && SameHolders(s, s')
    ensures Exact(s')
  {
    forall p, b: nat
      ensures At(s', p, b) <==> At(s, p, b)
    {
    }
    hide At, Exact;
    SamePlaces(s, s');
  }

  /** One buffer went from one place to another. */
  lemma OneMove(s: State, s': State, b: nat, from: Place, to: Place)
    requires Exact(s) && At(s, from, b) && from != to && Elsewhere(s, s', from, to)
    requires forall x: nat :: At(s', from, x) <==> At(s, from, x) && x != b
    requires forall x: nat :: At(s', to, x) <==> At(s, to, x) || x == b
    ensures Exact(s')
  {
    hide At;
    forall x: nat
      ensures Placed(s', x)
    {
      assert Placed(s, x);
      var p :| At(s, p, x);
      assert At(s', if x == b then to else p, x);
    }
    forall p, q, x: nat | At(s', p, x) && At(s', q, x)
      ensures p == q
    {
      assert x != b ==> At(s, p, x) && At(s, q, x);
      assert x == b ==> At(s, from, x);
    }
  }

  /** All buffers of one place went to another that was empty. */
  lemma AllMove(s: State, s': State, from: Place, to: Place)
    requires Exact(s) && from != to && Elsewhere(s, s', from, to)
    requires forall x: nat :: !At(s, to, x) && !At(s', from, x)
    requires forall x: nat :: At(s', to, x) <==> At(s, from, x)
    ensures Exact(s')
  {
    hide At;
    forall x: nat
      ensures Placed(s', x)
    {
      assert Placed(s, x);
      var p :| At(s, p, x);
      assert At(s', if p == from then to else p, x);
    }
    forall p, q, x: nat | At(s', p, x) && At(s', q, x)
      ensures p == q
    {
      assert At(s, if p == to then from else p, x) && At(s, if q == to then from else q, x);
    }
  }

  /** The only buffers of two places changed places. */
  lemma Exchange(s: State, s': State, p: Place, x: nat, q: Place, y: nat)
    requires Exact(s) && p != q && Elsewhere(s, s', p, q)
    requires forall b: nat :: (At(s, p, b) <==> b == x) && (At(s, q, b) <==> b == y)
    requires forall b: nat :: (At(s', p, b) <==> b == y) && (At(s', q, b) <==> b == x)
    ensures Exact(s')
  {
    hide At;
    assert At(s, p, x) && At(s, q, y);
    forall b: nat
      ensures Placed(s', b)
    {
      assert Placed(s, b);
      var r :| At(s, r, b);
      assert At(s', if r == p then q else if r == q then p else r, b);
    }
    forall r, t, b: nat | At(s', r, b) && At(s', t, b)
      ensures r == t
    {
      assert At(s, if r == p then q else if r == q then p else r, b);
      assert At(s, if t == p then q else if t == q then p else t, b);
    }
  }

  /** Queued packets whose bytes did not change still parse. */
  lemma QueuesKept(s: State, s': State)
    requires QueuesOk(s)
    requires forall p, b :: p in s'.queues && b in s'.queues[p] ==>
               p in s.queues && b in s.queues[p] && Bytes(s', b) == Bytes(s, b)
    ensures QueuesOk(s')
  {
    hide Bytes;
  }

  /** No packet changed and none was queued. */
  lemma QueuesShrunk(s: State, s': State)
    requires QueuesOk(s) && s'.data == s.data && s'.len == s.len
    requires forall p, b :: p in s'.queues && b in s'.queues[p] ==> p in s.queues && b in s.queues[p]
    ensures QueuesOk(s')
  {
    QueuesKept(s, s');
  }

  // ----- the card's steps -----

  /** The card writes only into the buffer of a receive slot. */
  lemma CardWritesRing(s: State, k: nat)
    requires Inv(s) && CardOwns(s, k)
    ensures At(s, RxSlot(k), s.rxDesc[k].buffer) && !s.rxDesc[k].done && !(Receiving(s.pc) && k == s.rxHead)
  {
    hide Exact, Lists, QueuesOk;
  }

  lemma CardWritesKeeps(s: State, e: Step)
    requires Inv(s) && Enabled(s, e) && e.CardWrites?
    ensures Inv(After(s, e))
  {
    hide ParseUdp;
    var s' := After(s, e);
    CardWritesRing(s, e.slot);
    SameHands(s, s');
    forall p, b | p in s.queues && b in s.queues[p]
      ensures Bytes(s', b) == Bytes(s, b)
    {
      assert At(s, Queued(p), b);
    }
    QueuesKept(s, s');
  }

  lemma CardCompletesKeeps(s: State, n: nat)
    requires Inv(s) && Enabled(s, CardCompletes(n))
    ensures Inv(After(s, CardCompletes(n)))
  {
    hide ParseUdp, UdpTo, Bytes;
    var s' := After(s, CardCompletes(n));
    SameHands(s, s');
    QueuesShrunk(s, s');
    hide Exact, QueuesOk, Lists;
  }

  /** The card reads only the buffer of the packet being sent. */
  lemma CardReadsSent(s: State)
    requires Inv(s) && s.tdh != s.tdt
    ensures s.pc.Started? && s.tdh == s.txHead && s.txDesc[s.tdh].buffer == s.pc.buf && At(s, InFlight, s.txDesc[s.tdh].buffer)
  {
  }

  lemma CardSendsKeeps(s: State)
    requires Inv(s) && Enabled(s, CardSends)
    ensures Inv(After(s, CardSends))
  {
    hide ParseUdp, UdpTo, Bytes;
    var s' := After(s, CardSends);
    CardReadsSent(s);
    SameHands(s, s');
    QueuesShrunk(s, s');
  }

  // ----- steps that move no buffer -----

  /** Neither ring is being changed. */
  predicate Apart(p: Pc) { p.Idle? || p.Leased? || p.Unbinding? }

  predicate SameRings(s: State, s': State) {
    && s'.rxDesc == s.rxDesc && s'.rxBufs == s.rxBufs && s'.rxHead == s.rxHead && s'.rdh == s.rdh && s'.rdt == s.rdt
    && s'.txDesc == s.txDesc && s'.txHead == s.txHead && s'.tdh == s.tdh && s'.tdt == s.tdt
  }

  lemma RingsKept(s: State, s': State)
    requires RingShape(s) && RxOk(s) && TxOk(s) && SameRings(s, s')
    requires s'.pc == s.pc || (Apart(s.pc) && Apart(s'.pc))
    ensures RingShape(s') && RxOk(s') && TxOk(s')
  {
  }

  lemma BindKeeps(s: State, p: nat)
    requires Inv(s) && Enabled(s, Bind(p))
    ensures Inv(After(s, Bind(p)))
  {
    hide ParseUdp, UdpTo, Bytes;
    var s' := After(s, Bind(p));
    RingsKept(s, s');
    QueuesShrunk(s, s');
    hide RxOk, TxOk, QueuesOk;
    SameHands(s, s');
  }

  lemma DescribeKeeps(s: State)
    requires Inv(s) && Enabled(s, Describe)
    ensures Inv(After(s, Describe))
  {
    hide ParseUdp, UdpTo, Bytes;
    var s' := After(s, Describe);
    QueuesShrunk(s, s');
    assert RxOk(s') && TxOk(s');
    hide RxOk, TxOk, QueuesOk;
    SameHands(s, s');
  }

  lemma StartKeeps(s: State)
    requires Inv(s) && Enabled(s, Start)
    ensures Inv(After(s, Start))
  {
    hide ParseUdp, UdpTo, Bytes;
    var s' := After(s, Start);
    QueuesShrunk(s, s');
    assert RxOk(s') && TxOk(s');
    hide RxOk, TxOk, QueuesOk;
    SameHands(s, s');
  }

  /** Setting the length of the packet received touches no queued packet. */
  lemma AdvanceBytes(s: State)
    requires RingShape(s) && Exact(s) && Enabled(s, Advance)
    ensures forall p, b :: p in s.queues && b in s.queues[p] ==> Bytes(After(s, Advance), b) == Bytes(s, b)
  {
    hide ParseUdp;
    forall p, b | p in s.queues && b in s.queues[p]
      ensures Bytes(After(s, Advance), b) == Bytes(s, b)
    {
      assert At(s, Queued(p), b) && At(s, InFlight, s.pc.buf);
    }
  }

  lemma AdvanceKeeps(s: State)
    requires Inv(s) && Enabled(s, Advance)
    ensures Inv(After(s, Advance))
  {
    hide ParseUdp, UdpTo;
    var s' := After(s, Advance);
    SameHands(s, s');
    AdvanceBytes(s);
    QueuesKept(s, s');
    hide Exact, QueuesOk, Lists, Bytes, At, SameHolders;
  }

  /** Neither does writing into a packet of one's own. */
  lemma FillBytes(s: State, e: Step)
    requires RingShape(s) && Exact(s) && Enabled(s, e) && e.Fill?
    ensures forall p, b :: p in s.queues && b in s.queues[p] ==> Bytes(After(s, e), b) == Bytes(s, b)
  {
    hide ParseUdp;
    forall p, b | p in s.queues && b in s.queues[p]
      ensures Bytes(After(s, e), b) == Bytes(s, b)
    {
      assert At(s, Queued(p), b) && At(s, Held, e.b);
    }
  }

  lemma FillKeeps(s: State, e: Step)
    requires Inv(s) && Enabled(s, e) && e.Fill?
    ensures Inv(After(s, e))
  {
    hide ParseUdp, UdpTo;
    var s' := After(s, e);
    SameHands(s, s');
    RingsKept(s, s');
    FillBytes(s, e);
    QueuesKept(s, s');
    hide Exact, QueuesOk, Bytes, At, RxOk, TxOk, SameHolders;
  }

  // ----- steps that move buffers -----

  lemma Unqueued(l: seq<nat>)
    requires Distinct(l) && l != []
    ensures Distinct(l[1..]) && forall b :: b in l[1..] <==> b in l && b != l[0]
  {
    assert l == [l[0]] + l[1..];
    assert forall i :: 0 <= i < |l[1..]| ==> l[1..][i] == l[i + 1];
  }

  lemma Popped(l: seq<nat>)
    requires Distinct(l) && l != []
    ensures var n := |l| - 1; Distinct(l[..n]) && forall b :: b in l[..n] <==> b in l && b != l[n]
  {
    var n := |l| - 1;
    assert l == l[..n] + [l[n]];
  }

  lemma UnbindKeeps(s: State, p: nat, id: nat)
    requires Inv(s) && Enabled(s, Unbind(p, id))
    ensures Inv(After(s, Unbind(p, id)))
  {
    hide ParseUdp, UdpTo, Bytes;
    var s' := After(s, Unbind(p, id));
    RingsKept(s, s');
    QueuesShrunk(s, s');
    hide RxOk, TxOk, QueuesOk, Exact;
    AllMove(s, s', Queued(p), Loose(id));
  }

  lemma TakeLockKeeps(s: State, id: nat)
    requires Inv(s) && Enabled(s, TakeLock(id))
    ensures Inv(After(s, TakeLock(id)))
  {
    hide ParseUdp, UdpTo, Bytes;
    var s' := After(s, TakeLock(id));
    RingsKept(s, s');
    QueuesShrunk(s, s');
    hide RxOk, TxOk, QueuesOk, Exact;
    AllMove(s, s', Loose(id), Unbound);
  }

  /** A buffer in one of these places was released; `s'` is `s` without it there. */
  lemma GivenUp(s: State, s': State, b: nat, from: Place)
    requires Exact(s) && Lists(s) && At(s, from, b) && from != Outside && from != FreeList
    requires s'.known == Released(s, b).known && s'.free == Released(s, b).free
    requires forall p, x: nat :: p != Outside && p != FreeList ==> (At(s', p, x) <==> At(s, p, x) && !(p == from && x == b))
    ensures Exact(s') && Distinct(s'.free) && |s'.free| <= FREE_LIST
  {
    var to := if |s.free| < FREE_LIST then FreeList else Outside;
    assert !At(s, FreeList, b) && !At(s, Outside, b);
    forall x: nat
      ensures At(s', to, x) <==> At(s, to, x) || x == b
      ensures to == FreeList ==> (At(s', Outside, x) <==> At(s, Outside, x))
      ensures to == Outside ==> (At(s', FreeList, x) <==> At(s, FreeList, x))
    {
    }
    hide At, Exact;
    OneMove(s, s', b, from, to);
  }

  lemma GiveBackPlaces(s: State)
    requires RingShape(s) && Exact(s) && Lists(s) && Enabled(s, GiveBack)
    ensures Exact(After(s, GiveBack)) && Lists(After(s, GiveBack))
  {
    hide ParseUdp, Exact;
    var s', l := After(s, GiveBack), s.pc.rest;
    if l == [] {
      SameHands(s, s');
    } else {
      Unqueued(l);
      GivenUp(s, s', l[0], Unbound);
    }
  }

  lemma GiveBackKeeps(s: State)
    requires Inv(s) && Enabled(s, GiveBack)
    ensures Inv(After(s, GiveBack))
  {
    GiveBackPlaces(s);
    hide ParseUdp, UdpTo, Bytes, Exact, Lists;
    RingsKept(s, After(s, GiveBack));
    QueuesShrunk(s, After(s, GiveBack));
  }

  lemma ServePlaces(s: State, p: nat)
    requires RingShape(s) && Exact(s) && Lists(s) && s.pc.Idle? && p in s.queues && s.queues[p] != []
    ensures Exact(Served(s, p)) && Lists(Served(s, p))
  {
    hide Exact;
    Unqueued(s.queues[p]);
    GivenUp(s, Served(s, p), s.queues[p][0], Queued(p));
  }

  lemma ServeKeeps(s: State, p: nat)
    requires Inv(s) && s.pc.Idle? && p in s.queues && s.queues[p] != []
    ensures Inv(Served(s, p))
  {
    ServePlaces(s, p);
    Unqueued(s.queues[p]);
    hide ParseUdp, UdpTo, Bytes, Exact, Lists;
    RingsKept(s, Served(s, p));
    QueuesShrunk(s, Served(s, p));
  }

  /** A buffer handed out was on the free list or nowhere. */
  lemma HandedOut(s: State, s': State, spare: nat, to: Place)
    requires Exact(s) && Lists(s) && Available(s, spare) && to != Outside && to != FreeList
    requires s'.known == Handed(s, spare).known && s'.free == Handed(s, spare).free
    requires forall p, x: nat :: p != Outside && p != FreeList ==> (At(s', p, x) <==> At(s, p, x) || (p == to && x == spare))
    ensures Exact(s') && Distinct(s'.free) && |s'.free| <= FREE_LIST
  {
    var from := if s.free == [] then Outside else FreeList;
    if s.free != [] { Popped(s.free); }
    assert At(s, from, spare);
    assert from == FreeList ==> !At(s, Outside, spare);
    forall x: nat
      ensures At(s', from, x) <==> At(s, from, x) && x != spare
      ensures from == FreeList ==> (At(s', Outside, x) <==> At(s, Outside, x))
      ensures from == Outside ==> (At(s', FreeList, x) <==> At(s, FreeList, x))
    {
    }
    hide At, Exact;
    OneMove(s, s', spare, from, to);
  }

  lemma ReceiveKeeps(s: State, p: nat, spare: nat)
    requires Inv(s) && Enabled(s, Receive(p, spare))
    ensures Inv(After(s, Receive(p, spare)))
  {
    hide ParseUdp, UdpTo, Bytes;
    var s' := After(s, Receive(p, spare));
    assert RxOk(s') && TxOk(s');
    QueuesShrunk(s, s');
    hide RxOk, TxOk, QueuesOk, Exact;
    HandedOut(s, s', spare, InFlight);
  }

  lemma SwapKeeps(s: State)
    requires Inv(s) && Enabled(s, Swap)
    ensures Inv(After(s, Swap))
  {
    hide ParseUdp, UdpTo, Bytes;
    var s' := After(s, Swap);
    assert RxOk(s') && TxOk(s');
    QueuesShrunk(s, s');
    hide RxOk, TxOk, QueuesOk, Exact;
    Exchange(s, s', RxSlot(s.rxHead), s.rxBufs[s.rxHead], InFlight, s.pc.buf);
  }

  lemma DeliverPlaces(s: State)
    requires RingShape(s) && Exact(s) && Lists(s) && Enabled(s, Deliver)
    ensures Exact(After(s, Deliver)) && Lists(After(s, Deliver))
  {
    hide ParseUdp, Bytes;
    var s', b := After(s, Deliver), s.pc.buf;
    var u := ParseUdp(Bytes(s, b));
    assert At(s, InFlight, b);
    if u.Some? && u.value.dstPort != s.pc.port && u.value.dstPort in s.queues {
      assert !At(s, Queued(u.value.dstPort), b);
      hide Exact;
      OneMove(s, s', b, InFlight, Queued(u.value.dstPort));
    } else {
      hide Exact;
      GivenUp(s, s', b, InFlight);
    }
  }

  /** Whether the leased packet is queued or released, it has one place afterwards. */
  lemma DeliverKeeps(s: State)
    requires Inv(s) && Enabled(s, Deliver)
    ensures Inv(After(s, Deliver))
  {
    DeliverPlaces(s);
    DeliverQueues(s);
    hide ParseUdp, Bytes, Exact, Lists, QueuesOk;
    RingsKept(s, After(s, Deliver));
  }

  lemma DeliverQueues(s: State)
    requires RingShape(s) && QueuesOk(s) && Enabled(s, Deliver)
    ensures QueuesOk(After(s, Deliver))
  {
    hide ParseUdp;
    var s', b := After(s, Deliver), s.pc.buf;
    assert forall x :: Bytes(s', x) == Bytes(s, x);
    forall p, x | p in s'.queues && x in s'.queues[p]
      ensures UdpTo(s', x, p)
    {
      assert x in s.queues[p] || x == b;
    }
  }

  lemma AllocateKeeps(s: State, spare: nat)
    requires Inv(s) && Enabled(s, Allocate(spare))
    ensures Inv(After(s, Allocate(spare)))
  {
    hide ParseUdp, UdpTo, Bytes;
    var s' := After(s, Allocate(spare));
    RingsKept(s, s');
    QueuesShrunk(s, s');
    hide RxOk, TxOk, QueuesOk, Exact;
    HandedOut(s, s', spare, Held);
  }

  lemma DiscardKeeps(s: State, b: nat)
    requires Inv(s) && Enabled(s, Discard(b))
    ensures Inv(After(s, Discard(b)))
  {
    hide ParseUdp, UdpTo, Bytes;
    var s' := After(s, Discard(b));
    RingsKept(s, s');
    QueuesShrunk(s, s');
    hide RxOk, TxOk, QueuesOk, Exact;
    OneMove(s, s', b, Held, Outside);
  }

  lemma SendKeeps(s: State, b: nat)
    requires Inv(s) && Enabled(s, Send(b))
    ensures Inv(After(s, Send(b)))
  {
    hide ParseUdp, UdpTo, Bytes;
    var s' := After(s, Send(b));
    assert RxOk(s') && TxOk(s');
    QueuesShrunk(s, s');
    hide RxOk, TxOk, QueuesOk, Exact;
    OneMove(s, s', b, Held, InFlight);
  }

  lemma FinishPlaces(s: State)
    requires RingShape(s) && Exact(s) && Lists(s) && Enabled(s, Finish)
    ensures Exact(After(s, Finish)) && Lists(After(s, Finish))
  {
    hide ParseUdp, Exact;
    GivenUp(s, After(s, Finish), s.pc.buf, InFlight);
  }

  lemma FinishRings(s: State)
    requires RingShape(s) && RxOk(s) && TxOk(s) && Enabled(s, Finish)
    ensures RingShape(After(s, Finish)) && RxOk(After(s, Finish)) && TxOk(After(s, Finish))
  {
    hide ParseUdp, Bytes;
  }

  lemma FinishKeeps(s: State)
    requires Inv(s) && Enabled(s, Finish)
    ensures Inv(After(s, Finish))
  {
    FinishPlaces(s);
    FinishRings(s);
    hide ParseUdp, UdpTo, Bytes, Exact, Lists, RxOk, TxOk;
    QueuesShrunk(s, After(s, Finish));
  }

  lemma StepKeeps(s: State, e: Step)
    requires Inv(s) && Enabled(s, e)
    ensures Inv(After(s, e))
  {
    hide Inv;
    match e
    case CardWrites(_, _) => CardWritesKeeps(s, e);
    case CardCompletes(n) => CardCompletesKeeps(s, n);
    case CardSends => CardSendsKeeps(s);
    case Bind(p) => BindKeeps(s, p);
    case Unbind(p, id) => UnbindKeeps(s, p, id);
    case TakeLock(id) => TakeLockKeeps(s, id);
    case GiveBack => GiveBackKeeps(s);
    case Serve(p) => ServeKeeps(s, p);
    case Receive(p, spare) => ReceiveKeeps(s, p, spare);
    case Swap => SwapKeeps(s);
    case Describe => DescribeKeeps(s);
    case Advance => AdvanceKeeps(s);
    case Deliver => DeliverKeeps(s);
    case Allocate(spare) => AllocateKeeps(s, spare);
    case Fill(_, _, _) => FillKeeps(s, e);
    case Discard(b) => DiscardKeeps(s, b);
    case Send(b) => SendKeeps(s, b);
    case Start => StartKeeps(s);
    case Finish => FinishKeeps(s);
  }

  // ----- whole runs -----

  /** The card as the driver sets it up: a buffer in every receive slot, nothing else. */
  ghost predicate Begun(s: State) {
    && RingShape(s) && s.rxHead == s.rdh == 0 && s.rdt == RX - 1 && s.txHead == s.tdh == s.tdt == 0
    && Distinct(s.rxBufs) && (forall b :: b in s.known <==> b in s.rxBufs)
    && (forall i :: 0 <= i < RX ==> s.rxDesc[i].buffer == s.rxBufs[i] && !s.rxDesc[i].done)
    && s.free == [] && s.held == {} && s.queues == map[] && s.loose == map[] && s.pc.Idle? && s.len == map[]
  }

  ghost predicate Run(s: State, steps: seq<Step>, t: State)
    decreases |steps|
  {
    if steps == [] then s == t else Enabled(s, steps[0]) && Run(After(s, steps[0]), steps[1..], t)
  }

  lemma BegunInv(s: State)
    requires Begun(s)
    ensures Inv(s)
  {
    forall b: nat
      ensures Placed(s, b)
    {
      if b in s.rxBufs {
        var i :| 0 <= i < |s.rxBufs| && s.rxBufs[i] == b;
        assert At(s, RxSlot(i), b);
      } else {
        assert At(s, Outside, b);
      }
    }
  }

  lemma {:induction false} RunKeeps(s: State, steps: seq<Step>, t: State)
    requires Inv(s) && Run(s, steps, t)
    ensures Inv(t)
    decreases |steps|
  {
    hide Inv, After, Enabled;
    if steps != [] {
      StepKeeps(s, steps[0]);
      RunKeeps(After(s, steps[0]), steps[1..], t);
    }
  }

  lemma Reached(s: State, steps: seq<Step>, t: State)
    requires Begun(s) && Run(s, steps, t)
    ensures Inv(t)
  {
    hide Inv, Run;
    BegunInv(s);
    RunKeeps(s, steps, t);
  }

  /** Over every run of card and driver each buffer is in exactly one place. */
  lemma OnePlace(s: State, steps: seq<Step>, t: State, b: nat)
    requires Begun(s) && Run(s, steps, t)
    ensures exists p :: At(t, p, b)
    ensures forall p, q :: At(t, p, b) && At(t, q, b) ==> p == q
    ensures b in t.known <==> exists p :: p != Outside && At(t, p, b)
  {
    Reached(s, steps, t);
    assert Placed(t, b);
    var p :| At(t, p, b);
    assert At(t, Outside, b) <==> b !in t.known;
    hide At;
  }

  /** The receive ring over every run: the tail stays one slot behind the head; outside the
      swap every descriptor names the buffer of its slot. */
  lemma RingIntact(s: State, steps: seq<Step>, t: State)
    requires Begun(s) && Run(s, steps, t)
    ensures RingShape(t) && (t.rdt + 1) % RX == t.rxHead
    ensures forall i :: 0 <= i < RX && !(t.pc.Swapped? && i == t.rxHead) ==> t.rxDesc[i].buffer == t.rxBufs[i]
  {
    Reached(s, steps, t);
  }

  /** Whatever the card writes or reads is the buffer of a receive slot it owns or the packet
      being sent, so it is not free, leased, queued or in a caller's hands. */
  lemma CardTouches(s: State, steps: seq<Step>, t: State, k: nat)
    requires Begun(s) && Run(s, steps, t) && RingShape(t)
    ensures CardOwns(t, k) ==> At(t, RxSlot(k), t.rxDesc[k].buffer)
    ensures t.tdh != t.tdt ==> t.pc.Started? && t.txDesc[t.tdh].buffer == t.pc.buf && At(t, InFlight, t.pc.buf)
  {
    Reached(s, steps, t);
    hide Inv;
    if CardOwns(t, k) { CardWritesRing(t, k); }
    if t.tdh != t.tdt { CardReadsSent(t); }
  }

  /** Every packet queued for a port parses as UDP to that port, so the front of a queue can
      always be served. */
  lemma QueuedIsUdp(s: State, steps: seq<Step>, t: State, p: nat)
    requires Begun(s) && Run(s, steps, t) && p in t.queues
    ensures forall b :: b in t.queues[p] ==> UdpTo(t, b, p)
    ensures t.pc.Idle? && t.queues[p] != [] ==> Enabled(t, Serve(p))
  {
    Reached(s, steps, t);
    hide ParseUdp;
    assert t.queues[p] != [] ==> t.queues[p][0] in t.queues[p];
  }

  /** A packet that arrived is read exactly in the order of the ring: the slot at the head is
      complete whenever the card is ahead of it. */
  lemma NextIsReady(s: State, steps: seq<Step>, t: State)
    requires Begun(s) && Run(s, steps, t) && RingShape(t) && t.pc.Idle?
    ensures t.rxDesc[t.rxHead].done <==> t.rdh != t.rxHead
  {
    Reached(s, steps, t);
  }
}
