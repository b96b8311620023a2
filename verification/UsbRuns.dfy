// Endpoint 0 over whole runs: SETUP and OUT packets, host polls, main-loop
// calls, bus resets and interrupt-endpoint traffic in any order.

module UsbRuns {
  import opened Bytes
  import opened UsbModel

  // ------------------------------------- what a request should return (USB 2.0, 9.4)

  // n bytes of a memory, from offset `off`.
  function MemoryAt(s: seq<byte>, off: nat, n: nat): (r: seq<byte>)
    ensures |r| == n
    ensures forall i :: 0 <= i < n ==> r[i] == At(s, off + i)
  {
    seq<byte>(n, i requires 0 <= i < n => At(s, off + i))
  }

  // A descriptor as it is stored, whatever its length.
  function Stored(f: Flash, kind: byte, index: byte): seq<byte> {
    if kind == 1 then f.device
    else if kind == 2 then f.config
    else if kind == 3 && index == 0 then f.string0
    else if kind == 3 && index == 1 then f.vendor
    else if kind == 3 && index == 2 then f.product
    else if kind == 3 && index == 3 then f.serial
    else if kind == 0x21 then MemoryAt(f.config, 18, 9)
    else if kind == 0x22 then f.hidReport
    else []
  }

  // As much of it as a length of one byte says.
  function Descriptor(f: Flash, kind: byte, index: byte): seq<byte> {
    var stored := Stored(f, kind, index);
    stored[..|stored| % 256]
  }

  // `configuration` is the value last set by the host.
  function FullReply(f: Flash, rq: Request, app: App, configuration: byte): seq<byte> {
    if !Standard(rq) then MemoryAt(app.ram, app.off, if app.len == NO_MSG then rq[6] else app.len)
    else
      match rq[1]
      case 0 => [0, 0]
      case 6 => Descriptor(f, rq[3], rq[2])
      case 8 => [configuration]
      case 10 => [0]
      case _ => []
  }

  function Reply(f: Flash, rq: Request, app: App, configuration: byte): seq<byte> {
    var full := FullReply(f, rq, app, configuration);
    full[..Min(|full|, WLength(rq))]
  }

  // The application leaves the data stage to its read and write functions. There is
  // no read function: a control-in request is then answered from memory, with as many
  // bytes as the low byte of wLength says.
  predicate ForUser(rq: Request, app: App) {
    !Standard(rq) && app.len == NO_MSG
  }

  // There is nothing to send: the data goes to the device, or the low byte of wLength
  // is the sentinel.
  predicate NoReply(rq: Request, app: App) {
    ForUser(rq, app) && (!ToHost(rq) || rq[6] == NO_MSG)
  }

  // A message in packets: all but the last full, the last short or empty.
  function Split(msg: seq<byte>): (r: seq<seq<byte>>) {
    if |msg| < 8 then [msg] else [msg[..8]] + Split(msg[8..])
  }

  // --------------------------------------------------------------- runs

  // usbPoll is two atomic steps, with anything in between: the received packet is
  // processed, then a packet is built if the buffer is free. A call of usbSetInterrupt
  // is one step, or, if it is interrupted, two: a waiting packet is withdrawn, and the
  // new one is armed, with the other PID if none was waiting.
  datatype Event =
    | HostPacket(setup: bool, data: seq<byte>)
    | HostIn0
    | HostIn1
    | Process(app: App)
    | Build
    | BusReset
    | Interrupt(data: seq<byte>)
    | Withdraw
    | Arm(toggle: bool, data: seq<byte>)

  // The device, and the history since the last SETUP was processed: the reply owed,
  // cut into packets; the packets delivered; whether usbFunctionWrite was given data.
  datatype Sys = Sys(dev: Dev, owed: seq<seq<byte>>, out: seq<seq<byte>>, user: bool, lastConfig: byte)

  function Start(ram: seq<byte>): Sys {
    Sys(Initial(ram), [], [], false, 0)
  }

  function Delivered(out: seq<seq<byte>>, a: Answer): seq<seq<byte>> {
    if a.Packet? then out + [a.bytes] else out
  }

  predicate TakesSetup(d: Dev) {
    d.rx.Got? && d.rx.setup && |d.rx.data| == 8
  }

  // The waiting packet is for usbFunctionWrite.
  predicate TakesData(d: Dev) {
    d.rx.Got? && !d.rx.setup && d.msgFlags == UserRw
  }

  function Step(s: Sys, f: Flash, ev: Event): (t: Sys)
    requires Good(s.dev, f) && Usable(f)
    ensures Good(t.dev, f)
  {
    match ev
    case HostPacket(setup, data) => s.(dev := Receive(s.dev, setup, data))
    case HostIn0 =>
      SendGood(s.dev.ep0, f.crc);
      AfterIn0(s)
    case HostIn1 =>
      SendGood(s.dev.ep1, f.crc);
      s.(dev := In1(s.dev).0)
    case Interrupt(data) =>
      if |data| > 8 then s
      else
        SetInterruptGood(s.dev.ep1, f.crc, data);
        s.(dev := s.dev.(ep1 := SetInterrupt(s.dev.ep1, f.crc, data)))
    case Withdraw => s.(dev := s.dev.(ep1 := s.dev.ep1.(len := PID_NAK)))
    case Arm(toggle, data) =>
      if |data| > 8 then s
      else
        ArmGood(s.dev.ep1, f.crc, toggle, data);
        s.(dev := s.dev.(ep1 := UsbModel.Arm(s.dev.ep1, f.crc, toggle, data)))
    case Process(app) =>
      ProcessRxGood(s.dev, f, app);
      AfterProcess(s, f, app)
    case Build =>
      BuildGood(s.dev, f);
      s.(dev := BuildIfFree(s.dev, f))
    case BusReset => s.(dev := s.dev.(newAddr := 0))
  }

  function AfterIn0(s: Sys): Sys
    requires |s.dev.ep0.buf| == 11 && LegalLen(s.dev.ep0.len)
  {
    s.(dev := In0(s.dev).0, out := Delivered(s.out, In0(s.dev).1))
  }

  function AfterProcess(s: Sys, f: Flash, app: App): Sys
    requires |s.dev.ep0.buf| == 11 && |s.dev.ep1.buf| == 11
  {
    (if TakesSetup(s.dev) then NewRequest(s, f, s.dev.rx.data, app) else s.(user := s.user || TakesData(s.dev)))
    .(dev := ProcessRx(s.dev, f, app))
  }

  // The history restarts with each SETUP.
  function NewRequest(s: Sys, f: Flash, rq: Request, app: App): Sys {
    Sys(s.dev, if NoReply(rq, app) then [] else Split(Reply(f, rq, app, s.lastConfig)), [], false,
        if Standard(rq) && rq[1] == 9 then rq[2] else s.lastConfig)
  }

  // An undisturbed usbPoll.
  function MainLoop(s: Sys, f: Flash, app: App): (t: Sys)
    requires Good(s.dev, f) && Usable(f)
    ensures Good(t.dev, f) && t.dev == Poll(s.dev, f, app, false)
  {
    Step(Step(s, f, Process(app)), f, Build)
  }

  // ----------------------------------------------------------- conservation

  function Payload(packet: seq<byte>): seq<byte> {
    if |packet| < 3 then [] else packet[1..|packet| - 2]
  }

  function Payloads(packets: seq<seq<byte>>): (r: seq<seq<byte>>)
    ensures |r| == |packets|
    ensures forall i :: 0 <= i < |r| ==> r[i] == Payload(packets[i])
  {
    if packets == [] then [] else [Payload(packets[0])] + Payloads(packets[1..])
  }

  // The packet waiting in usbTxBuf.
  function Waiting(d: Dev): seq<seq<byte>>
    requires |d.ep0.buf| == 11 && LegalLen(d.ep0.len)
  {
    if Idle(d.ep0.len) then [] else [d.ep0.buf[1..d.ep0.len - 3]]
  }

  // The packets still to be built from the usbMsgLen bytes at usbMsgPtr.
  function Unbuilt(d: Dev, f: Flash): seq<seq<byte>> {
    if d.msgLen == NO_MSG then [] else Split(Fetch(d, f, d.msgPtr, d.msgLen))
  }

  // The PID of packet i of a control-in data stage: DATA1, DATA0, DATA1, ... (8.6.1)
  function Pid(i: nat): byte {
    if i % 2 == 0 then PID_DATA1 else PID_DATA0
  }

  predicate Alternating(out: seq<seq<byte>>, crc: Crc) {
    forall i :: 0 <= i < |out| ==> out[i] == Image(crc, Pid(i), Payload(out[i]))
  }

  // Delivered packets, then the waiting one, then those still to be built,
  // are exactly the packets of the reply.
  predicate Balanced(out: seq<seq<byte>>, waiting: seq<seq<byte>>, unbuilt: seq<seq<byte>>, owed: seq<seq<byte>>) {
    Payloads(out) + waiting + unbuilt == owed
  }

  // `built` packets have been built since SETUP, the last with PID `pid`.
  predicate InTurn(built: nat, pid: byte, owed: seq<seq<byte>>) {
    owed != [] ==> pid == if built == 0 then PID_DATA0 else Pid(built - 1)
  }

  predicate Conserved(s: Sys, f: Flash)
    requires |s.dev.ep0.buf| == 11 && LegalLen(s.dev.ep0.len)
  {
    && Balanced(s.out, Waiting(s.dev), Unbuilt(s.dev, f), s.owed)
    && Alternating(s.out, f.crc)
    && InTurn(|s.out| + |Waiting(s.dev)|, s.dev.ep0.buf[0], s.owed)
  }

  predicate Inv(s: Sys, f: Flash) {
    && Good(s.dev, f)
    && s.dev.configuration == s.lastConfig
    && (s.user ==> s.dev.msgFlags == UserRw)
    && (!s.user ==> Conserved(s, f) && s.dev.ep0.len != PID_STALL)
  }

  lemma StartInv(f: Flash, ram: seq<byte>)
    ensures Inv(Start(ram), f)
  {
    InitialGood(f, ram);
  }

  lemma ToggleTakesTurns(built: nat, pid: byte, owed: seq<seq<byte>>)
    requires InTurn(built, pid, owed)
    ensures InTurn(built + 1, Toggle(pid), owed)
  {
  }

  // The unbuilt part depends only on the pointer and the memory it points into.
  lemma UnbuiltSame(d: Dev, e: Dev, f: Flash)
    requires d.msgPtr == e.msgPtr && d.msgLen == e.msgLen
    requires d.configuration == e.configuration && d.ram == e.ram
    requires d.ep0.buf == e.ep0.buf
    ensures Unbuilt(d, f) == Unbuilt(e, f)
  {
    if d.msgLen != NO_MSG {
      assert Fetch(d, f, d.msgPtr, d.msgLen) == Fetch(e, f, e.msgPtr, e.msgLen);
    }
  }

  lemma SplitFetch(d: Dev, f: Flash, p: Ptr, n: nat)
    requires n >= 8
    ensures Split(Fetch(d, f, p, n)) == [Fetch(d, f, p, 8)] + Split(Fetch(d, f, Advance(p, 8), n - 8))
  {
    assert Fetch(d, f, p, n)[..8] == Fetch(d, f, p, 8);
    assert Fetch(d, f, p, n)[8..] == Fetch(d, f, Advance(p, 8), n - 8);
  }

  // Building one packet moves it from the message into the buffer.
  lemma BuildMoves(d: Dev, f: Flash)
    requires |d.ep0.buf| == 11 && Idle(d.ep0.len) && d.msgLen != NO_MSG
    requires d.msgLen >= 8 ==> d.msgPtr.Rom? || d.msgPtr.Ram?
    ensures var g := BuildTxBlock(d, f);
      && Complete(g.ep0, f.crc) && !Idle(g.ep0.len)
      && Waiting(g) + Unbuilt(g, f) == Unbuilt(d, f)
      && g.ep0.buf[0] == Toggle(d.ep0.buf[0])
  {
    var g := BuildTxBlock(d, f);
    var n := Min(d.msgLen, 8);
    LoadComplete(d.ep0, f.crc, Toggle(d.ep0.buf[0]), Fetch(d, f, d.msgPtr, n));
    if d.msgLen >= 8 {
      SplitFetch(d, f, d.msgPtr, d.msgLen);
      assert Fetch(g, f, g.msgPtr, g.msgLen) == Fetch(d, f, Advance(d.msgPtr, 8), d.msgLen - 8);
    } else {
      assert Fetch(d, f, d.msgPtr, d.msgLen) == g.ep0.buf[1..g.ep0.len - 3];
    }
  }

  lemma BuildBalances(out: seq<seq<byte>>, waiting: seq<seq<byte>>, unbuilt: seq<seq<byte>>, whole: seq<seq<byte>>, owed: seq<seq<byte>>)
    requires Balanced(out, [], whole, owed) && waiting + unbuilt == whole
    ensures Balanced(out, waiting, unbuilt, owed)
  {
    assert Payloads(out) + waiting + unbuilt == Payloads(out) + (waiting + unbuilt);
    assert Payloads(out) + [] + whole == Payloads(out) + whole;
  }

  lemma BuildKeepsConserved(s: Sys, f: Flash)
    requires Complete(s.dev.ep0, f.crc) && Idle(s.dev.ep0.len) && s.dev.msgLen != NO_MSG
    requires s.dev.msgLen >= 8 ==> s.dev.msgPtr.Rom? || s.dev.msgPtr.Ram?
    requires Conserved(s, f)
    ensures var t := s.(dev := BuildTxBlock(s.dev, f));
      Complete(t.dev.ep0, f.crc) && !Idle(t.dev.ep0.len) && Conserved(t, f)
  {
    BuildMoves(s.dev, f);
    var g := BuildTxBlock(s.dev, f);
    BuildBalances(s.out, Waiting(g), Unbuilt(g, f), Unbuilt(s.dev, f), s.owed);
    ToggleTakesTurns(|s.out|, s.dev.ep0.buf[0], s.owed);
  }

  lemma FoundIsStored(f: Flash, kind: byte, index: byte)
    ensures var stored := Stored(f, kind, index);
      match FindDescriptor(f, kind, index)
      case Some((p, n)) =>
        p.Rom? && n == |stored| % 256 && forall i :: 0 <= i < |stored| ==> stored[i] == At(f.Of(p.blk), p.off + i)
      case None => stored == []
  {
  }

  lemma DescriptorFetched(f: Flash, kind: byte, index: byte)
    ensures var r := Descriptor(f, kind, index);
      match FindDescriptor(f, kind, index)
      case Some((p, n)) => p.Rom? && |r| == n && forall i :: 0 <= i < n ==> r[i] == At(f.Of(p.blk), p.off + i)
      case None => r == []
  {
    FoundIsStored(f, kind, index);
  }

  lemma DescriptorShort(f: Flash, kind: byte, index: byte)
    requires Usable(f)
    ensures |Descriptor(f, kind, index)| < 255
  {
    FoundIsStored(f, kind, index);
    assert forall blk: Block :: f.LenOf(blk) != NO_MSG;
    match FindDescriptor(f, kind, index)
    case Some((p, n)) => assert n == f.LenOf(p.blk) || n == 9;
    case None =>
  }

  // usbDriverSetup leaves the pointer and length of the whole reply.
  predicate Replies(e: Dev, f: Flash, rq: Request, full: seq<byte>, g: Dev, n: byte)
    requires |e.ep0.buf| == 11
  {
    && g.ep0.len == e.ep0.len && |g.ep0.buf| == 11 && g.ep0.buf[0] == e.ep0.buf[0]
    && n == |full| < 255 && Fetch(g, f, g.msgPtr, n) == full
    && (g.msgFlags == e.msgFlags || g.msgFlags == RomData)
    && g.newAddr == (if rq[1] == 5 then rq[2] else e.newAddr)
    && g.configuration == if rq[1] == 9 then rq[2] else e.configuration
  }

  lemma DescriptorReplies(e: Dev, f: Flash, rq: Request, app: App)
    requires |e.ep0.buf| == 11 && |e.ep1.buf| == 11 && Usable(f) && Standard(rq) && rq[1] == 6
    ensures Replies(e, f, rq, Descriptor(f, rq[3], rq[2]), DriverSetup(e, f, rq).0, DriverSetup(e, f, rq).1)
  {
    var (g, n) := DriverSetup(e, f, rq);
    DescriptorFetched(f, rq[3], rq[2]);
    DescriptorShort(f, rq[3], rq[2]);
    assert Fetch(g, f, g.msgPtr, n) == Descriptor(f, rq[3], rq[2]);
  }

  lemma DriverSetupReplies(e: Dev, f: Flash, rq: Request, app: App)
    requires |e.ep0.buf| == 11 && |e.ep1.buf| == 11 && Usable(f) && Standard(rq)
    ensures Replies(e, f, rq, FullReply(f, rq, app, e.configuration), DriverSetup(e, f, rq).0, DriverSetup(e, f, rq).1)
  {
    if rq[1] == 6 {
      DescriptorReplies(e, f, rq, app);
    } else {
      var (g, n) := DriverSetup(e, f, rq);
      assert Fetch(g, f, g.msgPtr, n) == FullReply(f, rq, app, e.configuration);
    }
  }

  lemma FetchPrefix(d: Dev, e: Dev, f: Flash, n: nat, m: nat)
    requires m <= n && d.msgPtr == e.msgPtr && d.ep0.buf == e.ep0.buf && d.ram == e.ram && d.configuration == e.configuration
    ensures Fetch(e, f, e.msgPtr, m) == Fetch(d, f, d.msgPtr, n)[..m]
  {
  }

  // A SETUP starts with the whole reply unbuilt.
  lemma SetupOwesReply(d: Dev, f: Flash, rq: Request, app: App)
    requires |d.ep0.buf| == 11 && |d.ep1.buf| == 11 && Usable(f) && !NoReply(rq, app)
    ensures var e := ProcessSetup(d, f, rq, app);
      var reply := Reply(f, rq, app, d.configuration);
      && e.ep0.len == PID_NAK && e.ep0.buf[0] == PID_DATA0
      && e.msgLen == |reply| < 255
      && Fetch(e, f, e.msgPtr, e.msgLen) == reply
  {
    var e := ProcessSetup(d, f, rq, app);
    var start := d.(ep0 := Tx(PID_NAK, d.ep0.buf[0 := PID_DATA0]), msgFlags := RamData);
    var full := FullReply(f, rq, app, d.configuration);
    var g := start.(ram := app.ram, msgPtr := Ram(app.off));
    if Standard(rq) {
      DriverSetupReplies(start, f, rq, app);
      g := DriverSetup(start, f, rq).0;
    } else {
      assert Fetch(g, f, g.msgPtr, |full|) == full;
    }
    FetchPrefix(g, e, f, |full|, e.msgLen);
  }

  lemma FreshIsConserved(s: Sys, f: Flash, reply: seq<byte>)
    requires |s.dev.ep0.buf| == 11 && s.dev.ep0.len == PID_NAK && s.dev.ep0.buf[0] == PID_DATA0
    requires s.dev.msgLen == |reply| < 255 && Fetch(s.dev, f, s.dev.msgPtr, s.dev.msgLen) == reply
    requires s.owed == Split(reply) && s.out == []
    ensures Conserved(s, f)
  {
    assert Payloads([]) + [] + Split(reply) == Split(reply);
  }

  lemma SetupConserved(s: Sys, f: Flash, rq: Request, app: App)
    requires |s.dev.ep0.buf| == 11 && |s.dev.ep1.buf| == 11 && Usable(f) && s.dev.configuration == s.lastConfig
    ensures var t := NewRequest(s, f, rq, app).(dev := ProcessSetup(s.dev, f, rq, app).(rx := Free));
      t.dev.ep0.len == PID_NAK && |t.dev.ep0.buf| == 11 && Conserved(t, f)
  {
    var e := ProcessSetup(s.dev, f, rq, app);
    var t := NewRequest(s, f, rq, app).(dev := e.(rx := Free));
    if NoReply(rq, app) {
      assert e.msgLen == NO_MSG;
    } else {
      SetupOwesReply(s.dev, f, rq, app);
      assert Fetch(t.dev, f, t.dev.msgPtr, t.dev.msgLen) == Fetch(e, f, e.msgPtr, e.msgLen);
      FreshIsConserved(t, f, Reply(f, rq, app, s.lastConfig));
    }
  }

  lemma SetupBooks(d: Dev, f: Flash, rq: Request, app: App)
    requires |d.ep0.buf| == 11 && |d.ep1.buf| == 11 && Usable(f)
    ensures var e := ProcessSetup(d, f, rq, app);
      && (e.msgFlags == UserRw <==> ForUser(rq, app))
      && e.newAddr == (if Standard(rq) && rq[1] == 5 then rq[2] else d.newAddr)
      && e.configuration == if Standard(rq) && rq[1] == 9 then rq[2] else d.configuration
  {
    if Standard(rq) {
      DriverSetupReplies(d.(ep0 := Tx(PID_NAK, d.ep0.buf[0 := PID_DATA0]), msgFlags := RamData), f, rq, app);
    }
  }

  // What a step needs not to touch, to keep the invariant.
  lemma Untouched(s: Sys, t: Sys, f: Flash)
    requires Inv(s, f) && Good(t.dev, f)
    requires t.owed == s.owed && t.out == s.out && t.user == s.user && t.lastConfig == s.lastConfig
    requires t.dev.ep0 == s.dev.ep0 && t.dev.msgPtr == s.dev.msgPtr && t.dev.msgLen == s.dev.msgLen
    requires t.dev.configuration == s.dev.configuration && t.dev.msgFlags == s.dev.msgFlags && t.dev.ram == s.dev.ram
    ensures Inv(t, f)
  {
    UnbuiltSame(s.dev, t.dev, f);
  }

  lemma ProcessKeepsInv(s: Sys, f: Flash, app: App)
    requires Inv(s, f) && Usable(f)
    ensures Inv(AfterProcess(s, f, app), f)
  {
    var t := AfterProcess(s, f, app);
    ProcessRxGood(s.dev, f, app);
    if TakesSetup(s.dev) {
      SetupBooks(s.dev, f, s.dev.rx.data, app);
      SetupConserved(s, f, s.dev.rx.data, app);
    } else if !t.user {
      assert t.dev == s.dev.(rx := Free);
      UnbuiltSame(s.dev, t.dev, f);
    }
  }

  lemma BuildKeepsInv(s: Sys, f: Flash)
    requires Inv(s, f)
    ensures Inv(s.(dev := BuildIfFree(s.dev, f)), f)
  {
    BuildGood(s.dev, f);
    if !s.user && Idle(s.dev.ep0.len) && s.dev.msgLen != NO_MSG {
      BuildKeepsConserved(s, f);
    }
  }

  // Handing the waiting packet to the host.
  lemma DeliverBalances(out: seq<seq<byte>>, packet: seq<byte>, unbuilt: seq<seq<byte>>, owed: seq<seq<byte>>)
    requires Balanced(out, [Payload(packet)], unbuilt, owed)
    ensures Balanced(out + [packet], [], unbuilt, owed)
  {
    assert Payloads(out + [packet]) == Payloads(out) + [Payload(packet)];
    assert Payloads(out) + [Payload(packet)] + [] + unbuilt == Payloads(out) + [Payload(packet)] + unbuilt;
  }

  lemma DeliverAlternates(out: seq<seq<byte>>, packet: seq<byte>, pid: byte, crc: Crc, owed: seq<seq<byte>>)
    requires Alternating(out, crc) && InTurn(|out| + 1, pid, owed) && owed != []
    requires packet == Image(crc, pid, Payload(packet))
    ensures Alternating(out + [packet], crc)
  {
  }

  lemma DeliverKeepsInv(s: Sys, t: Sys, f: Flash, packet: seq<byte>)
    requires Inv(s, f) && !s.user && Waiting(s.dev) == [Payload(packet)]
    requires packet == Image(f.crc, s.dev.ep0.buf[0], Payload(packet))
    requires t == s.(dev := s.dev.(ep0 := s.dev.ep0.(len := PID_NAK)), out := s.out + [packet])
    ensures Inv(t, f)
  {
    UnbuiltSame(s.dev, t.dev, f);
    DeliverBalances(s.out, packet, Unbuilt(s.dev, f), s.owed);
    assert s.owed[|s.out|] == Payload(packet);
    DeliverAlternates(s.out, packet, s.dev.ep0.buf[0], f.crc, s.owed);
  }

  lemma In0KeepsInv(s: Sys, f: Flash)
    requires Inv(s, f)
    ensures Inv(AfterIn0(s), f)
  {
    if s.dev.rx.Got? || Idle(s.dev.ep0.len) {
      assert AfterIn0(s) == s;
    } else {
      SendGood(s.dev.ep0, f.crc);
      var packet := s.dev.ep0.buf[..s.dev.ep0.len - 1];
      assert Payload(packet) == s.dev.ep0.buf[1..s.dev.ep0.len - 3];
      if !s.user {
        DeliverKeepsInv(s, AfterIn0(s), f, packet);
      }
    }
  }

  lemma StepKeepsInv(s: Sys, f: Flash, ev: Event)
    requires Inv(s, f) && Usable(f)
    ensures Inv(Step(s, f, ev), f)
  {
    match ev
    case Process(app) => ProcessKeepsInv(s, f, app);
    case Build => BuildKeepsInv(s, f);
    case HostIn0 => In0KeepsInv(s, f);
    case _ => Untouched(s, Step(s, f, ev), f);
  }

  function Run(s: Sys, f: Flash, evs: seq<Event>): (t: Sys)
    requires Good(s.dev, f) && Usable(f)
    ensures Good(t.dev, f)
    decreases |evs|
  {
    if evs == [] then s
    else
      Run(Step(s, f, evs[0]), f, evs[1..])
  }

  lemma {:induction false} RunKeepsInv(s: Sys, f: Flash, evs: seq<Event>)
    requires Inv(s, f) && Usable(f)
    ensures Inv(Run(s, f, evs), f)
    decreases |evs|
  {
    if evs != [] {
      StepKeepsInv(s, f, evs[0]);
      RunKeepsInv(Step(s, f, evs[0]), f, evs[1..]);
    }
  }

  lemma {:induction false} RunAppend(s: Sys, f: Flash, a: seq<Event>, b: seq<Event>)
    requires Good(s.dev, f) && Usable(f)
    ensures Run(s, f, a + b) == Run(Run(s, f, a), f, b)
    decreases |a|
  {
    if a == [] {
      assert a + b == b;
    } else {
      assert (a + b)[1..] == a[1..] + b;
      RunAppend(Step(s, f, a[0]), f, a[1..], b);
    }
  }

  lemma RunCons(s: Sys, f: Flash, ev: Event, rest: seq<Event>)
    requires Good(s.dev, f) && Usable(f)
    ensures Run(s, f, [ev] + rest) == Run(Step(s, f, ev), f, rest)
  {
    assert ([ev] + rest)[1..] == rest;
  }

  lemma RunNext(s: Sys, f: Flash, evs: seq<Event>, ev: Event)
    requires Good(s.dev, f) && Usable(f)
    ensures Run(s, f, evs + [ev]) == Step(Run(s, f, evs), f, ev)
  {
    RunAppend(s, f, evs, [ev]);
    assert [ev] == [ev] + [];
    RunCons(Run(s, f, evs), f, ev, []);
  }

  // The state after a run from power-on.
  function Reached(f: Flash, ram: seq<byte>, evs: seq<Event>): (s: Sys)
    requires Usable(f)
    ensures Inv(s, f)
  {
    StartInv(f, ram);
    RunKeepsInv(Start(ram), f, evs);
    Run(Start(ram), f, evs)
  }

  // ---------------------------------------------------------- main theorems

  // No SETUP of the right size arrives.
  predicate NoSetup(evs: seq<Event>) {
    forall i :: 0 <= i < |evs| && evs[i].HostPacket? && evs[i].setup ==> |evs[i].data| != 8
  }

  // No SETUP of the right size is processed: none arrives, or those that do are refused
  // or wait.
  predicate NoneTaken(s: Sys, f: Flash, evs: seq<Event>)
    requires Good(s.dev, f) && Usable(f)
    decreases |evs|
  {
    evs != [] ==> !(evs[0].Process? && TakesSetup(s.dev)) && NoneTaken(Step(s, f, evs[0]), f, evs[1..])
  }

  lemma OwedKeptByStep(s: Sys, f: Flash, ev: Event)
    requires Good(s.dev, f) && Usable(f) && !(ev.Process? && TakesSetup(s.dev))
    ensures var t := Step(s, f, ev);
      t.owed == s.owed && (s.user ==> t.user) && t.lastConfig == s.lastConfig
  {
  }

  lemma {:induction false} OwedKept(s: Sys, f: Flash, evs: seq<Event>)
    requires Good(s.dev, f) && Usable(f) && NoneTaken(s, f, evs)
    ensures var t := Run(s, f, evs);
      t.owed == s.owed && (s.user ==> t.user) && t.lastConfig == s.lastConfig
    decreases |evs|
  {
    if evs != [] {
      OwedKeptByStep(s, f, evs[0]);
      OwedKept(Step(s, f, evs[0]), f, evs[1..]);
    }
  }

  lemma {:induction false} ConcatSplit(msg: seq<byte>)
    ensures Concat(Split(msg)) == msg
  {
    if |msg| < 8 {
      assert Concat([msg]) == msg + Concat<byte>([]);
    } else {
      ConcatSplit(msg[8..]);
      assert Split(msg)[1..] == Split(msg[8..]);
    }
  }

  // The bytes of the message not yet put into a packet.
  function Remaining(d: Dev, f: Flash): seq<byte> {
    if d.msgLen == NO_MSG then [] else Fetch(d, f, d.msgPtr, d.msgLen)
  }

  // In every run, until the next SETUP is processed, and as long as usbFunctionWrite was
  // given no data of the request: what
  // has been delivered since its SETUP, what waits in the buffer, and what is left at
  // usbMsgPtr make up exactly the reply, cut to wLength.
  lemma BytesConserved(f: Flash, ram: seq<byte>, before: seq<Event>, app: App, after: seq<Event>)
    requires Usable(f) && TakesSetup(Reached(f, ram, before).dev)
    ensures var s := Reached(f, ram, before);
      var u := Step(s, f, Process(app));
      var t := Run(u, f, after);
      && Good(t.dev, f)
      && (NoneTaken(u, f, after) && !t.user ==>
        && t.dev.ep0.len != PID_STALL
        && Concat(Payloads(t.out)) + Concat(Waiting(t.dev)) + Remaining(t.dev, f)
           == if NoReply(s.dev.rx.data, app) then [] else Reply(f, s.dev.rx.data, app, s.lastConfig))
  {
    var s := Reached(f, ram, before);
    var u := Step(s, f, Process(app));
    StepKeepsInv(s, f, Process(app));
    RunKeepsInv(u, f, after);
    if NoneTaken(u, f, after) {
      OwedKept(u, f, after);
    }
    var t := Run(u, f, after);
    ConcatSplit(Reply(f, s.dev.rx.data, app, s.lastConfig));
    ConcatSplit(Remaining(t.dev, f));
    ConcatAppend(Payloads(t.out) + Waiting(t.dev), Unbuilt(t.dev, f));
    ConcatAppend(Payloads(t.out), Waiting(t.dev));
  }

  // In every run the delivered packets of a request carry DATA1, DATA0, DATA1, ...
  // with the right CRC, and are the first packets of its reply.
  lemma PacketsInOrder(f: Flash, ram: seq<byte>, evs: seq<Event>)
    requires Usable(f)
    ensures var s := Reached(f, ram, evs);
      !s.user ==>
        && |s.out| <= |s.owed|
        && forall i :: 0 <= i < |s.out| ==> s.out[i] == Image(f.crc, Pid(i), s.owed[i])
  {
    var s := Reached(f, ram, evs);
    if !s.user {
      var p := Payloads(s.out);
      assert p + Waiting(s.dev) + Unbuilt(s.dev, f) == s.owed;
      assert s.owed[..|p|] == p;
      forall i | 0 <= i < |s.out|
        ensures s.out[i] == Image(f.crc, Pid(i), s.owed[i])
      {
        assert s.owed[i] == p[i] == Payload(s.out[i]);
      }
    }
  }

  // A reply of less than 8 bytes is ready when usbPoll returns, and the next IN
  // token gets it unharmed, wherever it was staged.
  lemma ShortReplyIsNext(s: Sys, f: Flash, app: App)
    requires Inv(s, f) && Usable(f) && TakesSetup(s.dev) && !NoReply(s.dev.rx.data, app)
    requires |Reply(f, s.dev.rx.data, app, s.lastConfig)| < 8
    ensures In0(MainLoop(s, f, app).dev).1
      == Packet(Image(f.crc, PID_DATA1, Reply(f, s.dev.rx.data, app, s.lastConfig)))
  {
    var t := Step(s, f, Process(app));
    StepKeepsInv(s, f, Process(app));
    StepKeepsInv(t, f, Build);
    BuildGood(t.dev, f);
    OnlyPacketWaits(Step(t, f, Build), f, Reply(f, s.dev.rx.data, app, s.lastConfig));
  }

  lemma OnlyPacketWaits(t: Sys, f: Flash, reply: seq<byte>)
    requires Inv(t, f) && !t.user && t.owed == [reply] && t.out == []
    requires t.dev.rx.Free? && (Idle(t.dev.ep0.len) ==> t.dev.msgLen == NO_MSG)
    ensures In0(t.dev).1 == Packet(Image(f.crc, PID_DATA1, reply))
  {
    assert Payloads(t.out) + Waiting(t.dev) + Unbuilt(t.dev, f) == Waiting(t.dev) + Unbuilt(t.dev, f);
    assert Waiting(t.dev) == [reply];
  }

  // GET_CONFIGURATION answers with the value of the last SET_CONFIGURATION (USB 2.0, 9.4.2).
  lemma GetConfigurationAnswer(f: Flash, ram: seq<byte>, evs: seq<Event>, app: App)
    requires Usable(f)
    requires var d := Reached(f, ram, evs).dev;
      TakesSetup(d) && Standard(d.rx.data) && d.rx.data[1] == 8 && WLength(d.rx.data) >= 1
    ensures var s := Reached(f, ram, evs);
      In0(MainLoop(s, f, app).dev).1 == Packet(Image(f.crc, PID_DATA1, [s.lastConfig]))
  {
    var s := Reached(f, ram, evs);
    assert Reply(f, s.dev.rx.data, app, s.lastConfig) == [s.lastConfig];
    ShortReplyIsNext(s, f, app);
  }

  // GET_STATUS and GET_INTERFACE answer zeros although they are staged in the
  // buffer in which the packet and its CRC are built (USB 2.0, 9.4.5 and 9.4.4).
  lemma ZeroAnswers(f: Flash, ram: seq<byte>, evs: seq<Event>, app: App)
    requires Usable(f)
    requires var d := Reached(f, ram, evs).dev;
      TakesSetup(d) && Standard(d.rx.data) && (d.rx.data[1] == 0 || d.rx.data[1] == 10)
    ensures var s := Reached(f, ram, evs);
      var zeros := if s.dev.rx.data[1] == 0 then [0, 0] else [0];
      In0(MainLoop(s, f, app).dev).1
      == Packet(Image(f.crc, PID_DATA1, zeros[..Min(|zeros|, WLength(s.dev.rx.data))]))
  {
    ShortReplyIsNext(Reached(f, ram, evs), f, app);
  }

  // Until the first SETUP is processed nothing is sent, stalled or given to
  // usbFunctionWrite.
  predicate Silent(s: Sys) {
    && s.dev.ep0.len == PID_NAK && s.dev.msgLen == NO_MSG && s.dev.msgFlags != UserRw
    && s.dev.configuration == 0 && s.out == [] && !s.user
  }

  lemma {:induction false} SilenceKept(s: Sys, f: Flash, evs: seq<Event>)
    requires Good(s.dev, f) && Usable(f) && Silent(s) && NoneTaken(s, f, evs)
    ensures Silent(Run(s, f, evs))
    decreases |evs|
  {
    if evs != [] {
      SilenceKept(Step(s, f, evs[0]), f, evs[1..]);
    }
  }

  lemma SilentBeforeSetup(f: Flash, ram: seq<byte>, evs: seq<Event>)
    requires Usable(f)
    ensures Good(Start(ram).dev, f)
    ensures NoneTaken(Start(ram), f, evs) ==>
      Silent(Reached(f, ram, evs)) && In0(Reached(f, ram, evs).dev).1 == Handshake(PID_NAK)
  {
    InitialGood(f, ram);
    if NoneTaken(Start(ram), f, evs) {
      SilenceKept(Start(ram), f, evs);
    }
  }

  // ------------------------------------------------------- the device address

  // The low wValue byte of the last SET_ADDRESS (USB 2.0, 9.4.6) processed since the last
  // bus reset; `address` stood before.
  function NextAddress(s: Sys, ev: Event, address: byte): byte {
    if ev.BusReset? then 0
    else if ev.Process? && TakesSetup(s.dev) && Standard(s.dev.rx.data) && s.dev.rx.data[1] == 5 then s.dev.rx.data[2]
    else address
  }

  function LastAddress(s: Sys, f: Flash, evs: seq<Event>, address: byte): byte
    requires Good(s.dev, f) && Usable(f)
    decreases |evs|
  {
    if evs == [] then address
    else LastAddress(Step(s, f, evs[0]), f, evs[1..], NextAddress(s, evs[0], address))
  }

  lemma StepAddress(s: Sys, f: Flash, ev: Event)
    requires Good(s.dev, f) && Usable(f)
    ensures Step(s, f, ev).dev.newAddr == NextAddress(s, ev, s.dev.newAddr)
  {
    if ev.Process? && TakesSetup(s.dev) {
      SetupBooks(s.dev, f, s.dev.rx.data, ev.app);
    }
  }

  lemma {:induction false} RunAddress(s: Sys, f: Flash, evs: seq<Event>)
    requires Good(s.dev, f) && Usable(f)
    ensures Run(s, f, evs).dev.newAddr == LastAddress(s, f, evs, s.dev.newAddr)
    decreases |evs|
  {
    if evs != [] {
      StepAddress(s, f, evs[0]);
      RunAddress(Step(s, f, evs[0]), f, evs[1..]);
    }
  }

  // The RAM that the last callback left behind; `ram` stood before.
  function LastRam(s: Sys, f: Flash, evs: seq<Event>, ram: seq<byte>): seq<byte>
    requires Good(s.dev, f) && Usable(f)
    decreases |evs|
  {
    if evs == [] then ram
    else LastRam(Step(s, f, evs[0]), f, evs[1..], NextRam(s, evs[0], ram))
  }

  function NextRam(s: Sys, ev: Event, ram: seq<byte>): seq<byte> {
    if ev.Process? && (TakesData(s.dev) || (TakesSetup(s.dev) && !Standard(s.dev.rx.data))) then ev.app.ram else ram
  }

  lemma StepRam(s: Sys, f: Flash, ev: Event)
    requires Good(s.dev, f) && Usable(f)
    ensures Step(s, f, ev).dev.ram == NextRam(s, ev, s.dev.ram)
  {
  }

  // The driver itself leaves the application's RAM alone.
  lemma {:induction false} RamIsLast(s: Sys, f: Flash, evs: seq<Event>)
    requires Good(s.dev, f) && Usable(f)
    ensures Run(s, f, evs).dev.ram == LastRam(s, f, evs, s.dev.ram)
    decreases |evs|
  {
    if evs != [] {
      StepRam(s, f, evs[0]);
      RamIsLast(Step(s, f, evs[0]), f, evs[1..]);
    }
  }

  // In every run the address to be taken is that one, 0 if there was none.
  lemma AddressIsLast(f: Flash, ram: seq<byte>, evs: seq<Event>)
    requires Usable(f)
    ensures Good(Start(ram).dev, f)
    ensures Reached(f, ram, evs).dev.newAddr == LastAddress(Start(ram), f, evs, 0)
  {
    InitialGood(f, ram);
    RunAddress(Start(ram), f, evs);
  }

  // --------------------------------------- descriptors and the one byte length

  predicate AsksForDescriptor(rq: Request) {
    Standard(rq) && ToHost(rq) && rq[1] == 6
  }

  // A message is pending that can be read where usbMsgPtr points, and it is the
  // descriptor, cut to wLength.
  predicate Served(e: Dev, f: Flash, rq: Request) {
    var stored := Stored(f, rq[3], rq[2]);
    && e.msgLen != NO_MSG && PointerReadable(e)
    && Fetch(e, f, e.msgPtr, e.msgLen) == stored[..Min(|stored|, WLength(rq))]
  }

  // What a GET_DESCRIPTOR leaves pending. With the sentinel as length it is taken for a
  // request that the application serves.
  lemma DescriptorPending(d: Dev, f: Flash, rq: Request, app: App)
    requires |d.ep0.buf| == 11 && |d.ep1.buf| == 11 && AsksForDescriptor(rq)
    ensures var e := ProcessSetup(d, f, rq, app);
      var n := |Stored(f, rq[3], rq[2])| % 256;
      && (n == NO_MSG ==> e.msgFlags == UserRw && e.msgLen == rq[6] && e.msgPtr.Rom?)
      && (n != NO_MSG ==> e.msgLen == Min(n, WLength(rq)) && PointerReadable(e))
      && (n != NO_MSG ==> Fetch(e, f, e.msgPtr, e.msgLen) == Stored(f, rq[3], rq[2])[..e.msgLen])
  {
    FoundIsStored(f, rq[3], rq[2]);
  }

  // The host is served exactly if it asks for nothing, or the length is not the
  // sentinel and what it asks for is not beyond the length modulo 256.
  lemma DescriptorServedIff(d: Dev, f: Flash, rq: Request, app: App)
    requires |d.ep0.buf| == 11 && |d.ep1.buf| == 11 && AsksForDescriptor(rq)
    ensures var size := |Stored(f, rq[3], rq[2])|;
      Served(ProcessSetup(d, f, rq, app), f, rq) <==>
        WLength(rq) == 0 || (size % 256 != 255 && (size < 256 || WLength(rq) <= size % 256))
  {
    var e := ProcessSetup(d, f, rq, app);
    var stored := Stored(f, rq[3], rq[2]);
    var n := |stored| % 256;
    DescriptorPending(d, f, rq, app);
    assert |Fetch(e, f, e.msgPtr, e.msgLen)| == e.msgLen;
    if n != NO_MSG && Min(n, WLength(rq)) == Min(|stored|, WLength(rq)) {
      assert e.msgLen == Min(|stored|, WLength(rq));
    }
  }

  // With the sentinel: data memory is read at a flash address, exactly unless the low
  // byte of wLength is 0, which sends an empty packet, or 255, which sends nothing.
  lemma SentinelDescriptor(d: Dev, f: Flash, rq: Request, app: App)
    requires |d.ep0.buf| == 11 && |d.ep1.buf| == 11 && AsksForDescriptor(rq)
    requires |Stored(f, rq[3], rq[2])| % 256 == 255
    ensures var e := ProcessSetup(d, f, rq, app);
      && (!PointerReadable(e) <==> rq[6] != 0 && rq[6] != 255)
      && (!PointerReadable(e) ==> e.msgPtr.Rom? && e.msgFlags != RomData)
      && (rq[6] == 255 ==> BuildIfFree(e, f) == e)
      && (rq[6] == 0 ==> BuildIfFree(e, f).ep0.buf[..3] == Image(f.crc, PID_DATA1, []))
  {
    var e := ProcessSetup(d, f, rq, app);
    DescriptorPending(d, f, rq, app);
    if rq[6] == 0 {
      assert e.ep0.buf[0] == PID_DATA0;
      assert BuildIfFree(e, f) == BuildTxBlock(e, f);
      assert Fetch(e, f, e.msgPtr, 0) == [];
    }
  }

  // The input: a HID report descriptor of 255 bytes, of which the host wants 64.
  lemma HidReportMisread(f: Flash, ram: seq<byte>, app: App)
    requires |f.hidReport| == 255
    ensures var rq: Request := [0x81, 6, 0, 0x22, 0, 0, 64, 0];
      var d := Receive(Initial(ram), true, rq);
      var e := ProcessRx(d, f, app);
      && TakesSetup(d) && AsksForDescriptor(rq) && !Served(ProcessSetup(d, f, rq, app), f, rq)
      && e.msgPtr == Rom(HidReport, 0) && e.msgFlags == UserRw && e.msgLen == 64
  {
    var rq: Request := [0x81, 6, 0, 0x22, 0, 0, 64, 0];
    DescriptorServedIff(Receive(Initial(ram), true, rq), f, rq, app);
  }

  // ------------------------------------- control-out status stage (8.5.3.1)

  // usbFunctionWrite is to get the data; no reply is pending.
  predicate Collecting(s: Sys) {
    s.dev.msgFlags == UserRw && s.dev.msgLen == NO_MSG && !TakesSetup(s.dev)
  }

  // usbFunctionWrite returns `result` each time it is called.
  predicate Answers(evs: seq<Event>, result: byte) {
    forall i :: 0 <= i < |evs| && evs[i].Process? ==> evs[i].app.writeResult == result
  }

  predicate HeldAt(s: Sys, result: byte) {
    (result == 0 && s.dev.ep0.len == PID_NAK) || (result == 0xff && s.dev.ep0.len == PID_STALL)
  }

  lemma StatusHeldByStep(s: Sys, f: Flash, ev: Event, result: byte)
    requires Inv(s, f) && Usable(f) && Collecting(s) && HeldAt(s, result)
    requires ev.HostPacket? && ev.setup ==> |ev.data| != 8
    requires ev.Process? ==> ev.app.writeResult == result
    ensures var t := Step(s, f, ev);
      Collecting(t) && t.out == s.out && t.dev.ep0 == s.dev.ep0
  {
  }

  // While it returns 0 endpoint 0 answers NAK; once it has returned 0xff and
  // keeps doing so, endpoint 0 answers STALL (NAK while a packet is unprocessed).
  lemma {:induction false} StatusHeldBack(s: Sys, f: Flash, evs: seq<Event>, result: byte)
    requires Inv(s, f) && Usable(f) && NoSetup(evs) && Collecting(s) && Answers(evs, result)
    requires HeldAt(s, result)
    ensures var t := Run(s, f, evs);
      && Inv(t, f) && Collecting(t) && t.out == s.out && t.dev.ep0 == s.dev.ep0
      && In0(t.dev).1 == Handshake(if t.dev.rx.Got? then PID_NAK else s.dev.ep0.len)
    decreases |evs|
  {
    if evs != [] {
      StepKeepsInv(s, f, evs[0]);
      StatusHeldByStep(s, f, evs[0], result);
      assert NoSetup(evs[1..]) && Answers(evs[1..], result);
      StatusHeldBack(Step(s, f, evs[0]), f, evs[1..], result);
    }
  }

  // A final return arms exactly one empty packet; once it is fetched,
  // endpoint 0 answers NAK again.
  lemma FinalWriteArmsEmptyPacket(s: Sys, f: Flash, app: App)
    requires Inv(s, f) && Usable(f) && Collecting(s) && s.dev.rx.Got? && !s.dev.rx.setup
    requires s.dev.ep0.len == PID_NAK && app.writeResult != 0 && app.writeResult != 0xff
    ensures var t := MainLoop(s, f, app);
      && t.dev.msgLen == NO_MSG
      && In0(t.dev).1 == Packet(Image(f.crc, Toggle(s.dev.ep0.buf[0]), []))
      && In0(t.dev).0.ep0.len == PID_NAK
  {
    var t := MainLoop(s, f, app);
    var e := ProcessRx(s.dev, f, app);
    BuildMoves(e, f);
    assert t.dev.ep0.buf[..3] == Image(f.crc, Toggle(s.dev.ep0.buf[0]), []) by {
      assert t.dev.ep0.buf[1..1] == [];
    }
  }

  // A SETUP announcing data for usbFunctionWrite is being processed.
  predicate StartsControlOut(s: Sys, app: App) {
    TakesSetup(s.dev) && ForUser(s.dev.rx.data, app) && !ToHost(s.dev.rx.data)
  }

  // Nothing is sent in answer to it, and the first status packet will be DATA1.
  lemma ControlOutStarts(s: Sys, f: Flash, app: App)
    requires Inv(s, f) && Usable(f) && StartsControlOut(s, app)
    ensures var t := Step(s, f, Process(app));
      && Inv(t, f) && Collecting(t) && t.dev.ep0.len == PID_NAK && t.out == []
      && t.dev.ep0.buf[0] == PID_DATA0 && Toggle(t.dev.ep0.buf[0]) == PID_DATA1
  {
    StepKeepsInv(s, f, Process(app));
    SetupBooks(s.dev, f, s.dev.rx.data, app);
  }

  // The whole control-out transfer: after the SETUP, any events while
  // usbFunctionWrite asks for more, then its final return: the status packet is
  // one empty DATA1 packet.
  lemma ControlOutStatus(s: Sys, f: Flash, app: App, evs: seq<Event>, last: App)
    requires Inv(s, f) && Usable(f) && StartsControlOut(s, app)
    requires NoSetup(evs) && Answers(evs, 0) && last.writeResult != 0 && last.writeResult != 0xff
    ensures var t := Run(Step(s, f, Process(app)), f, evs);
      && t.out == [] && t.dev.ep0.len == PID_NAK
      && (t.dev.rx.Got? && !t.dev.rx.setup ==>
            In0(MainLoop(t, f, last).dev).1 == Packet(Image(f.crc, PID_DATA1, [])))
  {
    ControlOutStarts(s, f, app);
    StatusHeldBack(Step(s, f, Process(app)), f, evs, 0);
    var t := Run(Step(s, f, Process(app)), f, evs);
    if t.dev.rx.Got? && !t.dev.rx.setup {
      FinalWriteArmsEmptyPacket(t, f, last);
    }
  }

  lemma ErrorStalls(s: Sys, f: Flash, last: App)
    requires Inv(s, f) && Usable(f) && Collecting(s) && s.dev.rx.Got? && !s.dev.rx.setup && last.writeResult == 0xff
    ensures var t := Step(s, f, Process(last));
      Inv(t, f) && Collecting(t) && HeldAt(t, 0xff) && t.out == s.out
  {
    StepKeepsInv(s, f, Process(last));
  }

  // The same with an error instead: from the OUT packet for which usbFunctionWrite
  // returns 0xff on, endpoint 0 answers STALL (NAK while a packet is unprocessed), as
  // long as no SETUP comes.
  lemma ControlOutError(s: Sys, f: Flash, app: App, evs: seq<Event>, last: App, after: seq<Event>)
    requires Inv(s, f) && Usable(f) && StartsControlOut(s, app)
    requires NoSetup(evs) && Answers(evs, 0) && last.writeResult == 0xff
    requires NoSetup(after) && Answers(after, 0xff)
    ensures var t := Run(Step(s, f, Process(app)), f, evs);
      t.dev.rx.Got? && !t.dev.rx.setup ==>
        var u := Run(Step(t, f, Process(last)), f, after);
        In0(u.dev).1 == Handshake(if u.dev.rx.Got? then PID_NAK else PID_STALL) && u.out == []
  {
    ControlOutStarts(s, f, app);
    StatusHeldBack(Step(s, f, Process(app)), f, evs, 0);
    var t := Run(Step(s, f, Process(app)), f, evs);
    if t.dev.rx.Got? && !t.dev.rx.setup {
      ErrorStalls(t, f, last);
      StatusHeldBack(Step(t, f, Process(last)), f, after, 0xff);
    }
  }

  // An error return stalls endpoint 0 exactly if no reply is pending: a pending
  // one is built in the same usbPoll and replaces the stall.
  lemma StallSticksIff(s: Sys, f: Flash, app: App)
    requires Inv(s, f) && Usable(f) && TakesData(s.dev) && app.writeResult == 0xff
    ensures MainLoop(s, f, app).dev.ep0.len == PID_STALL <==> s.dev.msgLen == NO_MSG
    ensures In0(MainLoop(s, f, app).dev).1.Packet? <==> s.dev.msgLen != NO_MSG
  {
    var e := ProcessRx(s.dev, f, app);
    assert e.ep0.len == PID_STALL && e.msgLen == s.dev.msgLen && e.rx.Free?;
    ProcessRxGood(s.dev, f, app);
    BuildGood(e, f);
  }

  lemma RunFour(s: Sys, f: Flash, a: Event, b: Event, c: Event, d: Event)
    requires Good(s.dev, f) && Usable(f)
    ensures Run(s, f, [a, b, c, d]) == Step(Step(Step(Step(s, f, a), f, b), f, c), f, d)
  {
    assert [a, b, c, d] == [a] + [b, c, d] && [b, c, d] == [b] + [c, d] && [c, d] == [c] + [d] && [d] == [d] + [];
    RunCons(s, f, a, [b, c, d]);
    RunCons(Step(s, f, a), f, b, [c, d]);
    RunCons(Step(Step(s, f, a), f, b), f, c, [d]);
    RunCons(Step(Step(Step(s, f, a), f, b), f, c), f, d, []);
  }

  // A class request to send data, one packet that ends it, another that ends it again
  // before the status packet is fetched, and a third.
  function EndedTwice(): (seq<Event>, seq<Event>) {
    var app := App(0, NO_MSG, 1, []);
    var data := HostPacket(false, [1]);
    ([HostPacket(true, [0x21, 9, 0, 0, 0, 0, 24, 0]), Process(app), data, Process(app)],
     [Build, data, Process(app), data])
  }

  lemma AfterFirstEnd(f: Flash, ram: seq<byte>)
    requires Usable(f)
    ensures var s := Reached(f, ram, EndedTwice().0);
      s.dev.msgFlags == UserRw && s.dev.msgLen == 0 && s.dev.rx.Free? && s.dev.ep0.len == PID_NAK
  {
    var (evs, _) := EndedTwice();
    RunFour(Start(ram), f, evs[0], evs[1], evs[2], evs[3]);
    var s := Step(Step(Start(ram), f, evs[0]), f, evs[1]);
    assert s.dev.msgFlags == UserRw && s.dev.rx.Free? && s.dev.ep0.len == PID_NAK;
  }

  lemma AfterSecondEnd(s: Sys, f: Flash)
    requires Inv(s, f) && Usable(f)
    requires s.dev.msgFlags == UserRw && s.dev.msgLen == 0 && s.dev.rx.Free? && s.dev.ep0.len == PID_NAK
    ensures var t := Run(s, f, EndedTwice().1);
      TakesData(t.dev) && t.dev.msgLen == 0
  {
    var (_, evs) := EndedTwice();
    RunFour(s, f, evs[0], evs[1], evs[2], evs[3]);
    var t := Step(s, f, evs[0]);
    assert t.dev.msgFlags == UserRw && t.dev.rx.Free? && t.dev.ep0.len == 4;
  }

  // The input on which the stall is lost: an error returned for the third packet is
  // never seen, the host gets a status packet.
  lemma StallIsLost(f: Flash, ram: seq<byte>, app: App)
    requires Usable(f) && app.writeResult == 0xff
    ensures var s := Reached(f, ram, EndedTwice().0 + EndedTwice().1);
      TakesData(s.dev) && In0(MainLoop(s, f, app).dev).1.Packet?
  {
    AfterFirstEnd(f, ram);
    AfterSecondEnd(Reached(f, ram, EndedTwice().0), f);
    RunAppend(Start(ram), f, EndedTwice().0, EndedTwice().1);
    StallSticksIff(Reached(f, ram, EndedTwice().0 + EndedTwice().1), f, app);
  }
}
