// The C functions of usbdrv.c over their global variables. The interrupt routine may
// run between any two statements; what has happened is at every moment an order of
// the atomic steps of UsbRuns.

module UsbDriver {
  import opened Bytes
  import opened UsbModel
  import opened UsbRuns
  import InterruptEndpoint

  // A buffer with `got` written behind its first byte.
  function Placed(buf: seq<byte>, got: seq<byte>): seq<byte>
    requires |buf| == 11 && |got| <= 8
  {
    buf[..1] + got + buf[1 + |got|..]
  }

  lemma PlaceNext(buf: seq<byte>, got: seq<byte>, c: byte)
    requires |buf| == 11 && |got| < 8
    ensures Placed(buf, got)[1 + |got| := c] == Placed(buf, got + [c])
    ensures forall i :: |got| < i < 11 ==> Placed(buf, got)[i] == buf[i]
  {
  }

  lemma CrcPlaced(buf: seq<byte>, payload: seq<byte>, c: (byte, byte))
    requires |buf| == 11 && |payload| <= 8
    ensures var n := |payload|;
      && Placed(buf, payload)[1..1 + n] == payload
      && Placed(buf, payload)[1 + n := c.0][2 + n := c.1] == [buf[0]] + payload + [c.0, c.1] + buf[n + 3..]
  {
  }

  // The copy does not disturb what it still has to read.
  lemma NextByte(d: Dev, e: Dev, f: Flash, got: seq<byte>, len: nat)
    requires |d.ep0.buf| == 11 && |got| < len <= 8 && Readable(d.msgPtr, d.msgFlags, len)
    requires e.ep0.buf == Placed(d.ep0.buf, got) && e.ram == d.ram && e.configuration == d.configuration
    ensures ByteAt(e, f, Advance(d.msgPtr, |got|), 0) == ByteAt(d, f, d.msgPtr, |got|)
  {
  }

  lemma FetchNext(d: Dev, f: Flash, p: Ptr, got: seq<byte>, c: byte)
    requires got == Fetch(d, f, p, |got|) && c == ByteAt(d, f, p, |got|)
    ensures got + [c] == Fetch(d, f, p, |got| + 1)
    ensures Advance(Advance(p, |got|), 1) == Advance(p, |got| + 1)
  {
  }

  // ------------------------------------------------------- order of events

  // What the interrupt routine handles.
  type BusEvent = e: Event | e.HostPacket? || e.HostIn0? || e.HostIn1? witness HostIn0

  predicate FromBus(e: Event) {
    e.HostPacket? || e.HostIn0? || e.HostIn1?
  }

  function BusPart(evs: seq<Event>): seq<Event> {
    if evs == [] then []
    else BusPart(evs[..|evs| - 1]) + if FromBus(evs[|evs| - 1]) then [evs[|evs| - 1]] else []
  }

  function MainPart(evs: seq<Event>): seq<Event> {
    if evs == [] then []
    else MainPart(evs[..|evs| - 1]) + if FromBus(evs[|evs| - 1]) then [] else [evs[|evs| - 1]]
  }

  // The events at the program points before number n.
  function Happened(bus: nat -> seq<BusEvent>, n: nat): seq<Event> {
    if n == 0 then [] else Happened(bus, n - 1) + bus(n - 1)
  }

  lemma PartsNext(evs: seq<Event>, ev: Event)
    ensures BusPart(evs + [ev]) == BusPart(evs) + if FromBus(ev) then [ev] else []
    ensures MainPart(evs + [ev]) == MainPart(evs) + if FromBus(ev) then [] else [ev]
  {
    assert (evs + [ev])[..|evs|] == evs;
  }

  // --------------------------------------------------- runs, step by step

  // A run with all its states and the answers to IN tokens of each step.
  datatype History = History(trace: seq<Event>, states: seq<Sys>, replies: seq<seq<Answer>>) {
    ghost predicate Shape() {
      |states| == |trace| + 1 && |replies| == |trace|
    }

    function Last(): Sys
      requires Shape()
    {
      states[|trace|]
    }

    function Next(ev: Event, t: Sys, a: seq<Answer>): History {
      History(trace + [ev], states + [t], replies + [a])
    }
  }

  // What an atomic step answers to an IN token.
  function ReplyTo(d: Dev, ev: Event): seq<Answer>
    requires |d.ep0.buf| == 11 && LegalLen(d.ep0.len) && |d.ep1.buf| == 11 && LegalLen(d.ep1.len)
  {
    match ev
    case HostIn0 => [In0(d).1]
    case HostIn1 => [In1(d).1]
    case _ => []
  }

  ghost predicate GoodAt(h: History, f: Flash, i: nat)
    requires h.Shape() && i <= |h.trace|
  {
    Good(h.states[i].dev, f)
  }

  ghost predicate StepAt(h: History, f: Flash, i: nat)
    requires h.Shape() && i < |h.trace|
  {
    && GoodAt(h, f, i) && Usable(f)
    && h.states[i + 1] == Step(h.states[i], f, h.trace[i])
    && h.replies[i] == ReplyTo(h.states[i].dev, h.trace[i])
  }

  ghost predicate IsRun(h: History, f: Flash, ram: seq<byte>) {
    && h.Shape() && h.states[0] == Start(ram)
    && (forall i: nat :: i <= |h.trace| ==> GoodAt(h, f, i))
    && forall i: nat :: i < |h.trace| ==> StepAt(h, f, i)
  }

  lemma LastIsGood(h: History, f: Flash, ram: seq<byte>)
    requires IsRun(h, f, ram)
    ensures Good(h.Last().dev, f)
  {
    assert GoodAt(h, f, |h.trace|);
  }

  lemma IsRunNext(h: History, f: Flash, ram: seq<byte>, ev: Event, a: seq<Answer>)
    requires IsRun(h, f, ram) && Usable(f) && Good(h.Last().dev, f) && a == ReplyTo(h.Last().dev, ev)
    ensures IsRun(h.Next(ev, Step(h.Last(), f, ev), a), f, ram)
  {
    var g := h.Next(ev, Step(h.Last(), f, ev), a);
    forall i: nat | i <= |g.trace|
      ensures GoodAt(g, f, i)
    {
      if i <= |h.trace| { assert GoodAt(h, f, i); }
    }
    forall i: nat | i < |g.trace|
      ensures StepAt(g, f, i)
    {
      if i < |h.trace| { assert StepAt(h, f, i); }
    }
  }

  lemma ReachedNext(f: Flash, ram: seq<byte>, evs: seq<Event>, ev: Event)
    requires Usable(f)
    ensures Reached(f, ram, evs + [ev]) == Step(Reached(f, ram, evs), f, ev)
  {
    InitialGood(f, ram);
    RunNext(Start(ram), f, evs, ev);
  }

  // What such a run is: the reached state is that of the run theorems.
  lemma {:induction false} IsRunReaches(h: History, f: Flash, ram: seq<byte>, n: nat)
    requires IsRun(h, f, ram) && Usable(f) && n <= |h.trace|
    ensures h.states[n] == Reached(f, ram, h.trace[..n])
    decreases n
  {
    InitialGood(f, ram);
    if n > 0 {
      IsRunReaches(h, f, ram, n - 1);
      assert h.states[n] == Step(h.states[n - 1], f, h.trace[n - 1]) by { assert StepAt(h, f, n - 1); }
      ReachedNext(f, ram, h.trace[..n - 1], h.trace[n - 1]);
      assert h.trace[..n] == h.trace[..n - 1] + [h.trace[n - 1]];
    }
  }

  // The answers to IN tokens over a run.
  function RepliesIn(f: Flash, ram: seq<byte>, evs: seq<Event>): (r: seq<seq<Answer>>)
    requires Usable(f)
    ensures |r| == |evs|
    ensures forall i :: 0 <= i < |evs| ==> r[i] == ReplyTo(Reached(f, ram, evs[..i]).dev, evs[i])
  {
    seq(|evs|, i requires 0 <= i < |evs| => ReplyTo(Reached(f, ram, evs[..i]).dev, evs[i]))
  }

  lemma RepliedAt(h: History, f: Flash, ram: seq<byte>, i: nat)
    requires IsRun(h, f, ram) && Usable(f) && i < |h.trace|
    ensures h.replies[i] == ReplyTo(Reached(f, ram, h.trace[..i]).dev, h.trace[i])
  {
    IsRunReaches(h, f, ram, i);
    assert StepAt(h, f, i);
  }

  lemma AllReplies(h: History, f: Flash, ram: seq<byte>)
    requires IsRun(h, f, ram) && Usable(f)
    ensures h.replies == RepliesIn(f, ram, h.trace)
  {
    forall i | 0 <= i < |h.trace|
      ensures h.replies[i] == RepliesIn(f, ram, h.trace)[i]
    {
      RepliedAt(h, f, ram, i);
    }
  }

  lemma ConcatNext(replies: seq<seq<Answer>>, a: seq<Answer>)
    ensures Concat(replies + [a]) == Concat(replies) + a
  {
    ConcatAppend(replies, [a]);
    assert Concat([a]) == a + Concat<Answer>([]);
  }

  // ------------------------------------------------------------ interrupts

  // The globals, and the state after the history.
  datatype Moment = Moment(state: Dev, abs: Sys, progress: Progress)

  // What the main program can rely on across interrupts: nothing happens to it while
  // a received packet is unprocessed, nor to a buffer while it is free, and where it
  // agrees with the state after the history, it still does.
  predicate Interrupted(a: Moment, b: Moment) {
    && b.progress == a.progress
    && (a.state.rx.Got? ==> b.state == a.state && b.abs == a.abs)
    && (Idle(a.state.ep0.len) ==>
      && b.state.ep0 == a.state.ep0
      && b.abs == a.abs.(dev := a.abs.dev.(rx := b.abs.dev.rx, ep1 := b.abs.dev.ep1)))
    && (Idle(a.state.ep1.len) ==> b.state.ep1 == a.state.ep1 && b.abs.dev.ep1 == a.abs.dev.ep1)
    && b.state == a.state.(rx := b.state.rx, ep0 := a.state.ep0.(len := b.state.ep0.len), ep1 := a.state.ep1.(len := b.state.ep1.len))
    && (a.state.ep1 == a.abs.dev.ep1 ==> b.state.ep1 == b.abs.dev.ep1)
    && (a.state.(ep1 := a.abs.dev.ep1) == a.abs.dev ==> b.state.(ep1 := b.abs.dev.ep1) == b.abs.dev)
  }

  // What the interrupt routine looks at agrees with the state after the history, even
  // in the middle of a step of the main program: it looks at nothing but usbRxLen
  // while a packet is unprocessed, and only at the length of a free buffer.
  predicate Agree(state: Dev, d: Dev) {
    && state.rx == d.rx
    && (state.rx.Free? ==>
      && state.ep0.len == d.ep0.len && state.ep1.len == d.ep1.len
      && (!Idle(state.ep0.len) ==> state.ep0.buf == d.ep0.buf)
      && (!Idle(state.ep1.len) ==> state.ep1.buf == d.ep1.buf))
  }

  // What it does to the globals and what it answers.
  function Reaction(state: Dev, ev: BusEvent): (Dev, seq<Answer>)
    requires |state.ep0.buf| == 11 && LegalLen(state.ep0.len) && |state.ep1.buf| == 11 && LegalLen(state.ep1.len)
  {
    match ev
    case HostPacket(setup, data) => (Receive(state, setup, data), [])
    case HostIn0 => (In0(state).0, [In0(state).1])
    case HostIn1 => (In1(state).0, [In1(state).1])
  }

  // In agreement, it does what the atomic step does.
  lemma ReactionIsStep(state: Dev, abs: Sys, f: Flash, ev: BusEvent, p: Progress)
    requires |state.ep0.buf| == 11 && LegalLen(state.ep0.len) && |state.ep1.buf| == 11 && LegalLen(state.ep1.len)
    requires Agree(state, abs.dev) && Good(abs.dev, f) && Usable(f)
    ensures var (r, a) := Reaction(state, ev);
      var t := Step(abs, f, ev);
      && Agree(r, t.dev) && a == ReplyTo(abs.dev, ev) && LegalLen(r.ep0.len) && LegalLen(r.ep1.len)
      && Interrupted(Moment(state, abs, p), Moment(r, t, p))
  {
  }

  lemma InterruptedTwice(a: Moment, b: Moment, c: Moment)
    requires Interrupted(a, b) && Interrupted(b, c)
    ensures Interrupted(a, c)
  {
  }

  // The steps of the main program so far, and the history when the last usbPoll began.
  datatype Progress = Progress(main: seq<Event>, past: seq<Event>) {
    function Next(ev: Event): Progress {
      if FromBus(ev) then this else this.(main := main + [ev])
    }
  }

  // While a received packet is unprocessed the interrupt routine changes nothing.
  lemma RefusedStep(s: Sys, f: Flash, ev: BusEvent)
    requires Good(s.dev, f) && Usable(f) && s.dev.rx.Got?
    ensures Step(s, f, ev) == s && ReplyTo(s.dev, ev) == if ev.HostPacket? then [] else [Handshake(PID_NAK)]
  {
  }

  // What the main program and the interrupt routine share besides the buffers: the
  // receive buffer, and the history of both.
  class Bus {
    const flash: Flash
    // what happens on the bus at each program point, and how many have been passed
    const schedule: nat -> seq<BusEvent>
    var clock: nat
    // the answers given to IN tokens
    var answers: seq<Answer>
    var usbRx: Rx

    // the atomic steps so far, those of the main program, those of the bus, and the
    // state they lead to
    ghost const ram0: seq<byte>
    ghost var history: History
    ghost var progress: Progress
    ghost var heard: seq<Event>
    ghost var abs: Sys

    // The history is a run, an interleaving of both parts, and explains all answers.
    ghost predicate Recorded()
      reads this
    {
      && Usable(flash) && IsRun(history, flash, ram0) && history.Last() == abs
      && progress.main == MainPart(history.trace) && progress.past <= history.trace && heard == BusPart(history.trace)
      && answers == Concat(history.replies)
    }

    // So it is at every program point, with nothing left out.
    ghost predicate Ok()
      reads this
    {
      Recorded() && usbRx == abs.dev.rx && heard == Happened(schedule, clock)
    }

    constructor (flash: Flash, ram: seq<byte>, schedule: nat -> seq<BusEvent>)
      requires Usable(flash)
      ensures Ok() && this.flash == flash && ram0 == ram && this.schedule == schedule
      ensures history.trace == [] && clock == 0 && usbRx == Free && abs == Start(ram)
    {
      this.flash := flash;
      this.schedule := schedule;
      clock, answers, usbRx := 0, [], Free;
      ram0 := ram;
      history, progress, heard, abs := History([], [Start(ram)], []), Progress([], []), [], Start(ram);
      new;
      InitialGood(flash, ram);
    }

    // Only the receive buffer and the interrupt endpoint have moved since `a`.
    ghost predicate Serving(a: Sys, ep1: Tx)
      reads this
    {
      && Ok() && Idle(a.dev.ep0.len) && LegalLen(a.dev.ep0.len) && |a.dev.ep0.buf| == 11 && ep1 == abs.dev.ep1
      && abs == a.(dev := a.dev.(rx := abs.dev.rx, ep1 := abs.dev.ep1))
    }

    // Within the processing of a received packet nothing else moves.
    twostate predicate Held()
      reads this
    {
      abs == old(abs) && progress == old(progress) && usbRx == old(usbRx)
    }

    // A step is put on record at the moment it takes effect.
    ghost method Record(ev: Event, a: seq<Answer>)
      requires Usable(flash) && IsRun(history, flash, ram0) && history.Last() == abs && Good(abs.dev, flash)
      requires progress.main == MainPart(history.trace) && progress.past <= history.trace && heard == BusPart(history.trace)
      requires answers == Concat(history.replies) + a && a == ReplyTo(abs.dev, ev)
      modifies this`history, this`progress, this`heard, this`abs
      ensures Recorded() && abs == Step(old(abs), flash, ev) && progress == old(progress).Next(ev)
      ensures heard == if FromBus(ev) then old(heard) + [ev] else old(heard)
    {
      PartsNext(history.trace, ev);
      IsRunNext(history, flash, ram0, ev, a);
      ConcatNext(history.replies, a);
      abs := Step(abs, flash, ev);
      history := history.Next(ev, abs, a);
      progress := progress.Next(ev);
      heard := if FromBus(ev) then heard + [ev] else heard;
    }

    // A step of the main program that is now done.
    ghost method Done(ev: Event)
      requires Recorded() && !FromBus(ev)
      modifies this`history, this`progress, this`heard, this`abs
      ensures Recorded() && heard == old(heard) && progress == old(progress).(main := old(progress).main + [ev])
      ensures Good(old(abs).dev, flash) && abs == Step(old(abs), flash, ev)
    {
      LastIsGood(history, flash, ram0);
      assert answers + [] == answers;
      Record(ev, []);
    }

    // Between two statements while a received packet is unprocessed: data packets are
    // refused and IN tokens get NAK, before anything else is looked at.
    method Refuse()
      requires Ok() && usbRx.Got?
      modifies this
      ensures Ok() && Held()
    {
      var evs := schedule(clock);
      for i := 0 to |evs|
        invariant Recorded() && Held() && abs.dev.rx.Got? && clock == old(clock) && heard == old(heard) + evs[..i]
      {
        var a := if evs[i].HostPacket? then [] else [Handshake(PID_NAK)];
        answers := answers + a;
        LastIsGood(history, flash, ram0);
        RefusedStep(abs, flash, evs[i]);
        Record(evs[i], a);
      }
      clock := clock + 1;
    }
  }

  lemma Rewritten(ep1: Tx, claimed: Tx, crc: Crc, toggle: bool, payload: seq<byte>, copied: seq<byte>)
    requires |ep1.buf| == 11 == |copied| && |payload| <= 8
    requires claimed.buf == ep1.buf[0 := if toggle then Toggle(ep1.buf[0]) else ep1.buf[0]]
    requires copied[..1 + |payload|] == claimed.buf[..1] + payload && copied[|payload| + 3..] == claimed.buf[|payload| + 3..]
    ensures var n := |payload|;
      copied[1 + n := crc(payload).0][2 + n := crc(payload).1] == UsbModel.Arm(ep1, crc, toggle, payload).buf
  {
    var n := |payload|;
    assert copied[1 + n := crc(payload).0][2 + n := crc(payload).1]
      == copied[..1 + n] + [crc(payload).0, crc(payload).1] + copied[n + 3..];
    InterruptEndpoint.Loaded(claimed, crc, payload, copied);
    assert claimed.buf[n + 3..] == ep1.buf[n + 3..];
  }

  lemma BuildElsewhere(d: Dev, e: Dev, f: Flash)
    requires |d.ep0.buf| == 11 && e == d.(rx := e.rx, ep1 := e.ep1)
    ensures BuildTxBlock(e, f) == BuildTxBlock(d, f).(rx := e.rx, ep1 := e.ep1)
  {
    var n := Min(d.msgLen, 8);
    assert Fetch(e, f, e.msgPtr, n) == Fetch(d, f, d.msgPtr, n);
  }

  // The next packet in the buffer, and how it follows from the steps that write it.
  function Filled(d: Dev, f: Flash, n: byte): seq<byte>
    requires |d.ep0.buf| == 11 && n <= 8
  {
    Image(f.crc, Toggle(d.ep0.buf[0]), Fetch(d, f, d.msgPtr, n)) + d.ep0.buf[n + 3..]
  }

  lemma FetchToggled(d: Dev, e: Dev, f: Flash, n: byte)
    requires n <= 8 && Readable(d.msgPtr, d.msgFlags, n)
    requires |d.ep0.buf| == 11 && e.ep0.buf == d.ep0.buf[0 := Toggle(d.ep0.buf[0])]
    requires e.msgPtr == d.msgPtr && e.ram == d.ram && e.configuration == d.configuration
    ensures Fetch(e, f, e.msgPtr, n) == Fetch(d, f, d.msgPtr, n)
    ensures e.ep0.buf[n + 3..] == d.ep0.buf[n + 3..]
  {
  }

  lemma FilledIsBuilt(d: Dev, f: Flash)
    requires |d.ep0.buf| == 11
    ensures var n := Min(d.msgLen, 8);
      var e := BuildTxBlock(d, f);
      e.ep0.buf == Filled(d, f, n) && e.msgPtr == Advance(d.msgPtr, n)
  {
  }

  class Driver {
    const flash: Flash
    const bus: Bus
    var usbTxLen: byte
    const usbTxBuf: array<byte>
    var usbMsgPtr: Ptr
    var usbMsgLen: byte
    var usbMsgFlags: Flags
    var usbConfiguration: byte
    var usbNewDeviceAddr: byte
    var ram: seq<byte>
    const usbTxStatus1: InterruptEndpoint.TxStatus

    ghost const footprint: set<object> := {this, bus, usbTxBuf, usbTxStatus1, usbTxStatus1.buffer}

    ghost predicate Shape()
      reads this
    {
      && usbTxBuf.Length == 11 && usbTxStatus1.buffer.Length == 11
      && usbTxBuf != usbTxStatus1.buffer && bus.flash == flash
    }

    ghost function State(): Dev
      reads footprint
    {
      Dev(Tx(usbTxLen, usbTxBuf[..]), usbTxStatus1.State(), usbMsgPtr, usbMsgLen, usbMsgFlags,
          usbConfiguration, usbNewDeviceAddr, bus.usbRx, ram)
    }

    // Between two steps of the main program the states agree.
    ghost predicate Valid()
      reads footprint
    {
      Shape() && bus.Ok() && State() == bus.abs.dev
    }

    // Reset values of the globals, then usbInit.
    constructor (flash: Flash, ram: seq<byte>, schedule: nat -> seq<BusEvent>)
      requires Usable(flash)
      ensures Valid() && this.flash == flash && bus.ram0 == ram && bus.schedule == schedule && fresh(footprint)
      ensures State() == Initial(ram) && bus.history.trace == [] && bus.clock == 0
    {
      this.flash := flash;
      bus := new Bus(flash, ram, schedule);
      usbTxLen := PID_NAK;
      usbTxBuf := new byte[11](i => 0);
      usbMsgPtr := Ptr.Ram(0);
      usbMsgLen := NO_MSG;
      usbMsgFlags := RamData;
      usbConfiguration := 0;
      usbNewDeviceAddr := 0;
      this.ram := ram;
      usbTxStatus1 := new InterruptEndpoint.TxStatus();
      new;
      assert usbTxBuf[..] == Initial(ram).ep0.buf;
      assert usbTxStatus1.State() == Initial(ram).ep1;
    }

    // ------------------------------------------------- usbDriverDescriptor

    method DriverDescriptor(rq: Request) returns (len: byte)
      requires Shape() && bus.Ok() && bus.usbRx.Got?
      modifies this, bus
      ensures bus.Ok() && bus.Held()
      ensures State() == old(State()).(msgPtr := usbMsgPtr, msgFlags := RomData)
      ensures match FindDescriptor(flash, rq[3], rq[2])
              case Some((p, n)) => usbMsgPtr == p && len == n
              case None => usbMsgPtr == old(usbMsgPtr) && len == 0
    {
      len := SelectDescriptor(rq);
      bus.Refuse();
      usbMsgFlags := RomData;
      bus.Refuse();
    }

    // The nested switch of usbDriverDescriptor.
    method SelectDescriptor(rq: Request) returns (len: byte)
      requires Shape() && bus.Ok() && bus.usbRx.Got?
      modifies this`usbMsgPtr, bus
      ensures bus.Ok() && bus.Held()
      ensures match FindDescriptor(flash, rq[3], rq[2])
              case Some((p, n)) => usbMsgPtr == p && len == n
              case None => usbMsgPtr == old(usbMsgPtr) && len == 0
    {
      len := 0;
      if rq[3] == 1 {
        len := UseBlock(Device);
      } else if rq[3] == 2 {
        len := UseBlock(Config);
      } else if rq[3] == 3 {
        if rq[2] == 0 {
          len := UseBlock(String0);
        } else if rq[2] == 1 {
          len := UseBlock(Vendor);
        } else if rq[2] == 2 {
          len := UseBlock(Product);
        } else if rq[2] == 3 {
          len := UseBlock(Serial);
        }
      } else if rq[3] == 0x21 {
        len, usbMsgPtr := 9, Rom(Config, 18);
      } else if rq[3] == 0x22 {
        len := UseBlock(HidReport);
      }
    }

    // GET_DESCRIPTOR(cfgProp, staticName): nothing if the property is 0.
    method UseBlock(blk: Block) returns (len: byte)
      requires Shape() && bus.Ok() && bus.usbRx.Got?
      modifies this`usbMsgPtr, bus
      ensures bus.Ok() && bus.Held()
      ensures if flash.Of(blk) == [] then usbMsgPtr == old(usbMsgPtr) && len == 0
              else usbMsgPtr == Rom(blk, 0) && len == flash.LenOf(blk)
    {
      len := 0;
      if flash.Of(blk) != [] {
        len := flash.LenOf(blk);
        bus.Refuse();
        usbMsgPtr := Rom(blk, 0);
      }
    }

    // ------------------------------------------------------ usbDriverSetup

    method DriverSetup(rq: Request) returns (len: byte)
      requires Shape() && bus.Ok() && bus.usbRx.Got?
      modifies footprint
      ensures bus.Ok() && bus.Held()
      ensures (State(), len) == UsbModel.DriverSetup(old(State()), flash, rq)
    {
      ghost var d := State();
      len := 0;
      var dataPtr := TxBuf(9);
      usbTxBuf[9] := 0;
      assert usbTxBuf[..] == d.ep0.buf[9 := 0];
      bus.Refuse();
      if rq[1] == 6 {
        len := DriverDescriptor(rq);
        return;
      }
      if rq[1] == 0 {
        usbTxBuf[10] := 0;
        assert usbTxBuf[..] == d.ep0.buf[9 := 0][10 := 0];
        len := 2;
      } else if rq[1] == 5 {
        usbNewDeviceAddr := rq[2];
      } else if rq[1] == 8 {
        dataPtr := Cfg(0);
        len := 1;
      } else if rq[1] == 9 {
        usbConfiguration := rq[2];
      } else if rq[1] == 10 {
        len := 1;
      } else if rq[1] == 11 {
        usbTxStatus1.ResetToggling();
      }
      bus.Refuse();
      usbMsgPtr := dataPtr;
      bus.Refuse();
    }

    // -------------------------------------------------------- usbProcessRx

    method ProcessSetup(rq: Request, app: App)
      requires Shape() && bus.Ok() && bus.usbRx.Got?
      modifies footprint
      ensures bus.Ok() && bus.Held()
      ensures State() == UsbModel.ProcessSetup(old(State()), flash, rq, app)
    {
      AbortTransmit();
      var replyLen: byte;
      if !Standard(rq) {
        ram, usbMsgPtr, replyLen := app.ram, Ptr.Ram(app.off), app.len;
      } else {
        replyLen := DriverSetup(rq);
      }
      bus.Refuse();
      LimitReply(rq, replyLen);
    }

    // The first statements of the SETUP branch: toggling starts anew, what waits is lost.
    method AbortTransmit()
      requires Shape() && bus.Ok() && bus.usbRx.Got?
      modifies usbTxBuf, this`usbTxLen, this`usbMsgFlags, bus
      ensures bus.Ok() && bus.Held()
      ensures State() == old(State()).(ep0 := Tx(PID_NAK, old(usbTxBuf[..])[0 := PID_DATA0]), msgFlags := RamData)
    {
      ghost var buf := usbTxBuf[..];
      usbTxBuf[0] := PID_DATA0;
      bus.Refuse();
      usbTxLen := PID_NAK;
      bus.Refuse();
      usbMsgFlags := RamData;
      bus.Refuse();
      assert usbTxBuf[..] == buf[0 := PID_DATA0];
    }

    // The rest of the SETUP branch: who provides the data, and how much of it.
    method LimitReply(rq: Request, n: byte)
      requires Shape() && bus.Ok() && bus.usbRx.Got?
      modifies this`usbMsgFlags, this`usbMsgLen, bus
      ensures bus.Ok() && bus.Held()
      ensures if n == NO_MSG then usbMsgFlags == UserRw && usbMsgLen == if ToHost(rq) then rq[6] else NO_MSG
              else usbMsgFlags == old(usbMsgFlags) && usbMsgLen == if rq[7] == 0 && n > rq[6] then rq[6] else n
    {
      var replyLen := n;
      if replyLen == NO_MSG {
        if ToHost(rq) {
          replyLen := rq[6];
        }
        bus.Refuse();
        usbMsgFlags := UserRw;
      } else if rq[7] == 0 && replyLen > rq[6] {
        replyLen := rq[6];
      }
      bus.Refuse();
      usbMsgLen := replyLen;
      bus.Refuse();
    }

    method ProcessOut(app: App)
      requires Shape() && bus.Ok() && bus.usbRx.Got?
      modifies this, bus
      ensures bus.Ok() && bus.Held()
      ensures State() == UsbModel.ProcessOut(old(State()), app)
    {
      if usbMsgFlags == UserRw {
        bus.Refuse();
        ram := app.ram;
        var rval := app.writeResult;
        bus.Refuse();
        if rval == 0xff {
          usbTxLen := PID_STALL;
        } else if rval != 0 {
          usbMsgLen := 0;
        }
      }
      bus.Refuse();
    }

    method ProcessRx(app: App)
      requires Shape() && bus.Ok() && bus.usbRx.Got?
      modifies footprint
      ensures bus.Ok() && bus.Held()
      ensures State().(rx := Free) == UsbModel.ProcessRx(old(State()), flash, app)
    {
      var rx := bus.usbRx;
      bus.Refuse();
      if rx.setup {
        if |rx.data| != 8 { return; }
        ProcessSetup(rx.data, app);
      } else {
        ProcessOut(app);
      }
    }

    // ------------------------------------------------ the interrupt routine

    ghost function Now(): Moment
      reads footprint
    {
      Moment(State(), bus.abs, bus.progress)
    }

    ghost predicate Linked()
      reads footprint
    {
      && Shape() && bus.Recorded() && Agree(State(), bus.abs.dev)
      && LegalLen(usbTxLen) && LegalLen(usbTxStatus1.len)
    }

    // handleData, handleIn and handleIn1
    method HandleData(setup: bool, data: seq<byte>)
      modifies bus`usbRx
      ensures bus.usbRx == UsbModel.Receive(old(State()), setup, data).rx
    {
      if bus.usbRx.Free? && 1 <= |data| <= 8 {
        bus.usbRx := Got(setup, data);
      }
    }

    method HandleIn() returns (a: Answer)
      requires Shape() && LegalLen(usbTxLen)
      modifies this`usbTxLen
      ensures (State(), a) == UsbModel.In0(old(State()))
    {
      if bus.usbRx.Got? {
        a := Handshake(PID_NAK);
      } else if Idle(usbTxLen) {
        a := Handshake(usbTxLen);
      } else {
        a := Packet(usbTxBuf[..usbTxLen - 1]);
        usbTxLen := PID_NAK;
      }
    }

    method HandleIn1() returns (a: Answer)
      requires Shape() && LegalLen(usbTxStatus1.len)
      modifies usbTxStatus1
      ensures (State(), a) == UsbModel.In1(old(State()))
    {
      if bus.usbRx.Got? {
        a := Handshake(PID_NAK);
      } else if Idle(usbTxStatus1.len) {
        a := Handshake(usbTxStatus1.len);
      } else {
        a := Packet(usbTxStatus1.buffer[..usbTxStatus1.len - 1]);
        usbTxStatus1.Poll(true);
      }
    }

    method React(ev: BusEvent) returns (a: seq<Answer>)
      requires Shape() && LegalLen(usbTxLen) && LegalLen(usbTxStatus1.len)
      modifies this`usbTxLen, bus`usbRx, usbTxStatus1
      ensures (State(), a) == Reaction(old(State()), ev)
    {
      a := [];
      match ev {
        case HostPacket(setup, data) => HandleData(setup, data);
        case HostIn0 => var h := HandleIn(); a := [h];
        case HostIn1 => var h := HandleIn1(); a := [h];
      }
    }

    method Handle(ev: BusEvent)
      requires Linked()
      modifies this`usbTxLen, bus, usbTxStatus1
      ensures Linked() && Interrupted(old(Now()), Now()) && bus.heard == old(bus.heard) + [ev] && bus.clock == old(bus.clock)
    {
      LastIsGood(bus.history, flash, bus.ram0);
      ReactionIsStep(State(), bus.abs, flash, ev, bus.progress);
      var a := React(ev);
      bus.answers := bus.answers + a;
      bus.Record(ev, a);
    }

    method HandleAll(evs: seq<BusEvent>)
      requires Linked()
      modifies this`usbTxLen, bus, usbTxStatus1
      ensures Linked() && Interrupted(old(Now()), Now()) && bus.heard == old(bus.heard) + evs && bus.clock == old(bus.clock)
    {
      ghost var start, had := Now(), bus.heard;
      for i := 0 to |evs|
        invariant Linked() && Interrupted(start, Now()) && bus.heard == had + evs[..i] && bus.clock == old(bus.clock)
      {
        ghost var before := Now();
        Handle(evs[i]);
        InterruptedTwice(start, before, Now());
      }
    }

    // Between two statements: whatever happens on the bus there.
    method Interrupts()
      requires Linked() && bus.Ok()
      modifies this`usbTxLen, bus, usbTxStatus1
      ensures Linked() && bus.Ok() && Interrupted(old(Now()), Now())
    {
      HandleAll(bus.schedule(bus.clock));
      bus.clock := bus.clock + 1;
    }

    // ------------------------------------- usbDeviceRead, usbBuildTxBlock

    // A packet is being built in the free buffer; the rest is as after the history.
    ghost predicate Building(a: Sys)
      reads this, bus, usbTxStatus1, usbTxStatus1.buffer
    {
      Shape() && bus.Serving(a, usbTxStatus1.State()) && usbTxLen == a.dev.ep0.len
    }

    method InterruptsWhileBuilding(ghost a: Sys)
      requires Building(a)
      modifies this`usbTxLen, bus, usbTxStatus1
      ensures Building(a) && bus.progress == old(bus.progress)
    {
      LastIsGood(bus.history, flash, bus.ram0);
      Interrupts();
    }

    // A byte of flash, or of data memory: the application's, the transmit buffer, usbConfiguration.
    method ReadFlash(blk: Block, off: nat) returns (b: byte)
      ensures b == At(flash.Of(blk), off)
    {
      b := At(flash.Of(blk), off);
    }

    method ReadRam(r: Ptr) returns (b: byte)
      requires !r.Rom? && usbTxBuf.Length == 11 && (r.TxBuf? ==> r.off < 11) && (r.Cfg? ==> r.off == 0)
      ensures b == ByteAt(State(), flash, r, 0)
    {
      match r
      case Ram(off) => b := At(ram, off);
      case TxBuf(off) => b := usbTxBuf[off];
      case Cfg(off) => b := usbConfiguration;
    }

    // The flag tells which memory to read.
    method ReadMessage(r: Ptr) returns (b: byte)
      requires usbTxBuf.Length == 11 && (r.Rom? <==> usbMsgFlags == RomData)
      requires (r.TxBuf? ==> r.off < 11) && (r.Cfg? ==> r.off == 0)
      ensures b == ByteAt(State(), flash, r, 0)
    {
      if usbMsgFlags == RomData {
        b := ReadFlash(r.blk, r.off);
      } else {
        b := ReadRam(r);
      }
    }

    method PutByte(k: nat, c: byte, ghost a: Sys)
      requires Building(a) && k < 11
      modifies usbTxBuf, this`usbTxLen, bus, usbTxStatus1
      ensures Building(a) && bus.progress == old(bus.progress)
      ensures usbTxBuf[..] == old(usbTxBuf[..])[k := c]
    {
      InterruptsWhileBuilding(a);
      ghost var buf := usbTxBuf[..];
      usbTxBuf[k] := c;
      InterruptsWhileBuilding(a);
      assert usbTxBuf[..] == buf[k := c];
    }

    // One turn of the copy loop: the next byte of the message, although bytes before it
    // have been written to the buffer it may be staged in.
    method CopyByte(r: Ptr, k: nat, len: byte, ghost a: Sys, ghost d: Dev, ghost got: seq<byte>)
      requires Building(a) && |d.ep0.buf| == 11 && |got| < len <= 8 && Readable(d.msgPtr, d.msgFlags, len)
      requires usbTxBuf[..] == Placed(d.ep0.buf, got) && k == 1 + |got| && r == Advance(d.msgPtr, |got|)
      requires usbMsgFlags == d.msgFlags && ram == d.ram && usbConfiguration == d.configuration
      modifies usbTxBuf, this`usbTxLen, bus, usbTxStatus1
      ensures Building(a) && bus.progress == old(bus.progress)
      ensures usbTxBuf[..] == Placed(d.ep0.buf, got + [ByteAt(d, flash, d.msgPtr, |got|)])
    {
      var c := ReadMessage(r);
      NextByte(d, State(), flash, got, len);
      PlaceNext(d.ep0.buf, got, c);
      PutByte(k, c, a);
    }

    // Copies `len` bytes from usbMsgPtr to usbTxBuf + 1. The flag must tell the
    // memory usbMsgPtr points into.
    method DeviceRead(len: byte, ghost a: Sys)
      requires Building(a) && len <= 8 && Readable(usbMsgPtr, usbMsgFlags, len)
      modifies usbTxBuf, this`usbMsgPtr, this`usbTxLen, bus, usbTxStatus1
      ensures Building(a) && bus.progress == old(bus.progress)
      ensures usbTxBuf[..] == Placed(old(usbTxBuf[..]), old(Fetch(State(), flash, usbMsgPtr, len)))
      ensures usbMsgPtr == Advance(old(usbMsgPtr), len)
    {
      ghost var d := State();
      ghost var got: seq<byte> := [];
      if len > 0 {
        var i, r := len, usbMsgPtr;
        while true
          invariant 1 <= i <= len && |got| == len - i && r == Advance(d.msgPtr, |got|) && usbMsgPtr == d.msgPtr
          invariant got == Fetch(d, flash, d.msgPtr, |got|)
          invariant usbTxBuf[..] == Placed(d.ep0.buf, got)
          invariant Building(a) && bus.progress == old(bus.progress)
          decreases i
        {
          CopyByte(r, 1 + (len - i), len, a, d, got);
          FetchNext(d, flash, d.msgPtr, got, ByteAt(d, flash, d.msgPtr, |got|));
          got := got + [ByteAt(d, flash, d.msgPtr, |got|)];
          r, i := Advance(r, 1), i - 1;
          if i == 0 { break; }
        }
        usbMsgPtr := r;
      }
      assert got == Fetch(d, flash, d.msgPtr, len);
    }

    // usbCrc16Append(&usbTxBuf[1], len)
    method AppendCrc(len: byte, ghost a: Sys, ghost before: seq<byte>, ghost payload: seq<byte>)
      requires Building(a) && |before| == 11 && len <= 8 && |payload| == len
      requires usbTxBuf[..] == Placed(before, payload)
      modifies usbTxBuf, this`usbTxLen, bus, usbTxStatus1
      ensures Building(a) && bus.progress == old(bus.progress)
      ensures usbTxBuf[..] == Image(flash.crc, before[0], payload) + before[len + 3..]
    {
      CrcPlaced(before, payload, flash.crc(payload));
      var c := flash.crc(usbTxBuf[..][1..1 + len]);
      PutByte(1 + len, c.0, a);
      PutByte(2 + len, c.1, a);
    }

    // A read is never longer than asked for, so the branch that stalls the
    // endpoint cannot be reached in this configuration.
    method BuildTxBlock()
      requires Valid() && Idle(usbTxLen) && usbMsgLen != NO_MSG
      modifies footprint
      ensures Valid() && bus.progress == old(bus.progress).(main := old(bus.progress).main + [Build])
    {
      LastIsGood(bus.history, flash, bus.ram0);
      ghost var a := bus.abs;
      var wantLen := usbMsgLen;
      if wantLen > 8 {
        wantLen := 8;
      }
      InterruptsWhileBuilding(a);
      usbMsgLen := usbMsgLen - wantLen;
      InterruptsWhileBuilding(a);
      Fill(wantLen, a);
      FilledIsBuilt(a.dev, flash);
      Arm(wantLen, a);
    }

    // Token, data and CRC of the next packet.
    method Fill(wantLen: byte, ghost a: Sys)
      requires Building(a) && wantLen == Min(a.dev.msgLen, 8) && Readable(usbMsgPtr, usbMsgFlags, wantLen)
      requires usbTxBuf[..] == a.dev.ep0.buf && usbMsgPtr == a.dev.msgPtr
      requires ram == a.dev.ram && usbConfiguration == a.dev.configuration && usbMsgFlags == a.dev.msgFlags
      modifies usbTxBuf, this`usbMsgPtr, this`usbTxLen, bus, usbTxStatus1
      ensures Building(a) && bus.progress == old(bus.progress)
      ensures usbTxBuf[..] == Filled(a.dev, flash, wantLen) && usbMsgPtr == Advance(a.dev.msgPtr, wantLen)
    {
      ghost var payload := Fetch(a.dev, flash, usbMsgPtr, wantLen);
      usbTxBuf[0] := Toggle(usbTxBuf[0]);
      ghost var toggled := usbTxBuf[..];
      InterruptsWhileBuilding(a);
      FetchToggled(a.dev, State(), flash, wantLen);
      DeviceRead(wantLen, a);
      AppendCrc(wantLen, a, toggled, payload);
    }

    // The packet is complete; the last statements of usbBuildTxBlock.
    method Arm(wantLen: byte, ghost a: Sys)
      requires Building(a) && wantLen <= 8
      requires var e := UsbModel.BuildTxBlock(a.dev, flash);
        && usbTxBuf[..] == e.ep0.buf && usbMsgPtr == e.msgPtr && wantLen == Min(a.dev.msgLen, 8)
        && usbMsgLen == a.dev.msgLen - wantLen && a.dev.msgLen != NO_MSG
        && usbMsgFlags == e.msgFlags && usbConfiguration == e.configuration && usbNewDeviceAddr == e.newAddr && ram == e.ram
      modifies footprint
      ensures Valid() && bus.progress == old(bus.progress).(main := old(bus.progress).main + [Build])
    {
      var len := wantLen + 4;
      if len < 12 {
        usbMsgLen := NO_MSG;
      }
      InterruptsWhileBuilding(a);
      usbTxLen := len;
      BuildElsewhere(a.dev, bus.abs.dev, flash);
      bus.Done(Build);
    }

    // -------------------------------------------------------------- usbPoll

    // Interrupts while no step of the main program is under way.
    method InterruptsBetween()
      requires Valid()
      modifies this`usbTxLen, bus, usbTxStatus1
      ensures Valid() && bus.progress == old(bus.progress)
      ensures Idle(old(usbTxLen)) ==> usbTxLen == old(usbTxLen)
      ensures Idle(old(usbTxStatus1.len)) ==> usbTxStatus1.len == old(usbTxStatus1.len)
    {
      LastIsGood(bus.history, flash, bus.ram0);
      Interrupts();
    }

    // usbRxLen is read, and if there is a packet, it is processed.
    method PollReceive(app: App)
      requires Valid()
      modifies footprint
      ensures Valid() && bus.progress == old(bus.progress).(main := old(bus.progress).main + [Process(app)])
    {
      if bus.usbRx.Got? {
        bus.Refuse();
        ProcessRx(app);
        bus.Refuse();
        bus.usbRx := Free;
        bus.Done(Process(app));
      } else {
        bus.Done(Process(app));
      }
    }

    method PollTransmit()
      requires Valid()
      modifies footprint
      ensures Valid() && bus.progress == old(bus.progress).(main := old(bus.progress).main + [Build])
    {
      if Idle(usbTxLen) {
        InterruptsBetween();
        if usbMsgLen != NO_MSG {
          BuildTxBlock();
        } else {
          bus.Done(Build);
        }
      } else {
        bus.Done(Build);
      }
    }

    method PollReset(reset: bool)
      requires Valid()
      modifies footprint
      ensures Valid()
      ensures bus.progress == if reset then old(bus.progress).(main := old(bus.progress).main + [BusReset]) else old(bus.progress)
    {
      if reset {
        usbNewDeviceAddr := 0;
        bus.Done(BusReset);
      }
    }

    // With the interrupt routine running between any two statements: what has happened
    // at the end is an order of the atomic steps of the main program and of all that
    // happened on the bus, each at the moment it took effect.
    method Poll(app: App, reset: bool)
      requires Valid()
      modifies footprint
      ensures Valid()
      ensures old(bus.history.trace) <= bus.history.trace
      ensures bus.progress.main == old(bus.progress.main) + [Process(app)] + [Build] + if reset then [BusReset] else []
    {
      bus.progress := bus.progress.(past := bus.history.trace);
      InterruptsBetween();
      PollReceive(app);
      InterruptsBetween();
      PollTransmit();
      InterruptsBetween();
      PollReset(reset);
      InterruptsBetween();
      assert bus.progress.main + [] == bus.progress.main;
    }

    // ------------------------------------------------------ usbSetInterrupt

    // A call is under way: the endpoint's buffer is free, and all but what is in it is as
    // after the history.
    ghost predicate Setting(ep1: Tx)
      reads footprint
    {
      && |ep1.buf| == 11 && Linked() && bus.Ok() && Idle(usbTxStatus1.len) && usbTxStatus1.len == ep1.len
      && bus.abs.dev.ep1 == ep1 && State().(ep1 := ep1) == bus.abs.dev
    }

    method InterruptsWhileSetting(ghost ep1: Tx)
      requires Setting(ep1)
      modifies this`usbTxLen, bus, usbTxStatus1
      ensures Setting(ep1) && bus.progress == old(bus.progress)
    {
      Interrupts();
    }

    // A store into the endpoint's buffer, between interrupts.
    method PutByte1(k: nat, c: byte, ghost ep1: Tx)
      requires Setting(ep1) && k < 11
      modifies usbTxStatus1.buffer, this`usbTxLen, bus, usbTxStatus1
      ensures Setting(ep1) && bus.progress == old(bus.progress)
      ensures usbTxStatus1.buffer[..] == old(usbTxStatus1.buffer[..])[k := c]
    {
      ghost var buf := usbTxStatus1.buffer[..];
      usbTxStatus1.buffer[k] := c;
      assert usbTxStatus1.buffer[..] == buf[k := c];
      InterruptsWhileSetting(ep1);
    }

    // The copy loop: its control is at the end, so a byte is copied even if n is 0.
    method CopyInterrupt(data: array<byte>, n: byte, ghost ep1: Tx)
      requires Setting(ep1) && n <= 8 && data.Length >= n && data.Length >= 1
      requires data != usbTxStatus1.buffer && data != usbTxBuf
      modifies usbTxStatus1.buffer, this`usbTxLen, bus, usbTxStatus1
      ensures Setting(ep1) && bus.progress == old(bus.progress)
      ensures InterruptEndpoint.Copied(usbTxStatus1.buffer[..], old(usbTxStatus1.buffer[..]), data[..], if n == 0 then 1 else n)
    {
      var p := 0;
      var i: int := n;
      while true
        invariant 0 <= p <= 8 && p < data.Length && i == n - p && (p == 0 || i > 0)
        invariant Setting(ep1) && bus.progress == old(bus.progress)
        invariant InterruptEndpoint.Copied(usbTxStatus1.buffer[..], old(usbTxStatus1.buffer[..]), data[..], p)
        decreases i
      {
        PutByte1(1 + p, data[p], ep1);
        p := p + 1;
        i := i - 1;
        if !(i > 0) { break; }
      }
    }

    // Test and claim of the buffer. A packet that waits, or has just been fetched, is
    // withdrawn and its PID will be used again.
    method ClaimInterrupt() returns (empty: bool)
      requires Valid()
      modifies this`usbTxLen, bus, usbTxStatus1, usbTxStatus1.buffer
      ensures Setting(bus.abs.dev.ep1)
      ensures var old1 := bus.abs.dev.ep1.buf;
        usbTxStatus1.buffer[..] == old1[0 := if empty then Toggle(old1[0]) else old1[0]]
      ensures bus.progress == if empty then old(bus.progress) else old(bus.progress).(main := old(bus.progress).main + [Withdraw])
    {
      InterruptsBetween();
      empty := Idle(usbTxStatus1.len);
      InterruptsBetween();
      LastIsGood(bus.history, flash, bus.ram0);
      if empty {
        usbTxStatus1.buffer[0] := Toggle(usbTxStatus1.buffer[0]);
        assert usbTxStatus1.buffer[..] == bus.abs.dev.ep1.buf[0 := Toggle(bus.abs.dev.ep1.buf[0])];
      } else {
        usbTxStatus1.len := PID_NAK;
        bus.Done(Withdraw);
      }
    }

    // usbSetInterrupt, with the interrupt routine between any two statements: two steps
    // of the main program, or one if no packet was waiting when it began.
    method SetInterrupt(data: array<byte>, n: byte) returns (ghost toggled: bool)
      requires Valid() && n <= 8 && data.Length >= n && data.Length >= 1
      requires data != usbTxStatus1.buffer && data != usbTxBuf
      modifies footprint
      ensures Valid() && old(bus.history.trace) <= bus.history.trace
      ensures bus.progress.main == old(bus.progress.main) + (if toggled then [] else [Withdraw]) + [Event.Arm(toggled, old(data[..n]))]
    {
      bus.progress := bus.progress.(past := bus.history.trace);
      var empty := ClaimInterrupt();
      toggled := empty;
      assert bus.progress.main + [] == bus.progress.main;
      FillInterrupt(data, n, empty);
      ArmInterrupt(n, empty, data[..n]);
      InterruptsBetween();
    }

    // The statements that write the packet.
    method FillInterrupt(data: array<byte>, n: byte, ghost empty: bool)
      requires Setting(bus.abs.dev.ep1) && n <= 8 && data.Length >= n && data.Length >= 1
      requires data != usbTxStatus1.buffer && data != usbTxBuf
      requires var old1 := bus.abs.dev.ep1.buf;
        usbTxStatus1.buffer[..] == old1[0 := if empty then Toggle(old1[0]) else old1[0]]
      modifies this`usbTxLen, bus, usbTxStatus1, usbTxStatus1.buffer
      ensures bus.abs.dev.ep1 == old(bus.abs.dev.ep1) && Setting(bus.abs.dev.ep1) && bus.progress == old(bus.progress)
      ensures usbTxStatus1.buffer[..] == UsbModel.Arm(bus.abs.dev.ep1, flash.crc, empty, data[..n]).buf
    {
      ghost var ep1, payload := bus.abs.dev.ep1, data[..n];
      ghost var claimed := Tx(ep1.len, usbTxStatus1.buffer[..]);
      InterruptsWhileSetting(ep1);
      CopyInterrupt(data, n, ep1);
      ghost var copied := usbTxStatus1.buffer[..];
      InterruptEndpoint.CopiedParts(copied, claimed.buf, data[..], n);
      AppendCrc1(n, ep1, payload);
      Rewritten(ep1, claimed, flash.crc, empty, payload, copied);
    }

    // usbCrc16Append(&buffer[1], n)
    method AppendCrc1(n: byte, ghost ep1: Tx, ghost payload: seq<byte>)
      requires Setting(ep1) && n <= 8 && usbTxStatus1.buffer[..][1..1 + n] == payload
      modifies this`usbTxLen, bus, usbTxStatus1, usbTxStatus1.buffer
      ensures Setting(ep1) && bus.progress == old(bus.progress)
      ensures usbTxStatus1.buffer[..] == old(usbTxStatus1.buffer[..])[1 + n := flash.crc(payload).0][2 + n := flash.crc(payload).1]
    {
      var c := flash.crc(usbTxStatus1.buffer[..][1..1 + n]);
      PutByte1(1 + n, c.0, ep1);
      PutByte1(2 + n, c.1, ep1);
    }

    // The packet is complete; its length is stored.
    method ArmInterrupt(n: byte, ghost empty: bool, ghost payload: seq<byte>)
      requires Setting(bus.abs.dev.ep1) && n == |payload| <= 8
      requires usbTxStatus1.buffer[..] == UsbModel.Arm(bus.abs.dev.ep1, flash.crc, empty, payload).buf
      modifies usbTxStatus1, bus
      ensures Valid() && bus.progress == old(bus.progress).(main := old(bus.progress).main + [Event.Arm(empty, payload)])
    {
      usbTxStatus1.len := n + 4;
      usbTxStatus1.calls := usbTxStatus1.calls + [payload];
      bus.Done(Event.Arm(empty, payload));
    }

    // The run theorems hold of the driver: its globals are those reached by the trace,
    // which consists of the steps of the main program and of everything that happened
    // on the bus, and the answers given are those of the atomic steps.
    lemma Explained()
      requires Valid()
      ensures Usable(flash)
      ensures var h := bus.history;
        && State() == Reached(flash, bus.ram0, h.trace).dev
        && MainPart(h.trace) == bus.progress.main && BusPart(h.trace) == Happened(bus.schedule, bus.clock)
        && bus.answers == Concat(RepliesIn(flash, bus.ram0, h.trace))
    {
      var h := bus.history;
      IsRunReaches(h, flash, bus.ram0, |h.trace|);
      AllReplies(h, flash, bus.ram0);
      assert h.trace[..|h.trace|] == h.trace;
    }
  }
}
