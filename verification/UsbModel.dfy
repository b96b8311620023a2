// V-USB firmware driver (usbdrv.c): the state the C code and the interrupt
// routine share, and what one call or one bus event does to it.
//
// Configuration as shipped: control-out data goes to usbFunctionWrite, control-in
// data comes from memory, message lengths are one byte, no endpoint halt.

module UsbModel {
  import opened Bytes

  const PID_DATA0: byte := 0xc3
  const PID_DATA1: byte := 0x4b
  const PID_NAK: byte := 0x5a
  const PID_STALL: byte := 0x1e
  const NO_MSG: byte := 255

  // All handshake tokens have bit 4 set and all transmit lengths (4..12) have it
  // clear; the interrupt routine and usbPoll both test this bit.
  predicate Idle(len: byte) {
    len / 16 % 2 == 1
  }

  predicate LegalLen(len: byte) {
    len == PID_NAK || len == PID_STALL || 4 <= len <= 12
  }

  function FlipBit(b: byte, weight: byte): byte
    requires weight == 8 || weight == 128
  {
    if b / weight % 2 == 1 then b - weight else b + weight
  }

  // b ^ (DATA0 ^ DATA1): the two PIDs differ in bits 3 and 7.
  function Toggle(b: byte): byte {
    FlipBit(FlipBit(b, 8), 128)
  }

  // ---------------------------------------------------------- transmit buffers

  // A transmit buffer: `len` is a handshake token or the number of bytes to send
  // (counting the sync byte); `buf` is PID, data, CRC.
  datatype Tx = Tx(len: byte, buf: seq<byte>)

  type Crc = seq<byte> -> (byte, byte)

  function Image(crc: Crc, pid: byte, payload: seq<byte>): seq<byte> {
    [pid] + payload + [crc(payload).0, crc(payload).1]
  }

  // Token, data and CRC put in the buffer, then the length: the packet is armed.
  function Load(tx: Tx, crc: Crc, pid: byte, payload: seq<byte>): Tx
    requires |tx.buf| == 11 && |payload| <= 8
  {
    Tx(|payload| + 4, Image(crc, pid, payload) + tx.buf[|payload| + 3..])
  }

  predicate Complete(tx: Tx, crc: Crc) {
    && |tx.buf| == 11
    && LegalLen(tx.len)
    && (!Idle(tx.len) ==> tx.buf[..tx.len - 1] == Image(crc, tx.buf[0], tx.buf[1..tx.len - 3]))
  }

  datatype Answer = Handshake(pid: byte) | Packet(bytes: seq<byte>)

  // The interrupt routine on an IN token: a handshake, or the packet, after
  // which the buffer is free again.
  function Send(tx: Tx): (Tx, Answer)
    requires |tx.buf| == 11 && LegalLen(tx.len)
  {
    if Idle(tx.len) then (tx, Handshake(tx.len))
    else (tx.(len := PID_NAK), Packet(tx.buf[..tx.len - 1]))
  }

  // ------------------------------------------------------------- the constants

  datatype Block = Device | Config | String0 | Vendor | Product | Serial | HidReport

  datatype Flash = Flash(device: seq<byte>, config: seq<byte>, string0: seq<byte>, vendor: seq<byte>,
                         product: seq<byte>, serial: seq<byte>, hidReport: seq<byte>, crc: Crc)
  {
    function Of(blk: Block): seq<byte> {
      match blk
      case Device => device
      case Config => config
      case String0 => string0
      case Vendor => vendor
      case Product => product
      case Serial => serial
      case HidReport => hidReport
    }

    // Lengths travel in one byte.
    function LenOf(blk: Block): byte {
      |Of(blk)| % 256
    }
  }

  // 255 is the sentinel "no message", so no descriptor may have that length.
  ghost predicate Usable(f: Flash) {
    forall blk: Block :: f.LenOf(blk) != NO_MSG
  }

  // ----------------------------------------------------------------- the state

  // usbMsgPtr: into flash, into the application's RAM, into usbTxBuf, or at usbConfiguration.
  datatype Ptr = Rom(blk: Block, off: nat) | Ram(off: nat) | TxBuf(off: nat) | Cfg(off: nat)

  // usbMsgFlags takes no other values: it is always assigned as a whole.
  datatype Flags = RamData | RomData | UserRw

  // usbRxBuf and usbRxLen: at most one received, not yet processed data packet.
  datatype Rx = Free | Got(setup: bool, data: seq<byte>)

  datatype Dev = Dev(ep0: Tx, ep1: Tx, msgPtr: Ptr, msgLen: byte, msgFlags: Flags,
                     configuration: byte, newAddr: byte, rx: Rx, ram: seq<byte>)

  // After usbInit.
  function Initial(ram: seq<byte>): Dev {
    Dev(Tx(PID_NAK, seq(11, _ => 0)), Tx(PID_NAK, seq(11, _ => 0)[0 := PID_DATA1]),
        Ram(0), NO_MSG, RamData, 0, 0, Free, ram)
  }

  function At(s: seq<byte>, i: nat): byte {
    if i < |s| then s[i] else 0
  }

  // The byte i places behind usbMsgPtr.
  function ByteAt(d: Dev, f: Flash, p: Ptr, i: nat): byte {
    match p
    case Rom(blk, off) => At(f.Of(blk), off + i)
    case Ram(off) => At(d.ram, off + i)
    case TxBuf(off) => At(d.ep0.buf, off + i)
    case Cfg(off) => At([d.configuration], off + i)
  }

  function Fetch(d: Dev, f: Flash, p: Ptr, n: nat): (r: seq<byte>)
    ensures |r| == n
    ensures forall i :: 0 <= i < n ==> r[i] == ByteAt(d, f, p, i)
  {
    seq(n, i requires 0 <= i < n => ByteAt(d, f, p, i))
  }

  function Advance(p: Ptr, n: nat): Ptr {
    match p
    case Rom(blk, off) => Rom(blk, off + n)
    case Ram(off) => Ram(off + n)
    case TxBuf(off) => TxBuf(off + n)
    case Cfg(off) => Cfg(off + n)
  }

  // What the application's callbacks do in one usbPoll: where usbFunctionSetup
  // points usbMsgPtr, the length it returns, what usbFunctionWrite returns,
  // and the RAM they leave behind.
  datatype App = App(off: nat, len: byte, writeResult: byte, ram: seq<byte>)

  // ------------------------------------------------------------ SETUP requests

  type Request = s: seq<byte> | |s| == 8 witness [0, 0, 0, 0, 0, 0, 0, 0]

  predicate Standard(rq: Request) { rq[0] / 32 % 4 == 0 }
  predicate ToHost(rq: Request) { rq[0] >= 128 }
  function WLength(rq: Request): nat { Word(rq[6], rq[7]) }

  // usbDriverDescriptor: for each descriptor kind, where its bytes are and how many.
  function FindDescriptor(f: Flash, kind: byte, index: byte): Option<(Ptr, byte)> {
    var blk :=
      match kind
      case 1 => Some(Device)
      case 2 => Some(Config)
      case 3 => (match index
                 case 0 => Some(String0)
                 case 1 => Some(Vendor)
                 case 2 => Some(Product)
                 case 3 => Some(Serial)
                 case _ => None)
      case 0x22 => Some(HidReport)
      case _ => None;
    if kind == 0x21 then Some((Rom(Config, 18), 9))
    else if blk.Some? && f.Of(blk.value) != [] then Some((Rom(blk.value, 0), f.LenOf(blk.value)))
    else None
  }

  // usbDriverSetup: the standard requests. Returns the reply length.
  function DriverSetup(d: Dev, f: Flash, rq: Request): (Dev, byte)
    requires |d.ep0.buf| == 11 && |d.ep1.buf| == 11
  {
    var e := d.(ep0 := d.ep0.(buf := d.ep0.buf[9 := 0]));
    match rq[1]
    case 0 => (e.(ep0 := e.ep0.(buf := e.ep0.buf[10 := 0]), msgPtr := TxBuf(9)), 2)
    case 5 => (e.(newAddr := rq[2], msgPtr := TxBuf(9)), 0)
    case 6 =>
      (match FindDescriptor(f, rq[3], rq[2])
       case Some((p, n)) => (e.(msgPtr := p, msgFlags := RomData), n)
       case None => (e.(msgFlags := RomData), 0))
    case 8 => (e.(msgPtr := Cfg(0)), 1)
    case 9 => (e.(configuration := rq[2], msgPtr := TxBuf(9)), 0)
    case 10 => (e.(msgPtr := TxBuf(9)), 1)
    case 11 => (e.(ep1 := ResetToggle(e.ep1), msgPtr := TxBuf(9)), 0)
    case _ => (e.(msgPtr := TxBuf(9)), 0)
  }

  function ResetToggle(tx: Tx): Tx
    requires |tx.buf| == 11
  {
    tx.(buf := tx.buf[0 := PID_DATA1])
  }

  // usbProcessRx on an 8 byte SETUP packet.
  function ProcessSetup(d: Dev, f: Flash, rq: Request, app: App): (e: Dev)
    requires |d.ep0.buf| == 11 && |d.ep1.buf| == 11
    ensures |e.ep0.buf| == 11 && |e.ep1.buf| == 11 && e.ep0.len == PID_NAK
  {
    var e := d.(ep0 := Tx(PID_NAK, d.ep0.buf[0 := PID_DATA0]), msgFlags := RamData);
    var (g, n) := if Standard(rq) then DriverSetup(e, f, rq)
                  else (e.(ram := app.ram, msgPtr := Ram(app.off)), app.len);
    if n == NO_MSG then g.(msgFlags := UserRw, msgLen := if ToHost(rq) then rq[6] else NO_MSG)
    else g.(msgLen := if rq[7] == 0 && n > rq[6] then rq[6] else n)
  }

  // usbProcessRx on an OUT packet: data for usbFunctionWrite, if the request asked for it.
  function ProcessOut(d: Dev, app: App): Dev {
    if d.msgFlags != UserRw then d
    else
      var e := d.(ram := app.ram);
      if app.writeResult == 0xff then e.(ep0 := e.ep0.(len := PID_STALL))
      else if app.writeResult != 0 then e.(msgLen := 0)
      else e
  }

  function ProcessRx(d: Dev, f: Flash, app: App): (e: Dev)
    requires |d.ep0.buf| == 11 && |d.ep1.buf| == 11
    ensures |e.ep0.buf| == 11 && |e.ep1.buf| == 11
  {
    match d.rx
    case Free => d
    case Got(true, data) => (if |data| == 8 then ProcessSetup(d, f, data, app) else d).(rx := Free)
    case Got(false, data) => ProcessOut(d, app).(rx := Free)
  }

  // usbBuildTxBlock: the next packet of the message, with the other PID; a
  // packet of less than 8 bytes ends the message.
  function BuildTxBlock(d: Dev, f: Flash): (e: Dev)
    requires |d.ep0.buf| == 11
    ensures |e.ep0.buf| == 11
  {
    var n := Min(d.msgLen, 8);
    d.(ep0 := Load(d.ep0, f.crc, Toggle(d.ep0.buf[0]), Fetch(d, f, d.msgPtr, n)),
       msgPtr := Advance(d.msgPtr, n),
       msgLen := if n < 8 then NO_MSG else d.msgLen - 8)
  }

  function BuildIfFree(d: Dev, f: Flash): (e: Dev)
    requires |d.ep0.buf| == 11
    ensures |e.ep0.buf| == 11
  {
    if Idle(d.ep0.len) && d.msgLen != NO_MSG then BuildTxBlock(d, f) else d
  }

  // usbPoll. `reset`: the line was held in the reset state.
  function Poll(d: Dev, f: Flash, app: App, reset: bool): Dev
    requires |d.ep0.buf| == 11 && |d.ep1.buf| == 11
  {
    var g := BuildIfFree(ProcessRx(d, f, app), f);
    if reset then g.(newAddr := 0) else g
  }

  // ------------------------------------------------- the interrupt routine

  // A SETUP or OUT data packet arrives. It is refused while an earlier one waits;
  // empty packets are acknowledged and dropped; longer than 8 bytes is an overflow.
  function Receive(d: Dev, setup: bool, data: seq<byte>): Dev {
    if d.rx.Got? || |data| == 0 || |data| > 8 then d else d.(rx := Got(setup, data))
  }

  // An IN token for endpoint 0, refused while a received packet waits.
  function In0(d: Dev): (Dev, Answer)
    requires |d.ep0.buf| == 11 && LegalLen(d.ep0.len)
  {
    if d.rx.Got? then (d, Handshake(PID_NAK))
    else (d.(ep0 := Send(d.ep0).0), Send(d.ep0).1)
  }

  function In1(d: Dev): (Dev, Answer)
    requires |d.ep1.buf| == 11 && LegalLen(d.ep1.len)
  {
    if d.rx.Got? then (d, Handshake(PID_NAK))
    else (d.(ep1 := Send(d.ep1).0), Send(d.ep1).1)
  }

  // The packet of usbSetInterrupt takes effect.
  function Arm(tx: Tx, crc: Crc, toggle: bool, data: seq<byte>): Tx
    requires |tx.buf| == 11 && |data| <= 8
  {
    Load(tx, crc, if toggle then Toggle(tx.buf[0]) else tx.buf[0], data)
  }

  // usbSetInterrupt: a waiting packet is replaced and keeps its PID.
  function SetInterrupt(tx: Tx, crc: Crc, data: seq<byte>): Tx
    requires |tx.buf| == 11 && |data| <= 8
  {
    Arm(tx, crc, Idle(tx.len), data)
  }

  // --------------------------------------------------------- state invariant

  // What is left of a message is in the memory its flag says, and not in the
  // transmit buffer where building packets would overwrite it.
  predicate PointerSafe(d: Dev) {
    d.msgLen != 0 && d.msgLen != NO_MSG ==>
      if d.msgFlags == RomData then d.msgPtr.Rom? else d.msgPtr.Ram?
  }

  // The flag tells the memory n bytes are to be read from; short replies may be
  // staged in bytes 9 and 10 of the transmit buffer or in usbConfiguration.
  predicate Readable(p: Ptr, flags: Flags, n: nat) {
    n > 0 ==>
      match p
      case Rom(_, _) => flags == RomData
      case Ram(_) => flags != RomData
      case TxBuf(off) => flags != RomData && off == 9 && n <= 2
      case Cfg(off) => flags != RomData && off == 0 && n == 1
  }

  predicate PointerReadable(d: Dev) {
    d.msgLen != NO_MSG ==> Readable(d.msgPtr, d.msgFlags, d.msgLen)
  }

  // Between the two halves of usbPoll a staged reply may be waiting for the buffer
  // it is staged in; that buffer is then free.
  predicate Good(d: Dev, f: Flash) {
    && Complete(d.ep0, f.crc)
    && Complete(d.ep1, f.crc)
    && PointerReadable(d)
    && (Idle(d.ep0.len) || PointerSafe(d))
    && (d.rx.Got? ==> 1 <= |d.rx.data| <= 8)
  }

  // The bit tests of the source.
  lemma TokenBits(b: byte)
    ensures Idle(b) <==> (b as bv8) & 0x10 != 0
    ensures Toggle(0xc3) == 0x4b && Toggle(0x4b) == 0xc3
  {
  }

  lemma RequestBits(rq: Request)
    ensures Standard(rq) <==> (rq[0] as bv8) & 0x60 == 0
    ensures ToHost(rq) <==> (rq[0] as bv8) & 0x80 != 0
    ensures WLength(rq) == rq[6] as int + 256 * rq[7] as int
  {
  }

  lemma InitialGood(f: Flash, ram: seq<byte>)
    ensures Good(Initial(ram), f)
  {
  }

  lemma LoadComplete(tx: Tx, crc: Crc, pid: byte, payload: seq<byte>)
    requires |tx.buf| == 11 && |payload| <= 8
    ensures Complete(Load(tx, crc, pid, payload), crc)
    ensures !Idle(Load(tx, crc, pid, payload).len)
    ensures Load(tx, crc, pid, payload).buf[0] == pid
    ensures Load(tx, crc, pid, payload).buf[1..|payload| + 1] == payload
  {
    var r := Load(tx, crc, pid, payload);
    assert r.buf[1..r.len - 3] == payload;
  }

  lemma ProcessRxGood(d: Dev, f: Flash, app: App)
    requires Good(d, f) && Usable(f)
    ensures Good(ProcessRx(d, f, app), f) && ProcessRx(d, f, app).rx.Free?
  {
    if d.rx.Got? && d.rx.setup && |d.rx.data| == 8 {
      ProcessSetupGood(d, f, d.rx.data, app);
    }
  }

  // Whatever is staged in the transmit buffer fits in one short packet, so what is
  // left of a message after a packet is never in the buffer.
  lemma BuildGood(d: Dev, f: Flash)
    requires Good(d, f)
    ensures Good(BuildIfFree(d, f), f)
    ensures !Idle(BuildIfFree(d, f).ep0.len) || BuildIfFree(d, f).msgLen == NO_MSG
  {
    if Idle(d.ep0.len) && d.msgLen != NO_MSG {
      var n := Min(d.msgLen, 8);
      LoadComplete(d.ep0, f.crc, Toggle(d.ep0.buf[0]), Fetch(d, f, d.msgPtr, n));
    }
  }

  lemma ProcessSetupGood(d: Dev, f: Flash, rq: Request, app: App)
    requires Good(d, f) && Usable(f)
    ensures var e := ProcessSetup(d, f, rq, app);
      Complete(e.ep0, f.crc) && Complete(e.ep1, f.crc) && PointerReadable(e) && e.ep0.len == PID_NAK
  {
    var e := ProcessSetup(d, f, rq, app);
    assert forall blk: Block :: f.LenOf(blk) != NO_MSG;
    ResetToggleGood(d.ep1, f.crc);
    assert e.ep1 == d.ep1 || e.ep1 == ResetToggle(d.ep1);
  }

  // A waiting packet stays complete, with PID DATA1.
  lemma ResetToggleGood(tx: Tx, crc: Crc)
    requires Complete(tx, crc)
    ensures Complete(ResetToggle(tx), crc)
    ensures !Idle(tx.len) ==> ResetToggle(tx).buf[..tx.len - 1] == Image(crc, PID_DATA1, tx.buf[1..tx.len - 3])
  {
    var r := ResetToggle(tx);
    if !Idle(tx.len) {
      assert r.buf[..r.len - 1] == [PID_DATA1] + tx.buf[..tx.len - 1][1..];
      assert r.buf[1..r.len - 3] == tx.buf[1..tx.len - 3];
    }
  }

  // Every packet usbPoll arms is complete, and no message is left unbuilt while the
  // buffer is free.
  lemma PollGood(d: Dev, f: Flash, app: App, reset: bool)
    requires Good(d, f) && Usable(f)
    ensures Good(Poll(d, f, app, reset), f)
    ensures !Idle(Poll(d, f, app, reset).ep0.len) || Poll(d, f, app, reset).msgLen == NO_MSG
  {
    ProcessRxGood(d, f, app);
    BuildGood(ProcessRx(d, f, app), f);
  }

  lemma SendGood(tx: Tx, crc: Crc)
    requires Complete(tx, crc)
    ensures Complete(Send(tx).0, crc) && Idle(Send(tx).0.len)
  {
  }

  lemma ArmGood(tx: Tx, crc: Crc, toggle: bool, data: seq<byte>)
    requires |tx.buf| == 11 && |data| <= 8
    ensures Complete(Arm(tx, crc, toggle, data), crc)
  {
    LoadComplete(tx, crc, if toggle then Toggle(tx.buf[0]) else tx.buf[0], data);
  }

  lemma SetInterruptGood(tx: Tx, crc: Crc, data: seq<byte>)
    requires Complete(tx, crc) && |data| <= 8
    ensures Complete(SetInterrupt(tx, crc, data), crc)
  {
    LoadComplete(tx, crc, if Idle(tx.len) then Toggle(tx.buf[0]) else tx.buf[0], data);
  }
}
