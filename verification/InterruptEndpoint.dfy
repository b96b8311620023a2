// The interrupt-in endpoint of V-USB (usbdrv.c): usbSetInterrupt, first with
// calls that are atomic for the bus, then with the interrupt routine allowed to
// run between any two statements.

module InterruptEndpoint {
  import opened Bytes
  import opened UsbModel

  // ------------------------------------------------------ atomic calls: runs

  // Withdraw and Arm are the two steps of a call that is not atomic.
  datatype Event =
    | Set(data: seq<byte>)
    | HostPoll
    | ResetToggling
    | Withdraw
    | Arm(toggle: bool, data: seq<byte>)

  // `sent`: the packets delivered since the last toggle reset.
  datatype Ep = Ep(tx: Tx, sent: seq<seq<byte>>)

  const FRESH := Ep(Initial([]).ep1, [])

  function Step(e: Ep, crc: Crc, ev: Event): (r: Ep)
    requires Complete(e.tx, crc)
    ensures Complete(r.tx, crc)
  {
    match ev
    case Set(data) =>
      if |data| > 8 then e
      else
        SetInterruptGood(e.tx, crc, data);
        e.(tx := SetInterrupt(e.tx, crc, data))
    case HostPoll =>
      SendGood(e.tx, crc);
      var (tx, answer) := Send(e.tx);
      Ep(tx, if answer.Packet? then e.sent + [answer.bytes] else e.sent)
    case ResetToggling =>
      ResetToggleGood(e.tx, crc);
      Ep(ResetToggle(e.tx), [])
    case Withdraw => e.(tx := e.tx.(len := PID_NAK))
    case Arm(toggle, data) =>
      if |data| > 8 then e
      else
        ArmGood(e.tx, crc, toggle, data);
        e.(tx := UsbModel.Arm(e.tx, crc, toggle, data))
  }

  function Run(e: Ep, crc: Crc, evs: seq<Event>): (r: Ep)
    requires Complete(e.tx, crc)
    ensures Complete(r.tx, crc)
    decreases |evs|
  {
    if evs == [] then e else Run(Step(e, crc, evs[0]), crc, evs[1..])
  }

  // What the endpoint is for: a place for one piece of data. Setting replaces what
  // is there, the host takes it away.
  datatype Mailbox = Mailbox(waiting: Option<seq<byte>>, taken: seq<seq<byte>>)

  function Post(m: Mailbox, ev: Event): Mailbox {
    match ev
    case Set(data) => if |data| > 8 then m else m.(waiting := Some(data))
    case HostPoll => if m.waiting.Some? then Mailbox(None, m.taken + [m.waiting.value]) else m
    case ResetToggling => m.(taken := [])
    case Withdraw => m.(waiting := None)
    case Arm(_, data) => if |data| > 8 then m else m.(waiting := Some(data))
  }

  function PostAll(m: Mailbox, evs: seq<Event>): Mailbox
    decreases |evs|
  {
    if evs == [] then m else PostAll(Post(m, evs[0]), evs[1..])
  }

  // All calls are atomic, and no toggle is reset while something waits.
  predicate Harmless(m: Mailbox, ev: Event) {
    !ev.Withdraw? && !ev.Arm? && !(ev.ResetToggling? && m.waiting.Some?)
  }

  predicate Undisturbed(m: Mailbox, evs: seq<Event>)
    decreases |evs|
  {
    evs != [] ==> Harmless(m, evs[0]) && Undisturbed(Post(m, evs[0]), evs[1..])
  }

  // An atomic call is its two steps with nothing in between.
  lemma SetIsTwoSteps(e: Ep, crc: Crc, data: seq<byte>)
    requires Complete(e.tx, crc) && |data| <= 8
    ensures Step(e, crc, Set(data)) ==
      if Idle(e.tx.len) then Step(e, crc, Arm(true, data))
      else Step(Step(e, crc, Withdraw), crc, Arm(false, data))
  {
  }

  // The PID of the packet after n delivered ones: DATA0 first (8.6).
  function Pid(n: nat): byte {
    if n % 2 == 0 then PID_DATA0 else PID_DATA1
  }

  predicate Delivered(sent: seq<seq<byte>>, taken: seq<seq<byte>>, crc: Crc) {
    |sent| == |taken| && forall i :: 0 <= i < |sent| ==> sent[i] == Image(crc, Pid(i), taken[i])
  }

  // The delivered packets are what was taken, alternating and starting with DATA0;
  // the packet in the buffer is what waits, with the next PID.
  predicate InStep(e: Ep, m: Mailbox, crc: Crc) {
    && Complete(e.tx, crc)
    && (Idle(e.tx.len) ==> e.tx.len == PID_NAK)
    && Delivered(e.sent, m.taken, crc)
    && match m.waiting
       case None => Idle(e.tx.len) && e.tx.buf[0] == Pid(|e.sent| + 1)
       case Some(data) => !Idle(e.tx.len) && e.tx.buf[..e.tx.len - 1] == Image(crc, Pid(|e.sent|), data)
  }

  lemma ImageDetermines(crc: Crc, p: byte, a: seq<byte>, q: byte, b: seq<byte>)
    requires Image(crc, p, a) == Image(crc, q, b)
    ensures p == q && a == b
  {
    var x, y := Image(crc, p, a), Image(crc, q, b);
    assert x[0] == p && y[0] == q && |x| == |a| + 3 && |y| == |b| + 3;
    assert a == x[1..|a| + 1] && b == y[1..|b| + 1];
  }

  lemma SetKeeps(e: Ep, m: Mailbox, crc: Crc, data: seq<byte>)
    requires InStep(e, m, crc) && |data| <= 8
    ensures InStep(Step(e, crc, Set(data)), Post(m, Set(data)), crc)
  {
    LoadComplete(e.tx, crc, if Idle(e.tx.len) then Toggle(e.tx.buf[0]) else e.tx.buf[0], data);
    assert m.waiting.Some? ==> e.tx.buf[0] == e.tx.buf[..e.tx.len - 1][0] == Pid(|e.sent|);
  }

  lemma HostPollKeeps(e: Ep, m: Mailbox, crc: Crc)
    requires InStep(e, m, crc)
    ensures InStep(Step(e, crc, HostPoll), Post(m, HostPoll), crc)
  {
    assert m.waiting.Some? ==> e.tx.buf[0] == e.tx.buf[..e.tx.len - 1][0] == Pid(|e.sent|);
  }

  lemma StepKeeps(e: Ep, m: Mailbox, crc: Crc, ev: Event)
    requires InStep(e, m, crc) && Harmless(m, ev)
    ensures InStep(Step(e, crc, ev), Post(m, ev), crc)
  {
    match ev
    case Set(data) => if |data| <= 8 { SetKeeps(e, m, crc, data); }
    case HostPoll => HostPollKeeps(e, m, crc);
    case ResetToggling => ResetToggleGood(e.tx, crc);
  }

  // A toggle reset puts the endpoint out of step exactly when a packet waits: that
  // packet goes out as DATA1 where the host expects DATA0.
  lemma ResetBreaksIff(e: Ep, m: Mailbox, crc: Crc)
    requires InStep(e, m, crc)
    ensures InStep(Step(e, crc, ResetToggling), Post(m, ResetToggling), crc) <==> m.waiting.None?
    ensures m.waiting.Some? ==> Send(ResetToggle(e.tx)).1 == Packet(Image(crc, PID_DATA1, m.waiting.value))
  {
    if m.waiting.None? {
      StepKeeps(e, m, crc, ResetToggling);
    } else {
      var payload := e.tx.buf[1..e.tx.len - 3];
      ResetToggleGood(e.tx, crc);
      ImageDetermines(crc, e.tx.buf[0], payload, Pid(|e.sent|), m.waiting.value);
      assert Image(crc, PID_DATA1, payload)[0] == PID_DATA1 && Image(crc, PID_DATA0, payload)[0] == PID_DATA0;
    }
  }

  lemma {:induction false} RunInStep(e: Ep, m: Mailbox, crc: Crc, evs: seq<Event>)
    requires InStep(e, m, crc) && Undisturbed(m, evs)
    ensures InStep(Run(e, crc, evs), PostAll(m, evs), crc)
    decreases |evs|
  {
    if evs != [] {
      StepKeeps(e, m, crc, evs[0]);
      RunInStep(Step(e, crc, evs[0]), Post(m, evs[0]), crc, evs[1..]);
    }
  }

  lemma FreshInStep(crc: Crc)
    ensures InStep(FRESH, Mailbox(None, []), crc)
  {
  }

  // In every run without a toggle reset while a packet waits, the endpoint is the
  // mailbox: the packets delivered are what was taken, with alternating PIDs from
  // DATA0 on, and an IN token gets what waits or NAK. Data replaced before it was
  // fetched is therefore never delivered.
  lemma EndpointIsMailbox(crc: Crc, evs: seq<Event>)
    requires Undisturbed(Mailbox(None, []), evs)
    ensures var r := Run(FRESH, crc, evs);
      var m := PostAll(Mailbox(None, []), evs);
      && Delivered(r.sent, m.taken, crc)
      && Send(r.tx).1 == match m.waiting
                         case Some(data) => Packet(Image(crc, Pid(|m.taken|), data))
                         case None => Handshake(PID_NAK)
  {
    RunInStep(FRESH, Mailbox(None, []), crc, evs);
  }

  predicate IsPid(b: byte) { b == PID_DATA0 || b == PID_DATA1 }

  // The complete token, data and CRC image of a call with this data.
  predicate IsImage(crc: Crc, p: seq<byte>, data: seq<byte>) {
    |p| > 0 && IsPid(p[0]) && p == Image(crc, p[0], data)
  }

  // The same but for the PIDs: atomic or not, only whole packets with the data of the
  // mailbox.
  predicate WholeInStep(e: Ep, m: Mailbox, crc: Crc) {
    && Complete(e.tx, crc) && IsPid(e.tx.buf[0])
    && |e.sent| == |m.taken| && (forall i :: 0 <= i < |e.sent| ==> IsImage(crc, e.sent[i], m.taken[i]))
    && match m.waiting
       case None => e.tx.len == PID_NAK
       case Some(data) => !Idle(e.tx.len) && IsImage(crc, e.tx.buf[..e.tx.len - 1], data)
  }

  lemma ArmKeepsWhole(e: Ep, m: Mailbox, crc: Crc, toggle: bool, data: seq<byte>)
    requires WholeInStep(e, m, crc) && |data| <= 8
    ensures WholeInStep(e.(tx := UsbModel.Arm(e.tx, crc, toggle, data)), m.(waiting := Some(data)), crc)
  {
    LoadComplete(e.tx, crc, if toggle then Toggle(e.tx.buf[0]) else e.tx.buf[0], data);
  }

  lemma ResetKeepsWholeInStep(e: Ep, m: Mailbox, crc: Crc)
    requires WholeInStep(e, m, crc)
    ensures WholeInStep(Step(e, crc, ResetToggling), Post(m, ResetToggling), crc)
  {
    ResetToggleGood(e.tx, crc);
    if m.waiting.Some? {
      var p := e.tx.buf[..e.tx.len - 1];
      ImageDetermines(crc, e.tx.buf[0], e.tx.buf[1..e.tx.len - 3], p[0], m.waiting.value);
      assert Image(crc, PID_DATA1, m.waiting.value)[0] == PID_DATA1;
    }
  }

  lemma StepKeepsWhole(e: Ep, m: Mailbox, crc: Crc, ev: Event)
    requires WholeInStep(e, m, crc)
    ensures WholeInStep(Step(e, crc, ev), Post(m, ev), crc)
  {
    match ev
    case Set(data) => if |data| <= 8 { ArmKeepsWhole(e, m, crc, Idle(e.tx.len), data); }
    case Arm(toggle, data) => if |data| <= 8 { ArmKeepsWhole(e, m, crc, toggle, data); }
    case ResetToggling => ResetKeepsWholeInStep(e, m, crc);
    case _ =>
  }

  lemma {:induction false} RunKeepsWhole(e: Ep, m: Mailbox, crc: Crc, evs: seq<Event>)
    requires WholeInStep(e, m, crc)
    ensures WholeInStep(Run(e, crc, evs), PostAll(m, evs), crc)
    decreases |evs|
  {
    if evs != [] {
      StepKeepsWhole(e, m, crc, evs[0]);
      RunKeepsWhole(Step(e, crc, evs[0]), Post(m, evs[0]), crc, evs[1..]);
    }
  }

  // --------------------------------------------- preemption at any statement

  // The program points of one call at which the host may poll the endpoint. Only
  // three of them matter: before the test of `len`, between that test and the
  // assignment of NAK, and after the final assignment of `len`.
  datatype Schedule = Schedule(before: bool, inWindow: bool, copying: nat -> bool, after: bool)

  // The endpoint with its history: the packets sent, the data of the calls finished so
  // far, and for each packet the call it is said to come from.
  datatype Line = Line(tx: Tx, sent: seq<seq<byte>>, calls: seq<seq<byte>>, from: seq<int>)

  const FRESH_LINE := Line(Initial([]).ep1, [], [], [])

  // The interrupt routine on an IN token: whatever waits is from the last finished call.
  function Deliver(l: Line): Line
    requires |l.tx.buf| == 11 && LegalLen(l.tx.len)
  {
    if Idle(l.tx.len) then l
    else Line(l.tx.(len := PID_NAK), l.sent + [l.tx.buf[..l.tx.len - 1]], l.calls, l.from + [|l.calls| - 1])
  }

  function NewPid(tx: Tx, s: Schedule): byte
    requires |tx.buf| == 11
  {
    if Idle(tx.len) || s.before then Toggle(tx.buf[0]) else tx.buf[0]
  }

  // The waiting packet is gone, if the host gets it before it is taken back.
  function Claimed(l: Line, s: Schedule): Line
    requires |l.tx.buf| == 11 && LegalLen(l.tx.len)
  {
    if s.before || s.inWindow then Deliver(l) else l
  }

  // A call, preempted as the schedule says.
  function Called(l: Line, crc: Crc, data: seq<byte>, s: Schedule): Line
    requires |l.tx.buf| == 11 && LegalLen(l.tx.len) && |data| <= 8
  {
    var c := Claimed(l, s);
    var r := Line(Load(l.tx, crc, NewPid(l.tx, s), data), c.sent, l.calls + [data], c.from);
    if s.after then Deliver(r) else r
  }

  predicate Increasing(from: seq<int>, bound: int) {
    && (forall i :: 0 <= i < |from| ==> 0 <= from[i] < bound)
    && (forall i, j :: 0 <= i < j < |from| ==> from[i] < from[j])
  }

  // Every packet is the image of a call, each of a later call than the one before.
  predicate Untorn(sent: seq<seq<byte>>, calls: seq<seq<byte>>, from: seq<int>, crc: Crc) {
    && |sent| == |from| && Increasing(from, |calls|)
    && forall i :: 0 <= i < |sent| ==> IsImage(crc, sent[i], calls[from[i]])
  }

  // What waits is the image of the last call and was not sent before.
  predicate Whole(l: Line, crc: Crc) {
    && Complete(l.tx, crc) && IsPid(l.tx.buf[0])
    && Untorn(l.sent, l.calls, l.from, crc)
    && (!Idle(l.tx.len) ==>
      && l.calls != [] && IsImage(crc, l.tx.buf[..l.tx.len - 1], l.calls[|l.calls| - 1])
      && Increasing(l.from, |l.calls| - 1))
  }

  lemma DeliverKeepsWhole(l: Line, crc: Crc)
    requires Whole(l, crc)
    ensures Whole(Deliver(l), crc) && Idle(Deliver(l).tx.len)
  {
  }

  lemma CallKeepsWhole(l: Line, crc: Crc, data: seq<byte>, s: Schedule)
    requires Whole(l, crc) && |data| <= 8
    ensures Whole(Called(l, crc, data, s), crc)
  {
    DeliverKeepsWhole(l, crc);
    var pid := NewPid(l.tx, s);
    LoadComplete(l.tx, crc, pid, data);
    var c := Claimed(l, s);
    var r := Line(Load(l.tx, crc, pid, data), c.sent, l.calls + [data], c.from);
    assert r.tx.buf[..r.tx.len - 1] == Image(crc, pid, data);
    assert Whole(r, crc);
    DeliverKeepsWhole(r, crc);
  }

  lemma ResetKeepsWhole(l: Line, crc: Crc)
    requires Whole(l, crc)
    ensures Whole(l.(tx := ResetToggle(l.tx)), crc)
  {
    ResetToggleGood(l.tx, crc);
    if !Idle(l.tx.len) {
      var data := l.calls[|l.calls| - 1];
      ImageDetermines(crc, l.tx.buf[0], l.tx.buf[1..l.tx.len - 3], l.tx.buf[..l.tx.len - 1][0], data);
      assert Image(crc, PID_DATA1, data)[0] == PID_DATA1;
    }
  }

  datatype Move = Call(data: seq<byte>, schedule: Schedule) | Token | Reset

  function MoveStep(l: Line, crc: Crc, m: Move): (r: Line)
    requires Whole(l, crc)
    ensures Whole(r, crc)
  {
    match m
    case Call(data, s) =>
      if |data| > 8 then l
      else
        CallKeepsWhole(l, crc, data, s);
        Called(l, crc, data, s)
    case Token =>
      DeliverKeepsWhole(l, crc);
      Deliver(l)
    case Reset =>
      ResetKeepsWhole(l, crc);
      l.(tx := ResetToggle(l.tx))
  }

  function Moves(l: Line, crc: Crc, moves: seq<Move>): (r: Line)
    requires Whole(l, crc)
    ensures Whole(r, crc)
    decreases |moves|
  {
    if moves == [] then l else Moves(MoveStep(l, crc, moves[0]), crc, moves[1..])
  }

  function CallOf(m: Move): seq<seq<byte>> {
    if m.Call? && |m.data| <= 8 then [m.data] else []
  }

  // The data of the calls, in order.
  function CallData(moves: seq<Move>): seq<seq<byte>> {
    if moves == [] then [] else CallOf(moves[0]) + CallData(moves[1..])
  }

  lemma CallIsRecorded(l: Line, crc: Crc, m: Move)
    requires Whole(l, crc)
    ensures MoveStep(l, crc, m).calls == l.calls + CallOf(m)
  {
    assert l.calls + [] == l.calls;
  }

  lemma {:induction false} CallsAreRecorded(l: Line, crc: Crc, moves: seq<Move>)
    requires Whole(l, crc)
    ensures Moves(l, crc, moves).calls == l.calls + CallData(moves)
    decreases |moves|
  {
    if moves == [] {
      assert l.calls + [] == l.calls;
    } else {
      CallIsRecorded(l, crc, moves[0]);
      CallsAreRecorded(MoveStep(l, crc, moves[0]), crc, moves[1..]);
      Associative(l.calls, CallOf(moves[0]), CallData(moves[1..]));
    }
  }

  // In every run of calls, however preempted, IN tokens and toggle resets: every packet
  // is the complete image of one call, with calls in increasing order, so none is sent
  // twice and none after a later one; what waits is the image of the last call.
  lemma NothingTorn(crc: Crc, moves: seq<Move>)
    ensures Whole(FRESH_LINE, crc)
    ensures var l := Moves(FRESH_LINE, crc, moves);
      && Untorn(l.sent, CallData(moves), l.from, crc)
      && (!Idle(l.tx.len) ==>
        && CallData(moves) != []
        && IsImage(crc, l.tx.buf[..l.tx.len - 1], CallData(moves)[|CallData(moves)| - 1])
        && Increasing(l.from, |CallData(moves)| - 1))
  {
    CallsAreRecorded(FRESH_LINE, crc, moves);
    assert [] + CallData(moves) == CallData(moves);
  }

  function LastPid(sent: seq<seq<byte>>): byte {
    if sent == [] || sent[|sent| - 1] == [] then PID_DATA1 else sent[|sent| - 1][0]
  }

  // Every packet has another PID than the one before it, starting with DATA0.
  predicate Alternates(sent: seq<seq<byte>>)
    decreases |sent|
  {
    sent != [] ==>
      var n := |sent| - 1;
      Alternates(sent[..n]) && |sent[n]| > 0 && IsPid(sent[n][0]) && sent[n][0] != LastPid(sent[..n])
  }

  // ... and so will the next one.
  predicate PidsInTurn(pid: byte, idle: bool, sent: seq<seq<byte>>) {
    Alternates(sent) && IsPid(pid) && (idle <==> pid == LastPid(sent))
  }

  predicate InTurn(tx: Tx, sent: seq<seq<byte>>)
    requires |tx.buf| == 11
  {
    PidsInTurn(tx.buf[0], Idle(tx.len), sent)
  }

  lemma AppendAlternates(sent: seq<seq<byte>>, p: seq<byte>)
    requires |p| > 0 && IsPid(p[0])
    ensures Alternates(sent + [p]) <==> Alternates(sent) && p[0] != LastPid(sent)
    ensures LastPid(sent + [p]) == p[0]
  {
    assert (sent + [p])[..|sent|] == sent;
  }

  // Sending the waiting packet keeps the PIDs in turn.
  lemma SendInTurn(pid: byte, p: seq<byte>, sent: seq<seq<byte>>)
    requires |p| > 0 && p[0] == pid && IsPid(pid)
    ensures PidsInTurn(pid, true, sent + [p]) <==> PidsInTurn(pid, false, sent)
  {
    AppendAlternates(sent, p);
  }

  // Preemption breaks the alternation of PIDs exactly if the host fetches the
  // waiting packet between the test of `len` and the assignment of NAK.
  predicate Windowed(l: Line, s: Schedule) {
    !Idle(l.tx.len) && !s.before && s.inWindow
  }

  lemma ClaimedPids(pid: byte, idle: bool, s: Schedule, packet: seq<byte>, sent: seq<seq<byte>>)
    requires PidsInTurn(pid, idle, sent) && |packet| > 0 && packet[0] == pid
    ensures var next := if idle || s.before then Toggle(pid) else pid;
      var all := if !idle && (s.before || s.inWindow) then sent + [packet] else sent;
      PidsInTurn(next, false, all) <==> idle || s.before || !s.inWindow
  {
    SendInTurn(pid, packet, sent);
  }

  lemma ClaimedInTurn(l: Line, s: Schedule)
    requires |l.tx.buf| == 11 && LegalLen(l.tx.len) && InTurn(l.tx, l.sent)
    ensures PidsInTurn(NewPid(l.tx, s), false, Claimed(l, s).sent) <==> !Windowed(l, s)
  {
    var packet := if Idle(l.tx.len) then l.tx.buf else l.tx.buf[..l.tx.len - 1];
    ClaimedPids(l.tx.buf[0], Idle(l.tx.len), s, packet, l.sent);
  }

  lemma AlternationBreaksIff(l: Line, crc: Crc, data: seq<byte>, s: Schedule)
    requires Whole(l, crc) && |data| <= 8 && InTurn(l.tx, l.sent)
    ensures var r := Called(l, crc, data, s);
      InTurn(r.tx, r.sent) <==> !Windowed(l, s)
  {
    var pid := NewPid(l.tx, s);
    var loaded := Load(l.tx, crc, pid, data);
    ClaimedInTurn(l, s);
    LoadComplete(l.tx, crc, pid, data);
    SendInTurn(pid, loaded.buf[..|data| + 3], Claimed(l, s).sent);
  }

  // A run in which no call is interrupted there, and no toggle is reset.
  predicate Unbroken(l: Line, crc: Crc, moves: seq<Move>)
    requires Whole(l, crc)
    decreases |moves|
  {
    moves != [] ==>
      && !moves[0].Reset? && !(moves[0].Call? && Windowed(l, moves[0].schedule))
      && Unbroken(MoveStep(l, crc, moves[0]), crc, moves[1..])
  }

  lemma TokenInTurn(l: Line)
    requires |l.tx.buf| == 11 && LegalLen(l.tx.len) && InTurn(l.tx, l.sent)
    ensures InTurn(Deliver(l).tx, Deliver(l).sent)
  {
    if !Idle(l.tx.len) {
      var pid, packet, sent := l.tx.buf[0], l.tx.buf[..l.tx.len - 1], l.sent;
      assert PidsInTurn(pid, true, sent + [packet]) by { SendInTurn(pid, packet, sent); }
      assert Deliver(l).tx.buf[0] == pid && Idle(Deliver(l).tx.len) && Deliver(l).sent == sent + [packet];
    }
  }

  // Its packets alternate.
  lemma {:induction false} UnbrokenAlternates(l: Line, crc: Crc, moves: seq<Move>)
    requires Whole(l, crc) && InTurn(l.tx, l.sent) && Unbroken(l, crc, moves)
    ensures Alternates(Moves(l, crc, moves).sent)
    decreases |moves|
  {
    if moves != [] {
      match moves[0] {
        case Call(data, s) => if |data| <= 8 { AlternationBreaksIff(l, crc, data, s); }
        case Token => TokenInTurn(l);
        case Reset =>
      }
      UnbrokenAlternates(MoveStep(l, crc, moves[0]), crc, moves[1..]);
    }
  }

  // The input on which it breaks: the host polls in the window of the second call and
  // after it, and gets DATA0 twice.
  lemma TwiceData0(crc: Crc, a: seq<byte>, b: seq<byte>)
    requires |a| <= 8 && |b| <= 8
    ensures Whole(FRESH_LINE, crc) && InTurn(FRESH_LINE.tx, FRESH_LINE.sent)
    ensures var one := Called(FRESH_LINE, crc, a, Schedule(false, false, _ => false, false));
      var two := Called(one, crc, b, Schedule(false, true, _ => false, true));
      two.sent == [Image(crc, PID_DATA0, a), Image(crc, PID_DATA0, b)]
  {
    var one := Called(FRESH_LINE, crc, a, Schedule(false, false, _ => false, false));
    LoadComplete(FRESH_LINE.tx, crc, PID_DATA0, a);
    LoadComplete(one.tx, crc, PID_DATA0, b);
    assert one.tx.buf[..|a| + 3] == Image(crc, PID_DATA0, a);
    assert Load(one.tx, crc, PID_DATA0, b).buf[..|b| + 3] == Image(crc, PID_DATA0, b);
  }

  // The first m bytes of data stand behind the PID, the rest is as before.
  predicate Copied(now: seq<byte>, before: seq<byte>, data: seq<byte>, m: int) {
    && |now| == |before| == 11 && 0 <= m <= |data|
    && forall k :: 0 <= k < 11 ==> now[k] == if 1 <= k < 1 + m then data[k - 1] else before[k]
  }

  // The loop copies one byte more than it should if there is none, but not more than
  // the checksum will cover.
  lemma CopiedParts(now: seq<byte>, before: seq<byte>, data: seq<byte>, n: nat)
    requires n <= 8 && n <= |data| && Copied(now, before, data, if n == 0 then 1 else n)
    ensures now[..1 + n] == before[..1] + data[..n] && now[1..1 + n] == data[..n] && now[n + 3..] == before[n + 3..]
  {
  }

  lemma Loaded(tx: Tx, crc: Crc, payload: seq<byte>, copied: seq<byte>)
    requires |tx.buf| == 11 == |copied| && |payload| <= 8
    requires copied[..1 + |payload|] == tx.buf[..1] + payload && copied[|payload| + 3..] == tx.buf[|payload| + 3..]
    ensures var r := copied[..1 + |payload|] + [crc(payload).0, crc(payload).1] + copied[|payload| + 3..];
      r == Load(tx, crc, tx.buf[0], payload).buf
  {
  }

  // usbTxStatus_t with the interrupt routine that sends from it.
  class TxStatus {
    var len: byte
    const buffer: array<byte>
    ghost var sent: seq<seq<byte>>
    ghost var calls: seq<seq<byte>>
    ghost var from: seq<int>

    // Every packet sent so far, and the one that waits, is the image of a finished call.
    ghost predicate Valid(crc: Crc)
      reads this, buffer
    {
      buffer.Length == 11 && Whole(History(), crc)
    }

    ghost function State(): Tx
      reads this, buffer
    {
      Tx(len, buffer[..])
    }

    ghost function History(): Line
      reads this, buffer
    {
      Line(State(), sent, calls, from)
    }

    constructor ()
      ensures fresh(buffer) && buffer.Length == 11 && History() == FRESH_LINE
      ensures forall crc :: Valid(crc)
    {
      len := PID_NAK;
      buffer := new byte[11](i => 0);
      sent, calls, from := [], [], [];
      new;
      buffer[0] := PID_DATA1;
      assert buffer[..] == FRESH_LINE.tx.buf;
    }

    // handleIn1, if the host polls now.
    method Poll(now: bool)
      requires buffer.Length == 11 && LegalLen(len)
      modifies this
      ensures LegalLen(len) && calls == old(calls)
      ensures History() == if now then Deliver(old(History())) else old(History())
    {
      if now {
        if !Idle(len) {
          sent, from := sent + [buffer[..len - 1]], from + [|calls| - 1];
          len := PID_NAK;
        }
      }
    }

    // usbResetDataToggling
    method ResetToggling()
      requires buffer.Length == 11
      modifies buffer
      ensures State() == ResetToggle(old(State()))
    {
      buffer[0] := PID_DATA1;
      assert buffer[..] == old(buffer[..])[0 := PID_DATA1];
    }

    // The copy loop: its control is at the end, so a byte is copied even if n is 0.
    method CopyData(data: array<byte>, n: byte, s: Schedule)
      requires buffer.Length == 11 && LegalLen(len) && Idle(len) && n <= 8
      requires data.Length >= n && data.Length >= 1 && data != buffer
      modifies this, buffer
      ensures len == old(len) && sent == old(sent) && calls == old(calls) && from == old(from)
      ensures Copied(buffer[..], old(buffer[..]), old(data[..]), if n == 0 then 1 else n)
    {
      var p := 0;
      var i: int := n;
      while true
        invariant 0 <= p <= 8 && p < data.Length && i == n - p && (p == 0 || i > 0)
        invariant len == old(len) && sent == old(sent) && calls == old(calls) && from == old(from)
        invariant Copied(buffer[..], old(buffer[..]), data[..], p)
        decreases i
      {
        buffer[1 + p] := data[p];
        Poll(s.copying(1 + p));
        p := p + 1;
        i := i - 1;
        if !(i > 0) { break; }
      }
    }

    // usbCrc16Append(&buffer[1], n)
    method AppendCrc(n: byte, crc: Crc, s: Schedule)
      requires buffer.Length == 11 && LegalLen(len) && Idle(len) && n <= 8
      modifies this, buffer
      ensures len == old(len) && sent == old(sent) && calls == old(calls) && from == old(from)
      ensures var payload := old(buffer[..])[1..1 + n];
        buffer[..] == old(buffer[..])[..1 + n] + [crc(payload).0, crc(payload).1] + old(buffer[..])[n + 3..]
    {
      var c := crc(buffer[..][1..1 + n]);
      buffer[1 + n] := c.0;
      Poll(s.copying(10));
      buffer[2 + n] := c.1;
      Poll(s.copying(11));
    }

    // The first statements: the toggle, or taking the waiting packet back.
    method Claim(crc: Crc, s: Schedule)
      requires buffer.Length == 11 && Complete(State(), crc)
      modifies this, buffer
      ensures LegalLen(len) && Idle(len) && calls == old(calls)
      ensures buffer[..] == [NewPid(old(State()), s)] + old(buffer[..])[1..]
      ensures sent == Claimed(old(History()), s).sent && from == Claimed(old(History()), s).from
    {
      Poll(s.before);
      var empty := Idle(len);
      Poll(s.inWindow);
      if empty {
        buffer[0] := Toggle(buffer[0]);
      } else {
        len := PID_NAK;
      }
      Poll(s.copying(0));
    }

    // The statements that write the packet and arm it; then the call is finished.
    method Rewrite(data: array<byte>, n: byte, crc: Crc, s: Schedule)
      requires buffer.Length == 11 && LegalLen(len) && Idle(len) && n <= 8
      requires data.Length >= n && data.Length >= 1 && data != buffer
      modifies this, buffer
      ensures sent == old(sent) && from == old(from) && calls == old(calls) + [old(data[..n])]
      ensures State() == Load(old(State()), crc, old(buffer[0]), old(data[..n]))
    {
      ghost var tx, payload := State(), data[..n];
      CopyData(data, n, s);
      ghost var copied := buffer[..];
      CopiedParts(copied, tx.buf, data[..], n);
      AppendCrc(n, crc, s);
      Loaded(tx, crc, payload, copied);
      len := n + 4;
      calls := calls + [payload];
    }

    // usbGenericSetInterrupt
    method SetInterrupt(data: array<byte>, n: byte, crc: Crc, s: Schedule)
      requires Valid(crc) && n <= 8 && data.Length >= n && data.Length >= 1 && data != buffer
      modifies this, buffer
      ensures Valid(crc)
      ensures History() == Called(old(History()), crc, old(data[..n]), s)
    {
      ghost var l, pid, payload := History(), NewPid(State(), s), data[..n];
      CallKeepsWhole(l, crc, payload, s);
      Claim(crc, s);
      assert buffer[0] == pid && buffer[..][n + 3..] == l.tx.buf[n + 3..];
      Rewrite(data, n, crc, s);
      assert State() == Load(l.tx, crc, pid, payload);
      LoadComplete(l.tx, crc, pid, payload);
      Poll(s.after);
    }
  }
}
