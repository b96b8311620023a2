// The interrupt endpoint within runs of the whole driver: which requests and tokens
// reach it, and what SET_INTERFACE and SET_CONFIGURATION do to its data toggle.

module UsbInterrupt {
  import opened Bytes
  import opened UsbModel
  import opened UsbRuns
  import IE = InterruptEndpoint

  predicate TakesRequest(d: Dev, request: byte) {
    TakesSetup(d) && Standard(d.rx.data) && d.rx.data[1] == request
  }

  const SET_CONFIGURATION: byte := 9
  const SET_INTERFACE: byte := 11

  // What an event of the driver is for the endpoint.
  function Effect(s: Sys, ev: Event): seq<IE.Event> {
    match ev
    case Interrupt(data) => [IE.Set(data)]
    case Withdraw => [IE.Withdraw]
    case Arm(toggle, data) => [IE.Arm(toggle, data)]
    case HostIn1 => if s.dev.rx.Free? then [IE.HostPoll] else []
    case Process(_) => if TakesRequest(s.dev, SET_INTERFACE) then [IE.ResetToggling] else []
    case _ => []
  }

  function Traffic(s: Sys, f: Flash, evs: seq<Event>): seq<IE.Event>
    requires Good(s.dev, f) && Usable(f)
    decreases |evs|
  {
    if evs == [] then [] else Effect(s, evs[0]) + Traffic(Step(s, f, evs[0]), f, evs[1..])
  }

  lemma {:induction false} EndpointRunAppend(e: IE.Ep, crc: Crc, a: seq<IE.Event>, b: seq<IE.Event>)
    requires Complete(e.tx, crc)
    ensures IE.Run(e, crc, a + b) == IE.Run(IE.Run(e, crc, a), crc, b)
    decreases |a|
  {
    if a == [] {
      assert a + b == b;
    } else {
      assert (a + b)[1..] == a[1..] + b;
      EndpointRunAppend(IE.Step(e, crc, a[0]), crc, a[1..], b);
    }
  }

  lemma EndpointStep(e: IE.Ep, crc: Crc, ev: IE.Event)
    requires Complete(e.tx, crc)
    ensures IE.Run(e, crc, [ev]) == IE.Step(e, crc, ev)
  {
    assert [ev][1..] == [];
  }

  // Every step of the driver changes the endpoint by its effect and nothing else.
  lemma StepIsEffect(s: Sys, f: Flash, ev: Event, e: IE.Ep)
    requires Good(s.dev, f) && Usable(f) && e.tx == s.dev.ep1
    ensures IE.Run(e, f.crc, Effect(s, ev)).tx == Step(s, f, ev).dev.ep1
  {
    if Effect(s, ev) != [] {
      EndpointStep(e, f.crc, Effect(s, ev)[0]);
      assert Effect(s, ev) == [Effect(s, ev)[0]];
    }
  }

  lemma {:induction false} RunIsTraffic(s: Sys, f: Flash, evs: seq<Event>, e: IE.Ep)
    requires Good(s.dev, f) && Usable(f) && e.tx == s.dev.ep1
    ensures IE.Run(e, f.crc, Traffic(s, f, evs)).tx == Run(s, f, evs).dev.ep1
    decreases |evs|
  {
    if evs != [] {
      var now := Effect(s, evs[0]);
      StepIsEffect(s, f, evs[0], e);
      RunIsTraffic(Step(s, f, evs[0]), f, evs[1..], IE.Run(e, f.crc, now));
      EndpointRunAppend(e, f.crc, now, Traffic(Step(s, f, evs[0]), f, evs[1..]));
    }
  }

  const EMPTY := IE.Mailbox(None, [])

  // What reaches the endpoint in a run from power-on, and the mailbox after it.
  function Reaching(f: Flash, ram: seq<byte>, evs: seq<Event>): seq<IE.Event>
    requires Usable(f)
  {
    InitialGood(f, ram);
    Traffic(Start(ram), f, evs)
  }

  function Content(f: Flash, ram: seq<byte>, evs: seq<Event>): IE.Mailbox
    requires Usable(f)
  {
    IE.PostAll(EMPTY, Reaching(f, ram, evs))
  }

  // Calls are atomic, and no SET_INTERFACE is processed while a packet waits.
  predicate Undisturbed(f: Flash, ram: seq<byte>, evs: seq<Event>)
    requires Usable(f)
  {
    IE.Undisturbed(EMPTY, Reaching(f, ram, evs))
  }

  lemma ReachingIsRun(f: Flash, ram: seq<byte>, evs: seq<Event>)
    requires Usable(f)
    ensures IE.Run(IE.FRESH, f.crc, Reaching(f, ram, evs)).tx == Reached(f, ram, evs).dev.ep1
  {
    InitialGood(f, ram);
    RunIsTraffic(Start(ram), f, evs, IE.FRESH);
  }

  lemma ReachedInStep(f: Flash, ram: seq<byte>, evs: seq<Event>) returns (e: IE.Ep)
    requires Usable(f) && Undisturbed(f, ram, evs)
    ensures e.tx == Reached(f, ram, evs).dev.ep1 && IE.InStep(e, Content(f, ram, evs), f.crc)
  {
    ReachingIsRun(f, ram, evs);
    IE.FreshInStep(f.crc);
    IE.RunInStep(IE.FRESH, EMPTY, f.crc, Reaching(f, ram, evs));
    e := IE.Run(IE.FRESH, f.crc, Reaching(f, ram, evs));
  }

  // In every run of the driver without that, an IN token for the endpoint gets what
  // waits in the mailbox, with the next PID, or NAK; NAK also while a received packet
  // is unprocessed.
  lemma DriverEndpointIsMailbox(f: Flash, ram: seq<byte>, evs: seq<Event>)
    requires Usable(f) && Undisturbed(f, ram, evs)
    ensures var d := Reached(f, ram, evs).dev;
      var m := Content(f, ram, evs);
      In1(d).1 ==
        if d.rx.Got? || m.waiting.None? then Handshake(PID_NAK)
        else Packet(Image(f.crc, IE.Pid(|m.taken|), m.waiting.value))
  {
    var e := ReachedInStep(f, ram, evs);
  }

  // In every run of the driver, calls interrupted anywhere and toggle resets included,
  // an IN token for the endpoint gets the complete image of what waits in the mailbox, or
  // NAK. So nothing torn, withdrawn or replaced is ever sent.
  lemma DriverSendsWhole(f: Flash, ram: seq<byte>, evs: seq<Event>)
    requires Usable(f)
    ensures var d := Reached(f, ram, evs).dev;
      var m := Content(f, ram, evs);
      match In1(d).1
      case Handshake(pid) => pid == PID_NAK && (d.rx.Got? || m.waiting.None?)
      case Packet(p) => d.rx.Free? && m.waiting.Some? && IE.IsImage(f.crc, p, m.waiting.value)
  {
    ReachingIsRun(f, ram, evs);
    IE.FreshInStep(f.crc);
    IE.RunKeepsWhole(IE.FRESH, EMPTY, f.crc, Reaching(f, ram, evs));
  }

  // SET_INTERFACE breaks the sequence exactly if a packet waits when it is processed:
  // the packet then goes out as DATA1 where the host expects DATA0.
  lemma SetInterfaceBreaksIff(f: Flash, ram: seq<byte>, evs: seq<Event>, app: App)
    requires Usable(f) && Undisturbed(f, ram, evs)
    requires TakesRequest(Reached(f, ram, evs).dev, SET_INTERFACE)
    ensures var t := Step(Reached(f, ram, evs), f, Process(app));
      var m := Content(f, ram, evs);
      && (IE.InStep(IE.Ep(t.dev.ep1, []), m.(taken := []), f.crc) <==> m.waiting.None?)
      && (m.waiting.Some? ==> In1(t.dev).1 == Packet(Image(f.crc, PID_DATA1, m.waiting.value)))
  {
    var s := Reached(f, ram, evs);
    var e := ReachedInStep(f, ram, evs);
    StepIsEffect(s, f, Process(app), e);
    EndpointStep(e, f.crc, IE.ResetToggling);
    IE.ResetBreaksIff(e, Content(f, ram, evs), f.crc);
  }

  // The input: a packet set before the SET_INTERFACE is processed.
  function SetDuringSetup(data: seq<byte>): seq<Event> {
    [HostPacket(true, [1, 11, 0, 0, 0, 0, 0, 0]), Interrupt(data)]
  }

  lemma SetInterfaceWhileWaiting(f: Flash, ram: seq<byte>, app: App, data: seq<byte>)
    requires Usable(f) && |data| <= 8
    ensures var s := Reached(f, ram, SetDuringSetup(data));
      && TakesRequest(s.dev, SET_INTERFACE)
      && In1(Step(s, f, Process(app)).dev).1 == Packet(Image(f.crc, PID_DATA1, data))
  {
    SetDuringSetupRun(f, ram, data);
    OneWaits(data);
    SetInterfaceBreaksIff(f, ram, SetDuringSetup(data), app);
  }

  lemma SetDuringSetupRun(f: Flash, ram: seq<byte>, data: seq<byte>)
    requires Usable(f) && |data| <= 8
    ensures Reaching(f, ram, SetDuringSetup(data)) == [IE.Set(data)]
    ensures TakesRequest(Reached(f, ram, SetDuringSetup(data)).dev, SET_INTERFACE)
  {
    InitialGood(f, ram);
    RunPair(Start(ram), f, SetDuringSetup(data)[0], Interrupt(data));
  }

  lemma OneWaits(data: seq<byte>)
    requires |data| <= 8
    ensures IE.PostAll(EMPTY, [IE.Set(data)]) == IE.Mailbox(Some(data), []) && IE.Undisturbed(EMPTY, [IE.Set(data)])
  {
    assert IE.PostAll(EMPTY, [IE.Set(data)]) == IE.PostAll(IE.Post(EMPTY, IE.Set(data)), []);
  }

  lemma RunPair(s: Sys, f: Flash, a: Event, b: Event)
    requires Good(s.dev, f) && Usable(f)
    ensures Run(s, f, [a, b]) == Step(Step(s, f, a), f, b)
    ensures Traffic(s, f, [a, b]) == Effect(s, a) + Effect(Step(s, f, a), b)
  {
    assert [a, b] == [a] + [b] && [b] == [b] + [];
    RunCons(s, f, a, [b]);
    RunCons(Step(s, f, a), f, b, []);
    assert [a, b][1..] == [b] && [b][1..] == [];
    assert Traffic(Step(s, f, a), f, [b]) == Effect(Step(s, f, a), b) + [];
  }

  lemma SetThenToken(s: Sys, f: Flash, e: IE.Ep, m: IE.Mailbox, data: seq<byte>)
    requires Good(s.dev, f) && Usable(f) && s.dev.rx.Free? && |data| <= 8
    requires e.tx == s.dev.ep1 && IE.InStep(e, m, f.crc)
    ensures In1(Step(s, f, Interrupt(data)).dev).1 == Packet(Image(f.crc, IE.Pid(|m.taken|), data))
  {
    IE.SetKeeps(e, m, f.crc, data);
  }

  // SET_CONFIGURATION should set the toggle back (USB 2.0, 9.1.1.5). It leaves the
  // endpoint alone, so the next packet, whether it waits already or is set later, is
  // DATA0 exactly if an even number has been delivered since the last reset.
  lemma SetConfigurationResetsIff(f: Flash, ram: seq<byte>, evs: seq<Event>, app: App, data: seq<byte>)
    requires Usable(f) && Undisturbed(f, ram, evs) && |data| <= 8
    requires TakesRequest(Reached(f, ram, evs).dev, SET_CONFIGURATION)
    ensures var s := Reached(f, ram, evs);
      var t := Step(s, f, Process(app));
      var m := Content(f, ram, evs);
      && t.dev.ep1 == s.dev.ep1
      && In1(Step(t, f, Interrupt(data)).dev).1 == Packet(Image(f.crc, IE.Pid(|m.taken|), data))
      && (m.waiting.Some? ==> In1(t.dev).1 == Packet(Image(f.crc, IE.Pid(|m.taken|), m.waiting.value)))
      && (IE.Pid(|m.taken|) == PID_DATA0 <==> |m.taken| % 2 == 0)
  {
    var s := Reached(f, ram, evs);
    var m := Content(f, ram, evs);
    var e := ReachedInStep(f, ram, evs);
    var t := Step(s, f, Process(app));
    assert t.dev.ep1 == s.dev.ep1 by { StepIsEffect(s, f, Process(app), e); }
    assert t.dev.rx.Free?;
    SetThenToken(t, f, e, m, data);
  }

  // The input: one packet delivered before the SET_CONFIGURATION.
  function OneDelivered(first: seq<byte>): seq<Event> {
    [Interrupt(first), HostIn1] + [HostPacket(true, [0, 9, 1, 0, 0, 0, 0, 0])]
  }

  lemma ConfiguredAfterOnePacket(f: Flash, ram: seq<byte>, app: App, first: seq<byte>, data: seq<byte>)
    requires Usable(f) && |first| <= 8 && |data| <= 8
    ensures var s := Reached(f, ram, OneDelivered(first));
      && TakesRequest(s.dev, SET_CONFIGURATION)
      && In1(Step(Step(s, f, Process(app)), f, Interrupt(data)).dev).1 == Packet(Image(f.crc, PID_DATA1, data))
  {
    var evs := OneDelivered(first);
    OneDeliveredRun(f, ram, first);
    OneTaken(first);
    assert IE.Pid(|Content(f, ram, evs).taken|) == PID_DATA1;
    SetConfigurationResetsIff(f, ram, evs, app, data);
  }

  lemma OneDeliveredRun(f: Flash, ram: seq<byte>, first: seq<byte>)
    requires Usable(f) && |first| <= 8
    ensures Reaching(f, ram, OneDelivered(first)) == [IE.Set(first), IE.HostPoll]
    ensures TakesRequest(Reached(f, ram, OneDelivered(first)).dev, SET_CONFIGURATION)
  {
    InitialGood(f, ram);
    var s := Start(ram);
    var setup := HostPacket(true, [0, 9, 1, 0, 0, 0, 0, 0]);
    RunPair(s, f, Interrupt(first), HostIn1);
    var t := Step(Step(s, f, Interrupt(first)), f, HostIn1);
    assert t.dev.rx.Free? && Effect(t, setup) == [];
    RunNext(s, f, [Interrupt(first), HostIn1], setup);
    TrafficNext(s, f, [Interrupt(first), HostIn1], setup);
  }

  lemma OneTaken(first: seq<byte>)
    requires |first| <= 8
    ensures var traffic := [IE.Set(first), IE.HostPoll];
      IE.PostAll(EMPTY, traffic) == IE.Mailbox(None, [first]) && IE.Undisturbed(EMPTY, traffic)
  {
    var traffic := [IE.Set(first), IE.HostPoll];
    assert traffic[1..] == [IE.HostPoll] && traffic[1..][1..] == [];
    var m := IE.Post(EMPTY, IE.Set(first));
    assert m == IE.Mailbox(Some(first), []);
    assert IE.PostAll(m, [IE.HostPoll]) == IE.Post(m, IE.HostPoll) == IE.Mailbox(None, [first]);
    assert IE.Undisturbed(m, [IE.HostPoll]);
  }

  lemma {:induction false} TrafficNext(s: Sys, f: Flash, evs: seq<Event>, ev: Event)
    requires Good(s.dev, f) && Usable(f)
    ensures Traffic(s, f, evs + [ev]) == Traffic(s, f, evs) + Effect(Run(s, f, evs), ev)
    decreases |evs|
  {
    if evs == [] {
      assert [] + [ev] == [ev] && [ev][1..] == [];
      assert Effect(s, ev) + [] == Effect(s, ev);
    } else {
      assert (evs + [ev])[1..] == evs[1..] + [ev];
      TrafficNext(Step(s, f, evs[0]), f, evs[1..], ev);
    }
  }
}
