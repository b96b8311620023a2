// The host's side of a control-in transfer, and PyUSB's reading of the string
// descriptors it fetches (util.py).

module UsbHost {
  import opened Bytes
  import opened UsbModel
  import opened UsbRuns

  // ------------------------------------------- packets of a message (8.6.1, 5.5.3)

  predicate WellCut(packets: seq<seq<byte>>) {
    && packets != []
    && (forall i :: 0 <= i < |packets| - 1 ==> |packets[i]| == 8)
    && |packets[|packets| - 1]| < 8
  }

  // n bytes travel in n/8 + 1 packets: full ones, then a short or empty one.
  lemma {:induction false} SplitShape(msg: seq<byte>)
    ensures WellCut(Split(msg)) && |Split(msg)| == |msg| / 8 + 1
    ensures |Split(msg)[|Split(msg)| - 1]| == |msg| % 8
  {
    if |msg| >= 8 {
      SplitShape(msg[8..]);
      assert Split(msg) == [msg[..8]] + Split(msg[8..]);
    }
  }

  // There is no other way to cut it.
  lemma {:induction false} SplitUnique(packets: seq<seq<byte>>)
    requires WellCut(packets)
    ensures packets == Split(Concat(packets))
  {
    if |packets| == 1 {
      assert Concat(packets) == packets[0] + Concat<byte>([]) == packets[0];
      assert packets == [packets[0]];
    } else {
      assert WellCut(packets[1..]);
      SplitUnique(packets[1..]);
      assert Concat(packets)[..8] == packets[0];
      assert Concat(packets)[8..] == Concat(packets[1..]);
    }
  }

  // --------------------------------------------------- reading from the device

  // While the host reads it sends no data: IN tokens, whatever happens on the other
  // endpoint, and the firmware's main loop at its own pace.
  predicate Quiet(evs: seq<Event>) {
    forall i :: 0 <= i < |evs| ==> !evs[i].HostPacket?
  }

  // usbPoll has had the chance to build the next packet.
  predicate Settled(s: Sys) {
    Idle(s.dev.ep0.len) ==> s.dev.msgLen == NO_MSG
  }

  // Whether the next IN token comes after usbPoll could build a packet since the
  // token before.
  function NextReady(ready: bool, ev: Event): bool {
    !ev.HostIn0? && (ready || ev.Build?)
  }

  function Chance(ready: bool, ev: Event): nat {
    if ready && ev.HostIn0? then 1 else 0
  }

  // IN tokens of this kind.
  function Opportunities(ready: bool, evs: seq<Event>): nat
    decreases |evs|
  {
    if evs == [] then 0 else Chance(ready, evs[0]) + Opportunities(NextReady(ready, evs[0]), evs[1..])
  }

  // A data stage in progress, with nothing received that is not processed.
  predicate Sending(s: Sys, f: Flash) {
    Inv(s, f) && !s.user && s.dev.rx.Free?
  }

  lemma PacketIsNext(s: Sys, f: Flash)
    requires Sending(s, f) && In0(s.dev).1.Packet?
    ensures |s.out| < |s.owed| && Payload(In0(s.dev).1.bytes) == s.owed[|s.out|]
  {
    assert Payloads(s.out) + Waiting(s.dev) + Unbuilt(s.dev, f) == s.owed;
    var w := Waiting(s.dev)[0];
    assert s.owed[|s.out|] == w;
    assert Payload(s.dev.ep0.buf[..s.dev.ep0.len - 1]) == w;
  }

  lemma SettledSends(s: Sys, f: Flash)
    requires Sending(s, f) && Settled(s) && |s.out| < |s.owed|
    ensures In0(s.dev).1.Packet?
  {
    assert Payloads(s.out) + Waiting(s.dev) + Unbuilt(s.dev, f) == s.owed;
    assert |s.out| + |Waiting(s.dev)| + |Unbuilt(s.dev, f)| == |s.owed|;
  }

  lemma QuietStep(s: Sys, f: Flash, ev: Event, ready: bool)
    requires Sending(s, f) && Usable(f) && !ev.HostPacket? && (ready ==> Settled(s))
    ensures var t := Step(s, f, ev);
      && Sending(t, f) && t.owed == s.owed && (NextReady(ready, ev) ==> Settled(t))
      && t.out == if ev.HostIn0? then Delivered(s.out, In0(s.dev).1) else s.out
    ensures ready && ev.HostIn0? && |s.out| < |s.owed| ==> In0(s.dev).1.Packet?
  {
    StepKeepsInv(s, f, ev);
    if ev.Build? { BuildGood(s.dev, f); }
    if ready && ev.HostIn0? && |s.out| < |s.owed| { SettledSends(s, f); }
  }

  // What the host gets for its tokens; nothing but handshakes at other events.
  function Answered(s: Sys, f: Flash, evs: seq<Event>): (answers: seq<Answer>)
    requires Good(s.dev, f) && Usable(f)
    ensures |answers| == |evs|
    decreases |evs|
  {
    if evs == [] then []
    else [AnswerTo(s, evs[0])] + Answered(Step(s, f, evs[0]), f, evs[1..])
  }

  function AnswerTo(s: Sys, ev: Event): Answer
    requires |s.dev.ep0.buf| == 11 && LegalLen(s.dev.ep0.len)
  {
    if ev.HostIn0? then In0(s.dev).1 else Handshake(PID_NAK)
  }

  // The packets in order, none skipped, and one at every chance while there are any.
  predicate Lawful(evs: seq<Event>, answers: seq<Answer>, ready: bool, left: seq<seq<byte>>)
    requires |evs| == |answers|
    decreases |evs|
  {
    evs != [] ==>
      var next := NextReady(ready, evs[0]);
      match answers[0]
      case Packet(bytes) => left != [] && Payload(bytes) == left[0] && Lawful(evs[1..], answers[1..], next, left[1..])
      case Handshake(_) => (Chance(ready, evs[0]) == 1 ==> left == []) && Lawful(evs[1..], answers[1..], next, left)
  }

  lemma LawfulNext(s: Sys, f: Flash, ev: Event, ready: bool, evs: seq<Event>, answers: seq<Answer>)
    requires Sending(s, f) && Usable(f) && !ev.HostPacket? && (ready ==> Settled(s)) && |s.out| <= |s.owed|
    requires |evs| == |answers| && |Step(s, f, ev).out| <= |s.owed|
    requires Lawful(evs, answers, NextReady(ready, ev), s.owed[|Step(s, f, ev).out|..])
    ensures Lawful([ev] + evs, [AnswerTo(s, ev)] + answers, ready, s.owed[|s.out|..])
  {
    QuietStep(s, f, ev, ready);
    assert ([ev] + evs)[1..] == evs && ([AnswerTo(s, ev)] + answers)[1..] == answers;
    if AnswerTo(s, ev).Packet? {
      PacketIsNext(s, f);
      assert s.owed[|s.out|..][1..] == s.owed[|s.out| + 1..];
    }
  }

  lemma {:induction false} DeviceIsLawful(s: Sys, f: Flash, evs: seq<Event>, ready: bool)
    requires Sending(s, f) && Usable(f) && Quiet(evs) && (ready ==> Settled(s)) && |s.out| <= |s.owed|
    ensures Lawful(evs, Answered(s, f, evs), ready, s.owed[|s.out|..])
    decreases |evs|
  {
    if evs != [] {
      var t := Step(s, f, evs[0]);
      QuietStep(s, f, evs[0], ready);
      OutWithinOwed(t, f);
      DeviceIsLawful(t, f, evs[1..], NextReady(ready, evs[0]));
      LawfulNext(s, f, evs[0], ready, evs[1..], Answered(t, f, evs[1..]));
      assert evs == [evs[0]] + evs[1..];
    }
  }

  lemma OutWithinOwed(s: Sys, f: Flash)
    requires Sending(s, f)
    ensures |s.out| <= |s.owed|
  {
    assert Payloads(s.out) + Waiting(s.dev) + Unbuilt(s.dev, f) == s.owed;
  }

  // A host that wants `want` bytes: it takes no notice of handshakes and stops after a
  // short packet or enough bytes.
  function Collect(answers: seq<Answer>, want: nat): seq<byte> {
    if want == 0 || answers == [] then []
    else if answers[0].Handshake? then Collect(answers[1..], want)
    else
      var p := Payload(answers[0].bytes);
      if |p| < 8 || |p| >= want then p else p + Collect(answers[1..], want - |p|)
  }

  // Packets of a data stage of n bytes: a host that has all it wants does not fetch
  // the empty one.
  function Needed(n: nat, want: nat): nat {
    if n < want then n / 8 + 1 else (n + 7) / 8
  }

  predicate IsPrefix(a: seq<byte>, b: seq<byte>) {
    |a| <= |b| && a == b[..|a|]
  }

  // What the host holds of a stage with `rest` still owed.
  predicate Holds(got: seq<byte>, rest: seq<byte>, want: nat, chances: nat) {
    IsPrefix(got, rest) && (chances >= Needed(|rest|, want) ==> got == rest)
  }

  // Whatever the order of tokens and polls, the host holds a part of the bytes still
  // owed, and all of them after enough chances.
  lemma {:induction false} CollectGetsRest(evs: seq<Event>, answers: seq<Answer>, ready: bool, rest: seq<byte>, want: nat)
    requires |evs| == |answers| && Lawful(evs, answers, ready, Split(rest)) && |rest| <= want
    ensures Holds(Collect(answers, want), rest, want, Opportunities(ready, evs))
    decreases |evs|
  {
    if want > 0 && evs != [] {
      var next := NextReady(ready, evs[0]);
      if answers[0].Handshake? {
        CollectGetsRest(evs[1..], answers[1..], next, rest, want);
      } else if |rest| >= 8 && want > 8 {
        assert Split(rest)[1..] == Split(rest[8..]);
        CollectGetsRest(evs[1..], answers[1..], next, rest[8..], want - 8);
        HoldsMore(Collect(answers[1..], want - 8), rest, want, Opportunities(next, evs[1..]));
      }
    }
  }

  lemma HoldsMore(got: seq<byte>, rest: seq<byte>, want: nat, chances: nat)
    requires |rest| >= 8 && want > 8 && Holds(got, rest[8..], want - 8, chances)
    ensures Holds(rest[..8] + got, rest, want, chances + 1) && Holds(rest[..8] + got, rest, want, chances)
  {
    assert rest[..8] + rest[8..] == rest;
  }

  lemma StepProgress(s: Sys, f: Flash, ev: Event, ready: bool)
    requires Sending(s, f) && Usable(f) && !ev.HostPacket? && (ready ==> Settled(s))
    ensures var t := Step(s, f, ev);
      |s.out| <= |t.out| && (|s.out| < |s.owed| ==> |t.out| >= |s.out| + Chance(ready, ev))
  {
    QuietStep(s, f, ev, ready);
  }

  // Progress: every chance moves the transfer on by a packet, until all that is owed
  // has been delivered.
  lemma {:induction false} Progress(s: Sys, f: Flash, evs: seq<Event>, ready: bool)
    requires Sending(s, f) && Usable(f) && Quiet(evs) && (ready ==> Settled(s))
    ensures var t := Run(s, f, evs);
      && Sending(t, f) && t.owed == s.owed && |s.out| <= |t.out| <= |t.owed|
      && (|t.out| < |t.owed| ==> |t.out| >= |s.out| + Opportunities(ready, evs))
    decreases |evs|
  {
    if evs == [] {
      OutWithinOwed(s, f);
    } else {
      var next := NextReady(ready, evs[0]);
      QuietStep(s, f, evs[0], ready);
      StepProgress(s, f, evs[0], ready);
      Progress(Step(s, f, evs[0]), f, evs[1..], next);
    }
  }

  // A control-in transfer: SETUP, then any quiet events.
  function ControlRead(s: Sys, f: Flash, rq: Request, evs: seq<Event>): seq<byte>
    requires Good(s.dev, f) && Usable(f)
  {
    Collect(Answered(Step(s, f, HostPacket(true, rq)), f, evs), WLength(rq))
  }

  // The call of usbPoll that processes the SETUP, and what follows it.
  function FirstApp(evs: seq<Event>): Option<App> {
    if evs == [] then None else if evs[0].Process? then Some(evs[0].app) else FirstApp(evs[1..])
  }

  function Following(evs: seq<Event>): seq<Event> {
    if evs == [] then [] else if evs[0].Process? then evs[1..] else Following(evs[1..])
  }

  // Whatever happened before, aborted transfers included, and in whatever order IN
  // tokens and the halves of usbPoll come, the host holds nothing but the reply, and
  // after enough chances exactly the first wLength bytes of it.
  lemma ControlReadCorrect(f: Flash, ram: seq<byte>, before: seq<Event>, rq: Request, app: App, evs: seq<Event>)
    requires Usable(f) && Reached(f, ram, before).dev.rx.Free?
    requires Quiet(evs) && FirstApp(evs) == Some(app) && !NoReply(rq, app)
    ensures var s := Reached(f, ram, before);
      Holds(ControlRead(s, f, rq, evs), Reply(f, rq, app, s.lastConfig), WLength(rq), Opportunities(false, Following(evs)))
  {
    var s := Reached(f, ram, before);
    StepKeepsInv(s, f, HostPacket(true, rq));
    ReadFromSetup(Step(s, f, HostPacket(true, rq)), f, rq, app, evs);
  }

  lemma {:induction false} ReadFromSetup(s: Sys, f: Flash, rq: Request, app: App, evs: seq<Event>)
    requires Inv(s, f) && Usable(f) && s.dev.rx == Got(true, rq)
    requires Quiet(evs) && FirstApp(evs) == Some(app) && !NoReply(rq, app)
    ensures Holds(Collect(Answered(s, f, evs), WLength(rq)), Reply(f, rq, app, s.lastConfig), WLength(rq),
                  Opportunities(false, Following(evs)))
    decreases |evs|
  {
    var t := Step(s, f, evs[0]);
    StepKeepsInv(s, f, evs[0]);
    if evs[0].Process? {
      var reply := Reply(f, rq, app, s.lastConfig);
      ProcessRxGood(s.dev, f, app);
      assert t.owed[|t.out|..] == t.owed == Split(reply);
      DeviceIsLawful(t, f, evs[1..], false);
      CollectGetsRest(evs[1..], Answered(t, f, evs[1..]), false, reply, WLength(rq));
    } else {
      Refused(s, f, evs[0]);
      ReadFromSetup(t, f, rq, app, evs[1..]);
    }
  }

  // Until the SETUP is processed, IN tokens get NAK.
  lemma Refused(s: Sys, f: Flash, ev: Event)
    requires Inv(s, f) && Usable(f) && s.dev.rx.Got? && !ev.Process?
    ensures var t := Step(s, f, ev);
      t.dev.rx == s.dev.rx && t.lastConfig == s.lastConfig && In0(s.dev).1 == Handshake(PID_NAK)
  {
  }

  // ---------------------------------------------------- string descriptors (9.6.7)

  // 16 bit units, low byte first.
  function Encode(units: seq<word>): (r: seq<byte>)
    ensures |r| == 2 * |units|
  {
    if units == [] then [] else [units[0] % 256, units[0] / 256] + Encode(units[1..])
  }

  function Decode(bytes: seq<byte>): seq<word> {
    if |bytes| < 2 then [] else [Word(bytes[0], bytes[1])] + Decode(bytes[2..])
  }

  // USB_STRING_DESCRIPTOR_HEADER(n) is the 16 bit word (2n+2) | (3 << 8); the units follow.
  function StringDescriptor(units: seq<word>): (r: seq<byte>)
    ensures |r| == 2 * |units| + 2
    ensures |units| <= 126 ==> r[0] == |r| && r[1] == 3
  {
    var header := 2 * |units| + 2;
    [header % 256, header / 256 / 4 * 4 % 256 + 3] + Encode(units)
  }

  // s[lo:hi] in Python.
  function Slice(s: seq<byte>, lo: nat, hi: nat): seq<byte> {
    var h := Min(hi, |s|);
    if lo < h then s[lo..h] else []
  }

  // s[lo:hi:2]
  function EveryOther(s: seq<byte>, lo: nat, hi: nat): (r: seq<byte>)
    decreases |s| - lo
  {
    if lo < hi && lo < |s| then [s[lo]] + EveryOther(s, lo + 2, hi) else []
  }

  // map(lambda x, y: x + (y << 8), a, b)
  function Zip(lo: seq<byte>, hi: seq<byte>): seq<word> {
    if lo == [] || hi == [] then [] else [Word(lo[0], hi[0])] + Zip(lo[1..], hi[1..])
  }

  // get_langids, on the descriptor it fetched.
  function GetLangids(buf: seq<byte>): seq<word> {
    if |buf| < 4 || buf[0] < 4 || buf[0] % 2 != 0 then []
    else Zip(EveryOther(buf, 2, buf[0]), EveryOther(buf, 3, buf[0]))
  }

  datatype StringResult = NoString | Units(units: seq<word>) | NoLangid | BadLangid | BadDescriptor

  function Langid(langids: seq<word>, langid: Option<word>): Option<word> {
    if langids == [] then None
    else if langid.None? then Some(langids[0])
    else if langid.value in langids then langid
    else None
  }

  // get_string, up to the decoding of UTF-16 surrogates. `fetched` is what
  // get_descriptor returned; an empty or odd-sized one makes it raise.
  function GetString(langids: seq<word>, index: byte, langid: Option<word>, fetched: seq<byte>): StringResult {
    if index == 0 then NoString
    else if langids == [] then NoLangid
    else if Langid(langids, langid).None? then BadLangid
    else if fetched == [] then BadDescriptor
    else
      var text := Slice(fetched, 2, fetched[0]);
      if |text| % 2 == 1 then BadDescriptor else Units(Decode(text))
  }

  // get_descriptor(dev, size, STRING, index, langid)
  function StringRequest(index: byte, langid: word, size: byte): (rq: Request)
    ensures AsksForDescriptor(rq) && rq[3] == 3 && rq[2] == index
    ensures Word(rq[4], rq[5]) == langid && WLength(rq) == size
  {
    [0x80, 6, index, 3, langid % 256, langid / 256, size, 0]
  }

  lemma {:induction false} ZipIs(s: seq<byte>, lo: nat, hi: nat)
    requires lo <= |s| && hi <= 256
    ensures var r := Zip(EveryOther(s, lo, hi), EveryOther(s, lo + 1, hi));
      var end := Min(hi, |s|);
      && (lo < hi && hi % 2 == lo % 2 ==> |r| == if lo < end then (end - lo) / 2 else 0)
      && forall k :: 0 <= k < |r| ==> lo + 2 * k + 1 < |s| && r[k] == Word(s[lo + 2 * k], s[lo + 2 * k + 1])
    decreases |s| - lo
  {
    if lo < hi && lo + 1 < |s| && lo + 1 < hi && lo + 2 <= |s| {
      ZipIs(s, lo + 2, hi);
    }
  }

  // get_langids on any answer: nothing for a short or odd one, else all whole words
  // behind the header, up to the length it states or has.
  lemma LangidsOfAnyAnswer(buf: seq<byte>)
    ensures var r := GetLangids(buf);
      && (r == [] <==> |buf| < 4 || buf[0] < 4 || buf[0] % 2 != 0)
      && (r != [] ==> |r| == (Min(buf[0], |buf|) - 2) / 2)
      && forall k :: 0 <= k < |r| ==> 3 + 2 * k < |buf| && r[k] == Word(buf[2 + 2 * k], buf[3 + 2 * k])
  {
    if |buf| >= 4 && buf[0] >= 4 && buf[0] % 2 == 0 {
      ZipIs(buf, 2, buf[0]);
    }
  }

  // When get_string gives a string, nothing, or which error.
  lemma StringCases(langids: seq<word>, index: byte, langid: Option<word>, fetched: seq<byte>)
    ensures var r := GetString(langids, index, langid, fetched);
      && (r == NoString <==> index == 0)
      && (r == NoLangid <==> index != 0 && langids == [])
      && (r == BadLangid <==> index != 0 && langids != [] && langid.Some? && langid.value !in langids)
      && (r == BadDescriptor <==>
            && index != 0 && langids != [] && (langid.Some? ==> langid.value in langids)
            && (fetched == [] || |Slice(fetched, 2, fetched[0])| % 2 == 1))
      && (r.Units? ==> fetched != [] && |r.units| == |Slice(fetched, 2, fetched[0])| / 2)
      && (r.Units? ==> forall k :: 0 <= k < |r.units| ==>
            3 + 2 * k < |fetched| && r.units[k] == Word(fetched[2 + 2 * k], fetched[3 + 2 * k]))
    ensures Langid(langids, langid) ==
      if langid.Some? then (if langid.value in langids then langid else None)
      else if |langids| > 0 then Some(langids[0]) else None
  {
    if fetched != [] {
      DecodeIs(Slice(fetched, 2, fetched[0]));
    }
  }

  lemma {:induction false} DecodeIs(s: seq<byte>)
    ensures |Decode(s)| == |s| / 2
    ensures forall k :: 0 <= k < |s| / 2 ==> Decode(s)[k] == Word(s[2 * k], s[2 * k + 1])
  {
    if |s| >= 2 {
      DecodeIs(s[2..]);
    }
  }

  lemma {:induction false} DecodeEncode(units: seq<word>)
    ensures Decode(Encode(units)) == units
  {
    if units != [] {
      DecodeEncode(units[1..]);
      assert Encode(units)[2..] == Encode(units[1..]);
    }
  }

  lemma {:induction false} ZipEveryOther(s: seq<byte>, lo: nat, hi: nat)
    requires lo <= hi <= |s| && (hi - lo) % 2 == 0
    ensures Zip(EveryOther(s, lo, hi), EveryOther(s, lo + 1, hi)) == Decode(s[lo..hi])
    decreases hi - lo
  {
    if lo < hi {
      ZipEveryOther(s, lo + 2, hi);
      assert s[lo..hi][2..] == s[lo + 2..hi];
    }
  }

  lemma DecodeLength(s: seq<byte>)
    ensures |Decode(s)| == |s| / 2
  {
  }

  // What the firmware sends of a descriptor whose size is even: as much as a one byte length says.
  lemma DescriptorSent(f: Flash, index: byte, langid: word, size: byte, app: App, configuration: byte, text: seq<word>)
    requires size >= 254
    requires (index == 0 && f.string0 == StringDescriptor(text)) || (index == 1 && f.vendor == StringDescriptor(text))
    ensures Reply(f, StringRequest(index, langid, size), app, configuration)
         == StringDescriptor(text)[..(2 * |text| + 2) % 256]
  {
  }

  // The 254 bytes a descriptor can have travel in 32 packets.
  predicate ServedInFull(evs: seq<Event>) {
    Quiet(evs) && FirstApp(evs).Some? && Opportunities(false, Following(evs)) >= 32
  }

  lemma StringRead(f: Flash, ram: seq<byte>, before: seq<Event>, evs: seq<Event>, rq: Request)
    requires Usable(f) && Reached(f, ram, before).dev.rx.Free? && ServedInFull(evs)
    requires Standard(rq) && rq[6] >= 254 && rq[7] == 0
    ensures var s := Reached(f, ram, before);
      ControlRead(s, f, rq, evs) == Reply(f, rq, FirstApp(evs).value, s.lastConfig)
  {
    var s := Reached(f, ram, before);
    var app := FirstApp(evs).value;
    ControlReadCorrect(f, ram, before, rq, app, evs);
    SetupOwesReply(s.dev, f, rq, app);
  }

  // End to end: the vendor name stored in the firmware is the name PyUSB reads,
  // exactly if it has at most 126 units.
  lemma VendorNameRoundTrip(f: Flash, ram: seq<byte>, before: seq<Event>, evs: seq<Event>, name: seq<word>,
                            langids: seq<word>, langid: Option<word>)
    requires Usable(f) && f.vendor == StringDescriptor(name)
    requires Reached(f, ram, before).dev.rx.Free? && ServedInFull(evs)
    requires Langid(langids, langid).Some?
    ensures var s := Reached(f, ram, before);
      var rq := StringRequest(1, Langid(langids, langid).value, 255);
      GetString(langids, 1, langid, ControlRead(s, f, rq, evs)) == Units(name) <==> |name| <= 126
  {
    var rq := StringRequest(1, Langid(langids, langid).value, 255);
    StringRead(f, ram, before, evs, rq);
    NameInReply(f, FirstApp(evs).value, Reached(f, ram, before).lastConfig, name, langids, langid);
  }

  lemma NameInReply(f: Flash, app: App, configuration: byte, name: seq<word>, langids: seq<word>, langid: Option<word>)
    requires f.vendor == StringDescriptor(name) && Langid(langids, langid).Some?
    ensures var rq := StringRequest(1, Langid(langids, langid).value, 255);
      GetString(langids, 1, langid, Reply(f, rq, app, configuration)) == Units(name) <==> |name| <= 126
  {
    DescriptorSent(f, 1, Langid(langids, langid).value, 255, app, configuration, name);
    NameRecovered(name, langids, langid);
  }

  lemma UnitsFollow(units: seq<word>)
    ensures StringDescriptor(units)[2..] == Encode(units)
    ensures StringDescriptor(units)[0] == (2 * |units| + 2) % 256
  {
  }

  lemma NameRecovered(name: seq<word>, langids: seq<word>, langid: Option<word>)
    requires Langid(langids, langid).Some?
    ensures GetString(langids, 1, langid, StringDescriptor(name)[..(2 * |name| + 2) % 256]) == Units(name)
      <==> |name| <= 126
  {
    var n := (2 * |name| + 2) % 256;
    var fetched := StringDescriptor(name)[..n];
    if |name| <= 126 {
      assert fetched == StringDescriptor(name);
      assert Slice(fetched, 2, n) == fetched[2..n] == StringDescriptor(name)[2..] == Encode(name) by {
        UnitsFollow(name);
      }
      DecodeEncode(name);
    } else if n != 0 {
      DecodeLength(Slice(fetched, 2, n));
    }
  }

  // Likewise the LANGID table, for which an empty table reads as no table at all.
  lemma LangidsRoundTrip(f: Flash, ram: seq<byte>, before: seq<Event>, evs: seq<Event>, table: seq<word>)
    requires Usable(f) && f.string0 == StringDescriptor(table)
    requires Reached(f, ram, before).dev.rx.Free? && ServedInFull(evs)
    ensures var s := Reached(f, ram, before);
      GetLangids(ControlRead(s, f, StringRequest(0, 0, 254), evs)) == table <==> |table| <= 126
  {
    StringRead(f, ram, before, evs, StringRequest(0, 0, 254));
    TableInReply(f, FirstApp(evs).value, Reached(f, ram, before).lastConfig, table);
  }

  lemma TableInReply(f: Flash, app: App, configuration: byte, table: seq<word>)
    requires f.string0 == StringDescriptor(table)
    ensures GetLangids(Reply(f, StringRequest(0, 0, 254), app, configuration)) == table <==> |table| <= 126
  {
    DescriptorSent(f, 0, 0, 254, app, configuration, table);
    TableRecovered(table);
  }

  lemma TableRecovered(table: seq<word>)
    ensures GetLangids(StringDescriptor(table)[..(2 * |table| + 2) % 256]) == table <==> |table| <= 126
  {
    var n := (2 * |table| + 2) % 256;
    var buf := StringDescriptor(table)[..n];
    if n >= 4 {
      ZipEveryOther(buf, 2, n);
      DecodeLength(buf[2..n]);
      if |table| <= 126 {
        assert buf == StringDescriptor(table);
        assert buf[2..n] == Encode(table);
        DecodeEncode(table);
      }
    }
  }
}
