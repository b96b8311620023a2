// zena: an IEEE 802.15.4 sniffer. A frame comes in up to three 64 byte reports and
// goes out as a PCAP record (zena-0.4.3.c).

// What arrives, what is made of it, and the file that is written.
module ZenaModel {
  import opened Bytes

  type u32 = x: int | 0 <= x < 0x1_0000_0000
  type Report = s: seq<byte> | |s| == 64 witness seq(64, _ => 0)

  type ErrorCode = x: int | x < 0 witness -1

  const TIMEOUT: ErrorCode := -7

  // One interrupt transfer, with the host's clock: a report or a negative status.
  datatype Read =
    | Received(report: Report, sec: u32, usec: u32)
    | Failure(status: ErrorCode)

  // One zena_get_packet: a frame or an error, and the transfers not used up.
  datatype Got =
    | Failed(status: ErrorCode, rest: seq<Read>)
    | Frame(data: seq<byte>, sec: u32, usec: u32, rest: seq<Read>)

  // A device that sends nothing more makes the transfer time out.
  function Next(transfers: seq<Read>): Read {
    if transfers == [] then Failure(TIMEOUT) else transfers[0]
  }

  function Rest(transfers: seq<Read>): seq<Read> {
    if transfers == [] then [] else transfers[1..]
  }

  function Get(transfers: seq<Read>): (g: Got)
    ensures transfers != [] ==> |g.rest| < |transfers|
    ensures g.Frame? ==> |g.data| <= 129
  {
    match Next(transfers)
    case Failure(status) => Failed(if status == TIMEOUT then TIMEOUT else -2, Rest(transfers))
    case Received(first, sec, usec) =>
      var n := first[5];
      if n > 129 then Failed(-3, Rest(transfers))
      else Assemble(first, n, sec, usec, Rest(transfers))
  }

  function Assemble(first: Report, n: int, sec: u32, usec: u32, transfers: seq<Read>): (g: Got)
    requires 0 <= n <= 129
    ensures |g.rest| <= |transfers|
    ensures g.Frame? ==> |g.data| == n
  {
    if n <= 58 then Frame(first[6..6 + n], sec, usec, transfers)
    else GetSecond(first[6..], n, sec, usec, transfers)
  }

  function GetSecond(head: seq<byte>, n: int, sec: u32, usec: u32, transfers: seq<Read>): (g: Got)
    requires |head| == 58 < n <= 129
    ensures |g.rest| <= |transfers|
    ensures g.Frame? ==> |g.data| == n
  {
    match Next(transfers)
    case Failure(status) => Failed(status, Rest(transfers))
    case Received(second, _, _) =>
      if n <= 121 then Frame(head + second[1..1 + n - 58], sec, usec, Rest(transfers))
      else
        match Next(Rest(transfers))
        case Failure(status) => Failed(status, Rest(Rest(transfers)))
        case Received(third, _, _) =>
          Frame(head + second[1..] + third[1..1 + n - 121], sec, usec, Rest(Rest(transfers)))
  }

  // byte & 80
  predicate FcsOk(b: byte) {
    var x: int := b;
    x / 16 % 2 == 1 || x / 64 % 2 == 1
  }

  // The frames main writes when bad packets are dropped. The last two bytes are
  // status bytes in place of the checksum.
  predicate Accepted(data: seq<byte>) {
    2 <= |data| <= 127 && FcsOk(data[|data| - 1])
  }

  lemma AcceptedIs(data: seq<byte>)
    ensures Accepted(data) <==> 2 <= |data| <= 127 && (data[|data| - 1] as bv8) & 80 != 0
  {
  }

  // A first transfer that fails: a timeout is told apart from all other errors.
  lemma GetQuiet(status: ErrorCode, rest: seq<Read>)
    ensures Get([Failure(status)] + rest) == Failed(if status == -7 then -7 else -2, rest)
  {
    assert Rest([Failure(status)] + rest) == rest;
  }

  // ------------------------------------------------------------ fragmentation

  // What the device puts on the bus for a frame: five bytes of header, the length,
  // the frame; `filler` is whatever stands in the bytes that carry nothing.
  datatype Sent = Sent(frame: seq<byte>, header: seq<byte>, filler: Report, sec: u32, usec: u32)

  predicate Sendable(s: Sent) {
    |s.frame| <= 129 && |s.header| == 5
  }

  function Padded(s: seq<byte>, filler: Report): Report
    requires |s| <= 64
  {
    s + filler[|s|..]
  }

  function Fragment(s: Sent): seq<Read>
    requires Sendable(s)
  {
    var n := |s.frame|;
    var first := s.header + [n as byte];
    if n <= 58 then [Carrying(s, first + s.frame)]
    else if n <= 121 then
      [Carrying(s, first + s.frame[..58]), Carrying(s, [s.filler[0]] + s.frame[58..])]
    else
      [Carrying(s, first + s.frame[..58]), Carrying(s, [s.filler[0]] + s.frame[58..121]), Carrying(s, [s.filler[0]] + s.frame[121..])]
  }

  function Carrying(s: Sent, bytes: seq<byte>): Read
    requires |bytes| <= 64
  {
    Received(Padded(bytes, s.filler), s.sec, s.usec)
  }

  // Reassembly undoes fragmentation, and takes no report of the next frame.
  lemma GetFragment(s: Sent, rest: seq<Read>)
    requires Sendable(s)
    ensures Get(Fragment(s) + rest) == Frame(s.frame, s.sec, s.usec, rest)
  {
    var transfers := Fragment(s) + rest;
    var n := |s.frame|;
    assert transfers[0] == Fragment(s)[0];
    assert Rest(transfers) == Fragment(s)[1..] + rest;
    if n <= 58 {
      assert transfers[0].report[6..6 + n] == s.frame;
    } else {
      assert transfers[0].report[6..] == s.frame[..58];
      assert Next(Rest(transfers)) == Fragment(s)[1];
      assert Rest(Rest(transfers)) == Fragment(s)[2..] + rest;
      if n <= 121 {
        assert Fragment(s)[1].report[1..1 + n - 58] == s.frame[58..];
        assert s.frame[..58] + s.frame[58..] == s.frame;
      } else {
        assert Fragment(s)[1].report[1..] == s.frame[58..121];
        assert Next(Rest(Rest(transfers))) == Fragment(s)[2];
        assert Fragment(s)[2].report[1..1 + n - 121] == s.frame[121..];
        assert s.frame[..58] + s.frame[58..121] + s.frame[121..] == s.frame;
      }
    }
  }

  // --------------------------------------------------------------------- PCAP

  datatype Record = Record(sec: u32, usec: u32, original: u32, data: seq<byte>)

  function Le32(x: u32): (s: seq<byte>)
    ensures |s| == 4
  {
    var y := x / 0x100;
    var z := y / 0x100;
    [x % 0x100, y % 0x100, z % 0x100, z / 0x100]
  }

  function FromLe32(s: seq<byte>): u32
    requires |s| == 4
  {
    var a: int, b: int, c: int, d: int := s[0], s[1], s[2], s[3];
    a + 0x100 * (b + 0x100 * (c + 0x100 * d))
  }

  // magic, version 2.4, zone, accuracy, snapshot length 128, link type 195
  function FileHeader(): (s: seq<byte>)
    ensures |s| == 24
  {
    Le32(0xa1b2c3d4) + [2, 0, 4, 0] + Le32(0) + Le32(0) + Le32(128) + Le32(0xc3)
  }

  lemma Behind(a: seq<byte>, b: seq<byte>)
    ensures (a + b)[|a|..] == b
  {
  }

  // The fields of the file header, where a reader looks for them.
  lemma FileHeaderFields()
    ensures var h := FileHeader();
      && FromLe32(h[..4]) == 0xa1b2c3d4 && h[4..8] == [2, 0, 4, 0]
      && FromLe32(h[8..12]) == 0 && FromLe32(h[12..16]) == 0
      && FromLe32(h[16..20]) == 128 && FromLe32(h[20..24]) == 195
  {
    var h := FileHeader();
    var low := Le32(0xa1b2c3d4) + [2, 0, 4, 0] + Le32(0) + Le32(0);
    assert h == low + Le32(128) + Le32(0xc3) && |low| == 16;
    assert low[..4] == Le32(0xa1b2c3d4) && low[8..12] == Le32(0) && low[12..16] == Le32(0);
    assert h[..4] == low[..4] && h[4..8] == low[4..8] && h[8..12] == low[8..12] && h[12..16] == low[12..16];
    var last := Le32(0xc3);
    assert h == (low + Le32(128)) + last && |low + Le32(128)| == 20;
    assert h[16..20] == Le32(128);
    Behind(low + Le32(128), last);
    assert h[20..24] == h[20..];
    Le32RoundTrip(0xa1b2c3d4);
    Le32RoundTrip(0);
    Le32RoundTrip(128);
    Le32RoundTrip(0xc3);
  }

  predicate Storable(r: Record) {
    |r.data| < 0x1_0000_0000
  }

  function WriteRecord(r: Record): seq<byte>
    requires Storable(r)
  {
    Le32(r.sec) + Le32(r.usec) + Le32(|r.data|) + Le32(r.original) + r.data
  }

  function WriteRecords(rs: seq<Record>): seq<byte>
    requires forall k :: 0 <= k < |rs| ==> Storable(rs[k])
  {
    if rs == [] then [] else WriteRecord(rs[0]) + WriteRecords(rs[1..])
  }

  // One record and what follows it. None: cut short.
  function ReadRecord(file: seq<byte>): (r: Option<(Record, seq<byte>)>)
    ensures r.Some? ==> |r.value.1| < |file|
  {
    if |file| < 16 then None
    else
      var n: int := FromLe32(file[8..12]);
      if |file| < 16 + n then None
      else
        Some((Record(FromLe32(file[..4]), FromLe32(file[4..8]), FromLe32(file[12..16]), file[16..16 + n]), file[16 + n..]))
  }

  // A reader of the file, following the headers. None: not such a file.
  function ReadRecords(file: seq<byte>): Option<seq<Record>> {
    if file == [] then Some([])
    else
      match ReadRecord(file)
      case None => None
      case Some((r, rest)) =>
        match ReadRecords(rest)
        case None => None
        case Some(rs) => Some([r] + rs)
  }

  function ReadFile(file: seq<byte>): Option<seq<Record>> {
    if |file| >= 24 && file[..24] == FileHeader() then ReadRecords(file[24..]) else None
  }

  lemma Le32RoundTrip(x: u32)
    ensures FromLe32(Le32(x)) == x
  {
  }

  lemma FromLe32RoundTrip(s: seq<byte>)
    requires |s| == 4
    ensures Le32(FromLe32(s)) == s
  {
    var a: int, b: int, c: int, d: int := s[0], s[1], s[2], s[3];
    var x := FromLe32(s);
    assert x / 0x100 == b + 0x100 * (c + 0x100 * d);
    assert x / 0x100 / 0x100 == c + 0x100 * d;
  }

  lemma RecordWrittenReadsBack(r: Record, rest: seq<byte>)
    requires Storable(r)
    ensures ReadRecord(WriteRecord(r) + rest) == Some((r, rest))
  {
    var file := WriteRecord(r) + rest;
    assert file[..4] == Le32(r.sec) && file[4..8] == Le32(r.usec);
    assert file[8..12] == Le32(|r.data|) && file[12..16] == Le32(r.original);
    assert file[16..16 + |r.data|] == r.data && file[16 + |r.data|..] == rest;
    Le32RoundTrip(r.sec);
    Le32RoundTrip(r.usec);
    Le32RoundTrip(|r.data|);
    Le32RoundTrip(r.original);
  }

  lemma RecordReadIsWritten(file: seq<byte>)
    requires ReadRecord(file).Some?
    ensures var (r, rest) := ReadRecord(file).value;
      Storable(r) && file == WriteRecord(r) + rest
  {
    FromLe32RoundTrip(file[..4]);
    FromLe32RoundTrip(file[4..8]);
    FromLe32RoundTrip(file[8..12]);
    FromLe32RoundTrip(file[12..16]);
  }

  lemma {:induction false} WrittenReadsBack(rs: seq<Record>)
    requires forall k :: 0 <= k < |rs| ==> Storable(rs[k])
    ensures ReadRecords(WriteRecords(rs)) == Some(rs)
    decreases |rs|
  {
    if rs != [] {
      WrittenReadsBack(rs[1..]);
      RecordWrittenReadsBack(rs[0], WriteRecords(rs[1..]));
      assert rs == [rs[0]] + rs[1..];
    }
  }

  lemma {:induction false} ReadIsWritten(file: seq<byte>)
    requires ReadRecords(file).Some?
    ensures var rs := ReadRecords(file).value;
      && (forall k :: 0 <= k < |rs| ==> Storable(rs[k]))
      && WriteRecords(rs) == file
    decreases |file|
  {
    if file != [] {
      RecordReadIsWritten(file);
      ReadIsWritten(ReadRecord(file).value.1);
    }
  }

  // Reading and writing are each other's inverse: a file reads as `rs` exactly if it
  // is what writing `rs` gives.
  lemma ReadsAsIff(file: seq<byte>, rs: seq<Record>)
    requires forall k :: 0 <= k < |rs| ==> Storable(rs[k])
    ensures ReadRecords(file) == Some(rs) <==> file == WriteRecords(rs)
  {
    WrittenReadsBack(rs);
    if ReadRecords(file).Some? {
      ReadIsWritten(file);
    }
  }

  // -------------------------------------------------------------- whole runs

  // The record written for a frame: its two status bytes are cut off, the original
  // length counts them as the two octets of the checksum.
  function Kept(data: seq<byte>, sec: u32, usec: u32): seq<Record> {
    if Accepted(data) then [Record(sec, usec, |data|, data[..|data| - 2])] else []
  }

  // All records that come of a sequence of transfers.
  function Capture(transfers: seq<Read>): (rs: seq<Record>)
    ensures forall k :: 0 <= k < |rs| ==> Storable(rs[k])
    decreases |transfers|
  {
    if transfers == [] then []
    else
      match Get(transfers)
      case Failed(_, rest) => Capture(rest)
      case Frame(data, sec, usec, rest) => Kept(data, sec, usec) + Capture(rest)
  }

  // The air: frames, transfers in between that fail, and frames of which only the first
  // k reports arrive before a transfer fails.
  datatype Event = Quiet(status: ErrorCode) | Heard(sent: Sent) | Lost(sent: Sent, k: nat, status: ErrorCode)

  predicate Possible(e: Event) {
    match e
    case Quiet(_) => true
    case Heard(s) => Sendable(s)
    case Lost(s, k, _) => Sendable(s) && 0 < k < |Fragment(s)|
  }

  predicate AllPossible(events: seq<Event>) {
    forall k :: 0 <= k < |events| ==> Possible(events[k])
  }

  function Transfers(e: Event): seq<Read>
    requires Possible(e)
  {
    match e
    case Quiet(status) => [Failure(status)]
    case Heard(s) => Fragment(s)
    case Lost(s, k, status) => Fragment(s)[..k] + [Failure(status)]
  }

  function OnBus(events: seq<Event>): seq<Read>
    requires AllPossible(events)
  {
    if events == [] then [] else Transfers(events[0]) + OnBus(events[1..])
  }

  function Good(events: seq<Event>): seq<Record> {
    if events == [] then []
    else (if events[0].Heard? then Kept(events[0].sent.frame, events[0].sent.sec, events[0].sent.usec) else []) + Good(events[1..])
  }

  // A transfer that fails within a frame costs this frame and nothing else.
  lemma GetLost(s: Sent, k: nat, status: ErrorCode, rest: seq<Read>)
    requires Sendable(s) && 0 < k < |Fragment(s)|
    ensures Get(Fragment(s)[..k] + [Failure(status)] + rest) == Failed(status, rest)
  {
    var transfers := Fragment(s)[..k] + [Failure(status)] + rest;
    assert transfers[0] == Fragment(s)[0] && transfers[k] == Failure(status);
    assert Rest(transfers)[k - 1] == Failure(status);
    assert transfers[k + 1..] == rest;
    if k == 2 {
      assert Rest(Rest(transfers))[0] == Failure(status);
      assert Rest(Rest(Rest(transfers))) == rest;
    } else {
      assert Rest(Rest(transfers)) == rest;
    }
  }

  lemma {:induction false} CaptureIsGood(events: seq<Event>)
    requires AllPossible(events)
    ensures Capture(OnBus(events)) == Good(events)
  {
    if events != [] {
      var rest := OnBus(events[1..]);
      CaptureIsGood(events[1..]);
      match events[0]
      case Quiet(status) =>
        assert Rest([Failure(status)] + rest) == rest;
      case Heard(s) =>
        GetFragment(s, rest);
      case Lost(s, k, status) =>
        GetLost(s, k, status, rest);
    }
  }

  // ------------------------------------------------------------ stray reports

  // Reports that no frame is waiting for: those of a frame that arrive after one of its
  // transfers has failed, or all of a frame too long for the structure.
  predicate AllReceived(strays: seq<Read>) {
    forall i :: 0 <= i < |strays| ==> strays[i].Received?
  }

  // Reports taken for a frame of n bytes.
  function ReportsOf(n: nat): nat {
    if n <= 58 then 1 else if n <= 121 then 2 else 3
  }

  function FrameIn(strays: seq<Read>, n: nat): seq<byte>
    requires n <= 129 && ReportsOf(n) <= |strays| && AllReceived(strays)
  {
    var first := strays[0].report[6..];
    if n <= 58 then first[..n]
    else if n <= 121 then first + strays[1].report[1..1 + n - 58]
    else first + strays[1].report[1..] + strays[2].report[1..1 + n - 121]
  }

  // Read as frames, they come out even, and none of these is accepted.
  predicate Harmless(strays: seq<Read>)
    requires AllReceived(strays)
    decreases |strays|
  {
    strays != [] ==>
      var n := strays[0].report[5];
      if n > 129 then Harmless(strays[1..])
      else
        var k := ReportsOf(n);
        k <= |strays| && !Accepted(FrameIn(strays, n)) && Harmless(strays[k..])
  }

  // A stray report that announces more than 129 bytes is skipped; one that announces a
  // frame starts it.
  lemma GetStray(strays: seq<Read>, rest: seq<Read>)
    requires AllReceived(strays) && strays != []
    ensures var n := strays[0].report[5];
      var g := Get(strays + rest);
      && (n > 129 ==> g == Failed(-3, strays[1..] + rest))
      && (n <= 129 && ReportsOf(n) <= |strays| ==>
            g == Frame(FrameIn(strays, n), strays[0].sec, strays[0].usec, strays[ReportsOf(n)..] + rest))
  {
    var transfers := strays + rest;
    assert Rest(transfers) == strays[1..] + rest;
    if |strays| >= 2 {
      assert Rest(Rest(transfers)) == strays[2..] + rest;
    }
    if |strays| >= 3 {
      assert Rest(Rest(Rest(transfers))) == strays[3..] + rest;
    }
  }

  lemma {:induction false} HarmlessKeeps(strays: seq<Read>, rest: seq<Read>)
    requires AllReceived(strays) && Harmless(strays)
    ensures Capture(strays + rest) == Capture(rest)
    decreases |strays|
  {
    if strays == [] {
      assert strays + rest == rest;
    } else {
      var n := strays[0].report[5];
      GetStray(strays, rest);
      HarmlessKeeps(strays[if n > 129 then 1 else ReportsOf(n)..], rest);
    }
  }

  // A short good frame on the air.
  function Short(): Sent {
    Sent([1, 2, 0x50], [0, 0, 0, 0, 0], seq<byte>(64, _ => 0), 0, 0)
  }

  lemma ShortOnBus()
    ensures AllPossible([Heard(Short())])
    ensures |OnBus([Heard(Short())])| == 1 && AllReceived(OnBus([Heard(Short())]))
    ensures Good([Heard(Short())]) == [Record(0, 0, 3, [1])]
  {
    var events := [Heard(Short())];
    assert OnBus(events) == Fragment(Short()) + OnBus([]);
    assert Short().frame[..1] == [1] && Accepted(Short().frame);
    assert Good(events) == Kept(Short().frame, 0, 0) + Good([]);
  }

  // Transfers that end within a frame, or with one of more than 58 bytes, give no record
  // or one too long.
  lemma CaptureOfLong(transfers: seq<Read>)
    requires AllReceived(transfers) && transfers != []
    requires var n := transfers[0].report[5]; 58 < n <= 129 && |transfers| <= ReportsOf(n)
    ensures Capture(transfers) != [Record(0, 0, 3, [1])]
  {
    var n := transfers[0].report[5];
    if |transfers| < ReportsOf(n) {
      assert |transfers| == 1 ==> Rest(transfers) == [];
      assert |transfers| == 2 ==> Rest(Rest(transfers)) == [];
      assert Get(transfers) == Failed(TIMEOUT, []);
    } else {
      GetStray(transfers, []);
      assert transfers + [] == transfers && transfers[ReportsOf(n)..] + [] == [];
      assert |FrameIn(transfers, n)| == n;
    }
  }

  // Reports that announce a longer frame than they hold take those of the next one.
  lemma NextIsSwallowed(strays: seq<Read>)
    requires AllReceived(strays) && strays != []
    requires var n := strays[0].report[5]; n <= 129 && |strays| < ReportsOf(n)
    ensures AllPossible([Heard(Short())])
    ensures Capture(strays + OnBus([Heard(Short())])) != Good([Heard(Short())])
  {
    ShortOnBus();
    CaptureOfLong(strays + OnBus([Heard(Short())]));
  }

  lemma {:induction false} HarmfulSpoils(strays: seq<Read>) returns (events: seq<Event>)
    requires AllReceived(strays) && !Harmless(strays)
    ensures AllPossible(events) && Capture(strays + OnBus(events)) != Good(events)
    decreases |strays|
  {
    var n := strays[0].report[5];
    if n > 129 {
      events := HarmfulSpoils(strays[1..]);
      GetStray(strays, OnBus(events));
    } else if |strays| < ReportsOf(n) {
      NextIsSwallowed(strays);
      events := [Heard(Short())];
    } else if Accepted(FrameIn(strays, n)) {
      events := [];
      GetStray(strays, OnBus(events));
    } else {
      events := HarmfulSpoils(strays[ReportsOf(n)..]);
      GetStray(strays, OnBus(events));
    }
  }

  ghost predicate Unnoticed(strays: seq<Read>, events: seq<Event>) {
    AllPossible(events) ==> Capture(strays + OnBus(events)) == Good(events)
  }

  // Stray reports go unnoticed, whatever follows them on the air, exactly if they are
  // harmless. Otherwise a frame that was never sent is recorded, or the next ones are
  // lost or garbled.
  lemma StraysUnnoticedIff(strays: seq<Read>)
    requires AllReceived(strays)
    ensures Harmless(strays) <==> forall events :: Unnoticed(strays, events)
  {
    if Harmless(strays) {
      forall events | AllPossible(events)
        ensures Unnoticed(strays, events)
      {
        HarmlessKeeps(strays, OnBus(events));
        CaptureIsGood(events);
      }
    } else {
      var events := HarmfulSpoils(strays);
      assert !Unnoticed(strays, events);
    }
  }

  // For a single one: it announces too much, or all of a frame that is not accepted. At
  // the end of a run it is recorded exactly if it holds an accepted frame.
  lemma OneStray(r: Report, sec: u32, usec: u32)
    ensures Harmless([Received(r, sec, usec)]) <==> r[5] > 129 || (r[5] <= 58 && !Accepted(r[6..6 + r[5]]))
    ensures Capture([Received(r, sec, usec)]) != [] <==> r[5] <= 58 && Accepted(r[6..6 + r[5]])
  {
    var stray := [Received(r, sec, usec)];
    assert stray[1..] == [];
    assert r[5] <= 58 ==> r[6..][..r[5]] == r[6..6 + r[5]];
    assert Rest(stray) == [];
  }

  lemma LateIsStray(s: Sent, k: nat, status: ErrorCode, events: seq<Event>)
    requires Sendable(s) && 0 < k < |Fragment(s)|
    ensures Unnoticed(Fragment(s)[..k] + [Failure(status)] + Fragment(s)[k..], events) <==> Unnoticed(Fragment(s)[k..], events)
  {
    if AllPossible(events) {
      var before, late, rest := Fragment(s)[..k] + [Failure(status)], Fragment(s)[k..], OnBus(events);
      GetLost(s, k, status, late + rest);
      assert before + late + rest == before + (late + rest);
    }
  }

  // A frame of which a transfer fails after k reports, the others arriving late, costs
  // no more than itself exactly if those are harmless.
  lemma LateReportsIff(s: Sent, k: nat, status: ErrorCode)
    requires Sendable(s) && 0 < k < |Fragment(s)|
    ensures AllReceived(Fragment(s)[k..])
    ensures Harmless(Fragment(s)[k..]) <==>
      forall events :: Unnoticed(Fragment(s)[..k] + [Failure(status)] + Fragment(s)[k..], events)
  {
    forall events {
      LateIsStray(s, k, status, events);
    }
    StraysUnnoticedIff(Fragment(s)[k..]);
  }

  // The input: a frame of 70 bytes whose own bytes in the second report look like a good
  // frame of three.
  lemma LateReportMistaken(s: Sent, status: ErrorCode)
    requires Sendable(s) && |s.frame| == 70 && s.frame[62] == 3 && s.frame[65] == 0x50
    ensures var f := Fragment(s);
      && |f| == 2 && !Harmless(f[1..])
      && Capture(f[..1] + [Failure(status)] + f[1..]) == [Record(s.sec, s.usec, 3, [s.frame[63]])]
  {
    var late := Fragment(s)[1];
    var data := s.frame[63..66];
    assert late.report == [s.filler[0]] + s.frame[58..] + s.filler[13..];
    assert late.report[5] == 3 && late.report[6..9] == data && FcsOk(data[2]) && data[..1] == [s.frame[63]];
    OneStray(late.report, s.sec, s.usec);
    assert Fragment(s)[1..] == [late];
    GetLost(s, 1, status, [late]);
    assert Get([late]) == Frame(data, s.sec, s.usec, []);
    assert Capture([late]) == Kept(data, s.sec, s.usec) + Capture([]);
  }

  // From the air through reports, reassembly, filter and file to a reader: exactly
  // the accepted frames, in order.
  lemma ReaderSeesAcceptedFrames(events: seq<Event>)
    requires AllPossible(events)
    ensures ReadFile(FileHeader() + WriteRecords(Capture(OnBus(events)))) == Some(Good(events))
  {
    var rs := Capture(OnBus(events));
    CaptureIsGood(events);
    ReadsAsIff(WriteRecords(rs), rs);
    var file := FileHeader() + WriteRecords(rs);
    assert file[..24] == FileHeader() && file[24..] == WriteRecords(rs);
  }

  // Every record respects the snapshot length the file header announces.
  lemma {:induction false} RecordsFitSnapshot(transfers: seq<Read>, k: nat)
    requires k < |Capture(transfers)|
    ensures |Capture(transfers)[k].data| <= 125 && Capture(transfers)[k].original == |Capture(transfers)[k].data| + 2
    decreases |transfers|
  {
    match Get(transfers)
    case Failed(_, rest) => RecordsFitSnapshot(rest, k);
    case Frame(data, sec, usec, rest) =>
      var n := |Kept(data, sec, usec)|;
      if k >= n {
        RecordsFitSnapshot(rest, k - n);
      }
  }
}

// The program: memory of the packet structure, transfers and writes in order.
module Zena {
  import opened Bytes
  import opened ZenaModel

  // zena_packet_t from packet_len on: an int, 128 bytes of packet, three bytes.
  const PACKET_LEN := 0
  const PACKET := 4
  const RSSI := 132
  const LQI := 133
  const FCS_OK := 134
  const SIZE := 135

  class Sniffer {
    // transfers to come, the packet structure, the output file
    var pending: seq<Read>
    const memory: array<byte>
    var hostSec: u32
    var hostUsec: u32
    var file: seq<byte>
    var npacket: nat

    ghost predicate Valid() {
      memory.Length == SIZE
    }

    // The bytes of the packet from its start.
    ghost function Packet(n: nat): seq<byte>
      reads memory
      requires Valid() && n <= 129
    {
      memory[PACKET..PACKET + n]
    }

    // The structure describes this frame.
    ghost predicate Describes(data: seq<byte>)
      reads memory
      requires Valid() && |data| <= 129
    {
      var n := |data|;
      && memory[..PACKET] == Le32((n - 2) % 0x1_0000_0000)
      && (n <= 128 ==> Packet(n) == data)
      && (2 <= n <= 128 ==>
        && memory[RSSI] == data[n - 2]
        && memory[LQI] == data[n - 1] % 0x80
        && memory[FCS_OK] == if FcsOk(data[n - 1]) then 1 else 0)
    }

    // The state after zena_get_packet has returned `status` for `g`.
    ghost predicate Took(g: Got, status: int)
      reads this, memory
      requires Valid() && (g.Frame? ==> |g.data| <= 129)
    {
      && pending == g.rest
      && status == (if g.Failed? then g.status else 0)
      && (g.Frame? ==> hostSec == g.sec && hostUsec == g.usec && Describes(g.data))
    }

    // In the terms of the frame's bytes: length without the two status bytes, signal
    // strength, link quality in seven bits, checksum mark.
    lemma DescribesMeans(data: seq<byte>)
      requires Valid() && 2 <= |data| <= 128 && Describes(data)
      ensures FromLe32(memory[..PACKET]) == |data| - 2
      ensures memory[PACKET..PACKET + |data|] == data && memory[RSSI] == data[|data| - 2]
      ensures memory[LQI] < 128 && data[|data| - 1] == memory[LQI] + if data[|data| - 1] >= 128 then 128 else 0
      ensures memory[FCS_OK] == if (data[|data| - 1] as bv8) & 80 != 0 then 1 else 0
    {
      Le32RoundTrip(|data| - 2);
    }

    constructor (pending: seq<Read>)
      ensures Valid() && fresh(memory) && this.pending == pending && file == FileHeader()
    {
      this.pending := pending;
      memory := new byte[SIZE](_ => 0);
      hostSec, hostUsec := 0, 0;
      file := FileHeader();
      npacket := 0;
    }

    method InterruptTransfer() returns (r: Read)
      modifies this`pending
      ensures r == Next(old(pending)) && pending == Rest(old(pending))
    {
      r := if pending == [] then Failure(TIMEOUT) else pending[0];
      pending := if pending == [] then [] else pending[1..];
    }

    method Memcpy(at: nat, bytes: seq<byte>)
      requires at + |bytes| <= memory.Length
      modifies memory
      ensures forall k :: 0 <= k < memory.Length ==>
        memory[k] == if at <= k < at + |bytes| then bytes[k - at] else old(memory[k])
    {
      for i := 0 to |bytes|
        invariant forall k :: 0 <= k < memory.Length ==>
          memory[k] == if at <= k < at + i then bytes[k - at] else old(memory[k])
      {
        memory[at + i] := bytes[i];
      }
    }

    // memcpy behind the first n bytes of the packet
    method MemcpyPacket(n: nat, bytes: seq<byte>)
      requires Valid() && n + |bytes| <= 129
      modifies memory
      ensures Packet(n + |bytes|) == old(Packet(n)) + bytes
    {
      Memcpy(PACKET + n, bytes);
    }

    // Every length up to 129 stays inside the structure: 0 and 1 look at the bytes in
    // front of the packet, 129 writes one byte behind it.
    method GetPacket() returns (status: int)
      requires Valid()
      modifies this`pending, this`hostSec, this`hostUsec, memory
      ensures Took(Get(old(pending)), status)
    {
      var r := InterruptTransfer();
      if r.Failure? {
        return if r.status == TIMEOUT then TIMEOUT else -2;
      }
      hostSec, hostUsec := r.sec, r.usec;
      var usbbuf := r.report;
      var dataLen := usbbuf[5];
      if dataLen > 129 {
        return -3;
      }
      status := CopyPacket(usbbuf, dataLen);
      if status == 0 {
        Describe(dataLen);
      }
    }

    method CopyPacket(usbbuf: Report, dataLen: int) returns (status: int)
      requires Valid() && 0 <= dataLen <= 129
      modifies this`pending, memory
      ensures var g := Assemble(usbbuf, dataLen, hostSec, hostUsec, old(pending));
        && pending == g.rest
        && status == (if g.Failed? then g.status else 0)
        && (g.Frame? ==> Packet(dataLen) == g.data)
    {
      if dataLen <= 58 {
        MemcpyPacket(0, usbbuf[6..6 + dataLen]);
        status := 0;
      } else {
        MemcpyPacket(0, usbbuf[6..64]);
        assert usbbuf[6..64] == usbbuf[6..];
        status := GetRemainder(dataLen);
      }
    }

    // The second and third part of a long packet.
    method GetRemainder(dataLen: int) returns (status: int)
      requires Valid() && 58 < dataLen <= 129
      modifies this`pending, memory
      ensures var g := GetSecond(old(Packet(58)), dataLen, hostSec, hostUsec, old(pending));
        && pending == g.rest
        && status == (if g.Failed? then g.status else 0)
        && (g.Frame? ==> Packet(dataLen) == g.data)
    {
      var r := InterruptTransfer();
      if r.Failure? {
        return r.status;
      }
      var usbbuf := r.report;
      var bytesRemaining := dataLen - 58;
      if bytesRemaining <= 63 {
        MemcpyPacket(58, usbbuf[1..1 + bytesRemaining]);
      } else {
        MemcpyPacket(58, usbbuf[1..64]);
        assert usbbuf[1..64] == usbbuf[1..];
        bytesRemaining := bytesRemaining - 63;
        r := InterruptTransfer();
        if r.Failure? {
          return r.status;
        }
        usbbuf := r.report;
        MemcpyPacket(58 + 63, usbbuf[1..1 + bytesRemaining]);
      }
      status := 0;
    }

    // The end of zena_get_packet, after the copies.
    method Describe(dataLen: nat)
      requires Valid() && dataLen <= 129
      modifies memory
      ensures Describes(old(Packet(dataLen)))
    {
      memory[RSSI] := memory[PACKET + dataLen - 2];
      memory[LQI] := memory[PACKET + dataLen - 1] % 0x80;
      memory[FCS_OK] := if FcsOk(memory[PACKET + dataLen - 1]) then 1 else 0;
      Memcpy(PACKET_LEN, Le32((dataLen - 2) % 0x1_0000_0000));
    }

    method Fwrite(bytes: seq<byte>)
      modifies this`file
      ensures file == old(file) + bytes
    {
      file := file + bytes;
    }

    // One turn of main's loop, with bad packets dropped.
    method CapturePacket()
      requires Valid()
      modifies this, memory
      ensures pending == Get(old(pending)).rest
      ensures var g := Get(old(pending));
        var rs := if g.Frame? then Kept(g.data, g.sec, g.usec) else [];
        file == old(file) + WriteRecords(rs) && npacket == old(npacket) + |rs|
    {
      var status := GetPacket();
      if status != 0 {
        return;
      }
      ghost var data := Get(old(pending)).data;
      // packet_len &= 0xff
      var packetLen: int := memory[PACKET_LEN];
      MaskedLength(|data|);
      if packetLen > 125 {
        return;
      }
      if memory[FCS_OK] == 0 {
        return;
      }
      npacket := npacket + 1;
      assert Packet(|data|) == data && packetLen == |data| - 2;
      assert Packet(packetLen) == Packet(|data|)[..packetLen];
      WritePacket(packetLen);
    }

    // The record of a good packet.
    method WritePacket(packetLen: int)
      requires Valid() && 0 <= packetLen <= 125
      modifies this`file
      ensures file == old(file) + WriteRecords([Record(hostSec, hostUsec, packetLen + 2, Packet(packetLen))])
    {
      Fwrite(Le32(hostSec));
      Fwrite(Le32(hostUsec));
      Fwrite(Le32(packetLen));
      Fwrite(Le32(packetLen + 2));
      Fwrite(memory[PACKET..PACKET + packetLen]);
      OneRecord(Record(hostSec, hostUsec, packetLen + 2, Packet(packetLen)), old(file));
    }

    // main's loop, until the device has nothing more.
    method CaptureAll()
      requires Valid()
      modifies this, memory
      ensures file == old(file) + WriteRecords(Capture(old(pending)))
      ensures npacket == old(npacket) + |Capture(old(pending))|
    {
      ghost var rs, start := [], file;
      while pending != []
        invariant forall k :: 0 <= k < |rs| ==> Storable(rs[k])
        invariant rs + Capture(pending) == Capture(old(pending))
        invariant file == start + WriteRecords(rs) && npacket == old(npacket) + |rs|
        decreases |pending|
      {
        ghost var before := pending;
        ghost var g := Get(pending);
        ghost var more := if g.Frame? then Kept(g.data, g.sec, g.usec) else [];
        CapturePacket();
        CaptureStep(before, rs);
        FileAppend(start, rs, more);
        rs := rs + more;
      }
      assert rs + Capture(pending) == rs;
    }
  }

  lemma CaptureStep(pending: seq<Read>, rs: seq<Record>)
    requires pending != []
    ensures var g := Get(pending);
      rs + Capture(pending) == rs + (if g.Frame? then Kept(g.data, g.sec, g.usec) else []) + Capture(g.rest)
  {
  }

  // Which lengths the mask and the bound let through: 2 to 127.
  lemma MaskedLength(n: nat)
    requires n <= 129
    ensures var low: int := Le32((n - 2) % 0x1_0000_0000)[0];
      && (low <= 125 <==> 2 <= n <= 127)
      && (low <= 125 ==> low == n - 2)
  {
  }

  lemma OneRecord(r: Record, file: seq<byte>)
    requires Storable(r)
    ensures file + Le32(r.sec) + Le32(r.usec) + Le32(|r.data|) + Le32(r.original) + r.data == file + WriteRecords([r])
  {
    assert WriteRecords([r]) == WriteRecord(r) + WriteRecords([]);
  }

  lemma {:induction false} WriteRecordsAppend(a: seq<Record>, b: seq<Record>)
    requires forall k :: 0 <= k < |a| ==> Storable(a[k])
    requires forall k :: 0 <= k < |b| ==> Storable(b[k])
    ensures WriteRecords(a + b) == WriteRecords(a) + WriteRecords(b)
  {
    if a == [] {
      assert a + b == b;
    } else {
      WriteRecordsAppend(a[1..], b);
      assert (a + b)[1..] == a[1..] + b;
      Associative(WriteRecord(a[0]), WriteRecords(a[1..]), WriteRecords(b));
    }
  }

  lemma FileAppend(file: seq<byte>, a: seq<Record>, b: seq<Record>)
    requires forall k :: 0 <= k < |a| ==> Storable(a[k])
    requires forall k :: 0 <= k < |b| ==> Storable(b[k])
    ensures file + WriteRecords(a) + WriteRecords(b) == file + WriteRecords(a + b)
  {
    WriteRecordsAppend(a, b);
    Associative(file, WriteRecords(a), WriteRecords(b));
  }
}
