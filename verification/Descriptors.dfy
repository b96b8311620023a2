// PyUSB's descriptor tree (core.py) and the search through it (util.find_descriptor).

module Descriptors {
  import opened Bytes

  datatype Interface = Interface(number: int, alternate: int, addresses: seq<int>)

  // interfaces[i][alt]
  datatype Configuration = Configuration(value: int, interfaces: seq<seq<Interface>>)

  // Logical indices of an interface, one of its alternate settings, and an endpoint.
  datatype Pos = Pos(i: nat, alt: nat, k: nat)

  // Which interface descriptors the backend can read at the moment.
  type Readable = (nat, nat) -> bool

  // What is looked for in an interface: the index of a matching part, if any.
  type Probe = Interface -> Option<nat>

  function IndexOf(s: seq<int>, x: int): (r: Option<nat>)
    ensures r.Some? <==> x in s
    ensures r.Some? ==> r.value < |s| && s[r.value] == x && x !in s[..r.value]
  {
    if s == [] then None
    else if s[0] == x then Some(0)
    else match IndexOf(s[1..], x)
         case None => None
         case Some(k) => Some(k + 1)
  }

  // find_descriptor(intf, bEndpointAddress=address)
  function EndpointProbe(address: int): Probe {
    (intf: Interface) => IndexOf(intf.addresses, address)
  }

  // bInterfaceNumber=number and, if given, bAlternateSetting=alternate
  function InterfaceProbe(number: int, alternate: Option<int>): Probe {
    (intf: Interface) =>
      if intf.number == number && (alternate.None? || intf.alternate == alternate.value) then Some(0) else None
  }

  // The first match among the alternate settings of interface i, from `alt` on.
  // Reading them stops at the first one that cannot be read, past the end or not.
  function SearchAlts(alts: seq<Interface>, probe: Probe, i: nat, alt: nat, readable: Readable): Option<Pos>
    decreases |alts| - alt
  {
    if alt >= |alts| || !readable(i, alt) then None
    else match probe(alts[alt])
         case Some(k) => Some(Pos(i, alt, k))
         case None => SearchAlts(alts, probe, i, alt + 1, readable)
  }

  // The first match in Configuration.__iter__ order, from interface i on.
  function SearchFrom(cfg: Configuration, probe: Probe, i: nat, readable: Readable): Option<Pos>
    decreases |cfg.interfaces| - i
  {
    if i >= |cfg.interfaces| then None
    else match SearchAlts(cfg.interfaces[i], probe, i, 0, readable)
         case Some(p) => Some(p)
         case None => SearchFrom(cfg, probe, i + 1, readable)
  }

  function Search(cfg: Configuration, probe: Probe, readable: Readable): Option<Pos> {
    SearchFrom(cfg, probe, 0, readable)
  }

  function AllReadable(): Readable {
    (i: nat, alt: nat) => true
  }

  // What a fresh search finds if every descriptor can be read.
  function FirstMatch(cfg: Configuration, probe: Probe): Option<Pos> {
    Search(cfg, probe, AllReadable())
  }

  predicate InTree(cfg: Configuration, p: Pos) {
    p.i < |cfg.interfaces| && p.alt < |cfg.interfaces[p.i]|
  }

  predicate Before(p: Pos, q: Pos) {
    p.i < q.i || (p.i == q.i && p.alt < q.alt)
  }

  predicate IsMatch(cfg: Configuration, probe: Probe, p: Pos) {
    InTree(cfg, p) && probe(cfg.interfaces[p.i][p.alt]) == Some(p.k)
  }

  // The match at p, and none before it.
  ghost predicate IsFirst(cfg: Configuration, probe: Probe, p: Pos) {
    && IsMatch(cfg, probe, p)
    && forall q :: InTree(cfg, q) && Before(q, p) ==> probe(cfg.interfaces[q.i][q.alt]) == None
  }

  // --------------------------------------------------- the search is exact

  lemma {:induction false} SearchAltsFirst(alts: seq<Interface>, probe: Probe, i: nat, alt: nat, readable: Readable)
    ensures match SearchAlts(alts, probe, i, alt, readable)
      case Some(p) =>
        && p.i == i && alt <= p.alt < |alts| && probe(alts[p.alt]) == Some(p.k)
        && (forall a :: alt <= a < p.alt ==> probe(alts[a]) == None)
        && (forall a :: alt <= a <= p.alt ==> readable(i, a))
      case None =>
        forall a :: alt <= a < |alts| && probe(alts[a]).Some? ==> exists b :: alt <= b <= a && !readable(i, b)
    decreases |alts| - alt
  {
    if alt < |alts| && readable(i, alt) && probe(alts[alt]).None? {
      SearchAltsFirst(alts, probe, i, alt + 1, readable);
    }
  }

  lemma {:induction false} SearchFromFirst(cfg: Configuration, probe: Probe, i: nat)
    ensures match SearchFrom(cfg, probe, i, AllReadable())
      case Some(p) =>
        && p.i >= i && InTree(cfg, p) && probe(cfg.interfaces[p.i][p.alt]) == Some(p.k)
        && forall q :: InTree(cfg, q) && q.i >= i && Before(q, p) ==> probe(cfg.interfaces[q.i][q.alt]) == None
      case None =>
        forall q :: InTree(cfg, q) && q.i >= i ==> probe(cfg.interfaces[q.i][q.alt]) == None
    decreases |cfg.interfaces| - i
  {
    if i < |cfg.interfaces| {
      SearchAltsFirst(cfg.interfaces[i], probe, i, 0, AllReadable());
      SearchFromFirst(cfg, probe, i + 1);
    }
  }

  // The search finds a match exactly if it is the first one.
  lemma FirstMatchIsFirst(cfg: Configuration, probe: Probe, p: Pos)
    ensures FirstMatch(cfg, probe) == Some(p) <==> IsFirst(cfg, probe, p)
  {
    SearchFromFirst(cfg, probe, 0);
    if IsFirst(cfg, probe, p) {
      var q := FirstMatch(cfg, probe).value;
      assert Before(p, q) || Before(q, p) || p == q;
    }
  }

  // ------------------------------------------ descriptor reads that fail

  predicate ReadableUpTo(p: Pos, readable: Readable) {
    forall alt :: 0 <= alt <= p.alt ==> readable(p.i, alt)
  }

  // Configuration.__iter__ takes a failed read for the end of the alternate
  // settings. The search then still finds the first match exactly if the alternate
  // settings of its interface could be read up to it.
  lemma SearchUnderFaults(cfg: Configuration, probe: Probe, readable: Readable, p: Pos)
    requires FirstMatch(cfg, probe) == Some(p)
    ensures Search(cfg, probe, readable) == Some(p) <==> ReadableUpTo(p, readable)
  {
    FirstMatchIsFirst(cfg, probe, p);
    SearchFromUnderFaults(cfg, probe, readable, p, 0);
  }

  lemma {:induction false} SearchFromUnderFaults(cfg: Configuration, probe: Probe, readable: Readable, p: Pos, i: nat)
    requires IsFirst(cfg, probe, p) && i <= p.i
    ensures SearchFrom(cfg, probe, i, readable) == Some(p) <==> ReadableUpTo(p, readable)
    decreases p.i - i
  {
    SearchAltsFirst(cfg.interfaces[i], probe, i, 0, readable);
    if i < p.i {
      assert forall a :: 0 <= a < |cfg.interfaces[i]| ==> InTree(cfg, Pos(i, a, 0)) && Before(Pos(i, a, 0), p);
      SearchFromUnderFaults(cfg, probe, readable, p, i + 1);
    } else {
      assert forall a :: 0 <= a < p.alt ==> InTree(cfg, Pos(i, a, 0)) && Before(Pos(i, a, 0), p);
      SearchFromLater(cfg, probe, readable, i + 1);
    }
  }

  lemma {:induction false} SearchFromLater(cfg: Configuration, probe: Probe, readable: Readable, i: nat)
    ensures var r := SearchFrom(cfg, probe, i, readable);
      r.Some? ==> r.value.i >= i && IsMatch(cfg, probe, r.value)
    decreases |cfg.interfaces| - i
  {
    if i < |cfg.interfaces| {
      SearchAltsFirst(cfg.interfaces[i], probe, i, 0, readable);
      SearchFromLater(cfg, probe, readable, i + 1);
    }
  }

  // A search under faults that finds nothing wrong if there is nothing to find.
  lemma NothingToFind(cfg: Configuration, probe: Probe, readable: Readable)
    requires FirstMatch(cfg, probe).None?
    ensures Search(cfg, probe, readable).None?
  {
    SearchFromFirst(cfg, probe, 0);
    SearchFromLater(cfg, probe, readable, 0);
  }

  // Two interfaces share an endpoint address in different alternate settings;
  // while the first cannot be read, the search answers with the second.
  lemma FaultHidesFirst()
    ensures exists cfg: Configuration, readable: Readable, address: int ::
      && FirstMatch(cfg, EndpointProbe(address)) == Some(Pos(0, 1, 0))
      && Search(cfg, EndpointProbe(address), readable) == Some(Pos(1, 0, 0))
  {
    var a, b, c := Interface(0, 0, []), Interface(0, 1, [0x81]), Interface(1, 0, [0x81]);
    var cfg := Configuration(1, [[a, b], [c]]);
    var readable: Readable := (i: nat, alt: nat) => i != 0 || alt != 1;
    var probe := EndpointProbe(0x81);
    assert probe(a) == None && probe(b) == Some(0) && probe(c) == Some(0);
    assert SearchAlts([a, b], probe, 0, 1, AllReadable()) == Some(Pos(0, 1, 0));
    assert SearchAlts([a, b], probe, 0, 1, readable) == None;
    assert SearchFrom(cfg, probe, 1, readable) == Some(Pos(1, 0, 0));
    assert FirstMatch(cfg, EndpointProbe(0x81)) == Some(Pos(0, 1, 0));
    assert Search(cfg, EndpointProbe(0x81), readable) == Some(Pos(1, 0, 0));
  }

  // What a search finds in terms of the descriptors, without the probes.
  predicate HasAddress(cfg: Configuration, p: Pos, address: int) {
    InTree(cfg, p) && p.k < |cfg.interfaces[p.i][p.alt].addresses| && cfg.interfaces[p.i][p.alt].addresses[p.k] == address
  }

  predicate AddressNowhere(cfg: Configuration, address: int) {
    forall i, alt :: 0 <= i < |cfg.interfaces| && 0 <= alt < |cfg.interfaces[i]| ==>
      address !in cfg.interfaces[i][alt].addresses
  }

  lemma EndpointFound(cfg: Configuration, address: int, readable: Readable)
    ensures match Search(cfg, EndpointProbe(address), readable)
      case Some(p) =>
        HasAddress(cfg, p, address) && address !in cfg.interfaces[p.i][p.alt].addresses[..p.k]
      case None =>
        (forall i, alt :: readable(i, alt)) ==> AddressNowhere(cfg, address)
  {
    var probe := EndpointProbe(address);
    SearchFromLater(cfg, probe, readable, 0);
    if Search(cfg, probe, readable).None? && forall i, alt :: readable(i, alt) {
      NoneIsNowhere(cfg, probe, readable);
      forall i, alt | 0 <= i < |cfg.interfaces| && 0 <= alt < |cfg.interfaces[i]|
        ensures address !in cfg.interfaces[i][alt].addresses
      {
        assert InTree(cfg, Pos(i, alt, 0));
        assert probe(cfg.interfaces[i][alt]) == None;
      }
    }
  }

  lemma NoneIsNowhere(cfg: Configuration, probe: Probe, readable: Readable)
    requires Search(cfg, probe, readable).None? && forall i, alt :: readable(i, alt)
    ensures forall q :: InTree(cfg, q) ==> probe(cfg.interfaces[q.i][q.alt]) == None
  {
    var first := FirstMatch(cfg, probe);
    if first.Some? {
      SearchUnderFaults(cfg, probe, readable, first.value);
    }
    SearchFromFirst(cfg, probe, 0);
  }

  predicate HasNumber(f: Interface, number: int, alternate: Option<int>) {
    f.number == number && (alternate.Some? ==> f.alternate == alternate.value)
  }

  predicate NumberNowhere(cfg: Configuration, number: int, alternate: Option<int>) {
    forall i, alt :: 0 <= i < |cfg.interfaces| && 0 <= alt < |cfg.interfaces[i]| ==>
      !HasNumber(cfg.interfaces[i][alt], number, alternate)
  }

  lemma InterfaceFound(cfg: Configuration, number: int, alternate: Option<int>, readable: Readable)
    ensures match Search(cfg, InterfaceProbe(number, alternate), readable)
      case Some(p) => InTree(cfg, p) && HasNumber(cfg.interfaces[p.i][p.alt], number, alternate)
      case None =>
        (forall i, alt :: readable(i, alt)) ==> NumberNowhere(cfg, number, alternate)
  {
    var probe := InterfaceProbe(number, alternate);
    SearchFromLater(cfg, probe, readable, 0);
    if Search(cfg, probe, readable).None? && forall i, alt :: readable(i, alt) {
      NoneIsNowhere(cfg, probe, readable);
      forall i, alt | 0 <= i < |cfg.interfaces| && 0 <= alt < |cfg.interfaces[i]|
        ensures !HasNumber(cfg.interfaces[i][alt], number, alternate)
      {
        assert InTree(cfg, Pos(i, alt, 0));
        assert probe(cfg.interfaces[i][alt]) == None;
      }
    }
  }

  // ----------------------------------------------------- configurations

  // find_descriptor(device, bConfigurationValue=value)
  function FindConfiguration(configs: seq<Configuration>, value: int): (r: Option<nat>)
    ensures r.Some? ==> r.value < |configs| && configs[r.value].value == value
    ensures r.Some? ==> forall j :: 0 <= j < r.value ==> configs[j].value != value
    ensures r.None? ==> forall j :: 0 <= j < |configs| ==> configs[j].value != value
  {
    if configs == [] then None
    else if configs[0].value == value then Some(0)
    else match FindConfiguration(configs[1..], value)
         case None => None
         case Some(k) => Some(k + 1)
  }
}
