// PyUSB's _ResourceManager (core.py): device handle, claimed interfaces, cached
// active configuration and endpoint cache, against a backend whose calls may fail.

module BackendProtocol {
  import opened Bytes

  type Handle = nat

  // Backend calls that use the device, with their outcome.
  datatype Call =
    | Open(ok: bool, h: Handle)
    | Close(h: Handle, ok: bool)
    | SetConfig(h: Handle, value: int, ok: bool)
    | GetConfig(h: Handle, ok: bool)
    | Claim(h: Handle, intf: int, ok: bool)
    | Release(h: Handle, intf: int, ok: bool)
    | SetAlt(h: Handle, intf: int, alt: int, ok: bool)
    | Reset(h: Handle, ok: bool)
    | Other(h: Handle, ok: bool)

  // The open handle, and the interfaces on record as claimed.
  datatype Session = Session(handle: Option<Handle>, claimed: set<int>)

  // A call is in order if it uses the open handle, opens none while one is open,
  // claims nothing on record, releases only what is, and closes with nothing claimed.
  predicate InOrder(s: Session, c: Call) {
    match c
    case Open(_, _) => s.handle.None?
    case Close(h, _) => s.handle == Some(h) && s.claimed == {}
    case Claim(h, i, _) => s.handle == Some(h) && i !in s.claimed
    case Release(h, i, _) => s.handle == Some(h) && i in s.claimed
    case _ => s.handle == Some(c.h)
  }

  function After(s: Session, c: Call): Session {
    match c
    case Open(ok, h) => if ok then s.(handle := Some(h)) else s
    case Close(h, ok) => if ok then s.(handle := None) else s
    case Claim(_, i, ok) => if ok then s.(claimed := s.claimed + {i}) else s
    case Release(_, i, _) => s.(claimed := s.claimed - {i})
    case _ => s
  }

  function Replay(log: seq<Call>): Session
    decreases |log|
  {
    if log == [] then Session(None, {}) else After(Replay(log[..|log| - 1]), log[|log| - 1])
  }

  // Every call of the log was in order when it was made.
  predicate Proper(log: seq<Call>) {
    forall k :: 0 <= k < |log| ==> InOrder(Replay(log[..k]), log[k])
  }

  lemma Extend(log: seq<Call>, c: Call)
    ensures Replay(log + [c]) == After(Replay(log), c)
    ensures Proper(log + [c]) <==> Proper(log) && InOrder(Replay(log), c)
  {
    var all := log + [c];
    assert all[..|log|] == log;
    assert forall k :: 0 <= k < |log| ==> all[..k] == log[..k] && all[k] == log[k];
    if Proper(all) {
      forall k | 0 <= k < |log| ensures InOrder(Replay(log[..k]), log[k]) {
        assert InOrder(Replay(all[..k]), all[k]);
      }
    }
  }

  predicate Opens(c: Call, h: Handle) { c.Open? && c.ok && c.h == h }
  predicate Closes(c: Call, h: Handle) { c.Close? && c.ok && c.h == h }
  predicate Claims(c: Call, i: int) { c.Claim? && c.ok && c.intf == i }
  predicate Releases(c: Call, i: int) { c.Release? && c.intf == i }

  // Call a opened h, and h has not been closed since.
  ghost predicate HeldSince(log: seq<Call>, h: Handle, a: int) {
    0 <= a < |log| && Opens(log[a], h) && forall b :: a < b < |log| ==> !Closes(log[b], h)
  }

  // A handle is open after a log exactly if it was opened and not closed since.
  lemma HandleOpen(log: seq<Call>, h: Handle)
    requires Proper(log)
    ensures Replay(log).handle == Some(h) <==> exists a :: HeldSince(log, h, a)
  {
    if Replay(log).handle == Some(h) { OpenedBefore(log, h); }
    if a :| HeldSince(log, h, a) { StaysOpen(log, h, a); }
  }

  lemma ProperPrefix(log: seq<Call>, k: nat)
    requires Proper(log) && k <= |log|
    ensures Proper(log[..k])
  {
    forall j | 0 <= j < k ensures InOrder(Replay(log[..k][..j]), log[..k][j]) {
      assert log[..k][..j] == log[..j];
      assert InOrder(Replay(log[..j]), log[j]);
    }
  }

  lemma {:induction false} OpenedBefore(log: seq<Call>, h: Handle)
    requires Replay(log).handle == Some(h)
    ensures exists a :: HeldSince(log, h, a)
    decreases |log|
  {
    var n := |log| - 1;
    if Opens(log[n], h) {
      assert HeldSince(log, h, n);
    } else {
      OpenedBefore(log[..n], h);
      var a :| HeldSince(log[..n], h, a);
      assert HeldSince(log, h, a);
    }
  }

  lemma {:induction false} StaysOpen(log: seq<Call>, h: Handle, a: int)
    requires Proper(log) && HeldSince(log, h, a)
    ensures Replay(log).handle == Some(h)
    decreases |log|
  {
    var n := |log| - 1;
    assert InOrder(Replay(log[..n]), log[n]);
    if a < n {
      ProperPrefix(log, n);
      assert HeldSince(log[..n], h, a);
      StaysOpen(log[..n], h, a);
    }
  }

  // Call a claimed interface i, and no release of i was tried since.
  ghost predicate ClaimedSince(log: seq<Call>, i: int, a: int) {
    0 <= a < |log| && Claims(log[a], i) && forall b :: a < b < |log| ==> !Releases(log[b], i)
  }

  // An interface is on record exactly if it was claimed and no release tried since.
  lemma InterfaceClaimed(log: seq<Call>, i: int)
    ensures i in Replay(log).claimed <==> exists a :: ClaimedSince(log, i, a)
  {
    if i in Replay(log).claimed { ClaimedBefore(log, i); }
    if a :| ClaimedSince(log, i, a) { StaysClaimed(log, i, a); }
  }

  lemma {:induction false} ClaimedBefore(log: seq<Call>, i: int)
    requires i in Replay(log).claimed
    ensures exists a :: ClaimedSince(log, i, a)
    decreases |log|
  {
    var n := |log| - 1;
    if Claims(log[n], i) {
      assert ClaimedSince(log, i, n);
    } else {
      ClaimedBefore(log[..n], i);
      var a :| ClaimedSince(log[..n], i, a);
      assert ClaimedSince(log, i, a);
    }
  }

  lemma {:induction false} StaysClaimed(log: seq<Call>, i: int, a: int)
    requires ClaimedSince(log, i, a)
    ensures i in Replay(log).claimed
    decreases |log|
  {
    var n := |log| - 1;
    if a < n {
      assert ClaimedSince(log[..n], i, a);
      StaysClaimed(log[..n], i, a);
    }
  }

  // In a proper log two successful claims of an interface have a release between
  // them, and a release has a claim before it not released since.
  lemma ClaimsAlternate(log: seq<Call>, a: nat, b: nat, i: int)
    requires Proper(log) && a < b < |log| && Claims(log[a], i) && Claims(log[b], i)
    ensures exists r :: a < r < b && Releases(log[r], i)
  {
    InterfaceClaimed(log[..b], i);
    assert InOrder(Replay(log[..b]), log[b]);
    if forall r :: a < r < b ==> !Releases(log[r], i) {
      assert ClaimedSince(log[..b], i, a);
    }
  }

  lemma ReleaseAfterClaim(log: seq<Call>, b: nat, i: int)
    requires Proper(log) && b < |log| && Releases(log[b], i)
    ensures exists a :: ClaimedSince(log[..b], i, a)
  {
    InterfaceClaimed(log[..b], i);
    assert InOrder(Replay(log[..b]), log[b]);
  }

  // In a proper log two successful opens have a successful close between them, and a
  // handle is closed with nothing claimed.
  lemma OpensAlternate(log: seq<Call>, a: nat, b: nat, h: Handle)
    requires Proper(log) && a < b < |log| && Opens(log[a], h) && log[b].Open?
    ensures exists c :: a < c < b && Closes(log[c], h)
  {
    if forall c :: a < c < b ==> !Closes(log[c], h) {
      ProperPrefix(log, b);
      assert InOrder(Replay(log[..b]), log[b]);
      assert HeldSince(log[..b], h, a);
      StaysOpen(log[..b], h, a);
    }
  }

  lemma ClosedUnclaimed(log: seq<Call>, a: nat, b: nat, i: int)
    requires Proper(log) && a < b < |log| && Claims(log[a], i) && log[b].Close?
    ensures exists r :: a < r < b && Releases(log[r], i)
  {
    InterfaceClaimed(log[..b], i);
    assert InOrder(Replay(log[..b]), log[b]);
    if forall r :: a < r < b ==> !Releases(log[r], i) {
      assert ClaimedSince(log[..b], i, a);
    }
  }

  // Every call but an opening one uses a handle opened before and not closed since.
  lemma HandleInUse(log: seq<Call>, k: nat)
    requires Proper(log) && k < |log| && !log[k].Open?
    ensures exists a :: HeldSince(log[..k], log[k].h, a)
  {
    ProperPrefix(log, k);
    assert InOrder(Replay(log[..k]), log[k]);
    HandleOpen(log[..k], log[k].h);
  }
}

module ResourceManager {
  import opened Bytes
  import opened Descriptors
  import opened BackendProtocol

  datatype Error = USBError | ValueError | IndexError | TypeError

  datatype Result<+T> = Ok(value: T) | Raised(error: Error)

  // The operating system's side. Call number k raises USBError if fails(k), and
  // has then had no effect on the device; a reset may change its configuration.
  class Backend {
    const configs: seq<Configuration>
    const fails: nat -> bool
    const afterReset: nat -> int
    var calls: nat
    var current: int        // the device's bConfigurationValue
    var claims: set<int>    // interfaces claimed through the open handle
    var handles: nat
    ghost var log: seq<Call>

    constructor (configs: seq<Configuration>, fails: nat -> bool, afterReset: nat -> int, current: int)
      ensures this.configs == configs && this.fails == fails && this.current == current
      ensures calls == 0 && claims == {} && log == []
    {
      this.configs, this.fails, this.afterReset, this.current := configs, fails, afterReset, current;
      calls, claims, handles := 0, {}, 0;
      log := [];
    }

    ghost predicate Faultless()
      reads this
    {
      forall k :: 0 <= k < calls ==> !fails(k)
    }

    method Open() returns (ok: bool, h: Handle)
      modifies this
      ensures calls == old(calls) + 1 && ok == !fails(old(calls)) && log == old(log) + [Call.Open(ok, h)]
      ensures current == old(current) && claims == old(claims)
    {
      ok, h, calls, handles := !fails(calls), handles, calls + 1, handles + 1;
      log := log + [Call.Open(ok, h)];
    }

    method Close(h: Handle) returns (ok: bool)
      modifies this
      ensures calls == old(calls) + 1 && ok == !fails(old(calls)) && log == old(log) + [Call.Close(h, ok)]
      ensures current == old(current) && claims == if ok then {} else old(claims)
    {
      ok, calls := !fails(calls), calls + 1;
      if ok { claims := {}; }
      log := log + [Call.Close(h, ok)];
    }

    method SetConfiguration(h: Handle, value: int) returns (ok: bool)
      modifies this
      ensures calls == old(calls) + 1 && ok == !fails(old(calls)) && log == old(log) + [SetConfig(h, value, ok)]
      ensures claims == old(claims) && current == if ok then value else old(current)
    {
      ok, calls := !fails(calls), calls + 1;
      if ok { current := value; }
      log := log + [SetConfig(h, value, ok)];
    }

    method GetConfiguration(h: Handle) returns (ok: bool, value: int)
      modifies this
      ensures calls == old(calls) + 1 && ok == !fails(old(calls)) && log == old(log) + [GetConfig(h, ok)]
      ensures claims == old(claims) && current == old(current) && value == current
    {
      ok, value, calls := !fails(calls), current, calls + 1;
      log := log + [GetConfig(h, ok)];
    }

    method ClaimInterface(h: Handle, i: int) returns (ok: bool)
      modifies this
      ensures calls == old(calls) + 1 && ok == !fails(old(calls)) && log == old(log) + [Claim(h, i, ok)]
      ensures current == old(current) && claims == if ok then old(claims) + {i} else old(claims)
    {
      ok, calls := !fails(calls), calls + 1;
      if ok { claims := claims + {i}; }
      log := log + [Claim(h, i, ok)];
    }

    method ReleaseInterface(h: Handle, i: int) returns (ok: bool)
      modifies this
      ensures calls == old(calls) + 1 && ok == !fails(old(calls)) && log == old(log) + [Release(h, i, ok)]
      ensures current == old(current) && claims == if ok then old(claims) - {i} else old(claims)
    {
      ok, calls := !fails(calls), calls + 1;
      if ok { claims := claims - {i}; }
      log := log + [Release(h, i, ok)];
    }

    method SetAltSetting(h: Handle, i: int, alt: int) returns (ok: bool)
      modifies this
      ensures calls == old(calls) + 1 && ok == !fails(old(calls)) && log == old(log) + [SetAlt(h, i, alt, ok)]
      ensures current == old(current) && claims == old(claims)
    {
      ok, calls := !fails(calls), calls + 1;
      log := log + [SetAlt(h, i, alt, ok)];
    }

    method ResetDevice(h: Handle) returns (ok: bool)
      modifies this
      ensures calls == old(calls) + 1 && ok == !fails(old(calls)) && log == old(log) + [Call.Reset(h, ok)]
      ensures claims == old(claims) && (!ok ==> current == old(current))
    {
      ok := !fails(calls);
      if ok { current := afterReset(calls); }
      calls := calls + 1;
      log := log + [Call.Reset(h, ok)];
    }

    // clear_halt, the kernel driver calls, control transfers.
    method OtherCall(h: Handle) returns (ok: bool)
      modifies this
      ensures calls == old(calls) + 1 && ok == !fails(old(calls)) && log == old(log) + [Other(h, ok)]
      ensures current == old(current) && claims == old(claims)
    {
      ok, calls := !fails(calls), calls + 1;
      log := log + [Other(h, ok)];
    }
  }

  // An (Interface, Endpoint) pair: the objects hold indices into the descriptor tree.
  datatype Found = Found(cfg: nat, pos: Pos)

  // The `config` argument of set_configuration.
  datatype ConfigArg = Default | Object(index: nat) | Value(v: int)

  // The index and the value an argument stands for.
  function Resolved(configs: seq<Configuration>, config: ConfigArg): (r: Result<(Option<nat>, int)>)
    requires config.Object? ==> config.index < |configs|
    ensures r == Raised(ValueError) <==> config.Value? && config.v != 0 && forall c :: c in configs ==> c.value != config.v
    ensures r == Raised(IndexError) <==> config.Default? && configs == []
    ensures r.Raised? ==> r.error == ValueError || r.error == IndexError
    ensures r.Ok? && r.value.0.Some? ==> r.value.0.value < |configs| && configs[r.value.0.value].value == r.value.1
  {
    match config
    case Default => if |configs| == 0 then Raised(IndexError) else Ok((Some(0), configs[0].value))
    case Object(i) => Ok((Some(i), configs[i].value))
    case Value(v) =>
      if v == 0 then Ok((None, 0))
      else
        match FindConfiguration(configs, v)
        case None => Raised(ValueError)
        case Some(i) => Ok((Some(i), v))
  }

  // The `intf` argument of set_interface_altsetting and release_interface.
  datatype IntfArg = Unspecified | IntfObject(number: int, alternate: int) | Number(n: int)

  function FirstNumber(c: Configuration): Option<int> {
    if c.interfaces == [] || c.interfaces[0] == [] then None else Some(c.interfaces[0][0].number)
  }

  // The interface an argument other than an object stands for.
  function Looked(c: Configuration, intf: IntfArg, alt: Option<int>, readable: Readable): Option<Interface> {
    var number :=
      match intf
      case Unspecified => FirstNumber(c)
      case IntfObject(n, _) => Some(n)
      case Number(n) => Some(n);
    if number.None? then None
    else
      match Search(c, InterfaceProbe(number.value, alt), readable)
      case None => None
      case Some(p) => if InTree(c, p) then Some(c.interfaces[p.i][p.alt]) else None
  }

  lemma EmptyIfNoElement(s: set<int>)
    ensures (forall x :: x !in s) ==> s == {}
  {
    if forall x :: x !in s { assert s == {}; }
  }

  // The next element of an iteration over a set, in no particular order.
  method AnyOf(s: set<int>) returns (i: int)
    requires s != {}
    ensures i in s
  {
    EmptyIfNoElement(s);
    i :| i in s;
  }

  class Manager {
    const backend: Backend
    var handle: Option<Handle>
    var activeCfgIndex: Option<nat>
    var claimedIntf: set<int>
    var epInfo: map<int, Found>
    // which descriptors could be read when an entry was made
    ghost var readAt: map<int, Readable>

    // The record is what the calls made so far amount to, and these were in order;
    // recorded claims are claims; the cached index names the configuration in force.
    ghost predicate Valid()
      reads this, backend
    {
      && Proper(backend.log) && Replay(backend.log) == Session(handle, claimedIntf)
      && (handle.None? ==> claimedIntf == {})
      && claimedIntf <= backend.claims
      && (backend.Faultless() ==> claimedIntf == backend.claims)
      && (activeCfgIndex.Some? ==>
            activeCfgIndex.value < |backend.configs|
            && backend.configs[activeCfgIndex.value].value == backend.current)
      && (epInfo != map[] ==> activeCfgIndex.Some?)
      && (forall a :: a in epInfo ==>
            epInfo[a].cfg == activeCfgIndex.value && IsMatch(ActiveConfiguration(), EndpointProbe(a), epInfo[a].pos))
      && readAt.Keys == epInfo.Keys
      && (forall a :: a in epInfo ==> Search(ActiveConfiguration(), EndpointProbe(a), readAt[a]) == Some(epInfo[a].pos))
    }

    function ActiveConfiguration(): Configuration
      reads this
      requires activeCfgIndex.Some? && activeCfgIndex.value < |backend.configs|
    {
      backend.configs[activeCfgIndex.value]
    }

    // Each cached pair is what a fresh search of the active configuration finds first.
    ghost predicate CacheAgrees()
      reads this, backend
      requires Valid()
    {
      forall a :: a in epInfo ==> FirstMatch(ActiveConfiguration(), EndpointProbe(a)) == Some(epInfo[a].pos)
    }

    // Each entry was made while the descriptors up to the right answer could be read.
    ghost predicate ReadUpToFirst()
      reads this, backend
      requires Valid()
    {
      forall a :: a in epInfo ==>
        var first := FirstMatch(ActiveConfiguration(), EndpointProbe(a));
        first.Some? && ReadableUpTo(first.value, readAt[a])
    }

    // Exactly then the cache is right.
    lemma AgreesIff()
      requires Valid()
      ensures CacheAgrees() <==> ReadUpToFirst()
    {
      forall a | a in epInfo
        ensures FirstMatch(ActiveConfiguration(), EndpointProbe(a)) == Some(epInfo[a].pos) <==>
          var first := FirstMatch(ActiveConfiguration(), EndpointProbe(a));
          first.Some? && ReadableUpTo(first.value, readAt[a])
      {
        var first := FirstMatch(ActiveConfiguration(), EndpointProbe(a));
        if first.Some? { SearchUnderFaults(ActiveConfiguration(), EndpointProbe(a), readAt[a], first.value); }
      }
    }

    constructor (backend: Backend)
      requires backend.log == [] && backend.claims == {}
      ensures Valid() && CacheAgrees() && this.backend == backend
      ensures handle.None? && claimedIntf == {} && epInfo == map[] && activeCfgIndex.None?
    {
      this.backend := backend;
      handle, activeCfgIndex, claimedIntf, epInfo := None, None, {}, map[];
      readAt := map[];
    }

    method ManagedOpen() returns (r: Result<Handle>)
      requires Valid()
      modifies this`handle, backend
      ensures |backend.log| >= old(|backend.log|)
      ensures Valid() && (old(CacheAgrees()) ==> CacheAgrees())
      ensures backend.current == old(backend.current)
      ensures r.Ok? ==> handle == Some(r.value)
      ensures r.Raised? ==> r.error == USBError && handle == old(handle) && handle.None?
      ensures old(handle).Some? ==> r == Ok(old(handle).value) && backend.log == old(backend.log)
    {
      if handle.None? {
        ghost var log := backend.log;
        var ok, h := backend.Open();
        Extend(log, Call.Open(ok, h));
        if !ok { return Raised(USBError); }
        handle := Some(h);
      }
      r := Ok(handle.value);
    }

    method ManagedClose() returns (r: Result<()>)
      requires Valid()
      modifies this`handle, backend
      // with interfaces still on record, closing leaves stale claims behind
      ensures Valid() <==> old(claimedIntf) == {}
      ensures Valid() && old(CacheAgrees()) ==> CacheAgrees()
      ensures backend.current == old(backend.current)
      ensures |backend.log| == old(|backend.log|) + if old(handle).Some? then 1 else 0
      ensures old(handle).Some? ==> backend.log[|backend.log| - 1].Close? && backend.log[..|backend.log| - 1] == old(backend.log)
      ensures if r.Ok? then handle.None? else handle == old(handle) && r.error == USBError
    {
      if handle.Some? {
        ghost var log := backend.log;
        var ok := backend.Close(handle.value);
        Extend(log, Call.Close(handle.value, ok));
        if !ok { return Raised(USBError); }
        handle := None;
      }
      r := Ok(());
    }

    method ManagedSetConfiguration(config: ConfigArg) returns (r: Result<()>)
      requires Valid() && (config.Object? ==> config.index < |backend.configs|)
      modifies this`handle, this`activeCfgIndex, this`epInfo, this`readAt, backend
      ensures Valid() && (old(CacheAgrees()) ==> CacheAgrees())
      ensures r.Ok? ==>
        && epInfo == map[]
        && match config
           case Default => activeCfgIndex == Some(0)
           case Object(i) => activeCfgIndex == Some(i)
           case Value(v) =>
             backend.current == v && activeCfgIndex == if v == 0 then None else FindConfiguration(backend.configs, v)
      ensures r == Raised(ValueError) <==>
        config.Value? && config.v != 0 && forall c :: c in backend.configs ==> c.value != config.v
      ensures r == Raised(IndexError) <==> config.Default? && backend.configs == []
      ensures r.Ok? ==> handle.Some? && |backend.log| > old(|backend.log|)
      ensures r.Ok? ==> backend.log[|backend.log| - 1] == SetConfig(handle.value, backend.current, true)
      ensures r.Raised? ==>
        && activeCfgIndex == old(activeCfgIndex) && epInfo == old(epInfo) && backend.current == old(backend.current)
        && (r.error == USBError || backend.log == old(backend.log))
    {
      var c := Resolved(backend.configs, config);
      if c.Raised? { return Raised(c.error); }
      r := Configure(c.value.0, c.value.1);
    }

    // The device first, then the record of it.
    method Configure(index: Option<nat>, value: int) returns (r: Result<()>)
      requires Valid() && (index.Some? ==> index.value < |backend.configs| && backend.configs[index.value].value == value)
      modifies this`handle, this`activeCfgIndex, this`epInfo, this`readAt, backend
      ensures Valid() && (old(CacheAgrees()) ==> CacheAgrees())
      ensures r.Ok? ==> epInfo == map[] && activeCfgIndex == index && backend.current == value
      ensures r.Ok? ==> handle.Some? && |backend.log| > old(|backend.log|)
      ensures r.Ok? ==> backend.log[|backend.log| - 1] == SetConfig(handle.value, value, true)
      ensures r.Raised? ==>
        && r.error == USBError
        && activeCfgIndex == old(activeCfgIndex) && epInfo == old(epInfo) && backend.current == old(backend.current)
    {
      var o := ManagedOpen();
      if o.Raised? { return Raised(o.error); }
      ghost var log := backend.log;
      var ok := backend.SetConfiguration(handle.value, value);
      Extend(log, SetConfig(handle.value, value, ok));
      if !ok { return Raised(USBError); }
      activeCfgIndex := index;
      epInfo, readAt := map[], map[];
      r := Ok(());
    }

    method ManagedClaimInterface(i: int) returns (r: Result<()>)
      requires Valid()
      modifies this`handle, this`claimedIntf, backend
      ensures |backend.log| >= old(|backend.log|)
      ensures Valid() && (old(CacheAgrees()) ==> CacheAgrees())
      ensures backend.current == old(backend.current)
      ensures r.Ok? ==> handle.Some? && claimedIntf == old(claimedIntf) + {i}
      ensures r.Raised? ==> r.error == USBError && claimedIntf == old(claimedIntf)
    {
      var o := ManagedOpen();
      if o.Raised? { return Raised(o.error); }
      if i !in claimedIntf {
        r := ClaimNew(i);
      } else {
        r := Ok(());
      }
    }

    method ClaimNew(i: int) returns (r: Result<()>)
      requires Valid() && handle.Some? && i !in claimedIntf
      modifies this`claimedIntf, backend
      ensures Valid() && (old(CacheAgrees()) ==> CacheAgrees()) && backend.current == old(backend.current)
      ensures |backend.log| > old(|backend.log|)
      ensures r.Ok? ==> claimedIntf == old(claimedIntf) + {i}
      ensures r.Raised? ==> r.error == USBError && claimedIntf == old(claimedIntf)
    {
      ghost var log := backend.log;
      var ok := backend.ClaimInterface(handle.value, i);
      Extend(log, Claim(handle.value, i, ok));
      if !ok { return Raised(USBError); }
      claimedIntf := claimedIntf + {i};
      r := Ok(());
    }

    // With an interface number; the record is dropped even if the release fails.
    method ReleaseNumber(i: int) returns (r: Result<()>)
      requires Valid()
      modifies this`claimedIntf, backend
      ensures |backend.log| >= old(|backend.log|)
      ensures Valid() && (old(CacheAgrees()) ==> CacheAgrees())
      ensures backend.current == old(backend.current)
      ensures claimedIntf == old(claimedIntf) - {i}
      ensures r.Raised? ==> r.error == USBError
    {
      r := Ok(());
      if i in claimedIntf {
        ghost var log := backend.log;
        var ok := backend.ReleaseInterface(handle.value, i);
        Extend(log, Release(handle.value, i, ok));
        claimedIntf := claimedIntf - {i};
        if !ok { r := Raised(USBError); }
      }
    }

    // cfg[(0,0)].bInterfaceNumber
    method FirstInterface() returns (r: Result<int>)
      requires Valid()
      modifies this`handle, this`activeCfgIndex, backend
      ensures Valid() && (old(CacheAgrees()) ==> CacheAgrees())
      ensures backend.current == old(backend.current)
      ensures r.Ok? ==> activeCfgIndex.Some? && FirstNumber(ActiveConfiguration()) == Some(r.value)
      ensures r.Ok? ==> var all := ActiveConfiguration().interfaces; all != [] && all[0] != [] && r.value == all[0][0].number
      ensures r.Raised? ==> r.error == USBError || r.error == IndexError
      ensures r == Raised(IndexError) <==>
        activeCfgIndex.Some? && var all := ActiveConfiguration().interfaces; all == [] || all[0] == []
    {
      var cfg := GetActiveConfiguration();
      if cfg.Raised? { return Raised(cfg.error); }
      var c := backend.configs[cfg.value];
      var number := FirstNumber(c);
      if number.None? { return Raised(IndexError); }
      r := Ok(number.value);
    }

    method ManagedReleaseInterface(intf: IntfArg) returns (r: Result<()>)
      requires Valid()
      modifies this`handle, this`activeCfgIndex, this`claimedIntf, backend
      ensures Valid() && (old(CacheAgrees()) ==> CacheAgrees())
      ensures backend.current == old(backend.current)
      ensures intf.Number? ==> claimedIntf == old(claimedIntf) - {intf.n}
      ensures intf.IntfObject? ==> claimedIntf == old(claimedIntf) - {intf.number}
      ensures intf.Unspecified? && r.Ok? ==>
        activeCfgIndex.Some? && exists i :: FirstNumber(ActiveConfiguration()) == Some(i) && claimedIntf == old(claimedIntf) - {i}
    {
      match intf {
        case Unspecified =>
          var i := FirstInterface();
          if i.Raised? { return Raised(i.error); }
          r := ReleaseNumber(i.value);
        case IntfObject(n, _) => r := ReleaseNumber(n);
        case Number(n) => r := ReleaseNumber(n);
      }
    }

    method GetActiveConfiguration() returns (r: Result<nat>)
      requires Valid()
      modifies this`handle, this`activeCfgIndex, backend
      ensures Valid() && (old(CacheAgrees()) ==> CacheAgrees())
      ensures backend.current == old(backend.current)
      ensures r.Ok? ==> activeCfgIndex == Some(r.value) && r.value < |backend.configs|
      ensures r.Ok? ==> backend.configs[r.value].value == backend.current
      ensures r.Raised? ==> r.error == USBError && activeCfgIndex == old(activeCfgIndex) && activeCfgIndex.None?
      ensures old(activeCfgIndex).Some? ==> r == Ok(old(activeCfgIndex).value) && backend.log == old(backend.log)
    {
      if activeCfgIndex.None? {
        var o := ManagedOpen();
        if o.Raised? { return Raised(o.error); }
        ghost var log := backend.log;
        var ok, value := backend.GetConfiguration(handle.value);
        Extend(log, GetConfig(handle.value, ok));
        if !ok { return Raised(USBError); }
        var index := FindConfiguration(backend.configs, value);
        if index.None? { return Raised(USBError); }
        activeCfgIndex := index;
      }
      r := Ok(activeCfgIndex.value);
    }

    // `readable`: which interface descriptors can be read during the search.
    method GetInterfaceAndEndpoint(address: int, readable: Readable) returns (r: Result<Found>)
      requires Valid()
      modifies this`handle, this`activeCfgIndex, this`epInfo, this`readAt, backend
      ensures Valid() && backend.current == old(backend.current)
      ensures r.Ok? ==> address in epInfo
      ensures address in old(epInfo) ==> r == Ok(old(epInfo)[address]) && epInfo == old(epInfo)
      ensures address !in old(epInfo) && r.Ok? ==>
        && r.value.cfg < |backend.configs| && activeCfgIndex == Some(r.value.cfg)
        && Search(backend.configs[r.value.cfg], EndpointProbe(address), readable) == Some(r.value.pos)
        && epInfo == old(epInfo)[address := r.value]
      ensures r.Ok? ==> epInfo[address] == r.value
      // what is returned is an endpoint of the active configuration with this address; it
      // has none if the search fails and every descriptor could be read
      ensures r.Ok? ==> activeCfgIndex == Some(r.value.cfg) && HasAddress(ActiveConfiguration(), r.value.pos, address)
      ensures r == Raised(ValueError) && (forall i, alt :: readable(i, alt)) ==>
        activeCfgIndex.Some? && AddressNowhere(ActiveConfiguration(), address)
      ensures r.Raised? ==> epInfo == old(epInfo) && r.error == if activeCfgIndex.None? then USBError else ValueError
      // an endpoint in the active configuration is found, if descriptors can be read
      ensures r.Raised? && r.error == ValueError ==>
        activeCfgIndex.Some? && Search(ActiveConfiguration(), EndpointProbe(address), readable).None?
      // the cache stays right exactly if the alternate settings up to the match could be read
      ensures old(CacheAgrees()) && (address in old(epInfo) || r.Raised?) ==> CacheAgrees()
      ensures old(CacheAgrees()) && address !in old(epInfo) && r.Ok? ==>
        var first := FirstMatch(ActiveConfiguration(), EndpointProbe(address));
        first.Some? && (CacheAgrees() <==> ReadableUpTo(first.value, readable))
    {
      if address in epInfo {
        EndpointFound(ActiveConfiguration(), address, readAt[address]);
        return Ok(epInfo[address]);
      }
      var cfg := GetActiveConfiguration();
      if cfg.Raised? { return Raised(cfg.error); }
      var p := Search(backend.configs[cfg.value], EndpointProbe(address), readable);
      EndpointFound(backend.configs[cfg.value], address, readable);
      if p.None? { return Raised(ValueError); }
      SearchFromLater(backend.configs[cfg.value], EndpointProbe(address), readable, 0);
      epInfo := epInfo[address := Found(cfg.value, p.value)];
      readAt := readAt[address := readable];
      r := Ok(Found(cfg.value, p.value));
      ghost var first := FirstMatch(ActiveConfiguration(), EndpointProbe(address));
      if first.None? {
        NothingToFind(ActiveConfiguration(), EndpointProbe(address), readable);
      } else {
        SearchUnderFaults(ActiveConfiguration(), EndpointProbe(address), readable, first.value);
        assert epInfo[address].pos == p.value;
      }
    }

    // Before each transfer: find the endpoint, claim its interface.
    method SetupRequest(address: int, readable: Readable) returns (r: Result<Found>)
      requires Valid()
      modifies this, backend
      ensures Valid() && backend.current == old(backend.current)
      ensures r.Ok? ==>
        && handle.Some? && activeCfgIndex == Some(r.value.cfg)
        && IsMatch(ActiveConfiguration(), EndpointProbe(address), r.value.pos)
        && HasAddress(ActiveConfiguration(), r.value.pos, address)
        && ActiveConfiguration().interfaces[r.value.pos.i][r.value.pos.alt].number in claimedIntf
      ensures old(CacheAgrees()) && (forall i, alt :: readable(i, alt)) ==> CacheAgrees()
      ensures old(CacheAgrees()) && r.Ok? && (forall i, alt :: readable(i, alt)) ==>
        IsFirst(ActiveConfiguration(), EndpointProbe(address), r.value.pos)
    {
      var f := GetInterfaceAndEndpoint(address, readable);
      if f.Raised? { return f; }
      FirstMatchIsFirst(ActiveConfiguration(), EndpointProbe(address), f.value.pos);
      var c := ManagedClaimInterface(ActiveConfiguration().interfaces[f.value.pos.i][f.value.pos.alt].number);
      if c.Raised? { return Raised(c.error); }
      r := f;
    }

    // find_descriptor on the active configuration, by interface number.
    method FindInterface(intf: IntfArg, alt: Option<int>, readable: Readable) returns (r: Result<Option<Interface>>)
      requires Valid() && !intf.IntfObject?
      modifies this`handle, this`activeCfgIndex, backend
      ensures Valid() && (old(CacheAgrees()) ==> CacheAgrees()) && backend.current == old(backend.current)
      ensures r.Ok? ==> activeCfgIndex.Some? && r.value == Looked(ActiveConfiguration(), intf, alt, readable)
      ensures r.Raised? ==> r.error != TypeError
      ensures r.Ok? ==> var c := ActiveConfiguration();
        && (intf.Unspecified? ==> c.interfaces != [] && c.interfaces[0] != [])
        && var n := if intf.Number? then intf.n else c.interfaces[0][0].number;
           if r.value.Some? then HasNumber(r.value.value, n, alt)
           else (forall i, a :: readable(i, a)) ==> NumberNowhere(c, n, alt)
    {
      var number;
      if intf.Unspecified? {
        var i := FirstInterface();
        if i.Raised? { return Raised(i.error); }
        number := i.value;
      } else {
        number := intf.n;
      }
      var cfg := GetActiveConfiguration();
      if cfg.Raised? { return Raised(cfg.error); }
      var c := backend.configs[cfg.value];
      var p := Search(c, InterfaceProbe(number, alt), readable);
      InterfaceFound(c, number, alt, readable);
      SearchFromLater(c, InterfaceProbe(number, alt), readable, 0);
      r := Ok(if p.None? then None else Some(c.interfaces[p.value.i][p.value.alt]));
    }

    // The interface that an argument stands for, by number, and its own setting. For one
    // that is not found, None is passed on to the backend, which rejects it.
    method ChooseInterface(intf: IntfArg, alt: Option<int>, readable: Readable) returns (r: Result<(int, int)>)
      requires Valid()
      modifies this`handle, this`activeCfgIndex, backend
      ensures Valid() && (old(CacheAgrees()) ==> CacheAgrees()) && backend.current == old(backend.current)
      ensures r.Ok? && intf.IntfObject? ==> r.value == (intf.number, intf.alternate)
      ensures r.Ok? && !intf.IntfObject? ==>
        && activeCfgIndex.Some?
        && var f := Looked(ActiveConfiguration(), intf, alt, readable);
           f.Some? && r.value == (f.value.number, f.value.alternate)
      ensures r.Ok? && intf.Number? ==> r.value.0 == intf.n
      ensures r.Ok? && intf.Unspecified? ==>
        var all := ActiveConfiguration().interfaces; all != [] && all[0] != [] && r.value.0 == all[0][0].number
      ensures r == Raised(TypeError) && intf.Number? && (forall i, a :: readable(i, a)) ==>
        activeCfgIndex.Some? && NumberNowhere(ActiveConfiguration(), intf.n, alt)
    {
      if intf.IntfObject? {
        return Ok((intf.number, intf.alternate));
      }
      var i := FindInterface(intf, alt, readable);
      if i.Raised? { return Raised(i.error); }
      if i.value.None? {
        var o := ManagedOpen();
        return Raised(if o.Raised? then o.error else TypeError);
      }
      r := Ok((i.value.value.number, i.value.value.alternate));
    }

    // The interface is claimed before its setting is selected.
    method SelectSetting(number: int, alternate: int) returns (r: Result<()>)
      requires Valid()
      modifies this`handle, this`claimedIntf, backend
      ensures Valid() && (old(CacheAgrees()) ==> CacheAgrees()) && backend.current == old(backend.current)
      ensures r.Ok? ==>
        && |backend.log| > 0 && handle.Some? && number in claimedIntf
        && backend.log[|backend.log| - 1] == SetAlt(handle.value, number, alternate, true)
      ensures r.Raised? ==> r.error == USBError
    {
      var c := ManagedClaimInterface(number);
      if c.Raised? { return Raised(c.error); }
      ghost var log := backend.log;
      var ok := backend.SetAltSetting(handle.value, number, alternate);
      Extend(log, SetAlt(handle.value, number, alternate, ok));
      if !ok { return Raised(USBError); }
      r := Ok(());
    }

    // The setting selected is the one asked for, or else that of the interface chosen.
    method ManagedSetInterface(intf: IntfArg, alt: Option<int>, readable: Readable) returns (r: Result<()>)
      requires Valid()
      modifies this`handle, this`activeCfgIndex, this`claimedIntf, backend
      ensures Valid() && (old(CacheAgrees()) ==> CacheAgrees()) && backend.current == old(backend.current)
      ensures r.Ok? ==> |backend.log| > 0 && handle.Some?
      ensures r.Ok? ==> var c := backend.log[|backend.log| - 1];
        && c.SetAlt? && c.ok && c.h == handle.value && c.intf in claimedIntf
        && (alt.Some? ==> c.alt == alt.value)
        && (intf.IntfObject? ==> c.intf == intf.number && (alt.None? ==> c.alt == intf.alternate))
        && (intf.Number? ==> c.intf == intf.n)
      ensures r.Ok? && intf.Unspecified? ==>
        && activeCfgIndex.Some?
        && var all := ActiveConfiguration().interfaces;
           all != [] && all[0] != [] && backend.log[|backend.log| - 1].intf == all[0][0].number
      ensures r.Ok? && !intf.IntfObject? && alt.None? ==>
        && activeCfgIndex.Some?
        && var f := Looked(ActiveConfiguration(), intf, alt, readable);
           f.Some? && backend.log[|backend.log| - 1].alt == f.value.alternate
      ensures r == Raised(TypeError) && intf.Number? && (forall i, a :: readable(i, a)) ==>
        activeCfgIndex.Some? && NumberNowhere(ActiveConfiguration(), intf.n, alt)
    {
      var i := ChooseInterface(intf, alt, readable);
      if i.Raised? { return Raised(i.error); }
      r := SelectSetting(i.value.0, if alt.Some? then alt.value else i.value.1);
    }

    // Errors of single releases are ignored: afterwards nothing is on record.
    method ReleaseAllInterfaces()
      requires Valid()
      modifies this`claimedIntf, backend
      ensures |backend.log| >= old(|backend.log|)
      ensures Valid() && (old(CacheAgrees()) ==> CacheAgrees()) && backend.current == old(backend.current)
      ensures claimedIntf == {}
      ensures old(claimedIntf) == {} ==> backend.log == old(backend.log)
    {
      var claimed := claimedIntf;
      while claimed != {}
        invariant Valid() && (old(CacheAgrees()) ==> CacheAgrees()) && backend.current == old(backend.current)
        invariant claimedIntf == claimed && |backend.log| >= old(|backend.log|)
        invariant old(claimedIntf) == {} ==> backend.log == old(backend.log)
        decreases claimed
      {
        var i := AnyOf(claimed);
        var _ := ReleaseNumber(i);
        claimed := claimed - {i};
      }
    }

    method Dispose(closeHandle: bool) returns (r: Result<()>)
      requires Valid()
      modifies this, backend
      ensures |backend.log| >= old(|backend.log|)
      ensures Valid() && (old(CacheAgrees()) ==> CacheAgrees()) && backend.current == old(backend.current)
      ensures claimedIntf == {}
      ensures r.Ok? ==> epInfo == map[] && activeCfgIndex.None? && (closeHandle ==> handle.None?)
      ensures r.Raised? ==>
        closeHandle && r.error == USBError && epInfo == old(epInfo) && activeCfgIndex == old(activeCfgIndex)
      ensures !closeHandle ==> handle == old(handle)
      ensures closeHandle && old(claimedIntf) == {} && old(handle).Some? ==>
        |backend.log| == old(|backend.log|) + 1 && backend.log[|backend.log| - 1].Close? && backend.log[..|backend.log| - 1] == old(backend.log)
    {
      ReleaseAllInterfaces();
      if closeHandle {
        var c := ManagedClose();
        if c.Raised? { return c; }
      }
      epInfo, readAt := map[], map[];
      activeCfgIndex := None;
      r := Ok(());
    }

    // Device.reset
    method Reset() returns (r: Result<()>)
      requires Valid()
      modifies this, backend
      ensures Valid() && (old(CacheAgrees()) ==> CacheAgrees())
      ensures r.Ok? ==> handle.None? && claimedIntf == {} && epInfo == map[] && activeCfgIndex.None?
      ensures r.Raised? ==> backend.current == old(backend.current) || activeCfgIndex.None?
      // the device has been reset, and closed after it
      ensures r.Ok? ==>
        && |backend.log| >= 2 && old(|backend.log|) <= |backend.log| - 2
        && backend.log[|backend.log| - 2].Reset? && backend.log[|backend.log| - 2].ok && backend.log[|backend.log| - 1].Close?
    {
      var o := ManagedOpen();
      if o.Raised? { return Raised(o.error); }
      var ok := ResetOpen();
      if !ok { return Raised(USBError); }
      ghost var log := backend.log;
      r := Dispose(true);
      assert r.Ok? ==> backend.log[..|backend.log| - 1] == log;
    }

    // The device is open; whatever is claimed is released first.
    method ResetOpen() returns (ok: bool)
      requires Valid() && handle.Some?
      modifies this, backend
      ensures Valid() && handle.Some? && claimedIntf == {} && epInfo == map[] && activeCfgIndex.None?
      ensures |backend.log| > old(|backend.log|) && backend.log[|backend.log| - 1] == Call.Reset(handle.value, ok)
    {
      var _ := Dispose(false);
      ok := ResetUnclaimed();
    }

    method ResetUnclaimed() returns (ok: bool)
      requires Valid() && handle.Some? && epInfo == map[] && activeCfgIndex.None?
      modifies backend
      ensures Valid() && backend.log == old(backend.log) + [Call.Reset(handle.value, ok)]
    {
      ghost var log := backend.log;
      ok := backend.ResetDevice(handle.value);
      Extend(log, Call.Reset(handle.value, ok));
    }

    // Device.ctrl_transfer, clear_halt and the kernel driver calls: `claim` is
    // the interface a class or standard request to an interface claims first.
    method Operate(claim: Option<int>) returns (r: Result<()>)
      requires Valid()
      modifies this`handle, this`claimedIntf, backend
      ensures Valid() && (old(CacheAgrees()) ==> CacheAgrees()) && backend.current == old(backend.current)
      ensures r.Ok? && claim.Some? ==> claim.value in claimedIntf
      ensures r.Ok? ==> handle.Some? && |backend.log| > old(|backend.log|)
      ensures r.Ok? ==> backend.log[|backend.log| - 1] == Other(handle.value, true)
    {
      var o := ManagedOpen();
      if o.Raised? { return Raised(o.error); }
      if claim.Some? {
        var c := ManagedClaimInterface(claim.value);
        if c.Raised? { return c; }
      }
      ghost var log := backend.log;
      var ok := backend.OtherCall(handle.value);
      Extend(log, Other(handle.value, ok));
      r := if ok then Ok(()) else Raised(USBError);
    }
  }

  // ------------------------------------------------------------- whole runs

  // With the interface descriptors that can be read at the time.
  datatype Op =
    | SetConfigurationOp(config: ConfigArg)
    | ClaimOp(i: int)
    | ReleaseOp(intf: IntfArg)
    | SetInterfaceOp(intf: IntfArg, alt: Option<int>, readable: Readable)
    | TransferOp(address: int, readable: Readable)
    | ControlOp(claim: Option<int>)
    | ResetOp
    | DisposeOp

  // Any sequence of operations, with any failing backend calls and descriptor reads:
  // every call was in order, and the cache agrees with a fresh search exactly if the
  // entries it holds were made while the descriptors up to the right answer could be
  // read; so it does if no descriptor read failed.
  method Drive(backend: Backend, ops: seq<Op>) returns (m: Manager)
    requires backend.log == [] && backend.claims == {}
    requires forall k :: 0 <= k < |ops| && ops[k].SetConfigurationOp? && ops[k].config.Object? ==>
      ops[k].config.index < |backend.configs|
    modifies backend
    ensures fresh(m) && m.backend == backend && m.Valid()
    ensures m.CacheAgrees() <==> m.ReadUpToFirst()
    ensures (forall k, i, alt :: 0 <= k < |ops| && ops[k].TransferOp? ==> ops[k].readable(i, alt)) ==> m.CacheAgrees()
  {
    m := new Manager(backend);
    for k := 0 to |ops|
      invariant fresh(m) && m.backend == backend && m.Valid()
      invariant (forall k, i, alt :: 0 <= k < |ops| && ops[k].TransferOp? ==> ops[k].readable(i, alt)) ==> m.CacheAgrees()
    {
      match ops[k] {
        case SetConfigurationOp(config) => var _ := m.ManagedSetConfiguration(config);
        case ClaimOp(i) => var _ := m.ManagedClaimInterface(i);
        case ReleaseOp(intf) => var _ := m.ManagedReleaseInterface(intf);
        case SetInterfaceOp(intf, alt, readable) => var _ := m.ManagedSetInterface(intf, alt, readable);
        case TransferOp(address, readable) => var _ := m.SetupRequest(address, readable);
        case ControlOp(claim) => var _ := m.Operate(claim);
        case ResetOp => var _ := m.Reset();
        case DisposeOp => var _ := m.Dispose(true);
      }
    }
    m.AgreesIff();
  }
}
