// Isochronous transfers of PyUSB: cutting a buffer into packets (libusb1.py), and
// sending a buffer in as many parts as the device takes (libusb0.py).

module IsoPackets {
  import opened Bytes

  // int(ceil(float(length) / packet_length))
  function PacketCount(length: nat, size: nat): int
    requires size > 0
  {
    -((-(length as real / size as real)).Floor)
  }

  // A buffer cut into full packets and what remains.
  function Tiling(length: nat, size: nat): seq<int>
    requires size > 0
    decreases length
  {
    if length == 0 then []
    else if length <= size then [length]
    else [size] + Tiling(length - size, size)
  }

  lemma PacketCountIs(length: nat, size: nat)
    requires size > 0
    ensures PacketCount(length, size) == length / size + (if length % size == 0 then 0 else 1)
  {
    var q, r := length / size, length % size;
    var x := length as real / size as real;
    assert length == q * size + r;
    assert x == q as real + r as real / size as real;
    assert 0.0 <= r as real / size as real < 1.0;
  }

  // As many packets as the tiling has parts, all full but the last.
  lemma {:induction false} TilingShape(length: nat, size: nat)
    requires size > 0
    ensures var t := Tiling(length, size);
      && |t| == length / size + (if length % size == 0 then 0 else 1)
      && forall k :: 0 <= k < |t| ==>
           t[k] == if k == |t| - 1 && length % size != 0 then length % size else size
    decreases length
  {
    if length > size {
      TilingShape(length - size, size);
      assert length % size == (length - size) % size by { DropOne(length, size); }
      assert length / size == (length - size) / size + 1 by { DropOne(length, size); }
    } else if length == size {
      assert length / size == 1;
    }
  }

  lemma DropOne(length: nat, size: nat)
    requires 0 < size <= length
    ensures length / size == (length - size) / size + 1
    ensures length % size == (length - size) % size
  {
    var q, r := (length - size) / size, (length - size) % size;
    assert length - size == q * size + r;
    QuotientIs(length, size, q + 1, r);
  }

  lemma QuotientIs(a: int, b: int, q: int, r: int)
    requires 0 <= r < b && a - b == (q - 1) * b + r
    ensures a / b == q && a % b == r
  {
    assert a == a / b * b + a % b;
    assert (q - 1) * b == q * b - b;
    assert (a / b - q) * b == r - a % b by {
      assert (a / b - q) * b == a / b * b - q * b;
    }
    SmallMultiple(a / b - q, b);
  }

  lemma SmallMultiple(k: int, b: int)
    requires b > 0
    ensures -b < k * b < b <==> k == 0
  {
  }

  // The parts are proper packets, and together they are the buffer.
  lemma {:induction false} TilingCovers(length: nat, size: nat)
    requires size > 0
    ensures var t := Tiling(length, size);
      && Sum(t) == length
      && (forall k :: 0 <= k < |t| ==> 0 < t[k] <= size)
      && (forall k :: 0 <= k < |t| - 1 ==> t[k] == size)
    decreases length
  {
    if length > size {
      TilingCovers(length - size, size);
      var rest := Tiling(length - size, size);
      assert ([size] + rest)[1..] == rest;
    } else if length > 0 {
      assert Sum([length]) == length + Sum([]);
    }
  }

  // What the device reports per packet is within the buffer, and is all of it
  // exactly if every packet was full.
  lemma {:induction false} TransferredAtMost(actual: seq<int>, lengths: seq<int>)
    requires |actual| == |lengths| && forall k :: 0 <= k < |actual| ==> 0 <= actual[k] <= lengths[k]
    ensures Sum(actual) <= Sum(lengths)
    ensures Sum(actual) == Sum(lengths) <==> actual == lengths
  {
    if actual != [] {
      TransferredAtMost(actual[1..], lengths[1..]);
      assert actual == [actual[0]] + actual[1..] && lengths == [lengths[0]] + lengths[1..];
    }
  }

  // A libusb transfer: its packet descriptors.
  class IsoTransferHandler {
    const lengths: array<int>

    constructor (length: nat, packetLength: nat)
      requires packetLength > 0
      ensures lengths[..] == Tiling(length, packetLength)
    {
      PacketCountIs(length, packetLength);
      lengths := new int[PacketCount(length, packetLength)](_ => 0);
      new;
      SetPacketsLength(length, packetLength);
      TilingShape(length, packetLength);
    }

    method SetIsoPacketLengths(length: int)
      modifies lengths
      ensures forall k :: 0 <= k < lengths.Length ==> lengths[k] == length
    {
      for i := 0 to lengths.Length
        invariant forall k :: 0 <= k < i ==> lengths[k] == length
      {
        lengths[i] := length;
      }
    }

    // On any list of descriptors, even the empty one of a device that is gone.
    method SetPacketsLength(n: nat, packetLength: nat)
      requires packetLength > 0
      modifies lengths
      ensures forall k :: 0 <= k < lengths.Length ==>
        lengths[k] == if k == lengths.Length - 1 && n % packetLength != 0 then n % packetLength else packetLength
    {
      SetIsoPacketLengths(packetLength);
      var r := n % packetLength;
      if r != 0 {
        if lengths.Length != 0 {
          lengths[lengths.Length - 1] := r;
        }
      }
    }
  }
}

module PartialTransfer {
  import opened Bytes

  // Calls into libusb 0.1, with what came back. A negative count is an error.
  datatype Call =
    | Setup(ok: bool)
    | Submit(offset: int, size: int, ok: bool)
    | Reap(count: int)
    | Free(ok: bool)

  datatype Stage = AtSetup | AtSubmit | AtReap | AtFree
  datatype Outcome = Returned(transmitted: int) | Raised(stage: Stage)

  // Rounds that transferred counts[0], counts[1], ... of a buffer.
  function Rounds(counts: seq<int>, length: int): seq<Call>
    decreases |counts|
  {
    if counts == [] then []
    else
      var n := |counts| - 1;
      var at := Sum(counts[..n]);
      Rounds(counts[..n], length) + [Submit(at, length - at, true), Reap(counts[n])]
  }

  // How the loop can end after `at` items: complete, or in a last round that fails
  // or brings nothing.
  predicate LastRound(calls: seq<Call>, at: int, length: int) {
    if at == length then calls == []
    else
      || calls == [Submit(at, length - at, false)]
      || (|calls| == 2 && calls[0] == Submit(at, length - at, true) && calls[1].Reap? && calls[1].count <= 0)
  }

  // The exception, if the last round raised one.
  function Failure(calls: seq<Call>): Option<Stage> {
    if |calls| == 1 then Some(AtSubmit)
    else if |calls| == 2 && calls[1].Reap? && calls[1].count < 0 then Some(AtReap)
    else None
  }

  predicate AllPositive(counts: seq<int>) {
    forall k :: 0 <= k < |counts| ==> counts[k] > 0
  }

  lemma RoundsAppend(counts: seq<int>, count: int, length: int)
    ensures Sum(counts + [count]) == Sum(counts) + count
    ensures Rounds(counts + [count], length)
      == Rounds(counts, length) + [Submit(Sum(counts), length - Sum(counts), true), Reap(count)]
  {
    assert (counts + [count])[..|counts|] == counts;
    SumAppend(counts, [count]);
    assert Sum([count]) == count + Sum([]);
  }

  lemma Joined(a: seq<Call>, b: seq<Call>, c: Call, d: Call)
    ensures a + b + [c] + [d] == a + b + [c, d] == a + (b + [c, d])
  {
  }

  // Every round submits at the offset where the one before ended, and asks for all
  // that is left.
  lemma {:induction false} RoundsAreConsecutive(counts: seq<int>, length: int, k: nat)
    requires k < |counts|
    ensures |Rounds(counts, length)| == 2 * |counts|
    ensures Rounds(counts, length)[2 * k] == Submit(Sum(counts[..k]), length - Sum(counts[..k]), true)
    ensures Rounds(counts, length)[2 * k + 1] == Reap(counts[k])
    decreases |counts|
  {
    var n := |counts| - 1;
    if n > 0 {
      RoundsAreConsecutive(counts[..n], length, if k < n then k else 0);
    }
    assert k < n ==> counts[..n][..k] == counts[..k];
  }

  predicate Within(counts: seq<int>, k: nat, i: int)
    requires k < |counts|
  {
    Sum(counts[..k]) <= i < Sum(counts[..k + 1])
  }

  lemma {:induction false} SumMonotone(counts: seq<int>, a: nat, b: nat)
    requires a <= b <= |counts| && AllPositive(counts)
    ensures Sum(counts[..a]) <= Sum(counts[..b])
    decreases b
  {
    if a < b {
      SumMonotone(counts, a, b - 1);
      assert counts[..b] == counts[..b - 1] + [counts[b - 1]];
      SumAppend(counts[..b - 1], [counts[b - 1]]);
    }
  }

  // No gap and no overlap: every item is in exactly one round's range.
  lemma {:induction false} TransferredOnce(counts: seq<int>, i: int)
    requires AllPositive(counts) && 0 <= i < Sum(counts)
    ensures exists k: nat :: k < |counts| && Within(counts, k, i)
    ensures forall j: nat, k: nat :: j < |counts| && k < |counts| && Within(counts, j, i) && Within(counts, k, i) ==> j == k
    decreases |counts|
  {
    var n := |counts| - 1;
    assert counts[..|counts|] == counts;
    if i >= Sum(counts[..n]) {
      assert Within(counts, n, i);
    } else {
      TransferredOnce(counts[..n], i);
      var k: nat :| k < n && Within(counts[..n], k, i);
      assert counts[..n][..k] == counts[..k] && counts[..n][..k + 1] == counts[..k + 1];
      assert Within(counts, k, i);
    }
    forall j: nat, k: nat | j < k < |counts|
      ensures !(Within(counts, j, i) && Within(counts, k, i))
    {
      SumMonotone(counts, j + 1, k);
    }
  }

  class LibUsb {
    // what the library answers to the next call, given the calls so far
    const answer: seq<Call> -> int
    var log: seq<Call>

    // A reap never brings more than was submitted.
    ghost predicate Valid() {
      forall l, offset, size :: answer(l + [Submit(offset, size, true)]) <= size
    }

    constructor (answer: seq<Call> -> int)
      ensures this.answer == answer && log == []
    {
      this.answer, log := answer, [];
    }

    method SetupAsync() returns (ok: bool)
      modifies this
      ensures log == old(log) + [Setup(ok)]
    {
      ok := answer(log) >= 0;
      log := log + [Setup(ok)];
    }

    method SubmitAsync(offset: int, size: int) returns (ok: bool)
      modifies this
      ensures log == old(log) + [Submit(offset, size, ok)]
    {
      ok := answer(log) >= 0;
      log := log + [Submit(offset, size, ok)];
    }

    method ReapAsync() returns (count: int)
      modifies this
      ensures count == answer(old(log)) && log == old(log) + [Reap(count)]
    {
      count := answer(log);
      log := log + [Reap(count)];
    }

    method FreeAsync() returns (ok: bool)
      modifies this
      ensures log == old(log) + [Free(ok)]
    {
      ok := answer(log) >= 0;
      log := log + [Free(ok)];
    }

    // The body of the try. `counts` are the rounds that transferred something, `last`
    // is the round the loop ended in.
    method TransferRounds(length: nat)
      returns (transmitted: int, failure: Option<Stage>, ghost counts: seq<int>, ghost last: seq<Call>)
      requires Valid()
      modifies this
      ensures AllPositive(counts)
      ensures transmitted == Sum(counts) <= length
      ensures transmitted == 0 <==> counts == []
      ensures log == old(log) + Rounds(counts, length) + last
      ensures LastRound(last, Sum(counts), length) && failure == Failure(last)
    {
      transmitted, failure, counts, last := 0, None, [], [];
      ghost var rounds, start := [], log;
      while transmitted < length
        invariant transmitted == Sum(counts) <= length
        invariant AllPositive(counts) && (transmitted == 0 ==> counts == [])
        invariant rounds == Rounds(counts, length) && log == start + rounds
        invariant last == [] && failure == None
        decreases length - transmitted
      {
        ghost var submit := Submit(transmitted, length - transmitted, true);
        var submitted := SubmitAsync(transmitted, length - transmitted);
        if !submitted {
          last := [submit.(ok := false)];
          failure := Some(AtSubmit);
          return;
        }
        var ret := ReapAsync();
        Joined(start, rounds, submit, Reap(ret));
        if ret <= 0 {
          last := [submit, Reap(ret)];
          failure := if ret < 0 then Some(AtReap) else None;
          return;
        }
        RoundsAppend(counts, ret, length);
        rounds := rounds + [submit, Reap(ret)];
        counts := counts + [ret];
        transmitted := transmitted + ret;
      }
    }

    // The context is set up once and freed once.
    method IsoTransfer(length: nat)
      returns (outcome: Outcome, ghost counts: seq<int>, ghost last: seq<Call>, ghost freed: bool)
      requires Valid()
      modifies this
      ensures AllPositive(counts)
      ensures Sum(counts) <= length
      ensures outcome == Raised(AtSetup) ==> log == old(log) + [Setup(false)]
      ensures outcome != Raised(AtSetup) ==>
        && log == old(log) + [Setup(true)] + Rounds(counts, length) + last + [Free(freed)]
        && LastRound(last, Sum(counts), length)
        // a failing free hides everything else; what was transferred is not lost to an
        // error of the last round
        && (outcome == Raised(AtFree) <==> !freed)
        && (freed && counts != [] ==> outcome == Returned(Sum(counts)))
        && (outcome == Raised(AtSubmit) <==> freed && counts == [] && |last| == 1 && last[0].Submit? && !last[0].ok)
        && (outcome == Raised(AtReap) <==> freed && counts == [] && |last| == 2 && last[1].Reap? && last[1].count < 0)
        && (outcome.Returned? ==> outcome.transmitted == Sum(counts))
        // the loop goes on until all is transferred, a call fails or a reap is empty
        && (last == [] <==> Sum(counts) == length)
        && (last != [] ==> var c := last[|last| - 1]; (c.Submit? && !c.ok) || (c.Reap? && c.count <= 0))
    {
      counts, last, freed := [], [], false;
      var ok := SetupAsync();
      if !ok {
        return Raised(AtSetup), counts, last, freed;
      }
      var transmitted, failure;
      transmitted, failure, counts, last := TransferRounds(length);
      var free := FreeAsync();
      freed := free;
      if !free {
        outcome := Raised(AtFree);
      } else if failure.Some? && transmitted == 0 {
        outcome := Raised(failure.value);
      } else {
        outcome := Returned(transmitted);
      }
    }
  }
}
