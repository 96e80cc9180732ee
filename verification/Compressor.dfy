/** The compressor: partial rows in a position-addressed ring, and one compressed entry at each
    boundary of `ratio` positions. */
module Compressor {
  import Modular
  import LocalRing

  /** Two overlapping segments at ratio 4, one otherwise. */
  function Coefficient(ratio: nat): nat { if ratio == 4 then 2 else 1 }

  function PartialCapacity(ratio: nat): nat { Coefficient(ratio) * ratio }

  function CompressedCapacity(maxSeqLen: nat, ratio: nat): nat
    requires 0 < ratio
  {
    Modular.DivNonNegative(maxSeqLen + ratio - 1, ratio);
    (maxSeqLen + ratio - 1) / ratio
  }

  lemma QuotientBounds(x: nat, ratio: nat, capacity: nat)
    requires 0 < ratio
    ensures (x / ratio) * ratio <= x < (x / ratio + 1) * ratio
    ensures capacity <= x / ratio ==> capacity * ratio <= x
  {
    Modular.DivModOf(x, ratio);
    assert (x / ratio + 1) * ratio == (x / ratio) * ratio + ratio;
    Modular.MulSign(x / ratio - capacity, ratio);
    assert (x / ratio) * ratio == capacity * ratio + (x / ratio - capacity) * ratio;
  }

  /** How many compressed entries exist on or before `pos`: as many whole groups as there are,
      within the allocation. */
  function CommittedEntries(pos: nat, ratio: nat, capacity: nat): (n: nat)
    ensures n <= capacity && n * ratio <= pos + 1
    ensures ratio > 0 && n < capacity ==> pos + 1 < (n + 1) * ratio
  {
    if ratio == 0 then 0 else
      Modular.DivNonNegative(pos + 1, ratio);
      QuotientBounds(pos + 1, ratio, capacity);
      if (pos + 1) / ratio < capacity then (pos + 1) / ratio else capacity
  }

  /** The rows an entry is made of, each with its segment. */
  type Parts<R> = seq<(int, R)>

  /** The first `k` offsets of the window that ends at `boundary`, straight from the stream. */
  ghost function Window<R>(stream: seq<R>, boundary: nat, ratio: nat, k: nat): Parts<R>
    requires 0 < ratio && boundary < |stream| && k <= PartialCapacity(ratio)
  {
    if k == 0 then []
    else
      var source := boundary - PartialCapacity(ratio) + k;
      Window(stream, boundary, ratio, k - 1) +
      if source < 0 then [] else [((k - 1) / ratio, stream[source])]
  }

  /** What entry `i` must hold. */
  ghost function Entry<R>(stream: seq<R>, i: nat, ratio: nat): Parts<R>
    requires 0 < ratio && (i + 1) * ratio <= |stream|
  {
    Modular.MulAtLeast(i + 1, ratio);
    Window(stream, (i + 1) * ratio - 1, ratio, PartialCapacity(ratio))
  }

  lemma CapacityHolds(n: nat, maxSeqLen: nat, ratio: nat)
    requires 0 < ratio && n <= maxSeqLen
    ensures n / ratio <= CompressedCapacity(maxSeqLen, ratio)
  {
    Modular.DivMonotone(n, maxSeqLen + ratio - 1, ratio);
  }

  /** The allocation is the least that holds an entry for every begun group. */
  lemma CapacityTight(maxSeqLen: nat, ratio: nat)
    requires 0 < ratio
    ensures var c := CompressedCapacity(maxSeqLen, ratio); (c - 1) * ratio < maxSeqLen <= c * ratio || (c == 0 && maxSeqLen == 0)
  {
    var x := maxSeqLen + ratio - 1;
    Modular.DivModOf(x, ratio);
    assert (x / ratio - 1) * ratio == (x / ratio) * ratio - ratio;
    if maxSeqLen == 0 { Modular.ModSmall(x, ratio); }
  }

  /** The window of an entry, row by row, from the stream. */
  lemma {:induction false} WindowRows<R>(stream: seq<R>, boundary: nat, ratio: nat, k: nat)
    requires 0 < ratio && boundary < |stream| && k <= PartialCapacity(ratio)
    ensures var w := PartialCapacity(ratio);
      var skip := if boundary + 1 < w then w - (boundary + 1) else 0;
      && |Window(stream, boundary, ratio, k)| == (if k <= skip then 0 else k - skip)
      && forall j :: 0 <= j < |Window(stream, boundary, ratio, k)| ==>
           Window(stream, boundary, ratio, k)[j] == ((skip + j) / ratio, stream[boundary + 1 - w + skip + j])
  {
    if k > 0 { WindowRows(stream, boundary, ratio, k - 1); }
  }

  /** At ratio 4 entry `i` is the eight positions that end at `4i + 3`, the older four as segment
      0 and the newer as segment 1; the first entry has only the newer ones. */
  lemma EntryAtFour<R>(stream: seq<R>, i: nat)
    requires 4 * i + 4 <= |stream|
    ensures var e := Entry(stream, i, 4);
      if i == 0 then |e| == 4 && forall j :: 0 <= j < 4 ==> e[j] == (1, stream[j])
      else |e| == 8 && forall j :: 0 <= j < 8 ==> e[j] == (if j < 4 then 0 else 1, stream[4 * i - 4 + j])
  {
    WindowRows(stream, 4 * i + 3, 4, 8);
    assert forall j: nat :: j < 8 ==> j / 4 == if j < 4 then 0 else 1;
  }

  /** At any other ratio it is the `ratio` positions of its own group. */
  lemma EntryElsewhere<R>(stream: seq<R>, i: nat, ratio: nat)
    requires 0 < ratio && ratio != 4 && (i + 1) * ratio <= |stream|
    ensures var e := Entry(stream, i, ratio);
      |e| == ratio && i * ratio >= 0 && (i + 1) * ratio == i * ratio + ratio
      && forall j :: 0 <= j < ratio ==> e[j] == (0, stream[i * ratio + j])
  {
    Modular.MulSign(i, ratio);
    assert (i + 1) * ratio == i * ratio + ratio;
    WindowRows(stream, (i + 1) * ratio - 1, ratio, ratio);
    forall j: nat | j < ratio ensures j / ratio == 0 { Modular.ModSmall(j, ratio); }
  }

  /** Writing position `n` completes an entry exactly at a boundary. */
  lemma BoundaryStep(n: nat, ratio: nat)
    requires 0 < ratio
    ensures (n + 1) / ratio == n / ratio + if (n + 1) % ratio == 0 then 1 else 0
    ensures (n + 1) % ratio == 0 ==> (n / ratio + 1) * ratio == n + 1
  {
    Modular.DivModOf(n, ratio);
    var q, r := n / ratio, n % ratio;
    if r + 1 < ratio {
      Modular.DivModUnique(n + 1, ratio, q, r + 1);
    } else {
      assert (q + 1) * ratio == q * ratio + ratio;
      Modular.DivModUnique(n + 1, ratio, q + 1, 0);
    }
  }

  lemma EntryInStream(i: nat, n: nat, ratio: nat)
    requires 0 < ratio && i < n / ratio
    ensures (i + 1) * ratio <= n && 0 < (i + 1) * ratio
  {
    Modular.DivModOf(n, ratio);
    Modular.MulAtLeast(i + 1, ratio);
    var d := n / ratio - (i + 1);
    assert d * ratio >= 0;
    assert (n / ratio) * ratio == (i + 1) * ratio + d * ratio;
  }

  /** Every completed entry is labelled with its boundary and holds its whole window. */
  ghost predicate Emitted<R(!new)>(labels: seq<int>, entries: seq<Parts<R>>, stream: seq<R>, n: nat, ratio: nat) {
    && 0 < ratio && n <= |stream| && |labels| == |entries| && n / ratio <= |labels|
    && (forall i :: 0 <= i < n / ratio ==> EntryOk(labels[i], entries[i], stream, i, ratio))
    && forall i :: n / ratio <= i < |labels| ==> labels[i] == -1
  }

  ghost predicate EntryOk<R(!new)>(tag: int, entry: Parts<R>, stream: seq<R>, i: nat, ratio: nat) {
    && 0 < ratio && (i + 1) * ratio <= |stream|
    && tag == (i + 1) * ratio - 1 && entry == Entry(stream, i, ratio)
  }

  lemma EntryMade<R(!new)>(stream: seq<R>, i: nat, boundary: nat, ratio: nat)
    requires 0 < ratio && (i + 1) * ratio == boundary + 1 <= |stream|
    ensures EntryOk(boundary, Entry(stream, i, ratio), stream, i, ratio)
  {
  }

  lemma BufferHolds<R>(labels: seq<R>, n: nat, maxSeqLen: nat, ratio: nat)
    requires 0 < ratio && n < maxSeqLen && |labels| == CompressedCapacity(maxSeqLen, ratio)
    ensures (n + 1) / ratio <= |labels|
  {
    CapacityHolds(n + 1, maxSeqLen, ratio);
  }

  /** A completed entry joins the emitted ones; between boundaries nothing is due. */
  lemma EmittedStep<R(!new)>(labels: seq<int>, entries: seq<Parts<R>>, stream: seq<R>, n: nat, ratio: nat)
    requires Emitted(labels, entries, stream, n, ratio) && n < |stream| && (n + 1) / ratio <= |labels|
    ensures (n + 1) % ratio != 0 ==> Emitted(labels, entries, stream, n + 1, ratio)
    ensures (n + 1) % ratio == 0 ==>
      var i := (n + 1) / ratio - 1;
      && 0 <= i < |labels| && (i + 1) * ratio == n + 1
      && Emitted(labels[i := n], entries[i := Entry(stream, i, ratio)], stream, n + 1, ratio)
  {
    hide EntryOk, Entry;
    BoundaryStep(n, ratio);
    Modular.DivNonNegative(n, ratio);
    if (n + 1) % ratio == 0 {
      var i := n / ratio;
      EntryMade(stream, i, n, ratio);
    }
  }

  /** At a boundary every position of the window sits in its slot. */
  lemma WindowInRing<R(!new)>(rows: seq<R>, positions: seq<int>, stream: seq<R>, boundary: nat, ratio: nat, source: nat)
    requires 0 < ratio && LocalRing.Holds(rows, positions, stream, boundary + 1, PartialCapacity(ratio))
    requires boundary - PartialCapacity(ratio) < source <= boundary
    ensures var slot := source % PartialCapacity(ratio);
      0 <= slot < |rows| && positions[slot] == source && rows[slot] == stream[source]
  {
    Modular.DivModOf(source, PartialCapacity(ratio));
    LocalRing.SlotOf(boundary + 1, PartialCapacity(ratio), source);
    LocalRing.OldRow(rows, positions, stream, boundary + 1, PartialCapacity(ratio), source);
  }

  class CompressorState<R(0, !new)> {
    const ratio: nat
    const maxSeqLen: nat
    const localCapacity: nat
    const rows: array<R>
    const positions: array<int>
    const labels: array<int>
    const entries: array<Parts<R>>
    var localValidCount: nat
    var partialCount: nat
    var entryCount: nat

    ghost predicate Valid(stream: seq<R>, n: nat)
      reads this, rows, positions, labels, entries
    {
      && 0 < ratio && n <= maxSeqLen
      && rows.Length == positions.Length == PartialCapacity(ratio)
      && labels.Length == entries.Length == CompressedCapacity(maxSeqLen, ratio)
      && positions != labels && (rows as object) !in {positions as object, labels as object, entries as object}
      && (entries as object) !in {positions as object, labels as object}
      && LocalRing.Holds(rows[..], positions[..], stream, n, PartialCapacity(ratio))
      && Emitted(labels[..], entries[..], stream, n, ratio)
      && entryCount == n / ratio
      && localValidCount == (if n < localCapacity then n else localCapacity)
      && partialCount == (if n < PartialCapacity(ratio) then n else PartialCapacity(ratio))
    }

    constructor (ratio: nat, maxSeqLen: nat, localCapacity: nat, blank: R)
      requires 0 < ratio
      ensures Valid([], 0) && fresh(rows) && fresh(positions) && fresh(labels) && fresh(entries)
      ensures this.ratio == ratio && this.maxSeqLen == maxSeqLen && this.localCapacity == localCapacity
    {
      this.ratio, this.maxSeqLen, this.localCapacity := ratio, maxSeqLen, localCapacity;
      rows := new R[PartialCapacity(ratio)](_ => blank);
      positions := new int[PartialCapacity(ratio)](_ => -1);
      labels := new int[CompressedCapacity(maxSeqLen, ratio)](_ => -1);
      entries := new Parts<R>[CompressedCapacity(maxSeqLen, ratio)](_ => []);
      localValidCount, partialCount, entryCount := 0, 0, 0;
      new;
      Modular.ModSmall(0, ratio);
      assert positions[..] == LocalRing.Slots(0, PartialCapacity(ratio));
    }

    /** Save one partial row in its ring slot. */
    method Save(ghost stream: seq<R>, position: nat, row: R)
      requires 0 < ratio && rows.Length == positions.Length == PartialCapacity(ratio) && rows != positions
      requires LocalRing.Holds(rows[..], positions[..], stream, position, PartialCapacity(ratio))
      requires position < |stream| && row == stream[position]
      modifies rows, positions
      ensures LocalRing.Holds(rows[..], positions[..], stream, position + 1, PartialCapacity(ratio))
    {
      hide LocalRing.Holds;
      LocalRing.HoldsStep(rows[..], positions[..], stream, position, PartialCapacity(ratio));
      var slot := position % PartialCapacity(ratio);
      positions[slot] := position;
      rows[slot] := row;
      assert rows[..] == old(rows[..])[slot := row];
      assert positions[..] == old(positions[..])[slot := position];
    }

    /** Gather the window that ends at `boundary`; a slot that does not carry the position it is
        asked for would be skipped, and none is. */
    method Gather(ghost stream: seq<R>, boundary: nat) returns (parts: Parts<R>)
      requires 0 < ratio && rows.Length == positions.Length == PartialCapacity(ratio)
      requires LocalRing.Holds(rows[..], positions[..], stream, boundary + 1, PartialCapacity(ratio))
      ensures parts == Window(stream, boundary, ratio, PartialCapacity(ratio))
    {
      var window := PartialCapacity(ratio);
      parts := [];
      for offset := 0 to window
        invariant parts == Window(stream, boundary, ratio, offset)
      {
        hide LocalRing.Slots;
        var source := boundary - window + 1 + offset;
        if source >= 0 {
          WindowInRing(rows[..], positions[..], stream, boundary, ratio, source);
          var slot := source % window;
          if positions[slot] == source {
            parts := parts + [(offset / ratio, rows[slot])];
          }
        }
      }
    }

    /** `record_position`: every count is the position's own, capped by its buffer. A layer
        without compression records only its local rows. */
    method RecordPosition(position: nat) returns (ok: bool)
      modifies this`localValidCount, this`partialCount, this`entryCount
      ensures ok <==> position < maxSeqLen
      ensures ok ==> localValidCount == (if position + 1 < localCapacity then position + 1 else localCapacity)
      ensures ok && ratio > 0 ==>
        && partialCount == (if position + 1 < PartialCapacity(ratio) then position + 1 else PartialCapacity(ratio))
        && entryCount == (position + 1) / ratio == CommittedEntries(position, ratio, CompressedCapacity(maxSeqLen, ratio))
      ensures !ok ==> localValidCount == old(localValidCount)
      ensures !ok || ratio == 0 ==> partialCount == old(partialCount) && entryCount == old(entryCount)
    {
      if position >= maxSeqLen { return false; }
      localValidCount := if position + 1 < localCapacity then position + 1 else localCapacity;
      if ratio == 0 { return true; }
      partialCount := if position + 1 < PartialCapacity(ratio) then position + 1 else PartialCapacity(ratio);
      entryCount := CommittedEntries(position, ratio, CompressedCapacity(maxSeqLen, ratio));
      CapacityHolds(position + 1, maxSeqLen, ratio);
      return true;
    }

    /** One token: record, save, and at a boundary emit entry `(position + 1) / ratio - 1`. */
    method Advance(ghost stream: seq<R>, position: nat, row: R) returns (ok: bool)
      requires Valid(stream, position) && position < |stream| && row == stream[position]
      modifies this`localValidCount, this`partialCount, this`entryCount, rows, positions, labels, entries
      ensures ok <==> position < maxSeqLen
      ensures Valid(stream, if ok then position + 1 else position)
    {
      hide LocalRing.Holds, Emitted, PartialCapacity, CompressedCapacity;
      ok := RecordPosition(position);
      if !ok { return; }
      Save(stream, position, row);
      BufferHolds(labels[..], position, maxSeqLen, ratio);
      EmittedStep(labels[..], entries[..], stream, position, ratio);
      if (position + 1) % ratio == 0 {
        var index := (position + 1) / ratio - 1;
        var parts := Gather(stream, position);
        labels[index] := position;
        entries[index] := parts;
        assert labels[..] == old(labels[..])[index := position];
        assert entries[..] == old(entries[..])[index := parts];
      }
    }

    /** Back to the state before the first position. */
    method Reset(ghost stream: seq<R>, ghost n: nat, blank: R)
      requires Valid(stream, n)
      modifies this`localValidCount, this`partialCount, this`entryCount, rows, positions, labels, entries
      ensures Valid(stream, 0)
    {
      Modular.ModSmall(0, ratio);
      for i := 0 to rows.Length
        invariant forall j :: 0 <= j < i ==> positions[j] == -1
      {
        rows[i], positions[i] := blank, -1;
      }
      for i := 0 to labels.Length
        invariant forall j :: 0 <= j < i ==> labels[j] == -1
        invariant forall j :: 0 <= j < positions.Length ==> positions[j] == -1
      {
        labels[i], entries[i] := -1, [];
      }
      localValidCount, partialCount, entryCount := 0, 0, 0;
      assert positions[..] == LocalRing.Slots(0, PartialCapacity(ratio));
    }
  }
}
