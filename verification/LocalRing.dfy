/** The sliding-window key ring: decode writes position `p` into slot `p mod capacity`; a chunk
    leaves the ring alone and composes each query's rows from the old ring and its own buffer. */
module LocalRing {
  import opened Wrappers
  import Modular

  datatype Rows<K> = Rows(keys: seq<K>, positions: seq<int>)

  /** Which position each slot holds after positions 0, 1, ..., n-1 were written in order; -1
      marks a slot never written. */
  ghost function Slots(n: nat, capacity: nat): (s: seq<int>)
    requires 0 < capacity
    ensures |s| == capacity
  {
    if n == 0 then seq(capacity, _ => -1) else Slots(n - 1, capacity)[(n - 1) % capacity := n - 1]
  }

  /** The ring after `n` serial writes of the key stream. */
  ghost predicate Holds<K(!new)>(keys: seq<K>, positions: seq<int>, stream: seq<K>, n: nat, capacity: nat) {
    && 0 < capacity == |keys|
    && n <= |stream|
    && positions == Slots(n, capacity)
    && forall s :: 0 <= s < capacity && positions[s] >= 0 ==> positions[s] < n && keys[s] == stream[positions[s]]
  }

  /** Each slot holds the newest position of its residue class, if any was written. */
  lemma {:induction false} SlotIsNewest(n: nat, capacity: nat, s: nat)
    requires s < capacity
    ensures var p := Slots(n, capacity)[s];
      if n <= s then p == -1 else 0 <= p < n && p % capacity == s && n <= p + capacity
  {
    if n > 0 {
      SlotIsNewest(n - 1, capacity, s);
      var last := n - 1;
      var p := Slots(n - 1, capacity)[s];
      if last % capacity == s {
        if last < s { Modular.ModSmall(last, capacity); }
      } else {
        if last == s { Modular.ModSmall(last, capacity); }
        if s < last && n > p + capacity {
          Modular.ModAdd(p, capacity);
        }
      }
    }
  }

  /** The position a window of the last `capacity` writes keeps in a slot. */
  lemma SlotOf(n: nat, capacity: nat, p: nat)
    requires 0 < capacity && p < n <= p + capacity
    ensures Slots(n, capacity)[p % capacity] == p
  {
    var s := p % capacity;
    if n <= s {
      Modular.ModSmall(p, capacity);
    }
    SlotIsNewest(n, capacity, s);
    var q := Slots(n, capacity)[s];
    if q < p {
      Modular.ModDistinct(q, p, capacity);
    } else if p < q {
      Modular.ModDistinct(p, q, capacity);
    }
  }

  /** The remainder of the C family: it takes the sign of the dividend. */
  function TruncMod(a: int, m: nat): int
    requires 0 < m
  {
    if a >= 0 then a % m else -((-a) % m)
  }

  /** Truncating and then lifting a negative remainder is the Euclidean remainder. */
  lemma LiftedRemainder(a: int, m: nat)
    requires 0 < m
    ensures var t := TruncMod(a, m); (if t < 0 then t + m else t) == a % m
  {
    if a < 0 {
      var b := -a;
      Modular.DivModOf(b, m);
      var q, r := b / m, b % m;
      assert a == (-q) * m - r;
      if r == 0 {
        Modular.DivModUnique(a, m, -q, 0);
      } else {
        assert (-q - 1) * m == (-q) * m - m;
        Modular.DivModUnique(a, m, -q - 1, m - r);
      }
    }
  }

  function First(query: nat, capacity: nat): nat {
    if query + 1 <= capacity then 0 else query + 1 - capacity
  }

  /** The closed form of the gather: row `r` of a query's window is the slot-`r` position. */
  lemma RowPosition(query: nat, capacity: nat, r: nat)
    requires 0 < capacity && r < capacity && r <= query
    ensures var p := First(query, capacity) + (r - First(query, capacity)) % capacity;
      First(query, capacity) <= p <= query && p % capacity == r && Slots(query + 1, capacity)[r] == p
  {
    hide Slots;
    var first := First(query, capacity);
    var offset := (r - first) % capacity;
    Modular.DivModOf(r - first, capacity);
    Modular.ModShift(r - first, first, capacity);
    Modular.ModSmall(r, capacity);
    var p := first + offset;
    SlotOf(query + 1, capacity, p);
  }

  /** The ring after a query holds precisely the query's causal window: what a tile selects by
      position is what decode iterates by slot. */
  lemma RingIsWindow(query: nat, capacity: nat, p: nat)
    requires 0 < capacity
    ensures First(query, capacity) <= p <= query <==> p in Slots(query + 1, capacity)
  {
    var ring := Slots(query + 1, capacity);
    if First(query, capacity) <= p <= query {
      SlotOf(query + 1, capacity, p);
      Modular.DivModOf(p, capacity);
      assert ring[p % capacity] == p;
    } else if p in ring {
      var s: nat :| s < |ring| && ring[s] == p;
      SlotIsNewest(query + 1, capacity, s);
    }
  }

  /** What the old ring holds for a position the chunk has not written. */
  lemma OldRow<K(!new)>(keys: seq<K>, positions: seq<int>, stream: seq<K>, start: nat, capacity: nat, p: nat)
    requires Holds(keys, positions, stream, start, capacity) && p < start <= p + capacity
    ensures keys[p % capacity] == stream[p]
  {
    SlotOf(start, capacity, p);
  }

  /** The key of a composed row: the position's own from the chunk, else what its slot holds. */
  ghost predicate RowHolds<K(!new)>(key: K, stream: seq<K>, start: nat, capacity: nat, position: int, row: nat) {
    && row < capacity
    && if position < start then
         var held := Slots(start, capacity)[row];
         0 <= held < |stream| && key == stream[held] && (held == position <==> start <= position + capacity)
       else position < |stream| && key == stream[position]
  }

  /** What slot `row` of the old ring holds where a window has position `p`. */
  lemma OldSlot<K(!new)>(keys: seq<K>, positions: seq<int>, stream: seq<K>, start: nat, capacity: nat, p: nat, row: nat)
    requires Holds(keys, positions, stream, start, capacity) && p < start && row < capacity && p % capacity == row
    ensures RowHolds(keys[row], stream, start, capacity, p, row)
  {
    if p < row { Modular.ModSmall(p, capacity); }
    SlotIsNewest(start, capacity, row);
    if start <= p + capacity { SlotOf(start, capacity, p); }
  }

  /** One in-order write. */
  lemma HoldsStep<K(!new)>(keys: seq<K>, positions: seq<int>, stream: seq<K>, n: nat, capacity: nat)
    requires Holds(keys, positions, stream, n, capacity) && n < |stream|
    ensures 0 <= n % capacity < capacity == |keys| == |positions|
    ensures Holds(keys[n % capacity := stream[n]], positions[n % capacity := n], stream, n + 1, capacity)
  {
    Modular.DivModOf(n, capacity);
  }

  /** Why a chunk must not write the ring first: once position `p` is written, the slot of
      `p - capacity` is lost, and that key is in the window of every earlier query that is at
      most `capacity` behind. */
  lemma EarlyWriteEvicts(capacity: nat, query: nat, p: nat)
    requires 0 < capacity <= p && query < p <= query + capacity
    ensures First(query, capacity) <= p - capacity <= query
    ensures Slots(query + 1, capacity)[(p - capacity) % capacity] == p - capacity
    ensures Slots(p + 1, capacity)[(p - capacity) % capacity] == p
  {
    SlotOf(query + 1, capacity, p - capacity);
    SlotOf(p + 1, capacity, p);
    Modular.ModAdd(p - capacity, capacity);
  }

  class LocalCache<K(0, !new)> {
    const keys: array<K>
    const positions: array<int>
    const capacity: nat

    ghost predicate Valid(stream: seq<K>, n: nat)
      reads this, keys, positions
    {
      && keys != positions && positions.Length == capacity
      && Holds(keys[..], positions[..], stream, n, capacity)
    }

    constructor (capacity: nat, blank: K)
      requires 0 < capacity
      ensures Valid([], 0) && this.capacity == capacity && fresh(keys) && fresh(positions)
    {
      keys := new K[capacity](_ => blank);
      positions := new int[capacity](_ => -1);
      this.capacity := capacity;
      new;
      assert positions[..] == Slots(0, capacity);
    }

    /** Decode's write of one position. */
    method Write(ghost stream: seq<K>, position: nat, key: K)
      requires Valid(stream, position) && position < |stream| && key == stream[position]
      modifies keys, positions
      ensures Valid(stream, position + 1)
    {
      hide Holds;
      HoldsStep(keys[..], positions[..], stream, position, capacity);
      var slot := position % capacity;
      keys[slot] := key;
      positions[slot] := position;
      assert keys[..] == old(keys[..])[slot := key];
      assert positions[..] == old(positions[..])[slot := position];
    }

    /** One composed row: its position from the closed form, its key from the ring or the chunk. */
    method ComposeRow(ghost stream: seq<K>, chunk: array<K>, start: nat, query: nat, row: nat) returns (key: K, position: int)
      requires Valid(stream, start) && query < |stream| && row < capacity && row <= query
      requires query - start < chunk.Length
      requires forall i :: 0 <= i < chunk.Length && start + i <= query ==> chunk[i] == stream[start + i]
      ensures position == Slots(query + 1, capacity)[row] && 0 <= position <= query
      ensures RowHolds(key, stream, start, capacity, position, row)
      ensures start <= query ==> key == stream[position]
    {
      hide Slots;
      var first := First(query, capacity);
      var offset := TruncMod(row - first, capacity);
      LiftedRemainder(row - first, capacity);
      if offset < 0 { offset := offset + capacity; }
      RowPosition(query, capacity, row);
      position := first + offset;
      if position < start {
        OldSlot(keys[..], positions[..], stream, start, capacity, position, row);
        key := keys[row];
      } else {
        key := chunk[position - start];
        assert key == stream[start + (position - start)];
      }
    }

    /** One query's rows: the pre-chunk rows still in its window, then the chunk's own, in slot
        order. They are, row by row, the ring decode would hold after writing the query. A query
        before the chunk gets the same labels, and in each row the key its slot holds now: its
        own exactly while the ring has not wrapped past it. */
    method ComposeLocalRows(ghost stream: seq<K>, chunk: array<K>, start: nat, chunkRow: nat, query: nat, limit: nat)
        returns (out: Option<Rows<K>>)
      requires Valid(stream, start) && query < |stream|
      requires chunkRow < chunk.Length
      requires forall i :: 0 <= i <= chunkRow && start + i < |stream| ==> chunk[i] == stream[start + i]
      ensures var rows := if query + 1 <= capacity then query + 1 else capacity;
        && (out.Some? <==> rows <= limit && query - start <= chunkRow)
        && (out.Some? ==>
              && |out.value.keys| == rows && out.value.positions == Slots(query + 1, capacity)[..rows]
              && (forall r :: 0 <= r < rows ==>
                    0 <= out.value.positions[r] <= query
                    && RowHolds(out.value.keys[r], stream, start, capacity, out.value.positions[r], r))
              && (start <= query ==>
                    forall r :: 0 <= r < rows ==> out.value.keys[r] == stream[out.value.positions[r]]))
    {
      hide Slots, RowHolds;
      var first := First(query, capacity);
      var rows := query - first + 1;
      if rows > limit || query - start > chunkRow { return None; }
      var outKeys, outPositions: seq<int> := [], [];
      for row := 0 to rows
        invariant |outKeys| == |outPositions| == row
        invariant outPositions == Slots(query + 1, capacity)[..row]
        invariant forall r :: 0 <= r < row ==>
          0 <= outPositions[r] <= query && RowHolds(outKeys[r], stream, start, capacity, outPositions[r], r)
        invariant start <= query ==> forall r :: 0 <= r < row ==> outKeys[r] == stream[outPositions[r]]
      {
        var key, position := ComposeRow(stream, chunk, start, query, row);
        outKeys := outKeys + [key];
        outPositions := outPositions + [position];
      }
      return Some(Rows(outKeys, outPositions));
    }

    /** The union for a tile of queries, in position order: row `r` is position `first + r`. */
    method ComposeUnionRows(ghost stream: seq<K>, chunk: array<K>, start: nat, firstRow: nat, tileRows: nat, limit: nat)
        returns (out: Option<Rows<K>>)
      requires Valid(stream, start) && 0 < tileRows && firstRow + tileRows <= chunk.Length
      requires start + chunk.Length <= |stream|
      requires forall i :: 0 <= i < chunk.Length ==> chunk[i] == stream[start + i]
      ensures var first := First(start + firstRow, capacity);
        var rows := start + firstRow + tileRows - first;
        && (out.Some? <==> rows <= limit)
        && (out.Some? ==>
              && |out.value.keys| == |out.value.positions| == rows
              && forall r :: 0 <= r < rows ==>
                   out.value.positions[r] == first + r && out.value.keys[r] == stream[first + r])
    {
      var firstQuery := start + firstRow;
      var first := First(firstQuery, capacity);
      var rows := firstQuery + tileRows - first;
      if rows > limit { return None; }
      var outKeys, outPositions: seq<int> := [], [];
      for row := 0 to rows
        invariant |outKeys| == |outPositions| == row
        invariant forall r :: 0 <= r < row ==> outPositions[r] == first + r && outKeys[r] == stream[first + r]
      {
        var position := first + row;
        var key: K;
        if position < start {
          OldRow(keys[..], positions[..], stream, start, capacity, position);
          Modular.DivModOf(position, capacity);
          key := keys[position % capacity];
        } else {
          key := chunk[position - start];
          assert key == stream[start + (position - start)];
        }
        outKeys := outKeys + [key];
        outPositions := outPositions + [position];
      }
      return Some(Rows(outKeys, outPositions));
    }

    /** After its queries the chunk writes its rows, in order: the ring is then the serial one. */
    method Commit(ghost stream: seq<K>, chunk: array<K>, start: nat, count: nat)
      requires Valid(stream, start) && count <= chunk.Length && start + count <= |stream|
      requires forall i :: 0 <= i < count ==> chunk[i] == stream[start + i]
      requires chunk != keys && chunk != positions
      modifies keys, positions
      ensures Valid(stream, start + count)
    {
      hide Holds;
      ghost var rows := chunk[..];
      for row := 0 to count
        invariant Valid(stream, start + row) && chunk[..] == rows
      {
        assert chunk[row] == rows[row];
        Write(stream, start + row, chunk[row]);
      }
    }
  }
}
