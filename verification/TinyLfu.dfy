/** pkg/storage/lfu: two count-min sketch windows and a doorkeeper that admit frequent keys. */
module TinyLfu {

  const DEPTH: nat := 4
  const WORD: int := 0x1_0000_0000

  type Key = nat

  /** The mixer with its seed already applied. */
  type Hash = Key -> nat

  // ----- what a window of increments says about a sketch

  /** How often `key` was incremented in the window. */
  ghost function Count(window: seq<Key>, key: Key): nat {
    if window == [] then 0 else Count(window[1..], key) + if window[0] == key then 1 else 0
  }

  /** How many increments of the window went to the cell that `cell` selects. */
  ghost function Hits(window: seq<Key>, hash: Hash, width: nat, cell: nat): nat
    requires width > 0
  {
    if window == [] then 0
    else Hits(window[1..], hash, width, cell) + if hash(window[0]) % width == cell then 1 else 0
  }

  lemma {:induction false} HitsPush(window: seq<Key>, key: Key, hash: Hash, width: nat, cell: nat)
    requires width > 0
    ensures Hits(window + [key], hash, width, cell)
         == Hits(window, hash, width, cell) + if hash(key) % width == cell then 1 else 0
  {
    if window != [] {
      HitsPush(window[1..], key, hash, width, cell);
      assert (window + [key])[1..] == window[1..] + [key];
    }
  }

  /** A key's cell holds at least its own increments and at most all of them. */
  lemma {:induction false} HitsBounds(window: seq<Key>, key: Key, hash: Hash, width: nat)
    requires width > 0
    ensures Count(window, key) <= Hits(window, hash, width, hash(key) % width) <= |window|
  {
    if window != [] {
      HitsBounds(window[1..], key, hash, width);
    }
  }

  ghost function RowTotal(window: seq<Key>, hash: Hash, width: nat, upTo: nat): nat
    requires width > 0
  {
    if upTo == 0 then 0 else RowTotal(window, hash, width, upTo - 1) + Hits(window, hash, width, upTo - 1)
  }

  /** Every increment lands in exactly one cell of a row. */
  lemma {:induction false} RowTotalCountsWindow(window: seq<Key>, hash: Hash, width: nat)
    requires width > 0
    ensures RowTotal(window, hash, width, width) == |window|
  {
    if window == [] {
      RowTotalEmpty(hash, width, width);
    } else {
      RowTotalCountsWindow(window[1..], hash, width);
      RowTotalPush(window, hash, width, width);
    }
  }

  lemma {:induction false} RowTotalEmpty(hash: Hash, width: nat, upTo: nat)
    requires width > 0
    ensures RowTotal([], hash, width, upTo) == 0
  {
    if upTo > 0 { RowTotalEmpty(hash, width, upTo - 1); }
  }

  lemma {:induction false} RowTotalPush(window: seq<Key>, hash: Hash, width: nat, upTo: nat)
    requires width > 0 && window != []
    ensures RowTotal(window, hash, width, upTo)
         == RowTotal(window[1..], hash, width, upTo) + if hash(window[0]) % width < upTo then 1 else 0
  {
    if upTo > 0 { RowTotalPush(window, hash, width, upTo - 1); }
  }

  lemma OneMore(x: int)
    ensures (x % WORD + 1) % WORD == (x + 1) % WORD
  {
  }

  lemma NoWrap(x: int)
    requires 0 <= x < WORD
    ensures x % WORD == x
  {
  }

  // ----- the sketch

  class CountMinSketch {
    const width: nat
    const hashes: seq<Hash>
    const table: array2<int>
    /** The keys incremented since the sketch was created. */
    ghost var window: seq<Key>

    ghost predicate Shape() {
      width > 0 && |hashes| == DEPTH && table.Length0 == DEPTH && table.Length1 == width
    }

    /** Every cell is the number of its increments, modulo the 32-bit word. */
    ghost predicate Valid()
      reads this, table
    {
      && Shape()
      && forall i, c {:trigger table[i, c]} :: 0 <= i < DEPTH && 0 <= c < width ==>
           table[i, c] == Hits(window, hashes[i], width, c) % WORD
    }

    constructor (width: nat, hashes: seq<Hash>)
      requires width > 0 && |hashes| == DEPTH
      ensures Valid() && window == [] && this.width == width && this.hashes == hashes && fresh(table)
    {
      this.width, this.hashes, window := width, hashes, [];
      table := new int[DEPTH, width]((i, c) => 0);
    }

    method Increment(key: Key)
      requires Valid()
      modifies this`window, table
      ensures Valid() && window == old(window) + [key]
    {
      hide Hits;
      for i := 0 to DEPTH
        invariant forall r, c {:trigger table[r, c]} :: 0 <= r < DEPTH && 0 <= c < width ==>
          table[r, c] == Hits(if r < i then window + [key] else window, hashes[r], width, c) % WORD
        modifies table
      {
        var idx := hashes[i](key) % width;
        forall c | 0 <= c < width
          ensures Hits(window + [key], hashes[i], width, c)
               == Hits(window, hashes[i], width, c) + if idx == c then 1 else 0
        {
          HitsPush(window, key, hashes[i], width, c);
        }
        OneMore(Hits(window, hashes[i], width, idx));
        table[i, idx] := (table[i, idx] + 1) % WORD;
      }
      window := window + [key];
    }

    /** The smallest of the key's cells in the first `rows` rows, and no more than the largest word. */
    ghost function Least(key: Key, rows: nat): int
      requires Shape() && rows <= DEPTH
      reads table
    {
      if rows == 0 then WORD - 1
      else
        var cell := table[rows - 1, hashes[rows - 1](key) % width];
        if cell < Least(key, rows - 1) then cell else Least(key, rows - 1)
    }

    method Estimate(key: Key) returns (mins: int)
      requires Shape()
      ensures mins == Least(key, DEPTH)
    {
      mins := WORD - 1;
      for i := 0 to DEPTH
        invariant mins == Least(key, i)
      {
        var idx := hashes[i](key) % width;
        var val := table[i, idx];
        if val < mins {
          mins := val;
        }
      }
    }

    /** With fewer increments than a word can count, the estimate never undercounts the key and never
        exceeds the window. */
    lemma LeastBounds(key: Key)
      requires Valid() && |window| < WORD
      ensures Count(window, key) <= Least(key, DEPTH) <= |window|
    {
      LeastBoundsUpTo(key, DEPTH);
    }

    lemma {:induction false} LeastBoundsUpTo(key: Key, rows: nat)
      requires Valid() && |window| < WORD && 0 < rows <= DEPTH
      ensures Count(window, key) <= Least(key, rows) <= |window|
    {
      var hash := hashes[rows - 1];
      HitsBounds(window, key, hash, width);
      NoWrap(Hits(window, hash, width, hash(key) % width));
      assert table[rows - 1, hash(key) % width] == Hits(window, hash, width, hash(key) % width);
      if rows > 1 { LeastBoundsUpTo(key, rows - 1); }
    }

    /** The estimate is one of the key's cells, and none of them is smaller. */
    lemma LeastIsSmallest(key: Key)
      requires Valid()
      ensures forall r {:trigger hashes[r]} :: 0 <= r < DEPTH ==> Least(key, DEPTH) <= table[r, hashes[r](key) % width]
      ensures exists r {:trigger hashes[r]} :: 0 <= r < DEPTH && Least(key, DEPTH) == table[r, hashes[r](key) % width]
    {
      LeastIsSmallestUpTo(key, DEPTH);
    }

    lemma {:induction false} LeastIsSmallestUpTo(key: Key, rows: nat)
      requires Valid() && 0 < rows <= DEPTH
      ensures forall r {:trigger hashes[r]} :: 0 <= r < rows ==> Least(key, rows) <= table[r, hashes[r](key) % width]
      ensures exists r {:trigger hashes[r]} :: 0 <= r < rows && Least(key, rows) == table[r, hashes[r](key) % width]
    {
      var idx := hashes[rows - 1](key) % width;
      assert table[rows - 1, idx] <= WORD - 1;
      if rows > 1 { LeastIsSmallestUpTo(key, rows - 1); }
      if table[rows - 1, idx] < Least(key, rows - 1) || rows == 1 {
        assert Least(key, rows) == table[rows - 1, hashes[rows - 1](key) % width];
      }
    }

    ghost function RowSum(row: nat, upTo: nat): int
      requires Shape() && row < DEPTH && upTo <= width
      reads table
    {
      if upTo == 0 then 0 else RowSum(row, upTo - 1) + table[row, upTo - 1]
    }

    /** Each row sums to the number of increments of the window. */
    lemma RowSumsToWindow(row: nat)
      requires Valid() && |window| < WORD && row < DEPTH
      ensures RowSum(row, width) == |window|
    {
      RowTotalCountsWindow(window, hashes[row], width);
      RowSumIsTotal(row, width);
    }

    lemma {:induction false} RowSumIsTotal(row: nat, upTo: nat)
      requires Valid() && |window| < WORD && row < DEPTH && upTo <= width
      ensures RowSum(row, upTo) == RowTotal(window, hashes[row], width, upTo)
    {
      if upTo > 0 {
        HitsAtMost(window, hashes[row], width, upTo - 1);
        RowSumIsTotal(row, upTo - 1);
      }
    }
  }

  lemma {:induction false} HitsAtMost(window: seq<Key>, hash: Hash, width: nat, cell: nat)
    requires width > 0
    ensures Hits(window, hash, width, cell) <= |window|
  {
    if window != [] { HitsAtMost(window[1..], hash, width, cell); }
  }

  // ----- the doorkeeper

  class Doorkeeper {
    const bits: array<bool>
    const first: Hash
    const second: Hash
    /** The keys passed to `Allow` so far. */
    ghost var seen: set<Key>

    ghost predicate Marks(k: Key, b: int)
      requires bits.Length > 0
    {
      b == first(k) % bits.Length || b == second(k) % bits.Length
    }

    /** A bit is set exactly when some key seen hashes to it. */
    ghost predicate Valid()
      reads this, bits
    {
      && bits.Length > 0
      && forall b {:trigger bits[b]} :: 0 <= b < bits.Length ==> (bits[b] <==> exists k :: k in seen && Marks(k, b))
    }

    constructor (capacity: nat, first: Hash, second: Hash)
      requires capacity > 0
      ensures Valid() && seen == {} && fresh(bits) && bits.Length == capacity
    {
      bits := new bool[capacity](_ => false);
      this.first, this.second, seen := first, second, {};
    }

    method Allow(key: Key) returns (known: bool)
      requires Valid()
      modifies this`seen, bits
      ensures Valid() && seen == old(seen) + {key}
      ensures key in old(seen) ==> known && bits[..] == old(bits[..])
      ensures known == old(bits[first(key) % bits.Length] && bits[second(key) % bits.Length])
    {
      var h1, h2 := first(key) % bits.Length, second(key) % bits.Length;
      if key in seen { assert Marks(key, h1) && Marks(key, h2); }
      known := bits[h1] && bits[h2];
      if !known {
        bits[h1] := true;
        bits[h2] := true;
      }
      seen := seen + {key};
      forall b {:trigger bits[b]} | 0 <= b < bits.Length
        ensures bits[b] <==> exists k :: k in seen && Marks(k, b)
      {
        assert old(bits[b]) ==> exists k :: k in old(seen) && Marks(k, b);
        assert key in seen;
        if Marks(key, b) { assert bits[b]; }
      }
    }
  }

  // ----- the admission filter

  /** Everything `Rotate` needs to set up a new window: sizes and freshly drawn seeds. */
  datatype Window = Window(width: nat, hashes: seq<Hash>, capacity: nat, first: Hash, second: Hash) {
    ghost predicate Ok() {
      width > 0 && |hashes| == DEPTH && capacity > 0
    }
  }

  class TinyLFU {
    var curr: CountMinSketch
    var prev: CountMinSketch
    var door: Doorkeeper

    ghost predicate Valid()
      reads this, curr, curr.table, prev, prev.table, door, door.bits
    {
      && curr != prev && curr.table != prev.table
      && curr.Valid() && prev.Valid() && door.Valid()
    }

    constructor (w: Window, v: Window)
      requires w.Ok() && v.Ok()
      ensures Valid() && curr.window == [] && prev.window == [] && door.seen == {}
      ensures fresh(curr) && fresh(curr.table) && fresh(prev) && fresh(prev.table) && fresh(door) && fresh(door.bits)
    {
      curr := new CountMinSketch(w.width, w.hashes);
      prev := new CountMinSketch(v.width, v.hashes);
      door := new Doorkeeper(w.capacity, w.first, w.second);
    }

    method Increment(key: Key)
      requires Valid()
      modifies curr`window, curr.table, door`seen, door.bits
      ensures Valid()
      ensures curr.window == old(curr.window) + [key] && prev.window == old(prev.window)
      ensures door.seen == old(door.seen) + {key}
    {
      curr.Increment(key);
      var _ := door.Allow(key);
    }

    /** (c + p) / 2 in 32-bit arithmetic. */
    ghost function EstimateOf(key: Key): int
      requires curr.Shape() && prev.Shape()
      reads this, curr.table, prev.table
    {
      (curr.Least(key, DEPTH) + prev.Least(key, DEPTH)) % WORD / 2
    }

    method Estimate(key: Key) returns (e: int)
      requires Valid()
      ensures e == EstimateOf(key)
    {
      var c := curr.Estimate(key);
      var p := prev.Estimate(key);
      e := (c + p) % WORD / 2;
    }

    /** A key the doorkeeper has seen since the last rotation is admitted exactly on frequency. */
    method Admit(newKey: Key, oldKey: Key) returns (admitted: bool)
      requires Valid()
      modifies door`seen, door.bits
      ensures Valid()
      ensures door.seen == old(door.seen) + {newKey}
      ensures newKey in old(door.seen) ==> admitted == (EstimateOf(newKey) >= EstimateOf(oldKey))
      ensures EstimateOf(newKey) >= EstimateOf(oldKey) ==> admitted
    {
      var known := door.Allow(newKey);
      if !known {
        return true;
      }
      var newFreq := Estimate(newKey);
      var oldFreq := Estimate(oldKey);
      admitted := newFreq >= oldFreq;
    }

    method Rotate(w: Window)
      requires Valid() && w.Ok()
      modifies this
      ensures Valid()
      ensures prev == old(curr) && prev.window == old(curr.window)
      ensures fresh(curr) && curr.window == [] && fresh(curr.table)
      ensures fresh(door) && fresh(door.bits) && door.seen == {}
    {
      prev := curr;
      curr := new CountMinSketch(w.width, w.hashes);
      door := new Doorkeeper(w.capacity, w.first, w.second);
    }

    /** The estimate lies between half the key's true count over both windows, rounded down, and half
        of all increments in them. */
    lemma EstimateBounds(key: Key)
      requires Valid() && 2 * |curr.window| < WORD && 2 * |prev.window| < WORD
      ensures (Count(curr.window, key) + Count(prev.window, key)) / 2 <= EstimateOf(key)
      ensures EstimateOf(key) <= (|curr.window| + |prev.window|) / 2
    {
      curr.LeastBounds(key);
      prev.LeastBounds(key);
      NoWrap(curr.Least(key, DEPTH) + prev.Least(key, DEPTH));
    }
  }
}
