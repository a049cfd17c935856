/** The columnar frame index: growable typed columns that are a window on everything appended. */
module ColumnarStore {
  import opened Bytes

  /** One frame's columns, without its number. */
  datatype Row = Row(fileOffset: int, capturedLength: int, originalLength: int, timestamp: real,
                     protocolId: int, conversationHash: int, directionForward: int)

  /** A row as read back, with its global frame number. */
  datatype FrameIndexRecord = FrameIndexRecord(index: int, row: Row)

  /** What the typed columns keep: 32-, 16- and 8-bit unsigned values wrap. */
  function Stored(r: Row): Row
  {
    r.(capturedLength := r.capturedLength % 0x1_0000_0000, originalLength := r.originalLength % 0x1_0000_0000,
       protocolId := r.protocolId % 0x1_0000, conversationHash := r.conversationHash % 0x1_0000_0000,
       directionForward := r.directionForward % 0x100)
  }

  // ---- the abstract store: a log and how much of it has been evicted ----

  datatype Window = Window(log: seq<Row>, first: nat)
  {
    predicate Ok() { first <= |log| }

    function Get(i: int): Option<FrameIndexRecord>
      requires Ok()
    {
      if first <= i < |log| then Some(FrameIndexRecord(i, log[i])) else None
    }
  }

  datatype Op = Append(row: Row) | Evict(count: int) | Clear

  function After(w: Window, op: Op): (r: Window)
    requires w.Ok()
    ensures r.Ok()
  {
    match op
    case Append(row) => Window(w.log + [Stored(row)], w.first)
    case Evict(count) => Window(w.log, w.first + Max(0, Min(count, |w.log| - w.first)))
    case Clear => Window([], 0)
  }

  function Run(w: Window, ops: seq<Op>): (r: Window)
    requires w.Ok()
    ensures r.Ok()
  {
    if ops == [] then w else After(Run(w, ops[..|ops| - 1]), ops[|ops| - 1])
  }

  /** Between clears, a frame number names one record for good: it can be evicted, never reassigned. */
  lemma {:induction false} NumbersNeverReused(w: Window, ops: seq<Op>, i: nat)
    requires w.Ok() && i < |w.log| && Clear !in ops
    ensures w.log <= Run(w, ops).log && w.first <= Run(w, ops).first
    ensures Run(w, ops).Get(i) == w.Get(i) || Run(w, ops).Get(i) == None
    decreases |ops|
  {
    if ops != [] {
      assert Clear !in ops[..|ops| - 1] && ops[|ops| - 1] in ops;
      NumbersNeverReused(w, ops[..|ops| - 1], i);
    }
  }

  /** One allocation of the seven typed columns. */
  class Columns {
    const fileOffset: array<int>
    const capturedLength: array<int>
    const originalLength: array<int>
    const timestamp: array<real>
    const protocolId: array<int>
    const conversationHash: array<int>
    const directionForward: array<int>
    const capacity: nat

    /** The seven columns. */
    ghost const Repr: set<object>

    ghost predicate Shaped()
    {
      && Repr == {fileOffset as object, capturedLength, originalLength, timestamp, protocolId, conversationHash,
                  directionForward}
      && fileOffset.Length == capacity && capturedLength.Length == capacity && originalLength.Length == capacity
      && timestamp.Length == capacity && protocolId.Length == capacity && conversationHash.Length == capacity
      && directionForward.Length == capacity
      && fileOffset != capturedLength && fileOffset != originalLength && fileOffset != protocolId
      && fileOffset != conversationHash && fileOffset != directionForward
      && capturedLength != originalLength && capturedLength != protocolId && capturedLength != conversationHash
      && capturedLength != directionForward
      && originalLength != protocolId && originalLength != conversationHash && originalLength != directionForward
      && protocolId != conversationHash && protocolId != directionForward && conversationHash != directionForward
    }

    constructor (capacity: nat)
      ensures Shaped() && this.capacity == capacity && fresh(Repr)
    {
      var offsets, captured, original :=
        new int[capacity](_ => 0), new int[capacity](_ => 0), new int[capacity](_ => 0);
      var times := new real[capacity](_ => 0.0);
      var protocols, hashes, directions :=
        new int[capacity](_ => 0), new int[capacity](_ => 0), new int[capacity](_ => 0);
      this.capacity := capacity;
      fileOffset, capturedLength, originalLength, timestamp := offsets, captured, original, times;
      protocolId, conversationHash, directionForward := protocols, hashes, directions;
      Repr := {offsets as object, captured, original, times, protocols, hashes, directions};
    }

    function RowAt(slot: nat): Row
      requires Shaped() && slot < capacity
      reads fileOffset, capturedLength, originalLength, timestamp, protocolId, conversationHash, directionForward
    {
      Row(fileOffset[slot], capturedLength[slot], originalLength[slot], timestamp[slot],
          protocolId[slot], conversationHash[slot], directionForward[slot])
    }

    method Put(slot: nat, row: Row)
      requires Shaped() && slot < capacity
      modifies Repr
      ensures RowAt(slot) == Stored(row)
      ensures forall k :: 0 <= k < capacity && k != slot ==> RowAt(k) == old(RowAt(k))
    {
      fileOffset[slot] := row.fileOffset;
      capturedLength[slot] := row.capturedLength % 0x1_0000_0000;
      originalLength[slot] := row.originalLength % 0x1_0000_0000;
      timestamp[slot] := row.timestamp;
      protocolId[slot] := row.protocolId % 0x1_0000;
      conversationHash[slot] := row.conversationHash % 0x1_0000_0000;
      directionForward[slot] := row.directionForward % 0x100;
    }

    /** Copies `n` rows of `from`, starting at `start`, to the front of these columns. */
    method CopyRows(from: Columns, start: nat, n: nat)
      requires Shaped() && from.Shaped() && start + n <= from.capacity && n <= capacity
      requires from == this || from.Repr !! Repr
      modifies Repr
      ensures forall k :: 0 <= k < n ==> RowAt(k) == old(from.RowAt(start + k))
    {
      var k := 0;
      while k < n
        invariant k <= n
        invariant forall j :: 0 <= j < k ==> RowAt(j) == old(from.RowAt(start + j))
        invariant forall j :: start + k <= j < start + n ==> from.RowAt(j) == old(from.RowAt(j))
      {
        Move(from, start + k, k);
        k := k + 1;
      }
    }

    method Move(from: Columns, source: nat, target: nat)
      requires Shaped() && from.Shaped() && source < from.capacity && target < capacity
      requires from == this || from.Repr !! Repr
      modifies Repr
      ensures RowAt(target) == old(from.RowAt(source))
      ensures forall k :: 0 <= k < capacity && k != target ==> RowAt(k) == old(RowAt(k))
    {
      fileOffset[target] := from.fileOffset[source];
      capturedLength[target] := from.capturedLength[source];
      originalLength[target] := from.originalLength[source];
      timestamp[target] := from.timestamp[source];
      protocolId[target] := from.protocolId[source];
      conversationHash[target] := from.conversationHash[source];
      directionForward[target] := from.directionForward[source];
    }
  }

  class ColumnarIndexStore {
    /** Frames physically retained, and the global number of slot 0. */
    var length: nat
    var base: nat
    var columns: Columns
    /** Everything appended since the last clear. */
    ghost var log: seq<Row>

    ghost predicate Valid()
      reads this, columns.Repr
    {
      && columns.Shaped() && length <= columns.capacity && 1 <= columns.capacity && base + length == |log|
      && forall slot :: 0 <= slot < length ==> columns.RowAt(slot) == log[base + slot]
    }

    ghost function View(): (w: Window)
      requires Valid()
      reads this, columns.Repr
      ensures w.Ok()
    {
      Window(log, base)
    }

    constructor (initialCapacity: int)
      ensures Valid() && fresh(columns.Repr) && View() == Window([], 0)
    {
      columns := new Columns(if initialCapacity < 1 then 1 else initialCapacity);
      length, base, log := 0, 0, [];
    }

    method Grow()
      requires Valid()
      modifies this`columns
      ensures Valid() && View() == old(View()) && columns.capacity == 2 * old(columns.capacity) && fresh(columns.Repr)
    {
      var grown := new Columns(columns.capacity * 2);
      grown.CopyRows(columns, 0, length);
      columns := grown;
    }

    method Append(row: Row) returns (index: nat)
      requires Valid()
      modifies this, columns.Repr
      ensures Valid() && View() == After(old(View()), Op.Append(row)) && index == |old(log)|
      ensures columns == old(columns) || fresh(columns.Repr)
    {
      if length >= columns.capacity { Grow(); }
      columns.Put(length, row);
      log := log + [Stored(row)];
      index := base + length;
      length := length + 1;
    }

    method Get(index: int) returns (r: Option<FrameIndexRecord>)
      requires Valid()
      ensures Valid() && r == View().Get(index)
    {
      var slot := index - base;
      if slot < 0 || slot >= length { return None; }
      r := Some(FrameIndexRecord(index, columns.RowAt(slot)));
    }

    /** Records numbered in `[from, to)`, clamped to what exists. */
    method Range(from: int, to: int) returns (out: seq<FrameIndexRecord>)
      requires Valid()
      ensures Valid()
      ensures var start, end := Max(from, base), Min(to, |log|);
        |out| == Max(0, end - start) && forall k :: 0 <= k < |out| ==> View().Get(start + k) == Some(out[k])
    {
      var start, end := Max(from, base), Min(to, base + length);
      out := [];
      var index := start;
      while index < end
        invariant start <= index && (index <= end || index == start) && |out| == index - start
        invariant forall k :: 0 <= k < |out| ==> View().Get(start + k) == Some(out[k])
      {
        out := out + [FrameIndexRecord(index, columns.RowAt(index - base))];
        index := index + 1;
      }
    }

    /** The numbers of the retained records a predicate accepts, in order. */
    method Scan(accepts: FrameIndexRecord -> bool) returns (out: seq<int>)
      requires Valid()
      ensures Valid() && out == Accepted(View(), accepts, base)
    {
      out := [];
      ghost var w := View();
      var slot: nat := 0;
      while slot < length
        invariant slot <= length
        invariant Accepted(w, accepts, base) == out + Accepted(w, accepts, base + slot)
      {
        var record := FrameIndexRecord(base + slot, columns.RowAt(slot));
        assert record == FrameIndexRecord(base + slot, w.log[base + slot]);
        if accepts(record) {
          AppendAssociates(out, [record.index], Accepted(w, accepts, base + slot + 1));
          out := out + [record.index];
        } else {
          AppendNil(Accepted(w, accepts, base + slot + 1));
        }
        slot := slot + 1;
      }
      AppendNil(out);
    }

    method Count() returns (n: nat)
      requires Valid()
      ensures n == |log| - base
    {
      n := length;
    }

    method EvictOldest(count: int)
      requires Valid()
      modifies this, columns.Repr
      ensures Valid() && View() == After(old(View()), Evict(count)) && columns == old(columns)
    {
      var drop := if count < length then count else length;
      if drop <= 0 { return; }
      columns.CopyRows(columns, drop, length - drop);
      length := length - drop;
      base := base + drop;
    }

    method Reset()
      requires Valid()
      modifies this
      ensures Valid() && View() == After(old(View()), Clear) && columns == old(columns)
    {
      length, base, log := 0, 0, [];
    }
  }

  /** The reference scan over the retained part of the log, from number `i` on. */
  function Accepted(w: Window, accepts: FrameIndexRecord -> bool, i: nat): seq<int>
    requires w.Ok() && w.first <= i
    decreases |w.log| - i
  {
    if i >= |w.log| then []
    else (if accepts(FrameIndexRecord(i, w.log[i])) then [i] else []) + Accepted(w, accepts, i + 1)
  }

  /** The columns keep a row as it is exactly when each of its numbers fits the width of its column. */
  lemma StoredIff(r: Row)
    ensures Stored(r) == r
       <==> && 0 <= r.capturedLength < 0x1_0000_0000 && 0 <= r.originalLength < 0x1_0000_0000
            && 0 <= r.protocolId < 0x1_0000 && 0 <= r.conversationHash < 0x1_0000_0000
            && 0 <= r.directionForward < 0x100
  {
  }

  /** A number that does not fit is kept up to a multiple of its column's range. */
  lemma StoredWraps(r: Row)
    ensures var s := Stored(r);
      && s.fileOffset == r.fileOffset && s.timestamp == r.timestamp
      && (s.capturedLength - r.capturedLength) % 0x1_0000_0000 == 0
      && (s.originalLength - r.originalLength) % 0x1_0000_0000 == 0
      && (s.protocolId - r.protocolId) % 0x1_0000 == 0
      && (s.conversationHash - r.conversationHash) % 0x1_0000_0000 == 0
      && (s.directionForward - r.directionForward) % 0x100 == 0
  {
  }
}
