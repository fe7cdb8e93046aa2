// The growable byte buffer of the connection engine (buffer_init, buffer_free,
// buffer_allocate, buffer_make_space and buffer_find_chr).

module ByteBuffer {

  newtype byte = b: int | 0 <= b < 256

  /** Capacity floor used by buffer_make_space. */
  const MinCapacity: int := 4096

  /** The observable state of a buffer: the bytes [0, size), the read cursor
      and the capacity. Bytes at or beyond size are never read by the engine. */
  datatype View = View(bytes: seq<byte>, start: int, capacity: int)
  {
    predicate Valid() {
      0 <= start <= |bytes| <= capacity
    }

    /** The unconsumed window [start, size). */
    function Unconsumed(): seq<byte>
      requires Valid()
    {
      bytes[start..]
    }
  }

  /** An initialised (or freed) buffer: no storage, everything zero. */
  const Empty: View := View([], 0, 0)

  /** Least index i with from <= i < |s| and s[i] == c, or -1. */
  function FindFrom(s: seq<byte>, from: int, c: byte): (r: int)
    requires 0 <= from <= |s|
    ensures r == -1 || (from <= r < |s| && s[r] == c)
    decreases |s| - from
  {
    if from == |s| then -1
    else if s[from] == c then from
    else FindFrom(s, from + 1, c)
  }

  /** FindFrom finds the first occurrence: no c lies between from and the
      index found, nor anywhere after from when it finds none. */
  lemma {:induction false} FindFromLeast(s: seq<byte>, from: int, c: byte)
    requires 0 <= from <= |s|
    ensures var r := FindFrom(s, from, c);
      forall j :: from <= j < (if r < 0 then |s| else r) ==> s[j] != c
    decreases |s| - from
  {
    if from < |s| && s[from] != c {
      FindFromLeast(s, from + 1, c);
    }
  }

  /** A delimiter found in s is found at the same place once more bytes are
      appended; one not found in s can only be found in the appended part. */
  lemma {:induction false} FindFromAppend(s: seq<byte>, t: seq<byte>, from: int, c: byte)
    requires 0 <= from <= |s|
    ensures FindFrom(s, from, c) >= 0 ==> FindFrom(s + t, from, c) == FindFrom(s, from, c)
    ensures FindFrom(s, from, c) < 0 ==> FindFrom(s + t, from, c) == -1 || FindFrom(s + t, from, c) >= |s|
    decreases |s| - from
  {
    if from < |s| {
      assert (s + t)[from] == s[from];
      if s[from] != c {
        FindFromAppend(s, t, from + 1, c);
      }
    }
  }

  /** The doubling loop of buffer_make_space, started from x. */
  function Doubled(x: int, size: int, n: int): (r: int)
    requires x >= 1
    ensures r >= x && r - size >= n
    ensures r == x || (r % 2 == 0 && x <= r / 2 && r / 2 - size < n)
    decreases size + n - x
  {
    if x - size < n then Doubled(2 * x, size, n) else x
  }

  /** The capacity buffer_make_space asks for: the current capacity raised to
      the 4096 floor, then doubled until n more bytes fit after size. */
  function NewCapacity(capacity: int, size: int, n: int): int
  {
    Doubled(if capacity < MinCapacity then MinCapacity else capacity, size, n)
  }

  lemma CapacityBounds(capacity: int, size: int, n: int)
    ensures NewCapacity(capacity, size, n) >= MinCapacity
    ensures NewCapacity(capacity, size, n) >= capacity
    ensures NewCapacity(capacity, size, n) - size >= n
  {
  }

  /** buffer_make_space on the abstract view: the new view and the return code
      (0 on success, -1 when the reallocation fails). The reallocation is only
      attempted when the capacity changes. */
  function MakeSpaceOn(v: View, n: int, allocFails: bool): (View, int)
  {
    var cap := NewCapacity(v.capacity, |v.bytes|, n);
    if cap == v.capacity then (v, 0)
    else if allocFails then (v, -1)
    else (v.(capacity := cap), 0)
  }

  /** buffer_make_space succeeds with at least n free bytes after size, the
      4096 floor, a capacity that never shrinks and the bytes kept; when it
      fails it reports -1 and leaves the buffer as it was. */
  lemma MakeSpaceSpec(v: View, n: int, allocFails: bool)
    requires v.Valid()
    ensures var (w, rc) := MakeSpaceOn(v, n, allocFails);
      && (rc == 0 || rc == -1)
      && (rc == 0 ==> w.Valid() && w.bytes == v.bytes && w.start == v.start
                      && w.capacity >= MinCapacity && w.capacity >= v.capacity
                      && w.capacity - |w.bytes| >= n)
      && (rc == -1 ==> w == v && allocFails)
  {
    CapacityBounds(v.capacity, |v.bytes|, n);
  }

  /** on_read's pattern: make room for 4096 bytes, then append what read
      returned (at most 4096 bytes); the cursor invariant still holds. */
  lemma ReadKeepsBounds(v: View, got: seq<byte>, allocFails: bool)
    requires v.Valid() && |got| <= 4096
    requires MakeSpaceOn(v, 4096, allocFails).1 == 0
    ensures var w := MakeSpaceOn(v, 4096, allocFails).0;
      var after := w.(bytes := w.bytes + got);
      after.Valid() && after.start == v.start && after.bytes[..|v.bytes|] == v.bytes
  {
    MakeSpaceSpec(v, 4096, allocFails);
  }

  /** A buffer as in the source: a backing array with a cursor and a size.
      The ghost field bytes mirrors the filled part data[0..size). */
  class Buffer {
    var data: array<byte>
    var start: int
    var size: int
    var capacity: int
    ghost var bytes: seq<byte>

    /** The cursor and the filled part fit in the storage. */
    ghost predicate Shape()
      reads this
    {
      0 <= start <= |bytes| <= capacity
    }

    ghost predicate Valid()
      reads this, data
    {
      && Shape() && capacity == data.Length
      && size == |bytes| && bytes == data[..size]
    }

    ghost function ToView(): (v: View)
      reads this
      requires Shape()
      ensures v.Valid()
    {
      View(bytes, start, capacity)
    }

    /** buffer_init */
    constructor Init()
      ensures Valid() && ToView() == Empty && fresh(data)
    {
      data := new byte[0];
      start, size, capacity := 0, 0, 0;
      bytes := [];
    }

    /** buffer_free: release the storage and return to the initial state. */
    method Free()
      modifies this
      ensures Valid() && ToView() == Empty && fresh(data)
    {
      data := new byte[0];
      start, size, capacity := 0, 0, 0;
      bytes := [];
    }

    /** buffer_allocate: resize the storage to n bytes (realloc), keeping the
        bytes [0, size). The caller only ever grows the buffer. */
    method Allocate(n: int, allocFails: bool) returns (rc: int)
      requires Valid() && capacity <= n
      modifies this
      ensures Valid() && start == old(start) && size == old(size) && bytes == old(bytes)
      ensures rc == 0 || rc == -1
      ensures rc == -1 <==> (n != old(capacity) && allocFails)
      ensures rc == 0 ==> capacity == n
      ensures rc == -1 ==> capacity == old(capacity) && data == old(data)
      ensures data == old(data) || fresh(data)
      ensures data == old(data) ==> unchanged(data)
    {
      if n == capacity {
        return 0;
      }
      if allocFails {
        return -1;
      }
      var grown := new byte[n];
      forall i | 0 <= i < size {
        grown[i] := data[i];
      }
      data := grown;
      capacity := n;
      rc := 0;
    }

    /** buffer_make_space: grow by doubling from the 4096 floor until n more
        bytes fit after size. */
    method MakeSpace(n: int, allocFails: bool) returns (rc: int)
      requires Valid()
      modifies this
      ensures Valid()
      ensures (ToView(), rc) == MakeSpaceOn(old(ToView()), n, allocFails)
      ensures data == old(data) || fresh(data)
      ensures data == old(data) ==> unchanged(data)
    {
      var newSize := capacity;
      if newSize < MinCapacity {
        newSize := MinCapacity;
      }
      ghost var first := newSize;
      while newSize - size < n
        invariant newSize >= first >= 1
        invariant Doubled(newSize, size, n) == NewCapacity(capacity, size, n)
        decreases size + n - newSize
      {
        newSize := newSize * 2;
      }
      CapacityBounds(capacity, size, n);
      rc := Allocate(newSize, allocFails);
    }

    /** Copy d into the free space after size and extend size over it: the
        memcpy of evhttp_connection_send and the read of on_read. */
    method Append(d: seq<byte>)
      requires Valid() && |d| <= capacity - size
      modifies this, data
      ensures Valid() && data == old(data)
      ensures ToView() == old(ToView()).(bytes := old(ToView()).bytes + d)
    {
      forall i | 0 <= i < |d| {
        data[size + i] := d[i];
      }
      size := size + |d|;
      bytes := bytes + d;
      assert data[..size] == old(data[..size]) + d;
    }

    /** Forget the contents, keeping the storage: start and size back to 0. */
    method Reset()
      requires Valid()
      modifies this
      ensures Valid() && data == old(data)
      ensures ToView() == old(ToView()).(bytes := [], start := 0)
    {
      start, size := 0, 0;
      bytes := [];
    }

    /** Overwrite the filled byte at i. */
    method Put(i: int, b: byte)
      requires Valid() && 0 <= i < size
      modifies this, data
      ensures Valid() && data == old(data)
      ensures ToView() == old(ToView()).(bytes := old(bytes)[i := b])
    {
      data[i] := b;
      bytes := bytes[i := b];
    }

    /** The filled bytes [a, b), as a view into the buffer is read. */
    method Slice(a: int, b: int) returns (r: seq<byte>)
      requires Valid() && 0 <= a <= b <= size
      ensures r == bytes[a..b]
    {
      r := data[a..b];
    }

    /** buffer_find_chr: the least index in [start, size) holding c, or -1. */
    method FindChr(c: byte) returns (i: int)
      requires Valid()
      ensures i == FindFrom(bytes, start, c)
    {
      i := start;
      while i < size
        invariant start <= i <= size
        invariant forall j :: start <= j < i ==> data[j] != c
        invariant FindFrom(bytes, start, c) == FindFrom(bytes, i, c)
      {
        if data[i] == c {
          return i;
        }
        i := i + 1;
      }
      return -1;
    }
  }
}
