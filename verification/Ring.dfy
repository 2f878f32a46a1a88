/** The tick ring buffer and its readers: a window on an unbounded history. */
module Ring {

  /** What get and put hand out: a null pointer, or a pointer to a slot of the buffer. */
  datatype Ptr = Null | Slot(index: nat)

  const MAX_BYTES := 4 * 1024 * 1024

  // ---------------------------------------------------------------- arithmetic of wrapping indices

  lemma MulGap(d: int, n: nat)
    ensures d >= 1 ==> d * n >= n
    ensures d <= -1 ==> d * n <= 0 - n
    ensures d == 0 ==> d * n == 0
  {
    if d >= 1 {
      assert (d - 1) * n >= 0;
    } else if d <= -1 {
      assert (-1 - d) * n >= 0;
    }
  }

  lemma MulMinus(p: int, q: int, n: nat)
    ensures (p - q) * n == p * n - q * n
    ensures (p + q) * n == p * n + q * n
  {
  }

  lemma ModUnique(a: int, q: int, r: int, n: nat)
    requires n > 0 && a == q * n + r && 0 <= r < n
    ensures a % n == r && a / n == q
  {
    MulMinus(q, a / n, n);
    MulGap(q - a / n, n);
  }

  /** The slot after that of item k - 1 is that of item k. */
  lemma NextSlot(k: nat, n: nat)
    requires n > 0 && k > 0
    ensures ((k - 1) % n + 1) % n == k % n
  {
    var q, r := (k - 1) / n, (k - 1) % n;
    assert k - 1 == q * n + r;
    if r + 1 < n {
      ModUnique(k, q, r + 1, n);
      ModUnique(r + 1, 0, r + 1, n);
    } else {
      assert k == (q + 1) * n + 0;
      ModUnique(k, q + 1, 0, n);
      ModUnique(n, 1, 0, n);
    }
  }

  /** Two items less than n apart have different slots. */
  lemma SlotsDiffer(i: nat, j: nat, n: nat)
    requires i < j < i + n
    ensures i % n != j % n
  {
    MulMinus(j / n, i / n, n);
    MulGap(j / n - i / n, n);
  }

  /** k steps back from the slot of item m, wrapping, is the slot of item m - k. */
  lemma BackSlot(m: nat, k: nat, n: nat)
    requires n > 0 && k <= m
    ensures (m % n - k) % n == (m - k) % n
  {
    MulMinus((m - k) / n, m / n, n);
    ModUnique(m % n - k, (m - k) / n - m / n, (m - k) % n, n);
  }

  /** Among the items 0 .. m-1, the last one put into the slot of item j. */
  function LastInSlot(j: nat, m: nat, n: nat): (last: nat)
    requires n > 0 && j < m
  {
    MulGap((m - 1 - j) / n, n);
    j + (m - 1 - j) / n * n
  }

  /** It is item j itself as long as fewer than n items were put after it, and only so long. */
  lemma LastInSlotIs(j: nat, m: nat, n: nat)
    requires n > 0 && j < m
    ensures var last := LastInSlot(j, m, n);
            && j <= last < m <= last + n && last % n == j % n
            && (last == j <==> m <= j + n)
  {
    var laps := (m - 1 - j) / n;
    MulGap(laps, n);
    MulMinus(laps, j / n, n);
    ModUnique(j + laps * n, laps + j / n, j % n, n);
  }

  lemma StepBack(head: int, i: int, n: nat)
    requires n > 0
    ensures var here := (head - i) % n;
            (head - (i + 1)) % n == if here == 0 then n - 1 else here - 1
  {
    var q, r := (head - i) / n, (head - i) % n;
    MulMinus(q, 1, n);
    if r == 0 {
      ModUnique(head - (i + 1), q - 1, n - 1, n);
    } else {
      ModUnique(head - (i + 1), q, r - 1, n);
    }
  }

  // ---------------------------------------------------------------- the buffer

  class RingBuffer<T(0)> {
    var buffer: array<T>
    var items: array<Ptr>
    var head: int

    /** Everything ever put. */
    ghost var history: seq<T>

    /** The newest items stand in their slots, unwritten slots are null. */
    ghost predicate Valid()
      reads this, buffer, items
    {
      && items.Length == buffer.Length > 0
      && (buffer as object) != (items as object)
      && head == (if history == [] then -1 else (|history| - 1) % items.Length)
      && (forall j :: 0 <= j < |history| && |history| - items.Length <= j ==>
            Holds(j % items.Length, history[j]))
      && (forall i :: |history| <= i < items.Length ==> items[i] == Null)
    }

    ghost predicate Holds(i: int, x: T)
      reads this, buffer, items
      requires items.Length == buffer.Length
    {
      0 <= i < items.Length && items[i] == Slot(i) && buffer[i] == x
    }

    /** The index i steps back from the head, wrapping. */
    ghost function Back(i: int): (index: int)
      reads this
      requires items.Length > 0
      ensures 0 <= index < items.Length
    {
      (head - i) % items.Length
    }

    /** What a pointer points to now. */
    function Deref(p: Ptr): T
      reads this, buffer
      requires p.Slot? && p.index < buffer.Length
    {
      buffer[p.index]
    }

    /** A pointer to item j of the history; null for an index before its start. */
    ghost predicate PointsTo(p: Ptr, j: int)
      reads this, buffer
      requires j < |history|
    {
      if j < 0 then p == Null else p.Slot? && p.index < buffer.Length && Deref(p) == history[j]
    }

    /** init: at most four megabytes. */
    constructor (itemLen: nat, itemCount: nat)
      requires itemCount > 0 && itemLen * itemCount <= MAX_BYTES
      ensures Valid() && history == [] && items.Length == itemCount
      ensures fresh(buffer) && fresh(items)
    {
      buffer := new T[itemCount];
      items := new Ptr[itemCount](_ => Null);
      head := -1;
      history := [];
    }

    method Put(item: T) returns (p: Ptr)
      requires Valid()
      modifies this, buffer, items
      ensures Valid() && history == old(history) + [item]
      ensures buffer == old(buffer) && items == old(items)
      ensures p == Slot(|old(history)| % items.Length) && Deref(p) == item
    {
      var n := items.Length;
      var index := (head + 1) % n;
      ghost var k := |history|;
      if k > 0 { NextSlot(k, n); } else { ModUnique(0, 0, 0, n); }
      items[index] := Slot(index);
      buffer[index] := item;
      head := index;
      history := history + [item];
      p := Slot(index);
      forall j | 0 <= j < |history| && |history| - n <= j ensures Holds(j % n, history[j]) {
        if j < k {
          SlotsDiffer(j, k, n);
          assert old(Holds(j % n, history[j]));
        }
      }
      if k < n { ModUnique(k, 0, k, n); }
    }

    /** Null for a negative index. */
    method Get(index: int) returns (p: Ptr)
      requires Valid()
      ensures p == if index < 0 then Null else items[index % items.Length]
    {
      if index < 0 {
        return Null;
      }
      p := items[index % items.Length];
    }

    method Count() returns (n: nat)
      ensures n == items.Length
    {
      n := items.Length;
    }

    /** Where walking k back leads: to the slot of an item, or past the start to one not yet
        written. */
    lemma BackIndex(k: nat)
      requires Valid() && k < items.Length && history != []
      ensures Back(k) == if k < |history| then (|history| - 1 - k) % items.Length
                         else |history| - 1 - k + items.Length
    {
      var n, m := items.Length, |history|;
      assert head == (m - 1) % n;
      hide Valid;
      if k < m {
        BackSlot(m - 1, k, n);
      } else {
        ModUnique(m - 1, 0, m - 1, n);
        ModUnique(head - k, -1, m - 1 - k + n, n);
      }
    }

    /** Walking k back from the head, wrapping, finds the item put k before the newest. */
    lemma NthNewest(k: nat)
      requires Valid() && k < items.Length
      ensures PointsTo(items[Back(k)], |history| - 1 - k)
    {
      hide Back;
      if history != [] {
        BackIndex(k);
        if k < |history| {
          assert Holds(Back(k), history[|history| - 1 - k]);
        }
      }
    }

    lemma Shape()
      requires Valid()
      ensures items.Length == buffer.Length > 0
      ensures -1 <= head < items.Length && (head == -1 <==> history == [])
    {
    }

    /** At any later time the slot of item j holds the last item put into that slot: item j
        itself exactly as long as at most N - 1 items were put after it. */
    lemma SlotContent(j: nat)
      requires Valid() && j < |history|
      ensures LastInSlot(j, |history|, items.Length) < |history|
      ensures Holds(j % items.Length, history[LastInSlot(j, |history|, items.Length)])
      ensures LastInSlot(j, |history|, items.Length) == j <==> |history| <= j + items.Length
    {
      hide LastInSlot;
      var last := LastInSlot(j, |history|, items.Length);
      LastInSlotIs(j, |history|, items.Length);
      assert Holds(last % items.Length, history[last]);
    }
  }

  // ---------------------------------------------------------------- readers

  method GetLatestTick<T(0)>(rb: RingBuffer<T>) returns (p: Ptr)
    requires rb.Valid()
    ensures rb.PointsTo(p, |rb.history| - 1)
  {
    rb.NthNewest(0);
    rb.Shape();
    if rb.head >= 0 { ModUnique(rb.head, 0, rb.head, rb.items.Length); }
    p := rb.Get(rb.head);
  }

  /** With at least two slots, the item before the newest, or null; with a single slot it is
      the newest item itself. */
  method GetPreLatestTick<T(0)>(rb: RingBuffer<T>) returns (p: Ptr)
    requires rb.Valid()
    ensures rb.items.Length >= 2 && rb.history != [] ==> rb.PointsTo(p, |rb.history| - 2)
    ensures rb.history == [] ==> p == Null
    ensures rb.items.Length == 1 ==> rb.PointsTo(p, |rb.history| - 1)
  {
    var preIndex := rb.head - 1;
    var n := rb.Count();
    if preIndex < 0 {
      preIndex := preIndex + n;
    }
    if n >= 2 {
      rb.NthNewest(1);
      if rb.history != [] {
        ModUnique(preIndex, 0, preIndex, n);
        ModUnique(rb.head - 1, if rb.head == 0 then -1 else 0, preIndex, n);
      }
    } else {
      rb.NthNewest(0);
    }
    p := rb.Get(preIndex);
  }

  /** One step of the walk: where index i back from the head reads, and the wrapped index
      after it. */
  lemma WalkStep<T(0)>(rb: RingBuffer<T>, here: nat, i: nat)
    requires rb.Valid() && i + 1 < rb.items.Length && i <= |rb.history|
    requires here == rb.Back(i)
    ensures rb.PointsTo(rb.items[here % rb.items.Length], |rb.history| - 1 - i)
    ensures rb.items[here % rb.items.Length] == Null <==> i == |rb.history|
    ensures var next := if here == 0 then rb.items.Length - 1 else here - 1;
            && next == rb.Back(i + 1)
            && (i < |rb.history| ==> rb.PointsTo(rb.items[next % rb.items.Length], |rb.history| - 2 - i))
  {
    hide rb.Valid;
    var n := rb.items.Length;
    rb.NthNewest(i);
    if i < |rb.history| {
      rb.NthNewest(i + 1);
    }
    StepBack(rb.head, i, n);
    ModUnique(here, 0, here, n);
    var next := if here == 0 then n - 1 else here - 1;
    ModUnique(next, 0, next, n);
  }

  lemma BackZero<T(0)>(rb: RingBuffer<T>)
    requires rb.Valid() && rb.history != []
    ensures rb.Back(0) == rb.head
  {
    ModUnique(rb.head, 0, rb.head, rb.items.Length);
  }

  /** The ring-buffer form: newest first, half the capacity at most, each with its predecessor. */
  method ScanTicks<T(0)>(rb: RingBuffer<T>) returns (rows: seq<(Ptr, Ptr)>)
    requires rb.Valid()
    ensures |rows| == if |rb.history| < rb.items.Length / 2 then |rb.history| else rb.items.Length / 2
    ensures forall i :: 0 <= i < |rows| ==>
              rb.PointsTo(rows[i].0, |rb.history| - 1 - i) && rb.PointsTo(rows[i].1, |rb.history| - 2 - i)
  {
    hide rb.Valid, rb.PointsTo, rb.Back;
    rows := [];
    rb.Shape();
    var head := rb.head;
    if head < 0 {
      return;
    }
    var n := rb.Count();
    assert head == rb.Back(0) by { BackZero(rb); }
    var i := 0;
    while i < n / 2
      invariant 0 <= i <= n / 2 && i <= |rb.history|
      invariant head == rb.Back(i)
      invariant |rows| == i
      invariant forall j :: 0 <= j < i ==>
                  rb.PointsTo(rows[j].0, |rb.history| - 1 - j) && rb.PointsTo(rows[j].1, |rb.history| - 2 - j)
    {
      WalkStep(rb, head, i);
      var curTick := rb.Get(head);
      if curTick == Null {
        break;
      }
      head := head - 1;
      if head == -1 {
        head := head + n;
      }
      var preTick := rb.Get(head);
      rows := rows + [(curTick, preTick)];
      i := i + 1;
    }
  }
}
