/** Market data: filtering a tick, storing it in the ring, handing out pointers, and turning a
    pair of pointers into the volume traded in between. */
module MarketData {
  import opened Ring

  /** time: the tick's own date and time in milliseconds; rest: all that is only copied. */
  datatype Tick = Tick(volume: int, time: int, rest: string)

  const TOLERANCE := 5 * 60 * 1000

  predicate InTime(tick: Tick, now: int) {
    -TOLERANCE < tick.time - now < TOLERANCE
  }

  /** What the two filter rules promise of a tick let through after those in `accepted`. */
  predicate Passes(filterTick: bool, accepted: seq<Tick>, tick: Tick, now: int) {
    filterTick && (accepted == [] || accepted[|accepted| - 1].volume == tick.volume) ==> InTime(tick, now)
  }

  /** So what is refused, with the filter on, is a first tick, or one without new volume, that is five
      minutes or more off the clock. */
  lemma RefusedIff(filterTick: bool, accepted: seq<Tick>, tick: Tick, now: int)
    ensures !Passes(filterTick, accepted, tick, now) <==>
              && filterTick
              && (tick.time <= now - 300000 || tick.time >= now + 300000)
              && (accepted != [] ==> tick.volume == accepted[|accepted| - 1].volume)
  {
  }

  /** The volume steps of a series of ticks; the first counts as 1. */
  function Steps(ticks: seq<Tick>): (steps: seq<int>)
    ensures |steps| == |ticks|
  {
    seq(|ticks|, i requires 0 <= i < |ticks| => if i == 0 then 1 else ticks[i].volume - ticks[i - 1].volume)
  }

  lemma StepsExtend(ticks: seq<Tick>, k: nat)
    requires k < |ticks|
    ensures Steps(ticks[..k + 1]) == Steps(ticks[..k]) + [Steps(ticks)[k]]
  {
  }

  function Sum(s: seq<int>): int {
    if s == [] then 0 else Sum(s[..|s| - 1]) + s[|s| - 1]
  }

  lemma {:induction false} StepsTelescope(ticks: seq<Tick>)
    requires ticks != []
    ensures Sum(Steps(ticks)[1..]) == ticks[|ticks| - 1].volume - ticks[0].volume
  {
    var n := |ticks|;
    if n > 1 {
      StepsTelescope(ticks[..n - 1]);
      var tail := Steps(ticks)[1..];
      assert tail[..n - 2] == Steps(ticks[..n - 1])[1..];
    }
  }

  /** The pointers handed out for item k of the history of an n-slot ring. */
  function PairOf(k: nat, n: nat): (Ptr, Ptr)
    requires n > 0
  {
    (Slot(k % n), if k == 0 then Null else Slot((k - 1) % n))
  }

  /** With two slots or more the pair is two different slots. */
  lemma PairsDoNotAlias(k: nat, n: nat)
    requires n > 0
    ensures PairOf(k, n).0 == PairOf(k, n).1 <==> n == 1 && k > 0
  {
    if k > 0 && n > 1 {
      SlotsDiffer(k - 1, k, n);
    }
  }

  /** No slot of item k's pair has been written again. */
  predicate Timely(k: nat, m: nat, n: nat) {
    k == 0 || m < k + n
  }

  /** What translating item k's pair yields once `history` has been put. */
  function TranslatedVolume(history: seq<Tick>, k: nat, n: nat): (v: int)
    requires n > 0 && k < |history|
  {
    var m := |history|;
    if k == 0 then
      1
    else
      LastInSlotIs(k, m, n);
      LastInSlotIs(k - 1, m, n);
      history[LastInSlot(k, m, n)].volume - history[LastInSlot(k - 1, m, n)].volume
  }

  /** In time, the step from the tick before; one put later, the predecessor's slot already
      holds a newer tick and the volume runs backwards. */
  lemma TranslatedVolumeIs(history: seq<Tick>, k: nat, n: nat)
    requires n > 0 && k < |history|
    ensures Timely(k, |history|, n) ==> TranslatedVolume(history, k, n) == Steps(history)[k]
    ensures k > 0 && |history| == k + n ==>
              TranslatedVolume(history, k, n) == history[k].volume - history[k + n - 1].volume
  {
    var m := |history|;
    if k > 0 {
      LastInSlotIs(k, m, n);
      LastInSlotIs(k - 1, m, n);
      if m == k + n {
        assert (m - 1 - (k - 1)) == 1 * n + 0;
        ModUnique(m - 1 - (k - 1), 1, 0, n);
      }
    }
  }

  class MdSm {
    const filterTick: bool
    const rb: RingBuffer<Tick>

    /** Pairs emitted and not yet translated by the receiver, and the volumes it computed. */
    var pending: seq<(Ptr, Ptr)>
    var volumes: seq<int>
    ghost var translated: nat
    ghost var timely: bool

    ghost predicate Valid()
      reads this, rb, rb.buffer, rb.items
    {
      && rb.Valid()
      && translated + |pending| == |rb.history|
      && (forall i :: 0 <= i < |pending| ==> pending[i] == PairOf(translated + i, rb.items.Length))
      && |volumes| == translated
      && (timely ==> volumes == Steps(rb.history[..translated]))
    }

    constructor (filterTick: bool, itemLen: nat, itemCount: nat)
      requires itemCount > 0 && itemLen * itemCount <= MAX_BYTES
      ensures Valid() && fresh(rb) && fresh(rb.buffer) && fresh(rb.items)
      ensures this.filterTick == filterTick && rb.items.Length == itemCount
      ensures rb.history == [] && pending == [] && volumes == [] && translated == 0 && timely
    {
      this.filterTick := filterTick;
      rb := new RingBuffer(itemLen, itemCount);
      pending, volumes, translated, timely := [], [], 0, true;
    }

    method IsValidTick(curTick: Tick, now: int) returns (valid: bool)
      requires Valid()
      ensures valid == Passes(filterTick, rb.history, curTick, now)
    {
      if !filterTick {
        return true;
      }
      var preTick := GetLatestTick(rb);
      if preTick == Null || rb.Deref(preTick).volume == curTick.volume {
        var delta := if curTick.time < now then now - curTick.time else curTick.time - now;
        if delta >= 5 * 60 * 1000 {
          return false;
        }
      }
      return true;
    }

    /** The pair emitted points to the tick and to the one accepted before it, two slots when
        the ring has at least two. */
    method OnRtnDepthMarketData(tick: Tick, now: int)
      requires Valid()
      modifies this`pending, rb, rb.buffer, rb.items
      ensures Valid() && rb.buffer == old(rb.buffer) && rb.items == old(rb.items)
      ensures if Passes(filterTick, old(rb.history), tick, now)
              then && rb.history == old(rb.history) + [tick]
                   && pending == old(pending) + [PairOf(|old(rb.history)|, rb.items.Length)]
                   && rb.PointsTo(pending[|pending| - 1].0, |rb.history| - 1)
                   && (rb.items.Length >= 2 ==> rb.PointsTo(pending[|pending| - 1].1, |rb.history| - 2))
              else rb.history == old(rb.history) && pending == old(pending)
    {
      var valid := IsValidTick(tick, now);
      if !valid {
        return;
      }
      hide rb.Valid, rb.PointsTo, Steps, LastInSlot;
      ghost var k, n := |rb.history|, rb.items.Length;
      rb.Shape();
      LatestSlot();
      var preTick := rb.Get(rb.head);
      var curTick := rb.Put(tick);
      pending := pending + [(curTick, preTick)];
      rb.Shape();
      PairPointsTo(k);
      assert translated <= k;
      assert rb.history[..translated] == old(rb.history)[..translated];
    }

    /** While timely, a pair points to item k and the one before it. */
    lemma PairPointsTo(k: nat)
      requires rb.Valid() && k < |rb.history| <= k + rb.items.Length
      ensures rb.PointsTo(PairOf(k, rb.items.Length).0, k)
      ensures Timely(k, |rb.history|, rb.items.Length) ==> rb.PointsTo(PairOf(k, rb.items.Length).1, k - 1)
    {
      hide LastInSlot, rb.Valid;
      rb.Shape();
      rb.SlotContent(k);
      if k > 0 {
        rb.SlotContent(k - 1);
      }
    }

    lemma LatestSlot()
      requires rb.Valid()
      ensures rb.history == [] ==> rb.head == -1
      ensures rb.history != [] ==>
                rb.head >= 0 && rb.items[rb.head % rb.items.Length] == Slot((|rb.history| - 1) % rb.items.Length)
    {
      if rb.history != [] {
        rb.SlotContent(|rb.history| - 1);
        ModUnique(rb.head, 0, rb.head, rb.items.Length);
      }
    }

    /** The slots of a pair hold the last items put there. */
    lemma PairReads(k: nat)
      requires rb.Valid() && k < |rb.history|
      ensures var (from, preFrom) := PairOf(k, rb.items.Length);
              && from.index < rb.buffer.Length && (preFrom.Slot? ==> preFrom.index < rb.buffer.Length)
              && TranslatedVolume(rb.history, k, rb.items.Length)
                 == if preFrom == Null then 1 else rb.Deref(from).volume - rb.Deref(preFrom).volume
    {
      hide LastInSlot, rb.Valid;
      rb.Shape();
      rb.SlotContent(k);
      if k > 0 {
        rb.SlotContent(k - 1);
      }
    }

    /** The receiver translates the oldest pair it was handed, reading the slots as they are by
        now. */
    method TranslateTick() returns (lastVolume: int)
      requires Valid() && pending != []
      modifies this
      ensures Valid() && translated == old(translated) + 1 && pending == old(pending)[1..]
      ensures lastVolume == TranslatedVolume(rb.history, old(translated), rb.items.Length)
      ensures volumes == old(volumes) + [lastVolume]
      ensures timely == (old(timely) && Timely(old(translated), |rb.history|, rb.items.Length))
    {
      hide rb.Valid, TranslatedVolume, Steps, Timely;
      rb.Shape();
      var (from, preFrom) := pending[0];
      ghost var k, m, n := translated, |rb.history|, rb.items.Length;
      assert (from, preFrom) == PairOf(translated + 0, n);
      PairReads(k);
      lastVolume := if preFrom == Null then 1 else rb.Deref(from).volume - rb.Deref(preFrom).volume;
      TranslatedVolumeIs(rb.history, k, n);
      StepsExtend(rb.history, k);
      pending, volumes := pending[1..], volumes + [lastVolume];
      translated, timely := k + 1, timely && Timely(k, m, n);
      assert forall i :: 0 <= i < |pending| ==> pending[i] == old(pending)[i + 1] == PairOf(k + (i + 1), n);
    }

    /** Receivers that always kept up: the volumes after the first add up to the whole
        movement. */
    lemma VolumesTelescope()
      requires Valid() && timely && translated > 0
      ensures Sum(volumes[1..]) == rb.history[translated - 1].volume - rb.history[0].volume
    {
      StepsTelescope(rb.history[..translated]);
    }
  }
}
