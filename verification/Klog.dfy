/** klog.c: the flight recorder, a ring that holds the tail of an unbounded history. */
module Klog {
  import opened Arith

  const KLOG_SIZE := 128

  /** What a caller of klog_add reports. */
  datatype Event = Event(kind: int, pid: int, extra: int)

  /** What the ring stores: the event and the counter value it was stamped with. */
  datatype Entry = Entry(timestamp: nat, event: Event)

  /** The ring position of the k-th event. */
  function Slot(k: int): nat { k % KLOG_SIZE }

  /** The counter value of the k-th event. */
  function Stamp(k: int): nat { k % 0x1_0000_0000 }

  /** The history with every event stamped by its position, as a 32-bit counter shows it. */
  function Stamped(h: seq<Event>): (s: seq<Entry>)
    ensures |s| == |h| && forall k :: 0 <= k < |h| ==> s[k] == Entry(Stamp(k), h[k])
  {
    if h == [] then [] else Stamped(h[..|h| - 1]) + [Entry(Stamp(|h| - 1), h[|h| - 1])]
  }

  /** The last n entries of the stamped history. */
  function Newest(h: seq<Event>, n: nat): (s: seq<Entry>)
    requires n <= |h|
    ensures |s| == n
  {
    Stamped(h)[|h| - n..]
  }

  class Klog {
    var entries: array<Entry>
    var head: nat               // next write position
    var count: nat              // number of entries
    var ticks: nat              // a 32-bit counter
    ghost var history: seq<Event>

    /** The ring holds exactly the newest min(N, KLOG_SIZE) events of the history. */
    ghost predicate Valid()
      reads this, entries
    {
      && entries.Length == KLOG_SIZE
      && count == Min(|history|, KLOG_SIZE)
      && head == Slot(|history|)
      && ticks == Stamp(|history|)
      && (forall k :: |history| - count <= k < |history| ==> entries[Slot(k)] == Entry(Stamp(k), history[k]))
    }

    constructor ()
      ensures Valid() && history == [] && fresh(entries)
    {
      entries := new Entry[KLOG_SIZE](_ => Entry(0, Event(0, 0, 0)));
      head, count, ticks := 0, 0, 0;
      history := [];
    }

    method Add(kind: int, pid: int, extra: int)
      requires Valid()
      modifies this`head, this`count, this`ticks, this`history, entries
      ensures Valid() && history == old(history) + [Event(kind, pid, extra)]
    {
      hide Slot, Stamp;
      ghost var h := history;
      SlotNext(|h|);
      entries[head] := Entry(ticks, Event(kind, pid, extra));
      ticks := (ticks + 1) % 0x1_0000_0000;
      head := (head + 1) % KLOG_SIZE;
      if count < KLOG_SIZE {
        count := count + 1;
      }
      history := history + [Event(kind, pid, extra)];
      forall k | |history| - count <= k < |history|
        ensures Slot(k) < KLOG_SIZE && entries[Slot(k)] == Entry(Stamp(k), history[k])
      {
        if k < |h| {
          OtherSlot(|h|, k);
        }
      }
    }

    /** Gather the newest min(count, max) entries, oldest first. */
    method Gather(max: int) returns (n: int, temp: seq<Entry>)
      requires Valid()
      ensures n == Min(Min(|history|, 128), max)
      ensures n >= 0 ==> temp == Newest(history, n)
      ensures n >= 0 ==> |temp| == n && forall k :: 0 <= k < n ==>
                temp[k] == Entry((|history| - n + k) % 0x1_0000_0000, history[|history| - n + k])
      ensures n < 0 ==> temp == []
    {
      hide Slot, Stamp, Start, Index, Newest, Stamped;
      n := if count < max then count else max;
      if n > 256 {
        n := 256;
      }
      temp := [];
      if n > 0 {
        var start := Start(head, n);
        var i := 0;
        while i < n
          invariant 0 <= i <= n
          invariant temp == Newest(history, n)[..i]
        {
          var idx := Index(start, i);
          SlotOf(|history|, n, i);
          NewestAt(history, n, i);
          temp := temp + [entries[idx]];
          i := i + 1;
        }
      }
      if n >= 0 {
        NewestRaw(history, n);
      }
    }
  }

  /** Where the newest n entries start. */
  function Start(head: int, n: int): int { (head - n + KLOG_SIZE) % KLOG_SIZE }

  function Index(start: int, i: int): nat { (start + i) % KLOG_SIZE }

  lemma NewestAt(h: seq<Event>, n: nat, i: nat)
    requires i < n <= |h|
    ensures Newest(h, n)[i] == Entry(Stamp(|h| - n + i), h[|h| - n + i])
  {
  }

  lemma NewestRaw(h: seq<Event>, n: nat)
    requires n <= |h|
    ensures forall k :: 0 <= k < n ==> Newest(h, n)[k] == Entry((|h| - n + k) % 0x1_0000_0000, h[|h| - n + k])
  {
    hide Newest;
    forall k | 0 <= k < n
      ensures Newest(h, n)[k] == Entry((|h| - n + k) % 0x1_0000_0000, h[|h| - n + k])
    {
      NewestAt(h, n, k);
    }
  }

  lemma SlotNext(k: nat)
    ensures Slot(k) < KLOG_SIZE && Slot(k + 1) == (Slot(k) + 1) % KLOG_SIZE
    ensures Stamp(k + 1) == (Stamp(k) + 1) % 0x1_0000_0000
  {
  }

  /** Events less than KLOG_SIZE apart have different slots. */
  lemma OtherSlot(n: nat, k: nat)
    requires n - KLOG_SIZE < k < n
    ensures Slot(k) < KLOG_SIZE && Slot(k) != Slot(n)
  {
  }

  lemma SlotOf(len: nat, n: nat, i: nat)
    requires 0 <= i < n <= KLOG_SIZE && n <= len
    ensures Index(Start(Slot(len), n), i) == Slot(len - n + i) < KLOG_SIZE
  {
    var q, x := len / KLOG_SIZE, Slot(len) - n + KLOG_SIZE;
    Divided(len, x, n);
    ModOf(Start(Slot(len), n) + i, x / KLOG_SIZE);
    ModOf(x + i, q - 1);
  }

  lemma Divided(len: nat, x: nat, n: nat)
    requires x == Slot(len) - n + KLOG_SIZE
    ensures len - n == KLOG_SIZE * (len / KLOG_SIZE - 1) + x
    ensures x == KLOG_SIZE * (x / KLOG_SIZE) + Start(Slot(len), n) && Start(Slot(len), n) >= 0
  {
  }

  lemma ModOf(x: nat, q: int)
    requires 0 <= KLOG_SIZE * q + x
    ensures (KLOG_SIZE * q + x) % KLOG_SIZE == x % KLOG_SIZE
  {
  }

  /** Consecutive entries of what Gather returns carry consecutive counter values. */
  lemma ConsecutiveStamps(h: seq<Event>, n: nat, k: nat)
    requires n <= |h| && k + 1 < n
    ensures Newest(h, n)[k + 1].timestamp == (Newest(h, n)[k].timestamp + 1) % 0x1_0000_0000
  {
    SlotNext(|h| - n + k);
  }
}
