/** The address space of a loaded module, and finding the running thread by its stack pointer. */
module LoaderLayout {
  const TWO_32 := 0x1_0000_0000
  const GUARD := 0x1000

  /** What the manifest says about a module. */
  datatype Manifest = Manifest(textBase: nat, textSize: nat, uncompressed: nat, stacks: seq<nat>, mainThread: nat,
                               entry: nat, heapSize: nat, bssSize: nat)

  datatype Thread = Thread(stackTop: nat, stackSize: nat, id: nat, entry: nat)

  datatype Layout = Layout(textBase: nat, textSize: nat, rodataBase: nat, rodataSize: nat, threads: seq<Thread>,
                           heapBase: nat, heapSize: nat, bssBase: nat, bssSize: nat)

  /** A range of addresses, its end not included. */
  datatype Region = Region(base: nat, end: nat)

  /** The first address past the stacks that start after base, each with a guard page below it. */
  function StacksEnd(base: nat, stacks: seq<nat>): (end: nat)
    ensures base + GUARD * |stacks| <= end
  {
    if stacks == [] then base
    else
      var last := |stacks| - 1;
      StacksEnd(base, stacks[..last]) + GUARD + stacks[last]
  }

  /** The module fits below 4 GB. */
  predicate Fits(m: Manifest, contextSize: nat) {
    && m.stacks != [] && m.textSize < TWO_32 && m.uncompressed < TWO_32 && m.textBase + m.textSize < TWO_32
    && StacksEnd(m.textBase + m.uncompressed, m.stacks) + m.heapSize + m.bssSize + contextSize < TWO_32
  }

  /** Thread k's stack ends where the first k + 1 stacks and guards end. */
  function ThreadAt(m: Manifest, k: nat): Thread
    requires k < |m.stacks|
  {
    Thread(StacksEnd(m.textBase + m.uncompressed, m.stacks[..k + 1]), m.stacks[k], m.mainThread + k,
           if k == 0 then m.entry else 0)
  }

  function Threads(m: Manifest): (ts: seq<Thread>)
    ensures |ts| == |m.stacks| && forall k :: 0 <= k < |ts| ==> ts[k] == ThreadAt(m, k)
  {
    seq(|m.stacks|, k requires 0 <= k < |m.stacks| => ThreadAt(m, k))
  }

  /** Sizes and addresses are 32 bits wide: a text larger than the module makes the read-only size wrap around. */
  function LayoutOf(m: Manifest, contextSize: nat): Layout
    requires Fits(m, contextSize)
  {
    var heap := StacksEnd(m.textBase + m.uncompressed, m.stacks);
    Layout(m.textBase, m.textSize, m.textBase + m.textSize, (m.uncompressed - m.textSize) % TWO_32, Threads(m),
           heap, m.heapSize, heap + m.heapSize, m.bssSize + contextSize)
  }

  class Module {
    var layout: Layout

    constructor ()
    {
      layout := Layout(0, 0, 0, 0, [], 0, 0, 0, 0);
    }

    /** The base moves up past each part in turn. */
    method PopulateRanges(m: Manifest, contextSize: nat)
      requires Fits(m, contextSize)
      modifies this
      ensures layout == LayoutOf(m, contextSize)
    {
      hide StacksEnd;
      var rodataBase := m.textBase + m.textSize;
      var rodataSize := (m.uncompressed - m.textSize) % TWO_32;
      var nextBase := (rodataBase + rodataSize) % TWO_32;
      var threads;
      threads, nextBase := PlaceStacks(m, nextBase);
      var heapBase := nextBase;
      nextBase := nextBase + m.heapSize;
      layout := Layout(m.textBase, m.textSize, rodataBase, rodataSize, threads[..], heapBase, m.heapSize,
                       nextBase, m.bssSize + contextSize);
    }

    /** A guard page and a stack for each thread; the entry point is the first thread's. */
    method PlaceStacks(m: Manifest, base: nat) returns (threads: array<Thread>, nextBase: nat)
      requires m.stacks != [] && base == m.textBase + m.uncompressed
      ensures threads[..] == Threads(m) && nextBase == StacksEnd(base, m.stacks)
    {
      threads, nextBase := new Thread[|m.stacks|](_ => Thread(0, 0, 0, 0)), base;
      assert StacksEnd(base, m.stacks[..0]) == base;
      hide StacksEnd;
      var t := m.mainThread;
      for i := 0 to |m.stacks|
        invariant nextBase == StacksEnd(base, m.stacks[..i]) && t == m.mainThread + i
        invariant forall k :: 0 <= k < i ==> threads[k] == ThreadAt(m, k).(entry := 0)
      {
        NextStack(base, m.stacks, i);
        nextBase := nextBase + GUARD;
        nextBase := nextBase + m.stacks[i];
        threads[i] := Thread(nextBase, m.stacks[i], t, 0);
        t := t + 1;
      }
      threads[0] := threads[0].(entry := m.entry);
      assert m.stacks[..|m.stacks|] == m.stacks;
      assert threads[..] == Threads(m);
    }
  }

  /** One more stack and its guard. */
  lemma NextStack(base: nat, stacks: seq<nat>, i: nat)
    requires i < |stacks|
    ensures StacksEnd(base, stacks[..i + 1]) == StacksEnd(base, stacks[..i]) + GUARD + stacks[i]
  {
    assert stacks[..i + 1][..i] == stacks[..i];
  }

  // ----- order -----

  lemma {:induction false} StacksGrow(base: nat, stacks: seq<nat>, i: nat, j: nat)
    requires i <= j <= |stacks|
    ensures StacksEnd(base, stacks[..i]) + GUARD * (j - i) <= StacksEnd(base, stacks[..j])
    decreases j
  {
    if i < j {
      assert stacks[..j][..j - 1] == stacks[..j - 1];
      StacksGrow(base, stacks, i, j - 1);
    }
  }

  function StackRegion(t: Thread): Region {
    Region(if t.stackSize <= t.stackTop then t.stackTop - t.stackSize else 0, t.stackTop)
  }

  function StackRegions(ts: seq<Thread>): (rs: seq<Region>)
    ensures |rs| == |ts| && forall k :: 0 <= k < |ts| ==> rs[k] == StackRegion(ts[k])
  {
    seq(|ts|, k requires 0 <= k < |ts| => StackRegion(ts[k]))
  }

  /** Everything the module has in memory, from the bottom up. */
  function Regions(l: Layout): seq<Region> {
    [Region(l.textBase, l.textBase + l.textSize), Region(l.rodataBase, l.rodataBase + l.rodataSize)]
    + StackRegions(l.threads)
    + [Region(l.heapBase, l.heapBase + l.heapSize), Region(l.bssBase, l.bssBase + l.bssSize)]
  }

  /** One after the other, so no two overlap, and each stack with a guard page below it. */
  ghost predicate Ordered(l: Layout) {
    var rs := Regions(l);
    && (forall i :: 0 <= i < |rs| ==> rs[i].base <= rs[i].end)
    && (forall i, j :: 0 <= i < j < |rs| ==> rs[i].end + Gap(l, j) <= rs[j].base)
  }

  /** What is left free below region j. */
  function Gap(l: Layout, j: nat): nat { if 2 <= j < 2 + |l.threads| then 0x1000 else 0 }

  lemma StackPlace(m: Manifest, k: nat)
    requires k < |m.stacks|
    ensures var base, r := m.textBase + m.uncompressed, StackRegion(ThreadAt(m, k));
      r == Region(StacksEnd(base, m.stacks[..k]) + GUARD, StacksEnd(base, m.stacks[..k + 1])) && r.base <= r.end
  {
    assert m.stacks[..k + 1][..k] == m.stacks[..k];
  }

  lemma StacksApart(m: Manifest, i: nat, j: nat)
    requires i < j < |m.stacks|
    ensures StackRegion(ThreadAt(m, i)).end + GUARD <= StackRegion(ThreadAt(m, j)).base
  {
    StackPlace(m, i);
    StackPlace(m, j);
    StacksGrow(m.textBase + m.uncompressed, m.stacks, i + 1, j);
  }

  /** Every stack lies above the read-only data and below the heap. */
  lemma StackBounds(m: Manifest, k: nat)
    requires k < |m.stacks|
    ensures var base, r := m.textBase + m.uncompressed, StackRegion(ThreadAt(m, k));
      base + GUARD <= r.base <= r.end <= StacksEnd(base, m.stacks)
  {
    hide StacksEnd, StackRegion, ThreadAt;
    var base, n := m.textBase + m.uncompressed, |m.stacks|;
    StackPlace(m, k);
    NoStacks(base);
    StacksGrow(base, m.stacks, 0, k);
    StacksGrow(base, m.stacks, k + 1, n);
    assert m.stacks[..n] == m.stacks && m.stacks[..0] == [];
  }

  lemma NoStacks(base: nat)
    ensures StacksEnd(base, []) == base
  {
  }

  function RegionOf(m: Manifest, contextSize: nat, i: nat): Region
    requires Fits(m, contextSize) && m.textSize <= m.uncompressed && i < |m.stacks| + 4
  {
    var n, base, heap := |m.stacks|, m.textBase + m.uncompressed, StacksEnd(m.textBase + m.uncompressed, m.stacks);
    if i == 0 then Region(m.textBase, m.textBase + m.textSize) else if i == 1 then Region(m.textBase + m.textSize, base)
    else if i < n + 2 then StackRegion(ThreadAt(m, i - 2))
    else if i == n + 2 then Region(heap, heap + m.heapSize)
    else Region(heap + m.heapSize, heap + m.heapSize + (m.bssSize + contextSize))
  }

  lemma RegionAt(m: Manifest, contextSize: nat, i: nat)
    requires Fits(m, contextSize) && m.textSize <= m.uncompressed && i < |m.stacks| + 4
    ensures var l := LayoutOf(m, contextSize);
      |Regions(l)| == |m.stacks| + 4 && |l.threads| == |m.stacks| && Regions(l)[i] == RegionOf(m, contextSize, i)
  {
    hide StacksEnd, ThreadAt, StackRegion;
  }

  lemma FixedRegion(m: Manifest, contextSize: nat, i: nat)
    requires Fits(m, contextSize) && m.textSize <= m.uncompressed && i < |m.stacks| + 4 && !(2 <= i < |m.stacks| + 2)
    ensures var r := RegionOf(m, contextSize, i);
      && r.base <= r.end
      && (if i < 2 then r.end <= m.textBase + m.uncompressed
          else StacksEnd(m.textBase + m.uncompressed, m.stacks) <= r.base)
      && (i == 0 ==> r.end == RegionOf(m, contextSize, 1).base)
      && (i == |m.stacks| + 2 ==> r.end == RegionOf(m, contextSize, i + 1).base)
  {
    hide StacksEnd, ThreadAt, StackRegion;
  }

  lemma StackRegionOf(m: Manifest, contextSize: nat, i: nat)
    requires Fits(m, contextSize) && m.textSize <= m.uncompressed && 2 <= i < |m.stacks| + 2
    ensures RegionOf(m, contextSize, i) == StackRegion(ThreadAt(m, i - 2))
  {
    hide StacksEnd, ThreadAt, StackRegion;
  }

  lemma RegionsApart(m: Manifest, contextSize: nat, i: nat, j: nat)
    requires Fits(m, contextSize) && m.textSize <= m.uncompressed && i < j < |m.stacks| + 4
    ensures var r, s := RegionOf(m, contextSize, i), RegionOf(m, contextSize, j);
      r.end + (if 2 <= j < 2 + |m.stacks| then GUARD else 0) <= s.base && r.base <= r.end && s.base <= s.end
  {
    hide StacksEnd, ThreadAt, StackRegion, RegionOf;
    var n := |m.stacks|;
    StackBounds(m, 0);
    if 2 <= i < n + 2 {
      StackRegionOf(m, contextSize, i);
      StackBounds(m, i - 2);
    } else {
      FixedRegion(m, contextSize, i);
    }
    if 2 <= j < n + 2 {
      StackRegionOf(m, contextSize, j);
      StackBounds(m, j - 2);
      if 2 <= i {
        StacksApart(m, i - 2, j - 2);
      }
    } else {
      FixedRegion(m, contextSize, j);
    }
  }

  lemma RegionPair(m: Manifest, contextSize: nat, i: nat, j: nat)
    requires Fits(m, contextSize) && m.textSize <= m.uncompressed && i < j < |m.stacks| + 4
    ensures var l := LayoutOf(m, contextSize);
      var rs := Regions(l);
      |rs| == |m.stacks| + 4 && rs[i].end + Gap(l, j) <= rs[j].base
      && rs[i].base <= rs[i].end && rs[j].base <= rs[j].end
  {
    hide RegionOf, Regions, LayoutOf;
    RegionAt(m, contextSize, i);
    RegionAt(m, contextSize, j);
    RegionsApart(m, contextSize, i, j);
  }

  /** The layout is in order exactly when the text is not larger than the module it is part of. */
  lemma LayoutInOrder(m: Manifest, contextSize: nat)
    requires Fits(m, contextSize)
    ensures Ordered(LayoutOf(m, contextSize)) <==> m.textSize <= m.uncompressed
  {
    var l := LayoutOf(m, contextSize);
    var rs := Regions(l);
    if m.textSize <= m.uncompressed {
      forall i, j | 0 <= i < j < |rs|
        ensures rs[i].end + Gap(l, j) <= rs[j].base && rs[i].base <= rs[i].end && rs[j].base <= rs[j].end
      {
        RegionPair(m, contextSize, i, j);
      }
      hide LayoutOf, Regions;
      assert |rs| >= 2;
      assert forall i :: 0 < i < |rs| ==> rs[0].end + Gap(l, i) <= rs[i].base;
    } else {
      StackPlace(m, 0);
      assert m.stacks[..0] == [];
      assert rs[1].end > rs[2].base;
    }
  }

  // ----- nothing between the parts but the guards -----

  /** Every part starts where the one before it ends, each stack a guard page later, and has the manifest's size. */
  lemma PartsAbut(m: Manifest, contextSize: nat)
    requires Fits(m, contextSize) && m.textSize <= m.uncompressed
    ensures var l := LayoutOf(m, contextSize);
      && l.textBase == m.textBase && l.textSize == m.textSize && l.rodataBase == l.textBase + l.textSize
      && l.rodataSize == m.uncompressed - m.textSize
      && |l.threads| == |m.stacks|
      && l.threads[0].stackTop == l.rodataBase + l.rodataSize + 0x1000 + m.stacks[0]
      && l.heapBase == l.threads[|m.stacks| - 1].stackTop && l.heapSize == m.heapSize
      && l.bssBase == l.heapBase + l.heapSize && l.bssSize == m.bssSize + contextSize
  {
    NextStack(m.textBase + m.uncompressed, m.stacks, 0);
    hide StacksEnd;
    NoStacks(m.textBase + m.uncompressed);
    assert m.stacks[..0] == [] && m.stacks[..|m.stacks|] == m.stacks;
  }

  /** A text larger than the module leaves a read-only size that is 4 GB too large. */
  lemma WrappedSize(m: Manifest, contextSize: nat)
    requires Fits(m, contextSize) && m.textSize > m.uncompressed
    ensures LayoutOf(m, contextSize).rodataSize == m.uncompressed - m.textSize + 0x1_0000_0000
  {
    hide StacksEnd;
  }

  lemma StacksAbut(m: Manifest, contextSize: nat, k: nat)
    requires Fits(m, contextSize) && 0 < k < |m.stacks|
    ensures var l := LayoutOf(m, contextSize);
      |l.threads| == |m.stacks| && l.threads[k].stackTop == l.threads[k - 1].stackTop + 0x1000 + m.stacks[k]
  {
    NextStack(m.textBase + m.uncompressed, m.stacks, k);
    hide StacksEnd;
  }

  /** Threads are numbered from the main thread's number on, and only the first has an entry point. */
  lemma ThreadNumbers(m: Manifest, contextSize: nat, k: nat)
    requires Fits(m, contextSize) && k < |m.stacks|
    ensures var ts := LayoutOf(m, contextSize).threads;
      && |ts| == |m.stacks| && ts[k].id == m.mainThread + k && ts[k].stackSize == m.stacks[k]
      && ts[0].entry == m.entry && (k > 0 ==> ts[k].entry == 0)
  {
    hide StacksEnd;
  }

  function Sum(xs: seq<nat>): nat { if xs == [] then 0 else Sum(xs[..|xs| - 1]) + xs[|xs| - 1] }

  lemma {:induction false} StacksTotal(base: nat, stacks: seq<nat>)
    ensures StacksEnd(base, stacks) == base + 0x1000 * |stacks| + Sum(stacks)
    decreases |stacks|
  {
    if stacks != [] {
      StacksTotal(base, stacks[..|stacks| - 1]);
    }
  }

  /** The module takes up its own size, a guard page per stack, the stacks, heap, data and context, and no more. */
  lemma LayoutTotal(m: Manifest, contextSize: nat)
    requires Fits(m, contextSize)
    ensures var l := LayoutOf(m, contextSize);
      l.bssBase + l.bssSize == m.textBase + m.uncompressed + 0x1000 * |m.stacks| + Sum(m.stacks)
                               + m.heapSize + m.bssSize + contextSize
  {
    StacksTotal(m.textBase + m.uncompressed, m.stacks);
    hide StacksEnd, Sum;
  }

  /** A text of two pages in a module of one. */
  lemma TextLargerThanModule()
    ensures var m := Manifest(0x1000, 0x2000, 0x1000, [0x1000], 1, 0x1000, 0x1000, 0x1000);
      Fits(m, 0) && !Ordered(LayoutOf(m, 0))
  {
    hide LayoutOf, Ordered;
    var m := Manifest(0x1000, 0x2000, 0x1000, [0x1000], 1, 0x1000, 0x1000, 0x1000);
    assert m.stacks[..0] == [] && StacksEnd(0x2000, []) == 0x2000;
    assert StacksEnd(0x2000, m.stacks) == 0x4000;
    LayoutInOrder(m, 0);
  }

  // ----- threads -----

  /** The stack pointer is in the stack, its top included: a stack that has nothing on it yet. */
  predicate OnStack(t: Thread, sp: nat) { t.stackSize <= t.stackTop && t.stackTop - t.stackSize <= sp <= t.stackTop }

  /** A pointer some bytes below the top is on the stack exactly when those are no more than its size. */
  lemma StackByOffset(t: Thread, below: nat)
    requires t.stackSize <= t.stackTop && below <= t.stackTop
    ensures OnStack(t, t.stackTop - below) <==> below <= t.stackSize
    ensures below > 0 ==> !OnStack(t, t.stackTop + below)
  {
  }

  method CurrentThread(threads: array<Thread>, sp: nat) returns (id: int)
    requires forall k :: 0 <= k < threads.Length ==> threads[k].stackSize <= threads[k].stackTop
    ensures -1 <= id < threads.Length
    ensures id >= 0 ==> OnStack(threads[id], sp) && forall k :: 0 <= k < id ==> !OnStack(threads[k], sp)
    ensures id < 0 ==> forall k :: 0 <= k < threads.Length ==> !OnStack(threads[k], sp)
  {
    for i := 0 to threads.Length
      invariant forall k :: 0 <= k < i ==> !OnStack(threads[k], sp)
    {
      var top := threads[i].stackTop;
      var base := top - threads[i].stackSize;
      if sp >= base && sp <= top {
        return i;
      }
    }
    return -1;
  }

  /** No address is on two stacks, so the search finds thread k exactly for the addresses of stack k. */
  lemma OnOneStack(m: Manifest, i: nat, j: nat, sp: nat)
    requires i < |m.stacks| && j < |m.stacks| && OnStack(ThreadAt(m, i), sp) && OnStack(ThreadAt(m, j), sp)
    ensures i == j
  {
    StackPlace(m, i);
    StackPlace(m, j);
    if i < j {
      StacksApart(m, i, j);
    } else if j < i {
      StacksApart(m, j, i);
    }
  }

  /** Looking up any address: the thread whose stack it is on, or none between the stacks. */
  method ThreadOf(m: Manifest, threads: array<Thread>, sp: nat) returns (id: int)
    requires threads[..] == Threads(m)
    ensures forall k :: 0 <= k < |m.stacks| ==> (id == k <==> OnStack(ThreadAt(m, k), sp))
    ensures id == -1 <==> forall k :: 0 <= k < |m.stacks| ==> !OnStack(ThreadAt(m, k), sp)
  {
    forall k | 0 <= k < threads.Length
      ensures threads[k] == ThreadAt(m, k) && threads[k].stackSize <= threads[k].stackTop
    {
      assert threads[..][k] == Threads(m)[k];
      StackPlace(m, k);
      assert m.stacks[..k + 1][..k] == m.stacks[..k];
    }
    id := CurrentThread(threads, sp);
    if id >= 0 {
      forall k | 0 <= k < |m.stacks| && OnStack(ThreadAt(m, k), sp)
        ensures k == id
      {
        OnOneStack(m, k, id, sp);
      }
    }
  }
}
