/** The flat address map of a bus tree, and the search that agrees with it whatever the order of devices and windows. */
module PciAddressMap {
  import opened PciTopology

  // ----- decoding by offset: how the map has it, apart from how the search computes it -----

  /** A BAR starts at a multiple of sixteen. */
  function Start(b: Bar): nat { 16 * (b.raw / 16) }

  /** The access is off bytes into the BAR and ends within its size. */
  predicate InBar(b: Bar, size: nat, addr: nat, count: nat, off: nat) { addr == Start(b) + off && off + count <= size }

  /** The address is in one of the unit's register pages of 4 KB. */
  predicate InPage(b: Bar, addr: nat) { Start(b) <= addr < Start(b) + 0x1000 }

  predicate InOwn(own: seq<Bar>, addr: nat) { exists i :: 0 <= i < |own| && InPage(own[i], addr) }

  /** The address is k bytes into an enabled window, its end included; a window past 4 GB holds nothing. */
  predicate WindowHolds(w: Window, address: nat, k: nat) {
    w.enabled && address == w.intBase + k && k <= w.intSize && w.intBase + w.intSize < 0x1_0000_0000
  }

  predicate SidebandHolds(w: SidebandWindow, address: nat, k: nat) {
    w.enabled && address == w.base + k && k <= w.size && w.base + w.size < 0x1_0000_0000
  }

  /** The low half of the address is in the 16 MB at 0xF1000000. */
  predicate InConfigSpace(addr: nat) { 0xF100_0000 <= addr % 0x1_0000_0000 < 0xF200_0000 }

  // ----- the map: which target an access belongs to, with no order among devices, windows or rounds -----

  ghost predicate SimpleMaps(d: Device, addr: nat, count: nat, t: Target)
    requires d.Simple?
  {
    && d.memoryEnabled && d.handler && t.Register? && t.id == d.id && t.bar < |d.bars|
    && InBar(d.bars[t.bar], d.bars[t.bar].size, addr, count, t.off)
  }

  ghost predicate OwnMaps(d: Device, addr: nat, count: nat, t: Target)
    requires d.Att?
  {
    && d.memoryEnabled && t.Register? && t.id == d.id && t.bar < |d.own|
    && InPage(d.own[t.bar], addr) && InBar(d.own[t.bar], 0x1000, addr, count, t.off)
  }

  ghost predicate SidebandMaps(d: Device, address: nat, t: Target)
    requires d.Att?
  {
    exists w, k :: w in d.sideband && SidebandHolds(w, address, k) && t == Sideband(w.sbAddress, k)
  }

  ghost predicate Maps(d: Device, addr: nat, count: nat, t: Target)
    decreases d, 1
  {
    match d
    case Simple(_, _, _, _) => SimpleMaps(d, addr, count, t)
    case Att(_, own, _, _, _, _) =>
      if InOwn(own, addr) then OwnMaps(d, addr, count, t)
      else WindowMaps(d, addr % TWO_32, count, t) || SidebandMaps(d, addr % TWO_32, t)
    case Bridge(id, gasket) =>
      if InConfigSpace(addr) then t == Config(id, addr % 0x1_0000_0000 - 0xF100_0000)
      else BusMaps(gasket, addr, count, t)
  }

  /** Address intBase + k of a window is what the bus behind has at ext + k. */
  ghost predicate WindowMaps(d: Device, address: nat, count: nat, t: Target)
    requires d.Att?
    decreases d, 0
  {
    exists w, k :: w in d.windows && WindowHolds(w, address, k) && BusMaps(d.prim, (w.ext + k) % TWO_64, count, t)
  }

  ghost predicate BusMaps(ds: seq<Device>, addr: nat, count: nat, t: Target)
    decreases ds
  {
    ds != [] && (Maps(ds[0], addr, count, t) || BusMaps(ds[1..], addr, count, t))
  }

  // ----- disjoint claims, at one address -----

  predicate Touches(b: Bar, addr: nat) { Start(b) <= addr <= Start(b) + b.size }

  /**
   No address in a BAR of a function is touched by an earlier one, whose end counts as touched, and no address is
   wanted by both register pages or by two different windows of a unit.
   */
  ghost predicate Disjoint(d: Device, addr: nat)
    decreases d, 0
  {
    match d
    case Simple(_, bars, _, _) =>
      forall i, j ::
        0 <= i < j < |bars| && Start(bars[j]) <= addr < Start(bars[j]) + bars[j].size ==> !Touches(bars[i], addr)
    case Att(_, own, _, windows, sideband, prim) =>
      && (forall i, j :: 0 <= i < j < |own| ==> !(InPage(own[i], addr) && InPage(own[j], addr)))
      && (forall v, w, j, k ::
            v in windows && w in windows && WindowHolds(v, addr % TWO_32, j) && WindowHolds(w, addr % TWO_32, k) ==>
              v == w)
      && (forall v, w, j, k ::
            v in sideband && w in sideband && SidebandHolds(v, addr % TWO_32, j) && SidebandHolds(w, addr % TWO_32, k)
            ==> v == w)
      && (forall w, k :: w in windows && WindowHolds(w, addr % TWO_32, k) ==>
            AllDisjoint(prim, (w.ext + k) % TWO_64))
    case Bridge(_, gasket) => AllDisjoint(gasket, addr)
  }

  ghost predicate AllDisjoint(ds: seq<Device>, addr: nat)
    decreases ds
  {
    ds != [] ==> Disjoint(ds[0], addr) && AllDisjoint(ds[1..], addr)
  }

  // ----- the search computes what the map has -----

  lemma Starts()
    ensures forall b :: BarBase(b) == Start(b)
  {
  }

  lemma WindowByOffset(w: Window, address: nat)
    ensures Covers(w, address) ==>
      WindowHolds(w, address, address - w.intBase) && Translated(w, address) == (w.ext + (address - w.intBase)) % TWO_64
    ensures forall k :: WindowHolds(w, address, k) ==> Covers(w, address) && k == address - w.intBase
  {
  }

  lemma SidebandByOffset(w: SidebandWindow, address: nat)
    ensures SidebandCovers(w, address) ==> SidebandHolds(w, address, address - w.base)
    ensures forall k :: SidebandHolds(w, address, k) ==> SidebandCovers(w, address) && k == address - w.base
  {
  }

  lemma ConfigByOffset(addr: nat)
    ensures InConfigWindow(addr) <==> InConfigSpace(addr)
    ensures InConfigSpace(addr) ==> addr % 0x100_0000 == addr % 0x1_0000_0000 - 0xF100_0000
  {
    assert addr == 0x1_0000_0000 * (addr / 0x1_0000_0000) + addr % 0x1_0000_0000;
  }

  /** Devices that decode positively: a handler that is called accepts the cycle. */
  ghost predicate Positive(answer: Answer) { forall t :: answer(t) >= 0 }

  // ----- the search agrees with the map -----

  /** Either nothing was called, or one target was, and its answer is the outcome. */
  predicate CallsOne(o: Outcome, answer: Answer) {
    o == DECLINED || (|o.called| == 1 && o.status == answer(o.called[0]))
  }

  /** Nothing is called when the map has nothing there; what is called is what the map has. */
  ghost predicate DeviceAgrees(o: Outcome, answer: Answer, d: Device, addr: nat, count: nat) {
    && CallsOne(o, answer)
    && if o.called == [] then forall t :: !Maps(d, addr, count, t) else Maps(d, addr, count, o.called[0])
  }

  ghost predicate BusAgrees(o: Outcome, answer: Answer, ds: seq<Device>, addr: nat, count: nat) {
    && CallsOne(o, answer)
    && if o.called == [] then forall t :: !BusMaps(ds, addr, count, t) else BusMaps(ds, addr, count, o.called[0])
  }

  lemma {:induction false} FindBarIsFirst(bars: seq<Bar>, addr: nat, i: nat)
    requires i <= |bars|
    ensures forall j :: i <= j < FindBar(bars, addr, i) ==> !Touches(bars[j], addr)
    ensures var bar := FindBar(bars, addr, i); bar < |bars| ==> Touches(bars[bar], addr)
    decreases |bars| - i
  {
    Starts();
    if i < |bars| && !Touches(bars[i], addr) {
      FindBarIsFirst(bars, addr, i + 1);
    }
  }

  lemma {:induction false} FindOwnBarIsFirst(own: seq<Bar>, addr: nat, i: nat)
    requires i <= |own|
    ensures forall j :: i <= j < FindOwnBar(own, addr, i) ==> !InPage(own[j], addr)
    ensures var bar := FindOwnBar(own, addr, i); bar < |own| ==> InPage(own[bar], addr)
    decreases |own| - i
  {
    Starts();
    if i < |own| && !InPage(own[i], addr) {
      FindOwnBarIsFirst(own, addr, i + 1);
    }
  }

  lemma {:induction false} FindWindowIsFirst(ws: seq<Window>, address: nat, i: nat)
    requires i <= |ws|
    ensures forall j :: i <= j < FindWindow(ws, address, i) ==> forall k :: !WindowHolds(ws[j], address, k)
    ensures var win := FindWindow(ws, address, i);
            win < |ws| ==> WindowHolds(ws[win], address, address - ws[win].intBase)
    decreases |ws| - i
  {
    if i < |ws| {
      WindowByOffset(ws[i], address);
    }
    if i < |ws| && !Covers(ws[i], address) {
      FindWindowIsFirst(ws, address, i + 1);
    }
  }

  lemma {:induction false} FindSidebandIsFirst(ws: seq<SidebandWindow>, address: nat, i: nat)
    requires i <= |ws|
    ensures forall j :: i <= j < FindSideband(ws, address, i) ==> forall k :: !SidebandHolds(ws[j], address, k)
    ensures var win := FindSideband(ws, address, i);
            win < |ws| ==> SidebandHolds(ws[win], address, address - ws[win].base)
    decreases |ws| - i
  {
    if i < |ws| {
      SidebandByOffset(ws[i], address);
    }
    if i < |ws| && !SidebandCovers(ws[i], address) {
      FindSidebandIsFirst(ws, address, i + 1);
    }
  }

  lemma SimpleAgrees(d: Device, addr: nat, count: nat, answer: Answer)
    requires d.Simple? && Disjoint(d, addr) && count > 0
    ensures DeviceAgrees(SimpleCycle(d, addr, count, answer), answer, d, addr, count)
  {
    FindBarIsFirst(d.bars, addr, 0);
    var bar, o := FindBar(d.bars, addr, 0), SimpleCycle(d, addr, count, answer);
    if o.called == [] {
      forall t
        ensures !Maps(d, addr, count, t)
      {
        if SimpleMaps(d, addr, count, t) {
          assert Touches(d.bars[t.bar], addr);
          assert false;
        }
      }
    }
  }

  lemma SidebandAgrees(d: Device, address: nat, answer: Answer)
    requires d.Att?
    requires forall v, w, j, k ::
               v in d.sideband && w in d.sideband && SidebandHolds(v, address, j) && SidebandHolds(w, address, k) ==>
                 v == w
    ensures var o := SidebandCycle(d, address, answer);
      CallsOne(o, answer)
      && if o.called == [] then forall t :: !SidebandMaps(d, address, t)
         else SidebandMaps(d, address, o.called[0])
  {
    FindSidebandIsFirst(d.sideband, address, 0);
    var win, o := FindSideband(d.sideband, address, 0), SidebandCycle(d, address, answer);
    if win < |d.sideband| {
      assert d.sideband[win] in d.sideband;
    }
  }

  lemma {:induction false} PrimAgrees(d: Device, address: nat, count: nat, answer: Answer)
    requires d.Att? && Positive(answer) && count > 0
    requires forall v, w, j, k ::
               v in d.windows && w in d.windows && WindowHolds(v, address, j) && WindowHolds(w, address, k) ==> v == w
    requires forall w, k :: w in d.windows && WindowHolds(w, address, k) ==>
               AllDisjoint(d.prim, (w.ext + k) % TWO_64)
    ensures var o := PrimCycle(d, address, count, answer);
      CallsOne(o, answer)
      && if o.called == [] then forall t :: !WindowMaps(d, address, count, t)
         else WindowMaps(d, address, count, o.called[0])
    decreases d, 0
  {
    hide BusMaps, AllDisjoint, Cycles;
    FindWindowIsFirst(d.windows, address, 0);
    var win := FindWindow(d.windows, address, 0);
    if win < |d.windows| {
      var w := d.windows[win];
      assert w in d.windows;
      WindowByOffset(w, address);
      CyclesAgree(d.prim, (w.ext + (address - w.intBase)) % TWO_64, count, 0, 14, answer);
    }
  }

  lemma {:induction false} AttAgrees(d: Device, addr: nat, count: nat, answer: Answer)
    requires d.Att? && Positive(answer) && Disjoint(d, addr) && count > 0
    ensures DeviceAgrees(AttCycle(d, addr, count, answer), answer, d, addr, count)
    decreases d, 1
  {
    FindOwnBarIsFirst(d.own, addr, 0);
    var bar := FindOwnBar(d.own, addr, 0);
    if bar == |d.own| {
      PrimAgrees(d, addr % TWO_32, count, answer);
      SidebandAgrees(d, addr % TWO_32, answer);
      hide PrimCycle, SidebandCycle, WindowMaps, SidebandMaps, FindOwnBar;
      assert !InOwn(d.own, addr);
      assert forall t ::
          Maps(d, addr, count, t) <==> WindowMaps(d, addr % TWO_32, count, t) || SidebandMaps(d, addr % TWO_32, t);
    } else {
      assert InOwn(d.own, addr);
    }
  }

  lemma {:induction false} CycleAgrees(d: Device, addr: nat, count: nat, lat: nat, answer: Answer)
    requires Positive(answer) && Disjoint(d, addr) && count > 0 && lat < 16
    ensures DeviceAgrees(Cycle(d, addr, count, lat, answer), answer, d, addr, count)
    decreases d, 2
  {
    hide SimpleCycle, AttCycle, SimpleMaps, OwnMaps, WindowMaps, SidebandMaps, Cycles, BusMaps;
    match d
    case Simple(_, _, _, _) => SimpleAgrees(d, addr, count, answer);
    case Att(_, _, _, _, _, _) => AttAgrees(d, addr, count, answer);
    case Bridge(_, gasket) =>
      ConfigByOffset(addr);
      if !InConfigSpace(addr) {
        CyclesAgree(gasket, addr, count, 0, 16 - lat, answer);
        assert forall t :: Maps(d, addr, count, t) <==> BusMaps(gasket, addr, count, t);
      }
  }

  lemma {:induction false} RoundAgrees(ds: seq<Device>, addr: nat, count: nat, lat: nat, answer: Answer)
    requires Positive(answer) && AllDisjoint(ds, addr) && count > 0 && lat < 16
    ensures BusAgrees(Round(ds, addr, count, lat, answer), answer, ds, addr, count)
    decreases ds, 0
  {
    if ds != [] {
      hide Cycle, Maps, Disjoint;
      CycleAgrees(ds[0], addr, count, lat, answer);
      RoundAgrees(ds[1..], addr, count, lat, answer);
      assert forall t ::
          BusMaps(ds, addr, count, t) <==> Maps(ds[0], addr, count, t) || BusMaps(ds[1..], addr, count, t);
    }
  }

  /** The search through the whole tree, from any bus, with any latency limit from 1 to 16. */
  lemma {:induction false} CyclesAgree(ds: seq<Device>, addr: nat, count: nat, lat: nat, maxLat: int, answer: Answer)
    requires Positive(answer) && AllDisjoint(ds, addr) && count > 0 && lat < maxLat <= 16
    ensures BusAgrees(Cycles(ds, addr, count, lat, maxLat, answer), answer, ds, addr, count)
    decreases ds, 1, maxLat - lat
  {
    hide Round, BusMaps, AllDisjoint;
    RoundAgrees(ds, addr, count, lat, answer);
    if lat + 1 < maxLat {
      CyclesAgree(ds, addr, count, lat + 1, maxLat, answer);
    }
  }

  // ----- where a simple function's search and the map part -----

  /**
   The search stops at the first BAR that touches the address, its end included. Where the map has a target, the
   access is lost exactly when that BAR does not hold it.
   */
  lemma SimpleSearchMisses(d: Device, addr: nat, count: nat, answer: Answer, t: Target)
    requires d.Simple? && SimpleMaps(d, addr, count, t)
    ensures var bar := FindBar(d.bars, addr, 0);
            && bar < |d.bars| && Touches(d.bars[bar], addr)
            && (SimpleCycle(d, addr, count, answer) == DECLINED <==>
                !InBar(d.bars[bar], d.bars[bar].size, addr, count, addr - Start(d.bars[bar])))
  {
    Starts();
    FindBarIsFirst(d.bars, addr, 0);
    assert Touches(d.bars[t.bar], addr);
  }

  /** With two adjacent BARs, no access to the start of the second one is found. */
  lemma AdjacentBars(d: Device, count: nat, answer: Answer)
    requires d.Simple? && |d.bars| == 2 && d.memoryEnabled && d.handler && 0 < count <= d.bars[1].size
    requires Start(d.bars[1]) == Start(d.bars[0]) + d.bars[0].size
    ensures SimpleMaps(d, Start(d.bars[1]), count, Register(d.id, 1, 0))
    ensures SimpleCycle(d, Start(d.bars[1]), count, answer) == DECLINED
  {
    Starts();
    assert FindBar(d.bars, Start(d.bars[1]), 0) == 0;
  }

  lemma Aligned(b: Bar)
    requires b.raw % 16 == 0
    ensures Start(b) == b.raw
  {
  }

  lemma AdjacentPages(answer: Answer) returns (d: Device)
    ensures d == Simple(0, [Bar(0x1000, 0x1000), Bar(0x2000, 0x1000)], true, true)
    ensures SimpleMaps(d, 0x2000, 4, Register(0, 1, 0)) && SimpleCycle(d, 0x2000, 4, answer) == DECLINED
  {
    hide SimpleCycle, SimpleMaps, Start;
    var low, high := Bar(0x1000, 0x1000), Bar(0x2000, 0x1000);
    d := Simple(0, [low, high], true, true);
    Aligned(low);
    Aligned(high);
    AdjacentBars(d, 4, answer);
  }

  // ----- any answer, errors included -----

  const NOT_MINE := -1

  /** What the devices in front of the i-th one called, the last of them last. */
  function CalledBefore(ds: seq<Device>, i: nat, addr: nat, count: nat, lat: nat, answer: Answer): seq<Target>
    requires i <= |ds|
  {
    if i == 0 then []
    else Cycle(ds[0], addr, count, lat, answer).called + CalledBefore(ds[1..], i - 1, addr, count, lat, answer)
  }

  /**
   A round ends at the first device that gives any other answer than the one for a cycle that is not its own: success
   and failure alike. Its answer is the round's, and no device behind it is asked.
   */
  lemma {:induction false} RoundStops(ds: seq<Device>, i: nat, addr: nat, count: nat, lat: nat, answer: Answer)
    requires i < |ds| && forall j :: 0 <= j < i ==> Cycle(ds[j], addr, count, lat, answer).status == NOT_MINE
    requires Cycle(ds[i], addr, count, lat, answer).status != NOT_MINE
    ensures var o, r := Cycle(ds[i], addr, count, lat, answer), Round(ds, addr, count, lat, answer);
            r.status == o.status && r.called == CalledBefore(ds, i, addr, count, lat, answer) + o.called
    decreases i
  {
    hide Cycle;
    if i > 0 {
      RoundStops(ds[1..], i - 1, addr, count, lat, answer);
    }
  }

  lemma {:induction false} RoundDeclines(ds: seq<Device>, addr: nat, count: nat, lat: nat, answer: Answer)
    requires forall j :: 0 <= j < |ds| ==> Cycle(ds[j], addr, count, lat, answer).status == NOT_MINE
    ensures Round(ds, addr, count, lat, answer).status == NOT_MINE
    decreases |ds|
  {
    hide Cycle;
    if ds != [] {
      RoundDeclines(ds[1..], addr, count, lat, answer);
    }
  }

  /** Rounds of growing latency go on until one ends with another answer or the limit is reached. */
  lemma {:induction false} CyclesStop(ds: seq<Device>, addr: nat, count: nat, lat: nat, k: nat, maxLat: int,
                                      answer: Answer)
    requires lat <= k
    requires forall j :: lat <= j < k ==> Round(ds, addr, count, j, answer).status == NOT_MINE
    ensures k < maxLat && Round(ds, addr, count, k, answer).status != NOT_MINE ==>
              Cycles(ds, addr, count, lat, maxLat, answer).status == Round(ds, addr, count, k, answer).status
    ensures k >= maxLat ==> Cycles(ds, addr, count, lat, maxLat, answer).status == NOT_MINE
    decreases k - lat
  {
    hide Round;
    if lat < k {
      CyclesStop(ds, addr, count, lat + 1, k, maxLat, answer);
    }
  }
}
