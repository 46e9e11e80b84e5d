/** The result of a memory cycle does not depend on the order of devices on a bus or of windows in a unit. */
module PciOrder {
  import opened PciTopology
  import opened PciAddressMap

  /** The same device, except that there may be windows or devices below it that only the second has. */
  ghost predicate Within(d: Device, e: Device)
    decreases d, 0
  {
    match d
    case Simple(_, _, _, _) => e == d
    case Att(id, own, memoryEnabled, windows, sideband, prim) =>
      && e.Att? && e.id == id && e.own == own && e.memoryEnabled == memoryEnabled
      && (forall w :: w in windows ==> w in e.windows)
      && (forall w :: w in sideband ==> w in e.sideband)
      && AllWithin(prim, e.prim)
    case Bridge(id, gasket) => e.Bridge? && e.id == id && AllWithin(gasket, e.gasket)
  }

  ghost predicate Among(d: Device, es: seq<Device>)
    decreases d, 1, es
  {
    es != [] && (Within(d, es[0]) || Among(d, es[1..]))
  }

  ghost predicate AllWithin(ds: seq<Device>, es: seq<Device>)
    decreases ds
  {
    ds != [] ==> Among(ds[0], es) && AllWithin(ds[1..], es)
  }

  /** The same devices with the same windows, in any order, at every level of the tree. */
  ghost predicate SameBus(ds: seq<Device>, es: seq<Device>) { AllWithin(ds, es) && AllWithin(es, ds) }

  // ----- what is below another bus is mapped there too -----

  lemma {:induction false} WithinMaps(d: Device, e: Device, addr: nat, count: nat, t: Target)
    requires Within(d, e) && Maps(d, addr, count, t)
    ensures Maps(e, addr, count, t)
    decreases d, 0
  {
    hide AllWithin, BusMaps, WindowHolds, SidebandHolds, InOwn;
    match d
    case Simple(_, _, _, _) =>
    case Att(_, own, _, windows, _, prim) =>
      if !InOwn(own, addr) && WindowMaps(d, addr % TWO_32, count, t) {
        WindowWithinMaps(d, e, addr % TWO_32, count, t);
      }
    case Bridge(_, gasket) =>
      if !InConfigSpace(addr) {
        AllWithinMaps(gasket, e.gasket, addr, count, t);
      }
  }

  lemma {:induction false} WindowWithinMaps(d: Device, e: Device, address: nat, count: nat, t: Target)
    requires d.Att? && Within(d, e) && WindowMaps(d, address, count, t)
    ensures WindowMaps(e, address, count, t)
    decreases d, 0, 0
  {
    hide AllWithin, BusMaps;
    var w, k :| w in d.windows && WindowHolds(w, address, k) && BusMaps(d.prim, (w.ext + k) % TWO_64, count, t);
    AllWithinMaps(d.prim, e.prim, (w.ext + k) % TWO_64, count, t);
  }

  lemma {:induction false} AmongMaps(d: Device, es: seq<Device>, addr: nat, count: nat, t: Target)
    requires Among(d, es) && Maps(d, addr, count, t)
    ensures BusMaps(es, addr, count, t)
    decreases d, 1, es
  {
    hide Within, Maps;
    if Within(d, es[0]) {
      WithinMaps(d, es[0], addr, count, t);
    } else {
      AmongMaps(d, es[1..], addr, count, t);
    }
  }

  lemma {:induction false} AllWithinMaps(ds: seq<Device>, es: seq<Device>, addr: nat, count: nat, t: Target)
    requires AllWithin(ds, es) && BusMaps(ds, addr, count, t)
    ensures BusMaps(es, addr, count, t)
    decreases ds
  {
    hide Among, Maps;
    if Maps(ds[0], addr, count, t) {
      AmongMaps(ds[0], es, addr, count, t);
    } else {
      AllWithinMaps(ds[1..], es, addr, count, t);
    }
  }

  // ----- what is below a bus of disjoint claims has disjoint claims -----

  lemma {:induction false} WithinDisjoint(d: Device, e: Device, addr: nat)
    requires Within(d, e) && Disjoint(e, addr)
    ensures Disjoint(d, addr)
    decreases d, 0
  {
    hide AllWithin, AllDisjoint, SidebandHolds, WindowHolds;
    match d
    case Simple(_, _, _, _) =>
    case Att(_, _, _, windows, _, prim) =>
      forall w, k | w in windows && WindowHolds(w, addr % TWO_32, k)
        ensures AllDisjoint(prim, (w.ext + k) % TWO_64)
      {
        AllWithinDisjoint(prim, e.prim, (w.ext + k) % TWO_64);
      }
    case Bridge(_, gasket) => AllWithinDisjoint(gasket, e.gasket, addr);
  }

  lemma {:induction false} AmongDisjoint(d: Device, es: seq<Device>, addr: nat)
    requires Among(d, es) && AllDisjoint(es, addr)
    ensures Disjoint(d, addr)
    decreases d, 1, es
  {
    hide Within, Disjoint;
    if Within(d, es[0]) {
      WithinDisjoint(d, es[0], addr);
    } else {
      AmongDisjoint(d, es[1..], addr);
    }
  }

  lemma {:induction false} AllWithinDisjoint(ds: seq<Device>, es: seq<Device>, addr: nat)
    requires AllWithin(ds, es) && AllDisjoint(es, addr)
    ensures AllDisjoint(ds, addr)
    decreases ds
  {
    if ds != [] {
      hide Among, Disjoint;
      AmongDisjoint(ds[0], es, addr);
      AllWithinDisjoint(ds[1..], es, addr);
    }
  }

  // ----- any permutation is the same bus -----

  lemma {:induction false} WithinItself(d: Device)
    ensures Within(d, d)
    decreases d, 0
  {
    hide AllWithin;
    match d
    case Simple(_, _, _, _) =>
    case Att(_, _, _, _, _, prim) => InsideWithin(prim, prim);
    case Bridge(_, gasket) => InsideWithin(gasket, gasket);
  }

  lemma {:induction false} MemberAmong(d: Device, es: seq<Device>)
    requires d in es
    ensures Among(d, es)
    decreases d, 1, es
  {
    hide Within;
    if d == es[0] {
      WithinItself(d);
    } else {
      MemberAmong(d, es[1..]);
    }
  }

  lemma {:induction false} InsideWithin(ds: seq<Device>, es: seq<Device>)
    requires forall d :: d in ds ==> d in es
    ensures AllWithin(ds, es)
    decreases ds
  {
    if ds != [] {
      hide Among;
      assert ds[0] in ds;
      assert forall d :: d in ds[1..] ==> d in ds;
      MemberAmong(ds[0], es);
      InsideWithin(ds[1..], es);
    }
  }

  /** Registering the same devices in another order. */
  lemma PermutationIsSame(ds: seq<Device>, es: seq<Device>)
    requires multiset(ds) == multiset(es)
    ensures SameBus(ds, es)
  {
    hide AllWithin;
    assert forall d :: d in ds <==> d in multiset(ds);
    assert forall d :: d in es <==> d in multiset(es);
    InsideWithin(ds, es);
    InsideWithin(es, ds);
  }

  /** A translation unit with the same windows in another order. */
  lemma WindowOrderIsSame(d: Device, e: Device)
    requires d.Att? && e.Att? && multiset(d.windows) == multiset(e.windows)
      && multiset(d.sideband) == multiset(e.sideband)
    requires e == d.(windows := e.windows, sideband := e.sideband)
    ensures SameBus([d], [e])
  {
    hide AllWithin;
    assert forall w :: (w in d.windows <==> w in multiset(d.windows)) && (w in e.windows <==> w in multiset(e.windows));
    assert forall w :: w in d.sideband <==> w in multiset(d.sideband);
    assert forall w :: w in e.sideband <==> w in multiset(e.sideband);
    InsideWithin(d.prim, d.prim);
    OneWithin(d, e);
    OneWithin(e, d);
  }

  lemma OneWithin(d: Device, e: Device)
    requires Within(d, e)
    ensures AllWithin([d], [e])
  {
    hide Within;
    assert [d][1..] == [];
    assert Among(d, [e]);
  }

  /** Where the map has one target the search reaches it, and where it has none nothing is called. */
  lemma ReachesTheTarget(ds: seq<Device>, addr: nat, count: nat, maxLat: int, answer: Answer, t: Target)
    requires Positive(answer) && AllDisjoint(ds, addr) && count > 0 && 0 < maxLat <= 16
    requires forall u :: BusMaps(ds, addr, count, u) ==> u == t
    ensures Cycles(ds, addr, count, 0, maxLat, answer)
      == if BusMaps(ds, addr, count, t) then Outcome(answer(t), [t]) else DECLINED
  {
    hide Cycles, AllDisjoint, BusMaps;
    CyclesAgree(ds, addr, count, 0, maxLat, answer);
    var o := Cycles(ds, addr, count, 0, maxLat, answer);
    assert |o.called| == 1 ==> o.called == [o.called[0]];
  }

  lemma SameMaps(ds: seq<Device>, es: seq<Device>, addr: nat, count: nat)
    requires SameBus(ds, es)
    ensures forall t :: BusMaps(ds, addr, count, t) <==> BusMaps(es, addr, count, t)
  {
    hide AllWithin, BusMaps;
    forall t
      ensures BusMaps(ds, addr, count, t) <==> BusMaps(es, addr, count, t)
    {
      if BusMaps(ds, addr, count, t) {
        AllWithinMaps(ds, es, addr, count, t);
      }
      if BusMaps(es, addr, count, t) {
        AllWithinMaps(es, ds, addr, count, t);
      }
    }
  }

  lemma OrderIndependent(ds: seq<Device>, es: seq<Device>, addr: nat, count: nat, maxLat: int, answer: Answer)
    requires Positive(answer) && AllDisjoint(ds, addr) && count > 0 && 0 < maxLat <= 16 && SameBus(ds, es)
    requires forall t, u :: BusMaps(ds, addr, count, t) && BusMaps(ds, addr, count, u) ==> t == u
    ensures Cycles(ds, addr, count, 0, maxLat, answer) == Cycles(es, addr, count, 0, maxLat, answer)
  {
    hide Cycles, AllDisjoint, BusMaps, AllWithin;
    SameMaps(ds, es, addr, count);
    AllWithinDisjoint(es, ds, addr);
    var t :| (exists u :: BusMaps(ds, addr, count, u)) ==> BusMaps(ds, addr, count, t);
    ReachesTheTarget(ds, addr, count, maxLat, answer, t);
    ReachesTheTarget(es, addr, count, maxLat, answer, t);
  }
}
