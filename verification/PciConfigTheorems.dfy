/** Configuration writes and reads by address: a write changes one function's bytes, read back at that address. */
module PciConfigTheorems {
  import opened Bytes
  import opened PciRegistry
  import opened PciConfig
  import opened PciConfigCycles

  // ----- buses as registration leaves them -----

  function StateOf(p: Bus): BusState {
    BusState(p.num, seq(|p.funcs|, i requires 0 <= i < |p.funcs| => p.funcs[i].bdf))
  }

  /** Some run of registrations and renumberings on an empty bus has put these functions there. */
  ghost predicate Registered(p: Bus) {
    exists num, ops :: Runs(BusState(num, []), ops) && StateOf(p) == PciRegistry.Run(BusState(num, []), ops)
  }

  lemma RegisteredIsConsistent(p: Bus)
    requires Registered(p)
    ensures Consistent(StateOf(p))
  {
    hide Consistent, Runs, PciRegistry.Run;
    var num, ops :| Runs(BusState(num, []), ops) && StateOf(p) == PciRegistry.Run(BusState(num, []), ops);
    EmptyIsConsistent(num);
    RunKeepsAddresses(BusState(num, []), ops);
  }

  lemma EmptyIsConsistent(num: bv32)
    ensures Consistent(BusState(num, []))
  {
  }

  /** On a registered bus the function found for a pair is the one that has it. */
  lemma RegisteredNames(p: Bus, g: Func, addr: bv32)
    requires Registered(p)
    ensures Named(p, g, addr) <==> g in p.funcs && Df(g.bdf) == Df(addr)
  {
    hide Df, Renumbered, Registered;
    RegisteredIsConsistent(p);
    FindFuncIsFirst(p.funcs, addr, 0);
    if g in p.funcs && Df(g.bdf) == Df(addr) {
      var i :| 0 <= i < |p.funcs| && p.funcs[i] == g;
      var k := FindFunc(p.funcs, addr, 0);
      assert k <= i;
      assert StateOf(p).bdfs[i] == g.bdf && StateOf(p).bdfs[k] == p.funcs[k].bdf;
    }
  }

  lemma {:induction false} FindFuncIsFirst(fs: seq<Func>, bdf: bv32, i: nat)
    requires i <= |fs|
    ensures forall j :: i <= j < FindFunc(fs, bdf, i) ==> Df(fs[j].bdf) != Df(bdf)
    ensures var k := FindFunc(fs, bdf, i); k < |fs| ==> Df(fs[k].bdf) == Df(bdf)
    decreases |fs| - i
  {
    hide Df;
    if i < |fs| && Df(fs[i].bdf) != Df(bdf) {
      FindFuncIsFirst(fs, bdf, i + 1);
    }
  }

  // ----- which addresses are the same function -----

  /** A function that the address names completes the access. */
  ghost predicate Answered(bus: Bus, addr: bv32, count: nat) {
    exists p, g :: Sees(bus, BusOf(addr), p) && Named(p, g, addr) && Addressed(g, addr, count).Reached?
  }

  /** No bridge is addressed as a function. */
  ghost predicate NoBridgeNamed(bus: Bus, addr: bv32) {
    forall p, g :: Sees(bus, BusOf(addr), p) && Named(p, g, addr) ==> !g.kind.Bridge?
  }

  /** An access completes exactly when a function that its address names completes it, and then there. */
  lemma RouteNames(bus: Bus, addr: bv32, count: nat) returns (p: Bus, g: Func)
    ensures BusRoute(bus, addr, count).Reached? <==> Answered(bus, addr, count)
    ensures Answered(bus, addr, count) ==>
      && Sees(bus, BusOf(addr), p) && Named(p, g, addr)
      && BusRoute(bus, addr, count) == Addressed(g, addr, count)
      && (!g.kind.Bridge? ==> BusRoute(bus, addr, count) == Reached(Hit(g.id, RegOf(addr))))
  {
    hide BusRoute, Sees, Named, RegOf, BusOf, Addressed;
    BusAgrees(bus, addr, count);
    var route := BusRoute(bus, addr, count);
    if route.Reached? {
      p, g :| Sees(bus, BusOf(addr), p) && Named(p, g, addr) && Addressed(g, addr, count) == route;
      if !g.kind.Bridge? {
        FunctionAnswers(g, addr, count);
      }
    } else {
      p, g := bus, Func(0, 0, Leaf);
    }
  }

  /** The bus number and the device and function number agree. */
  predicate SamePlace(addr: bv32, addr': bv32) { BusOf(addr) == BusOf(addr') && Df(addr) == Df(addr') }

  ghost predicate AtRegister(r: Route, addr: bv32, count: nat) {
    r.Reached? ==> Fits(addr, count) && r.hit.off == RegOf(addr)
  }

  /** The routes of two accesses in bounds end at the same function, or nowhere. */
  ghost predicate Alike(r: Route, addr: bv32, count: nat, r': Route, addr': bv32, count': nat) {
    && AtRegister(r, addr, count) && AtRegister(r', addr', count')
    && (Fits(addr, count) && Fits(addr', count') ==>
          (r.Reached? <==> r'.Reached?) && (r.Reached? ==> r.hit.id == r'.hit.id))
  }

  lemma PlaceSentOn(addr: bv32, addr': bv32)
    requires SamePlace(addr, addr')
    ensures SamePlace(Type1(addr), Type1(addr')) && IsType1(Type1(addr)) && IsType1(Type1(addr'))
    ensures SamePlace(Type0(addr), Type0(addr')) && !IsType1(Type0(addr)) && !IsType1(Type0(addr'))
    ensures RegOf(Type0(addr)) == RegOf(addr) == RegOf(Type1(addr))
    ensures RegOf(Type0(addr')) == RegOf(addr') == RegOf(Type1(addr'))
  {
    Type1Keeps(addr);
    Type1Keeps(addr');
    Type0Keeps(addr);
    Type0Keeps(addr');
    PlaceAddressed(addr, addr');
    hide Type0, Type1, IsType1, Df, BusOf, RegBits;
  }

  lemma PlaceAddressed(addr: bv32, addr': bv32)
    requires SamePlace(addr, addr')
    ensures SamePlace(Type0(addr), Type0(addr'))
  {
    assert Df(Type0(addr)) == Df(addr) & 0x7FFF;
    assert Df(Type0(addr')) == Df(addr') & 0x7FFF;
  }

  lemma SameRegister(r: Route, addr: bv32, sent: bv32, count: nat, r': Route, addr': bv32, sent': bv32, count': nat)
    requires RegOf(sent) == RegOf(addr) && RegOf(sent') == RegOf(addr')
    ensures Alike(r, sent, count, r', sent', count') ==> Alike(r, addr, count, r', addr', count')
  {
    hide RegOf;
  }

  lemma NowhereAlike(addr: bv32, count: nat, addr': bv32, count': nat)
    ensures Alike(Missed, addr, count, Missed, addr', count')
  {
    hide RegOf;
  }

  lemma {:induction false} FuncAlike(f: Func, addr: bv32, count: nat, addr': bv32, count': nat)
    requires SamePlace(addr, addr') && (IsType1(addr) <==> IsType1(addr'))
    ensures Alike(FuncRoute(f, addr, count), addr, count, FuncRoute(f, addr', count'), addr', count')
    decreases f, 0
  {
    hide SamePlace, IsType1, Type1, RegOf, BusRoute, FirstRoute;
    match f.kind
    case Leaf =>
    case Unit(prim) =>
      if IsType1(addr) {
        BusAlike(prim, addr, count, addr', count');
      }
    case Bridge(gasket) =>
      PlaceSentOn(addr, addr');
      FirstAlike(gasket.funcs, Type1(addr), count, Type1(addr'), count');
  }

  lemma {:induction false} FirstAlike(fs: seq<Func>, addr: bv32, count: nat, addr': bv32, count': nat)
    requires SamePlace(addr, addr') && (IsType1(addr) <==> IsType1(addr'))
    ensures Alike(FirstRoute(fs, addr, count), addr, count, FirstRoute(fs, addr', count'), addr', count')
    decreases fs, 0
  {
    hide SamePlace, IsType1, RegOf, FuncRoute;
    if fs != [] {
      FuncAlike(fs[0], addr, count, addr', count');
      FirstAlike(fs[1..], addr, count, addr', count');
    }
  }

  /** Two accesses to the same place go to the same function, whatever numbers and bridges the tree has. */
  lemma {:induction false} BusAlike(bus: Bus, addr: bv32, count: nat, addr': bv32, count': nat)
    requires SamePlace(addr, addr')
    ensures Alike(BusRoute(bus, addr, count), addr, count, BusRoute(bus, addr', count'), addr', count')
    decreases bus, 0
  {
    PlaceSentOn(addr, addr');
    var r, r' := BusRoute(bus, addr, count), BusRoute(bus, addr', count');
    SameRegister(r, addr, Type0(addr), count, r', addr', Type0(addr'), count');
    SameRegister(r, addr, Type1(addr), count, r', addr', Type1(addr'), count');
    hide Type0, Type1, IsType1, Df, BusOf, RegOf, FuncRoute, FirstRoute, Alike;
    if BusOf(addr) != bus.num {
      FirstAlike(bus.funcs, Type1(addr), count, Type1(addr'), count');
    } else {
      FindAlike(bus.funcs, addr, addr', 0);
      var k := FindFunc(bus.funcs, addr, 0);
      if k < |bus.funcs| {
        FuncAlike(bus.funcs[k], Type0(addr), count, Type0(addr'), count');
      } else {
        NowhereAlike(addr, count, addr', count');
      }
    }
  }

  /** Each function has its own configuration space. */
  ghost predicate OwnSpaces(bus: Bus) {
    forall p, q, g, h ::
      Reachable(bus, p) && Reachable(bus, q) && g in p.funcs && h in q.funcs && g.id == h.id ==> p == q && g == h
  }

  lemma NamedPlace(bus: Bus, p: Bus, g: Func, addr: bv32)
    requires Sees(bus, BusOf(addr), p) && Named(p, g, addr)
    ensures Reachable(bus, p) && p.num == BusOf(addr) && g in p.funcs && Df(g.bdf) == Df(addr)
  {
    hide Sees, Reachable, BusOf, Df;
    SeenIsReachable(bus, BusOf(addr), p);
    FindFuncIsFirst(p.funcs, addr, 0);
  }

  /** Where no bridge is named, completed accesses are to the same function only if the places agree. */
  lemma SameFunction(bus: Bus, addr: bv32, count: nat, addr': bv32, count': nat)
    requires OwnSpaces(bus) && NoBridgeNamed(bus, addr) && NoBridgeNamed(bus, addr')
    requires Answered(bus, addr, count) && Answered(bus, addr', count')
    ensures var r, r' := BusRoute(bus, addr, count), BusRoute(bus, addr', count');
            r.Reached? && r'.Reached? && (r.hit.id == r'.hit.id <==> SamePlace(addr, addr'))
  {
    hide BusRoute, Reachable, Sees, RegOf, BusOf, Answered, Named, Addressed, Fits, OwnSpaces, SamePlace;
    var p, g := RouteNames(bus, addr, count);
    var q, h := RouteNames(bus, addr', count');
    if SamePlace(addr, addr') {
      BusAlike(bus, addr, count, addr', count');
    } else if g.id == h.id {
      OwnIds(bus, p, g, addr, q, h, addr');
    }
  }

  lemma OwnIds(bus: Bus, p: Bus, g: Func, addr: bv32, q: Bus, h: Func, addr': bv32)
    requires OwnSpaces(bus) && g.id == h.id
    requires Sees(bus, BusOf(addr), p) && Named(p, g, addr) && Sees(bus, BusOf(addr'), q) && Named(q, h, addr')
    ensures SamePlace(addr, addr')
  {
    hide Reachable, Sees, BusOf, Df, Named;
    NamedPlace(bus, p, g, addr);
    NamedPlace(bus, q, h, addr');
  }

  // ----- a write and what is read afterwards -----

  /** The two accesses have no register byte in common. */
  predicate Apart(addr: bv32, count: nat, addr': bv32, count': nat) {
    !SamePlace(addr, addr') || RegOf(addr') + count' <= RegOf(addr) || RegOf(addr) + count <= RegOf(addr')
  }

  /**
   After a write at one address a read at another. The same registers of the same place give the data, provided the
   write was completed, and other registers of that place give what they gave before. So do those of another place
   where each function has its own space and no bridge is named.
   */
  lemma ReadBack(spaces: seq<seq<byte>>, bus: Bus, addr: bv32, data: seq<byte>, addr': bv32, count: nat)
    requires Sized(spaces) && AllPlaced(bus.funcs, |spaces|)
    ensures RouteFits(BusRoute(bus, addr, |data|), |spaces|, |data|)
      && RouteFits(BusRoute(bus, addr', count), |spaces|, count)
    ensures var after := Written(spaces, BusRoute(bus, addr, |data|), data);
      && |after| == |spaces| && Sized(after)
      && (SamePlace(addr, addr') && RegOf(addr) == RegOf(addr') && count == |data| ==>
            ReadAt(after, BusRoute(bus, addr', count), count)
            == if Answered(bus, addr, |data|) then Data(data) else NoCompletion)
      && (Apart(addr, |data|, addr', count)
          && (SamePlace(addr, addr')
              || (OwnSpaces(bus) && NoBridgeNamed(bus, addr) && NoBridgeNamed(bus, addr'))) ==>
            ReadAt(after, BusRoute(bus, addr', count), count) == ReadAt(spaces, BusRoute(bus, addr', count), count))
  {
    hide BusRoute, AllPlaced, OwnSpaces, NoBridgeNamed, SamePlace, Answered, RegOf, Written, ReadAt, Sized, Sees,
         Named, Addressed;
    BusRouteFits(bus, addr, |data|, |spaces|);
    BusRouteFits(bus, addr', count, |spaces|);
    var w, r := BusRoute(bus, addr, |data|), BusRoute(bus, addr', count);
    var p, g := RouteNames(bus, addr, |data|);
    var q, h := RouteNames(bus, addr', count);
    RoutedReadBack(spaces, w, data, r, count);
    if SamePlace(addr, addr') {
      BusAlike(bus, addr, |data|, addr', count);
    } else if w.Reached? && r.Reached? && OwnSpaces(bus) && NoBridgeNamed(bus, addr) && NoBridgeNamed(bus, addr') {
      SameFunction(bus, addr, |data|, addr', count);
    }
  }

  /** A read and a write through two routes. */
  lemma RoutedReadBack(spaces: seq<seq<byte>>, w: Route, data: seq<byte>, r: Route, count: nat)
    requires Sized(spaces) && RouteFits(w, |spaces|, |data|) && RouteFits(r, |spaces|, count)
    ensures var after := Written(spaces, w, data);
      && Sized(after) && |after| == |spaces|
      && (w.Reached? && r == w && count == |data| ==> ReadAt(after, r, count) == Data(data))
      && (r.Missed? ==> ReadAt(after, r, count) == NoCompletion)
      && (w.Missed? || r.Missed? || r.hit.id != w.hit.id
                || r.hit.off + count <= w.hit.off || w.hit.off + |data| <= r.hit.off ==>
            ReadAt(after, r, count) == ReadAt(spaces, r, count))
  {
    hide Overwrite;
    if w.Reached? && r.Reached? && r.hit.id == w.hit.id {
      Overwritten(spaces[w.hit.id], w.hit.off, data, r.hit.off, count);
    }
  }

  // ----- where the places do not tell the functions -----

  /** A cut of the shipped tree: the flash controller behind a translation unit, behind a bridge on the host's bus. */
  const FLASH: Func := Func(3, 0x000C_8000, Leaf)
  const PCH: Bus := Bus(0, [FLASH])
  const UNIT: Func := Func(2, 0x0000_5000, Unit(PCH))
  const GASKET: Bus := Bus(0, [UNIT])
  const BRIDGE: Func := Func(1, 0x1000_1000, Bridge(GASKET))
  const HOST: Bus := Bus(0x100, [BRIDGE])

  lemma OnlyFunction(f: Func, addr: bv32, count: nat)
    ensures FirstRoute([f], addr, count) == FuncRoute(f, addr, count)
  {
    hide FuncRoute;
    assert FirstRoute([f][1..], addr, count) == Missed;
  }

  /** A bus behind one with the same number is hidden: the same address is found from farther away. */
  lemma HiddenByItsNumber()
    ensures Reachable(GASKET, PCH) && PCH.num == BusOf(0x000C_8000) && Named(PCH, FLASH, 0x000C_8000)
    ensures BusRoute(GASKET, 0x000C_8000, 4) == Missed && BusRoute(HOST, 0x000C_8000, 4) == Reached(Hit(3, 0))
  {
    assert Below(UNIT, PCH);
    assert Type1(0x000C_8000) == 0x100C_8000 == Type1(0x100C_8000) && Type0(0x100C_8000) == 0;
    OnlyFunction(BRIDGE, 0x100C_8000, 4);
    OnlyFunction(UNIT, 0x100C_8000, 4);
    assert BusRoute(PCH, 0x100C_8000, 4) == Reached(Hit(3, 0));
  }

  /** The same with a host bus whose bridge can be addressed, and a function 0.1 on the bus behind. */
  const BEHIND: Bus := Bus(0, [Func(3, 0x0000_1000, Leaf)])
  const UNIT_BEHIND: Func := Func(2, 0x0000_5000, Unit(BEHIND))
  const NUMBERED_BRIDGE: Func := Func(1, 0x0010_1000, Bridge(Bus(0, [UNIT_BEHIND])))
  const NUMBERED_HOST: Bus := Bus(1, [NUMBERED_BRIDGE])

  /** Addressed as a function, the bridge leads to what another address names. */
  lemma SameBehindTheBridge()
    ensures !SamePlace(0x0010_1000, 0x0000_1000)
    ensures BusRoute(NUMBERED_HOST, 0x0010_1000, 4) == BusRoute(NUMBERED_HOST, 0x0000_1000, 4) == Reached(Hit(3, 0))
  {
    assert Type0(0x0010_1000) == 0x1000 == Type0(0x1000_1000) && Type1(0x1000) == 0x1000_1000 == Type1(0x1000_1000);
    OnlyFunction(NUMBERED_BRIDGE, 0x1000_1000, 4);
    OnlyFunction(UNIT_BEHIND, 0x1000_1000, 4);
    assert BusRoute(BEHIND, 0x1000_1000, 4) == Reached(Hit(3, 0));
  }
}
