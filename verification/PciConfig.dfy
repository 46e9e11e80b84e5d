/** Configuration cycles: which function's registers an address reaches through a tree of buses. */
module PciConfig {
  import opened PciRegistry

  const PCI_CONFIG_SIZE := 0x1000

  // ----- addresses -----

  function BusOf(addr: bv32): bv32 { (addr >> 20) & 0xFF }

  function RegBits(addr: bv32): bv32 { addr & 0xFFF }

  function RegOf(addr: bv32): (r: nat)
    ensures r < PCI_CONFIG_SIZE
  {
    RegBits(addr) as int
  }

  predicate IsType1(addr: bv32) { addr & 0x1000_0000 == 0x1000_0000 }

  function Type1(addr: bv32): bv32 { (addr & 0x0FFF_FFFF) | 0x1000_0000 }

  /** A type 0 cycle carries function and register; the function it is for is found before. */
  function Type0(addr: bv32): bv32 { addr & 0x7FFF }

  lemma Type1Keeps(addr: bv32)
    ensures IsType1(Type1(addr)) && BusOf(Type1(addr)) == BusOf(addr) && Df(Type1(addr)) == Df(addr)
      && RegBits(Type1(addr)) == RegBits(addr)
  {
  }

  lemma Type0Keeps(addr: bv32)
    ensures !IsType1(Type0(addr)) && RegBits(Type0(addr)) == RegBits(addr)
  {
  }

  /** The fields of an address: eight bits of bus, five of device, three of function and twelve of register. */
  lemma AddressFields(bus: bv32, dev: bv32, fn: bv32, reg: bv32)
    requires bus <= 0xFF && dev <= 0x1F && fn <= 0x7 && reg <= 0xFFF
    ensures var a := (bus << 20) | (dev << 15) | (fn << 12) | reg;
      BusOf(a) == bus && Df(a) == (dev << 15) | (fn << 12) && RegBits(a) == reg && !IsType1(a)
  {
  }

  /** What a bus sends on: all of the address with the type bit set, or function and register alone without it. */
  lemma SentAddresses(addr: bv32)
    ensures Type1(addr) & 0x1FFF_FFFF == 0x1000_0000 | (addr & 0x0FFF_FFFF) && Type1(addr) >> 29 == 0
    ensures Type0(addr) == addr & 0x7FFF
    ensures IsType1(addr) <==> (addr >> 28) & 1 == 1
  {
  }

  // ----- the tree -----

  /** A device's function, a translation unit with a bus behind it, or a bridge whose bus sees type 1 cycles only. */
  datatype Kind = Leaf | Unit(prim: Bus) | Bridge(gasket: Bus)
  datatype Func = Func(id: nat, bdf: bv32, kind: Kind)
  datatype Bus = Bus(num: bv32, funcs: seq<Func>)

  /** The function whose registers are accessed, and the offset. */
  datatype Hit = Hit(id: nat, off: nat)
  datatype Route = Missed | Reached(hit: Hit)

  /** The function's own registers, if the access does not run past their end. */
  function Own(f: Func, addr: bv32, count: nat): Route {
    if RegOf(addr) + count > PCI_CONFIG_SIZE then Missed else Reached(Hit(f.id, RegOf(addr)))
  }

  function FuncRoute(f: Func, addr: bv32, count: nat): Route
    decreases f, 0
  {
    match f.kind
    case Leaf => if IsType1(addr) then Missed else Own(f, addr, count)
    case Unit(prim) => if IsType1(addr) then BusRoute(prim, addr, count) else Own(f, addr, count)
    case Bridge(gasket) => FirstRoute(gasket.funcs, Type1(addr), count)
  }

  /** The first function that completes the cycle. */
  function FirstRoute(fs: seq<Func>, addr: bv32, count: nat): Route
    decreases fs, 0
  {
    if fs == [] then Missed
    else if FuncRoute(fs[0], addr, count).Reached? then FuncRoute(fs[0], addr, count)
    else FirstRoute(fs[1..], addr, count)
  }

  function FindFunc(fs: seq<Func>, bdf: bv32, i: nat): (k: nat)
    requires i <= |fs|
    ensures i <= k <= |fs|
    decreases |fs| - i
  {
    if i == |fs| || Df(fs[i].bdf) == Df(bdf) then i else FindFunc(fs, bdf, i + 1)
  }

  /** Type 1 to everyone for another bus, type 0 to the function named for this one. */
  function BusRoute(bus: Bus, addr: bv32, count: nat): Route
    decreases bus, 0
  {
    if BusOf(addr) != bus.num then FirstRoute(bus.funcs, Type1(addr), count)
    else
      var k := FindFunc(bus.funcs, addr, 0);
      if k == |bus.funcs| then Missed else FuncRoute(bus.funcs[k], Type0(addr), count)
  }

  // ----- the flat map: the buses a cycle finds under a number, and the functions on them -----

  /** A bus takes the cycles with its own number for itself: another bus of that number behind it is not seen. */
  ghost predicate Sees(bus: Bus, num: bv32, p: Bus)
    decreases bus, 0
  {
    if num == bus.num then p == bus else SeesAny(bus.funcs, num, p)
  }

  ghost predicate SeesAny(fs: seq<Func>, num: bv32, p: Bus)
    decreases fs, 0
  {
    fs != [] && (SeesBelow(fs[0], num, p) || SeesAny(fs[1..], num, p))
  }

  /** A bridge's own bus is passed by: only what is behind its functions is seen. */
  ghost predicate SeesBelow(f: Func, num: bv32, p: Bus)
    decreases f, 0
  {
    match f.kind
    case Leaf => false
    case Unit(prim) => Sees(prim, num, p)
    case Bridge(gasket) => SeesAny(gasket.funcs, num, p)
  }

  /** The function a bus finds for the device and function number. */
  ghost predicate Named(p: Bus, g: Func, addr: bv32) {
    var k := FindFunc(p.funcs, addr, 0);
    k < |p.funcs| && g == p.funcs[k]
  }

  /** What a function does with a cycle that was addressed to it. */
  function Addressed(g: Func, addr: bv32, count: nat): Route { FuncRoute(g, Type0(addr), count) }

  /** The route is that of a function the map names, and none of those has one if there is none. */
  ghost predicate Right(route: Route, seen: Bus -> bool, addr: bv32, count: nat) {
    match route
    case Missed => forall p, g :: seen(p) && Named(p, g, addr) ==> Addressed(g, addr, count).Missed?
    case Reached(hit) => exists p, g :: seen(p) && Named(p, g, addr) && Addressed(g, addr, count) == route
  }

  // ----- the search agrees with the map -----

  lemma {:induction false} FindAlike(fs: seq<Func>, bdf: bv32, bdf': bv32, i: nat)
    requires i <= |fs| && Df(bdf) == Df(bdf')
    ensures FindFunc(fs, bdf, i) == FindFunc(fs, bdf', i)
    decreases |fs| - i
  {
    hide Df;
    if i < |fs| {
      FindAlike(fs, bdf, bdf', i + 1);
    }
  }

  /** Sent on as type 1, the address names the same functions, and they are addressed alike. */
  lemma SentOn(addr: bv32)
    ensures IsType1(Type1(addr)) && BusOf(Type1(addr)) == BusOf(addr) && Type0(Type1(addr)) == Type0(addr)
    ensures forall p, g :: Named(p, g, Type1(addr)) <==> Named(p, g, addr)
  {
    Type1Keeps(addr);
    assert Type0(Type1(addr)) == Type0(addr);
    hide Type0, Type1, Df, BusOf, RegBits, IsType1;
    forall p: Bus
      ensures FindFunc(p.funcs, Type1(addr), 0) == FindFunc(p.funcs, addr, 0)
    {
      FindAlike(p.funcs, Type1(addr), addr, 0);
    }
  }

  lemma {:induction false} FuncAgrees(f: Func, addr: bv32, count: nat)
    requires IsType1(addr)
    ensures Right(FuncRoute(f, addr, count), p => SeesBelow(f, BusOf(addr), p), addr, count)
    decreases f, 0
  {
    match f.kind
    case Leaf =>
    case Unit(prim) =>
      hide Named, IsType1, Type1, Type0, Addressed, FirstRoute, BusRoute, SeesAny, Sees;
      BusAgrees(prim, addr, count);
    case Bridge(gasket) =>
      hide Named, IsType1, Type1, Type0, FirstRoute, BusRoute, SeesAny, Sees, BusOf;
      SentOn(addr);
      FirstAgrees(gasket.funcs, Type1(addr), count);
  }

  lemma {:induction false} FirstAgrees(fs: seq<Func>, addr: bv32, count: nat)
    requires IsType1(addr)
    ensures Right(FirstRoute(fs, addr, count), p => SeesAny(fs, BusOf(addr), p), addr, count)
    decreases fs, 0
  {
    hide Named, IsType1, SeesBelow, FuncRoute, Addressed, BusOf;
    if fs != [] {
      FuncAgrees(fs[0], addr, count);
      FirstAgrees(fs[1..], addr, count);
    }
  }

  /** A configuration cycle reaches a function the map names, however many buses it has to cross, if one answers. */
  lemma {:induction false} BusAgrees(bus: Bus, addr: bv32, count: nat)
    ensures Right(BusRoute(bus, addr, count), p => Sees(bus, BusOf(addr), p), addr, count)
    decreases bus, 0
  {
    hide Type1, Type0, Df, IsType1, FirstRoute, FuncRoute, BusOf, SeesAny;
    if BusOf(addr) == bus.num {
      var k := FindFunc(bus.funcs, addr, 0);
      if k < |bus.funcs| {
        assert Named(bus, bus.funcs[k], addr);
      }
    } else {
      hide Named;
      SentOn(addr);
      FirstAgrees(bus.funcs, Type1(addr), count);
    }
  }

  // ----- what an addressed function gives -----

  ghost predicate Fits(addr: bv32, count: nat) { RegOf(addr) + count <= 0x1000 }

  /** Its own registers, if the access does not run past their end. */
  lemma FunctionAnswers(g: Func, addr: bv32, count: nat)
    requires !g.kind.Bridge?
    ensures Addressed(g, addr, count) == if Fits(addr, count) then Reached(Hit(g.id, RegOf(addr))) else Missed
  {
    Type0Keeps(addr);
    hide Type0, IsType1, RegBits;
  }

  lemma Type0Fields(addr: bv32)
    ensures BusOf(Type0(addr)) == 0 && Df(Type0(addr)) == addr & 0x7000 && RegBits(Type0(addr)) == RegBits(addr)
  {
  }

  /** A bridge passes the cycle on for bus 0, device 0 and the same function number. */
  lemma BridgeAnswers(g: Func, addr: bv32, count: nat)
    requires g.kind.Bridge?
    ensures BusOf(Type0(addr)) == 0 && Df(Type0(addr)) == addr & 0x7000 && RegOf(Type0(addr)) == RegOf(addr)
    ensures Right(Addressed(g, addr, count), p => SeesAny(g.kind.gasket.funcs, 0, p), Type0(addr), count)
  {
    Type0Fields(addr);
    SentOn(Type0(addr));
    hide Named, Type0, Type1, IsType1, BusOf, SeesAny, FirstRoute;
    FirstAgrees(g.kind.gasket.funcs, Type1(Type0(addr)), count);
  }

  // ----- numbers that are all different hide nothing -----

  ghost predicate Below(f: Func, p: Bus)
    decreases f, 0
  {
    match f.kind
    case Leaf => false
    case Unit(prim) => Reachable(prim, p)
    case Bridge(gasket) => BelowAny(gasket.funcs, p)
  }

  ghost predicate BelowAny(fs: seq<Func>, p: Bus)
    decreases fs, 0
  {
    fs != [] && (Below(fs[0], p) || BelowAny(fs[1..], p))
  }

  ghost predicate Reachable(bus: Bus, p: Bus)
    decreases bus, 0
  {
    p == bus || BelowAny(bus.funcs, p)
  }

  lemma {:induction false} SeenBelow(f: Func, num: bv32, p: Bus)
    requires SeesBelow(f, num, p)
    ensures p.num == num && Below(f, p)
    decreases f, 0
  {
    hide Sees, SeesAny, Reachable, BelowAny;
    match f.kind
    case Leaf =>
    case Unit(prim) => SeenIsReachable(prim, num, p);
    case Bridge(gasket) => SeenAny(gasket.funcs, num, p);
  }

  lemma {:induction false} SeenAny(fs: seq<Func>, num: bv32, p: Bus)
    requires SeesAny(fs, num, p)
    ensures p.num == num && BelowAny(fs, p)
    decreases fs, 0
  {
    hide SeesBelow, Below;
    if SeesBelow(fs[0], num, p) {
      SeenBelow(fs[0], num, p);
    } else {
      SeenAny(fs[1..], num, p);
    }
  }

  /** What is seen under a number is in the tree and has that number. */
  lemma {:induction false} SeenIsReachable(bus: Bus, num: bv32, p: Bus)
    requires Sees(bus, num, p)
    ensures p.num == num && Reachable(bus, p)
    decreases bus, 0
  {
    hide SeesAny, BelowAny;
    if num != bus.num {
      SeenAny(bus.funcs, num, p);
    }
  }

  lemma {:induction false} LoneBelow(f: Func, num: bv32, p: Bus)
    requires Below(f, p) && p.num == num && forall q :: Below(f, q) && q.num == num ==> q == p
    ensures SeesBelow(f, num, p)
    decreases f, 0
  {
    hide Sees, SeesAny, Reachable, BelowAny;
    match f.kind
    case Leaf =>
    case Unit(prim) => LoneIsSeen(prim, num, p);
    case Bridge(gasket) => LoneAny(gasket.funcs, num, p);
  }

  lemma {:induction false} LoneAny(fs: seq<Func>, num: bv32, p: Bus)
    requires BelowAny(fs, p) && p.num == num && forall q :: BelowAny(fs, q) && q.num == num ==> q == p
    ensures SeesAny(fs, num, p)
    decreases fs, 0
  {
    hide SeesBelow, Below;
    if Below(fs[0], p) {
      LoneBelow(fs[0], num, p);
    } else {
      LoneAny(fs[1..], num, p);
    }
  }

  /** The one bus of a number is seen, however deep it is. */
  lemma {:induction false} LoneIsSeen(bus: Bus, num: bv32, p: Bus)
    requires Reachable(bus, p) && p.num == num && forall q :: Reachable(bus, q) && q.num == num ==> q == p
    ensures Sees(bus, num, p)
    decreases bus, 0
  {
    hide SeesAny, BelowAny;
    assert Reachable(bus, bus);
    if num != bus.num {
      LoneAny(bus.funcs, num, p);
    }
  }
}
