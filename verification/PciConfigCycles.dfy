/** Configuration reads and writes as they run, on configuration spaces changed in place. */
module PciConfigCycles {
  import opened Bytes
  import opened PciRegistry
  import opened PciConfig

  /** Every function in the tree has a configuration space among the first n. */
  predicate Placed(f: Func, n: nat)
    decreases f, 0
  {
    && f.id < n
    && match f.kind
       case Leaf => true
       case Unit(prim) => AllPlaced(prim.funcs, n)
       case Bridge(gasket) => AllPlaced(gasket.funcs, n)
  }

  predicate AllPlaced(fs: seq<Func>, n: nat)
    decreases fs, 0
  {
    fs != [] ==> Placed(fs[0], n) && AllPlaced(fs[1..], n)
  }

  // ----- the spaces as values -----

  predicate Sized(spaces: seq<seq<byte>>) { forall i :: 0 <= i < |spaces| ==> |spaces[i]| == PCI_CONFIG_SIZE }

  predicate RouteFits(route: Route, n: nat, count: nat) {
    route.Reached? ==> route.hit.id < n && route.hit.off + count <= PCI_CONFIG_SIZE
  }

  function Written(spaces: seq<seq<byte>>, route: Route, data: seq<byte>): seq<seq<byte>>
    requires Sized(spaces) && RouteFits(route, |spaces|, |data|)
  {
    if route.Missed? then spaces else spaces[route.hit.id := Overwrite(spaces[route.hit.id], route.hit.off, data)]
  }

  datatype ReadResult = NoCompletion | Data(bytes: seq<byte>)

  function ReadAt(spaces: seq<seq<byte>>, route: Route, count: nat): ReadResult
    requires Sized(spaces) && RouteFits(route, |spaces|, count)
  {
    if route.Missed? then NoCompletion else Data(spaces[route.hit.id][route.hit.off..route.hit.off + count])
  }

  // ----- the cycles -----

  class ConfigFabric {
    const spaces: seq<array<byte>>

    ghost predicate Valid() {
      && (forall i :: 0 <= i < |spaces| ==> spaces[i].Length == PCI_CONFIG_SIZE)
      && forall i, j :: 0 <= i < j < |spaces| ==> spaces[i] != spaces[j]
    }

    ghost function View(): (v: seq<seq<byte>>)
      requires Valid()
      reads spaces
      ensures Sized(v) && |v| == |spaces| && forall i :: 0 <= i < |spaces| ==> v[i] == spaces[i][..]
    {
      ViewOf(spaces)
    }

    /** The write went where the route says, and nowhere else. */
    twostate predicate Wrote(ok: bool, route: Route, data: seq<byte>)
      requires Valid()
      reads spaces
    {
      RouteFits(route, |spaces|, |data|) && ok == route.Reached? && View() == Written(old(View()), route, data)
    }

    method OwnWrite(f: Func, addr: bv32, data: seq<byte>) returns (ok: bool)
      requires Valid() && f.id < |spaces|
      modifies spaces
      ensures Wrote(ok, Own(f, addr, |data|), data)
    {
      hide RegOf;
      var off := RegOf(addr);
      if off + |data| > PCI_CONFIG_SIZE {
        return false;
      }
      Memcpy(spaces[f.id], off, data);
      ok := true;
    }

    method FunctionWrite(f: Func, addr: bv32, data: seq<byte>) returns (ok: bool)
      requires Valid() && Placed(f, |spaces|)
      modifies spaces
      ensures Wrote(ok, FuncRoute(f, addr, |data|), data)
      decreases f, 0
    {
      hide Own, BusRoute, FirstRoute, IsType1, Type1, AllPlaced, ConfigFabric.View;
      match f.kind
      case Leaf =>
        if IsType1(addr) {
          ok := false;
        } else {
          ok := OwnWrite(f, addr, data);
        }
      case Unit(prim) =>
        if IsType1(addr) {
          ok := BusWrite(prim, addr, data);
        } else {
          ok := OwnWrite(f, addr, data);
        }
      case Bridge(gasket) =>
        ok := EveryFunctionWrite(gasket.funcs, Type1(addr), data);
    }

    /** The loop over the functions of a bus, up to the first that completes the cycle. */
    method EveryFunctionWrite(fs: seq<Func>, addr: bv32, data: seq<byte>) returns (ok: bool)
      requires Valid() && AllPlaced(fs, |spaces|)
      modifies spaces
      ensures Wrote(ok, FirstRoute(fs, addr, |data|), data)
      decreases fs, 0
    {
      hide FuncRoute, Placed, ConfigFabric.View;
      var i := 0;
      assert fs[0..] == fs;
      while i < |fs|
        invariant i <= |fs| && AllPlaced(fs[i..], |spaces|) && View() == old(View())
        invariant FirstRoute(fs, addr, |data|) == FirstRoute(fs[i..], addr, |data|)
      {
        assert fs[i..][1..] == fs[i + 1..];
        var done := FunctionWrite(fs[i], addr, data);
        if done {
          return true;
        }
        i := i + 1;
      }
      ok := false;
    }

    method BusWrite(bus: Bus, addr: bv32, data: seq<byte>) returns (ok: bool)
      requires Valid() && AllPlaced(bus.funcs, |spaces|)
      modifies spaces
      ensures Wrote(ok, BusRoute(bus, addr, |data|), data)
      decreases bus, 0
    {
      hide FuncRoute, FirstRoute, Type1, Type0, BusOf, Df, Placed, ConfigFabric.View;
      if BusOf(addr) != bus.num {
        ok := EveryFunctionWrite(bus.funcs, Type1(addr), data);
      } else {
        var k := Find(bus.funcs, addr);
        if k == |bus.funcs| {
          return false;
        }
        PlacedAt(bus.funcs, k, |spaces|);
        ok := FunctionWrite(bus.funcs[k], Type0(addr), data);
      }
    }

    method Find(fs: seq<Func>, bdf: bv32) returns (k: nat)
      ensures k == FindFunc(fs, bdf, 0)
    {
      hide Df;
      k := 0;
      while k < |fs|
        invariant k <= |fs| && FindFunc(fs, bdf, 0) == FindFunc(fs, bdf, k)
      {
        if Df(fs[k].bdf) == Df(bdf) {
          return;
        }
        k := k + 1;
      }
    }

    ghost predicate ReadsAs(r: ReadResult, route: Route, count: nat)
      requires Valid()
      reads spaces
    {
      RouteFits(route, |spaces|, count) && r == ReadAt(View(), route, count)
    }

    method OwnRead(f: Func, addr: bv32, count: nat) returns (r: ReadResult)
      requires Valid() && f.id < |spaces|
      ensures ReadsAs(r, Own(f, addr, count), count)
    {
      hide RegOf;
      var off := RegOf(addr);
      if off + count > PCI_CONFIG_SIZE {
        return NoCompletion;
      }
      r := Data(spaces[f.id][off..off + count]);
    }

    method FunctionRead(f: Func, addr: bv32, count: nat) returns (r: ReadResult)
      requires Valid() && Placed(f, |spaces|)
      ensures ReadsAs(r, FuncRoute(f, addr, count), count)
      decreases f, 0
    {
      hide Own, BusRoute, FirstRoute, IsType1, Type1, AllPlaced, ConfigFabric.View;
      match f.kind
      case Leaf =>
        if IsType1(addr) {
          r := NoCompletion;
        } else {
          r := OwnRead(f, addr, count);
        }
      case Unit(prim) =>
        if IsType1(addr) {
          r := BusRead(prim, addr, count);
        } else {
          r := OwnRead(f, addr, count);
        }
      case Bridge(gasket) =>
        r := EveryFunctionRead(gasket.funcs, Type1(addr), count);
    }

    method EveryFunctionRead(fs: seq<Func>, addr: bv32, count: nat) returns (r: ReadResult)
      requires Valid() && AllPlaced(fs, |spaces|)
      ensures ReadsAs(r, FirstRoute(fs, addr, count), count)
      decreases fs, 0
    {
      hide FuncRoute, Placed, ConfigFabric.View;
      var i := 0;
      assert fs[0..] == fs;
      while i < |fs|
        invariant i <= |fs| && AllPlaced(fs[i..], |spaces|)
        invariant FirstRoute(fs, addr, count) == FirstRoute(fs[i..], addr, count)
      {
        assert fs[i..][1..] == fs[i + 1..];
        r := FunctionRead(fs[i], addr, count);
        if r.Data? {
          return;
        }
        i := i + 1;
      }
      r := NoCompletion;
    }

    method BusRead(bus: Bus, addr: bv32, count: nat) returns (r: ReadResult)
      requires Valid() && AllPlaced(bus.funcs, |spaces|)
      ensures ReadsAs(r, BusRoute(bus, addr, count), count)
      decreases bus, 0
    {
      hide FuncRoute, FirstRoute, Type1, Type0, BusOf, Df, Placed, ConfigFabric.View;
      if BusOf(addr) != bus.num {
        r := EveryFunctionRead(bus.funcs, Type1(addr), count);
      } else {
        var k := Find(bus.funcs, addr);
        if k == |bus.funcs| {
          return NoCompletion;
        }
        PlacedAt(bus.funcs, k, |spaces|);
        r := FunctionRead(bus.funcs[k], Type0(addr), count);
      }
    }
  }

  lemma {:induction false} PlacedAt(fs: seq<Func>, k: nat, n: nat)
    requires k < |fs| && AllPlaced(fs, n)
    ensures Placed(fs[k], n)
  {
    hide Placed;
    if k > 0 {
      PlacedAt(fs[1..], k - 1, n);
    }
  }

  // ----- every route stays inside a space -----

  lemma {:induction false} FuncRouteFits(f: Func, addr: bv32, count: nat, n: nat)
    requires Placed(f, n)
    ensures RouteFits(FuncRoute(f, addr, count), n, count)
    decreases f, 0
  {
    hide RegOf, BusRoute, FirstRoute, AllPlaced, IsType1, Type1;
    match f.kind
    case Leaf =>
    case Unit(prim) => BusRouteFits(prim, addr, count, n);
    case Bridge(gasket) => FirstRouteFits(gasket.funcs, Type1(addr), count, n);
  }

  lemma {:induction false} FirstRouteFits(fs: seq<Func>, addr: bv32, count: nat, n: nat)
    requires AllPlaced(fs, n)
    ensures RouteFits(FirstRoute(fs, addr, count), n, count)
    decreases fs, 0
  {
    if fs != [] {
      hide FuncRoute, Placed;
      FuncRouteFits(fs[0], addr, count, n);
      FirstRouteFits(fs[1..], addr, count, n);
    }
  }

  lemma {:induction false} BusRouteFits(bus: Bus, addr: bv32, count: nat, n: nat)
    requires AllPlaced(bus.funcs, n)
    ensures RouteFits(BusRoute(bus, addr, count), n, count)
    decreases bus, 0
  {
    hide FuncRoute, FirstRoute, Type1, Type0, BusOf, Df, Placed;
    var k := FindFunc(bus.funcs, addr, 0);
    if BusOf(addr) != bus.num {
      FirstRouteFits(bus.funcs, Type1(addr), count, n);
    } else if k < |bus.funcs| {
      PlacedAt(bus.funcs, k, n);
      FuncRouteFits(bus.funcs[k], Type0(addr), count, n);
    }
  }

  lemma Overwritten(dst: seq<byte>, at: nat, src: seq<byte>, off: nat, count: nat)
    requires at + |src| <= |dst| && off + count <= |dst|
    ensures var d := Overwrite(dst, at, src);
      && d[at..at + |src|] == src
      && (off + count <= at || at + |src| <= off ==> d[off..off + count] == dst[off..off + count])
  {
  }

  ghost function ViewOf(arrays: seq<array<byte>>): (v: seq<seq<byte>>)
    reads arrays
    ensures |v| == |arrays| && forall i :: 0 <= i < |arrays| ==> v[i] == arrays[i][..]
  {
    if arrays == [] then [] else [arrays[0][..]] + ViewOf(arrays[1..])
  }
}
