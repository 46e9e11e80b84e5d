/** The memory cycle as it is run: nested loops over latencies, functions, BARs and windows, calling what matches. */
module PciMaster {
  import opened PciTopology

  class Fabric {
    const answer: Answer
    /** The handlers called so far. */
    var called: seq<Target>

    constructor (answer: Answer)
      ensures this.answer == answer && called == []
    {
      this.answer, called := answer, [];
    }

    /** The status is the specification's, and exactly its targets were called. */
    twostate predicate Ran(s: int, o: Outcome)
      reads this
    {
      s == o.status && called == old(called) + o.called
    }

    method CallHandler(t: Target) returns (s: int)
      modifies this
      ensures Ran(s, Call(t, answer))
    {
      called := called + [t];
      s := answer(t);
    }

    method SimpleMem(d: Device, addr: nat, count: nat) returns (s: int)
      requires d.Simple?
      modifies this
      ensures Ran(s, SimpleCycle(d, addr, count, answer))
    {
      var bar, off := 0, 0;
      while bar < |d.bars|
        invariant bar <= |d.bars| && FindBar(d.bars, addr, 0) == FindBar(d.bars, addr, bar)
      {
        var base := BarBase(d.bars[bar]);
        if addr >= base {
          off := addr - base;
          if off <= d.bars[bar].size {
            break;
          }
        }
        bar := bar + 1;
      }
      if bar == |d.bars| || off + count > d.bars[bar].size || !d.memoryEnabled || !d.handler {
        return -1;
      }
      s := CallHandler(Register(d.id, bar, off));
    }

    method FindWin(d: Device, address: nat) returns (win: nat)
      requires d.Att?
      ensures win == FindWindow(d.windows, address, 0)
    {
      win := 0;
      while win < |d.windows|
        invariant win <= |d.windows| && FindWindow(d.windows, address, 0) == FindWindow(d.windows, address, win)
      {
        var w := d.windows[win];
        if w.enabled && address >= w.intBase && address <= (w.intBase + w.intSize) % TWO_32 {
          return;
        }
        win := win + 1;
      }
    }

    method FindSidebandWin(d: Device, address: nat) returns (win: nat)
      requires d.Att?
      ensures win == FindSideband(d.sideband, address, 0)
    {
      win := 0;
      while win < |d.sideband|
        invariant win <= |d.sideband| && FindSideband(d.sideband, address, 0) == FindSideband(d.sideband, address, win)
      {
        var w := d.sideband[win];
        if w.enabled && address >= w.base && address <= (w.base + w.size) % TWO_32 {
          return;
        }
        win := win + 1;
      }
    }

    method PrimMem(d: Device, address: nat, count: nat) returns (s: int)
      requires d.Att?
      modifies this
      ensures Ran(s, PrimCycle(d, address, count, answer))
      decreases d, 0
    {
      hide Cycles;
      var win := FindWin(d, address);
      if win == |d.windows| {
        return -1;
      }
      s := BusMem(d.prim, Translated(d.windows[win], address), count, 14);
    }

    method SidebandMem(d: Device, address: nat) returns (s: int)
      requires d.Att?
      modifies this
      ensures Ran(s, SidebandCycle(d, address, answer))
    {
      var win := FindSidebandWin(d, address);
      if win == |d.sideband| {
        return -1;
      }
      var w := d.sideband[win];
      s := CallHandler(Sideband(w.sbAddress, address - w.base));
    }

    method AttMem(d: Device, addr: nat, count: nat) returns (s: int)
      requires d.Att?
      modifies this
      ensures Ran(s, AttCycle(d, addr, count, answer))
      decreases d, 1
    {
      hide PrimCycle, SidebandCycle;
      var bar, off := 0, 0;
      while bar < |d.own|
        invariant bar <= |d.own| && FindOwnBar(d.own, addr, 0) == FindOwnBar(d.own, addr, bar) && called == old(called)
      {
        var base := BarBase(d.own[bar]);
        if addr >= base {
          off := addr - base;
          if off < ATT_BAR_SIZE {
            break;
          }
        }
        bar := bar + 1;
      }
      if bar == |d.own| {
        s := PrimMem(d, addr % TWO_32, count);
        if s >= 0 {
          return;
        }
        s := SidebandMem(d, addr % TWO_32);
        return;
      }
      if off + count > ATT_BAR_SIZE || !d.memoryEnabled {
        return -1;
      }
      s := CallHandler(Register(d.id, bar, off));
    }

    method FunctionMem(d: Device, addr: nat, count: nat, lat: nat) returns (s: int)
      modifies this
      ensures Ran(s, Cycle(d, addr, count, lat, answer))
      decreases d, 2
    {
      hide SimpleCycle, AttCycle, Cycles;
      match d
      case Simple(_, _, _, _) =>
        s := SimpleMem(d, addr, count);
      case Att(_, _, _, _, _, _) =>
        s := AttMem(d, addr, count);
      case Bridge(id, gasket) =>
        if addr / 0x100_0000 % 0x100 == 0xF1 {
          s := CallHandler(Config(id, addr % 0x100_0000));
        } else {
          s := BusMem(gasket, addr, count, 16 - lat);
        }
    }

    method BusMem(ds: seq<Device>, addr: nat, count: nat, maxLat: int) returns (s: int)
      modifies this
      ensures Ran(s, Cycles(ds, addr, count, 0, maxLat, answer))
      decreases ds, 2
    {
      hide Round;
      ghost var spec := Cycles(ds, addr, count, 0, maxLat, answer);
      ghost var start := called;
      var lat := 0;
      while lat < maxLat
        invariant lat == 0 || lat <= maxLat
        invariant spec.status == Cycles(ds, addr, count, lat, maxLat, answer).status
        invariant start + spec.called == called + Cycles(ds, addr, count, lat, maxLat, answer).called
      {
        s := RoundMem(ds, addr, count, lat);
        if s >= 0 || s < -1 {
          return;
        }
        lat := lat + 1;
      }
      s := -1;
    }

    /** The inner loop: the functions in order. */
    method RoundMem(ds: seq<Device>, addr: nat, count: nat, lat: nat) returns (s: int)
      modifies this
      ensures Ran(s, Round(ds, addr, count, lat, answer))
      decreases ds, 1
    {
      hide Cycle;
      ghost var round, before := Round(ds, addr, count, lat, answer), called;
      var i := 0;
      while i < |ds|
        invariant i <= |ds|
        invariant round.status == Round(ds[i..], addr, count, lat, answer).status
        invariant before + round.called == called + Round(ds[i..], addr, count, lat, answer).called
      {
        s := FunctionMem(ds[i], addr, count, lat);
        if s >= 0 || s < -1 {
          return;
        }
        i := i + 1;
      }
      s := -1;
    }
  }
}
