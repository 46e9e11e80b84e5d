/** Functions on a PCI bus: registration, lookup and renumbering, on the linked list the bus keeps. */
module PciRegistry {
  const PCI_BDF_DF_MASK: bv32 := 0x000F_F000

  /** Device and function number, where they stand in an address. */
  function Df(bdf: bv32): bv32 { bdf & PCI_BDF_DF_MASK }

  /** PCI_PACK_BDF(num, 0, 0). */
  function PackBus(num: bv32): bv32 { ((num << 8) | 0 | 0) << 12 }

  function Renumbered(bdf: bv32, num: bv32): bv32 { Df(bdf) | PackBus(num) }

  lemma BusBitsApart(num: bv32)
    ensures PackBus(num) & PCI_BDF_DF_MASK == 0
  {
  }

  lemma DfKept(bdf: bv32, bus: bv32)
    requires bus & PCI_BDF_DF_MASK == 0
    ensures Df(Df(bdf) | bus) == Df(bdf)
  {
  }

  lemma Packing(bdf: bv32, num: bv32)
    ensures Df(Renumbered(bdf, num)) == Df(bdf)
    ensures Renumbered(Renumbered(bdf, num), num) == Renumbered(bdf, num)
  {
    hide PackBus, Df;
    assert Df(Df(bdf) | PackBus(num)) == Df(bdf) by {
      BusBitsApart(num);
      DfKept(bdf, PackBus(num));
    }
  }

  /** The bus number stands in bits 20 and up, device and function in bits 12 to 19, and nothing below. */
  lemma RenumberedFields(bdf: bv32, num: bv32)
    ensures Renumbered(bdf, num) >> 20 == num & 0xFFF
    ensures Renumbered(bdf, num) & 0x000F_F000 == bdf & 0x000F_F000 && Renumbered(bdf, num) & 0xFFF == 0
  {
  }

  // ----- the bus as a value -----

  /** The bus number and the functions' addresses, newest first. */
  datatype BusState = BusState(num: bv32, bdfs: seq<bv32>)

  datatype Op = RegisterFunction(bdf: bv32) | SetBusNumber(num: bv32)

  predicate Taken(s: BusState, bdf: bv32) { exists i :: 0 <= i < |s.bdfs| && Df(s.bdfs[i]) == Df(bdf) }

  function RenumberAll(bdfs: seq<bv32>, num: bv32): (r: seq<bv32>)
    ensures |r| == |bdfs| && forall i :: 0 <= i < |bdfs| ==> r[i] == Renumbered(bdfs[i], num)
  {
    if bdfs == [] then [] else [Renumbered(bdfs[0], num)] + RenumberAll(bdfs[1..], num)
  }

  /** A second function with the same device and function number ends the program. */
  predicate Allowed(s: BusState, op: Op) { op.RegisterFunction? ==> !Taken(s, op.bdf) }

  function Step(s: BusState, op: Op): BusState {
    match op
    case RegisterFunction(bdf) => BusState(s.num, [Renumbered(bdf, s.num)] + s.bdfs)
    case SetBusNumber(num) => BusState(num, RenumberAll(s.bdfs, num))
  }

  /** No two functions share their device and function number, and every address is the bus number and that pair. */
  predicate Consistent(s: BusState) {
    && (forall i, j :: 0 <= i < j < |s.bdfs| ==> Df(s.bdfs[i]) != Df(s.bdfs[j]))
    && forall i :: 0 <= i < |s.bdfs| ==> s.bdfs[i] == Renumbered(s.bdfs[i], s.num)
  }

  function Run(s: BusState, ops: seq<Op>): BusState
    decreases |ops|
  {
    if ops == [] then s else Run(Step(s, ops[0]), ops[1..])
  }

  /** Every operation is allowed where it comes. */
  predicate Runs(s: BusState, ops: seq<Op>)
    decreases |ops|
  {
    ops != [] ==> Allowed(s, ops[0]) && Runs(Step(s, ops[0]), ops[1..])
  }

  lemma StepConsistent(s: BusState, op: Op)
    requires Consistent(s) && Allowed(s, op)
    ensures Consistent(Step(s, op))
  {
    var t := Step(s, op);
    match op
    case RegisterFunction(bdf) =>
      Packing(bdf, s.num);
      hide Df, Renumbered;
      assert forall i :: 0 < i < |t.bdfs| ==> t.bdfs[i] == s.bdfs[i - 1];
    case SetBusNumber(num) =>
      forall i | 0 <= i < |s.bdfs|
        ensures Df(t.bdfs[i]) == Df(s.bdfs[i]) && t.bdfs[i] == Renumbered(t.bdfs[i], num)
      {
        Packing(s.bdfs[i], num);
      }
  }

  /** The registered pairs, in order. */
  function Pairs(ops: seq<Op>): seq<bv32> {
    if ops == [] then []
    else Pairs(ops[1..]) + if ops[0].RegisterFunction? then [Df(ops[0].bdf)] else []
  }

  function Dfs(bdfs: seq<bv32>): (r: seq<bv32>)
    ensures |r| == |bdfs| && forall i :: 0 <= i < |bdfs| ==> r[i] == Df(bdfs[i])
  {
    if bdfs == [] then [] else [Df(bdfs[0])] + Dfs(bdfs[1..])
  }

  /** The number the bus has in the end: the last one set. */
  function LastNumber(num: bv32, ops: seq<Op>): bv32
    decreases |ops|
  {
    if ops == [] then num else LastNumber(if ops[0].SetBusNumber? then ops[0].num else num, ops[1..])
  }

  /**
   After any run of registrations and renumberings the pairs on the bus are those registered, each once, and each
   function's address is the last bus number set together with its pair.
   */
  lemma {:induction false} RunKeepsAddresses(s: BusState, ops: seq<Op>)
    requires Consistent(s) && Runs(s, ops)
    ensures var t := Run(s, ops);
      Consistent(t) && t.num == LastNumber(s.num, ops) && Dfs(t.bdfs) == Pairs(ops) + Dfs(s.bdfs)
    decreases |ops|
  {
    if ops != [] {
      var t := Step(s, ops[0]);
      assert t.num == if ops[0].SetBusNumber? then ops[0].num else s.num;
      hide Df, Dfs, Consistent, Taken, Step, Pairs;
      StepConsistent(s, ops[0]);
      RunKeepsAddresses(t, ops[1..]);
      StepDfs(s, ops[0]);
      PairsStep(ops, Dfs(s.bdfs));
    } else {
      assert [] + Dfs(s.bdfs) == Dfs(s.bdfs);
    }
  }

  lemma PairsStep(ops: seq<Op>, rest: seq<bv32>)
    requires ops != []
    ensures Pairs(ops) + rest == Pairs(ops[1..]) + ((if ops[0].RegisterFunction? then [Df(ops[0].bdf)] else []) + rest)
  {
    hide Df;
  }

  lemma StepDfs(s: BusState, op: Op)
    ensures Dfs(Step(s, op).bdfs) == (if op.RegisterFunction? then [Df(op.bdf)] else []) + Dfs(s.bdfs)
  {
    match op
    case RegisterFunction(bdf) =>
      Packing(bdf, s.num);
      assert Step(s, op).bdfs[1..] == s.bdfs;
    case SetBusNumber(num) =>
      forall i | 0 <= i < |s.bdfs|
        ensures Df(Renumbered(s.bdfs[i], num)) == Df(s.bdfs[i])
      {
        Packing(s.bdfs[i], num);
      }
  }

  // ----- the bus on the heap -----

  class PciFunction {
    var bdf: bv32
    var next: PciFunction?

    constructor (bdf: bv32)
      ensures this.bdf == bdf && next == null
    {
      this.bdf, next := bdf, null;
    }
  }

  ghost function BdfsOf(nodes: seq<PciFunction>): (r: seq<bv32>)
    reads nodes
    ensures |r| == |nodes| && forall i :: 0 <= i < |nodes| ==> r[i] == nodes[i].bdf
  {
    if nodes == [] then [] else [nodes[0].bdf] + BdfsOf(nodes[1..])
  }

  class PciBus {
    var num: bv32
    var first: PciFunction?
    ghost var nodes: seq<PciFunction>

    ghost predicate Linked()
      reads `first, `nodes, nodes
    {
      && (forall i, j :: 0 <= i < j < |nodes| ==> nodes[i] != nodes[j])
      && first == Follower(0)
      && forall i {:trigger nodes[i].next} :: 0 <= i < |nodes| ==> nodes[i].next == Follower(i + 1)
    }

    ghost function Follower(i: nat): PciFunction?
      reads `nodes
    {
      if i < |nodes| then nodes[i] else null
    }

    ghost function Bdfs(): (r: seq<bv32>)
      reads `nodes, nodes
      ensures |r| == |nodes| && forall i :: 0 <= i < |nodes| ==> r[i] == nodes[i].bdf
    {
      BdfsOf(nodes)
    }

    ghost function View(): BusState
      reads this, nodes
    {
      BusState(num, Bdfs())
    }

    ghost predicate Valid()
      reads this, nodes
    {
      Linked() && Consistent(View())
    }

    constructor (num: bv32)
      ensures Valid() && View() == BusState(num, []) && nodes == []
    {
      this.num, first, nodes := num, null, [];
    }

    /** Bits outside device and function number are ignored on both sides. */
    method Find(bdf: bv32) returns (f: PciFunction?)
      requires Valid()
      ensures f != null ==> f in nodes && Df(f.bdf) == Df(bdf)
      ensures f != null ==> forall g :: g in nodes && Df(g.bdf) == Df(bdf) ==> g == f
      ensures f == null <==> !Taken(View(), bdf)
    {
      f := first;
      ghost var i := 0;
      while f != null
        invariant i <= |nodes| && f == Follower(i)
        invariant forall j :: 0 <= j < i ==> Df(nodes[j].bdf) != Df(bdf)
        decreases |nodes| - i
      {
        if Df(bdf) == Df(f.bdf) {
          forall g | g in nodes && Df(g.bdf) == Df(bdf)
            ensures g == f
          {
            var j :| 0 <= j < |nodes| && nodes[j] == g;
            assert Bdfs()[j] == g.bdf && Bdfs()[i] == f.bdf;
          }
          assert Df(View().bdfs[i]) == Df(bdf);
          return;
        }
        f := f.next;
        i := i + 1;
      }
    }

    method Prepend(f: PciFunction, bdf: bv32)
      requires Linked() && f !in nodes
      modifies this, f
      ensures Linked() && nodes == [f] + old(nodes) && View() == BusState(old(num), [bdf] + old(Bdfs()))
    {
      f.bdf := bdf;
      f.next := first;
      first := f;
      nodes := [f] + nodes;
    }

    /** The loop over the list: every address gets the new bus number. */
    method RenumberList(n: bv32)
      requires Linked()
      modifies nodes
      ensures Linked() && Bdfs() == RenumberAll(old(Bdfs()), n)
    {
      hide Df, Renumbered, PackBus, PciBus.Bdfs, RenumberAll, BdfsOf;
      ghost var bdfs := Bdfs();
      var f := first;
      ghost var i := 0;
      while f != null
        invariant i <= |nodes| && f == Follower(i)
        invariant forall j {:trigger nodes[j].next} :: 0 <= j < |nodes| ==> nodes[j].next == Follower(j + 1)
        invariant forall j :: 0 <= j < i ==> nodes[j].bdf == Renumbered(bdfs[j], n)
        invariant forall j :: i <= j < |nodes| ==> nodes[j].bdf == bdfs[j]
        decreases |nodes| - i
      {
        f.bdf := Renumbered(f.bdf, n);
        f := f.next;
        i := i + 1;
      }
      assert Bdfs() == RenumberAll(bdfs, n);
    }

    /** A function that is on the list already is found by its own pair. */
    lemma ListedIsTaken(f: PciFunction)
      requires f in nodes
      ensures Taken(View(), f.bdf)
    {
      var i :| 0 <= i < |nodes| && nodes[i] == f;
      assert Df(View().bdfs[i]) == Df(f.bdf);
    }

    method Register(f: PciFunction) returns (ok: bool)
      requires Valid()
      modifies this, f
      ensures Valid()
      ensures ok <==> Allowed(old(View()), RegisterFunction(old(f.bdf)))
      ensures ok ==> nodes == [f] + old(nodes) && View() == Step(old(View()), RegisterFunction(old(f.bdf)))
      ensures !ok ==> nodes == old(nodes) && View() == old(View()) && f.bdf == old(f.bdf)
    {
      hide Consistent, Df, Renumbered, Taken, PackBus, PciBus.Linked, PciBus.Bdfs;
      if f in nodes {
        ListedIsTaken(f);
      }
      var other := Find(f.bdf);
      if other != null {
        return false;
      }
      ghost var s, op := View(), RegisterFunction(f.bdf);
      StepConsistent(s, op);
      Prepend(f, Renumbered(f.bdf, num));
      ok := true;
    }

    method SetBusNum(n: bv32)
      requires Valid()
      modifies this, nodes
      ensures Valid() && nodes == old(nodes) && View() == Step(old(View()), SetBusNumber(n))
    {
      hide Consistent, Df, Renumbered, Taken, PackBus, PciBus.Linked, PciBus.Bdfs, RenumberAll, BdfsOf;
      ghost var s := View();
      num := n;
      RenumberList(n);
      assert View() == Step(s, SetBusNumber(n));
      StepConsistent(s, SetBusNumber(n));
    }
  }
}
