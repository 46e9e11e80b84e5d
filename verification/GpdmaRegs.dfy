/** The DMA engine's registers, the bus memory it moves, and what a transaction makes of them. */
module GpdmaRegs {
  import opened Bytes
  import opened BlockStream
  import opened HashRegs

  const GO: Word := 0x8000_0000
  const TURN := 64

  datatype Dma = Dma(srcAddr: U32, srcSize: U32, dstAddr: U32, dstSize: U32, control: Word, status: Word)

  /** The 32-bit bus address space. */
  type Memory = m: seq<byte> | |m| == TWO_32 ghost witness Zeros(TWO_32)

  /** Addresses are 32 bits wide, so an access wraps around at the top. */
  function BusRead(mem: Memory, addr: nat, n: nat): (data: seq<byte>)
    ensures |data| == n
  {
    seq(n, i requires 0 <= i < n => mem[(addr + i) % TWO_32])
  }

  function BusWrite(mem: Memory, addr: nat, data: seq<byte>): Memory
  {
    seq(TWO_32, a requires 0 <= a < TWO_32 =>
      var off := (a - addr) % TWO_32;
      if off < |data| then data[off] else mem[a])
  }

  /** DMA registers, the 64-byte bounce buffer, the bus memory and the hash engine behind the internal port. */
  datatype Machine = Machine(dma: Dma, bounce: Block, mem: Memory, hash: Regs)

  /** Source zero stands for the internal port, which delivers nothing: the bounce buffer keeps its bytes. */
  function Fetch(m: Machine, pos: nat, n: nat): Machine
    requires n <= TURN
  {
    if m.dma.srcAddr != 0
    then m.(bounce := Overwrite(m.bounce, 0, BusRead(m.mem, m.dma.srcAddr + pos, n)))
    else m
  }

  /** Destination zero stands for the internal port, the hash engine's data input. */
  ghost function Deliver(m: Machine, pos: nat, n: nat): Machine
    requires n <= TURN
  {
    if m.dma.dstAddr != 0
    then m.(mem := BusWrite(m.mem, m.dma.dstAddr + pos, m.bounce[..n]))
    else m.(hash := FeedRegs(m.hash, m.bounce[..n]))
  }

  function TurnSize(count: nat): nat {
    if count > TURN then TURN else count
  }

  /** The transfer from position pos on, with count bytes left, in turns of at most 64 bytes. */
  ghost function Transfer(m: Machine, pos: nat, count: nat): Machine
    decreases count
  {
    if count == 0 then m
    else
      var n := TurnSize(count);
      Transfer(Deliver(Fetch(m, pos, n), pos, n), pos + n, count - n)
  }

  /** The larger of the two size registers. */
  function Size(dma: Dma): nat {
    if dma.dstSize > dma.srcSize then dma.dstSize else dma.srcSize
  }

  ghost function RunTransaction(m: Machine): Machine {
    if m.dma.control & GO == 0 then m
    else Transfer(m.(dma := m.dma.(control := m.dma.control & !GO)), 0, Size(m.dma))
  }
}
