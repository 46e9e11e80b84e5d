/**
 One hash engine shared by any number of streams. A host opens, continues and finishes them in any order and loads
 keys in between; every finished stream must get the digest it would have got alone.
 */
module Multiplex {
  import opened Bytes
  import opened BlockStream
  import opened HashRegs
  import opened GpdmaRegs
  import opened SksRegs
  import opened StreamTheorems
  import opened SessionTheorems
  import opened Supply
  import opened SaveRestore
  import opened KeyTheorems
  import opened OcsTheorems

  /** Continuing leaves the stream for later; finishing supplies the rest of its message and reads the digest. */
  datatype Event =
    | Open(who: nat, mode: Word)
    | Continue(who: nat, pieces: seq<Piece>)
    | Finish(who: nat, rest: seq<Piece>)
    | LoadSlot(slot: U32)

  // ----- what the host does with the registers -----

  /** The subsystem, the contexts of the streams that are open, and the digests read so far. */
  datatype Host = Host(ocs: Ocs, saved: map<nat, Context>, results: map<nat, seq<byte>>)

  ghost function Serve(h: Host, e: Event): Host {
    match e
    case Open(who, mode) =>
      var (c, m) := Save(Begin(h.ocs.machine, mode));
      h.(ocs := h.ocs.(machine := m), saved := h.saved[who := c])
    case Continue(who, pieces) =>
      if who !in h.saved || |h.saved[who].state| != 32 then h
      else
        var (c, m) := Turn(h.ocs.machine, h.saved[who], pieces);
        h.(ocs := h.ocs.(machine := m), saved := h.saved[who := c])
    case Finish(who, rest) =>
      if who !in h.saved || |h.saved[who].state| != 32 then h
      else
        var (digest, m) := ReadState(Flush(SupplyAll(Restore(h.ocs.machine, h.saved[who]), rest)), 8);
        Host(h.ocs.(machine := m), h.saved - {who}, h.results[who := digest])
    case LoadSlot(slot) =>
      if Quiet(h.ocs.sks) && slot < SLOTS then h.(ocs := SlotCommand(h.ocs, slot, LOAD_HASH)) else h
  }

  ghost function ServeAll(h: Host, es: seq<Event>): Host
    decreases |es|
  {
    if es == [] then h else ServeAll(Serve(h, es[0]), es[1..])
  }

  // ----- what should come of it -----

  /** A stream's mode, the key register when it was opened, and its data so far. */
  datatype Message = Message(mode: Word, key: Block, data: seq<byte>)

  /** The key register, the open streams, and the digests of those that are finished. */
  datatype Ledger = Ledger(key: Block, open: map<nat, Message>, digests: map<nat, seq<byte>>)

  function Grown(msg: Message, data: seq<byte>): Message { msg.(data := msg.data + data) }

  ghost function DigestOf(msg: Message): seq<byte> { Digest(msg.mode, msg.key, msg.data) }

  function Loaded(key: Block, store: Store, slot: nat): Block
    requires slot < SLOTS
  {
    Key(store, slot) + key[KeySize(slot)..]
  }

  ghost function Enter(l: Ledger, store: Store, mem: Memory, e: Event): Ledger {
    match e
    case Open(who, mode) => l.(open := l.open[who := Message(mode, l.key, [])])
    case Continue(who, pieces) =>
      if who !in l.open then l else l.(open := l.open[who := Grown(l.open[who], Supplied(mem, pieces))])
    case Finish(who, rest) =>
      if who !in l.open then l
      else l.(open := l.open - {who}, digests := l.digests[who := DigestOf(Grown(l.open[who], Supplied(mem, rest)))])
    case LoadSlot(slot) => if slot < SLOTS then l.(key := Loaded(l.key, store, slot)) else l
  }

  ghost function EnterAll(l: Ledger, store: Store, mem: Memory, es: seq<Event>): Ledger
    decreases |es|
  {
    if es == [] then l else EnterAll(Enter(l, store, mem, es[0]), store, mem, es[1..])
  }

  /**
   A turn supplies whole blocks, at least one. To finish an HMAC the key register must be what it was when the stream
   was opened, whatever keys other streams had in between.
   */
  ghost predicate Allowed(l: Ledger, mem: Memory, e: Event) {
    match e
    case Open(_, mode) => IsSha256(mode)
    case Continue(who, pieces) =>
      && who in l.open && Legal(pieces)
      && var data := Supplied(mem, pieces);
         data != [] && |data| % 64 == 0 && |l.open[who].data| + |data| < MAX_MESSAGE
    case Finish(who, rest) =>
      && who in l.open && Legal(rest) && |l.open[who].data| + |Supplied(mem, rest)| < MAX_MESSAGE
      && (IsHmac(l.open[who].mode) ==> l.open[who].key == l.key)
    case LoadSlot(slot) => slot < SLOTS
  }

  ghost predicate AllAllowed(l: Ledger, store: Store, mem: Memory, es: seq<Event>)
    decreases |es|
  {
    es != [] ==> Allowed(l, mem, es[0]) && AllAllowed(Enter(l, store, mem, es[0]), store, mem, es[1..])
  }

  // ----- each event does what it should -----

  /** The context stands for the message so far. */
  ghost predicate Stands(c: Context, msg: Message) {
    Represents(c, Prefix(msg.mode, msg.key) + msg.data) && c.mode == msg.mode && |msg.data| < MAX_MESSAGE
  }

  ghost predicate AllStand(saved: map<nat, Context>, open: map<nat, Message>) {
    saved.Keys == open.Keys && forall who :: who in open ==> Stands(saved[who], open[who])
  }

  ghost predicate Matches(h: Host, l: Ledger, store: Store, mem: Memory) {
    && Settled(h.ocs) && h.ocs.machine.hash.key == l.key && h.ocs.machine.mem == mem && h.ocs.sks.store == store
    && AllStand(h.saved, l.open) && h.results == l.digests
  }

  /** What the subsystem is like after an event that leaves key store, key register and memory alone. */
  lemma StaysSettled(o: Ocs, m: Machine)
    requires Settled(o) && Ready(o.machine, m)
    ensures Settled(o.(machine := m))
  {
  }

  lemma StandsShape(c: Context, msg: Message)
    requires Stands(c, msg)
    ensures |c.state| == 32 && (|Prefix(msg.mode, msg.key)| + |msg.data|) % 64 == 0
  {
    ContextShape(c, Prefix(msg.mode, msg.key) + msg.data);
  }

  lemma OpenStands(m: Machine, mode: Word)
    requires IsSha256(mode) && Idle(m)
    ensures var (c, m') := Save(Begin(m, mode)); Stands(c, Message(mode, m.hash.key, [])) && Ready(m, m')
  {
    hide Represents, Save, Begin, Idle;
    FreshContext(m, mode);
    assert Prefix(mode, m.hash.key) + [] == Prefix(mode, m.hash.key);
  }

  lemma ContinueStands(m: Machine, c: Context, msg: Message, pieces: seq<Piece>)
    requires Stands(c, msg) && Idle(m) && Legal(pieces)
    requires var data := Supplied(m.mem, pieces);
             data != [] && |data| % 64 == 0 && |msg.data| + |data| < MAX_MESSAGE
    ensures |c.state| == 32
    ensures var (c', m') := Turn(m, c, pieces); Stands(c', Grown(msg, Supplied(m.mem, pieces))) && Ready(m, m')
  {
    hide Represents, Turn, Idle, Supplied, Legal;
    var p, data := Prefix(msg.mode, msg.key), Supplied(m.mem, pieces);
    ContextShape(c, p + msg.data);
    TurnExtends(m, c, p + msg.data, pieces);
    assert p + msg.data + data == p + (msg.data + data);
  }

  /** Without HMAC the key register does not matter. */
  lemma KeyMatters(msg: Message, key: Block)
    requires IsHmac(msg.mode) ==> msg.key == key
    ensures Prefix(msg.mode, msg.key) == Prefix(msg.mode, key)
    ensures DigestOf(msg) == Digest(msg.mode, key, msg.data)
  {
  }

  lemma FinishReads(m: Machine, c: Context, msg: Message, rest: seq<Piece>)
    requires Stands(c, msg) && Idle(m) && Legal(rest) && |msg.data| + |Supplied(m.mem, rest)| < MAX_MESSAGE
    requires IsHmac(msg.mode) ==> msg.key == m.hash.key
    ensures |c.state| == 32
    ensures var (digest, m') := ReadState(Flush(SupplyAll(Restore(m, c), rest)), 8);
            digest == DigestOf(Grown(msg, Supplied(m.mem, rest))) && Ready(m, m')
  {
    hide Represents, Idle, Supplied, Legal, Restore, SupplyAll, Flush, Digest, Prefix, ReadState;
    StandsShape(c, msg);
    KeyMatters(msg, m.hash.key);
    KeyMatters(Grown(msg, Supplied(m.mem, rest)), m.hash.key);
    ResumeDigests(m, c, msg.data, rest);
    var e := Flush(SupplyAll(Restore(m, c), rest));
    ReadStateWords(e, 8);
    assert e.hash.stream.state[..32] == e.hash.stream.state;
    IdleMeans(e);
    IdleMeans(AtIndex(e, 32));
  }

  lemma OpenMatches(h: Host, l: Ledger, store: Store, mem: Memory, who: nat, mode: Word)
    requires Matches(h, l, store, mem) && IsSha256(mode)
    ensures Matches(Serve(h, Open(who, mode)), Enter(l, store, mem, Open(who, mode)), store, mem)
  {
    hide Stands, Save, Begin, Settled, IsSha256;
    SettledIdle(h.ocs);
    OpenStands(h.ocs.machine, mode);
    StaysSettled(h.ocs, Save(Begin(h.ocs.machine, mode)).1);
  }

  lemma ContinueMatches(h: Host, l: Ledger, store: Store, mem: Memory, who: nat, pieces: seq<Piece>)
    requires Matches(h, l, store, mem) && Allowed(l, mem, Continue(who, pieces))
    ensures Matches(Serve(h, Continue(who, pieces)), Enter(l, store, mem, Continue(who, pieces)), store, mem)
  {
    hide Stands, Turn, Supplied, Legal, Settled, Grown;
    SettledIdle(h.ocs);
    ContinueStands(h.ocs.machine, h.saved[who], l.open[who], pieces);
    StaysSettled(h.ocs, Turn(h.ocs.machine, h.saved[who], pieces).1);
  }

  lemma FinishMatches(h: Host, l: Ledger, store: Store, mem: Memory, who: nat, rest: seq<Piece>)
    requires Matches(h, l, store, mem) && Allowed(l, mem, Finish(who, rest))
    ensures Matches(Serve(h, Finish(who, rest)), Enter(l, store, mem, Finish(who, rest)), store, mem)
  {
    hide Stands, ReadState, Flush, SupplyAll, Restore, Supplied, Legal, DigestOf, Settled, Grown, IsHmac;
    SettledIdle(h.ocs);
    FinishReads(h.ocs.machine, h.saved[who], l.open[who], rest);
    StaysSettled(h.ocs, ReadState(Flush(SupplyAll(Restore(h.ocs.machine, h.saved[who]), rest)), 8).1);
  }

  lemma {:induction false} ServeMatches(h: Host, l: Ledger, store: Store, mem: Memory, e: Event)
    requires Matches(h, l, store, mem) && Allowed(l, mem, e)
    ensures Matches(Serve(h, e), Enter(l, store, mem, e), store, mem)
  {
    match e
    case Open(who, mode) => OpenMatches(h, l, store, mem, who, mode);
    case Continue(who, pieces) => ContinueMatches(h, l, store, mem, who, pieces);
    case Finish(who, rest) => FinishMatches(h, l, store, mem, who, rest);
    case LoadSlot(slot) =>
      hide Stands, Settled, SlotCommand, Key;
      SettledIdle(h.ocs);
      LoadIntoHash(h.ocs, slot);
  }

  lemma SettledIdle(o: Ocs)
    requires Settled(o)
    ensures Idle(o.machine) && Quiet(o.sks)
  {
  }

  // ----- whole schedules -----

  lemma {:induction false} ScheduleMatches(h: Host, l: Ledger, store: Store, mem: Memory, es: seq<Event>)
    requires Matches(h, l, store, mem) && AllAllowed(l, store, mem, es)
    ensures Matches(ServeAll(h, es), EnterAll(l, store, mem, es), store, mem)
    decreases |es|
  {
    hide Matches, Serve, Enter, Allowed;
    if es != [] {
      ServeMatches(h, l, store, mem, es[0]);
      ScheduleMatches(Serve(h, es[0]), Enter(l, store, mem, es[0]), store, mem, es[1..]);
    }
  }

  /** No stream is open and no digest has been read. */
  function Unused(o: Ocs): Host { Host(o, map[], map[]) }

  function Blank(o: Ocs): Ledger { Ledger(o.machine.hash.key, map[], map[]) }

  /**
   However opening, continuing and finishing any number of streams and loading of keys are interleaved on the engine,
   the digests read are those of each finished stream's own data, under the key it was opened with.
   */
  lemma InterleavedDigests(o: Ocs, es: seq<Event>)
    requires Settled(o) && AllAllowed(Blank(o), o.sks.store, o.machine.mem, es)
    ensures ServeAll(Unused(o), es).results == EnterAll(Blank(o), o.sks.store, o.machine.mem, es).digests
    ensures Settled(ServeAll(Unused(o), es).ocs)
  {
    hide Settled, AllAllowed, ServeAll, EnterAll;
    ScheduleMatches(Unused(o), Blank(o), o.sks.store, o.machine.mem, es);
  }

  // ----- each stream gets what it would have got alone -----

  predicate Concerns(e: Event, who: nat) { e.LoadSlot? || e.who == who }

  /** The schedule of one stream: the other streams' events left out. */
  function Alone(es: seq<Event>, who: nat): seq<Event> {
    if es == [] then [] else (if Concerns(es[0], who) then [es[0]] else []) + Alone(es[1..], who)
  }

  predicate AtKey<T(==)>(m: map<nat, T>, m': map<nat, T>, who: nat) {
    (who in m <==> who in m') && (who in m ==> m[who] == m'[who])
  }

  /** The two ledgers say the same of one stream. */
  predicate SameFor(l: Ledger, l': Ledger, who: nat) {
    l.key == l'.key && AtKey(l.open, l'.open, who) && AtKey(l.digests, l'.digests, who)
  }

  lemma OwnEvent(l: Ledger, l': Ledger, store: Store, mem: Memory, e: Event, who: nat)
    requires SameFor(l, l', who) && Concerns(e, who)
    ensures SameFor(Enter(l, store, mem, e), Enter(l', store, mem, e), who)
    ensures Allowed(l, mem, e) ==> Allowed(l', mem, e)
  {
    hide Supplied, Legal, DigestOf, Grown, Key;
  }

  lemma OtherEvent(l: Ledger, l': Ledger, store: Store, mem: Memory, e: Event, who: nat)
    requires SameFor(l, l', who) && !Concerns(e, who)
    ensures SameFor(Enter(l, store, mem, e), l', who)
  {
    hide Supplied, DigestOf, Grown;
  }

  lemma {:induction false} AloneIsAllowed(l: Ledger, l': Ledger, store: Store, mem: Memory, es: seq<Event>, who: nat)
    requires SameFor(l, l', who) && AllAllowed(l, store, mem, es)
    ensures AllAllowed(l', store, mem, Alone(es, who))
    ensures SameFor(EnterAll(l, store, mem, es), EnterAll(l', store, mem, Alone(es, who)), who)
    decreases |es|
  {
    hide SameFor, Concerns, Enter, Allowed;
    if es != [] {
      var e, more := es[0], Alone(es[1..], who);
      if Concerns(e, who) {
        OwnEvent(l, l', store, mem, e, who);
        AloneIsAllowed(Enter(l, store, mem, e), Enter(l', store, mem, e), store, mem, es[1..], who);
        assert Alone(es, who)[0] == e && Alone(es, who)[1..] == more;
      } else {
        OtherEvent(l, l', store, mem, e, who);
        AloneIsAllowed(Enter(l, store, mem, e), l', store, mem, es[1..], who);
        assert Alone(es, who) == more;
      }
    }
  }

  /** What the host reads for a stream is what it would read if the other streams' events were left out. */
  lemma AsIfAlone(o: Ocs, es: seq<Event>, who: nat)
    requires Settled(o) && AllAllowed(Blank(o), o.sks.store, o.machine.mem, es)
    ensures AllAllowed(Blank(o), o.sks.store, o.machine.mem, Alone(es, who))
    ensures AtKey(ServeAll(Unused(o), es).results, ServeAll(Unused(o), Alone(es, who)).results, who)
  {
    hide Settled, AllAllowed, ServeAll, EnterAll, Alone;
    AloneIsAllowed(Blank(o), Blank(o), o.sks.store, o.machine.mem, es, who);
    InterleavedDigests(o, es);
    InterleavedDigests(o, Alone(es, who));
  }

  // ----- streams with their own keys -----

  /** Loading a 32-byte slot gives the same key whatever was loaded before: the slot's, padded with zeros. */
  lemma LongSlotAgain(key: Block, store: Store, slot: nat)
    requires 11 <= slot < SLOTS && key[32..] == Zeros(32)
    ensures Loaded(key, store, slot) == PaddedKey(Key(store, slot))
  {
  }

  /** A stream with a key of its own: the host loads its slot before opening and before finishing it. */
  datatype Job = Begun(who: nat, mode: Word) | More(who: nat, pieces: seq<Piece>) | Last(who: nat, rest: seq<Piece>)

  function Proper(job: Job): Event {
    match job
    case Begun(who, mode) => Open(who, mode)
    case More(who, pieces) => Continue(who, pieces)
    case Last(who, rest) => Finish(who, rest)
  }

  function Events(job: Job, slots: nat -> U32): seq<Event> {
    if job.More? then [Proper(job)] else [LoadSlot(slots(job.who)), Proper(job)]
  }

  function AllEvents(jobs: seq<Job>, slots: nat -> U32): seq<Event> {
    if jobs == [] then [] else Events(jobs[0], slots) + AllEvents(jobs[1..], slots)
  }

  /** What was supplied: mode and data of the streams under way and of those that are finished. */
  datatype Text = Text(mode: Word, data: seq<byte>)
  datatype Tally = Tally(open: map<nat, Text>, done: map<nat, Text>)

  function Count(t: Tally, mem: Memory, job: Job): Tally {
    match job
    case Begun(who, mode) => t.(open := t.open[who := Text(mode, [])])
    case More(who, pieces) =>
      if who !in t.open then t
      else t.(open := t.open[who := Text(t.open[who].mode, t.open[who].data + Supplied(mem, pieces))])
    case Last(who, rest) =>
      if who !in t.open then t
      else Tally(t.open - {who}, t.done[who := Text(t.open[who].mode, t.open[who].data + Supplied(mem, rest))])
  }

  function CountAll(t: Tally, mem: Memory, jobs: seq<Job>): Tally
    decreases |jobs|
  {
    if jobs == [] then t else CountAll(Count(t, mem, jobs[0]), mem, jobs[1..])
  }

  ghost predicate JobAllowed(t: Tally, mem: Memory, job: Job) {
    match job
    case Begun(_, mode) => IsSha256(mode)
    case More(who, pieces) =>
      && who in t.open && Legal(pieces)
      && var data := Supplied(mem, pieces);
         data != [] && |data| % 64 == 0 && |t.open[who].data| + |data| < MAX_MESSAGE
    case Last(who, rest) => who in t.open && Legal(rest) && |t.open[who].data| + |Supplied(mem, rest)| < MAX_MESSAGE
  }

  ghost predicate JobsAllowed(t: Tally, mem: Memory, jobs: seq<Job>)
    decreases |jobs|
  {
    jobs != [] ==> JobAllowed(t, mem, jobs[0]) && JobsAllowed(Count(t, mem, jobs[0]), mem, jobs[1..])
  }

  /** A 32-byte slot for every stream. */
  ghost predicate OwnSlots(slots: nat -> U32) { forall who :: 11 <= slots(who) < SLOTS }

  function OwnKey(store: Store, slots: nat -> U32, who: nat): Block
    requires 11 <= slots(who) < SLOTS
  {
    PaddedKey(Key(store, slots(who)))
  }

  /** The ledger has every stream under its own key. */
  ghost predicate Keyed(l: Ledger, t: Tally, store: Store, slots: nat -> U32)
    requires OwnSlots(slots)
  {
    && l.key[32..] == Zeros(32) && l.open.Keys == t.open.Keys && l.digests.Keys == t.done.Keys
    && (forall who :: who in t.open ==>
          l.open[who] == Message(t.open[who].mode, OwnKey(store, slots, who), t.open[who].data))
    && (forall who :: who in t.done ==>
          l.digests[who] == Digest(t.done[who].mode, OwnKey(store, slots, who), t.done[who].data))
  }

  lemma LoadsOwnKey(l: Ledger, store: Store, mem: Memory, slots: nat -> U32, who: nat)
    requires OwnSlots(slots) && l.key[32..] == Zeros(32)
    ensures Enter(l, store, mem, LoadSlot(slots(who))) == l.(key := OwnKey(store, slots, who))
    ensures OwnKey(store, slots, who)[32..] == Zeros(32)
  {
    LongSlotAgain(l.key, store, slots(who));
    hide Key, Loaded;
  }

  lemma ProperKeyed(l: Ledger, t: Tally, store: Store, mem: Memory, job: Job, slots: nat -> U32)
    requires OwnSlots(slots) && Keyed(l, t, store, slots) && JobAllowed(t, mem, job)
    requires job.More? || l.key == OwnKey(store, slots, job.who)
    ensures Allowed(l, mem, Proper(job))
    ensures Keyed(Enter(l, store, mem, Proper(job)), Count(t, mem, job), store, slots)
  {
    hide Supplied, Legal, Digest, OwnKey, Key, Loaded, IsSha256, IsHmac;
  }

  lemma {:induction false} EnterConcat(l: Ledger, store: Store, mem: Memory, es: seq<Event>, more: seq<Event>)
    ensures EnterAll(l, store, mem, es + more) == EnterAll(EnterAll(l, store, mem, es), store, mem, more)
    ensures AllAllowed(l, store, mem, es + more)
       <==> AllAllowed(l, store, mem, es) && AllAllowed(EnterAll(l, store, mem, es), store, mem, more)
    decreases |es|
  {
    hide Enter, Allowed;
    if es == [] {
      assert es + more == more;
    } else {
      assert (es + more)[1..] == es[1..] + more;
      EnterConcat(Enter(l, store, mem, es[0]), store, mem, es[1..], more);
    }
  }

  lemma OneEntered(l: Ledger, store: Store, mem: Memory, e: Event)
    ensures EnterAll(l, store, mem, [e]) == Enter(l, store, mem, e)
    ensures AllAllowed(l, store, mem, [e]) <==> Allowed(l, mem, e)
  {
    hide Enter, Allowed;
    assert [e][1..] == [];
  }

  lemma JobKeyed(l: Ledger, t: Tally, store: Store, mem: Memory, job: Job, slots: nat -> U32)
    requires OwnSlots(slots) && Keyed(l, t, store, slots) && JobAllowed(t, mem, job)
    ensures AllAllowed(l, store, mem, Events(job, slots))
    ensures Keyed(EnterAll(l, store, mem, Events(job, slots)), Count(t, mem, job), store, slots)
  {
    hide EnterAll, AllAllowed, Enter, JobAllowed, Count, OwnKey;
    var load := LoadSlot(slots(job.who));
    LoadsOwnKey(l, store, mem, slots, job.who);
    if job.More? {
      ProperKeyed(l, t, store, mem, job, slots);
      OneEntered(l, store, mem, Proper(job));
    } else {
      var loaded := Enter(l, store, mem, load);
      ProperKeyed(loaded, t, store, mem, job, slots);
      OneEntered(l, store, mem, load);
      OneEntered(loaded, store, mem, Proper(job));
      EnterConcat(l, store, mem, [load], [Proper(job)]);
      assert Events(job, slots) == [load] + [Proper(job)];
    }
  }

  lemma {:induction false} JobsKeyed(l: Ledger, t: Tally, store: Store, mem: Memory, jobs: seq<Job>, slots: nat -> U32)
    requires OwnSlots(slots) && Keyed(l, t, store, slots) && JobsAllowed(t, mem, jobs)
    ensures AllAllowed(l, store, mem, AllEvents(jobs, slots))
    ensures Keyed(EnterAll(l, store, mem, AllEvents(jobs, slots)), CountAll(t, mem, jobs), store, slots)
    decreases |jobs|
  {
    hide Keyed, JobAllowed, Count, Events, Enter, Allowed;
    if jobs != [] {
      var now, later := Events(jobs[0], slots), AllEvents(jobs[1..], slots);
      JobKeyed(l, t, store, mem, jobs[0], slots);
      JobsKeyed(EnterAll(l, store, mem, now), Count(t, mem, jobs[0]), store, mem, jobs[1..], slots);
      EnterConcat(l, store, mem, now, later);
    }
  }

  /**
   Streams that each have a key in a 32-byte slot, interleaved in any order on the one engine with its one key
   register: every finished stream's digest, or HMAC under its own key, is read; nothing else is.
   */
  lemma OwnKeysDigest(o: Ocs, jobs: seq<Job>, slots: nat -> U32)
    requires Settled(o) && OwnSlots(slots) && JobsAllowed(Tally(map[], map[]), o.machine.mem, jobs)
    ensures var results := ServeAll(Unused(o), AllEvents(jobs, slots)).results;
            var done := CountAll(Tally(map[], map[]), o.machine.mem, jobs).done;
            && results.Keys == done.Keys
            && forall who :: who in done ==>
                 results[who] == Digest(done[who].mode, OwnKey(o.sks.store, slots, who), done[who].data)
  {
    hide AllAllowed, ServeAll, EnterAll, AllEvents, CountAll, JobsAllowed, OwnKey, Digest;
    JobsKeyed(Blank(o), Tally(map[], map[]), o.sks.store, o.machine.mem, jobs, slots);
    InterleavedDigests(o, AllEvents(jobs, slots));
  }
}
