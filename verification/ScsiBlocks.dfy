/**
 What a READ brings and a WRITE leaves, in blocks of the medium: a READ gives the
 blocks its command names, a WRITE replaces them and no other, and a READ after any
 number of WRITEs gives in every block what was written there last.
 */
module ScsiBlocks {
  import opened Arithmetic
  import opened Options
  import opened Words
  import opened ScsiTargets
  import opened ScsiBus
  import opened ScsiTransfer

  // What a command names

  /** The number that bytes write, most significant first. */
  function Number(bytes: seq<Byte>): nat {
    if bytes == [] then 0 else 0x100 * Number(bytes[..|bytes| - 1]) + bytes[|bytes| - 1] as int
  }

  predicate IsRead(cdb: seq<Byte>) {
    (|cdb| >= 6 && cdb[0] == 0x08) || (|cdb| >= 10 && cdb[0] == 0x28)
  }

  predicate IsWrite(cdb: seq<Byte>) {
    (|cdb| >= 6 && cdb[0] == 0x0a) || (|cdb| >= 10 && cdb[0] == 0x2a)
  }

  /** The first block: four bytes, or the low 21 bits of three in the short form. */
  function FirstBlock(cdb: seq<Byte>): nat
    requires IsRead(cdb) || IsWrite(cdb)
  {
    if cdb[0] < 0x20 then Number(cdb[1..4]) % 0x20_0000 else Number(cdb[2..6])
  }

  /** How many blocks: in the short form zero stands for 256. */
  function BlocksNamed(cdb: seq<Byte>): nat
    requires IsRead(cdb) || IsWrite(cdb)
  {
    if cdb[0] >= 0x20 then Number(cdb[7..9]) else if cdb[4] == 0 then 256 else cdb[4]
  }

  lemma TwoBytes(bytes: seq<Byte>)
    requires |bytes| == 2
    ensures Number(bytes) == 0x100 * bytes[0] as int + bytes[1]
  {
    assert bytes[..1] == [bytes[0]] && Number([]) == 0 && Number([bytes[0]]) == bytes[0];
  }

  lemma FourBytes(bytes: seq<Byte>)
    requires |bytes| == 4
    ensures Number(bytes) == WordAt(bytes, 0)
  {
    assert bytes[..3][..2] == bytes[..2];
    TwoBytes(bytes[..2]);
  }

  lemma ThreeBytes(bytes: seq<Byte>)
    requires |bytes| == 3
    ensures Number(bytes) % 0x20_0000 == bytes[0] % 0x20 * 0x1_0000 + 0x100 * bytes[1] as int + bytes[2]
  {
    TwoBytes(bytes[..2]);
    var high, low := bytes[0] as int, 0x100 * bytes[1] as int + bytes[2];
    assert Number(bytes) == 0x1_0000 * high + low;
    assert 0x1_0000 * high + low == 0x20_0000 * (high / 0x20) + (0x1_0000 * (high % 0x20) + low);
  }

  /** The decoded fields are the numbers the command writes. */
  lemma NamedBlocks(cdb: seq<Byte>)
    requires IsRead(cdb) || IsWrite(cdb)
    ensures cdb[0] < 0x20 ==> Lba6(cdb) == FirstBlock(cdb) && Count6(cdb) == BlocksNamed(cdb)
    ensures cdb[0] >= 0x20 ==> WordAt(cdb, 2) == FirstBlock(cdb) && Count10(cdb) == BlocksNamed(cdb)
  {
    if cdb[0] < 0x20 {
      ThreeBytes(cdb[1..4]);
    } else {
      FourBytes(cdb[2..6]);
      TwoBytes(cdb[7..9]);
    }
  }

  // Blocks of a medium

  function BlockSize(t: Target): nat {
    match t
    case DiskTarget(_) => DISK_BLOCK
    case CdromTarget(c) => c.blockBytes
  }

  /** A run of blocks of a medium. */
  function Blocks(medium: seq<Byte>, size: nat, first: nat, count: nat): seq<Byte>
    requires first * size + count * size <= |medium|
  {
    medium[first * size..first * size + count * size]
  }

  /** The target has its medium and takes commands for it. */
  predicate Ready(t: Target) {
    match t
    case DiskTarget(d) => d.ready
    case CdromTarget(c) => c.mediumBytes.Some? && c.started && c.attention.None?
  }

  function SenseOf(t: Target): SenseData {
    match t
    case DiskTarget(d) => d.sense
    case CdromTarget(c) => c.sense
  }

  function WithSense(t: Target, sense: SenseData): Target {
    match t
    case DiskTarget(d) => DiskTarget(d.(sense := sense))
    case CdromTarget(c) => CdromTarget(c.(sense := sense))
  }

  /** The plan of a READ or WRITE on a ready target. */
  lemma PlanNames(t: Target, cdb: seq<Byte>)
    requires TargetSound(t) && Ready(t) && (IsRead(cdb) || (IsWrite(cdb) && t.DiskTarget?))
    ensures var first, count, size := FirstBlock(cdb), BlocksNamed(cdb), BlockSize(t);
            Execute(t, cdb) ==
            if count == 0 then (t, Complete(Good, []))
            else if first + count > BelievedSize(t).value / size then
              (WithSense(t, LBA_OUT_OF_RANGE), Complete(CheckCondition, []))
            else (t, if IsRead(cdb) then ReadStorage(first * size, count * size) else WriteStorage(first * size, count * size))
  {
    NamedBlocks(cdb);
    hide Lba6, Count6, Count10, WordAt, Number, FirstBlock, BlocksNamed, Truncated, FixedSense, Inquiry, ModeSense, Capacity;
  }

  lemma BlocksInside(bytes: nat, size: nat, first: nat, count: nat)
    requires size > 0 && first + count <= bytes / size
    ensures first * size + count * size <= bytes
  {
    Distributes(first, count, size);
    Apart(first + count, bytes / size, size);
  }

  lemma Distributes(a: nat, b: nat, size: nat)
    ensures (a + b) * size == a * size + b * size
  {
  }

  lemma Apart(a: nat, b: nat, size: nat)
    requires a <= b
    ensures (b - a) * size == b * size - a * size && a * size <= b * size
  {
  }

  // Reading

  /** A sound bus on which a command to this target can start. */
  predicate CanStart(bus: Bus, targetId: nat, lun: nat) {
    && TargetsSound(bus) && bus.transaction.None?
    && SlotOf(targetId, lun).Some? && bus.targets[SlotOf(targetId, lun).value].Some?
    && Ready(Unit(bus, targetId, lun).target)
  }

  function Unit(bus: Bus, targetId: nat, lun: nat): Attachment
    requires SlotOf(targetId, lun).Some? && bus.targets[SlotOf(targetId, lun).value].Some?
  {
    bus.targets[SlotOf(targetId, lun).value].value
  }

  lemma ReadyHasMedium(bus: Bus, targetId: nat, lun: nat)
    requires CanStart(bus, targetId, lun)
    ensures var a := Unit(bus, targetId, lun);
            && Consistent(a) && BackingSize(a.backing).Some? && BlockSize(a.target) > 0
            && BelievedSize(a.target) == Some(|MediumOf(a.backing)|)
  {
    assert Consistent(Unit(bus, targetId, lun));
    hide MediumValid;
  }

  /** The bus after a command that is refused for its addresses. */
  function OutOfRange(bus: Bus, targetId: nat, lun: nat): Bus
    requires SlotOf(targetId, lun).Some? && bus.targets[SlotOf(targetId, lun).value].Some?
  {
    WithTarget(bus, SlotOf(targetId, lun).value, WithSense(Unit(bus, targetId, lun).target, LBA_OUT_OF_RANGE))
  }

  lemma SameTarget(bus: Bus, slot: nat)
    requires slot < SLOTS && bus.targets[slot].Some?
    ensures WithTarget(bus, slot, bus.targets[slot].value.target) == bus
  {
    assert bus.targets[slot := bus.targets[slot]] == bus.targets;
  }

  /** A READ on a ready target brings exactly the blocks it names, or none of them. */
  lemma ReadBrings(bus: Bus, targetId: nat, lun: nat, cdb: seq<Byte>)
    requires CanStart(bus, targetId, lun) && IsRead(cdb)
    ensures BringsTheBlocks(bus, targetId, lun, cdb)
  {
    var a := Unit(bus, targetId, lun);
    var first, count, size := FirstBlock(cdb), BlocksNamed(cdb), BlockSize(a.target);
    ReadyHasMedium(bus, targetId, lun);
    PlanNames(a.target, cdb);
    SameTarget(bus, SlotOf(targetId, lun).value);
    hide Execute, FirstBlock, BlocksNamed, Ready;
    if first + count <= |MediumOf(a.backing)| / size {
      BlocksInside(|MediumOf(a.backing)|, size, first, count);
    }
    if count > 0 {
      assert count * size >= size;
    }
  }

  predicate BringsTheBlocks(bus: Bus, targetId: nat, lun: nat, cdb: seq<Byte>)
    requires CanStart(bus, targetId, lun) && IsRead(cdb)
  {
    hide FirstBlock, BlocksNamed, StartCommand, Incoming, ToCome, AllTaken, Blocks;
    ReadyHasMedium(bus, targetId, lun);
    var a := Unit(bus, targetId, lun);
    var medium, size := MediumOf(a.backing), BlockSize(a.target);
    var first, count := FirstBlock(cdb), BlocksNamed(cdb);
    var (after, start) := StartCommand(bus, targetId, lun, cdb);
    if count == 0 then after == bus && start == Ok(Finished(Good))
    else if first + count > |medium| / size then
      after == OutOfRange(bus, targetId, lun) && start == Ok(Finished(CheckCondition))
    else
      BlocksInside(|medium|, size, first, count);
      && start == Ok(StartedIn(count * size))
      && Incoming(after) && ToCome(after) == Blocks(medium, size, first, count)
      && AllTaken(after) == (bus, Good)
  }

  function Medium(bus: Bus, targetId: nat, lun: nat): (medium: seq<Byte>)
    requires CanStart(bus, targetId, lun)
    ensures BelievedSize(Unit(bus, targetId, lun).target) == Some(|medium|)
  {
    ReadyHasMedium(bus, targetId, lun);
    MediumOf(Unit(bus, targetId, lun).backing)
  }

  /** A READ of blocks that are there has all of them to come, and leaves the bus as it was. */
  lemma ReadStarts(bus: Bus, targetId: nat, lun: nat, cdb: seq<Byte>)
    requires CanStart(bus, targetId, lun) && IsRead(cdb) && 0 < BlocksNamed(cdb)
    requires var a := Unit(bus, targetId, lun);
             && BlockSize(a.target) > 0 && BelievedSize(a.target).Some?
             && FirstBlock(cdb) + BlocksNamed(cdb) <= BelievedSize(a.target).value / BlockSize(a.target)
    ensures var medium, size := Medium(bus, targetId, lun), BlockSize(Unit(bus, targetId, lun).target);
            var (after, start) := StartCommand(bus, targetId, lun, cdb);
            && FirstBlock(cdb) * size + BlocksNamed(cdb) * size <= |medium|
            && start == Ok(StartedIn(BlocksNamed(cdb) * size))
            && Incoming(after) && ToCome(after) == Blocks(medium, size, FirstBlock(cdb), BlocksNamed(cdb))
            && |ToCome(after)| == BlocksNamed(cdb) * size && AllTaken(after) == (bus, Good)
  {
    ReadBrings(bus, targetId, lun, cdb);
    ReadyHasMedium(bus, targetId, lun);
    BlocksInside(|Medium(bus, targetId, lun)|, BlockSize(Unit(bus, targetId, lun).target), FirstBlock(cdb), BlocksNamed(cdb));
    hide FirstBlock, BlocksNamed, StartCommand, Incoming, ToCome, AllTaken;
  }

  // Writing

  /** A ready disk. */
  predicate CanWrite(bus: Bus, targetId: nat, lun: nat) {
    CanStart(bus, targetId, lun) && Unit(bus, targetId, lun).target.DiskTarget?
  }

  function Block(medium: seq<Byte>, size: nat, block: nat): seq<Byte>
    requires size > 0 && block < |medium| / size
  {
    BlocksInside(|medium|, size, block, 1);
    medium[block * size..block * size + size]
  }

  /** One medium is another with the payload in the blocks from the first on, and every other block as it was. */
  ghost predicate Replaced(before: seq<Byte>, after: seq<Byte>, size: nat, first: nat, payload: seq<Byte>)
    requires size > 0 && |payload| % size == 0 && first + |payload| / size <= |before| / size
  {
    && |after| == |before|
    && forall block: nat :: block < |before| / size ==>
         Block(after, size, block) ==
         if first <= block < first + |payload| / size then Block(payload, size, block - first) else Block(before, size, block)
  }

  /** A medium overwritten at whole blocks has those blocks replaced. */
  lemma OverwrittenBlocks(medium: seq<Byte>, size: nat, first: nat, count: nat, payload: seq<Byte>)
    requires size > 0 && |payload| == count * size && first + count <= |medium| / size
    ensures |payload| % size == 0 && |payload| / size == count
    ensures first * size + |payload| <= |medium|
    ensures Replaced(medium, Overwritten(medium, first * size, payload), size, first, payload)
  {
    UniqueRemainder(|payload|, count, 0, size);
    BlocksInside(|medium|, size, first, count);
    forall block: nat | block < |medium| / size
      ensures Block(Overwritten(medium, first * size, payload), size, block) ==
              if first <= block < first + count then Block(payload, size, block - first) else Block(medium, size, block)
    {
      OverwrittenBlock(medium, size, first, count, payload, block);
    }
  }

  lemma OverwrittenBlock(medium: seq<Byte>, size: nat, first: nat, count: nat, payload: seq<Byte>, block: nat)
    requires size > 0 && |payload| == count * size && |payload| / size == count && first + count <= |medium| / size
    requires block < |medium| / size && first * size + |payload| <= |medium|
    ensures Block(Overwritten(medium, first * size, payload), size, block) ==
            if first <= block < first + count then Block(payload, size, block - first) else Block(medium, size, block)
  {
    BlocksInside(|medium|, size, block, 1);
    OverwrittenSlice(medium, first * size, payload, block * size, block * size + size);
    if first <= block < first + count {
      BlocksInside(|payload|, size, block - first, 1);
      Apart(first, block, size);
      Apart(block + 1, first + count, size);
    } else if block < first {
      Apart(block + 1, first, size);
    } else {
      Apart(first + count, block, size);
    }
    Distributes(block, 1, size);
    Distributes(first, count, size);
    hide Overwritten;
  }

  lemma OverwrittenSlice(medium: seq<Byte>, offset: nat, payload: seq<Byte>, from: nat, end: nat)
    requires offset + |payload| <= |medium| && from <= end <= |medium|
    ensures var after := Overwritten(medium, offset, payload);
            && (offset <= from && end <= offset + |payload| ==> after[from..end] == payload[from - offset..end - offset])
            && (end <= offset || offset + |payload| <= from ==> after[from..end] == medium[from..end])
  {
  }

  /** The bus with another medium in a disk. */
  function WithMedium(bus: Bus, targetId: nat, lun: nat, medium: seq<Byte>): Bus
    requires CanWrite(bus, targetId, lun)
  {
    WithBacking(bus, SlotOf(targetId, lun).value, Fixed(medium))
  }

  /** A WRITE on a ready disk takes the blocks it names, puts them there and leaves all others. */
  predicate TakesTheBlocks(bus: Bus, targetId: nat, lun: nat, cdb: seq<Byte>, payload: seq<Byte>)
    requires CanWrite(bus, targetId, lun) && IsWrite(cdb)
    requires |payload| == BlocksNamed(cdb) * DISK_BLOCK
  {
    var medium := Medium(bus, targetId, lun);
    var first, count := FirstBlock(cdb), BlocksNamed(cdb);
    var (after, start) := StartCommand(bus, targetId, lun, cdb);
    if count == 0 then after == bus && start == Ok(Finished(Good))
    else if first + count > |medium| / DISK_BLOCK then
      after == OutOfRange(bus, targetId, lun) && start == Ok(Finished(CheckCondition))
    else
      && start == Ok(StartedOut(|payload|))
      && Outgoing(after) && Wanted(after) == |payload|
      && AllGiven(after, payload).1 == Good
      && first * DISK_BLOCK + |payload| <= |medium|
      && AllGiven(after, payload).0 == WithMedium(bus, targetId, lun, Overwritten(medium, first * DISK_BLOCK, payload))
  }

  lemma WriteTakes(bus: Bus, targetId: nat, lun: nat, cdb: seq<Byte>, payload: seq<Byte>)
    requires CanWrite(bus, targetId, lun) && IsWrite(cdb)
    requires |payload| == BlocksNamed(cdb) * DISK_BLOCK
    ensures TakesTheBlocks(bus, targetId, lun, cdb, payload)
  {
    var a := Unit(bus, targetId, lun);
    var first, count := FirstBlock(cdb), BlocksNamed(cdb);
    ReadyHasMedium(bus, targetId, lun);
    PlanNames(a.target, cdb);
    SameTarget(bus, SlotOf(targetId, lun).value);
    hide Execute, FirstBlock, BlocksNamed, Ready, Overwritten;
    if first + count <= |MediumOf(a.backing)| / DISK_BLOCK {
      BlocksInside(|MediumOf(a.backing)|, DISK_BLOCK, first, count);
    }
    if 0 < count && first + count <= |MediumOf(a.backing)| / DISK_BLOCK {
      var slot := SlotOf(targetId, lun).value;
      var filled := WithBacking(bus, slot, Fixed(Overwritten(MediumOf(a.backing), first * DISK_BLOCK, payload)));
      SameTarget(filled, slot);
    }
  }

  // Writes, and then a read

  /** A WRITE command and the chunks in which its payload is given. */
  datatype BlockWrite = BlockWrite(cdb: seq<Byte>, pushes: seq<Push>)

  /** Bytes that have been put at a block and those after it. */
  datatype Stored = Stored(first: nat, bytes: seq<Byte>)

  predicate PushesMove(pushes: seq<Push>) {
    forall p :: p in pushes ==> p.maximum > 0
  }

  /** The command names blocks of the disk, and its chunks complete the payload. */
  predicate Completes(bus: Bus, targetId: nat, lun: nat, w: BlockWrite) {
    && CanWrite(bus, targetId, lun) && IsWrite(w.cdb) && PushesMove(w.pushes)
    && 0 < BlocksNamed(w.cdb) && FirstBlock(w.cdb) + BlocksNamed(w.cdb) <= |Medium(bus, targetId, lun)| / DISK_BLOCK
    && Outgoing(StartCommand(bus, targetId, lun, w.cdb).0)
    && Pushed(StartCommand(bus, targetId, lun, w.cdb).0, w.pushes).2.Some?
  }

  /** The bus after the write, and what it stored. */
  function AfterWrite(bus: Bus, targetId: nat, lun: nat, w: BlockWrite): (Bus, Stored)
    requires Completes(bus, targetId, lun, w)
  {
    var (end, bytes, _) := Pushed(StartCommand(bus, targetId, lun, w.cdb).0, w.pushes);
    (end, Stored(FirstBlock(w.cdb), bytes))
  }

  lemma WriteStores(bus: Bus, targetId: nat, lun: nat, w: BlockWrite)
    requires Completes(bus, targetId, lun, w)
    ensures var (end, stored) := AfterWrite(bus, targetId, lun, w);
            var medium := Medium(bus, targetId, lun);
            && stored.first == FirstBlock(w.cdb) && |stored.bytes| == BlocksNamed(w.cdb) * DISK_BLOCK
            && stored.first + |stored.bytes| / DISK_BLOCK <= |medium| / DISK_BLOCK
            && CanWrite(end, targetId, lun)
            && Replaced(medium, Medium(end, targetId, lun), DISK_BLOCK, stored.first, stored.bytes)
            && Pushed(StartCommand(bus, targetId, lun, w.cdb).0, w.pushes).2 == Some(Good)
  {
    var started := StartCommand(bus, targetId, lun, w.cdb).0;
    var (end, bytes, status) := Pushed(started, w.pushes);
    var medium := Medium(bus, targetId, lun);
    var first, count := FirstBlock(w.cdb), BlocksNamed(w.cdb);
    hide FirstBlock, BlocksNamed, Replaced, CanWrite, StartCommand, Outgoing, Wanted, AllGiven, Pushed, Overwritten, Medium,
      WithMedium;
    PushesAreOneTransfer(started, w.pushes);
    WriteTakes(bus, targetId, lun, w.cdb, seq(count * DISK_BLOCK, _ => 0));
    WriteTakes(bus, targetId, lun, w.cdb, bytes);
    OverwrittenBlocks(medium, DISK_BLOCK, first, count, bytes);
    StillWrites(bus, targetId, lun, Overwritten(medium, first * DISK_BLOCK, bytes));
  }

  lemma StillWrites(bus: Bus, targetId: nat, lun: nat, medium: seq<Byte>)
    requires CanWrite(bus, targetId, lun) && |medium| == |Medium(bus, targetId, lun)|
    ensures CanWrite(WithMedium(bus, targetId, lun, medium), targetId, lun)
    ensures Medium(WithMedium(bus, targetId, lun, medium), targetId, lun) == medium
  {
    var slot := SlotOf(targetId, lun).value;
    var after := WithMedium(bus, targetId, lun, medium);
    assert Consistent(Unit(bus, targetId, lun));
    forall i | 0 <= i < SLOTS && after.targets[i].Some?
      ensures Consistent(after.targets[i].value)
    {
      if i != slot {
        assert Consistent(bus.targets[i].value);
      }
    }
  }

  ghost predicate AllComplete(bus: Bus, targetId: nat, lun: nat, writes: seq<BlockWrite>)
    decreases |writes|
  {
    writes != [] ==>
      && Completes(bus, targetId, lun, writes[0])
      && AllComplete(AfterWrite(bus, targetId, lun, writes[0]).0, targetId, lun, writes[1..])
  }

  /** The bus after the writes, and what they stored. */
  ghost function AfterWrites(bus: Bus, targetId: nat, lun: nat, writes: seq<BlockWrite>): (Bus, seq<Stored>)
    requires AllComplete(bus, targetId, lun, writes)
    decreases |writes|
  {
    if writes == [] then (bus, [])
    else
      var (after, stored) := AfterWrite(bus, targetId, lun, writes[0]);
      var (end, others) := AfterWrites(after, targetId, lun, writes[1..]);
      (end, [stored] + others)
  }

  predicate WholeBlocks(stored: seq<Stored>) {
    forall w :: w in stored ==> |w.bytes| % DISK_BLOCK == 0
  }

  /** What was stored last in a block, if anything was. */
  function Latest(stored: seq<Stored>, block: nat): Option<seq<Byte>>
    requires WholeBlocks(stored)
    decreases |stored|
  {
    if stored == [] then None
    else
      var w := stored[0];
      var later := Latest(stored[1..], block);
      if later.Some? then later
      else if w.first <= block < w.first + |w.bytes| / DISK_BLOCK then Some(Block(w.bytes, DISK_BLOCK, block - w.first))
      else None
  }

  /** Every block holds what was stored there last, or what it held before. */
  ghost predicate Holds(before: seq<Byte>, after: seq<Byte>, stored: seq<Stored>)
    requires WholeBlocks(stored)
  {
    && |after| == |before|
    && forall block: nat :: block < |before| / DISK_BLOCK ==>
         Block(after, DISK_BLOCK, block) ==
         if Latest(stored, block).Some? then Latest(stored, block).value else Block(before, DISK_BLOCK, block)
  }

  lemma {:induction false} WritesStore(bus: Bus, targetId: nat, lun: nat, writes: seq<BlockWrite>)
    requires CanWrite(bus, targetId, lun) && AllComplete(bus, targetId, lun, writes)
    ensures var (end, stored) := AfterWrites(bus, targetId, lun, writes);
            && CanWrite(end, targetId, lun) && WholeBlocks(stored)
            && Holds(Medium(bus, targetId, lun), Medium(end, targetId, lun), stored)
    decreases |writes|
  {
    hide CanStart, Completes, AfterWrite, Medium, Block, FirstBlock, BlocksNamed;
    if writes != [] {
      var (after, stored) := AfterWrite(bus, targetId, lun, writes[0]);
      WriteStores(bus, targetId, lun, writes[0]);
      WritesStore(after, targetId, lun, writes[1..]);
      hide Holds, Replaced;
      var (end, others) := AfterWrites(after, targetId, lun, writes[1..]);
      StoredFirst(Medium(bus, targetId, lun), Medium(after, targetId, lun), Medium(end, targetId, lun), stored, others);
    }
  }

  lemma StoredFirst(before: seq<Byte>, between: seq<Byte>, after: seq<Byte>, stored: Stored, others: seq<Stored>)
    requires |stored.bytes| % DISK_BLOCK == 0 && stored.first + |stored.bytes| / DISK_BLOCK <= |before| / DISK_BLOCK
    requires Replaced(before, between, DISK_BLOCK, stored.first, stored.bytes)
    requires WholeBlocks(others) && Holds(between, after, others)
    ensures WholeBlocks([stored] + others) && Holds(before, after, [stored] + others)
  {
    var all := [stored] + others;
    assert all[1..] == others;
    hide Block;
  }

  /** The chunks of a read: at most so many bytes each, taken or not. */
  predicate PullsMove(pulls: seq<Pull>) {
    forall p :: p in pulls ==> p.maximum > 0
  }

  /** A read of blocks of the disk whose chunks take all of it. */
  predicate ReadsAll(bus: Bus, targetId: nat, lun: nat, cdb: seq<Byte>, pulls: seq<Pull>) {
    && CanStart(bus, targetId, lun) && IsRead(cdb) && PullsMove(pulls)
    && 0 < BlocksNamed(cdb)
    && FirstBlock(cdb) + BlocksNamed(cdb) <= |Medium(bus, targetId, lun)| / BlockSize(Unit(bus, targetId, lun).target)
    && Incoming(StartCommand(bus, targetId, lun, cdb).0)
    && Pulled(StartCommand(bus, targetId, lun, cdb).0, pulls).2.Some?
  }

  /** What chunks of any sizes bring, rejected ones among them, is the blocks the command names. */
  lemma ReadInChunks(bus: Bus, targetId: nat, lun: nat, cdb: seq<Byte>, pulls: seq<Pull>)
    requires ReadsAll(bus, targetId, lun, cdb, pulls)
    ensures var (end, bytes, status) := Pulled(StartCommand(bus, targetId, lun, cdb).0, pulls);
            var size := BlockSize(Unit(bus, targetId, lun).target);
            && end == bus && status == Some(Good)
            && |bytes| == BlocksNamed(cdb) * size && |bytes| / size == BlocksNamed(cdb)
            && (forall k: nat :: k < BlocksNamed(cdb) ==>
                  Block(bytes, size, k) == Block(Medium(bus, targetId, lun), size, FirstBlock(cdb) + k))
  {
    ReadBegins(bus, targetId, lun, cdb, pulls);
    hide *;
    PullsAreOneTransfer(StartCommand(bus, targetId, lun, cdb).0, pulls);
  }

  lemma ReadBegins(bus: Bus, targetId: nat, lun: nat, cdb: seq<Byte>, pulls: seq<Pull>)
    requires ReadsAll(bus, targetId, lun, cdb, pulls)
    ensures var started, size := StartCommand(bus, targetId, lun, cdb).0, BlockSize(Unit(bus, targetId, lun).target);
            && Incoming(started) && AllTaken(started) == (bus, Good) && size > 0
            && |ToCome(started)| == BlocksNamed(cdb) * size && |ToCome(started)| / size == BlocksNamed(cdb)
            && (forall k: nat :: k < BlocksNamed(cdb) ==>
                  Block(ToCome(started), size, k) == Block(Medium(bus, targetId, lun), size, FirstBlock(cdb) + k))
    ensures Pulled(StartCommand(bus, targetId, lun, cdb).0, pulls).2.Some?
    ensures forall p :: p in pulls ==> p.maximum > 0
  {
    var medium, size := Medium(bus, targetId, lun), BlockSize(Unit(bus, targetId, lun).target);
    hide FirstBlock, BlocksNamed, CanStart, StartCommand, Incoming, ToCome, AllTaken, Pulled, Block, Blocks;
    ReadyHasMedium(bus, targetId, lun);
    ReadStarts(bus, targetId, lun, cdb);
    BlocksOfBlocks(medium, size, FirstBlock(cdb), BlocksNamed(cdb));
  }

  lemma BlocksOfBlocks(medium: seq<Byte>, size: nat, first: nat, count: nat)
    requires size > 0 && first + count <= |medium| / size && first * size + count * size <= |medium|
    ensures var bytes := Blocks(medium, size, first, count);
            && |bytes| == count * size && |bytes| / size == count
            && forall k: nat :: k < count ==> Block(bytes, size, k) == Block(medium, size, first + k)
  {
    var bytes := Blocks(medium, size, first, count);
    UniqueRemainder(|bytes|, count, 0, size);
    forall k: nat | k < count
      ensures Block(bytes, size, k) == Block(medium, size, first + k)
    {
      BlockOfBlocks(medium, size, first, count, k);
    }
  }

  lemma BlockOfBlocks(medium: seq<Byte>, size: nat, first: nat, count: nat, k: nat)
    requires size > 0 && first + count <= |medium| / size && first * size + count * size <= |medium| && k < count
    requires |Blocks(medium, size, first, count)| / size == count
    ensures Block(Blocks(medium, size, first, count), size, k) == Block(medium, size, first + k)
  {
    var bytes := Blocks(medium, size, first, count);
    BlocksInside(|bytes|, size, k, 1);
    Distributes(first, k, size);
    SliceOfSlice(medium, first * size, first * size + count * size, k * size, k * size + size);
  }

  lemma SliceOfSlice(medium: seq<Byte>, from: nat, end: nat, a: nat, b: nat)
    requires from <= end <= |medium| && a <= b <= end - from
    ensures medium[from..end][a..b] == medium[from + a..from + b]
  {
    var x, y := medium[from..end][a..b], medium[from + a..from + b];
    forall i | 0 <= i < b - a
      ensures x[i] == y[i]
    {
      assert x[i] == medium[from..end][a + i];
    }
    assert x == y;
  }

  /** After any writes, however they and the read are cut into chunks, each block reads as what was stored there last. */
  lemma ReadGivesLatest(bus: Bus, targetId: nat, lun: nat, writes: seq<BlockWrite>, cdb: seq<Byte>, pulls: seq<Pull>)
    requires CanWrite(bus, targetId, lun) && AllComplete(bus, targetId, lun, writes)
    requires ReadsAll(AfterWrites(bus, targetId, lun, writes).0, targetId, lun, cdb, pulls)
    ensures var (end, stored) := AfterWrites(bus, targetId, lun, writes);
            var bytes := Pulled(StartCommand(end, targetId, lun, cdb).0, pulls).1;
            var medium := Medium(bus, targetId, lun);
            && WholeBlocks(stored) && |bytes| == BlocksNamed(cdb) * DISK_BLOCK
            && FirstBlock(cdb) + BlocksNamed(cdb) <= |medium| / DISK_BLOCK
            && forall k: nat :: k < BlocksNamed(cdb) ==>
                 Block(bytes, DISK_BLOCK, k) ==
                 var latest := Latest(stored, FirstBlock(cdb) + k);
                 if latest.Some? then latest.value else Block(medium, DISK_BLOCK, FirstBlock(cdb) + k)
  {
    WritesStore(bus, targetId, lun, writes);
    var (end, stored) := AfterWrites(bus, targetId, lun, writes);
    ReadInChunks(end, targetId, lun, cdb, pulls);
    hide StartCommand, Pulled, AfterWrites, AllComplete, Medium, Block, Latest, FirstBlock, BlocksNamed;
  }
}
