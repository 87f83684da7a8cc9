/**
 The two SCSI targets: a fixed disk and a CD-ROM drive with a removable medium.  A
 target decodes a command into a plan; the bus carries the plan out on the storage.
 */
module ScsiTargets {
  import opened Options
  import opened Words

  datatype Status = Good | CheckCondition

  function StatusByte(status: Status): Byte {
    if status == Good then 0x00 else 0x02
  }

  datatype SenseData = SenseData(key: Byte, asc: Byte, ascq: Byte)

  const NO_SENSE := SenseData(0, 0, 0)
  const UNSUPPORTED_OPCODE := SenseData(5, 0x20, 0)
  const INVALID_CDB_FIELD := SenseData(5, 0x24, 0)
  const INVALID_PARAMETER_LIST := SenseData(5, 0x26, 0)
  const LBA_OUT_OF_RANGE := SenseData(5, 0x21, 0)
  const WRITE_PROTECTED := SenseData(7, 0x27, 0)
  const HOST_IO_ERROR := SenseData(4, 0x44, 0)
  const NOT_READY := SenseData(2, 0x04, 0x02)
  const MEDIUM_NOT_PRESENT := SenseData(2, 0x3a, 0)
  const MEDIUM_CHANGED := SenseData(6, 0x28, 0)
  const MEDIUM_REMOVAL_PREVENTED := SenseData(5, 0x53, 0x02)

  /** What a decoded command asks the bus to do. */
  datatype Plan =
    | Complete(status: Status, dataIn: seq<Byte>)
    | ReadStorage(offset: nat, byteCount: nat)
    | WriteStorage(offset: nat, byteCount: nat)
    | ReceiveDataOut(byteCount: nat)
    | EjectMedium

  /** Who changed a medium; only the host's own changes raise a unit attention. */
  datatype Origin = ColdAttach | External | GuestCommand

  const DISK_BLOCK: nat := 512
  const MEDIUM_ALIGNMENT: nat := 2048
  const MAX_BLOCKS: nat := 0x1_0000_0000

  datatype Disk = Disk(blockCount: nat, ready: bool, sense: SenseData)

  datatype Cdrom = Cdrom(
    mediumBytes: Option<nat>,
    blockBytes: nat,
    started: bool,
    removalPrevented: bool,
    attention: Option<SenseData>,
    sense: SenseData)

  datatype Target = DiskTarget(disk: Disk) | CdromTarget(cdrom: Cdrom)

  const EMPTY_DRIVE := Cdrom(None, 512, false, false, None, NO_SENSE)

  predicate BlockSizeSupported(bytes: nat) {
    bytes == 512 || bytes == 2048
  }

  predicate MediumValid(bytes: nat) {
    bytes != 0 && bytes % MEDIUM_ALIGNMENT == 0 && bytes / 512 <= MAX_BLOCKS
  }

  predicate DiskSizeValid(bytes: nat) {
    bytes != 0 && bytes % DISK_BLOCK == 0 && bytes / DISK_BLOCK <= MAX_BLOCKS
  }

  /** What every target the constructors make satisfies, and every command keeps. */
  predicate TargetSound(t: Target) {
    match t
    case DiskTarget(d) => 0 < d.blockCount <= MAX_BLOCKS
    case CdromTarget(c) => BlockSizeSupported(c.blockBytes) && (c.mediumBytes.Some? ==> MediumValid(c.mediumBytes.value))
  }

  /** A ready disk on storage of a capacity that READ CAPACITY(10) can report. */
  function NewDisk(bytes: nat): (d: Option<Disk>)
    ensures d.Some? <==> DiskSizeValid(bytes)
    ensures d.Some? ==> TargetSound(DiskTarget(d.value)) && BelievedSize(DiskTarget(d.value)) == Some(bytes)
  {
    if DiskSizeValid(bytes) then Some(Disk(bytes / DISK_BLOCK, true, NO_SENSE)) else None
  }

  function NewCdrom(bytes: nat): (c: Option<Cdrom>)
    ensures c.Some? <==> MediumValid(bytes)
    ensures c.Some? ==> TargetSound(CdromTarget(c.value)) && BelievedSize(CdromTarget(c.value)) == Some(bytes)
  {
    if MediumValid(bytes) then Some(EMPTY_DRIVE.(mediumBytes := Some(bytes), started := true)) else None
  }

  // Fields of commands

  /** READ(6) and WRITE(6): a 21-bit address, and zero blocks stand for 256. */
  function Lba6(cdb: seq<Byte>): nat
    requires |cdb| >= 6
  {
    cdb[1] % 0x20 * 0x1_0000 + 0x100 * cdb[2] as int + cdb[3]
  }

  function Count6(cdb: seq<Byte>): nat
    requires |cdb| >= 6
  {
    if cdb[4] == 0 then 256 else cdb[4]
  }

  function Count10(cdb: seq<Byte>): nat
    requires |cdb| >= 10
  {
    0x100 * cdb[7] as int + cdb[8]
  }

  function Truncated(data: seq<Byte>, allocation: nat): seq<Byte> {
    data[..Min(allocation, |data|)]
  }

  function FixedSense(sense: SenseData, allocation: nat): seq<Byte> {
    Truncated([0x70, 0, sense.key, 0, 0, 0, 0, 10, 0, 0, 0, 0, sense.asc, sense.ascq, 0, 0, 0, 0], allocation)
  }

  predicate Ascii(text: string) {
    forall i :: 0 <= i < |text| ==> text[i] < 128 as char
  }

  function Inquiry(first: seq<Byte>, identity: string, allocation: nat): seq<Byte>
    requires Ascii(identity)
  {
    Truncated(first + [1, 1, 31, 0, 0, 0] + seq(|identity|, i requires 0 <= i < |identity| => identity[i] as int),
              allocation)
  }

  function ModeSense(flags: Byte, blockBytes: Word, allocation: nat): seq<Byte> {
    Truncated([0x0b, 0, flags, 8, 0, 0, 0, 0, 0] + WordBytes(blockBytes)[1..], allocation)
  }

  function Capacity(lastBlock: Word, blockBytes: Word): seq<Byte> {
    WordBytes(lastBlock) + WordBytes(blockBytes)
  }

  const REPLY_GOOD := Complete(Good, [])
  const REFUSED := Complete(CheckCondition, [])

  // The disk

  function RefuseDisk(d: Disk, sense: SenseData): (Disk, Plan) {
    (d.(sense := sense), REFUSED)
  }

  function DiskTransfer(d: Disk, write: bool, lba: nat, count: nat): (Disk, Plan) {
    if !d.ready then RefuseDisk(d, NOT_READY)
    else if count == 0 then (d, REPLY_GOOD)
    else if lba + count > d.blockCount then RefuseDisk(d, LBA_OUT_OF_RANGE)
    else (d, if write then WriteStorage(lba * DISK_BLOCK, count * DISK_BLOCK)
             else ReadStorage(lba * DISK_BLOCK, count * DISK_BLOCK))
  }

  /** READ DEFECT DATA(10): only an empty list in a supported format. */
  function ReadDefects(d: Disk, cdb: seq<Byte>): (Disk, Plan)
    requires |cdb| >= 10
  {
    if !d.ready then RefuseDisk(d, NOT_READY)
    else
      var selector := cdb[2];
      var format := selector % 8;
      var supported := selector / 0x20 == 0 && selector / 0x10 % 2 == 1 && (format == 0 || format == 4 || format == 5);
      var others := cdb[1] % 0x20 == 0 && cdb[3] == 0 && cdb[4] == 0 && cdb[5] == 0 && cdb[6] == 0 && cdb[9] == 0;
      if !supported || !others then RefuseDisk(d, INVALID_CDB_FIELD)
      else (d, Complete(Good, Truncated([0, selector, 0, 0], Count10(cdb))))
  }

  /** The length an operation code of the disk needs; zero for one it does not know. */
  function DiskLength(opcode: Byte): nat {
    if opcode in {0x00, 0x03, 0x08, 0x0a, 0x12, 0x1a, 0x1b} then 6
    else if opcode in {0x25, 0x28, 0x2a, 0x37} then 10
    else 0
  }

  function ExecuteDisk(d: Disk, cdb: seq<Byte>): (Disk, Plan) {
    if cdb == [] then RefuseDisk(d, INVALID_CDB_FIELD)
    else if DiskLength(cdb[0]) == 0 then RefuseDisk(d, UNSUPPORTED_OPCODE)
    else if |cdb| < DiskLength(cdb[0]) then RefuseDisk(d, INVALID_CDB_FIELD)
    else
      match cdb[0]
      case 0x00 => if d.ready then (d, REPLY_GOOD) else RefuseDisk(d, NOT_READY)
      case 0x03 => (d.(sense := NO_SENSE), Complete(Good, FixedSense(d.sense, cdb[4])))
      case 0x08 => DiskTransfer(d, false, Lba6(cdb), Count6(cdb))
      case 0x0a => DiskTransfer(d, true, Lba6(cdb), Count6(cdb))
      case 0x12 => (d, Complete(Good, Inquiry([0, 0], "SGI-EMU VIRTUAL DISK    0001", cdb[4])))
      case 0x1a => (d, Complete(Good, ModeSense(0, DISK_BLOCK, cdb[4])))
      case 0x1b => (d.(ready := cdb[4] % 2 == 1), REPLY_GOOD)
      case 0x25 =>
        if !d.ready then RefuseDisk(d, NOT_READY)
        else (d, Complete(Good, Capacity((d.blockCount - 1) % MAX_BLOCKS, DISK_BLOCK)))
      case 0x28 => DiskTransfer(d, false, WordAt(cdb, 2), Count10(cdb))
      case 0x2a => DiskTransfer(d, true, WordAt(cdb, 2), Count10(cdb))
      case _ => ReadDefects(d, cdb)
  }

  // The CD-ROM drive

  function RefuseCdrom(c: Cdrom, sense: SenseData): (Cdrom, Plan) {
    (c.(sense := sense), REFUSED)
  }

  /** The sense of a drive that is not ready, if it is not. */
  function Unready(c: Cdrom): Option<SenseData> {
    if c.mediumBytes.None? then Some(MEDIUM_NOT_PRESENT) else if !c.started then Some(NOT_READY) else None
  }

  function CdromRead(c: Cdrom, lba: nat, count: nat): (Cdrom, Plan)
    requires c.blockBytes > 0
  {
    if Unready(c).Some? then RefuseCdrom(c, Unready(c).value)
    else if count == 0 then (c, REPLY_GOOD)
    else if lba + count > c.mediumBytes.value / c.blockBytes then RefuseCdrom(c, LBA_OUT_OF_RANGE)
    else (c, ReadStorage(lba * c.blockBytes, count * c.blockBytes))
  }

  function CdromCapacity(c: Cdrom): (Cdrom, Plan)
    requires BlockSizeSupported(c.blockBytes)
  {
    if Unready(c).Some? then RefuseCdrom(c, Unready(c).value)
    else
      var blocks := c.mediumBytes.value / c.blockBytes;
      if blocks == 0 || blocks > MAX_BLOCKS then RefuseCdrom(c, LBA_OUT_OF_RANGE)
      else (c, Complete(Good, Capacity(blocks - 1, c.blockBytes)))
  }

  function RequestEjection(c: Cdrom): (Cdrom, Plan) {
    if c.mediumBytes.None? then (c, REPLY_GOOD)
    else if c.removalPrevented then RefuseCdrom(c, MEDIUM_REMOVAL_PREVENTED)
    else (c, EjectMedium)
  }

  function StartStop(c: Cdrom, control: Byte): (Cdrom, Plan) {
    if control / 2 % 2 == 1 && control % 2 == 0 then RequestEjection(c)
    else (c.(started := control % 2 == 1), REPLY_GOOD)
  }

  function PreventAllow(c: Cdrom, cdb: seq<Byte>): (Cdrom, Plan)
    requires |cdb| >= 6
  {
    if cdb[2] != 0 || cdb[3] != 0 then RefuseCdrom(c, INVALID_CDB_FIELD)
    else (c.(removalPrevented := cdb[4] % 2 == 1), REPLY_GOOD)
  }

  /** READ TOC: one data track, in either addressing. */
  function ReadToc(c: Cdrom, cdb: seq<Byte>): (Cdrom, Plan)
    requires |cdb| >= 10
  {
    if cdb[2] % 0x10 != 0 || cdb[6] > 1 then RefuseCdrom(c, INVALID_CDB_FIELD)
    else if Unready(c).Some? then RefuseCdrom(c, Unready(c).value)
    else
      var start := if cdb[1] / 2 % 2 == 1 then [0, 0, 2, 0] else [0, 0, 0, 0];
      (c, Complete(Good, Truncated([0, 10, 1, 1, 0, 0x14, 1, 0] + start, Count10(cdb))))
  }

  function CdromLength(opcode: Byte): nat {
    if opcode in {0x00, 0x03, 0x08, 0x12, 0x15, 0x1a, 0x1b, 0x1e} then 6
    else if opcode in {0x25, 0x28, 0x2a, 0x43, 0xc4, 0xc9} then 10
    else 0
  }

  function CdromCommand(c: Cdrom, cdb: seq<Byte>): (Cdrom, Plan)
    requires BlockSizeSupported(c.blockBytes)
    requires cdb != [] && |cdb| >= CdromLength(cdb[0]) > 0
  {
    match cdb[0]
    case 0x00 => if Unready(c).Some? then RefuseCdrom(c, Unready(c).value) else (c, REPLY_GOOD)
    case 0x03 => (c.(sense := NO_SENSE), Complete(Good, FixedSense(c.sense, cdb[4])))
    case 0x08 => CdromRead(c, Lba6(cdb), Count6(cdb))
    case 0x12 => (c, Complete(Good, Inquiry([5, 0x80], "SGI-EMU VIRTUAL CD-ROM  0001", cdb[4])))
    case 0x15 => if cdb[1] != 0 then RefuseCdrom(c, INVALID_CDB_FIELD) else (c, ReceiveDataOut(cdb[4]))
    case 0x1a => (c, Complete(Good, ModeSense(0x80, c.blockBytes, cdb[4])))
    case 0x1b => StartStop(c, cdb[4])
    case 0x1e => PreventAllow(c, cdb)
    case 0x25 => CdromCapacity(c)
    case 0x28 => CdromRead(c, WordAt(cdb, 2), Count10(cdb))
    case 0x2a => RefuseCdrom(c, WRITE_PROTECTED)
    case 0x43 => ReadToc(c, cdb)
    case 0xc4 => RequestEjection(c)
    case _ => (c, REPLY_GOOD)
  }

  /** A pending unit attention refuses every command but INQUIRY and REQUEST SENSE, once. */
  function ExecuteCdrom(c: Cdrom, cdb: seq<Byte>): (Cdrom, Plan)
    requires BlockSizeSupported(c.blockBytes)
  {
    if cdb == [] then RefuseCdrom(c, INVALID_CDB_FIELD)
    else if cdb[0] != 0x12 && cdb[0] != 0x03 && c.attention.Some? then
      RefuseCdrom(c.(attention := None), c.attention.value)
    else if CdromLength(cdb[0]) == 0 then RefuseCdrom(c, UNSUPPORTED_OPCODE)
    else if |cdb| < CdromLength(cdb[0]) then RefuseCdrom(c, INVALID_CDB_FIELD)
    else CdromCommand(c, cdb)
  }

  /** MODE SELECT takes a block size that is supported and divides the medium. */
  function CompleteModeSelect(c: Cdrom, cdb: seq<Byte>, data: seq<Byte>): (Cdrom, Status) {
    var refused := (c.(sense := INVALID_PARAMETER_LIST), CheckCondition);
    if |cdb| < 6 || cdb[4] != |data| || |data| != 12 || data[3] != 8 then refused
    else
      var bytes := WordAt([0] + data[9..12], 0);
      if !BlockSizeSupported(bytes) || (c.mediumBytes.Some? && c.mediumBytes.value % bytes != 0) then refused
      else (c.(blockBytes := bytes), Good)
  }

  function Inserted(c: Cdrom, size: nat, origin: Origin): Cdrom {
    c.(mediumBytes := Some(size), started := true,
       attention := if origin == External then Some(MEDIUM_CHANGED) else c.attention)
  }

  function Removed(c: Cdrom, origin: Origin): Cdrom {
    c.(mediumBytes := None, started := false,
       attention := if origin == External then Some(MEDIUM_CHANGED) else c.attention)
  }

  // Any target

  function Execute(t: Target, cdb: seq<Byte>): (Target, Plan)
    requires TargetSound(t)
  {
    match t
    case DiskTarget(d) => var (after, plan) := ExecuteDisk(d, cdb); (DiskTarget(after), plan)
    case CdromTarget(c) => var (after, plan) := ExecuteCdrom(c, cdb); (CdromTarget(after), plan)
  }

  function CompleteStorage(t: Target, succeeded: bool): (Target, Status) {
    if succeeded then (t, Good)
    else
      (match t
       case DiskTarget(d) => DiskTarget(d.(sense := HOST_IO_ERROR))
       case CdromTarget(c) => CdromTarget(c.(sense := HOST_IO_ERROR)),
       CheckCondition)
  }

  function CompleteDataOut(t: Target, cdb: seq<Byte>, data: seq<Byte>): (Target, Status) {
    match t
    case DiskTarget(_) => (t, CheckCondition)
    case CdromTarget(c) =>
      if cdb != [] && cdb[0] == 0x15 then
        var (after, status) := CompleteModeSelect(c, cdb, data);
        (CdromTarget(after), status)
      else (CdromTarget(c.(sense := INVALID_CDB_FIELD)), CheckCondition)
  }

  /** The medium a target believes to have. */
  function BelievedSize(t: Target): Option<nat> {
    match t
    case DiskTarget(d) => Some(d.blockCount * DISK_BLOCK)
    case CdromTarget(c) => c.mediumBytes
  }

  function AcceptsSnapshot(t: Target, state: Target): bool {
    match (t, state)
    case (DiskTarget(d), DiskTarget(s)) => s.blockCount == d.blockCount
    case (CdromTarget(c), CdromTarget(s)) =>
      && BlockSizeSupported(s.blockBytes)
      && (s.mediumBytes.Some? ==> c.mediumBytes == s.mediumBytes && s.mediumBytes.value % s.blockBytes == 0)
    case _ => false
  }

  // What the targets keep

  /** A storage plan stays inside the medium, and only a drive with a medium has one. */
  predicate PlanFits(t: Target, plan: Plan) {
    match plan
    case ReadStorage(offset, count) =>
      0 < count && BelievedSize(t).Some? && offset + count <= BelievedSize(t).value
    case WriteStorage(offset, count) =>
      0 < count && t.DiskTarget? && offset + count <= t.disk.blockCount * DISK_BLOCK
    case ReceiveDataOut(count) => count < 0x100 && t.CdromTarget?
    case EjectMedium => t.CdromTarget? && t.cdrom.mediumBytes.Some?
    case _ => true
  }

  lemma CdromReadFits(c: Cdrom, lba: nat, count: nat)
    requires BlockSizeSupported(c.blockBytes)
    ensures PlanFits(CdromTarget(CdromRead(c, lba, count).0), CdromRead(c, lba, count).1)
  {
    if c.blockBytes == 512 {
    } else {
    }
  }

  /** Executing a command keeps the target sound, does not touch its medium, and plans inside it. */
  lemma ExecuteFits(t: Target, cdb: seq<Byte>)
    requires TargetSound(t)
    ensures var (after, plan) := Execute(t, cdb);
            TargetSound(after) && BelievedSize(after) == BelievedSize(t) && PlanFits(after, plan)
            && (after.DiskTarget? <==> t.DiskTarget?)
  {
    hide Truncated, FixedSense, Inquiry, ModeSense, Capacity, WordAt, Lba6, Count6, Count10, MediumValid;
    hide CdromRead, RequestEjection, StartStop, PreventAllow, ReadToc, CdromCapacity, ReadDefects, DiskTransfer;
    if t.DiskTarget? {
      DiskFits(t.disk, cdb);
    } else {
      CdromFits(t.cdrom, cdb);
    }
  }

  lemma DiskFits(d: Disk, cdb: seq<Byte>)
    requires 0 < d.blockCount
    ensures var (after, plan) := ExecuteDisk(d, cdb);
            after.blockCount == d.blockCount && PlanFits(DiskTarget(after), plan)
  {
    hide Truncated, FixedSense, Inquiry, ModeSense, Capacity, WordAt, Lba6, Count6, Count10;
  }

  lemma CdromFits(c: Cdrom, cdb: seq<Byte>)
    requires BlockSizeSupported(c.blockBytes)
    ensures var (after, plan) := ExecuteCdrom(c, cdb);
            after.mediumBytes == c.mediumBytes && after.blockBytes == c.blockBytes
            && PlanFits(CdromTarget(after), plan)
  {
    if cdb != [] && |cdb| >= CdromLength(cdb[0]) > 0 && (cdb[0] == 0x12 || cdb[0] == 0x03 || c.attention.None?) {
      CommandFits(c, cdb);
    }
    hide CdromCommand, WordAt, BlockSizeSupported;
  }

  lemma CommandFits(c: Cdrom, cdb: seq<Byte>)
    requires BlockSizeSupported(c.blockBytes)
    requires cdb != [] && |cdb| >= CdromLength(cdb[0]) > 0
    ensures var (after, plan) := CdromCommand(c, cdb);
            after.mediumBytes == c.mediumBytes && after.blockBytes == c.blockBytes
            && PlanFits(CdromTarget(after), plan)
  {
    if cdb[0] == 0x08 {
      CdromReadFits(c, Lba6(cdb), Count6(cdb));
    } else if cdb[0] == 0x28 {
      CdromReadFits(c, WordAt(cdb, 2), Count10(cdb));
    }
    hide Truncated, FixedSense, Inquiry, ModeSense, Capacity, WordAt, Lba6, Count6, Count10, BlockSizeSupported;
  }

  /** Taking a parameter list keeps the target sound and its medium, and a new block size divides the medium. */
  lemma DataOutFits(t: Target, cdb: seq<Byte>, data: seq<Byte>)
    requires TargetSound(t)
    ensures var (after, status) := CompleteDataOut(t, cdb, data);
            && TargetSound(after) && BelievedSize(after) == BelievedSize(t)
            && (after.DiskTarget? <==> t.DiskTarget?)
            && (status == CheckCondition && t.CdromTarget? ==> after.cdrom.blockBytes == t.cdrom.blockBytes)
  {
    hide WordAt, MediumValid;
  }

  /** Every sound target accepts its own snapshot. */
  lemma AcceptsItself(t: Target)
    requires TargetSound(t)
    ensures AcceptsSnapshot(t, t)
  {
    if t.CdromTarget? && t.cdrom.mediumBytes.Some? {
      BlocksDivide(t.cdrom.mediumBytes.value);
    }
  }

  /** A medium is whole in blocks of either size. */
  lemma BlocksDivide(bytes: nat)
    requires MediumValid(bytes)
    ensures bytes % 512 == 0 && bytes % 2048 == 0
  {
    var k := bytes / 2048;
    assert bytes == 512 * (4 * k);
  }
}
