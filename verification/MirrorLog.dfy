/** The plain log a client mirror stands for: the sequence of its range replacements and
    snapshot installs, and what survives of them. `MemStore` is proved against it. */
module MirrorLog {
  import opened Felts
  import opened Mpt

  const MAX_BLOCK: nat := 0xFFFF_FFFF_FFFF_FFFF

  /** Block numbers are 64 bits wide. */
  type Block = b: nat | b <= MAX_BLOCK

  datatype Range = Inclusive(from: Block, to: Block) | Above(floor: Block)

  predicate Contains(range: Range, b: Block) {
    match range
    case Inclusive(from, to) => from <= b <= to
    case Above(floor) => b > floor
  }

  /** The range as inclusive bounds; the addition saturates. */
  function Bounds(range: Range): (Block, Block) {
    match range
    case Inclusive(from, to) => (from, to)
    case Above(floor) => (if floor == MAX_BLOCK then MAX_BLOCK else floor + 1, MAX_BLOCK)
  }

  predicate InBounds(range: Range, b: Block) {
    Bounds(range).0 <= b <= Bounds(range).1
  }

  /** The two readings of a range agree on every block unless the floor is the last number. */
  lemma BoundsAgree(range: Range)
    ensures (forall b: Block :: InBounds(range, b) <==> Contains(range, b)) <==> range != Above(MAX_BLOCK)
  {
    if range == Above(MAX_BLOCK) { assert InBounds(range, MAX_BLOCK) && !Contains(range, MAX_BLOCK); }
  }

  /** A block of a feed file: its header, its writes, the indices of its events, and in head
      files whether it is final on L1. */
  datatype BlockLine = BlockLine(number: Block, hash: Felt, parent: Felt, diffs: seq<(Felt, Felt)>, events: seq<nat>, fin: Option<bool>)

  /** A snapshot slot: key, value and last write block. */
  datatype SnapSlot = SnapSlot(k: Felt, v: Felt, w: Block)

  datatype Op = Install(slots: seq<SnapSlot>) | Replace(range: Range, lines: seq<BlockLine>)

  // ---------------------------------------------------------- what survives

  function LastDiff(diffs: seq<(Felt, Felt)>, slot: Felt): Option<Felt> {
    if diffs == [] then None
    else
      var d := diffs[|diffs| - 1];
      if d.0 == slot then Some(d.1) else LastDiff(diffs[..|diffs| - 1], slot)
  }

  /** The value the lines write to `slot` in block `b`; the last write wins. */
  function LineWrite(lines: seq<BlockLine>, slot: Felt, b: Block): Option<Felt> {
    if lines == [] then None
    else
      var line := lines[|lines| - 1];
      if line.number == b && LastDiff(line.diffs, slot).Some? then LastDiff(line.diffs, slot)
      else LineWrite(lines[..|lines| - 1], slot, b)
  }

  lemma {:induction false} NoLineBelow(lines: seq<BlockLine>, slot: Felt, b: Block)
    requires forall i :: 0 <= i < |lines| ==> lines[i].number != b
    ensures LineWrite(lines, slot, b).None?
  {
    if lines != [] { NoLineBelow(lines[..|lines| - 1], slot, b); }
  }

  function SnapWrite(slots: seq<SnapSlot>, slot: Felt, b: Block): Option<Felt> {
    if slots == [] then None
    else
      var s := slots[|slots| - 1];
      if s.k == slot && s.w == b then Some(s.v) else SnapWrite(slots[..|slots| - 1], slot, b)
  }

  /** The write to `slot` in block `b` that survives the whole log. */
  function Surviving(ops: seq<Op>, slot: Felt, b: Block): Option<Felt> {
    if ops == [] then None
    else After(ops[|ops| - 1], Surviving(ops[..|ops| - 1], slot, b), slot, b)
  }

  /** What one operation makes of a surviving write. */
  function After(op: Op, was: Option<Felt>, slot: Felt, b: Block): Option<Felt> {
    match op
    case Install(slots) => if SnapWrite(slots, slot, b).Some? then SnapWrite(slots, slot, b) else was
    case Replace(range, lines) =>
      if LineWrite(lines, slot, b).Some? then LineWrite(lines, slot, b)
      else if Contains(range, b) then None
      else was
  }

  function LineHash(lines: seq<BlockLine>, n: Block): Option<Felt> {
    if lines == [] then None
    else if lines[|lines| - 1].number == n then Some(lines[|lines| - 1].hash)
    else LineHash(lines[..|lines| - 1], n)
  }

  /** The hash of the surviving block `n`. */
  function SurvivingHash(ops: seq<Op>, n: Block): Option<Felt> {
    if ops == [] then None
    else HashAfter(ops[|ops| - 1], SurvivingHash(ops[..|ops| - 1], n), n)
  }

  function HashAfter(op: Op, was: Option<Felt>, n: Block): Option<Felt> {
    match op
    case Install(_) => was
    case Replace(range, lines) =>
      if LineHash(lines, n).Some? then LineHash(lines, n)
      else if InBounds(range, n) then None
      else was
  }

  // ------------------------------------------------------------ as-of reads

  /** The latest surviving write to `slot` at or below `bound`; `(0, 0)` when there is none. */
  function Read(ops: seq<Op>, slot: Felt, bound: Block): (Felt, Block) {
    match Surviving(ops, slot, bound)
    case Some(v) => (v, bound)
    case None => if bound == 0 then (0, 0) else Read(ops, slot, bound - 1)
  }

  lemma {:induction false} ReadMeans(ops: seq<Op>, slot: Felt, bound: Block)
    ensures || (Read(ops, slot, bound).1 <= bound
                && Surviving(ops, slot, Read(ops, slot, bound).1) == Some(Read(ops, slot, bound).0)
                && forall b: Block :: Read(ops, slot, bound).1 < b <= bound ==> Surviving(ops, slot, b).None?)
            || (Read(ops, slot, bound) == (0, 0) && forall b: Block :: b <= bound ==> Surviving(ops, slot, b).None?)
  {
    if Surviving(ops, slot, bound).None? && bound > 0 { ReadMeans(ops, slot, bound - 1); }
  }

  /** Whatever write is the latest, it is the one read. */
  lemma {:induction false} ReadLatest(ops: seq<Op>, slot: Felt, bound: Block, b: Block, v: Felt)
    requires b <= bound && Surviving(ops, slot, b) == Some(v)
    requires forall c: Block :: b < c <= bound ==> Surviving(ops, slot, c).None?
    ensures Read(ops, slot, bound) == (v, b)
    decreases bound
  {
    if b < bound { ReadLatest(ops, slot, bound - 1, b, v); }
  }

  lemma {:induction false} ReadNothing(ops: seq<Op>, slot: Felt, bound: Block)
    requires forall c: Block :: c <= bound ==> Surviving(ops, slot, c).None?
    ensures Read(ops, slot, bound) == (0, 0)
  {
    if bound > 0 { ReadNothing(ops, slot, bound - 1); }
  }

  /** The complete slot set at `bound`: every slot whose latest write is not zero. */
  ghost predicate IsSlotSet(ops: seq<Op>, bound: Block, m: map<Felt, Felt>) {
    forall slot :: (slot in m <==> Read(ops, slot, bound).0 != 0) && (slot in m ==> m[slot] == Read(ops, slot, bound).0)
  }

  ghost function SlotSet(ops: seq<Op>, bound: Block): (m: map<Felt, Felt>)
    ensures IsSlotSet(ops, bound, m)
  {
    map slot: Felt | 0 <= slot < PRIME && Read(ops, slot, bound).0 != 0 :: Read(ops, slot, bound).0
  }
}
