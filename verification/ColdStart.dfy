/** Snapshot cold start: the snapshot wire records (`crates/feed/src/snapshot.rs`), the
    snapshot the cutter builds (`crates/indexerd/src/cutter.rs`), and the proof that a mirror
    started from it agrees with one replayed from every epoch. */
module ColdStart {
  import opened Felts
  import opened Mpt
  import opened MirrorLog

  // ------------------------------------------------------- the wire records

  datatype Line = SlotLine(slot: SnapSlot) | EndLine(slots: nat) | Unknown

  datatype SnapshotError = AfterEnd | ZeroValue | AboveBasis | OutOfOrder | UnknownRecord | NoEnd | WrongCount

  datatype Parsed = Slots(slots: seq<SnapSlot>) | Malformed(error: SnapshotError)

  function Encode(slots: seq<SnapSlot>): seq<Line> {
    seq(|slots|, i requires 0 <= i < |slots| => SlotLine(slots[i])) + [EndLine(|slots|)]
  }

  /** What a snapshot at `basis` may list: non-zero slots, written at or below the basis, in
      strictly ascending key order. */
  ghost predicate WellFormed(slots: seq<SnapSlot>, basis: Block) {
    && (forall i :: 0 <= i < |slots| ==> slots[i].v != 0 && slots[i].w <= basis)
    && (forall i, j :: 0 <= i < j < |slots| ==> slots[i].k < slots[j].k)
  }

  /** The lines list `slots`, then at least one end record, the last with the right count. */
  ghost predicate Spells(lines: seq<Line>, slots: seq<SnapSlot>) {
    && |lines| > |slots|
    && (forall i :: 0 <= i < |slots| ==> lines[i] == SlotLine(slots[i]))
    && (forall i :: |slots| <= i < |lines| ==> lines[i].EndLine?)
    && lines[|lines| - 1] == EndLine(|slots|)
  }

  /** The first of `n` lines list `slots`, and end records follow. */
  ghost predicate ListedSoFar(lines: seq<Line>, n: nat, slots: seq<SnapSlot>, basis: Block)
    requires n <= |lines|
  {
    && |slots| <= n && WellFormed(slots, basis)
    && (forall i :: 0 <= i < |slots| ==> lines[i] == SlotLine(slots[i]))
    && (forall i :: |slots| <= i < n ==> lines[i].EndLine?)
  }

  /** Progress of the parser after `n` lines. */
  ghost predicate ParsedSoFar(lines: seq<Line>, n: nat, slots: seq<SnapSlot>, footer: Option<nat>, basis: Block)
    requires n <= |lines|
  {
    match footer
    case None => n == |slots| && ListedSoFar(lines, n, slots, basis)
    case Some(count) => n > |slots| && lines[n - 1] == EndLine(count) && ListedSoFar(lines, n, slots, basis)
  }

  lemma SlotTaken(lines: seq<Line>, n: nat, slots: seq<SnapSlot>, footer: Option<nat>, basis: Block)
    requires n < |lines| && lines[n].SlotLine? && ParsedSoFar(lines, n, slots, footer, basis)
    requires SlotFault(slots, footer, lines[n].slot, basis).None?
    ensures ParsedSoFar(lines, n + 1, slots + [lines[n].slot], footer, basis)
  {
  }

  lemma EndTaken(lines: seq<Line>, n: nat, slots: seq<SnapSlot>, footer: Option<nat>, basis: Block)
    requires n < |lines| && lines[n].EndLine? && ParsedSoFar(lines, n, slots, footer, basis)
    ensures ParsedSoFar(lines, n + 1, slots, Some(lines[n].slots), basis)
  {
  }

  /** No well-formed list is spelled by the lines. */
  ghost predicate Unspellable(lines: seq<Line>, basis: Block) {
    forall slots :: Spells(lines, slots) ==> !WellFormed(slots, basis)
  }

  function SlotCount(lines: seq<Line>): nat {
    if lines == [] then 0 else SlotCount(lines[..|lines| - 1]) + if lines[|lines| - 1].SlotLine? then 1 else 0
  }

  /** The line that a refusal is about. */
  ghost predicate Faulty(lines: seq<Line>, basis: Block, error: SnapshotError, n: nat)
    requires n < |lines|
  {
    match error
    case AfterEnd => n > 0 && lines[n - 1].EndLine? && lines[n].SlotLine?
    case ZeroValue => lines[n].SlotLine? && lines[n].slot.v == 0
    case AboveBasis => lines[n].SlotLine? && lines[n].slot.w > basis
    case OutOfOrder => n > 0 && lines[n - 1].SlotLine? && lines[n].SlotLine? && lines[n - 1].slot.k >= lines[n].slot.k
    case UnknownRecord => lines[n].Unknown?
    case NoEnd => false
    case WrongCount => n == |lines| - 1 && lines[n].EndLine? && lines[n].slots != SlotCount(lines)
  }

  /** The checks of a slot record, in the source's order. */
  function SlotFault(slots: seq<SnapSlot>, footer: Option<nat>, slot: SnapSlot, basis: Block): Option<SnapshotError> {
    if footer.Some? then Some(AfterEnd)
    else if slot.v == 0 then Some(ZeroValue)
    else if slot.w > basis then Some(AboveBasis)
    else if slots != [] && slots[|slots| - 1].k >= slot.k then Some(OutOfOrder)
    else None
  }

  lemma SlotRefused(lines: seq<Line>, n: nat, slots: seq<SnapSlot>, footer: Option<nat>, basis: Block)
    requires n < |lines| && lines[n].SlotLine? && ParsedSoFar(lines, n, slots, footer, basis)
    requires SlotFault(slots, footer, lines[n].slot, basis).Some?
    ensures Unspellable(lines, basis) && Faulty(lines, basis, SlotFault(slots, footer, lines[n].slot, basis).value, n)
  {
    match SlotFault(slots, footer, lines[n].slot, basis).value
    case AfterEnd => EndThenSlot(lines, n, basis);
    case OutOfOrder => BadOrder(lines, n, basis);
    case _ => BadSlot(lines, n, basis);
  }

  /** The record loop of `parse`: it accepts exactly the spelled, well-formed lists. */
  method Parse(lines: seq<Line>, basis: Block) returns (r: Parsed)
    ensures r.Slots? ==> WellFormed(r.slots, basis) && Spells(lines, r.slots)
    ensures r.Malformed? ==> Unspellable(lines, basis)
    ensures r.Malformed? ==> if r.error.NoEnd? then forall i :: 0 <= i < |lines| ==> lines[i].SlotLine? else exists n :: 0 <= n < |lines| && Faulty(lines, basis, r.error, n)
  {
    var slots: seq<SnapSlot> := [];
    var footer: Option<nat> := None;
    for n := 0 to |lines|
      invariant ParsedSoFar(lines, n, slots, footer, basis) && SlotCount(lines[..n]) == |slots|
    {
      assert lines[..n + 1][..n] == lines[..n] && lines[..n + 1][n] == lines[n];
      match lines[n]
      case SlotLine(slot) =>
        var fault := SlotFault(slots, footer, slot, basis);
        if fault.Some? {
          SlotRefused(lines, n, slots, footer, basis);
          return Malformed(fault.value);
        }
        SlotTaken(lines, n, slots, footer, basis);
        slots := slots + [slot];
      case EndLine(count) =>
        EndTaken(lines, n, slots, footer, basis);
        footer := Some(count);
      case Unknown =>
        UnknownLine(lines, n, basis);
        assert Faulty(lines, basis, UnknownRecord, n);
        return Malformed(UnknownRecord);
    }
    assert lines[..|lines|] == lines;
    r := CheckFooter(lines, slots, footer, basis);
  }

  /** The checks after the last line. */
  method CheckFooter(lines: seq<Line>, slots: seq<SnapSlot>, footer: Option<nat>, basis: Block) returns (r: Parsed)
    requires ParsedSoFar(lines, |lines|, slots, footer, basis) && SlotCount(lines) == |slots|
    ensures r.Slots? ==> WellFormed(r.slots, basis) && Spells(lines, r.slots)
    ensures r.Malformed? ==> Unspellable(lines, basis)
    ensures r.Malformed? ==> if r.error.NoEnd? then forall i :: 0 <= i < |lines| ==> lines[i].SlotLine? else exists n :: 0 <= n < |lines| && Faulty(lines, basis, r.error, n)
  {
    SpelledOnce(lines, slots, footer, basis);
    if footer.None? {
      return Malformed(NoEnd);
    }
    if footer.value != |slots| {
      assert Faulty(lines, basis, WrongCount, |lines| - 1);
      return Malformed(WrongCount);
    }
    r := Slots(slots);
  }

  lemma SpelledLine(lines: seq<Line>, s: seq<SnapSlot>, n: nat)
    requires n < |lines|
    ensures Spells(lines, s) ==> if n < |s| then lines[n] == SlotLine(s[n]) else lines[n].EndLine?
  {
  }

  lemma UnknownLine(lines: seq<Line>, n: nat, basis: Block)
    requires n < |lines| && lines[n].Unknown?
    ensures Unspellable(lines, basis)
  {
    forall s ensures Spells(lines, s) ==> !WellFormed(s, basis) { SpelledLine(lines, s, n); }
  }

  lemma EndThenSlot(lines: seq<Line>, n: nat, basis: Block)
    requires 0 < n < |lines| && lines[n - 1].EndLine? && lines[n].SlotLine?
    ensures Unspellable(lines, basis)
  {
    forall s ensures Spells(lines, s) ==> !WellFormed(s, basis) {
      SpelledLine(lines, s, n - 1);
      SpelledLine(lines, s, n);
    }
  }

  lemma BadSlot(lines: seq<Line>, n: nat, basis: Block)
    requires n < |lines| && lines[n].SlotLine? && (lines[n].slot.v == 0 || lines[n].slot.w > basis)
    ensures Unspellable(lines, basis)
  {
    forall s ensures Spells(lines, s) ==> !WellFormed(s, basis) { SpelledLine(lines, s, n); }
  }

  lemma BadOrder(lines: seq<Line>, n: nat, basis: Block)
    requires 0 < n < |lines| && lines[n - 1].SlotLine? && lines[n].SlotLine? && lines[n - 1].slot.k >= lines[n].slot.k
    ensures Unspellable(lines, basis)
  {
    forall s ensures Spells(lines, s) ==> !WellFormed(s, basis) {
      SpelledLine(lines, s, n - 1);
      SpelledLine(lines, s, n);
    }
  }

  /** At the end of the lines there is one list left, and its count decides. */
  lemma SpelledOnce(lines: seq<Line>, slots: seq<SnapSlot>, footer: Option<nat>, basis: Block)
    requires ParsedSoFar(lines, |lines|, slots, footer, basis)
    ensures if footer == Some(|slots|) then Spells(lines, slots) else Unspellable(lines, basis)
  {
    forall s ensures Spells(lines, s) ==> |s| == |slots| {
      if |s| < |lines| { SpelledLine(lines, s, |s|); }
      if |slots| < |lines| { SpelledLine(lines, s, |slots|); }
    }
  }

  lemma SpelledUnique(lines: seq<Line>, a: seq<SnapSlot>, b: seq<SnapSlot>)
    requires Spells(lines, a) && Spells(lines, b)
    ensures a == b
  {
    SpelledLine(lines, a, |b|);
    SpelledLine(lines, b, |a|);
    SpelledLine(lines, a, |a|);
    SpelledLine(lines, b, |b|);
    forall i | 0 <= i < |a| && |a| == |b| ensures a[i] == b[i] { assert lines[i] == SlotLine(a[i]) && lines[i] == SlotLine(b[i]); }
  }

  /** More than one end record is accepted, and the last one counts. */
  lemma TwoEndRecords(basis: Block)
    ensures var lines := [EndLine(5), EndLine(0)]; Spells(lines, []) && Spelled(lines, basis) == Some([])
  {
    var lines: seq<Line> := [EndLine(5), EndLine(0)];
    assert Spells(lines, []) && WellFormed([], basis);
    SpelledUnique(lines, Spelled(lines, basis).value, []);
  }

  /** The one well-formed list the lines spell, if any. */
  ghost function Spelled(lines: seq<Line>, basis: Block): (r: Option<seq<SnapSlot>>)
    ensures r.Some? ==> Spells(lines, r.value) && WellFormed(r.value, basis)
    ensures r.None? ==> Unspellable(lines, basis)
  {
    if slots: seq<SnapSlot> :| Spells(lines, slots) && WellFormed(slots, basis) then Some(slots) else None
  }

  /** What the cutter encodes is what the client parses. */
  method EncodeThenParse(slots: seq<SnapSlot>, basis: Block) returns (r: Parsed)
    ensures WellFormed(slots, basis) ==> r == Slots(slots)
    ensures !WellFormed(slots, basis) ==> r.Malformed?
  {
    assert Spells(Encode(slots), slots);
    r := Parse(Encode(slots), basis);
    if r.Slots? { SpelledUnique(Encode(slots), r.slots, slots); }
  }

  // ----------------------------------------------------- the cutter's snapshot

  /** The snapshot of a log at `basis`: each slot whose latest write at or below the basis is
      not zero, with that value and write block. */
  ghost predicate SnapshotOf(slots: seq<SnapSlot>, db: seq<Op>, basis: Block) {
    && (forall i, j :: 0 <= i < j < |slots| ==> slots[i].k < slots[j].k)
    && (forall i :: 0 <= i < |slots| ==> slots[i].v != 0 && Read(db, slots[i].k, basis) == (slots[i].v, slots[i].w))
    && (forall k: Felt :: Read(db, k, basis).0 != 0 ==> exists i :: 0 <= i < |slots| && slots[i].k == k)
  }

  /** The cutter's snapshot always passes the client's checks. */
  lemma SnapshotWellFormed(slots: seq<SnapSlot>, db: seq<Op>, basis: Block)
    requires SnapshotOf(slots, db, basis)
    ensures WellFormed(slots, basis)
  {
    forall i | 0 <= i < |slots| ensures slots[i].w <= basis { ReadMeans(db, slots[i].k, basis); }
  }

  lemma {:induction false} SnapWriteOf(slots: seq<SnapSlot>, k: Felt, b: Block)
    requires forall i, j :: 0 <= i < j < |slots| ==> slots[i].k < slots[j].k
    ensures SnapWrite(slots, k, b).Some? <==> exists i :: 0 <= i < |slots| && slots[i].k == k && slots[i].w == b
    ensures forall i :: 0 <= i < |slots| && slots[i].k == k && slots[i].w == b ==> SnapWrite(slots, k, b) == Some(slots[i].v)
  {
    if slots != [] {
      var init := slots[..|slots| - 1];
      SnapWriteOf(init, k, b);
      forall i | 0 <= i < |slots| - 1 ensures init[i] == slots[i] {}
    }
  }

  // ------------------------------------------------------------ the agreement

  /** The two logs read alike at `bound`: equal values, and the same write block for every
      slot that is not zero. */
  ghost predicate SameRead(full: seq<Op>, snap: seq<Op>, slot: Felt, bound: Block) {
    && Read(full, slot, bound).0 == Read(snap, slot, bound).0
    && (Read(full, slot, bound).0 != 0 ==> Read(full, slot, bound).1 == Read(snap, slot, bound).1)
  }

  /** The logs hold the same writes above `basis` and read alike at it. */
  ghost predicate Agree(full: seq<Op>, snap: seq<Op>, basis: Block) {
    && (forall slot, b: Block :: b > basis ==> Surviving(full, slot, b) == Surviving(snap, slot, b))
    && (forall slot :: SameRead(full, snap, slot, basis))
  }

  lemma {:induction false} AgreeReads(full: seq<Op>, snap: seq<Op>, basis: Block, slot: Felt, bound: Block)
    requires Agree(full, snap, basis) && bound >= basis
    ensures SameRead(full, snap, slot, bound)
  {
    if bound > basis { AgreeReads(full, snap, basis, slot, bound - 1); }
  }

  /** The operation neither clears nor writes at or below `basis`. */
  ghost predicate TouchesAbove(op: Op, basis: Block) {
    match op
    case Install(slots) => forall i :: 0 <= i < |slots| ==> slots[i].w > basis
    case Replace(range, lines) =>
      && (forall b: Block :: Contains(range, b) ==> b > basis)
      && (forall i :: 0 <= i < |lines| ==> lines[i].number > basis)
  }

  lemma {:induction false} NoSlotBelow(slots: seq<SnapSlot>, slot: Felt, b: Block)
    requires forall i :: 0 <= i < |slots| ==> slots[i].w != b
    ensures SnapWrite(slots, slot, b).None?
  {
    if slots != [] { NoSlotBelow(slots[..|slots| - 1], slot, b); }
  }

  /** Below the basis such an operation changes no surviving write. */
  lemma KeepsBelow(ops: seq<Op>, op: Op, basis: Block, slot: Felt, b: Block)
    requires TouchesAbove(op, basis) && b <= basis
    ensures Surviving(ops + [op], slot, b) == Surviving(ops, slot, b)
  {
    assert (ops + [op])[..|ops|] == ops;
    match op
    case Install(slots) => NoSlotBelow(slots, slot, b);
    case Replace(_, lines) => NoLineBelow(lines, slot, b);
  }

  lemma {:induction false} ReadFrame(ops1: seq<Op>, ops2: seq<Op>, slot: Felt, bound: Block)
    requires forall b: Block :: b <= bound ==> Surviving(ops1, slot, b) == Surviving(ops2, slot, b)
    ensures Read(ops1, slot, bound) == Read(ops2, slot, bound)
  {
    if bound > 0 && Surviving(ops1, slot, bound).None? { ReadFrame(ops1, ops2, slot, bound - 1); }
  }

  lemma AgreeStep(full: seq<Op>, snap: seq<Op>, op: Op, basis: Block)
    requires Agree(full, snap, basis) && TouchesAbove(op, basis)
    ensures Agree(full + [op], snap + [op], basis)
  {
    assert (full + [op])[..|full|] == full && (snap + [op])[..|snap|] == snap;
    forall slot ensures SameRead(full + [op], snap + [op], slot, basis) {
      forall b: Block | b <= basis
        ensures Surviving(full + [op], slot, b) == Surviving(full, slot, b) && Surviving(snap + [op], slot, b) == Surviving(snap, slot, b)
      {
        KeepsBelow(full, op, basis, slot, b);
        KeepsBelow(snap, op, basis, slot, b);
      }
      ReadFrame(full + [op], full, slot, basis);
      ReadFrame(snap + [op], snap, slot, basis);
      assert SameRead(full, snap, slot, basis);
    }
  }

  /** Whatever epochs and tails follow above the basis, the two mirrors keep agreeing. */
  lemma {:induction false} AgreeAlways(full: seq<Op>, snap: seq<Op>, later: seq<Op>, basis: Block)
    requires Agree(full, snap, basis) && forall i :: 0 <= i < |later| ==> TouchesAbove(later[i], basis)
    ensures Agree(full + later, snap + later, basis)
  {
    if later == [] {
      assert full + later == full && snap + later == snap;
    } else {
      var init, op := later[..|later| - 1], later[|later| - 1];
      AgreeAlways(full, snap, init, basis);
      AgreeStep(full + init, snap + init, op, basis);
      assert full + later == (full + init) + [op] && snap + later == (snap + init) + [op];
    }
  }

  /** The snapshot alone reads like the log it was taken from. */
  lemma SnapshotReads(slots: seq<SnapSlot>, db: seq<Op>, basis: Block, slot: Felt)
    requires SnapshotOf(slots, db, basis)
    ensures Read([Install(slots)], slot, basis) == if Read(db, slot, basis).0 != 0 then Read(db, slot, basis) else (0, 0)
  {
    var snap := [Install(slots)];
    var (v, w) := Read(db, slot, basis);
    forall b: Block ensures Surviving(snap, slot, b) == SnapWrite(slots, slot, b) { assert snap[..0] == []; }
    if v == 0 {
      forall b: Block ensures SnapWrite(slots, slot, b).None? { SnapWriteOf(slots, slot, b); }
      ReadNothing(snap, slot, basis);
    } else {
      ReadMeans(db, slot, basis);
      var i :| 0 <= i < |slots| && slots[i].k == slot;
      forall b: Block ensures SnapWrite(slots, slot, b) == if b == w then Some(v) else None { OnlySlot(slots, slot, i, b); }
      ReadLatest(snap, slot, basis, w, v);
    }
  }

  lemma OnlySlot(slots: seq<SnapSlot>, slot: Felt, i: nat, b: Block)
    requires forall i, j :: 0 <= i < j < |slots| ==> slots[i].k < slots[j].k
    requires i < |slots| && slots[i].k == slot
    ensures SnapWrite(slots, slot, b) == if b == slots[i].w then Some(slots[i].v) else None
  {
    SnapWriteOf(slots, slot, b);
    forall j | 0 <= j < |slots| && slots[j].k == slot ensures j == i { assert !(i < j) && !(j < i); }
  }

  // ------------------------------------------------------------ epoch replay

  /** An epoch file: its range and its block lines. */
  datatype Epoch = Epoch(from: Block, to: Block, lines: seq<BlockLine>)

  /** The structural checks of an epoch file: every line inside the range. */
  ghost predicate InRange(e: Epoch) {
    forall i :: 0 <= i < |e.lines| ==> e.from <= e.lines[i].number <= e.to
  }

  /** Epoch ranges follow one another without gap or overlap. */
  ghost predicate Tile(epochs: seq<Epoch>) {
    && (forall i :: 0 <= i < |epochs| ==> epochs[i].from <= epochs[i].to && InRange(epochs[i]))
    && (forall i :: 0 < i < |epochs| ==> epochs[i].from == epochs[i - 1].to + 1)
  }

  function Replay(epochs: seq<Epoch>): seq<Op> {
    if epochs == [] then []
    else
      var e := epochs[|epochs| - 1];
      Replay(epochs[..|epochs| - 1]) + [Replace(Inclusive(e.from, e.to), e.lines)]
  }

  lemma {:induction false} TileOrder(epochs: seq<Epoch>, i: nat, j: nat)
    requires Tile(epochs) && i < j < |epochs|
    ensures epochs[i].to < epochs[j].from
  {
    if i < j - 1 { TileOrder(epochs, i, j - 1); }
  }

  /** What the last epoch of a replay makes of the replay before it. */
  lemma ReplayLast(epochs: seq<Epoch>, slot: Felt, b: Block)
    requires epochs != []
    ensures var n := |epochs| - 1; var e := epochs[n];
            Surviving(Replay(epochs), slot, b) == After(Replace(Inclusive(e.from, e.to), e.lines), Surviving(Replay(epochs[..n]), slot, b), slot, b)
  {
    var init := Replay(epochs[..|epochs| - 1]);
    assert Replay(epochs)[..|init|] == init;
  }

  /** A replay leaves nothing above its last epoch. */
  lemma {:induction false} ReplayEnds(epochs: seq<Epoch>, slot: Felt, b: Block)
    requires Tile(epochs) && (epochs != [] ==> b > epochs[|epochs| - 1].to)
    ensures Surviving(Replay(epochs), slot, b).None?
  {
    if epochs != [] {
      var init, e := epochs[..|epochs| - 1], epochs[|epochs| - 1];
      ReplayLast(epochs, slot, b);
      if init != [] { assert epochs[|init|].from == epochs[|init| - 1].to + 1; }
      ReplayEnds(init, slot, b);
      NoLineBelow(e.lines, slot, b);
    }
  }

  /** Replaying all epochs is replaying the first ones and then the rest. */
  lemma {:induction false} ReplaySplit(epochs: seq<Epoch>, n: nat)
    requires n <= |epochs|
    ensures Replay(epochs) == Replay(epochs[..n]) + Replay(epochs[n..])
    decreases |epochs|
  {
    if n == |epochs| {
      assert epochs[..n] == epochs && epochs[n..] == [];
    } else {
      var init := epochs[..|epochs| - 1];
      ReplaySplit(init, n);
      assert init[..n] == epochs[..n] && init[n..] == epochs[n..][..|epochs[n..]| - 1];
    }
  }

  lemma {:induction false} ReplayAbove(epochs: seq<Epoch>, basis: Block, i: nat)
    requires forall j :: 0 <= j < |epochs| ==> epochs[j].from > basis && InRange(epochs[j])
    requires i < |Replay(epochs)|
    ensures TouchesAbove(Replay(epochs)[i], basis)
  {
    var init := epochs[..|epochs| - 1];
    if i < |Replay(init)| { ReplayAbove(init, basis, i); }
  }

  /** The log of a start from the snapshot of what the epochs up to number `n` replay to agrees
      with the full replay, whatever epochs and tails follow above the basis. */
  lemma {:induction false} ColdStartAgrees(epochs: seq<Epoch>, n: nat, slots: seq<SnapSlot>, later: seq<Op>)
    requires Tile(epochs) && n < |epochs| && SnapshotOf(slots, Replay(epochs[..n + 1]), epochs[n].to)
    requires forall i :: 0 <= i < |later| ==> TouchesAbove(later[i], epochs[n].to)
    ensures Agree(Replay(epochs) + later, [Install(slots)] + Replay(epochs[n + 1..]) + later, epochs[n].to)
  {
    var basis, first, rest := epochs[n].to, epochs[..n + 1], epochs[n + 1..];
    var tail := Replay(rest) + later;
    StartAgrees(first, slots);
    forall i | 0 <= i < |tail| ensures TouchesAbove(tail[i], basis) { TailAbove(epochs, n, later, i); }
    AgreeAlways(Replay(first), [Install(slots)], tail, basis);
    ReplaySplit(epochs, n + 1);
    Regroup(Replay(first), Replay(rest), later);
    Regroup([Install(slots)], Replay(rest), later);
  }

  lemma Regroup(a: seq<Op>, b: seq<Op>, c: seq<Op>)
    ensures a + b + c == a + (b + c)
  {
  }

  /** Everything after epoch `n` lies above its end. */
  lemma {:induction false} TailAbove(epochs: seq<Epoch>, n: nat, later: seq<Op>, i: nat)
    requires Tile(epochs) && n < |epochs| && forall i :: 0 <= i < |later| ==> TouchesAbove(later[i], epochs[n].to)
    requires i < |Replay(epochs[n + 1..]) + later|
    ensures TouchesAbove((Replay(epochs[n + 1..]) + later)[i], epochs[n].to)
  {
    var rest := epochs[n + 1..];
    RestAbove(epochs, n);
    if i < |Replay(rest)| { ReplayAbove(rest, epochs[n].to, i); }
  }

  /** Agreeing logs read alike at every bound from the basis on: the same slot values, the same
      write block for every slot that is not zero, the same complete slot set. */
  lemma AgreeEverywhere(full: seq<Op>, snap: seq<Op>, basis: Block, bound: Block)
    requires Agree(full, snap, basis) && bound >= basis
    ensures forall slot :: SameRead(full, snap, slot, bound)
    ensures SlotSet(full, bound) == SlotSet(snap, bound)
  {
    forall slot ensures SameRead(full, snap, slot, bound) { AgreeReads(full, snap, basis, slot, bound); }
    SameSlotSet(full, snap, bound);
  }

  lemma SameSlotSet(full: seq<Op>, snap: seq<Op>, bound: Block)
    requires forall slot :: SameRead(full, snap, slot, bound)
    ensures SlotSet(full, bound) == SlotSet(snap, bound)
  {
    var a, b := SlotSet(full, bound), SlotSet(snap, bound);
    forall slot: Felt ensures slot in a <==> slot in b { assert SameRead(full, snap, slot, bound); }
    forall slot | slot in a ensures a[slot] == b[slot] { assert SameRead(full, snap, slot, bound); }
  }

  lemma RestAbove(epochs: seq<Epoch>, n: nat)
    requires Tile(epochs) && n < |epochs|
    ensures var rest := epochs[n + 1..]; forall j :: 0 <= j < |rest| ==> rest[j].from > epochs[n].to && InRange(rest[j])
  {
    forall j | n < j < |epochs| ensures epochs[j].from > epochs[n].to { TileOrder(epochs, n, j); }
  }

  lemma {:induction false} StartAgrees(first: seq<Epoch>, slots: seq<SnapSlot>)
    requires Tile(first) && first != [] && SnapshotOf(slots, Replay(first), first[|first| - 1].to)
    ensures Agree(Replay(first), [Install(slots)], first[|first| - 1].to)
  {
    var basis, full, snap := first[|first| - 1].to, Replay(first), [Install(slots)];
    SnapshotWellFormed(slots, full, basis);
    forall slot, b: Block | b > basis ensures Surviving(full, slot, b) == Surviving(snap, slot, b) {
      ReplayEnds(first, slot, b);
      NoSlotBelow(slots, slot, b);
      assert snap[..0] == [];
    }
    forall slot ensures SameRead(full, snap, slot, basis) { SnapshotReads(slots, full, basis, slot); }
  }
}
