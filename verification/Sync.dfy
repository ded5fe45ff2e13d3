/** The discovery protocol of `discover_state` (`crates/consumer/src/sync.rs`) beside range
    writes of the mirror, as a state machine over single store writes and mirror reads.

    Sessions run in any interleaving with each other and with the feed; a crash may drop any
    session between two of its steps. A discovery pass is opaque: it reads parts of the mirror
    at a bound over time and continues a cursor, so a cursor is represented by the blocks,
    number and hash, that its passes read. */
module SyncProtocol {
  import opened Felts
  import opened Mpt
  import opened MirrorLog
  import opened ApplyFeeds

  datatype Cursor = Cursor(seen: set<(Block, Felt)>)

  const NO_CURSOR := Cursor({})

  /** One owner's metadata rows. */
  datatype Record = Record(gen: nat, liveIn: Option<Cursor>, liveOut: Option<Cursor>,
                           ckptIn: Option<Cursor>, ckptOut: Option<Cursor>, ckptAt: Option<Block>)

  const NEW_OWNER := Record(0, None, None, None, None, None)

  /** The next store write of a session. */
  datatype Pc = ClearLiveIn | ClearLiveOut | CkptIn | CkptAt | CkptOut | LiveIn | LiveOut | Stamp

  /** A session: its owner, its next write, the generation read when it began, its two bounds,
      whether the checkpoint pass is due, and what the pass it is in has read so far. */
  datatype Session = Session(owner: Felt, pc: Pc, gen: nat, head: Block, floor: Block, ckptDue: bool, hand: Option<Cursor>)

  /** The mirror's log, the end of its last epoch (-1 before any), the owners and the sessions. */
  datatype State = State(ops: seq<Op>, floor: int, owners: map<Felt, Record>, sessions: map<nat, Session>)

  const INIT := State([], -1, map[], map[])

  function RecordOf(s: State, owner: Felt): Record {
    if owner in s.owners then s.owners[owner] else NEW_OWNER
  }

  // ------------------------------------------------------------------- steps

  /** The cursor rows `full_resync` empties, one write each. */
  datatype Row = RowLiveIn | RowLiveOut | RowCkptIn | RowCkptOut | RowCkptAt

  /** One atomic step: a range write of the feed, the start of a session, one read of a pass, the
      store write that follows it, a crash, or one write of a resync. */
  datatype Step =
    | Feed(op: Op, basis: Block)
    | Begin(id: nat, owner: Felt, head: Block, floor: Block, ckptDue: bool)
    | Read(id: nat, part: set<(Block, Felt)>)
    | Save(id: nat)
    | Crash(id: nat)
    | Resync(owner: Felt, row: Row)

  /** An operation of the feed: lines inside their range, epochs above the last epoch, tails
      just above it, and a snapshot only before any epoch. */
  ghost predicate FeedOp(s: State, op: Op) {
    match op
    case Install(_) => s.floor < 0
    case Replace(range, lines) =>
      && (forall i :: 0 <= i < |lines| ==> InBounds(range, lines[i].number))
      && match range
         case Inclusive(from, to) => s.floor < from <= to
         case Above(floor) => floor == (if s.floor < 0 then 0 else s.floor) && floor < MAX_BLOCK
  }

  function FloorAfter(s: State, op: Op, basis: Block): int {
    match op
    case Install(_) => basis
    case Replace(Inclusive(_, to), _) => to
    case Replace(Above(_), _) => s.floor
  }

  /** The blocks mirrored at or below `bound`. */
  ghost function Mirrored(ops: seq<Op>, bound: Block): set<(Block, Felt)> {
    set n: nat, h: nat | 0 <= n <= bound && 0 <= h < PRIME && SurvivingHash(ops, n) == Some(h) :: (n, h)
  }

  function OrElse(live: Option<Cursor>, ckpt: Option<Cursor>): Cursor {
    if live.Some? then live.value else if ckpt.Some? then ckpt.value else NO_CURSOR
  }

  predicate Passes(pc: Pc) {
    pc.CkptIn? || pc.CkptOut? || pc.LiveIn? || pc.LiveOut?
  }

  /** The block a session's pass is bounded by. */
  function BoundOf(x: Session): Block {
    if x.pc.CkptIn? || x.pc.CkptOut? then x.floor else x.head
  }

  /** The cursor a pass continues. */
  function Base(r: Record, pc: Pc): Cursor {
    match pc
    case CkptIn => OrElse(None, r.ckptIn)
    case CkptOut => OrElse(None, r.ckptOut)
    case LiveIn => OrElse(r.liveIn, r.ckptIn)
    case LiveOut => OrElse(r.liveOut, r.ckptOut)
    case _ => NO_CURSOR
  }

  /** What a pass holds after one more read; the first read continues the saved cursor. */
  function Gathered(r: Record, x: Session, part: set<(Block, Felt)>): Cursor {
    Cursor((if x.hand.Some? then x.hand.value else Base(r, x.pc)).seen + part)
  }

  /** Where a session goes once its live cursors are as they should be. */
  function Due(ckptDue: bool): Pc {
    if ckptDue then CkptIn else LiveIn
  }

  /** An owner recorded under another generation rewinds first. */
  ghost function Started(s: State, owner: Felt, head: Block, floor: Block, ckptDue: bool): Session {
    Session(owner, if RecordOf(s, owner).gen != Generation(s.ops) then ClearLiveIn else Due(ckptDue), Generation(s.ops), head, floor, ckptDue, None)
  }

  /** The record after the session's write. */
  function Written(r: Record, x: Session): Record {
    match x.pc
    case ClearLiveIn => r.(liveIn := None)
    case ClearLiveOut => r.(liveOut := None)
    case CkptIn => r.(ckptIn := x.hand)
    case CkptAt => r.(ckptAt := Some(x.floor))
    case CkptOut => r.(ckptOut := x.hand)
    case LiveIn => r.(liveIn := x.hand)
    case LiveOut => r.(liveOut := x.hand)
    case Stamp => r.(gen := x.gen)
  }

  function NextPc(x: Session): Pc {
    match x.pc
    case ClearLiveIn => ClearLiveOut
    case ClearLiveOut => Due(x.ckptDue)
    case CkptIn => CkptAt
    case CkptAt => CkptOut
    case CkptOut => LiveIn
    case LiveIn => LiveOut
    case LiveOut => Stamp
    case Stamp => Stamp
  }

  function Emptied(r: Record, row: Row): Record {
    match row
    case RowLiveIn => r.(liveIn := None)
    case RowLiveOut => r.(liveOut := None)
    case RowCkptIn => r.(ckptIn := None)
    case RowCkptOut => r.(ckptOut := None)
    case RowCkptAt => r.(ckptAt := None)
  }

  /** When a step may be taken. A checkpoint pass is bounded by an epoch already applied. */
  ghost predicate Enabled(s: State, step: Step) {
    match step
    case Feed(op, _) => FeedOp(s, op)
    case Begin(id, _, _, floor, ckptDue) => id !in s.sessions && (ckptDue ==> floor <= s.floor)
    case Read(id, part) => id in s.sessions && Passes(s.sessions[id].pc) && part <= Mirrored(s.ops, BoundOf(s.sessions[id]))
    case Save(id) => id in s.sessions && (Passes(s.sessions[id].pc) ==> s.sessions[id].hand.Some?)
    case Crash(id) => id in s.sessions
    case Resync(_, _) => true
  }

  ghost function Take(s: State, step: Step): State
    requires Enabled(s, step)
  {
    match step
    case Feed(op, basis) => s.(ops := s.ops + [op], floor := FloorAfter(s, op, basis))
    case Begin(id, owner, head, floor, ckptDue) => s.(sessions := s.sessions[id := Started(s, owner, head, floor, ckptDue)])
    case Read(id, part) =>
      var x := s.sessions[id];
      s.(sessions := s.sessions[id := x.(hand := Some(Gathered(RecordOf(s, x.owner), x, part)))])
    case Save(id) =>
      var x := s.sessions[id];
      s.(owners := s.owners[x.owner := Written(RecordOf(s, x.owner), x)],
         sessions := if x.pc.Stamp? then s.sessions - {id} else s.sessions[id := x.(pc := NextPc(x), hand := None)])
    case Crash(id) => s.(sessions := s.sessions - {id})
    case Resync(owner, row) => s.(owners := s.owners[owner := Emptied(RecordOf(s, owner), row)])
  }

  /** The state after a run of steps from the empty store; `None` when a step was not enabled. */
  ghost function Reached(steps: seq<Step>): Option<State> {
    if steps == [] then Some(INIT)
    else
      var before := Reached(steps[..|steps| - 1]);
      if before.Some? && Enabled(before.value, steps[|steps| - 1]) then Some(Take(before.value, steps[|steps| - 1])) else None
  }

  // ------------------------------------------------------------- the invariant

  /** No block the cursor was computed over has since been lost. */
  ghost predicate Fresh(c: Option<Cursor>, ops: seq<Op>) {
    c.Some? ==> forall b :: b in c.value.seen ==> SurvivingHash(ops, b.0) == Some(b.1)
  }

  /** Computed over final blocks only, none of them lost. */
  ghost predicate Final(c: Option<Cursor>, s: State) {
    Fresh(c, s.ops) && (c.Some? ==> forall b :: b in c.value.seen ==> b.0 <= s.floor)
  }

  ghost predicate LiveFresh(r: Record, ops: seq<Op>) {
    Fresh(r.liveIn, ops) && Fresh(r.liveOut, ops)
  }

  /** No owner has two sessions. */
  ghost predicate Solo(s: State) {
    forall i, j :: i in s.sessions && j in s.sessions && s.sessions[i].owner == s.sessions[j].owner ==> i == j
  }

  // Of checkpoint cursors, whatever sessions there are.

  ghost predicate OwnerFinal(s: State, r: Record) {
    r.gen <= Generation(s.ops) && Final(r.ckptIn, s) && Final(r.ckptOut, s)
  }

  ghost predicate SessionFinal(s: State, x: Session) {
    && x.gen <= Generation(s.ops)
    && ((x.pc.CkptIn? || x.pc.CkptAt? || x.pc.CkptOut?) ==> x.floor <= s.floor)
    && (x.ckptDue ==> x.floor <= s.floor)
    && ((x.pc.CkptIn? || x.pc.CkptOut?) ==> Final(x.hand, s))
  }

  ghost predicate AllFinal(s: State) {
    && (forall o :: OwnerFinal(s, RecordOf(s, o)))
    && (forall id :: id in s.sessions ==> SessionFinal(s, s.sessions[id]))
  }

  // Of live cursors, with one session per owner.

  ghost predicate OwnerLive(s: State, r: Record) {
    r.gen == Generation(s.ops) ==> LiveFresh(r, s.ops)
  }

  /** A session whose generation is current: what it has left of the live cursors is fresh,
      and so is what it holds. */
  ghost predicate SessionLive(s: State, r: Record, x: Session) {
    && r.gen <= x.gen
    && (x.gen == Generation(s.ops) ==>
          && (x.pc.LiveIn? || x.pc.LiveOut? ==> Fresh(x.hand, s.ops))
          && (!x.pc.ClearLiveIn? ==> Fresh(r.liveIn, s.ops))
          && (!x.pc.ClearLiveIn? && !x.pc.ClearLiveOut? ==> Fresh(r.liveOut, s.ops)))
  }

  ghost predicate AllLive(s: State) {
    && (forall o :: OwnerLive(s, RecordOf(s, o)))
    && (forall id :: id in s.sessions ==> SessionLive(s, RecordOf(s, s.sessions[id].owner), s.sessions[id]))
  }

  // ------------------------------------------------------------ range writes

  /** A range write changes no block at or below the floor; when it does not raise the
      generation, it loses no block at all. */
  lemma FeedKeeps(s: State, op: Op, n: Block)
    requires FeedOp(s, op)
    ensures n <= s.floor ==> SurvivingHash(s.ops + [op], n) == SurvivingHash(s.ops, n)
    ensures Generation(s.ops + [op]) == Generation(s.ops) && SurvivingHash(s.ops, n).Some? ==> SurvivingHash(s.ops + [op], n) == SurvivingHash(s.ops, n)
  {
    GenerationStep(s.ops, op);
    assert (s.ops + [op])[..|s.ops|] == s.ops;
    if op.Replace? && !InBounds(op.range, n) { LineOutside(op.range, op.lines, n); }
  }

  lemma LineOutside(range: Range, lines: seq<BlockLine>, n: Block)
    requires !InBounds(range, n) && forall i :: 0 <= i < |lines| ==> InBounds(range, lines[i].number)
    ensures LineHash(lines, n).None?
  {
    LineHashIs(lines, n);
  }

  lemma FreshKept(s: State, op: Op, c: Option<Cursor>)
    requires FeedOp(s, op) && Fresh(c, s.ops) && Generation(s.ops + [op]) == Generation(s.ops)
    ensures Fresh(c, s.ops + [op])
  {
    if c.Some? {
      forall b | b in c.value.seen ensures SurvivingHash(s.ops + [op], b.0) == Some(b.1) { FeedKeeps(s, op, b.0); }
    }
  }

  lemma FinalKept(s: State, step: Step, c: Option<Cursor>)
    requires step.Feed? && Enabled(s, step) && Final(c, s)
    ensures Final(c, Take(s, step))
  {
    if c.Some? {
      forall b | b in c.value.seen ensures SurvivingHash(s.ops + [step.op], b.0) == Some(b.1) && b.0 <= FloorAfter(s, step.op, step.basis) {
        FeedKeeps(s, step.op, b.0);
      }
    }
  }

  lemma FeedFinal(s: State, step: Step)
    requires AllFinal(s) && step.Feed? && Enabled(s, step)
    ensures AllFinal(Take(s, step))
  {
    var s' := Take(s, step);
    GenerationGrows(s.ops, [step.op]);
    forall o ensures OwnerFinal(s', RecordOf(s', o)) {
      var r := RecordOf(s, o);
      assert OwnerFinal(s, r);
      FinalKept(s, step, r.ckptIn);
      FinalKept(s, step, r.ckptOut);
    }
    forall id | id in s'.sessions ensures SessionFinal(s', s'.sessions[id]) {
      var x := s.sessions[id];
      assert SessionFinal(s, x);
      if x.pc.CkptIn? || x.pc.CkptOut? { FinalKept(s, step, x.hand); }
    }
  }

  lemma FeedLive(s: State, step: Step)
    requires AllFinal(s) && AllLive(s) && step.Feed? && Enabled(s, step)
    ensures AllLive(Take(s, step))
  {
    var s' := Take(s, step);
    GenerationGrows(s.ops, [step.op]);
    forall o ensures OwnerLive(s', RecordOf(s', o)) {
      var r := RecordOf(s, o);
      assert OwnerFinal(s, r) && OwnerLive(s, r);
      if r.gen == Generation(s'.ops) {
        FreshKept(s, step.op, r.liveIn);
        FreshKept(s, step.op, r.liveOut);
      }
    }
    forall id | id in s'.sessions ensures SessionLive(s', RecordOf(s', s'.sessions[id].owner), s'.sessions[id]) { FeedSession(s, step, id); }
  }

  lemma FeedSession(s: State, step: Step, id: nat)
    requires AllFinal(s) && AllLive(s) && step.Feed? && Enabled(s, step) && id in s.sessions
    ensures SessionLive(Take(s, step), RecordOf(s, s.sessions[id].owner), s.sessions[id])
  {
    var x := s.sessions[id];
    var r := RecordOf(s, x.owner);
    assert SessionLive(s, r, x) && SessionFinal(s, x);
    GenerationGrows(s.ops, [step.op]);
    if x.gen == Generation(s.ops + [step.op]) {
      if x.pc.LiveIn? || x.pc.LiveOut? { FreshKept(s, step.op, x.hand); }
      if !x.pc.ClearLiveIn? { FreshKept(s, step.op, r.liveIn); }
      if !x.pc.ClearLiveIn? && !x.pc.ClearLiveOut? { FreshKept(s, step.op, r.liveOut); }
    }
  }

  /** An epoch that passes the client's checks is such an operation when its range lies above
      the last epoch. */
  lemma EpochIsFeedOp(s: State, feed: ApplyFeeds.Feed, entry: ManifestEpoch, file: EpochFile, prev: Option<nat>)
    requires EpochError(feed, entry, file, prev).None? && s.floor < entry.from <= entry.to
    ensures FeedOp(s, Replace(Inclusive(entry.from, entry.to), file.lines))
  {
    forall i | 0 <= i < |file.lines| ensures InBounds(Inclusive(entry.from, entry.to), file.lines[i].number) {}
  }

  /** So is a tail the client accepts, exactly when none of its lines lies at or below the floor. */
  lemma TailIsFeedOp(s: State, floor: Block, lines: seq<BlockLine>)
    requires floor == (if s.floor < 0 then 0 else s.floor) && floor < MAX_BLOCK
    ensures FeedOp(s, Replace(Above(floor), lines)) <==> forall i :: 0 <= i < |lines| ==> lines[i].number > floor
  {
    if FeedOp(s, Replace(Above(floor), lines)) {
      forall i | 0 <= i < |lines| ensures lines[i].number > floor { assert InBounds(Above(floor), lines[i].number); }
    }
  }

  // --------------------------------------------------------------- discovery

  lemma ReadFresh(from: Cursor, ops: seq<Op>, bound: Block, part: set<(Block, Felt)>)
    requires Fresh(Some(from), ops) && part <= Mirrored(ops, bound)
    ensures Fresh(Some(Cursor(from.seen + part)), ops)
  {
  }

  lemma ReadFinal(from: Cursor, s: State, bound: Block, part: set<(Block, Felt)>)
    requires Final(Some(from), s) && bound <= s.floor && part <= Mirrored(s.ops, bound)
    ensures Final(Some(Cursor(from.seen + part)), s)
  {
  }

  lemma GatheredFinal(s: State, r: Record, x: Session, part: set<(Block, Felt)>)
    requires OwnerFinal(s, r) && SessionFinal(s, x) && Passes(x.pc) && part <= Mirrored(s.ops, BoundOf(x))
    ensures SessionFinal(s, x.(hand := Some(Gathered(r, x, part))))
  {
    if x.pc.CkptIn? || x.pc.CkptOut? {
      ReadFinal(if x.hand.Some? then x.hand.value else Base(r, x.pc), s, x.floor, part);
    }
  }

  lemma GatheredLive(s: State, r: Record, x: Session, part: set<(Block, Felt)>)
    requires OwnerFinal(s, r) && SessionLive(s, r, x) && Passes(x.pc) && part <= Mirrored(s.ops, BoundOf(x))
    ensures SessionLive(s, r, x.(hand := Some(Gathered(r, x, part))))
  {
    if x.gen == Generation(s.ops) && (x.pc.LiveIn? || x.pc.LiveOut?) {
      ReadFresh(if x.hand.Some? then x.hand.value else Base(r, x.pc), s.ops, x.head, part);
    }
  }

  lemma WrittenFinal(s: State, r: Record, x: Session)
    requires OwnerFinal(s, r) && SessionFinal(s, x)
    ensures OwnerFinal(s, Written(r, x)) && SessionFinal(s, x.(pc := NextPc(x), hand := None))
  {
  }

  /** Each write of a session keeps its owner's record and the session right. */
  lemma WrittenLive(s: State, r: Record, x: Session)
    requires OwnerFinal(s, r) && OwnerLive(s, r) && SessionLive(s, r, x) && SessionFinal(s, x)
    ensures OwnerLive(s, Written(r, x))
    ensures !x.pc.Stamp? ==> SessionLive(s, Written(r, x), x.(pc := NextPc(x), hand := None))
  {
  }

  lemma EmptiedOk(s: State, r: Record, row: Row)
    requires OwnerFinal(s, r) && OwnerLive(s, r)
    ensures OwnerFinal(s, Emptied(r, row)) && OwnerLive(s, Emptied(r, row))
    ensures forall x :: SessionLive(s, r, x) ==> SessionLive(s, Emptied(r, row), x)
  {
  }

  /** A step that changes one owner's record and one session keeps the others. */
  lemma OthersFinal(s: State, s': State, owner: Felt, id: nat)
    requires AllFinal(s) && s'.ops == s.ops && s'.floor == s.floor
    requires forall o :: o != owner ==> RecordOf(s', o) == RecordOf(s, o)
    requires forall i :: i != id && i in s'.sessions ==> i in s.sessions && s'.sessions[i] == s.sessions[i]
    requires OwnerFinal(s, RecordOf(s', owner)) && (id in s'.sessions ==> SessionFinal(s, s'.sessions[id]))
    ensures AllFinal(s')
  {
    forall o ensures OwnerFinal(s', RecordOf(s', o)) { assert OwnerFinal(s, RecordOf(s, o)); }
    forall i | i in s'.sessions ensures SessionFinal(s', s'.sessions[i]) {
      if i != id { assert SessionFinal(s, s.sessions[i]); }
    }
  }

  /** Whatever sessions there are, every step keeps checkpoint cursors over final blocks. */
  lemma StepFinal(s: State, step: Step)
    requires AllFinal(s) && Enabled(s, step)
    ensures AllFinal(Take(s, step))
  {
    var s' := Take(s, step);
    match step
    case Feed(_, _) => FeedFinal(s, step);
    case Begin(id, owner, _, _, _) =>
      assert OwnerFinal(s, RecordOf(s, owner));
      OthersFinal(s, s', owner, id);
    case Read(id, part) =>
      var x := s.sessions[id];
      assert OwnerFinal(s, RecordOf(s, x.owner));
      GatheredFinal(s, RecordOf(s, x.owner), x, part);
      OthersFinal(s, s', x.owner, id);
    case Save(id) =>
      var x := s.sessions[id];
      assert OwnerFinal(s, RecordOf(s, x.owner));
      WrittenFinal(s, RecordOf(s, x.owner), x);
      OthersFinal(s, s', x.owner, id);
    case Crash(id) =>
      var x := s.sessions[id];
      assert OwnerFinal(s, RecordOf(s, x.owner));
      OthersFinal(s, s', x.owner, id);
    case Resync(owner, row) =>
      assert OwnerFinal(s, RecordOf(s, owner));
      forall o ensures OwnerFinal(s', RecordOf(s', o)) { assert OwnerFinal(s, RecordOf(s, o)); }
      forall i | i in s'.sessions ensures SessionFinal(s', s'.sessions[i]) { assert SessionFinal(s, s.sessions[i]); }
  }

  /** A step that changes one owner's record keeps the others, and of its sessions there is one. */
  lemma OthersLive(s: State, s': State, owner: Felt, id: nat)
    requires AllLive(s) && s'.ops == s.ops && s'.floor == s.floor
    requires forall o :: o != owner ==> RecordOf(s', o) == RecordOf(s, o)
    requires forall i :: i != id && i in s'.sessions ==> i in s.sessions && s'.sessions[i] == s.sessions[i] && s.sessions[i].owner != owner
    requires OwnerLive(s, RecordOf(s', owner))
    requires id in s'.sessions ==> s'.sessions[id].owner == owner && SessionLive(s, RecordOf(s', owner), s'.sessions[id])
    ensures AllLive(s')
  {
    forall o ensures OwnerLive(s', RecordOf(s', o)) { assert OwnerLive(s, RecordOf(s, o)); }
    forall i | i in s'.sessions ensures SessionLive(s', RecordOf(s', s'.sessions[i].owner), s'.sessions[i]) {
      if i != id { assert SessionLive(s, RecordOf(s, s.sessions[i].owner), s.sessions[i]); }
    }
  }

  lemma ResyncLive(s: State, owner: Felt, row: Row)
    requires AllFinal(s) && AllLive(s)
    ensures AllLive(Take(s, Resync(owner, row)))
  {
    var s' := Take(s, Resync(owner, row));
    assert OwnerFinal(s, RecordOf(s, owner)) && OwnerLive(s, RecordOf(s, owner));
    EmptiedOk(s, RecordOf(s, owner), row);
    forall o ensures OwnerLive(s', RecordOf(s', o)) { assert OwnerLive(s, RecordOf(s, o)); }
    forall i | i in s'.sessions ensures SessionLive(s', RecordOf(s', s'.sessions[i].owner), s'.sessions[i]) {
      assert SessionLive(s, RecordOf(s, s.sessions[i].owner), s.sessions[i]);
    }
  }

  /** While no owner has two sessions, every step keeps live cursors fresh under the current
      generation. */
  lemma StepLive(s: State, step: Step)
    requires AllFinal(s) && AllLive(s) && Enabled(s, step) && Solo(s) && Solo(Take(s, step))
    ensures AllLive(Take(s, step))
  {
    var s' := Take(s, step);
    match step
    case Feed(_, _) => FeedLive(s, step);
    case Begin(id, owner, _, _, _) =>
      assert OwnerFinal(s, RecordOf(s, owner)) && OwnerLive(s, RecordOf(s, owner));
      assert s'.sessions[id].owner == owner;
      OthersLive(s, s', owner, id);
    case Read(id, part) =>
      var x := s.sessions[id];
      assert OwnerFinal(s, RecordOf(s, x.owner)) && OwnerLive(s, RecordOf(s, x.owner));
      GatheredLive(s, RecordOf(s, x.owner), x, part);
      OthersLive(s, s', x.owner, id);
    case Save(id) =>
      var x := s.sessions[id];
      assert OwnerFinal(s, RecordOf(s, x.owner)) && OwnerLive(s, RecordOf(s, x.owner));
      WrittenLive(s, RecordOf(s, x.owner), x);
      OthersLive(s, s', x.owner, id);
    case Crash(id) =>
      var x := s.sessions[id];
      assert OwnerLive(s, RecordOf(s, x.owner));
      OthersLive(s, s', x.owner, id);
    case Resync(owner, row) => ResyncLive(s, owner, row);
  }

  lemma {:induction false} ReachedFinal(steps: seq<Step>)
    requires Reached(steps).Some?
    ensures AllFinal(Reached(steps).value)
  {
    if steps != [] {
      ReachedFinal(steps[..|steps| - 1]);
      StepFinal(Reached(steps[..|steps| - 1]).value, steps[|steps| - 1]);
    }
  }

  /** No owner has two sessions at any time of the run. */
  ghost predicate OneAtATime(steps: seq<Step>) {
    forall k :: 0 <= k <= |steps| ==> Reached(steps[..k]).Some? && Solo(Reached(steps[..k]).value)
  }

  lemma {:induction false} ReachedLive(steps: seq<Step>)
    requires OneAtATime(steps)
    ensures Reached(steps).Some? && AllLive(Reached(steps).value)
  {
    assert steps[..|steps|] == steps;
    if steps != [] {
      var init := steps[..|steps| - 1];
      forall k | 0 <= k <= |init| ensures init[..k] == steps[..k] {}
      ReachedLive(init);
      ReachedFinal(init);
      assert Solo(Reached(init).value) && Solo(Reached(steps).value);
      StepLive(Reached(init).value, steps[|steps| - 1]);
    }
  }

  /** In every run in which no owner has two sessions at once, whatever the interleaving and
      wherever sessions crash: an owner recorded under the current generation holds no live
      cursor computed over a block since lost. */
  lemma NoStaleCursor(steps: seq<Step>, owner: Felt)
    requires OneAtATime(steps)
    ensures Reached(steps).Some?
    ensures var s := Reached(steps).value; var r := RecordOf(s, owner);
            r.gen == Generation(s.ops) ==> Fresh(r.liveIn, s.ops) && Fresh(r.liveOut, s.ops)
  {
    ReachedLive(steps);
    assert OwnerLive(Reached(steps).value, RecordOf(Reached(steps).value, owner));
  }

  /** In every run whatever, with any number of sessions of one owner, no checkpoint cursor was
      computed over a block since lost. */
  lemma NoStaleCheckpoint(steps: seq<Step>, owner: Felt)
    requires Reached(steps).Some?
    ensures var s := Reached(steps).value; Fresh(RecordOf(s, owner).ckptIn, s.ops) && Fresh(RecordOf(s, owner).ckptOut, s.ops)
  {
    ReachedFinal(steps);
    assert OwnerFinal(Reached(steps).value, RecordOf(Reached(steps).value, owner));
  }

  // -------------------------------------------------------- a whole session

  /** The writes a session has left. */
  function Left(x: Session): nat {
    match x.pc
    case ClearLiveIn => 8
    case ClearLiveOut => 7
    case CkptIn => 6
    case CkptAt => 5
    case CkptOut => 4
    case LiveIn => 3
    case LiveOut => 2
    case Stamp => 1
  }

  /** The session's next pass, when it is due, over everything mirrored, and the write after it. */
  ghost function Advance(s: State, id: nat): State
    requires id in s.sessions
  {
    var read := Step.Read(id, Mirrored(s.ops, BoundOf(s.sessions[id])));
    var ran := if Enabled(s, read) then Take(s, read) else s;
    Take(ran, Save(id))
  }

  /** Run the session to its stamp with nothing in between. */
  ghost function Finish(s: State, id: nat): State
    decreases if id in s.sessions then Left(s.sessions[id]) else 0
  {
    if id in s.sessions then Finish(Advance(s, id), id) else s
  }

  /** The saved cursor was computed over everything mirrored up to `bound`. */
  ghost predicate Covers(c: Option<Cursor>, ops: seq<Op>, bound: Block) {
    c.Some? && Mirrored(ops, bound) <= c.value.seen
  }

  /** What the session has saved so far. */
  ghost predicate SavedSoFar(s: State, id: nat) {
    id in s.sessions ==>
      var x := s.sessions[id];
      var r := RecordOf(s, x.owner);
      && (x.pc.LiveOut? || x.pc.Stamp? ==> Covers(r.liveIn, s.ops, x.head))
      && (x.pc.Stamp? ==> Covers(r.liveOut, s.ops, x.head))
  }

  lemma AdvanceSaves(s: State, id: nat)
    requires id in s.sessions && SavedSoFar(s, id)
    ensures SavedSoFar(Advance(s, id), id) && Advance(s, id).ops == s.ops
    ensures var x := s.sessions[id]; var s' := Advance(s, id);
            if x.pc.Stamp? then
              && id !in s'.sessions && RecordOf(s', x.owner).gen == x.gen
              && RecordOf(s', x.owner).liveIn == RecordOf(s, x.owner).liveIn && RecordOf(s', x.owner).liveOut == RecordOf(s, x.owner).liveOut
            else
              && id in s'.sessions && s'.sessions[id].owner == x.owner && s'.sessions[id].gen == x.gen && s'.sessions[id].head == x.head
              && Left(s'.sessions[id]) < Left(x)
  {
  }

  /** A session that is not interrupted ends with the owner recorded under the generation it
      read, and with both live cursors computed over the whole mirror up to its head. */
  lemma {:induction false} SessionCompletes(s: State, id: nat)
    requires id in s.sessions && SavedSoFar(s, id)
    ensures var x := s.sessions[id]; var end := Finish(s, id); var r := RecordOf(end, x.owner);
            && id !in end.sessions && end.ops == s.ops && r.gen == x.gen
            && Covers(r.liveIn, s.ops, x.head) && Covers(r.liveOut, s.ops, x.head)
    decreases Left(s.sessions[id])
  {
    AdvanceSaves(s, id);
    if !s.sessions[id].pc.Stamp? { SessionCompletes(Advance(s, id), id); }
  }

  /** Begun and not interrupted, a session leaves its owner current. */
  lemma SyncCompletes(s: State, id: nat, owner: Felt, head: Block, floor: Block, ckptDue: bool)
    requires Enabled(s, Begin(id, owner, head, floor, ckptDue))
    ensures var end := Finish(Take(s, Begin(id, owner, head, floor, ckptDue)), id); var r := RecordOf(end, owner);
            && r.gen == Generation(s.ops) && end.ops == s.ops
            && Covers(r.liveIn, s.ops, head) && Covers(r.liveOut, s.ops, head)
  {
    SessionCompletes(Take(s, Begin(id, owner, head, floor, ckptDue)), id);
  }

  // ------------------------------------------- two sessions of one owner

  function TailOf(hash: Felt): Op {
    Replace(Above(0), [BlockLine(1, hash, 0, [], [], Some(false))])
  }

  lemma OneTail(ops: seq<Op>, hash: Felt)
    ensures SurvivingHash(ops + [TailOf(hash)], 1) == Some(hash)
  {
    assert (ops + [TailOf(hash)])[..|ops|] == ops;
  }

  lemma ReachedStep(steps: seq<Step>, s: State, step: Step)
    requires Reached(steps) == Some(s) && Enabled(s, step)
    ensures Reached(steps + [step]) == Some(Take(s, step))
  {
    assert (steps + [step])[..|steps|] == steps;
  }

  lemma AdvanceReached(steps: seq<Step>, s: State, id: nat) returns (more: seq<Step>)
    requires Reached(steps) == Some(s) && id in s.sessions
    ensures Reached(steps + more) == Some(Advance(s, id))
  {
    var read := Step.Read(id, Mirrored(s.ops, BoundOf(s.sessions[id])));
    if Enabled(s, read) {
      ReachedStep(steps, s, read);
      ReachedStep(steps + [read], Take(s, read), Save(id));
      more := [read] + [Save(id)];
      assert steps + more == (steps + [read]) + [Save(id)];
    } else {
      ReachedStep(steps, s, Save(id));
      more := [Save(id)];
    }
  }

  /** Letting one session finish is a run. */
  lemma {:induction false} FinishReached(steps: seq<Step>, s: State, id: nat) returns (more: seq<Step>)
    requires Reached(steps) == Some(s) && id in s.sessions && SavedSoFar(s, id)
    ensures Reached(steps + more) == Some(Finish(s, id))
    decreases Left(s.sessions[id])
  {
    AdvanceSaves(s, id);
    more := AdvanceReached(steps, s, id);
    if !s.sessions[id].pc.Stamp? {
      var rest := FinishReached(steps + more, Advance(s, id), id);
      assert steps + (more + rest) == (steps + more) + rest;
      more := more + rest;
    }
  }

  /** Another session is not touched by it. */
  lemma {:induction false} FinishKeeps(s: State, id: nat, other: nat)
    requires id in s.sessions && SavedSoFar(s, id) && other in s.sessions && other != id
    ensures other in Finish(s, id).sessions && Finish(s, id).sessions[other] == s.sessions[other]
    decreases Left(s.sessions[id])
  {
    AdvanceSaves(s, id);
    if !s.sessions[id].pc.Stamp? { FinishKeeps(Advance(s, id), id, other); }
  }

  lemma FirstLosesNothing(op: Op)
    ensures Generation([op]) == 0
  {
    assert [] + [op] == [op];
    GenerationStep([], op);
    if op.Replace? { LosesMeans([], op.range, op.lines); }
  }

  const WAITING := Session(9, LiveIn, 0, 1, 0, false, Some(Cursor({(1, 7)})))

  /** A session has read block 1 for its incoming cursor and not saved it. */
  lemma OlderReads()
    ensures Reached([Step.Feed(TailOf(7), 0), Begin(0, 9, 1, 0, false), Step.Read(0, {(1, 7)})])
            == Some(State([TailOf(7)], -1, map[], map[0 := WAITING]))
  {
    var feed, begin, read := Step.Feed(TailOf(7), 0), Begin(0, 9, 1, 0, false), Step.Read(0, {(1, 7)});
    var s1 := State([TailOf(7)], -1, map[], map[]);
    var s2 := s1.(sessions := map[0 := WAITING.(hand := None)]);
    FirstLosesNothing(TailOf(7));
    OneTail([], 7);
    assert [] + [TailOf(7)] == [TailOf(7)] && [] + [feed] == [feed] && [feed] + [begin] == [feed, begin] && [feed, begin] + [read] == [feed, begin, read];
    ReachedStep([], INIT, feed);
    assert Take(INIT, feed) == s1;
    ReachedStep([feed], s1, begin);
    assert Take(s1, begin) == s2;
    assert (1, 7) in Mirrored(s2.ops, 1);
    var none: set<(Block, Felt)> := {};
    assert none + {(1, 7)} == {(1, 7)};
    assert Gathered(RecordOf(s2, 9), s2.sessions[0], {(1, 7)}) == Cursor({(1, 7)});
    ReachedStep([feed, begin], s2, read);
    assert s2.sessions[0 := WAITING] == map[0 := WAITING];
    assert Take(s2, read) == State([TailOf(7)], -1, map[], map[0 := WAITING]);
  }

  /** The tail is replaced, and a second session of the same owner begins. */
  lemma NewerBegins(steps: seq<Step>, s: State) returns (s': State)
    requires Reached(steps) == Some(s) && s == State([TailOf(7)], -1, map[], map[0 := WAITING])
    ensures Reached(steps + [Step.Feed(TailOf(8), 0)] + [Begin(1, 9, 1, 0, false)]) == Some(s')
    ensures s'.ops == [TailOf(7), TailOf(8)] && s'.sessions.Keys == {0, 1} && s'.sessions[0] == WAITING
    ensures s'.sessions[1].owner == 9 && s'.sessions[1].gen == Generation(s'.ops) && SavedSoFar(s', 1)
  {
    var feed := Step.Feed(TailOf(8), 0);
    ReachedStep(steps, s, feed);
    ReachedStep(steps + [feed], Take(s, feed), Begin(1, 9, 1, 0, false));
    s' := Take(Take(s, feed), Begin(1, 9, 1, 0, false));
  }

  /** What the older session then saves was lost. */
  lemma LateSave(s: State)
    requires 0 in s.sessions && s.sessions[0] == WAITING && s.ops == [TailOf(7), TailOf(8)] && RecordOf(s, 9).gen == Generation(s.ops)
    ensures var s' := Take(s, Save(0)); var r := RecordOf(s', 9);
            r.gen == Generation(s'.ops) && (1, 7) in r.liveIn.value.seen && SurvivingHash(s'.ops, 1) == Some(8)
  {
    assert [TailOf(7)] + [TailOf(8)] == s.ops;
    OneTail([TailOf(7)], 8);
  }

  /** The newer session runs to its stamp, and the older one waits. */
  lemma NewerFinishes(steps: seq<Step>, s: State) returns (more: seq<Step>, done: State)
    requires Reached(steps) == Some(s) && s.sessions.Keys == {0, 1} && s.sessions[0] == WAITING
    requires s.sessions[1].owner == 9 && s.sessions[1].gen == Generation(s.ops) && SavedSoFar(s, 1)
    ensures Reached(steps + more) == Some(done) && 0 in done.sessions && done.sessions[0] == WAITING
    ensures done.ops == s.ops && RecordOf(done, 9).gen == Generation(done.ops)
  {
    more := FinishReached(steps, s, 1);
    SessionCompletes(s, 1);
    FinishKeeps(s, 1, 0);
    done := Finish(s, 1);
  }

  /** The owner is recorded under the current generation and holds a stale live cursor. */
  ghost predicate StaleLive(s: State, owner: Felt) {
    RecordOf(s, owner).gen == Generation(s.ops) && !Fresh(RecordOf(s, owner).liveIn, s.ops)
  }

  lemma LateIsStale(s: State)
    requires 0 in s.sessions && s.sessions[0] == WAITING && s.ops == [TailOf(7), TailOf(8)] && RecordOf(s, 9).gen == Generation(s.ops)
    ensures StaleLive(Take(s, Save(0)), 9)
  {
    LateSave(s);
  }

  /** A run in which one owner has two sessions, and no other hypothesis fails: an older session
      has read block 1 and waits; the tail is replaced, and a newer session runs to its stamp.
      The older one then saves: the owner is recorded under the current generation with a live
      cursor computed over a block since lost. */
  lemma TwoSessionsBreak() returns (steps: seq<Step>)
    ensures Reached(steps).Some? && StaleLive(Reached(steps).value, 9)
  {
    OlderReads();
    var first := [Step.Feed(TailOf(7), 0), Begin(0, 9, 1, 0, false), Step.Read(0, {(1, 7)})];
    var s := NewerBegins(first, State([TailOf(7)], -1, map[], map[0 := WAITING]));
    var second := first + [Step.Feed(TailOf(8), 0)] + [Begin(1, 9, 1, 0, false)];
    var third, done := NewerFinishes(second, s);
    LateIsStale(done);
    ReachedStep(second + third, done, Save(0));
    steps := second + third + [Save(0)];
  }
}
