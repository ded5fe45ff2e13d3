/** The structural checks every feed file passes before anything of it is used (`parse_lines`
    of `crates/feed/src/codec.rs`): footer counts, block order, parent linkage, sorted diffs
    and events. Decoding is done; a file is its block lines and its footer. */
module FeedCodec {
  import opened Felts
  import opened Mpt
  import opened MirrorLog

  /** The footer's counts; the class it also names is checked by nobody. */
  datatype Footer = Footer(blocks: nat, diffs: nat, events: nat)

  function CountDiffs(lines: seq<BlockLine>): nat {
    if lines == [] then 0 else CountDiffs(lines[..|lines| - 1]) + |lines[|lines| - 1].diffs|
  }

  function CountEvents(lines: seq<BlockLine>): nat {
    if lines == [] then 0 else CountEvents(lines[..|lines| - 1]) + |lines[|lines| - 1].events|
  }

  function CountsOf(lines: seq<BlockLine>): Footer {
    Footer(|lines|, CountDiffs(lines), CountEvents(lines))
  }

  predicate Ascending(lines: seq<BlockLine>) {
    forall i, j :: 0 <= i < j < |lines| ==> lines[i].number < lines[j].number
  }

  /** Numerically adjacent blocks link; pool-active blocks are sparse. */
  predicate ParentsLink(lines: seq<BlockLine>) {
    forall i :: 0 < i < |lines| && lines[i].number == lines[i - 1].number + 1 ==> lines[i].parent == lines[i - 1].hash
  }

  predicate SortedLine(line: BlockLine) {
    && (forall i, j :: 0 <= i < j < |line.diffs| ==> line.diffs[i].0 < line.diffs[j].0)
    && (forall i, j :: 0 <= i < j < |line.events| ==> line.events[i] < line.events[j])
  }

  predicate Structured(lines: seq<BlockLine>, footer: Footer) {
    && footer == CountsOf(lines) && Ascending(lines) && ParentsLink(lines)
    && forall i :: 0 <= i < |lines| ==> SortedLine(lines[i])
  }

  lemma {:induction false} LineWriteAt(lines: seq<BlockLine>, slot: Felt, i: nat)
    requires Ascending(lines) && i < |lines|
    ensures LineWrite(lines, slot, lines[i].number) == LastDiff(lines[i].diffs, slot)
  {
    var n := |lines| - 1;
    var init := lines[..n];
    if i < n {
      assert init[i] == lines[i];
      LineWriteAt(init, slot, i);
    } else {
      NoLineBelow(init, slot, lines[n].number);
    }
  }

  /** The check of one block against the one before it. */
  predicate Follows(a: BlockLine, b: BlockLine) {
    a.number < b.number && (b.number == a.number + 1 ==> b.parent == a.hash)
  }

  /** Order over whole lists follows from order between neighbours. */
  lemma {:induction false} NeighboursAscend(lines: seq<BlockLine>, i: nat, j: nat)
    requires i < j < |lines| && forall k :: 0 < k < |lines| ==> Follows(lines[k - 1], lines[k])
    ensures lines[i].number < lines[j].number
  {
    if i < j - 1 { NeighboursAscend(lines, i, j - 1); }
    assert Follows(lines[j - 1], lines[j]);
  }

  /** The checks as the parser makes them: counts, then windows of two blocks, then each line. */
  method CheckLines(lines: seq<BlockLine>, footer: Footer) returns (ok: bool)
    ensures ok <==> Structured(lines, footer)
  {
    var diffs, events := 0, 0;
    for i := 0 to |lines|
      invariant diffs == CountDiffs(lines[..i]) && events == CountEvents(lines[..i])
    {
      assert lines[..i + 1][..i] == lines[..i];
      diffs, events := diffs + |lines[i].diffs|, events + |lines[i].events|;
    }
    assert lines[..|lines|] == lines;
    if footer != Footer(|lines|, diffs, events) {
      return false;
    }
    for i := 0 to |lines|
      invariant forall k :: 0 < k < i ==> Follows(lines[k - 1], lines[k])
    {
      if i > 0 && !Follows(lines[i - 1], lines[i]) {
        assert !(lines[i - 1].number < lines[i].number) || !ParentsLink(lines);
        return false;
      }
    }
    forall i, j | 0 <= i < j < |lines| ensures lines[i].number < lines[j].number { NeighboursAscend(lines, i, j); }
    forall i | 0 < i < |lines| && lines[i].number == lines[i - 1].number + 1 ensures lines[i].parent == lines[i - 1].hash {
      assert Follows(lines[i - 1], lines[i]);
    }
    for i := 0 to |lines|
      invariant forall k :: 0 <= k < i ==> SortedLine(lines[k])
    {
      if !SortedLine(lines[i]) {
        return false;
      }
    }
    ok := true;
  }
}
