/** The adaptive window scan of `crates/indexerd/src/ingest.rs` against an arbitrary endpoint.

    The endpoint is a parameter: it maps the number of a call and the asked window to a page,
    or to a transport error. A page without a token is complete; one with a token, full or
    short, may hold anything. */
module Scan {
  import opened Mpt

  const MAX_SCAN_WINDOW: nat := 100_000
  const U64_MAX: nat := 0xFFFF_FFFF_FFFF_FFFF

  /** A pool event; pre-confirmed ones carry no block number. */
  datatype Event = Event(block: Option<nat>, id: nat)

  datatype Page = Page(events: seq<Event>, token: bool)

  type Endpoint = (nat, nat, nat) -> Option<Page>

  datatype ScanError = Transport | Irreducible(block: nat, full: bool)

  datatype Scanned = Failed(error: ScanError) | Found(blocks: map<nat, seq<Event>>)

  // ------------------------------------------------------------- the window

  /** 64-bit multiplication saturates. */
  function SatMul(a: nat, b: nat): nat {
    if a * b > U64_MAX then U64_MAX else a * b
  }

  function Min(a: nat, b: nat): nat {
    if a <= b then a else b
  }

  function Max(a: nat, b: nat): nat {
    if a >= b then a else b
  }

  /** Three quarters of a page at the density last seen, or eight times the window when no
      event was seen. */
  function Target(len: nat, events: nat, pageCap: nat): nat {
    if events == 0 then Ceiling(len) else SatMul(SatMul(len, pageCap), 3) / (if SatMul(events, 4) == 0 then 1 else SatMul(events, 4))
  }

  function Ceiling(len: nat): nat {
    if SatMul(len, 8) == 0 then 1 else SatMul(len, 8)
  }

  /** `next_window_len`: never empty, never beyond the hard limit or eight windows. */
  function NextWindowLen(len: nat, events: nat, pageCap: nat): (r: nat)
    ensures 1 <= r <= MAX_SCAN_WINDOW && r <= Ceiling(len)
  {
    var target := Target(len, events, pageCap);
    var clamped := if target < 1 then 1 else Min(target, Ceiling(len));
    Min(clamped, MAX_SCAN_WINDOW)
  }

  lemma DivTimes(a: nat, b: nat)
    requires b > 0
    ensures (a / b) * b <= a
  {
  }

  lemma TimesGrows(a: nat, b: nat, c: nat)
    requires a <= b
    ensures a * c <= b * c
  {
  }

  /** A window predicted from a window with events holds, at the same density, at most three
      quarters of a page, unless it is a single block. */
  lemma PredictsThreeQuarters(len: nat, events: nat, pageCap: nat)
    requires events > 0 && SatMul(events, 4) == 4 * events
    ensures var r := NextWindowLen(len, events, pageCap); r == 1 || r * (4 * events) <= (len * pageCap) * 3
  {
    var r, page := NextWindowLen(len, events, pageCap), len * pageCap;
    var top, bottom := SatMul(SatMul(len, pageCap), 3), 4 * events;
    if r > 1 {
      assert r <= top / bottom;
      TimesGrows(r, top / bottom, bottom);
      DivTimes(top, bottom);
      assert top <= page * 3;
    }
  }

  // -------------------------------------------------------------- the events

  /** The events of one block in a list, in order. */
  function OfBlock(events: seq<Event>, n: nat): seq<Event> {
    if events == [] then []
    else
      var rest := OfBlock(events[..|events| - 1], n);
      if events[|events| - 1].block == Some(n) then rest + [events[|events| - 1]] else rest
  }

  /** The chain's pool events by block, in emission order. */
  type Chain = nat -> seq<Event>

  /** A page without a token answers the whole window: each block's events, each once, in
      order. Events of other blocks and of none may be mixed in. */
  ghost predicate HonestEndpoint(ask: Endpoint, chain: Chain) {
    forall i: nat, from: nat, to: nat ::
      ask(i, from, to).Some? && !ask(i, from, to).value.token ==> forall n: nat :: from <= n <= to ==> OfBlock(ask(i, from, to).value.events, n) == chain(n)
  }

  function EventsAt(m: map<nat, seq<Event>>, n: nat): seq<Event> {
    if n in m then m[n] else []
  }

  /** The map holds exactly the chain's events of [from, upto), grouped by block. */
  ghost predicate Groups(m: map<nat, seq<Event>>, chain: Chain, from: nat, upto: nat) {
    && (forall n :: n in m ==> from <= n < upto && m[n] != [])
    && (forall n: nat :: from <= n < upto ==> EventsAt(m, n) == chain(n))
  }

  /** The map also holds the first events of a page for the window [cursor, end]. */
  ghost predicate Taking(m: map<nat, seq<Event>>, base: map<nat, seq<Event>>, events: seq<Event>, cursor: nat, end: nat) {
    && (forall n: nat :: EventsAt(m, n) == EventsAt(base, n) + InWindow(events, n, cursor, end))
    && (forall n :: n in m ==> m[n] != [] && (n in base || cursor <= n <= end))
  }

  /** The map with one more event of the window filed. */
  function File(m: map<nat, seq<Event>>, e: Event, cursor: nat, end: nat): map<nat, seq<Event>> {
    if e.block.Some? && cursor <= e.block.value <= end then m[e.block.value := EventsAt(m, e.block.value) + [e]] else m
  }

  function InWindow(events: seq<Event>, n: nat, cursor: nat, end: nat): seq<Event> {
    if cursor <= n <= end then OfBlock(events, n) else []
  }

  lemma FileAt(m: map<nat, seq<Event>>, base: map<nat, seq<Event>>, events: seq<Event>, e: Event, cursor: nat, end: nat, n: nat)
    requires EventsAt(m, n) == EventsAt(base, n) + InWindow(events, n, cursor, end)
    ensures EventsAt(File(m, e, cursor, end), n) == EventsAt(base, n) + InWindow(events + [e], n, cursor, end)
  {
    assert (events + [e])[..|events|] == events;
    assert EventsAt(base, n) + OfBlock(events, n) + [e] == EventsAt(base, n) + (OfBlock(events, n) + [e]);
  }

  lemma TakeOne(m: map<nat, seq<Event>>, base: map<nat, seq<Event>>, events: seq<Event>, i: nat, cursor: nat, end: nat)
    requires i < |events| && Taking(m, base, events[..i], cursor, end)
    ensures Taking(File(m, events[i], cursor, end), base, events[..i + 1], cursor, end)
  {
    assert events[..i] + [events[i]] == events[..i + 1];
    forall n: nat ensures EventsAt(File(m, events[i], cursor, end), n) == EventsAt(base, n) + InWindow(events[..i + 1], n, cursor, end) {
      FileAt(m, base, events[..i], events[i], cursor, end, n);
    }
  }

  /** File a complete page under its blocks. */
  method TakePage(base: map<nat, seq<Event>>, events: seq<Event>, cursor: nat, end: nat) returns (m: map<nat, seq<Event>>, inWindow: nat)
    requires forall n :: n in base ==> base[n] != []
    ensures Taking(m, base, events, cursor, end)
  {
    m, inWindow := base, 0;
    for i := 0 to |events|
      invariant Taking(m, base, events[..i], cursor, end)
    {
      TakeOne(m, base, events, i, cursor, end);
      if events[i].block.Some? && cursor <= events[i].block.value <= end {
        inWindow := inWindow + 1;
        m := File(m, events[i], cursor, end);
      }
    }
    assert events[..|events|] == events;
  }

  lemma PageTaken(m: map<nat, seq<Event>>, base: map<nat, seq<Event>>, events: seq<Event>, chain: Chain, from: nat, cursor: nat, end: nat)
    requires from <= cursor <= end && Groups(base, chain, from, cursor) && Taking(m, base, events, cursor, end)
    requires forall n: nat :: cursor <= n <= end ==> OfBlock(events, n) == chain(n)
    ensures Groups(m, chain, from, end + 1)
  {
    forall n: nat | from <= n < end + 1 ensures EventsAt(m, n) == chain(n) {
      assert EventsAt(m, n) == EventsAt(base, n) + InWindow(events, n, cursor, end);
    }
  }

  // ----------------------------------------------------------------- the scan

  /** A single block was answered with a token: on a full page, or twice in a row. */
  ghost predicate IsIrreducible(ask: Endpoint, requested: nat, block: nat, full: bool) {
    exists i: nat :: Tokened(ask, i, block, block)
                     && (full <==> |ask(i, block, block).value.events| >= requested)
                     && (!full ==> i > 0 && Tokened(ask, i - 1, block, block))
  }

  ghost predicate Tokened(ask: Endpoint, i: nat, from: nat, to: nat) {
    ask(i, from, to).Some? && ask(i, from, to).value.token
  }

  /** `scan_active_blocks`. It terminates against every endpoint. Against one whose token-free
      pages are complete, success means exactly the chain's events of [from, to], each once,
      grouped by block; and without a transport error only a one-block window answered with a
      token can fail the scan. */
  method ScanActiveBlocks(from: nat, to: nat, chunkSize: nat, ask: Endpoint, ghost chain: Chain) returns (r: Scanned)
    ensures HonestEndpoint(ask, chain) && r.Found? ==> Groups(r.blocks, chain, from, if from <= to then to + 1 else from)
    ensures r.Failed? && r.error.Transport? ==> exists i: nat, a: nat, b: nat :: from <= a <= b <= to && ask(i, a, b).None?
    ensures r.Failed? && r.error.Irreducible? ==> from <= r.error.block <= to && IsIrreducible(ask, Max(chunkSize, 1), r.error.block, r.error.full)
  {
    var requested: nat := Max(chunkSize, 1);
    var pageCap: nat := requested;
    var found: map<nat, seq<Event>> := map[];
    var cursor, calls, rerequested := from, 0, false;
    var window := Min(if to >= from then to - from + 1 else 1, MAX_SCAN_WINDOW);
    while cursor <= to
      invariant from <= cursor && (cursor <= to + 1 || cursor == from) && window >= 1
      invariant HonestEndpoint(ask, chain) ==> Groups(found, chain, from, cursor)
      invariant forall n :: n in found ==> found[n] != []
      invariant rerequested ==> calls > 0 && Tokened(ask, calls - 1, cursor, Min(cursor + window - 1, to))
      decreases 1 + to - cursor, window, !rerequested
    {
      var end := Min(cursor + window - 1, to);
      var page := ask(calls, cursor, end);
      if page.None? {
        return Failed(Transport);
      }
      calls := calls + 1;
      if page.value.token {
        var served := |page.value.events|;
        var full := served >= requested;
        if full {
          pageCap := Min(pageCap, Max(served, 1));
        } else if !rerequested {
          rerequested := true;
          continue;
        }
        if end == cursor {
          return Failed(Irreducible(cursor, full));
        }
        window := (end - cursor + 1) / 2;
        rerequested := false;
        continue;
      }
      var more, inWindow := TakePage(found, page.value.events, cursor, end);
      if HonestEndpoint(ask, chain) {
        PageTaken(more, found, page.value.events, chain, from, cursor, end);
      }
      found := more;
      window := NextWindowLen(end - cursor + 1, inWindow, pageCap);
      cursor := end + 1;
      rerequested := false;
    }
    r := Found(found);
  }
}
