/** Head deltas over the event stream (`crates/indexerd/src/live.rs`): a changed head is sent
    whole, or as the lines it appends to the one sent before. Serialisation to JSON is one
    `size` function on events; the other event kinds are always sent whole and left out. */
module HeadDeltas {
  import opened Mpt

  /** One published head; a payload too large to inline is absent, which means resync. */
  datatype Head = Head(number: nat, tailFrom: nat, etag: string, payload: Option<string>)

  datatype Event =
    | Whole(head: Head)
    | Delta(number: nat, tailFrom: nat, etag: string, baseEtag: string, header: string, append: string, end: string)

  type Size = Event -> nat

  // ------------------------------------------------------------- whole lines

  /** The index just after the first newline at or after `i`. */
  function AfterFirst(s: string, i: nat): (r: Option<nat>)
    requires i <= |s|
    ensures r.Some? ==> i < r.value <= |s| && s[r.value - 1] == '\n' && forall j :: i <= j < r.value - 1 ==> s[j] != '\n'
    ensures r.None? ==> forall j :: i <= j < |s| ==> s[j] != '\n'
    decreases |s| - i
  {
    if i == |s| then None else if s[i] == '\n' then Some(i + 1) else AfterFirst(s, i + 1)
  }

  /** The index just after the last newline before `i`. */
  function AfterLast(s: string, i: nat): (r: Option<nat>)
    requires i <= |s|
    ensures r.Some? ==> 0 < r.value <= i && s[r.value - 1] == '\n' && forall j :: r.value <= j < i ==> s[j] != '\n'
    ensures r.None? ==> forall j :: 0 <= j < i ==> s[j] != '\n'
  {
    if i == 0 then None else if s[i - 1] == '\n' then Some(i) else AfterLast(s, i - 1)
  }

  datatype Parts = Parts(header: string, records: string, end: string)

  /** Every line is complete: the text is empty or ends with a newline. */
  predicate WholeLines(s: string) {
    s == "" || s[|s| - 1] == '\n'
  }

  predicate OneLine(s: string) {
    s != "" && s[|s| - 1] == '\n' && forall j :: 0 <= j < |s| - 1 ==> s[j] != '\n'
  }

  /** `head_parts`: the first line, the last line, and the whole lines between them. */
  function HeadParts(payload: string): (r: Option<Parts>)
    ensures r.Some? ==> r.value.header + r.value.records + r.value.end == payload
    ensures r.Some? ==> OneLine(r.value.header) && WholeLines(r.value.records) && OneLine(r.value.end)
  {
    var first := AfterFirst(payload, 0);
    if first.None? || payload[|payload| - 1] != '\n' then None
    else
      var last := AfterLast(payload, |payload| - 1);
      if last.None? || first.value > last.value then None
      else
        var p := Parts(payload[..first.value], payload[first.value..last.value], payload[last.value..]);
        assert p.header + p.records + p.end == payload;
        Some(p)
  }

  lemma FirstLine(s: string, n: nat)
    requires n <= |s| && OneLine(s[..n])
    ensures AfterFirst(s, 0) == Some(n)
  {
    var header := s[..n];
    forall j | 0 <= j < n ensures s[j] == header[j] {}
  }

  lemma LastLine(s: string, n: nat)
    requires 0 < n <= |s| && OneLine(s[n..]) && s[n - 1] == '\n'
    ensures AfterLast(s, |s| - 1) == Some(n) && s[|s| - 1] == '\n'
  {
    var end := s[n..];
    forall j | n <= j < |s| ensures s[j] == end[j - n] {}
  }

  lemma SplitAt(payload: string, h: nat, t: nat)
    requires h <= t < |payload| && payload[|payload| - 1] == '\n'
    requires AfterFirst(payload, 0) == Some(h) && AfterLast(payload, |payload| - 1) == Some(t)
    ensures HeadParts(payload) == Some(Parts(payload[..h], payload[h..t], payload[t..]))
  {
  }

  lemma FrontEnds(s: string, h: nat, t: nat)
    requires h <= t <= |s| && OneLine(s[..h]) && WholeLines(s[h..t])
    ensures t > 0 && s[t - 1] == '\n'
  {
    if h == t { assert s[..h][h - 1] == s[t - 1]; } else { assert s[h..t][t - h - 1] == s[t - 1]; }
  }

  /** A payload splits wherever it is cut into a first line, whole lines and a last line. */
  lemma SplitsUnique(payload: string, h: nat, t: nat)
    requires h <= t < |payload| && OneLine(payload[..h]) && WholeLines(payload[h..t]) && OneLine(payload[t..])
    ensures HeadParts(payload) == Some(Parts(payload[..h], payload[h..t], payload[t..]))
  {
    FrontEnds(payload, h, t);
    FirstLine(payload, h);
    LastLine(payload, t);
    SplitAt(payload, h, t);
  }

  /** What lies beyond a whole-line prefix of whole lines is whole lines. */
  lemma RestIsWhole(all: string, prefix: string)
    requires WholeLines(all) && WholeLines(prefix) && prefix <= all
    ensures WholeLines(all[|prefix|..])
  {
  }

  // ------------------------------------------------------------- head_update

  /** The delta from `prev` to `next`, when the tail starts at the same block and the old
      records are a prefix of the new ones. */
  function DeltaOf(next: Head, prev: Head): Option<Event> {
    if prev.tailFrom != next.tailFrom || prev.payload.None? || next.payload.None? then None
    else
      var was, now := HeadParts(prev.payload.value), HeadParts(next.payload.value);
      if was.None? || now.None? || !(was.value.records <= now.value.records) then None
      else Some(Delta(next.number, next.tailFrom, next.etag, prev.etag, now.value.header, now.value.records[|was.value.records|..], now.value.end))
  }

  /** Send the delta when there is one and it is smaller. */
  function HeadUpdate(size: Size, next: Head, prev: Option<Head>): Event {
    if prev.Some? && DeltaOf(next, prev.value).Some? && size(DeltaOf(next, prev.value).value) < size(Whole(next))
    then DeltaOf(next, prev.value).value
    else Whole(next)
  }

  // -------------------------------------------------------------- a subscriber

  /** What a subscriber holds: nothing yet, a head's bytes, or the order to resync. */
  datatype Held = Nothing | Bytes(etag: string, payload: string) | Resync

  /** Apply an event. A delta that does not fit what is held is an order to resync. */
  function Receive(held: Held, e: Event): Held {
    match e
    case Whole(head) => if head.payload.Some? then Bytes(head.etag, head.payload.value) else Resync
    case Delta(_, _, etag, baseEtag, header, append, end) =>
      if held.Bytes? && held.etag == baseEtag && HeadParts(held.payload).Some?
      then Bytes(etag, header + HeadParts(held.payload).value.records + append + end)
      else Resync
  }

  function ReceiveAll(events: seq<Event>): Held {
    if events == [] then Nothing else Receive(ReceiveAll(events[..|events| - 1]), events[|events| - 1])
  }

  function Holding(head: Head): Held {
    if head.payload.Some? then Bytes(head.etag, head.payload.value) else Resync
  }

  /** A delta applied to the payload it was taken from gives the next one. */
  lemma DeltaRebuilds(next: Head, prev: Head)
    requires DeltaOf(next, prev).Some?
    ensures Receive(Holding(prev), DeltaOf(next, prev).value) == Holding(next)
    ensures WholeLines(DeltaOf(next, prev).value.append)
  {
    var was, now := HeadParts(prev.payload.value).value, HeadParts(next.payload.value).value;
    var append := now.records[|was.records|..];
    RestIsWhole(now.records, was.records);
    Rejoined(was.records, now.records);
    assert now.header + was.records + append == now.header + (was.records + append);
  }

  lemma Rejoined(prefix: string, all: string)
    requires prefix <= all
    ensures prefix + all[|prefix|..] == all
  {
  }

  /** A subscriber that holds the last head holds the next one after its update, byte for byte;
      a delta appends whole lines only. */
  lemma UpdateRebuilds(size: Size, next: Head, prev: Option<Head>, held: Held)
    requires prev.Some? ==> held == Holding(prev.value)
    ensures Receive(held, HeadUpdate(size, next, prev)) == Holding(next)
    ensures HeadUpdate(size, next, prev).Delta? ==> WholeLines(HeadUpdate(size, next, prev).append)
  {
    if prev.Some? && DeltaOf(next, prev.value).Some? { DeltaRebuilds(next, prev.value); }
  }

  // ------------------------------------------------------------- the stream

  /** The last head a run of observed states announced. */
  function LastSent(states: seq<Option<Head>>): Option<Head> {
    if states == [] then None
    else if states[|states| - 1].Some? then states[|states| - 1]
    else LastSent(states[..|states| - 1])
  }

  /** What the subscriber should hold after the given states. */
  function Expected(states: seq<Option<Head>>): Held {
    if LastSent(states).Some? then Holding(LastSent(states).value) else Nothing
  }

  /** The `stream_to` loop over the states it wakes up to see, however publications were
      coalesced: a subscriber applying the events holds exactly the last head announced, or
      was told to resync, after every iteration. */
  method StreamTo(size: Size, states: seq<Option<Head>>) returns (events: seq<Event>)
    ensures ReceiveAll(events) == Expected(states)
    ensures forall i :: 0 <= i < |events| && events[i].Delta? ==> WholeLines(events[i].append)
  {
    var sent: Option<Head> := None;
    events := [];
    for i := 0 to |states|
      invariant ReceiveAll(events) == Expected(states[..i])
      invariant sent == if i == 0 then None else states[i - 1]
      invariant sent.Some? ==> ReceiveAll(events) == Holding(sent.value)
      invariant forall j :: 0 <= j < |events| && events[j].Delta? ==> WholeLines(events[j].append)
    {
      assert states[..i + 1][..i] == states[..i];
      var current := states[i];
      if current.Some? && current != sent {
        var e := HeadUpdate(size, current.value, sent);
        UpdateRebuilds(size, current.value, sent, ReceiveAll(events));
        assert (events + [e])[..|events|] == events;
        events := events + [e];
      }
      sent := current;
    }
    assert states[..|states|] == states;
  }
}
