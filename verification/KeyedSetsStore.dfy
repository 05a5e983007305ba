/** The keyed sets over the store: each operation is one `rewrite` of its key's record, and what any number of
    them do to a key is a run of the sets. */
module KeyedSetsStore {
  import opened Wrappers
  import opened Json
  import opened Contract
  import opened Store
  import opened Marks
  import opened Serial
  import opened Effects
  import opened Works
  import opened Wire
  import opened Records
  import K = KeyedSets

  /** How the held and the awaiting are written as JSON, and read. */
  datatype Codec = Codec(write: K.Stored -> Json, read: Json -> K.Stored)

  ghost predicate ReadsBack(c: Codec) {
    forall s: K.Stored :: s.Whole? ==> c.read(Normal(c.write(s))) == s
  }

  function StoredIn(c: Codec, value: Option<Json>): Option<K.Stored> {
    if value.None? then None else Some(c.read(value.value))
  }

  function AsDecided(c: Codec, w: Option<K.Writing>): Option<Decided> {
    if w.None? then None
    else Some(Serial.Decided(c.write(K.Whole(w.value.held, w.value.awaiting)), After(w.value.ms)))
  }

  /** An operation's decision on what the key holds, reading the sets' clock as it decides. */
  function Deciding(c: Codec, cap: nat, op: K.Op): Decide {
    (current: Option<Json>, m: Try) => AsDecided(c, K.Decided(op, cap, StoredIn(c, current), m.clock))
  }

  function RecordIn(c: Codec, view: View, k: Key): Option<K.Record> {
    if k in view && view[k].expiresAt.Some? then Some(K.Record(c.read(view[k].value), view[k].expiresAt.value))
    else None
  }

  /** What the key holds ends at some time, as everything the sets write does. */
  predicate Ends(view: View, k: Key) { k in view ==> view[k].expiresAt.Some? }

  lemma FoundIsRead(c: Codec, view: View, k: Key, t: int)
    requires Ends(view, k)
    ensures K.Found(RecordIn(c, view, k), t) == StoredIn(c, LiveValue(view, k, t))
  {
  }

  lemma SetIsRecord(c: Codec, view: View, k: Key, stored: K.Stored, ms: nat, t: int)
    requires ReadsBack(c) && stored.Whole?
    ensures var next := SetCell(view, k, c.write(stored), After(ms), t);
      RecordIn(c, next, k) == Some(K.Record(stored, t + ms)) && Ends(next, k)
  {
    assert c.read(Normal(c.write(stored))) == stored;
  }

  /** What one of the sets' writings leaves, if any. */
  function Left(was: Option<K.Record>, w: Option<K.Writing>, t: int): Option<K.Record> {
    if w.None? then was else Some(K.Record(K.Whole(w.value.held, w.value.awaiting), t + w.value.ms))
  }

  lemma RewriteLeaves(
    c: Codec, view: View, t: int, k: Key, decide: Decide, m: Try, w: Option<K.Writing>)
    requires ReadsBack(c) && Ends(view, k) && decide(LiveValue(view, k, t), m) == AsDecided(c, w)
    ensures var next := RewriteStep(view, t, k, decide, m).view;
      RecordIn(c, next, k) == Left(RecordIn(c, view, k), w, t) && Ends(next, k)
  {
    if w.Some? { SetIsRecord(c, view, k, K.Whole(w.value.held, w.value.awaiting), w.value.ms, t); }
  }

  lemma StepLeaves(cap: nat, was: Option<K.Record>, op: K.Op, now: int, t: int)
    ensures K.Step(cap, was, K.Event(op, K.Moment(now, t))) == Left(was, K.Decided(op, cap, K.Found(was, t), now), t)
  {
  }

  /** One rewrite is one step of the sets. */
  lemma RewriteIsStep(c: Codec, cap: nat, op: K.Op, view: View, t: int, k: Key, m: Try)
    requires ReadsBack(c) && Ends(view, k)
    ensures var next := RewriteStep(view, t, k, Deciding(c, cap, op), m).view;
      && RecordIn(c, next, k) == K.Step(cap, RecordIn(c, view, k), K.Event(op, K.Moment(m.clock, t)))
      && Ends(next, k)
  {
    FoundIsRead(c, view, k, t);
    StepLeaves(cap, RecordIn(c, view, k), op, m.clock, t);
    RewriteLeaves(
      c, view, t, k, Deciding(c, cap, op), m, K.Decided(op, cap, StoredIn(c, LiveValue(view, k, t)), m.clock));
  }

  /** One operation done at a call of the run. */
  datatype Deed = Deed(op: K.Op, m: Try, place: nat)

  ghost predicate DeedAt(calls: seq<Call>, k: Key, c: Codec, cap: nat, d: Deed) {
    && d.place < |calls|
    && RewriteStep(ViewAt(calls, d.place), calls[d.place].at, k, Deciding(c, cap, d.op), d.m).view
       == ViewAt(calls, d.place + 1)
  }

  /** Those it pushed out. */
  function OutOf(calls: seq<Call>, k: Key, c: Codec, cap: nat, d: Deed): seq<string>
    requires d.place < |calls|
  {
    OutOn(c, cap, d.op, LiveValue(ViewAt(calls, d.place), k, calls[d.place].at), d.m)
  }

  function OutOn(c: Codec, cap: nat, op: K.Op, current: Option<Json>, m: Try): seq<string> {
    var w := K.Decided(op, cap, StoredIn(c, current), m.clock);
    if w.None? then [] else w.value.out
  }

  /** Done at one instant since call `from`, by a call of these alone, with this clock reading and nothing else. */
  ghost predicate DoneFrom(
    calls: seq<Call>, from: nat, k: Key, c: Codec, cap: nat, d: Deed, out: seq<string>, rs: set<Request>) {
    from <= d.place && DeedAt(calls, k, c, cap, d) && OnlyAt(calls, rs, d.place) && out == OutOf(calls, k, c, cap, d)
  }

  lemma RewrittenParts(calls: seq<Call>, from: nat, k: Key, decide: Decide, m: Try, done: Changed, rs: set<Request>)
    returns (e: nat)
    requires RewrittenFrom(calls, from, k, decide, m, done, rs)
    ensures from <= e < |calls| && OnlyAt(calls, rs, e)
    ensures RewriteStep(ViewAt(calls, e), calls[e].at, k, decide, m).view == ViewAt(calls, e + 1)
    ensures done.before == LiveValue(ViewAt(calls, e), k, calls[e].at)
  {
    e :| from <= e && RewrittenAt(calls, e, k, decide, m, done) && OnlyAt(calls, rs, e);
  }

  lemma DeedDone(
    calls: seq<Call>, from: nat, k: Key, c: Codec, cap: nat, d: Deed, before: Option<Json>, rs: set<Request>)
    requires from <= d.place < |calls| && OnlyAt(calls, rs, d.place) && DeedAt(calls, k, c, cap, d)
    requires before == LiveValue(ViewAt(calls, d.place), k, calls[d.place].at)
    ensures DoneFrom(calls, from, k, c, cap, d, OutOn(c, cap, d.op, before, d.m), rs)
  {
  }

  /** What a rewrite with this decision came to. */
  lemma RewriteIsDeed(
    calls: seq<Call>, from: nat, k: Key, c: Codec, cap: nat, op: K.Op, m: Try, done: Changed, rs: set<Request>)
    returns (d: Deed)
    requires RewrittenFrom(calls, from, k, Deciding(c, cap, op), m, done, rs)
    ensures d.op == op && d.m == m && DoneFrom(calls, from, k, c, cap, d, OutOn(c, cap, op, done.before, m), rs)
  {
    var e := RewrittenParts(calls, from, k, Deciding(c, cap, op), m, done, rs);
    d := Deed(op, m, e);
    DeedDone(calls, from, k, c, cap, d, done.before, rs);
  }

  /** One rewrite of the key's record; what the last decision pushed out is what the one written did. */
  method Operate(line: Line, k: Key, c: Codec, cap: nat, op: K.Op, clock: nat -> int)
    returns (out: Result<seq<string>>, ghost deed: Deed)
    requires line.Valid() && k.name != SETTLED
    modifies line
    ensures line.Valid() && line.Grew() && Tidy(line) && WholeFor(line, Rewriting(k, Deciding(c, cap, op)))
    ensures out.Done? ==>
      && DoneFrom(line.calls, |old(line.calls)|, k, c, cap, deed, out.value, line.sent - old(line.sent))
      && deed.op == op && exists n: nat :: deed.m.clock == clock(n)
  {
    var result, m := Rewrite(line, k, Deciding(c, cap, op), clock);
    deed := Deed(op, m, 0);
    if !result.Done? { return Unavailable, deed; }
    deed := RewriteIsDeed(
      line.calls, |old(line.calls)|, k, c, cap, op, m, result.value, line.sent - old(line.sent));
    out := Done(OutOn(c, cap, op, result.value.before, m));
  }

  /** The end is fixed at the add, so a write that lands late never shortens it. */
  method Add(line: Line, k: Key, c: Codec, cap: nat, member: string, lifetimeMs: int, first: int, clock: nat -> int)
    returns (pushedOut: Result<seq<string>>, ghost deed: Deed)
    requires line.Valid() && k.name != SETTLED
    modifies line
    ensures line.Valid() && line.Grew() && Tidy(line)
    ensures WholeFor(line, Rewriting(k, Deciding(c, cap, K.Add(member, first + lifetimeMs))))
    ensures pushedOut.Done? ==>
      && DoneFrom(line.calls, |old(line.calls)|, k, c, cap, deed, pushedOut.value, line.sent - old(line.sent))
      && deed.op == K.Add(member, first + lifetimeMs)
  {
    pushedOut, deed := Operate(line, k, c, cap, K.Add(member, first + lifetimeMs), clock);
  }

  // ---- All operations on a key ----

  /** Listed in the order of their calls, and nobody else changes what the key holds. */
  ghost predicate Listed(calls: seq<Call>, k: Key, c: Codec, cap: nat, deeds: seq<Deed>) {
    && (forall n: nat {:trigger K.Turn(n)} :: n < |deeds| ==> DeedAt(calls, k, c, cap, deeds[n]))
    && (forall n :: 0 <= n < |deeds| ==> deeds[n].place < |calls|)
    && (forall m, n :: 0 <= m < n < |deeds| ==> deeds[m].place < deeds[n].place) && Alone(calls, k, deeds)
  }

  ghost predicate Alone(calls: seq<Call>, k: Key, deeds: seq<Deed>) {
    forall e: nat {:trigger IsPlace(deeds, e)} ::
      e < |calls| && !IsPlace(deeds, e) ==> CellAt(ViewAt(calls, e + 1), k) == CellAt(ViewAt(calls, e), k)
  }

  predicate IsPlace(deeds: seq<Deed>, e: nat) { exists n :: 0 <= n < |deeds| && deeds[n].place == e }

  lemma {:induction false} Quiet(calls: seq<Call>, k: Key, deeds: seq<Deed>, i: nat, j: nat)
    requires Alone(calls, k, deeds) && i <= j <= |calls| && forall e: nat :: i <= e < j ==> !IsPlace(deeds, e)
    ensures CellAt(ViewAt(calls, j), k) == CellAt(ViewAt(calls, i), k)
    decreases j
  {
    if i < j {
      Quiet(calls, k, deeds, i, j - 1);
      assert !IsPlace(deeds, j - 1);
    }
  }

  function PlaceOf(calls: seq<Call>, deeds: seq<Deed>, n: nat): nat {
    if n < |deeds| then deeds[n].place else |calls|
  }

  lemma BetweenQuiet(calls: seq<Call>, k: Key, c: Codec, cap: nat, deeds: seq<Deed>, n: nat)
    requires Listed(calls, k, c, cap, deeds) && n <= |deeds|
    ensures var from, to := if n == 0 then 0 else deeds[n - 1].place + 1, PlaceOf(calls, deeds, n);
      from <= to <= |calls| && CellAt(ViewAt(calls, to), k) == CellAt(ViewAt(calls, from), k)
  {
    var from, to := if n == 0 then 0 else deeds[n - 1].place + 1, PlaceOf(calls, deeds, n);
    forall e: nat | from <= e < to ensures !IsPlace(deeds, e) {
      forall m | 0 <= m < |deeds| ensures deeds[m].place != e {
        if m >= n { assert to <= deeds[m].place; }
        if 0 <= m < n - 1 { assert deeds[m].place < deeds[n - 1].place; }
      }
    }
    Quiet(calls, k, deeds, from, to);
  }

  function EventOf(calls: seq<Call>, d: Deed): K.Event
    requires d.place < |calls|
  {
    K.Event(d.op, K.Moment(d.m.clock, calls[d.place].at))
  }

  lemma DeedIsStep(calls: seq<Call>, k: Key, c: Codec, cap: nat, d: Deed)
    requires DeedAt(calls, k, c, cap, d) && ReadsBack(c) && Ends(ViewAt(calls, d.place), k)
    ensures var was := RecordIn(c, ViewAt(calls, d.place), k);
      && RecordIn(c, ViewAt(calls, d.place + 1), k) == K.Step(cap, was, EventOf(calls, d))
      && OutOf(calls, k, c, cap, d) == K.OutBy(cap, was, EventOf(calls, d))
    ensures Ends(ViewAt(calls, d.place + 1), k)
  {
    RewriteIsStep(c, cap, d.op, ViewAt(calls, d.place), calls[d.place].at, k, d.m);
    FoundIsRead(c, ViewAt(calls, d.place), k, calls[d.place].at);
  }

  lemma EndsTurn(calls: seq<Call>, k: Key, c: Codec, cap: nat, deeds: seq<Deed>, n: nat)
    requires Listed(calls, k, c, cap, deeds) && ReadsBack(c) && n < |deeds|
    requires deeds[n].place < |calls| && Ends(ViewAt(calls, deeds[n].place), k)
    ensures Ends(ViewAt(calls, deeds[n].place + 1), k)
  {
    assert K.Turn(n);
    DeedIsStep(calls, k, c, cap, deeds[n]);
  }

  lemma EndsSame(a: View, b: View, k: Key)
    requires CellAt(a, k) == CellAt(b, k) && Ends(a, k)
    ensures Ends(b, k)
  {
  }

  lemma {:induction false} EndsAlways(calls: seq<Call>, k: Key, c: Codec, cap: nat, deeds: seq<Deed>, n: nat)
    requires Listed(calls, k, c, cap, deeds) && ReadsBack(c) && n <= |deeds|
    ensures PlaceOf(calls, deeds, n) <= |calls| && Ends(ViewAt(calls, PlaceOf(calls, deeds, n)), k)
  {
    BetweenQuiet(calls, k, c, cap, deeds, n);
    if n == 0 {
      assert calls[..0] == [];
    } else {
      EndsAlways(calls, k, c, cap, deeds, n - 1);
      EndsTurn(calls, k, c, cap, deeds, n - 1);
      EndsSame(ViewAt(calls, deeds[n - 1].place + 1), ViewAt(calls, PlaceOf(calls, deeds, n)), k);
    }
  }

  lemma RecordSame(c: Codec, a: View, b: View, k: Key)
    requires CellAt(a, k) == CellAt(b, k)
    ensures RecordIn(c, a, k) == RecordIn(c, b, k)
  {
  }

  lemma DeedStep(calls: seq<Call>, k: Key, c: Codec, cap: nat, deeds: seq<Deed>, n: nat)
    requires Listed(calls, k, c, cap, deeds) && ReadsBack(c) && n < |deeds|
    ensures deeds[n].place < |calls|
    ensures var was := RecordIn(c, ViewAt(calls, deeds[n].place), k);
      && RecordIn(c, ViewAt(calls, deeds[n].place + 1), k) == K.Step(cap, was, EventOf(calls, deeds[n]))
      && OutOf(calls, k, c, cap, deeds[n]) == K.OutBy(cap, was, EventOf(calls, deeds[n]))
  {
    EndsAlways(calls, k, c, cap, deeds, n);
    assert K.Turn(n);
    DeedIsStep(calls, k, c, cap, deeds[n]);
  }

  lemma DeedTurn(calls: seq<Call>, k: Key, c: Codec, cap: nat, deeds: seq<Deed>, n: nat)
    requires Listed(calls, k, c, cap, deeds) && ReadsBack(c) && n < |deeds|
    ensures PlaceOf(calls, deeds, n + 1) <= |calls|
    ensures var was := RecordIn(c, ViewAt(calls, deeds[n].place), k);
      && RecordIn(c, ViewAt(calls, PlaceOf(calls, deeds, n + 1)), k) == K.Step(cap, was, EventOf(calls, deeds[n]))
      && OutOf(calls, k, c, cap, deeds[n]) == K.OutBy(cap, was, EventOf(calls, deeds[n]))
  {
    DeedStep(calls, k, c, cap, deeds, n);
    BetweenQuiet(calls, k, c, cap, deeds, n + 1);
    RecordSame(c, ViewAt(calls, PlaceOf(calls, deeds, n + 1)), ViewAt(calls, deeds[n].place + 1), k);
  }

  /** Whatever else reaches the store, all operations on a key, in the order of their instants, are a run of the
      sets: each decided on what it replaced, and told whom it pushed out. */
  lemma CallsAreAWalk(calls: seq<Call>, k: Key, c: Codec, cap: nat, deeds: seq<Deed>)
    returns (events: seq<K.Event>, states: seq<Option<K.Record>>, outs: seq<seq<string>>)
    requires Listed(calls, k, c, cap, deeds) && ReadsBack(c) && cap >= 1
    ensures K.Walk(cap, events, states, outs) && |events| == |deeds|
    ensures forall n :: 0 <= n < |deeds| ==>
      events[n] == EventOf(calls, deeds[n]) && outs[n] == OutOf(calls, k, c, cap, deeds[n])
    ensures states[|deeds|] == RecordIn(c, ViewAt(calls, |calls|), k)
  {
    forall n: nat | n <= |deeds| ensures PlaceOf(calls, deeds, n) <= |calls| {}
    events := seq(|deeds|, n requires 0 <= n < |deeds| => EventOf(calls, deeds[n]));
    outs := seq(|deeds|, n requires 0 <= n < |deeds| => OutOf(calls, k, c, cap, deeds[n]));
    states := seq(
      |deeds| + 1, n requires 0 <= n <= |deeds| => RecordIn(c, ViewAt(calls, PlaceOf(calls, deeds, n)), k));
    BetweenQuiet(calls, k, c, cap, deeds, 0);
    assert calls[..0] == [];
    forall n: nat | n < |deeds|
      ensures states[n + 1] == K.Step(cap, states[n], events[n]) && outs[n] == K.OutBy(cap, states[n], events[n])
    {
      DeedTurn(calls, k, c, cap, deeds, n);
    }
  }
}
