/** Sets of members by key, at most so many to a key, each member ending at its own time. What an add
    pushes out awaits in the same write. Every operation is one rewrite of the key's record. */
module KeyedSets {
  import opened Wrappers
  import opened Text
  import opened Members

  const CLEARING_MS := 10 * 60_000

  /** What the record may hold: an earlier form lists the held alone. */
  datatype Stored = Whole(held: seq<Pair>, awaiting: seq<Pair>) | Listed(pairs: seq<Pair>) | Other

  datatype Content = Content(held: seq<Pair>, awaiting: seq<Pair>)

  function ContentOf(value: Option<Stored>): Content {
    match value
    case Some(Whole(held, awaiting)) => Content(held, awaiting)
    case Some(Listed(pairs)) => Content(pairs, [])
    case _ => Content([], [])
  }

  /** What a decision writes, how long it is kept, and what it pushed out. */
  datatype Writing = Writing(held: seq<Pair>, awaiting: seq<Pair>, ms: nat, out: seq<string>)

  function LastEnd(ps: seq<Pair>, now: int): (r: int)
    ensures now <= r && forall p :: p in ps ==> p.ends <= r
  {
    if ps == [] then now
    else
      assert ps == ps[..|ps| - 1] + [ps[|ps| - 1]];
      Max(LastEnd(ps[..|ps| - 1], now), ps[|ps| - 1].ends)
  }

  function Written(held: seq<Pair>, awaiting: seq<Pair>, now: int, out: seq<string>): Writing {
    Writing(held, awaiting, Max(1, LastEnd(held + awaiting, now) - now) + CLEARING_MS, out)
  }

  /** The live members with the added one, which never ends before it already did. */
  function KeptWith(held: seq<Pair>, member: string, ends: int, now: int): seq<Pair> {
    var kept := MapOf(Live(held, now));
    SetIn(kept, member, Max(EndOf(kept, member).GetOr(0), ends))
  }

  function AwaitAll(awaiting: seq<Pair>, kept: seq<Pair>, out: seq<string>, now: int): seq<Pair> {
    if out == [] then awaiting
    else
      var name := out[|out| - 1];
      SetIn(AwaitAll(awaiting, kept, out[..|out| - 1], now), name, EndOf(kept, name).GetOr(now))
  }

  function Added(c: Content, cap: nat, member: string, ends: int, now: int): Writing {
    var kept := KeptWith(c.held, member, ends, now);
    var capped := OverCap(SortedByEnd(kept), member, cap);
    Written(capped.held, AwaitAll(MapOf(Live(c.awaiting, now)), kept, capped.out, now), now, capped.out)
  }

  function Without(ps: seq<Pair>, member: string): seq<Pair> { Filter(ps, (p: Pair) => p.member != member) }

  datatype Op = Add(member: string, ends: int) | Remove(member: string) | Settle(member: string)

  /** What an operation decides on what it read; removing and settling leave an absent record absent. */
  function Decided(op: Op, cap: nat, current: Option<Stored>, now: int): Option<Writing> {
    var c := ContentOf(current);
    match op
    case Add(member, ends) => Some(Added(c, cap, member, ends, now))
    case Remove(member) =>
      if current.None? then None else Some(Written(Without(c.held, member), Live(c.awaiting, now), now, []))
    case Settle(member) =>
      if current.None? then None else Some(Written(c.held, Without(Live(c.awaiting, now), member), now, []))
  }

  /** An add's decision as it fills its maps. */
  method DecideAdd(current: Option<Stored>, cap: nat, member: string, ends: int, now: int) returns (w: Writing)
    ensures w == Added(ContentOf(current), cap, member, ends, now)
  {
    var content := ContentOf(current);
    var kept := NewMap(Live(content.held, now));
    var still := EndOf(kept, member);
    kept := SetIn(kept, member, Max(if still.Some? then still.value else 0, ends));
    var capped := OverCap(SortedByEnd(kept), member, cap);
    var awaiting := NewMap(Live(content.awaiting, now));
    ghost var before := awaiting;
    var i := 0;
    while i < |capped.out|
      invariant i <= |capped.out| && awaiting == AwaitAll(before, kept, capped.out[..i], now)
    {
      assert capped.out[..i + 1][..i] == capped.out[..i];
      awaiting := SetIn(awaiting, capped.out[i], EndOf(kept, capped.out[i]).GetOr(now));
      i := i + 1;
    }
    assert capped.out[..i] == capped.out;
    w := Written(capped.held, awaiting, now, capped.out);
  }

  /** A new map filled from a list. */
  method NewMap(ps: seq<Pair>) returns (m: seq<Pair>)
    ensures m == MapOf(ps)
  {
    m := [];
    var i := 0;
    while i < |ps|
      invariant i <= |ps| && m == MapOf(ps[..i])
    {
      assert ps[..i + 1][..i] == ps[..i];
      m := SetIn(m, ps[i].member, ps[i].ends);
      i := i + 1;
    }
    assert ps[..i] == ps;
  }

  // ---- One operation ----

  lemma {:induction false} AwaitAllFacts(awaiting: seq<Pair>, kept: seq<Pair>, out: seq<string>, now: int)
    requires Distinct(awaiting)
    ensures Distinct(AwaitAll(awaiting, kept, out, now))
    ensures forall p :: p in AwaitAll(awaiting, kept, out, now) <==>
      if p.member in out then p.ends == EndOf(kept, p.member).GetOr(now) else p in awaiting
  {
    if out != [] {
      var init, name := out[..|out| - 1], out[|out| - 1];
      assert out == init + [name];
      AwaitAllFacts(awaiting, kept, init, now);
      SetInFacts(AwaitAll(awaiting, kept, init, now), name, EndOf(kept, name).GetOr(now));
    }
  }

  /** The live members and the added one, whose end is the last of the old and the new. */
  ghost predicate KeptSo(held: seq<Pair>, member: string, ends: int, now: int, kept: seq<Pair>) {
    && Distinct(kept) && member in Names(kept)
    && (forall p: Pair :: p.member != member ==> (p in kept <==> p in held && p.ends > now))
    && (forall p :: p in kept && p.member == member ==> ends <= p.ends)
    && (forall p, q :: p in held && p.ends > now && p.member == member && q in kept && q.member == member ==>
         p.ends <= q.ends)
  }

  lemma KeptFacts(held: seq<Pair>, member: string, ends: int, now: int)
    requires Distinct(held)
    ensures KeptSo(held, member, ends, now, KeptWith(held, member, ends, now))
  {
    FilterDistinct(held, (p: Pair) => p.ends > now);
    MapOfDistinct(Live(held, now));
    var live := Live(held, now);
    var still := EndOf(live, member);
    var last := Max(still.GetOr(0), ends);
    SetInFacts(live, member, last);
    assert Pair(member, last) in KeptWith(held, member, ends, now);
    forall p | p in live && p.member == member ensures still == Some(p.ends) { EndListed(live, p); }
  }

  /** An add's own member is held, ending no earlier than asked or than before; of the other live members
      exactly the first to end, as many as are over the cap, are held no more. */
  ghost predicate HoldsWell(
    before: seq<Pair>, cap: nat, member: string, ends: int, now: int, held: seq<Pair>, out: seq<string>) {
    && Distinct(held) && |held| <= cap
    && (exists p :: p in held && p.member == member && ends <= p.ends)
    && (forall p, q :: p in before && p.ends > now && p.member == member && q in held && q.member == member ==>
         p.ends <= q.ends)
    && (forall p: Pair :: p.member != member ==> (p in held <==> p in before && p.ends > now && p.member !in out))
    && (forall p, q :: p in before && p.ends > now && p.member in out && q in held && q.member != member ==>
         Before(p, q))
    && |out| == Max(0, |Names(Live(before, now)) + {member}| - cap)
  }

  /** What it pushed out, live members held till then and none twice, awaits; what awaited goes on to. */
  ghost predicate WaitsWell(c: Content, member: string, now: int, awaiting: seq<Pair>, out: seq<string>) {
    && Distinct(awaiting) && member !in out && NoneTwice(out)
    && (forall name :: name in out ==> exists p :: p in c.held && p.ends > now && p.member == name)
    && (forall p: Pair :: p.member in out ==> (p in awaiting <==> p in c.held && p.ends > now))
    && (forall p: Pair :: p.member !in out ==> (p in awaiting <==> p in c.awaiting && p.ends > now))
  }

  lemma SortedKept(held: seq<Pair>, member: string, ends: int, now: int)
    requires Distinct(held)
    ensures var byEnd := SortedByEnd(KeptWith(held, member, ends, now));
      && ByEnd(byEnd) && Distinct(byEnd) && KeptSo(held, member, ends, now, byEnd)
      && |byEnd| == |Names(Live(held, now)) + {member}|
      && (forall p :: p in byEnd <==> p in KeptWith(held, member, ends, now))
  {
    var kept := KeptWith(held, member, ends, now);
    KeptFacts(held, member, ends, now);
    SortedFacts(kept);
    SortedDistinct(kept);
    assert Names(SortedByEnd(kept)) == Names(kept);
    NamesCount(kept);
    KeptNames(held, member, now, ends, kept);
  }

  lemma HeldFrom(before: seq<Pair>, cap: nat, member: string, ends: int, now: int, byEnd: seq<Pair>, c: Capped)
    requires KeptSo(before, member, ends, now, byEnd) && CappedSo(byEnd, member, cap, c)
    requires |byEnd| == |Names(Live(before, now)) + {member}|
    ensures HoldsWell(before, cap, member, ends, now, c.held, c.out)
  {
    var own :| own in byEnd && own.member == member;
    assert own in c.held;
  }

  lemma AddedHolds(c: Content, cap: nat, member: string, ends: int, now: int)
    requires Distinct(c.held) && cap >= 1
    ensures var w := Added(c, cap, member, ends, now); HoldsWell(c.held, cap, member, ends, now, w.held, w.out)
  {
    var byEnd := SortedByEnd(KeptWith(c.held, member, ends, now));
    SortedKept(c.held, member, ends, now);
    OverCapFacts(byEnd, member, cap);
    HeldFrom(c.held, cap, member, ends, now, byEnd, OverCap(byEnd, member, cap));
  }

  lemma WaitsFrom(
    c: Content, cap: nat, member: string, ends: int, now: int, byEnd: seq<Pair>, capped: Capped,
    awaiting: seq<Pair>)
    requires KeptSo(c.held, member, ends, now, byEnd) && CappedSo(byEnd, member, cap, capped)
    requires AwaitsSo(c, byEnd, capped.out, now, awaiting)
    ensures WaitsWell(c, member, now, awaiting, capped.out)
  {
    forall name | name in capped.out ensures exists p :: p in c.held && p.ends > now && p.member == name {
      var p :| p in byEnd && p.member == name;
      assert p in c.held && p.ends > now;
    }
  }

  lemma AddedWaits(c: Content, cap: nat, member: string, ends: int, now: int)
    requires Distinct(c.held) && Distinct(c.awaiting) && cap >= 1
    ensures var w := Added(c, cap, member, ends, now); WaitsWell(c, member, now, w.awaiting, w.out)
  {
    var kept := KeptWith(c.held, member, ends, now);
    var byEnd := SortedByEnd(kept);
    SortedKept(c.held, member, ends, now);
    OverCapFacts(byEnd, member, cap);
    var capped := OverCap(byEnd, member, cap);
    KeptFacts(c.held, member, ends, now);
    assert Names(byEnd) == Names(kept);
    AwaitsWell(c, kept, capped.out, now);
    var awaiting := AwaitAll(MapOf(Live(c.awaiting, now)), kept, capped.out, now);
    WaitsFrom(c, cap, member, ends, now, byEnd, capped, awaiting);
  }

  lemma KeptNames(held: seq<Pair>, member: string, now: int, ends: int, kept: seq<Pair>)
    requires KeptSo(held, member, ends, now, kept)
    ensures Names(kept) == Names(Live(held, now)) + {member}
  {
    var live := Live(held, now);
    forall name ensures name in Names(kept) <==> name in Names(live) + {member} {
      if name in Names(kept) && name != member {
        var p :| p in kept && p.member == name;
        assert p in live;
      }
      if name in Names(live) && name != member {
        var p :| p in live && p.member == name;
        assert p in kept;
      }
    }
  }

  ghost predicate AwaitsSo(c: Content, kept: seq<Pair>, out: seq<string>, now: int, awaiting: seq<Pair>) {
    && Distinct(awaiting)
    && (forall p :: p in kept && p.member in out ==> p in awaiting)
    && (forall p :: p in awaiting && p.member in out ==> p in kept)
    && (forall p: Pair :: p.member !in out ==> (p in awaiting <==> p in c.awaiting && p.ends > now))
  }

  lemma AwaitsWell(c: Content, kept: seq<Pair>, out: seq<string>, now: int)
    requires Distinct(c.awaiting) && Distinct(kept) && forall name :: name in out ==> name in Names(kept)
    ensures AwaitsSo(c, kept, out, now, AwaitAll(MapOf(Live(c.awaiting, now)), kept, out, now))
  {
    FilterDistinct(c.awaiting, (p: Pair) => p.ends > now);
    MapOfDistinct(Live(c.awaiting, now));
    AwaitAllFacts(Live(c.awaiting, now), kept, out, now);
    forall p | p in kept && p.member in out ensures EndOf(kept, p.member) == Some(p.ends) { EndListed(kept, p); }
  }

  // ---- Any interleaving ----

  /** The clock members end on, and the store's, when an operation's write is carried out. */
  datatype Moment = Moment(now: int, at: int)

  datatype Event = Event(op: Op, when: Moment)

  datatype Record = Record(stored: Stored, expiresAt: int)

  function Found(s: Option<Record>, at: int): Option<Stored> {
    if s.Some? && s.value.expiresAt > at then Some(s.value.stored) else None
  }

  function WritingOf(cap: nat, s: Option<Record>, e: Event): Option<Writing> {
    Decided(e.op, cap, Found(s, e.when.at), e.when.now)
  }

  /** One operation carried out, its decision made from the record it replaces. */
  function Step(cap: nat, s: Option<Record>, e: Event): Option<Record> {
    var w := WritingOf(cap, s, e);
    if w.None? then s else Some(Record(Whole(w.value.held, w.value.awaiting), e.when.at + w.value.ms))
  }

  /** Those an operation pushes out. */
  function OutBy(cap: nat, s: Option<Record>, e: Event): seq<string> {
    var w := WritingOf(cap, s, e);
    if w.None? then [] else w.value.out
  }

  /** Names a turn of a run, for a proof to look into that turn only. */
  predicate Turn(n: nat) { true }

  /** These are the records that operations on a key come through, one after another, from none, and the
      members each pushes out. */
  ghost predicate Walk(cap: nat, events: seq<Event>, states: seq<Option<Record>>, outs: seq<seq<string>>) {
    && |states| == |events| + 1 && |outs| == |events| && states[0] == None && cap >= 1
    && (forall n: nat {:trigger Turn(n)} :: n < |events| ==>
        states[n + 1] == Step(cap, states[n], events[n]) && outs[n] == OutBy(cap, states[n], events[n]))
  }

  /** The two clocks, and the time a decision takes to land, never move apart by more than the clearing time. */
  predicate Steady(a: Moment, b: Moment) {
    (b.at - b.now) - (a.at - a.now) <= CLEARING_MS
  }

  predicate AllSteady(events: seq<Event>) {
    forall i, j :: 0 <= i < |events| && 0 <= j < |events| ==> Steady(events[i].when, events[j].when)
  }

  ghost predicate WellKept(cap: nat, s: Option<Record>) {
    s.Some? ==>
      && s.value.stored.Whole? && |s.value.stored.held| <= cap
      && Distinct(s.value.stored.held) && Distinct(s.value.stored.awaiting)
  }

  lemma StepKept(cap: nat, s: Option<Record>, e: Event)
    requires WellKept(cap, s) && cap >= 1
    ensures WellKept(cap, Step(cap, s, e))
  {
    var c, now := ContentOf(Found(s, e.when.at)), e.when.now;
    FilterDistinct(c.awaiting, (p: Pair) => p.ends > now);
    match e.op
    case Add(member, ends) =>
      AddedHolds(c, cap, member, ends, now);
      AddedWaits(c, cap, member, ends, now);
    case Remove(member) =>
      FilterDistinct(c.held, (p: Pair) => p.member != member);
      FilterShorter(c.held, (p: Pair) => p.member != member);
    case Settle(member) => FilterDistinct(Live(c.awaiting, now), (p: Pair) => p.member != member);
  }

  lemma {:induction false} FilterShorter(ps: seq<Pair>, keep: Pair -> bool)
    ensures |Filter(ps, keep)| <= |ps|
  {
    if ps != [] { FilterShorter(ps[..|ps| - 1], keep); }
  }

  /** Whatever comes together, no more than the cap are held, and nobody is held or awaits twice. */
  lemma {:induction false} NeverOverCap(
    cap: nat, events: seq<Event>, states: seq<Option<Record>>, outs: seq<seq<string>>, n: nat)
    requires Walk(cap, events, states, outs) && n <= |events|
    ensures WellKept(cap, states[n])
  {
    if n > 0 {
      NeverOverCap(cap, events, states, outs, n - 1);
      assert Turn(n - 1);
      StepKept(cap, states[n - 1], events[n - 1]);
    }
  }

  // ---- The record outlives what it keeps ----

  function HeldIn(s: Option<Record>): seq<Pair> {
    if s.None? then [] else ContentOf(Some(s.value.stored)).held
  }

  function AwaitingIn(s: Option<Record>): seq<Pair> {
    if s.None? then [] else ContentOf(Some(s.value.stored)).awaiting
  }

  ghost predicate KeptBy(s: Option<Record>, p: Pair) { p in HeldIn(s) || p in AwaitingIn(s) }

  /** Written at this moment, it is kept past every end in it and the clearing time. */
  ghost predicate OutlivesFrom(s: Option<Record>, when: Moment) {
    forall p :: KeptBy(s, p) ==> p.ends + CLEARING_MS + (when.at - when.now) <= s.value.expiresAt
  }

  lemma StepOutlives(cap: nat, s: Option<Record>, e: Event)
    requires WritingOf(cap, s, e).Some?
    ensures OutlivesFrom(Step(cap, s, e), e.when)
  {
    var w := WritingOf(cap, s, e).value;
    forall p | KeptBy(Step(cap, s, e), p) ensures p.ends <= LastEnd(w.held + w.awaiting, e.when.now) {
      assert p in w.held + w.awaiting;
    }
  }

  lemma OutlivesTurn(cap: nat, events: seq<Event>, states: seq<Option<Record>>, outs: seq<seq<string>>, n: nat)
    requires Walk(cap, events, states, outs) && n < |events|
    ensures states[n + 1] == states[n] || OutlivesFrom(states[n + 1], events[n].when)
  {
    assert Turn(n);
    if WritingOf(cap, states[n], events[n]).Some? { StepOutlives(cap, states[n], events[n]); }
  }

  lemma {:induction false} RunOutlives(
    cap: nat, events: seq<Event>, states: seq<Option<Record>>, outs: seq<seq<string>>, n: nat)
    requires Walk(cap, events, states, outs) && n <= |events| && states[n].Some?
    ensures exists i :: 0 <= i < n && OutlivesFrom(states[n], events[i].when)
  {
    OutlivesTurn(cap, events, states, outs, n - 1);
    if states[n] == states[n - 1] { RunOutlives(cap, events, states, outs, n - 1); }
  }

  /** While anything in it lives, the record is found, on clocks no further apart than the clearing time. */
  lemma FoundWhileLive(
    cap: nat, events: seq<Event>, states: seq<Option<Record>>,
    outs: seq<seq<string>>, n: nat, when: Moment, p: Pair)
    requires Walk(cap, events, states, outs) && n <= |events| && KeptBy(states[n], p) && p.ends > when.now
    requires forall i :: 0 <= i < n ==> Steady(events[i].when, when)
    ensures Found(states[n], when.at) == Some(states[n].value.stored)
  {
    RunOutlives(cap, events, states, outs, n);
    var i :| 0 <= i < n && OutlivesFrom(states[n], events[i].when);
  }

  // ---- Who stays ----

  /** Held before at an end not yet come: held on at no earlier end, unless removed by name; pushed out, and
      then it awaits, its end kept. */
  ghost predicate StaysOrAwaits(cap: nat, s: Option<Record>, e: Event, p: Pair) {
    var t := Step(cap, s, e);
    if p.member in OutBy(cap, s, e) then p in AwaitingIn(t) && forall q :: q in HeldIn(t) ==> q.member != p.member
    else if e.op == Remove(p.member) then forall q :: q in HeldIn(t) ==> q.member != p.member
    else exists q :: q in HeldIn(t) && q.member == p.member && p.ends <= q.ends
  }

  lemma HeldOn(cap: nat, s: Option<Record>, e: Event, p: Pair)
    requires cap >= 1 && WellKept(cap, s) && p in HeldIn(s) && p.ends > e.when.now
    requires Found(s, e.when.at) == Some(s.value.stored)
    ensures StaysOrAwaits(cap, s, e, p)
  {
    var c := ContentOf(Found(s, e.when.at));
    if e.op.Add? {
      HeldOnAdd(c, cap, e.op.member, e.op.ends, e.when.now, p);
    } else {
      assert e.op != Remove(p.member) ==> p in HeldIn(Step(cap, s, e));
    }
  }

  lemma HeldOnAdd(c: Content, cap: nat, member: string, ends: int, now: int, p: Pair)
    requires Distinct(c.held) && Distinct(c.awaiting) && cap >= 1 && p in c.held && p.ends > now
    ensures var w := Added(c, cap, member, ends, now);
      if p.member in w.out then p in w.awaiting && forall q :: q in w.held ==> q.member != p.member
      else exists q :: q in w.held && q.member == p.member && p.ends <= q.ends
  {
    AddedHolds(c, cap, member, ends, now);
    AddedWaits(c, cap, member, ends, now);
    var w := Added(c, cap, member, ends, now);
    if p.member in w.out {
      forall q | q in w.held ensures q.member != p.member {}
    } else if p.member == member {
      var q :| q in w.held && q.member == member && ends <= q.ends;
      assert p.ends <= q.ends;
    } else {
      assert p in w.held;
    }
  }

  /** The member is held, to this end or later. */
  ghost predicate HeldTill(s: Option<Record>, member: string, ends: int) {
    exists q :: q in HeldIn(s) && q.member == member && ends <= q.ends
  }

  /** The operation comes before the member's end, does not remove it and does not push it out. */
  predicate Spares(e: Event, out: seq<string>, member: string, ends: int) {
    ends > e.when.now && e.op != Remove(member) && member !in out
  }

  lemma FoundTurn(
    cap: nat, events: seq<Event>, states: seq<Option<Record>>, outs: seq<seq<string>>, n: nat, p: Pair)
    requires Walk(cap, events, states, outs) && AllSteady(events) && n < |events|
    requires KeptBy(states[n], p) && p.ends > events[n].when.now
    ensures WellKept(cap, states[n]) && Found(states[n], events[n].when.at) == Some(states[n].value.stored)
  {
    NeverOverCap(cap, events, states, outs, n);
    FoundWhileLive(cap, events, states, outs, n, events[n].when, p);
  }

  lemma HeldTurn(
    cap: nat, events: seq<Event>, states: seq<Option<Record>>, outs: seq<seq<string>>, n: nat, p: Pair)
    requires Walk(cap, events, states, outs) && AllSteady(events) && n < |events|
    requires p in HeldIn(states[n]) && Spares(events[n], outs[n], p.member, p.ends)
    ensures HeldTill(states[n + 1], p.member, p.ends)
  {
    FoundTurn(cap, events, states, outs, n, p);
    HeldOn(cap, states[n], events[n], p);
    assert Turn(n);
  }

  lemma HeldStep(
    cap: nat, events: seq<Event>, states: seq<Option<Record>>, outs: seq<seq<string>>, n: nat, member: string,
    ends: int)
    requires Walk(cap, events, states, outs) && AllSteady(events) && n < |events|
    requires HeldTill(states[n], member, ends) && Spares(events[n], outs[n], member, ends)
    ensures HeldTill(states[n + 1], member, ends)
  {
    var q :| q in HeldIn(states[n]) && q.member == member && ends <= q.ends;
    HeldTurn(cap, events, states, outs, n, q);
  }

  /** Over any run: a live member leaves the held only when it is removed, or pushed out to await. */
  lemma {:induction false} StaysHeld(
    cap: nat, events: seq<Event>, states: seq<Option<Record>>, outs: seq<seq<string>>, i: nat, j: nat,
    member: string, ends: int)
    requires Walk(cap, events, states, outs) && AllSteady(events) && i <= j <= |events|
    requires HeldTill(states[i], member, ends)
    requires forall k :: i <= k < j ==> Spares(events[k], outs[k], member, ends)
    ensures HeldTill(states[j], member, ends)
    decreases j
  {
    if i < j {
      StaysHeld(cap, events, states, outs, i, j - 1, member, ends);
      HeldStep(cap, events, states, outs, j - 1, member, ends);
    }
  }

  /** A live member that an operation pushes out awaits right after, to its own end. */
  lemma PushedOutAwaits(
    cap: nat, events: seq<Event>, states: seq<Option<Record>>, outs: seq<seq<string>>, n: nat, p: Pair)
    requires Walk(cap, events, states, outs) && AllSteady(events) && n < |events|
    requires p in HeldIn(states[n]) && p.ends > events[n].when.now && p.member in outs[n]
    ensures p in AwaitingIn(states[n + 1]) && forall q :: q in HeldIn(states[n + 1]) ==> q.member != p.member
  {
    FoundTurn(cap, events, states, outs, n, p);
    HeldOn(cap, states[n], events[n], p);
    assert Turn(n);
  }

  lemma AwaitsStep(cap: nat, s: Option<Record>, e: Event, p: Pair)
    requires cap >= 1 && WellKept(cap, s) && p in AwaitingIn(s) && p.ends > e.when.now
    requires Found(s, e.when.at) == Some(s.value.stored)
    ensures p in AwaitingIn(Step(cap, s, e)) <==>
      e.op != Settle(p.member) && (p.member in OutBy(cap, s, e) ==> p in HeldIn(s))
  {
    if e.op.Add? { AddedWaits(ContentOf(Found(s, e.when.at)), cap, e.op.member, e.op.ends, e.when.now); }
  }

  /** What was pushed out awaits until it is settled by name, or it ends; pushed out again, it awaits to that end. */
  lemma AwaitsOn(cap: nat, events: seq<Event>, states: seq<Option<Record>>, outs: seq<seq<string>>, n: nat, p: Pair)
    requires Walk(cap, events, states, outs) && AllSteady(events) && n < |events|
    requires p in AwaitingIn(states[n]) && p.ends > events[n].when.now
    ensures p in AwaitingIn(states[n + 1]) <==>
      events[n].op != Settle(p.member) && (p.member in outs[n] ==> p in HeldIn(states[n]))
  {
    FoundTurn(cap, events, states, outs, n, p);
    AwaitsStep(cap, states[n], events[n], p);
    assert Turn(n);
  }

  /** An add leaves its own member held, whatever stood before, to the end it asked for or later. */
  lemma AddLands(cap: nat, events: seq<Event>, states: seq<Option<Record>>, outs: seq<seq<string>>, n: nat)
    requires Walk(cap, events, states, outs) && n < |events| && events[n].op.Add?
    ensures HeldTill(states[n + 1], events[n].op.member, events[n].op.ends)
  {
    var e := events[n];
    NeverOverCap(cap, events, states, outs, n);
    assert Turn(n);
    AddedHolds(ContentOf(Found(states[n], e.when.at)), cap, e.op.member, e.op.ends, e.when.now);
  }
}
