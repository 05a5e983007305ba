/** Runs of calls on a key made one call at a time, to show what can happen. */
module LockoutHistory {
  import opened Wrappers
  import opened Lockout
  import opened LockoutBudget

  /** A run, with the cells between its calls, their answers, and the attempts left after each. */
  datatype History = History(
    events: seq<Event>, cells: seq<Option<Cell>>, answers: seq<Answer>, alives: seq<seq<Attempt>>)

  const NOTHING_YET := History([], [None], [], [[]])

  ghost predicate Happens(h: History, p: Policy, byName: bool) {
    Walk(h.events, h.cells, h.answers) && Follows(h.events, h.cells, h.alives, p, byName)
  }

  function CellOf(h: History): Option<Cell>
    requires |h.cells| > 0
  {
    h.cells[|h.cells| - 1]
  }

  function AliveIn(h: History): seq<Attempt>
    requires |h.alives| > 0
  {
    h.alives[|h.alives| - 1]
  }

  function LastAt(h: History): int { if h.events == [] then 0 else h.events[|h.events| - 1].at }

  /** One more call, as the key's cell decides it. */
  function Then(h: History, e: Event, byName: bool): History
    requires |h.cells| > 0 && |h.alives| > 0
  {
    History(
      h.events + [e], h.cells + [Step(CellOf(h), e)], h.answers + [DecidedBy(CellOf(h), e).1],
      h.alives + [AliveAfter(AliveIn(h), CellOf(h), e, byName)])
  }

  lemma HappensFirst(p: Policy, byName: bool)
    requires Usable(p)
    ensures Happens(NOTHING_YET, p, byName)
  {
  }

  // ---- One more call ----

  lemma {:induction false} LandedSame(
    events: seq<Event>, cells: seq<Option<Cell>>, e: Event, c: Option<Cell>, n: nat)
    requires n <= |events| && n <= |cells|
    ensures Landed(events + [e], cells + [c], n) == Landed(events, cells, n)
  {
    if n > 0 { LandedSame(events, cells, e, c, n - 1); }
  }

  lemma InForceSame(
    events: seq<Event>, cells: seq<Option<Cell>>, e: Event, c: Option<Cell>, k: nat, n: nat, t: int)
    requires n <= |events| && n <= |cells| && InForce(events, cells, k, n, t)
    ensures InForce(events + [e], cells + [c], k, n, t)
  {
    LandedSame(events, cells, e, c, k);
    forall m | k <= m < n && Writes((cells + [c])[m], (events + [e])[m]) ensures t <= (events + [e])[m].at {
      assert Writes(cells[m], events[m]);
    }
  }

  lemma LandsSame(events: seq<Event>, cells: seq<Option<Cell>>, e: Event, c: Option<Cell>, n: nat)
    requires |cells| == |events| + 1 && n < |events| && Lands(events, cells, n)
    ensures Lands(events + [e], cells + [c], n)
  {
    LandedSame(events, cells, e, c, n);
    var was := events[n];
    if Writes(cells[n], was) && Found(cells[n], was.at).None? {
      var k: nat :| k <= n && InForce(events, cells, k, n, was.now) && Found(cells[k], was.now).None?;
      InForceSame(events, cells, e, c, k, n, was.now);
      assert Found((cells + [c])[k], was.now).None?;
    }
  }

  /** The call lands on what the key holds: it read that, or cell `k`, an absence. */
  ghost predicate MayLand(h: History, e: Event, k: nat)
    requires |h.cells| == |h.events| + 1
  {
    if !Writes(CellOf(h), e) then e.at == e.now
    else if Found(CellOf(h), e.at).Some? then Landed(h.events, h.cells, |h.events|) <= e.now
    else k <= |h.events| && InForce(h.events, h.cells, k, |h.events|, e.now) && Found(h.cells[k], e.now).None?
  }

  lemma LandsNext(h: History, e: Event, c: Option<Cell>, k: nat)
    requires |h.cells| == |h.events| + 1 && MayLand(h, e, k)
    ensures Lands(h.events + [e], h.cells + [c], |h.events|)
  {
    var n := |h.events|;
    LandedSame(h.events, h.cells, e, c, n);
    if Writes(CellOf(h), e) && Found(CellOf(h), e.at).None? {
      InForceSame(h.events, h.cells, e, c, k, n, e.now);
      assert Found((h.cells + [c])[k], e.now).None?;
    }
  }

  lemma TurnMore(h: History, e: Event, next: Option<Cell>, told: Answer, k: nat, n: nat)
    requires Walk(h.events, h.cells, h.answers) && MayLand(h, e, k) && n <= |h.events|
    requires next == Step(CellOf(h), e) && told == DecidedBy(CellOf(h), e).1
    ensures var es, cs, bs := h.events + [e], h.cells + [next], h.answers + [told];
      Lands(es, cs, n) && cs[n + 1] == Step(cs[n], es[n]) && bs[n] == DecidedBy(cs[n], es[n]).1
  {
    if n < |h.events| {
      assert Turn(n);
      LandsSame(h.events, h.cells, e, next, n);
    } else {
      LandsNext(h, e, next, k);
    }
  }

  lemma TimedMore(h: History, e: Event)
    requires Timed(h.events) && LastAt(h) <= e.at && 0 < e.now <= e.at
    ensures Timed(h.events + [e])
  {
    forall i | 0 <= i < |h.events| ensures h.events[i].at <= e.at {
      if i < |h.events| - 1 { assert h.events[i].at <= h.events[|h.events| - 1].at; }
    }
  }

  lemma WalkMore(h: History, e: Event, next: Option<Cell>, told: Answer, k: nat)
    requires Walk(h.events, h.cells, h.answers) && MayLand(h, e, k)
    requires LastAt(h) <= e.at && 0 < e.now <= e.at && Usable(e.policy)
    requires next == Step(CellOf(h), e) && told == DecidedBy(CellOf(h), e).1
    ensures Walk(h.events + [e], h.cells + [next], h.answers + [told])
  {
    TimedMore(h, e);
    var es, cs, bs := h.events + [e], h.cells + [next], h.answers + [told];
    forall n: nat | n < |es|
      ensures Lands(es, cs, n) && cs[n + 1] == Step(cs[n], es[n]) && bs[n] == DecidedBy(cs[n], es[n]).1
    {
      TurnMore(h, e, next, told, k, n);
    }
  }

  lemma FollowsMore(h: History, p: Policy, e: Event, next: Option<Cell>, byName: bool)
    requires |h.cells| == |h.events| + 1 && Follows(h.events, h.cells, h.alives, p, byName)
    requires Budgeted(e) && e.policy == p
    ensures Follows(
      h.events + [e], h.cells + [next], h.alives + [AliveAfter(AliveIn(h), CellOf(h), e, byName)], p, byName)
  {
    var es, cs, vs := h.events + [e], h.cells + [next], h.alives + [AliveAfter(AliveIn(h), CellOf(h), e, byName)];
    forall n: nat | n < |es| ensures vs[n + 1] == AliveAfter(vs[n], cs[n], es[n], byName) {
      if n < |h.events| { assert Turn(n); }
    }
  }

  lemma ThenHappens(h: History, e: Event, p: Policy, byName: bool, k: nat)
    requires Happens(h, p, byName) && MayLand(h, e, k)
    requires LastAt(h) <= e.at && 0 < e.now <= e.at && Budgeted(e) && e.policy == p
    ensures Happens(Then(h, e, byName), p, byName)
  {
    WalkMore(h, e, Step(CellOf(h), e), DecidedBy(CellOf(h), e).1, k);
    FollowsMore(h, p, e, Step(CellOf(h), e), byName);
  }

  /** A call that reads and lands at one time, after all before it. */
  lemma AtOnceHappens(h: History, e: Event, p: Policy, byName: bool)
    requires Happens(h, p, byName) && LastAt(h) <= e.at == e.now && 0 < e.now && Budgeted(e) && e.policy == p
    ensures Happens(Then(h, e, byName), p, byName)
  {
    LandedByLast(h);
    ThenHappens(h, e, p, byName, |h.events|);
  }

  lemma {:induction false} LandedUpTo(events: seq<Event>, cells: seq<Option<Cell>>, n: nat, t: int)
    requires n <= |events| && n <= |cells| && 0 <= t && forall i :: 0 <= i < n ==> events[i].at <= t
    ensures Landed(events, cells, n) <= t
  {
    if n > 0 { LandedUpTo(events, cells, n - 1, t); }
  }

  lemma LandedByLast(h: History)
    requires Walk(h.events, h.cells, h.answers)
    ensures Landed(h.events, h.cells, |h.events|) <= LastAt(h)
  {
    forall i | 0 <= i < |h.events| ensures h.events[i].at <= LastAt(h) {
      if i < |h.events| - 1 { assert h.events[i].at <= h.events[|h.events| - 1].at; }
    }
    LandedUpTo(h.events, h.cells, |h.events|, LastAt(h));
  }

  /** A put on the absence the key began with, whatever was written since. */
  lemma LateHappens(h: History, e: Event, p: Policy, byName: bool)
    requires Happens(h, p, byName) && LastAt(h) <= e.at && 0 < e.now <= e.at && Budgeted(e) && e.policy == p
    requires Writes(CellOf(h), e) && Found(CellOf(h), e.at).None?
    requires forall i :: 0 <= i < |h.events| ==> e.now <= h.events[i].at
    ensures Happens(Then(h, e, byName), p, byName)
  {
    ThenHappens(h, e, p, byName, 0);
  }
}
