/** Exactly when the budget holds in every run, by the clock and by the times attempts are named. */
module LockoutExact {
  import opened Wrappers
  import opened Lockout
  import opened LockoutBudget
  import opened LockoutHistory
  import opened LockoutRuns

  /** Every write lands so soon after it read, or whenever. */
  predicate Within(events: seq<Event>, d: Option<nat>) {
    d.Some? ==> forall i :: 0 <= i < |events| ==> events[i].at <= events[i].now + d.value
  }

  /** In every run under the policy whose writes land so soon, every window holds at most the budget. */
  ghost predicate Budgets(p: Policy, d: Option<nat>, byName: bool) {
    forall h: History :: Happens(h, p, byName) && Within(h.events, d) ==> WithinBudget(AliveIn(h), p)
  }

  // ---- Where the first attempt fixes the hold, nothing counted is ever forgotten ----

  /** Tracked, and stored with no end while anything is counted; no more than one is until a release. */
  ghost predicate Safe(alive: seq<Attempt>, cell: Option<Cell>, p: Policy, t: int) {
    && Tracks(alive, cell, p, t)
    && (cell.None? || cell.value.expiresAt.Some? ==> alive == [])
    && (cell.Some? ==>
      && cell.value.state.run >= 0 && (cell.value.state.fixed ==> cell.value.expiresAt.None?)
      && (cell.value.expiresAt.None? && cell.value.state.generation.None? ==>
            cell.value.state.fixed && |alive| == 1))
  }

  lemma SafeLater(alive: seq<Attempt>, cell: Option<Cell>, p: Policy, t: int, later: int)
    requires Safe(alive, cell, p, t) && t <= later
    ensures Safe(alive, cell, p, later)
  {
  }

  /** What is written next is safe, whatever its lifetime. */
  lemma WrittenSafe(
    alive: seq<Attempt>, cell: Option<Cell>, next: State, lifetime: Lifetime, p: Policy, now: int, at: int)
    requires SpentTracks(alive, next.spent, p, now) && now <= at && next.run >= 0
    requires forall i :: 0 <= i < |next.spent| ==> next.spent[i] <= next.named.GetOr(0)
    requires lifetime.For? ==> alive == [] && !next.fixed
    requires lifetime.Endless? && next.generation.None? ==> next.fixed && |alive| == 1
    requires lifetime.AsIs? ==>
      && cell.Some? && !next.fixed
      && if cell.value.expiresAt.Some? then alive == [] else next.generation.Some?
    ensures Safe(alive, Stored(cell, Write(next, lifetime), at), p, at)
  {
  }

  /** On what is found, a call reads after every write before it. */
  predicate ReadsLast(cell: Option<Cell>, e: Event, t: int) {
    t <= e.at && e.now <= e.at && (Found(cell, e.at).Some? ==> t <= e.now)
  }

  lemma ReadSafe(alive: seq<Attempt>, cell: Option<Cell>, e: Event, t: int)
    requires Safe(alive, cell, e.policy, t) && ReadsLast(cell, e, t) && Usable(e.policy)
    ensures var was := Aged(Found(cell, e.at).GetOr(NOTHING), e.policy, e.now);
      && SpentTracks(alive, was.spent, e.policy, e.now)
      && forall i :: 0 <= i < |was.spent| ==> was.spent[i] <= was.named.GetOr(0)
    ensures Found(cell, e.at).None? ==> alive == []
  {
    if Found(cell, e.at).Some? { ReadTracks(alive, cell, e, t); }
  }

  lemma ReserveSafe(alive: seq<Attempt>, cell: Option<Cell>, e: Event, t: int, byName: bool)
    requires Safe(alive, cell, e.policy, t) && ReadsLast(cell, e, t) && Usable(e.policy) && e.policy.hardLimit == 1
    requires e.op == Reserve && DecidedBy(cell, e).1.Reserved?
    ensures Safe(AliveAfter(alive, cell, e, byName), Step(cell, e), e.policy, e.at)
  {
    ReadSafe(alive, cell, e, t);
    var was := Aged(Found(cell, e.at).GetOr(NOTHING), e.policy, e.now);
    var at := AttemptAt(was, e.now);
    var x := Attempt(at, if byName then at else e.now);
    AdmittedTracks(alive, was.spent, e.policy, e.now, x);
    var next := CountedState(was, e.policy, e.now);
    WrittenSafe(alive + [x], cell, next, LifetimeOf(next, e.policy), e.policy, e.now, e.at);
  }

  lemma BackKeeps(was: State, p: Policy, reservation: Option<int>, success: bool)
    requires was.run >= 0
    ensures var d := HandBack(was, p, reservation, success);
      d.Write? ==>
        && d.next.run >= 0 && !d.next.fixed && d.next.generation == was.generation
        && if was.fixed then d.lifetime == LifetimeOf(d.next, p) && Backed(was.spent, reservation).Some?
           else d.lifetime == AsIs
  {
  }

  lemma OneHandedBack(alive: seq<Attempt>, spent: seq<int>, p: Policy, now: int, k: nat)
    requires SpentTracks(alive, spent, p, now) && k < |spent| && |alive| == 1
    ensures HandedBack(alive, spent[k]) == []
  {
    assert alive[|alive| - |spent| + k].name == spent[k];
  }

  /** Handing back what fixed the hold leaves nothing counted; otherwise the end stays as it was. */
  lemma BackSafe(alive: seq<Attempt>, cell: Option<Cell>, e: Event, t: int, reservation: Option<int>, success: bool)
    requires Safe(alive, cell, e.policy, t) && ReadsLast(cell, e, t) && Usable(e.policy) && e.policy.hardLimit == 1
    requires Found(cell, e.at).Some?
    ensures var was := Aged(Found(cell, e.at).value, e.policy, e.now);
      var d, k := HandBack(was, e.policy, reservation, success), Backed(was.spent, reservation);
      d.Write? ==>
        Safe(if k.Some? then HandedBack(alive, was.spent[k.value]) else alive, Stored(cell, d, e.at), e.policy, e.at)
  {
    ReadSafe(alive, cell, e, t);
    var was := Aged(Found(cell, e.at).value, e.policy, e.now);
    var d, k := HandBack(was, e.policy, reservation, success), Backed(was.spent, reservation);
    HandBackFacts(was, e.policy, reservation, success);
    BackKeeps(was, e.policy, reservation, success);
    if d.Write? {
      if k.Some? {
        BackTracks(alive, was.spent, e.policy, e.now, k.value);
        if |alive| == 1 { OneHandedBack(alive, was.spent, e.policy, e.now, k.value); }
        WrittenSafe(HandedBack(alive, was.spent[k.value]), cell, d.next, d.lifetime, e.policy, e.now, e.at);
      } else {
        WrittenSafe(alive, cell, d.next, d.lifetime, e.policy, e.now, e.at);
      }
    }
  }

  lemma BackUnfolds(alive: seq<Attempt>, cell: Option<Cell>, e: Event, byName: bool)
    requires HandsBack(e.op) && Writes(cell, e)
    ensures Found(cell, e.at).Some?
    ensures var was := Aged(Found(cell, e.at).value, e.policy, e.now);
      var r := ReservationOf(e.op);
      var d, k := HandBack(was, e.policy, r, e.op.Succeed?), Backed(was.spent, r);
      && d.Write? && Step(cell, e) == Stored(cell, d, e.at)
      && AliveAfter(alive, cell, e, byName) == if k.Some? then HandedBack(alive, was.spent[k.value]) else alive
  {
  }

  lemma BackStepSafe(alive: seq<Attempt>, cell: Option<Cell>, e: Event, t: int, byName: bool)
    requires Safe(alive, cell, e.policy, t) && ReadsLast(cell, e, t) && Usable(e.policy) && e.policy.hardLimit == 1
    requires HandsBack(e.op) && Writes(cell, e)
    ensures Safe(AliveAfter(alive, cell, e, byName), Step(cell, e), e.policy, e.at)
  {
    BackUnfolds(alive, cell, e, byName);
    BackSafe(alive, cell, e, t, ReservationOf(e.op), e.op.Succeed?);
  }

  lemma ReleaseSafe(alive: seq<Attempt>, cell: Option<Cell>, e: Event, t: int, byName: bool)
    requires Safe(alive, cell, e.policy, t) && ReadsLast(cell, e, t) && Usable(e.policy)
    requires e.op.Release? && Writes(cell, e)
    ensures Safe(AliveAfter(alive, cell, e, byName), Step(cell, e), e.policy, e.at)
  {
    ReadSafe(alive, cell, e, t);
    var was := Aged(Found(cell, e.at).GetOr(NOTHING), e.policy, e.now);
    ReleaseFacts(was, e.policy, e.op.terms, e.now);
    var (d, a) := ReleaseState(was, e.policy, e.op.terms, e.now);
    WrittenSafe(if a.budget then [] else alive, cell, d.next, d.lifetime, e.policy, e.now, e.at);
  }

  lemma StepSafe(alive: seq<Attempt>, cell: Option<Cell>, e: Event, t: int, byName: bool)
    requires Safe(alive, cell, e.policy, t) && ReadsLast(cell, e, t) && Usable(e.policy) && e.policy.hardLimit == 1
    requires Budgeted(e) && Writes(cell, e)
    ensures Safe(AliveAfter(alive, cell, e, byName), Step(cell, e), e.policy, e.at)
  {
    match e.op
    case Reserve =>
      WritesAdmits(cell, e);
      ReserveSafe(alive, cell, e, t, byName);
    case Succeed(_) => BackStepSafe(alive, cell, e, t, byName);
    case Abandon(_) => BackStepSafe(alive, cell, e, t, byName);
    case Release(_) => ReleaseSafe(alive, cell, e, t, byName);
  }

  lemma WritesAdmits(cell: Option<Cell>, e: Event)
    requires e.op == Reserve && Writes(cell, e)
    ensures DecidedBy(cell, e).1.Reserved?
  {
  }

  lemma OneWithin(x: Attempt, p: Policy)
    requires Usable(p)
    ensures WithinBudget([x], p) && WithinBudget([], p)
  {
    forall t ensures InWindow([x], p, t) <= p.budget {
      assert [x][..0] == [];
    }
  }

  /** The first counted of all, or one more among those tracked. */
  lemma SafeWithin(alive: seq<Attempt>, cell: Option<Cell>, e: Event, t: int, byName: bool)
    requires Safe(alive, cell, e.policy, t) && ReadsLast(cell, e, t) && Usable(e.policy) && Budgeted(e)
    requires WithinBudget(alive, e.policy) && Writes(cell, e)
    ensures WithinBudget(AliveAfter(alive, cell, e, byName), e.policy)
  {
    if Found(cell, e.at).Some? {
      StepWithin(alive, cell, e, t, byName);
    } else {
      NoneWithin(cell, e, byName);
    }
  }

  lemma NoneWithin(cell: Option<Cell>, e: Event, byName: bool)
    requires Found(cell, e.at).None? && Usable(e.policy) && Writes(cell, e) && Budgeted(e)
    ensures WithinBudget(AliveAfter([], cell, e, byName), e.policy)
  {
    var a := DecidedBy(cell, e).1;
    if a.Reserved? {
      var x := Attempt(a.at, if byName then a.at else e.now);
      assert [] + [x] == [x];
      OneWithin(x, e.policy);
    } else {
      OneWithin(Attempt(0, 0), e.policy);
    }
  }

  lemma ReadsLastAt(events: seq<Event>, cells: seq<Option<Cell>>, answers: seq<Answer>, n: nat)
    requires Walk(events, cells, answers) && n < |events| && Writes(cells[n], events[n])
    ensures ReadsLast(cells[n], events[n], Landed(events, cells, n))
  {
    assert Turn(n);
    LandedBy(events, cells, n);
  }

  lemma {:induction false} FixedAtOnce(h: History, p: Policy, byName: bool, n: nat)
    requires Happens(h, p, byName) && n <= |h.events| && p.hardLimit == 1
    ensures Safe(h.alives[n], h.cells[n], p, Landed(h.events, h.cells, n)) && WithinBudget(h.alives[n], p)
  {
    if n > 0 {
      FixedAtOnce(h, p, byName, n - 1);
      assert Turn(n - 1);
      if Writes(h.cells[n - 1], h.events[n - 1]) {
        var t := Landed(h.events, h.cells, n - 1);
        ReadsLastAt(h.events, h.cells, h.answers, n - 1);
        StepSafe(h.alives[n - 1], h.cells[n - 1], h.events[n - 1], t, byName);
        SafeWithin(h.alives[n - 1], h.cells[n - 1], h.events[n - 1], t, byName);
      } else {
        KeptStep(h.alives[n - 1], h.cells[n - 1], h.events[n - 1], byName);
      }
    }
  }

  // ---- Anywhere else, by names: attempts of one name outlive what is stored of them ----

  /** Every call reads and lands at one time. */
  predicate Prompt(h: History) { forall i :: 0 <= i < |h.events| ==> h.events[i].at == h.events[i].now }

  /** A run of prompt calls, all by this time, and what it leaves. */
  ghost predicate Comes(h: History, p: Policy, byName: bool, cell: Option<Cell>, alive: seq<Attempt>, t: int) {
    && Happens(h, p, byName) && Prompt(h) && LastAt(h) <= t && CellOf(h) == cell && AliveIn(h) == alive
  }

  /** One more prompt call. */
  lemma ComesMore(
    h: History, p: Policy, byName: bool, cell: Option<Cell>, alive: seq<Attempt>, t: int, e: Event)
    requires Comes(h, p, byName, cell, alive, t)
    requires t <= e.now == e.at && 0 < e.now && e.policy == p && Budgeted(e)
    ensures Comes(Then(h, e, byName), p, byName, Step(cell, e), AliveAfter(alive, cell, e, byName), e.at)
  {
    AtOnceHappens(h, e, p, byName);
  }

  lemma ComesFirst(p: Policy, byName: bool, t: int)
    requires Usable(p) && t >= 0
    ensures Comes(NOTHING_YET, p, byName, None, [], t)
  {
    HappensFirst(p, byName);
  }

  /** Nothing is held, and the next attempt made now is named `n`. */
  predicate Ready(cell: Option<Cell>, p: Policy, now: int, n: int) {
    if n == now then Found(cell, now).None?
    else n > now && cell == Some(Cell(NOTHING.(lastAt := now, named := Some(n - 1)), Some(now + KeptMs(p))))
  }

  function Taken(p: Policy, now: int, n: int): Cell {
    var hold := HoldMs(p, 1);
    Cell(
      NOTHING.(
        run := 1, lastAt := now, spent := [n], holdUntil := if hold > 0 then now + hold else 0, named := Some(n)),
      Some(now + KeptMs(p)))
  }

  function TakeCall(p: Policy, now: int): Event { Event(Reserve, p, now, now) }
  function BackCall(p: Policy, now: int, n: int): Event { Event(Succeed(Some(n)), p, now, now) }

  lemma {:induction false} RecentAll(spent: seq<int>, p: Policy, now: int)
    requires forall i :: 0 <= i < |spent| ==> spent[i] > now - p.budgetWindowMs
    ensures Recent(spent, p, now) == spent
  {
    if spent != [] {
      RecentAll(spent[..|spent| - 1], p, now);
      assert spent == spent[..|spent| - 1] + [spent[|spent| - 1]];
    }
  }

  lemma Takes(cell: Option<Cell>, alive: seq<Attempt>, p: Policy, now: int, n: int)
    requires Usable(p) && p.hardLimit >= 2 && now > 0 && Ready(cell, p, now, n)
    ensures Step(cell, TakeCall(p, now)) == Some(Taken(p, now, n))
    ensures AliveAfter(alive, cell, TakeCall(p, now), true) == alive + [Attempt(n, n)]
  {
    RecentAll([], p, now);
    assert [] + [n] == [n];
  }

  lemma GivesBack(alive: seq<Attempt>, p: Policy, now: int, n: int)
    requires Usable(p) && p.hardLimit >= 2 && 0 < now <= n
    ensures var taken := Some(Taken(p, now, n));
      && Found(taken, now).Some? && Ready(Step(taken, BackCall(p, now, n)), p, now, n + 1)
      && AliveAfter(alive + [Attempt(n, n)], taken, BackCall(p, now, n), true) == alive
  {
    RecentAll([n], p, now);
    assert LastIndexOf([n], n) == Some(0) && Spliced([n], 0) == [];
    var more := alive + [Attempt(n, n)];
    assert more[|more| - 1].name == n && more[..|more| - 1] == alive;
  }

  lemma TakesMore(h: History, cell: Option<Cell>, alive: seq<Attempt>, p: Policy, now: int, n: int)
    returns (more: History)
    requires Usable(p) && p.hardLimit >= 2 && now > 0 && Ready(cell, p, now, n) && Comes(h, p, true, cell, alive, now)
    ensures Comes(more, p, true, Some(Taken(p, now, n)), alive + [Attempt(n, n)], now)
    ensures |more.events| == |h.events| + 1
  {
    Takes(cell, alive, p, now, n);
    ComesMore(h, p, true, cell, alive, now, TakeCall(p, now));
    more := Then(h, TakeCall(p, now), true);
  }

  lemma GivesBackMore(h: History, alive: seq<Attempt>, p: Policy, now: int, n: int)
    returns (more: History, cell: Option<Cell>)
    requires Usable(p) && p.hardLimit >= 2 && 0 < now <= n
    requires Comes(h, p, true, Some(Taken(p, now, n)), alive + [Attempt(n, n)], now)
    ensures Comes(more, p, true, cell, alive, now) && Ready(cell, p, now, n + 1)
    ensures |more.events| == |h.events| + 1
  {
    GivesBack(alive, p, now, n);
    ComesMore(h, p, true, Some(Taken(p, now, n)), alive + [Attempt(n, n)], now, BackCall(p, now, n));
    more := Then(h, BackCall(p, now, n), true);
    cell := CellOf(more);
  }

  /** Attempts made and handed back at one time move the next one's name ahead, as far as one likes. */
  lemma {:induction false} Ahead(h: History, cell: Option<Cell>, alive: seq<Attempt>, p: Policy, now: int, n: int)
    returns (more: History, c: Option<Cell>)
    requires Usable(p) && p.hardLimit >= 2 && 0 < now <= n
    requires Comes(h, p, true, cell, alive, now) && Found(cell, now).None?
    ensures Comes(more, p, true, c, alive, now) && Ready(c, p, now, n)
    decreases n - now
  {
    if n == now {
      more, c := h, cell;
    } else {
      var before, b := Ahead(h, cell, alive, p, now, n - 1);
      var taken := TakesMore(before, b, alive, p, now, n - 1);
      more, c := GivesBackMore(taken, alive, p, now, n - 1);
    }
  }

  /** When what was stored has ended so many times. */
  function EndedAt(p: Policy, times: nat): int { if times == 0 then 1 else EndedAt(p, times - 1) + KeptMs(p) }

  function Alike(n: int, times: nat): seq<Attempt> { if times == 0 then [] else Alike(n, times - 1) + [Attempt(n, n)] }

  lemma {:induction false} AllInWindow(alive: seq<Attempt>, p: Policy, t: int)
    requires Usable(p) && forall i :: 0 <= i < |alive| ==> alive[i].time == t
    ensures InWindow(alive, p, t) == |alive|
  {
    if alive != [] { AllInWindow(alive[..|alive| - 1], p, t); }
  }

  lemma {:induction false} AlikeAll(n: int, times: nat)
    ensures |Alike(n, times)| == times && forall i :: 0 <= i < times ==> Alike(n, times)[i] == Attempt(n, n)
  {
    if times > 0 { AlikeAll(n, times - 1); }
  }

  lemma {:induction false} EndedPositive(p: Policy, times: nat)
    requires Usable(p)
    ensures EndedAt(p, times) > 0
  {
    if times > 0 { EndedPositive(p, times - 1); }
  }

  /** Each time what is stored ends, one more attempt of the very same name can be admitted. */
  lemma {:induction false} SameName(p: Policy, n: int, times: nat) returns (h: History, c: Option<Cell>)
    requires Usable(p) && p.hardLimit >= 2 && n >= EndedAt(p, times)
    ensures Comes(h, p, true, c, Alike(n, times), EndedAt(p, times)) && Found(c, EndedAt(p, times)).None?
  {
    if times == 0 {
      ComesFirst(p, true, EndedAt(p, 0));
      h, c := NOTHING_YET, None;
    } else {
      var now := EndedAt(p, times - 1);
      EndedPositive(p, times - 1);
      var before, b := SameName(p, n, times - 1);
      var ready, r := Ahead(before, b, Alike(n, times - 1), p, now, n);
      h := TakesMore(ready, r, Alike(n, times - 1), p, now, n);
      c := Some(Taken(p, now, n));
    }
  }

  lemma PromptWithin(h: History, d: Option<nat>)
    requires Prompt(h)
    ensures Within(h.events, d)
  {
  }

  /** Wherever the first attempt does not fix the hold, some run lets one more than the budget into a window
      of names, however soon writes land. */
  lemma NamesOutrun(p: Policy, d: Option<nat>)
    requires Usable(p) && p.hardLimit >= 2
    ensures !Budgets(p, d, true)
  {
    var n := EndedAt(p, p.budget + 1);
    var h, c := SameName(p, n, p.budget + 1);
    AlikeAll(n, p.budget + 1);
    AllInWindow(AliveIn(h), p, n);
    PromptWithin(h, d);
  }

  // ---- And by the clock: a put on an absence read lands when what was written since has ended ----

  function Upto(j: nat): (r: seq<int>)
    ensures |r| == j && forall i :: 0 <= i < j ==> r[i] == i + 1
  {
    seq(j, i => i + 1)
  }

  function PairsState(j: nat): State {
    if j == 0 then NOTHING else NOTHING.(lastAt := 1, spent := Upto(j), named := Some(j))
  }

  function PairsCell(p: Policy, j: nat): Option<Cell> {
    if j == 0 then None else Some(Cell(PairsState(j), Some(1 + KeptMs(p))))
  }

  function MidState(p: Policy, j: nat): State {
    var hold := HoldMs(p, 1);
    NOTHING.(
      run := 1, lastAt := 1, spent := Upto(j + 1), holdUntil := if hold > 0 then 1 + hold else 0,
      named := Some(j + 1))
  }

  function MidCell(p: Policy, j: nat): Cell { Cell(MidState(p, j), Some(1 + KeptMs(p))) }

  function ClearCall(p: Policy): Event { Event(Succeed(None), p, 1, 1) }

  lemma PairWas(p: Policy, j: nat)
    requires Usable(p)
    ensures Aged(Found(PairsCell(p, j), 1).GetOr(NOTHING), p, 1) == PairsState(j)
  {
    RecentAll(Upto(j), p, 1);
    assert StillUsed([], 1) == [];
    if j == 0 { assert Upto(0) == []; }
  }

  lemma PairNext(p: Policy, j: nat)
    requires Usable(p) && p.hardLimit >= 2 && j < p.budget
    ensures CountedState(PairsState(j), p, 1) == MidState(p, j) && Judge(PairsState(j), p, 1) == Open
  {
    assert PairsState(j).spent + [j + 1] == Upto(j + 1);
  }

  lemma PairTakes(alive: seq<Attempt>, p: Policy, j: nat)
    requires Usable(p) && p.hardLimit >= 2 && j < p.budget
    ensures Step(PairsCell(p, j), TakeCall(p, 1)) == Some(MidCell(p, j))
    ensures AliveAfter(alive, PairsCell(p, j), TakeCall(p, 1), false) == alive + [Attempt(j + 1, 1)]
  {
    PairWas(p, j);
    PairNext(p, j);
  }

  lemma PairClears(alive: seq<Attempt>, p: Policy, j: nat)
    requires Usable(p) && p.hardLimit >= 2 && j < p.budget
    ensures Step(Some(MidCell(p, j)), ClearCall(p)) == PairsCell(p, j + 1)
    ensures AliveAfter(alive, Some(MidCell(p, j)), ClearCall(p), false) == alive
  {
    RecentAll(Upto(j + 1), p, 1);
  }

  function Firsts(j: nat): (r: seq<Attempt>)
    ensures |r| == j && forall i :: 0 <= i < j ==> r[i] == Attempt(i + 1, 1)
  {
    seq(j, i => Attempt(i + 1, 1))
  }

  ghost predicate AllAt1(h: History) { forall i :: 0 <= i < |h.events| ==> h.events[i].at == 1 }

  lemma PairMore(h: History, p: Policy, j: nat) returns (more: History)
    requires Usable(p) && p.hardLimit >= 2 && j < p.budget
    requires Comes(h, p, false, PairsCell(p, j), Firsts(j), 1) && AllAt1(h)
    ensures Comes(more, p, false, Some(MidCell(p, j)), Firsts(j + 1), 1) && AllAt1(more)
  {
    PairTakes(Firsts(j), p, j);
    assert Firsts(j) + [Attempt(j + 1, 1)] == Firsts(j + 1);
    ComesMore(h, p, false, PairsCell(p, j), Firsts(j), 1, TakeCall(p, 1));
    more := Then(h, TakeCall(p, 1), false);
  }

  lemma PairDone(h: History, p: Policy, j: nat) returns (more: History)
    requires Usable(p) && p.hardLimit >= 2 && j < p.budget
    requires Comes(h, p, false, Some(MidCell(p, j)), Firsts(j + 1), 1) && AllAt1(h)
    ensures Comes(more, p, false, PairsCell(p, j + 1), Firsts(j + 1), 1) && AllAt1(more)
  {
    PairClears(Firsts(j + 1), p, j);
    ComesMore(h, p, false, Some(MidCell(p, j)), Firsts(j + 1), 1, ClearCall(p));
    more := Then(h, ClearCall(p), false);
  }

  /** In one millisecond the whole budget is taken, each run ended by a success that hands nothing back. */
  lemma {:induction false} Pairs(p: Policy, j: nat) returns (h: History)
    requires Usable(p) && p.hardLimit >= 2 && j <= p.budget
    ensures Comes(h, p, false, PairsCell(p, j), Firsts(j), 1) && AllAt1(h)
  {
    if j == 0 {
      ComesFirst(p, false, 1);
      h := NOTHING_YET;
    } else {
      var before := Pairs(p, j - 1);
      var mid := PairMore(before, p, j - 1);
      h := PairDone(mid, p, j - 1);
    }
  }

  /** Read absent in the first millisecond, landing when all that was written in it has ended. */
  function LateCall(p: Policy): Event { Event(Reserve, p, 1, 1 + KeptMs(p)) }

  lemma LateTakes(alive: seq<Attempt>, p: Policy)
    requires Usable(p)
    ensures var cell := PairsCell(p, p.budget);
      && Found(cell, 1 + KeptMs(p)).None? && Writes(cell, LateCall(p))
      && AliveAfter(alive, cell, LateCall(p), false) == alive + [Attempt(1, 1)]
  {
    RecentAll([], p, 1);
  }

  lemma ClockOutruns(p: Policy, d: Option<nat>)
    requires Usable(p) && p.hardLimit >= 2 && (d.Some? ==> d.value >= KeptMs(p))
    ensures !Budgets(p, d, false)
  {
    var before := Pairs(p, p.budget);
    LateTakes(Firsts(p.budget), p);
    LateHappens(before, LateCall(p), p, false);
    var h := Then(before, LateCall(p), false);
    AllInWindow(AliveIn(h), p, 1);
    assert Within(h.events, d);
  }

  // ---- And so the holds between attempts ----

  function RowState(p: Policy, j: nat): State {
    if j == 0 then NOTHING
    else NOTHING.(
      run := j, lastAt := 1, spent := Upto(j), holdUntil := if j == p.threshold then 1 + HoldMs(p, j) else 0,
      named := Some(j))
  }

  function RowCell(p: Policy, j: nat): Option<Cell> {
    if j == 0 then None else Some(Cell(RowState(p, j), Some(1 + KeptMs(p))))
  }

  lemma RowWas(p: Policy, j: nat)
    requires Usable(p) && j < p.threshold
    ensures Aged(Found(RowCell(p, j), 1).GetOr(NOTHING), p, 1) == RowState(p, j)
  {
    RecentAll(Upto(j), p, 1);
    assert StillUsed([], 1) == [];
    if j == 0 { assert Upto(0) == []; }
  }

  lemma RowNext(p: Policy, j: nat)
    requires Usable(p) && p.threshold < p.hardLimit && j < p.threshold
    ensures CountedState(RowState(p, j), p, 1) == RowState(p, j + 1) && Judge(RowState(p, j), p, 1) == Open
  {
    HoldsGrow(p, j + 1);
    assert RowState(p, j).spent + [j + 1] == Upto(j + 1);
  }

  lemma RowTakes(alive: seq<Attempt>, p: Policy, j: nat)
    requires Usable(p) && p.threshold < p.hardLimit && j < p.threshold
    ensures Step(RowCell(p, j), TakeCall(p, 1)) == RowCell(p, j + 1)
    ensures DecidedBy(RowCell(p, j), TakeCall(p, 1)).1.Reserved?
    ensures AliveAfter(alive, RowCell(p, j), TakeCall(p, 1), false) == alive + [Attempt(j + 1, 1)]
  {
    RowWas(p, j);
    RowNext(p, j);
  }

  /** In one millisecond as many attempts as come before the first hold, and the one that earns it. */
  lemma {:induction false} InOneRow(p: Policy, j: nat) returns (h: History)
    requires Usable(p) && p.threshold < p.hardLimit && j <= p.threshold
    ensures Comes(h, p, false, RowCell(p, j), Firsts(j), 1) && |h.events| == j
    ensures forall i :: 0 <= i < j ==> h.events[i].at == 1 && h.answers[i].Reserved?
  {
    if j == 0 {
      ComesFirst(p, false, 1);
      h := NOTHING_YET;
    } else {
      var before := InOneRow(p, j - 1);
      RowTakes(Firsts(j - 1), p, j - 1);
      assert Firsts(j - 1) + [Attempt(j, 1)] == Firsts(j);
      ComesMore(before, p, false, RowCell(p, j - 1), Firsts(j - 1), 1, TakeCall(p, 1));
      h := Then(before, TakeCall(p, 1), false);
    }
  }

  /** In every run under the policy whose writes land so soon, an attempt that earned a hold is followed by none
      before the hold has passed. */
  ghost predicate Spaces(p: Policy, d: Option<nat>) {
    forall h: History, i: nat, j: nat ::
      Happens(h, p, false) && Within(h.events, d) && NextAdmitted(h.events, h.answers, i, j)
      && RunIn(h.cells[i + 1]) >= p.threshold
      ==> h.events[j].now >= h.events[i].now + HoldMs(p, RunIn(h.cells[i + 1]))
  }

  lemma LateFollows(alive: seq<Attempt>, p: Policy)
    requires Usable(p)
    ensures var cell := RowCell(p, p.threshold);
      && Found(cell, 1 + KeptMs(p)).None? && Writes(cell, LateCall(p))
      && DecidedBy(cell, LateCall(p)).1.Reserved?
  {
    RecentAll([], p, 1);
  }

  lemma HoldsOutrun(p: Policy, d: Option<nat>)
    requires Usable(p) && p.threshold < p.hardLimit && (d.Some? ==> d.value >= KeptMs(p))
    ensures !Spaces(p, d)
  {
    var before := InOneRow(p, p.threshold);
    LateFollows(Firsts(p.threshold), p);
    LateHappens(before, LateCall(p), p, false);
    var h := Then(before, LateCall(p), false);
    HoldsGrow(p, p.threshold);
    assert h.cells[p.threshold] == RowCell(p, p.threshold);
    assert NextAdmitted(h.events, h.answers, p.threshold - 1, p.threshold) && Within(h.events, d);
  }

  /** Where an attempt fixes the hold, no other follows. */
  lemma FixedFollowsNone(h: History, p: Policy, i: nat, j: nat)
    requires Happens(h, p, false) && i < j < |h.events| && h.answers[i].Reserved?
    requires forall n :: i < n < j ==> h.answers[n].Refused?
    requires RunIn(h.cells[i + 1]) >= p.hardLimit
    ensures !h.answers[j].Reserved?
  {
    AdmittedFixesAt(h, p, i);
    RefusedThrough(h.events, h.cells, h.answers, i + 1, j);
    FixedAdmitsNoneAt(h, p, j);
  }

  lemma FixedAdmitsNoneAt(h: History, p: Policy, j: nat)
    requires Happens(h, p, false) && j < |h.events|
    requires var c := h.cells[j]; c.Some? && c.value.state.fixed && c.value.expiresAt.None?
    ensures !h.answers[j].Reserved?
  {
    assert Turn(j);
    FixedAdmitsNone(h.cells[j], h.events[j]);
  }

  lemma AdmittedFixesAt(h: History, p: Policy, i: nat)
    requires Happens(h, p, false) && i < |h.events| && h.answers[i].Reserved? && RunIn(h.cells[i + 1]) >= p.hardLimit
    ensures var c := h.cells[i + 1]; c.Some? && c.value.state.fixed && c.value.expiresAt.None?
  {
    assert Turn(i);
    AdmittedFixes(h.cells[i], h.events[i]);
  }

  lemma AdmittedFixes(cell: Option<Cell>, e: Event)
    requires DecidedBy(cell, e).1.Reserved? && RunIn(Step(cell, e)) >= e.policy.hardLimit
    ensures Step(cell, e).Some? && Step(cell, e).value.state.fixed && Step(cell, e).value.expiresAt.None?
  {
  }

  lemma FixedAdmitsNone(cell: Option<Cell>, e: Event)
    requires cell.Some? && cell.value.state.fixed && cell.value.expiresAt.None?
    ensures !DecidedBy(cell, e).1.Reserved?
  {
  }

  lemma NoneFollows(h: History, p: Policy, i: nat, j: nat)
    requires Happens(h, p, false) && i < j < |h.events|
    ensures !(NextAdmitted(h.events, h.answers, i, j) && RunIn(h.cells[i + 1]) >= p.hardLimit)
  {
    if h.answers[i].Reserved? && (forall n :: i < n < j ==> h.answers[n].Refused?) {
      if RunIn(h.cells[i + 1]) >= p.hardLimit { FixedFollowsNone(h, p, i, j); }
    }
  }

  /** The next attempt comes after the hold, in every run, exactly where every write lands in less than what is
      stored is kept, or the attempt that earns the first hold fixes it. */
  lemma SpacesExactly(p: Policy, d: Option<nat>)
    requires Usable(p)
    ensures Spaces(p, d) <==> p.threshold == p.hardLimit || (d.Some? && d.value < KeptMs(p))
  {
    if p.threshold == p.hardLimit {
      forall h: History, i: nat, j: nat | Happens(h, p, false) && i < j < |h.events|
        ensures !(NextAdmitted(h.events, h.answers, i, j) && RunIn(h.cells[i + 1]) >= p.threshold)
      {
        NoneFollows(h, p, i, j);
      }
    } else if d.Some? && d.value < KeptMs(p) {
      forall h: History, i: nat, j: nat |
        Happens(h, p, false) && Within(h.events, d) && NextAdmitted(h.events, h.answers, i, j)
        ensures h.events[j].now >= h.events[i].now + HoldMs(p, RunIn(h.cells[i + 1]))
      {
        SwiftWithin(h, p, d.value);
        NextComesAfterHold(h.events, h.cells, h.answers, i, j);
      }
    } else {
      HoldsOutrun(p, d);
    }
  }

  // ---- Exactly when ----

  lemma SwiftWithin(h: History, p: Policy, d: nat)
    requires Happens(h, p, false) && Within(h.events, Some(d)) && d < KeptMs(p)
    ensures Swift(h.events)
  {
  }

  /** Every run of reservations, hand-backs and releases keeps within the budget under exactly the policies whose
      first attempt fixes the hold; or, by the clock, where every write lands in less than what is stored is
      kept. */
  lemma BudgetsExactly(p: Policy, d: Option<nat>, byName: bool)
    requires Usable(p)
    ensures Budgets(p, d, byName) <==> p.hardLimit == 1 || (!byName && d.Some? && d.value < KeptMs(p))
  {
    if p.hardLimit == 1 {
      forall h: History | Happens(h, p, byName) && Within(h.events, d) ensures WithinBudget(AliveIn(h), p) {
        FixedAtOnce(h, p, byName, |h.events|);
      }
    } else if byName {
      NamesOutrun(p, d);
    } else if d.Some? && d.value < KeptMs(p) {
      forall h: History | Happens(h, p, byName) && Within(h.events, d) ensures WithinBudget(AliveIn(h), p) {
        SwiftWithin(h, p, d.value);
        NeverOverBudget(h.events, h.cells, h.answers, h.alives, p, byName, |h.events|);
      }
    } else {
      ClockOutruns(p, d);
    }
  }

  // ---- Two such runs ----

  const SMALL := Policy(1, 1, 1, 1, 10, 5, 10)

  /** A reads the absent key at 100; B reserves at 101, and its state ends at 111; A's put lands at 111. */
  function EarlyCall(): Event { Event(Reserve, SMALL, 101, 101) }
  function LatePut(): Event { Event(Reserve, SMALL, 100, 111) }

  function Outrun(byName: bool): History {
    Then(Then(NOTHING_YET, EarlyCall(), byName), LatePut(), byName)
  }

  lemma EarlyTakes(byName: bool)
    ensures Step(None, EarlyCall()) == Some(Taken(SMALL, 101, 101)) && DecidedBy(None, EarlyCall()).1.Reserved?
    ensures AliveAfter([], None, EarlyCall(), byName) == [Attempt(101, 101)]
  {
    RecentAll([], SMALL, 101);
    assert [] + [101] == [101] && [] + [Attempt(101, 101)] == [Attempt(101, 101)];
  }

  lemma LateTakesToo(byName: bool)
    ensures var cell := Some(Taken(SMALL, 101, 101));
      && Found(cell, 111).None? && Writes(cell, LatePut()) && DecidedBy(cell, LatePut()).1.Reserved?
      && AliveAfter([Attempt(101, 101)], cell, LatePut(), byName) == [Attempt(101, 101), Attempt(100, 100)]
  {
    RecentAll([], SMALL, 100);
    assert [Attempt(101, 101)] + [Attempt(100, 100)] == [Attempt(101, 101), Attempt(100, 100)];
  }

  lemma EarlyHappens(byName: bool) returns (h: History)
    ensures h == Then(NOTHING_YET, EarlyCall(), byName) && Happens(h, SMALL, byName) && h.events == [EarlyCall()]
    ensures CellOf(h) == Some(Taken(SMALL, 101, 101)) && AliveIn(h) == [Attempt(101, 101)]
    ensures |h.answers| == 1 && h.answers[0].Reserved?
  {
    HappensFirst(SMALL, byName);
    EarlyTakes(byName);
    AtOnceHappens(NOTHING_YET, EarlyCall(), SMALL, byName);
    h := Then(NOTHING_YET, EarlyCall(), byName);
  }

  lemma OutrunHappens(byName: bool)
    ensures var h := Outrun(byName);
      && Happens(h, SMALL, byName) && |h.answers| == 2 && h.answers[0].Reserved? && h.answers[1].Reserved?
      && AliveIn(h) == [Attempt(101, 101), Attempt(100, 100)]
  {
    var early := EarlyHappens(byName);
    LateTakesToo(byName);
    LateHappens(early, LatePut(), SMALL, byName);
  }

  /** So a budget of one lets two into one window, by the clock and by names. */
  lemma LateOutrunsTheBudget(byName: bool)
    ensures var h := Outrun(byName);
      && Happens(h, SMALL, byName) && |h.answers| == 2 && h.answers[0].Reserved? && h.answers[1].Reserved?
      && InWindow(AliveIn(h), SMALL, 105) == 2 > SMALL.budget
  {
    OutrunHappens(byName);
    var x, y := Attempt(101, 101), Attempt(100, 100);
    assert [x, y][..1] == [x] && [x][..0] == [];
  }

  /** Two attempts in one millisecond, the first handed back: the second is named a millisecond ahead, and when
      all that is stored has ended, a third is admitted within a window of that name. */
  lemma NamesOutrunTheBudget() returns (h: History)
    ensures Happens(h, SMALL, true) && Prompt(h) && |h.events| == 4
    ensures AliveIn(h) == [Attempt(101, 101), Attempt(110, 110)]
    ensures InWindow(AliveIn(h), SMALL, 110) == 2 > SMALL.budget
  {
    ComesFirst(SMALL, true, 100);
    var first := TakesMore(NOTHING_YET, None, [], SMALL, 100, 100);
    var back, b := GivesBackMore(first, [], SMALL, 100, 100);
    var second := TakesMore(back, b, [], SMALL, 100, 101);
    h := TakesMore(second, Some(Taken(SMALL, 100, 101)), [Attempt(101, 101)], SMALL, 110, 110);
    var x, y := Attempt(101, 101), Attempt(110, 110);
    assert [x] + [y] == [x, y] && [x, y][..1] == [x] && [x][..0] == [];
  }
}
