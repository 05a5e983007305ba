/** The budget: in any stretch of its window, no more attempts are admitted and kept than it allows, however
    many callers come together. */
module LockoutBudget {
  import opened Wrappers
  import opened Lockout

  /** An admitted attempt: the time it was named by, and the time it is counted at. */
  datatype Attempt = Attempt(name: int, time: int)

  /** Without the last attempt of this name. */
  function HandedBack(alive: seq<Attempt>, name: int): seq<Attempt> {
    if alive == [] then []
    else if alive[|alive| - 1].name == name then alive[..|alive| - 1]
    else HandedBack(alive[..|alive| - 1], name) + [alive[|alive| - 1]]
  }

  /** The attempt a call hands back, if it does: one it still counts. */
  function BackIn(cell: Option<Cell>, e: Event): Option<int> {
    var was := Aged(Found(cell, e.at).GetOr(NOTHING), e.policy, e.now);
    var named := match e.op case Succeed(r) => r case Abandon(a) => Some(a) case _ => None;
    if DecidedBy(cell, e).0.Write? && named.Some? && named.value in was.spent then named else None
  }

  /** The admitted attempts not handed back, nor forgiven by a release, after one more call. */
  function AliveAfter(alive: seq<Attempt>, cell: Option<Cell>, e: Event, byName: bool): seq<Attempt> {
    match DecidedBy(cell, e).1
    case Reserved(at, _) => alive + [Attempt(at, if byName then at else e.now)]
    case Released(_, forgiven, _, _, _) => if forgiven then [] else alive
    case _ =>
      var back := BackIn(cell, e);
      if back.Some? then HandedBack(alive, back.value) else alive
  }

  /** How many of them fall in the window that ends at this time. */
  function InWindow(alive: seq<Attempt>, p: Policy, t: int): nat {
    if alive == [] then 0
    else
      var last := alive[|alive| - 1];
      InWindow(alive[..|alive| - 1], p, t) + (if t - p.budgetWindowMs < last.time <= t then 1 else 0)
  }

  predicate Rising(xs: seq<int>) { forall i, j :: 0 <= i < j < |xs| ==> xs[i] < xs[j] }

  /** Out of every window that ends at `t` or later. */
  predicate Gone(x: Attempt, p: Policy, t: int) { x.time <= t - p.budgetWindowMs }

  /** What is stored counts exactly the attempts of its own keeping that some window to come may hold. */
  ghost predicate Tracks(alive: seq<Attempt>, cell: Option<Cell>, p: Policy, t: int) {
    && (cell.None? ==> alive == [])
    && (cell.Some? ==>
      && SpentTracks(alive, cell.value.state.spent, p, t)
      && (forall i :: 0 <= i < |cell.value.state.spent| ==>
           cell.value.state.spent[i] <= cell.value.state.named.GetOr(0))
      && (cell.value.expiresAt.Some? ==>
          forall i :: 0 <= i < |alive| ==> alive[i].time + p.budgetWindowMs <= cell.value.expiresAt.value))
  }

  ghost predicate SpentTracks(alive: seq<Attempt>, spent: seq<int>, p: Policy, t: int) {
    && |spent| <= |alive| && |spent| <= p.budget && Rising(spent)
    && (forall i :: 0 <= i < |spent| ==> alive[|alive| - |spent| + i].name == spent[i])
    && (forall i :: |alive| - |spent| <= i < |alive| ==> alive[i].time <= alive[i].name)
    && (forall i :: 0 <= i < |alive| - |spent| ==> Gone(alive[i], p, t))
  }

  // ---- Lists ----

  lemma {:induction false} RecentNone(spent: seq<int>, p: Policy, now: int)
    requires forall i :: 0 <= i < |spent| ==> spent[i] <= now - p.budgetWindowMs
    ensures Recent(spent, p, now) == []
  {
    if spent != [] { RecentNone(spent[..|spent| - 1], p, now); }
  }

  lemma {:induction false} RecentDrops(spent: seq<int>, p: Policy, now: int) returns (m: nat)
    requires Rising(spent)
    ensures m <= |spent| && Recent(spent, p, now) == spent[m..]
    ensures forall i :: 0 <= i < m ==> spent[i] <= now - p.budgetWindowMs
  {
    if spent == [] || spent[|spent| - 1] <= now - p.budgetWindowMs {
      RecentNone(spent, p, now);
      m := |spent|;
    } else {
      var init, last := spent[..|spent| - 1], spent[|spent| - 1];
      m := RecentDrops(init, p, now);
      assert spent[m..] == init[m..] + [last];
    }
  }

  lemma {:induction false} WindowAtMost(alive: seq<Attempt>, p: Policy, t: int, n: nat)
    requires n <= |alive| && forall i :: 0 <= i < |alive| - n ==> Gone(alive[i], p, t)
    ensures InWindow(alive, p, t) <= n
    decreases |alive|
  {
    if alive != [] { WindowAtMost(alive[..|alive| - 1], p, t, if n == 0 then 0 else n - 1); }
  }

  lemma {:induction false} FewerInWindow(alive: seq<Attempt>, name: int, p: Policy, t: int)
    ensures InWindow(HandedBack(alive, name), p, t) <= InWindow(alive, p, t)
  {
    if alive != [] && alive[|alive| - 1].name != name {
      var init, last := alive[..|alive| - 1], alive[|alive| - 1];
      FewerInWindow(init, name, p, t);
      assert (HandedBack(init, name) + [last])[..|HandedBack(init, name)|] == HandedBack(init, name);
    }
  }

  /** Where the name is last, it is what goes. */
  lemma {:induction false} HandedBackAt(alive: seq<Attempt>, name: int, k: nat)
    requires k < |alive| && alive[k].name == name && forall i :: k < i < |alive| ==> alive[i].name != name
    ensures HandedBack(alive, name) == Spliced(alive, k)
    decreases |alive|
  {
    if k == |alive| - 1 {
      assert alive[k + 1..] == [];
    } else {
      var init, last := alive[..|alive| - 1], alive[|alive| - 1];
      HandedBackAt(init, name, k);
      assert Spliced(alive, k) == Spliced(init, k) + [last];
    }
  }

  // ---- One call ----

  /** As time passes, what the window leaves behind goes from what is stored, and from every later window. */
  lemma AgedTracks(alive: seq<Attempt>, spent: seq<int>, p: Policy, t: int, now: int)
    requires SpentTracks(alive, spent, p, t) && t <= now
    ensures SpentTracks(alive, Recent(spent, p, now), p, now)
    ensures forall x :: x in Recent(spent, p, now) ==> x in spent
  {
    var m := RecentDrops(spent, p, now);
    var d := |alive| - |spent|;
    var recent := Recent(spent, p, now);
    assert |recent| == |spent| - m;
    forall i | 0 <= i < d + m ensures Gone(alive[i], p, now) {
      if i >= d { assert alive[i].name == spent[i - d]; }
    }
  }

  /** Nothing stored any more, or nothing ever: no window to come holds any of the attempts before. */
  lemma LostTracks(alive: seq<Attempt>, cell: Option<Cell>, p: Policy, t: int, now: int)
    requires Tracks(alive, cell, p, t) && Found(cell, now).None? && p.budget >= 1
    ensures SpentTracks(alive, [], p, now)
  {
  }

  /** What a call reads as of its time tracks the attempts too. */
  lemma ReadTracks(alive: seq<Attempt>, cell: Option<Cell>, e: Event, t: int)
    requires Tracks(alive, cell, e.policy, t) && t <= e.now && Usable(e.policy)
    requires Found(cell, e.now) == Found(cell, e.at)
    ensures var was := Aged(Found(cell, e.at).GetOr(NOTHING), e.policy, e.now);
      && SpentTracks(alive, was.spent, e.policy, e.now)
      && forall i :: 0 <= i < |was.spent| ==> was.spent[i] <= was.named.GetOr(0)
  {
    if Found(cell, e.now).None? {
      LostTracks(alive, cell, e.policy, t, e.now);
    } else {
      AgedTracks(alive, cell.value.state.spent, e.policy, t, e.now);
      var was := Aged(cell.value.state, e.policy, e.now);
      forall i | 0 <= i < |was.spent| ensures was.spent[i] <= was.named.GetOr(0) {
        assert was.spent[i] in was.spent;
      }
    }
  }

  lemma AdmittedTracks(alive: seq<Attempt>, spent: seq<int>, p: Policy, now: int, x: Attempt)
    requires SpentTracks(alive, spent, p, now) && |spent| < p.budget && now <= x.time <= x.name
    requires forall i :: 0 <= i < |spent| ==> spent[i] < x.name
    ensures SliceLast(spent + [x.name], p.budget) == spent + [x.name]
    ensures SpentTracks(alive + [x], spent + [x.name], p, now)
  {
  }

  lemma SplicedTracks(alive: seq<Attempt>, spent: seq<int>, p: Policy, now: int, k: nat, d: nat)
    requires SpentTracks(alive, spent, p, now) && k < |spent| && d == |alive| - |spent|
    ensures SpentTracks(Spliced(alive, d + k), Spliced(spent, k), p, now)
  {
    var back, less := Spliced(alive, d + k), Spliced(spent, k);
    forall i, j | 0 <= i < j < |less| ensures less[i] < less[j] {}
  }

  lemma BackTracks(alive: seq<Attempt>, spent: seq<int>, p: Policy, now: int, k: nat)
    requires SpentTracks(alive, spent, p, now) && k < |spent|
    ensures SpentTracks(HandedBack(alive, spent[k]), Spliced(spent, k), p, now)
    ensures HandedBack(alive, spent[k]) == Spliced(alive, |alive| - |spent| + k)
  {
    var d := |alive| - |spent|;
    assert alive[d + k].name == spent[k];
    forall i | d + k < i < |alive| ensures alive[i].name != spent[k] { assert alive[d + (i - d)].name == spent[i - d]; }
    HandedBackAt(alive, spent[k], d + k);
    SplicedTracks(alive, spent, p, now, k, d);
  }

  /** Counted early enough that what is stored outlasts its window. */
  predicate InTime(x: Attempt, p: Policy, at: int) { x.time + p.budgetWindowMs <= at + KeptMs(p) }

  /** Everything tracked, after the last call landed at `t`. */
  ghost predicate Sound(alive: seq<Attempt>, cell: Option<Cell>, p: Policy, t: int) {
    Tracks(alive, cell, p, t) && forall i :: 0 <= i < |alive| ==> InTime(alive[i], p, t)
  }

  lemma SoundLater(alive: seq<Attempt>, cell: Option<Cell>, p: Policy, t: int, later: int)
    requires Sound(alive, cell, p, t) && t <= later
    ensures Sound(alive, cell, p, later)
  {
  }

  /** Written, and kept as decided, the next state tracks what its attempts come to. */
  lemma WrittenSound(
    alive: seq<Attempt>, cell: Option<Cell>, next: State, lifetime: Lifetime, p: Policy, now: int, at: int)
    requires SpentTracks(alive, next.spent, p, now) && now <= at
    requires forall i :: 0 <= i < |next.spent| ==> next.spent[i] <= next.named.GetOr(0)
    requires forall i :: 0 <= i < |alive| ==> InTime(alive[i], p, at)
    requires lifetime.For? ==> lifetime.ms == KeptMs(p)
    requires lifetime.AsIs? ==> cell.Some? && (cell.value.expiresAt.Some? ==>
      forall i :: 0 <= i < |alive| ==> alive[i].time + p.budgetWindowMs <= cell.value.expiresAt.value)
    ensures Sound(alive, Stored(cell, Write(next, lifetime), at), p, at)
  {
  }

  lemma ReserveSound(alive: seq<Attempt>, cell: Option<Cell>, e: Event, t: int, byName: bool)
    requires Sound(alive, cell, e.policy, t) && t <= e.now <= e.at && Usable(e.policy)
    requires Found(cell, e.now) == Found(cell, e.at) && e.op == Reserve && DecidedBy(cell, e).1.Reserved?
    requires byName ==> InTime(Attempt(DecidedBy(cell, e).1.at, DecidedBy(cell, e).1.at), e.policy, e.at)
    ensures Sound(AliveAfter(alive, cell, e, byName), Step(cell, e), e.policy, e.at)
  {
    ReadTracks(alive, cell, e, t);
    SoundLater(alive, cell, e.policy, t, e.at);
    var was := Aged(Found(cell, e.at).GetOr(NOTHING), e.policy, e.now);
    var at := AttemptAt(was, e.now);
    var x := Attempt(at, if byName then at else e.now);
    AdmittedTracks(alive, was.spent, e.policy, e.now, x);
    var next := CountedState(was, e.policy, e.now);
    WrittenSound(alive + [x], cell, next, LifetimeOf(next, e.policy), e.policy, e.now, e.at);
  }

  lemma BackInTime(alive: seq<Attempt>, k: nat, cell: Option<Cell>, p: Policy, t: int)
    requires Sound(alive, cell, p, t) && k < |alive|
    ensures forall i :: 0 <= i < |alive| - 1 ==> InTime(Spliced(alive, k)[i], p, t)
    ensures cell.Some? && cell.value.expiresAt.Some? ==>
      forall i :: 0 <= i < |alive| - 1 ==> Spliced(alive, k)[i].time + p.budgetWindowMs <= cell.value.expiresAt.value
  {
  }

  /** The attempt a hand-back takes from those counted. */
  function Backed(spent: seq<int>, reservation: Option<int>): Option<nat> {
    if reservation.None? then None else LastIndexOf(spent, reservation.value)
  }

  lemma HandBackFacts(was: State, p: Policy, reservation: Option<int>, success: bool)
    ensures var d := HandBack(was, p, reservation, success);
      d.Write? ==>
        && d.next.named == was.named && (d.lifetime.For? ==> d.lifetime.ms == KeptMs(p))
        && d.next.spent == var k := Backed(was.spent, reservation);
             if k.Some? then Spliced(was.spent, k.value) else was.spent
  {
  }

  lemma BackWritten(
    alive: seq<Attempt>,
    cell: Option<Cell>, was: State, next: State, lifetime: Lifetime, k: nat, p: Policy, now: int, at: int)
    requires Sound(alive, cell, p, at) && now <= at && cell.Some?
    requires SpentTracks(alive, was.spent, p, now) && k < |was.spent|
    requires forall i :: 0 <= i < |was.spent| ==> was.spent[i] <= was.named.GetOr(0)
    requires next.spent == Spliced(was.spent, k) && next.named == was.named
    requires lifetime.For? ==> lifetime.ms == KeptMs(p)
    ensures Sound(HandedBack(alive, was.spent[k]), Stored(cell, Write(next, lifetime), at), p, at)
  {
    BackTracks(alive, was.spent, p, now, k);
    BackInTime(alive, |alive| - |was.spent| + k, cell, p, at);
    WrittenSound(HandedBack(alive, was.spent[k]), cell, next, lifetime, p, now, at);
  }

  lemma BackSound(alive: seq<Attempt>, cell: Option<Cell>, e: Event, t: int, reservation: Option<int>, success: bool)
    requires Sound(alive, cell, e.policy, t) && t <= e.now <= e.at && Usable(e.policy)
    requires Found(cell, e.now) == Found(cell, e.at) && Found(cell, e.at).Some?
    ensures var was := Aged(Found(cell, e.at).value, e.policy, e.now);
      var d := HandBack(was, e.policy, reservation, success);
      var k := Backed(was.spent, reservation);
      Sound(
        if d.Write? && k.Some? then HandedBack(alive, was.spent[k.value]) else alive,
        Stored(cell, d, e.at), e.policy, e.at)
  {
    ReadTracks(alive, cell, e, t);
    SoundLater(alive, cell, e.policy, t, e.at);
    var was := Aged(Found(cell, e.at).value, e.policy, e.now);
    var d, k := HandBack(was, e.policy, reservation, success), Backed(was.spent, reservation);
    HandBackFacts(was, e.policy, reservation, success);
    if d.Write? {
      if k.Some? {
        BackWritten(alive, cell, was, d.next, d.lifetime, k.value, e.policy, e.now, e.at);
      } else {
        WrittenSound(alive, cell, d.next, d.lifetime, e.policy, e.now, e.at);
      }
    }
  }

  predicate HandsBack(op: Op) { op.Succeed? || op.Abandon? }

  function ReservationOf(op: Op): Option<int>
    requires HandsBack(op)
  {
    match op case Succeed(r) => r case Abandon(a) => Some(a)
  }

  lemma BackStep(alive: seq<Attempt>, cell: Option<Cell>, e: Event, t: int, byName: bool)
    requires Sound(alive, cell, e.policy, t) && t <= e.now <= e.at && Usable(e.policy) && HandsBack(e.op)
    requires Found(cell, e.now) == Found(cell, e.at)
    ensures Sound(AliveAfter(alive, cell, e, byName), Step(cell, e), e.policy, e.at)
  {
    if Found(cell, e.at).Some? {
      BackSound(alive, cell, e, t, ReservationOf(e.op), e.op.Succeed?);
    } else {
      SoundLater(alive, cell, e.policy, t, e.at);
    }
  }

  lemma ReleaseFacts(was: State, p: Policy, terms: Terms, now: int)
    ensures var (d, a) := ReleaseState(was, p, terms, now);
      && (d.Write? <==> a.Released?)
      && (d.Write? ==>
           d.lifetime.Endless? && d.next.named == was.named && d.next.spent == if a.budget then [] else was.spent)
  {
  }

  lemma ReleaseSound(alive: seq<Attempt>, cell: Option<Cell>, e: Event, t: int, byName: bool)
    requires Sound(alive, cell, e.policy, t) && t <= e.now <= e.at && Usable(e.policy)
    requires Found(cell, e.now) == Found(cell, e.at) && e.op.Release?
    ensures Sound(AliveAfter(alive, cell, e, byName), Step(cell, e), e.policy, e.at)
  {
    ReadTracks(alive, cell, e, t);
    SoundLater(alive, cell, e.policy, t, e.at);
    var was := Aged(Found(cell, e.at).GetOr(NOTHING), e.policy, e.now);
    ReleaseFacts(was, e.policy, e.op.terms, e.now);
    var d := ReleaseState(was, e.policy, e.op.terms, e.now).0;
    if d.Write? {
      var a := ReleaseState(was, e.policy, e.op.terms, e.now).1;
      WrittenSound(if a.budget then [] else alive, cell, d.next, d.lifetime, e.policy, e.now, e.at);
    }
  }

  /** Any call but `failed`, which cuts what is stored to the budget. */
  predicate Budgeted(e: Event) { !e.op.Fail? }

  /** Counted by its name, an attempt is named no further past its write than what is stored is kept past the window. */
  predicate NamedInTime(a: Answer, e: Event) { a.Reserved? ==> InTime(Attempt(a.at, a.at), e.policy, e.at) }

  lemma StepSound(alive: seq<Attempt>, cell: Option<Cell>, e: Event, t: int, byName: bool)
    requires Sound(alive, cell, e.policy, t) && t <= e.now <= e.at && Usable(e.policy) && Budgeted(e)
    requires Found(cell, e.now) == Found(cell, e.at) && (byName ==> NamedInTime(DecidedBy(cell, e).1, e))
    ensures Sound(AliveAfter(alive, cell, e, byName), Step(cell, e), e.policy, e.at)
  {
    match e.op
    case Reserve => ReserveStep(alive, cell, e, t, byName);
    case Succeed(_) => BackStep(alive, cell, e, t, byName);
    case Abandon(_) => BackStep(alive, cell, e, t, byName);
    case Release(_) => ReleaseSound(alive, cell, e, t, byName);
  }

  lemma ReserveStep(alive: seq<Attempt>, cell: Option<Cell>, e: Event, t: int, byName: bool)
    requires Sound(alive, cell, e.policy, t) && t <= e.now <= e.at && Usable(e.policy) && e.op == Reserve
    requires Found(cell, e.now) == Found(cell, e.at) && (byName ==> NamedInTime(DecidedBy(cell, e).1, e))
    ensures Sound(AliveAfter(alive, cell, e, byName), Step(cell, e), e.policy, e.at)
  {
    if DecidedBy(cell, e).1.Reserved? {
      ReserveSound(alive, cell, e, t, byName);
    } else {
      SoundLater(alive, cell, e.policy, t, e.at);
    }
  }

  // ---- Over runs ----

  ghost predicate WithinBudget(alive: seq<Attempt>, p: Policy) {
    forall t :: InWindow(alive, p, t) <= p.budget
  }

  /** An admitted attempt comes last: in a window that holds it, only attempts still stored fall beside it. */
  lemma AdmittedWithin(alive: seq<Attempt>, cell: Option<Cell>, p: Policy, now: int, x: Attempt)
    requires WithinBudget(alive, p) && cell.Some? && SpentTracks(alive + [x], cell.value.state.spent, p, now)
    requires now <= x.time
    ensures WithinBudget(alive + [x], p)
  {
    forall t ensures InWindow(alive + [x], p, t) <= p.budget {
      assert (alive + [x])[..|alive|] == alive;
      if t >= x.time { WindowAtMost(alive + [x], p, t, |cell.value.state.spent|); }
    }
  }

  /** The attempts after each call of a run. */
  ghost predicate Follows(
    events: seq<Event>, cells: seq<Option<Cell>>, alives: seq<seq<Attempt>>, p: Policy, byName: bool)
    requires |cells| == |events| + 1
  {
    && |alives| == |events| + 1 && alives[0] == [] && Usable(p)
    && (forall i :: 0 <= i < |events| ==> Budgeted(events[i]) && events[i].policy == p)
    && (forall n: nat {:trigger Turn(n)} :: n < |events| ==>
        alives[n + 1] == AliveAfter(alives[n], cells[n], events[n], byName))
  }

  lemma StepWithin(alive: seq<Attempt>, cell: Option<Cell>, e: Event, t: int, byName: bool)
    requires WithinBudget(alive, e.policy) && Budgeted(e) && t <= e.now <= e.at && Usable(e.policy)
    requires Tracks(alive, cell, e.policy, t) && Found(cell, e.now) == Found(cell, e.at)
    ensures WithinBudget(AliveAfter(alive, cell, e, byName), e.policy)
  {
    var a := DecidedBy(cell, e).1;
    if a.Reserved? {
      ReadTracks(alive, cell, e, t);
      var was := Aged(Found(cell, e.at).GetOr(NOTHING), e.policy, e.now);
      var x := Attempt(a.at, if byName then a.at else e.now);
      AdmittedTracks(alive, was.spent, e.policy, e.now, x);
      AdmittedWithin(alive, Step(cell, e), e.policy, e.now, x);
    } else if a.Released? {
    } else {
      var back := BackIn(cell, e);
      if back.Some? {
        forall u ensures InWindow(HandedBack(alive, back.value), e.policy, u) <= e.policy.budget {
          FewerInWindow(alive, back.value, e.policy, u);
        }
      }
    }
  }

  lemma KeptStep(alive: seq<Attempt>, cell: Option<Cell>, e: Event, byName: bool)
    requires !Writes(cell, e)
    ensures Step(cell, e) == cell && AliveAfter(alive, cell, e, byName) == alive
  {
  }

  lemma BudgetTurn(
    events: seq<Event>, cells: seq<Option<Cell>>, answers: seq<Answer>, alives: seq<seq<Attempt>>, p: Policy,
    byName: bool, n: nat)
    requires Walk(events, cells, answers) && Follows(events, cells, alives, p, byName) && n < |events|
    requires Current(events, cells, n) && (byName ==> NamedInTime(answers[n], events[n]))
    requires Sound(alives[n], cells[n], p, Landed(events, cells, n)) && WithinBudget(alives[n], p)
    ensures Sound(alives[n + 1], cells[n + 1], p, Landed(events, cells, n + 1)) && WithinBudget(alives[n + 1], p)
  {
    assert Turn(n);
    if Writes(cells[n], events[n]) {
      StepSound(alives[n], cells[n], events[n], Landed(events, cells, n), byName);
      StepWithin(alives[n], cells[n], events[n], Landed(events, cells, n), byName);
    } else {
      KeptStep(alives[n], cells[n], events[n], byName);
    }
  }

  /** In any run of reservations, their successes and abandonments, and releases, every write landing soon:
      whatever the window, of the attempts admitted and not handed back, or forgiven, no more than the budget
      fall in it. They fall where the store's clock stood when they were admitted; or by the times they are
      named, so long as none is named further ahead than what is stored is kept past the window. */
  lemma {:induction false} NeverOverBudget(
    events: seq<Event>, cells: seq<Option<Cell>>, answers: seq<Answer>, alives: seq<seq<Attempt>>, p: Policy,
    byName: bool, n: nat)
    requires Walk(events, cells, answers) && Follows(events, cells, alives, p, byName) && n <= |events|
    requires Swift(events)
    requires byName ==> forall i :: 0 <= i < |events| ==> NamedInTime(answers[i], events[i])
    ensures WithinBudget(alives[n], p)
    ensures Sound(alives[n], cells[n], p, Landed(events, cells, n))
  {
    if n > 0 {
      NeverOverBudget(events, cells, answers, alives, p, byName, n - 1);
      SwiftIsCurrent(events, cells, answers, n - 1);
      BudgetTurn(events, cells, answers, alives, p, byName, n - 1);
    }
  }
}
