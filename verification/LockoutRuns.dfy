/** What holds of a key over any run of calls: attempt times, generations, release ids, fixed holds, and how
    far apart admitted attempts come. */
module LockoutRuns {
  import opened Wrappers
  import opened Lockout

  // ---- Attempt times ----

  /** Whether the call counted an attempt, and its time. */
  function AttemptOf(a: Answer): Option<int> {
    match a
    case Counted(at, _) => Some(at)
    case Reserved(at, _) => Some(at)
    case _ => None
  }

  function NamedIn(cell: Option<Cell>): Option<int> { if cell.None? then None else cell.value.state.named }

  /** An attempt's time is past every one handed out before, and what was handed out is never forgotten. */
  lemma NamesOn(cell: Option<Cell>, e: Event)
    requires cell.None? || Found(cell, e.at).Some?
    ensures var a := AttemptOf(DecidedBy(cell, e).1);
      if a.Some? then NamedIn(Step(cell, e)) == a && NamedIn(cell).GetOr(0) < a.value && e.now <= a.value
      else NamedIn(Step(cell, e)) == NamedIn(cell)
  {
  }

  /** The key's state is kept from call `i` to call `j`: it is found by every call after the first. */
  predicate KeptThrough(events: seq<Event>, cells: seq<Option<Cell>>, i: nat, j: nat)
    requires |cells| == |events| + 1 && j < |events|
  {
    forall k :: i < k <= j ==> Found(cells[k], events[k].at).Some?
  }

  lemma NamesTurn(events: seq<Event>, cells: seq<Option<Cell>>, answers: seq<Answer>, n: nat)
    requires Walk(events, cells, answers) && n < |events| && Found(cells[n], events[n].at).Some?
    ensures var a := AttemptOf(answers[n]);
      if a.Some? then NamedIn(cells[n + 1]) == a && NamedIn(cells[n]).GetOr(0) < a.value
      else NamedIn(cells[n + 1]) == NamedIn(cells[n])
  {
    assert Turn(n);
    NamesOn(cells[n], events[n]);
  }

  lemma NamedBy(cell: Option<Cell>, e: Event)
    requires AttemptOf(DecidedBy(cell, e).1).Some?
    ensures NamedIn(Step(cell, e)) == AttemptOf(DecidedBy(cell, e).1)
  {
  }

  lemma NamedAfter(events: seq<Event>, cells: seq<Option<Cell>>, answers: seq<Answer>, n: nat)
    requires Walk(events, cells, answers) && n < |events| && AttemptOf(answers[n]).Some?
    ensures NamedIn(cells[n + 1]) == AttemptOf(answers[n])
  {
    assert Turn(n);
    NamedBy(cells[n], events[n]);
  }

  lemma {:induction false} NamesGrow(events: seq<Event>, cells: seq<Option<Cell>>, answers: seq<Answer>, i: nat, j: nat)
    requires Walk(events, cells, answers) && i < j <= |events| && AttemptOf(answers[i]).Some?
    requires j < |events| ==> KeptThrough(events, cells, i, j)
    requires j == |events| ==> KeptThrough(events, cells, i, j - 1)
    ensures NamedIn(cells[j]).Some? && AttemptOf(answers[i]).value <= NamedIn(cells[j]).value
    decreases j
  {
    if j == i + 1 {
      NamedAfter(events, cells, answers, i);
    } else {
      NamesGrow(events, cells, answers, i, j - 1);
      NamesTurn(events, cells, answers, j - 1);
    }
  }

  /** Of attempts counted while the key's state is kept, each comes at a later time than all before it. */
  lemma AttemptTimesGrow(events: seq<Event>, cells: seq<Option<Cell>>, answers: seq<Answer>, i: nat, j: nat)
    requires Walk(events, cells, answers) && i < j < |events| && KeptThrough(events, cells, i, j)
    requires AttemptOf(answers[i]).Some? && AttemptOf(answers[j]).Some?
    ensures AttemptOf(answers[i]).value < AttemptOf(answers[j]).value
  {
    NamesGrow(events, cells, answers, i, j);
    NamesTurn(events, cells, answers, j);
  }

  // ---- Generations ----

  function Releases(answers: seq<Answer>): nat {
    if answers == [] then 0
    else Releases(answers[..|answers| - 1]) + (if answers[|answers| - 1].Released? then 1 else 0)
  }

  /** Once released, the key is kept with no end, and counts its releases. */
  ghost predicate Counts(cell: Option<Cell>, releases: nat) {
    if releases == 0 then cell.Some? ==> cell.value.state.generation.None?
    else cell.Some? && cell.value.expiresAt.None? && cell.value.state.generation == Some(releases)
  }

  lemma CountsOn(cell: Option<Cell>, e: Event, releases: nat)
    requires Counts(cell, releases)
    ensures var a := DecidedBy(cell, e).1;
      && Counts(Step(cell, e), if a.Released? then releases + 1 else releases)
      && (a.Released? ==> a.generation == releases + 1)
      && (a.Already? && releases > 0 ==> a.generation == releases)
  {
  }

  lemma CountsTurn(events: seq<Event>, cells: seq<Option<Cell>>, answers: seq<Answer>, n: nat, releases: nat)
    requires Walk(events, cells, answers) && n < |events| && Counts(cells[n], releases)
    ensures Counts(cells[n + 1], if answers[n].Released? then releases + 1 else releases)
    ensures answers[n].Released? ==> answers[n].generation == releases + 1
  {
    assert Turn(n);
    CountsOn(cells[n], events[n], releases);
  }

  /** A key's generation is the number of releases ever answered on it; the store's expiry never takes it back. */
  lemma {:induction false} GenerationCounts(events: seq<Event>, cells: seq<Option<Cell>>, answers: seq<Answer>, n: nat)
    requires Walk(events, cells, answers) && n <= |events|
    ensures Counts(cells[n], Releases(answers[..n]))
    ensures n < |events| && answers[n].Released? ==> answers[n].generation == Releases(answers[..n]) + 1
  {
    if n > 0 {
      GenerationCounts(events, cells, answers, n - 1);
      CountsTurn(events, cells, answers, n - 1, Releases(answers[..n - 1]));
      assert answers[..n][..n - 1] == answers[..n - 1];
    }
    if n < |events| { CountsTurn(events, cells, answers, n, Releases(answers[..n])); }
  }

  // ---- Release ids ----

  /** The id is remembered at least until this time, on a key kept with no end. */
  ghost predicate Remembers(cell: Option<Cell>, id: string, until: int) {
    && cell.Some? && cell.value.expiresAt.None? && cell.value.state.generation.Some?
    && exists u :: u in cell.value.state.used && u.id == id && u.until >= until
  }

  predicate ReleasesOnce(op: Op, id: string) { op.Release? && op.terms.Checked? && op.terms.id == id }

  lemma UsedOn(was: State, p: Policy, op: Op, now: int, u: Use)
    requires u in was.used && u.until > now
    ensures var d := Decide(op, p, Some(was), now).0; d.Write? ==> u in d.next.used
    ensures ReleasesOnce(op, u.id) ==> Decide(op, p, Some(was), now).1.Already?
  {
    assert u in Aged(was, p, now).used;
    if op.Release? && op.terms.Checked? { AddsUse(Aged(was, p, now), p, op.terms, now, u); }
  }

  lemma AddsUse(was: State, p: Policy, t: Terms, now: int, u: Use)
    requires t.Checked? && u in was.used
    ensures var d := ReleaseChecked(was, p, t, now).0; d.Write? ==> u in d.next.used
  {
  }

  lemma RemembersOn(cell: Option<Cell>, e: Event, id: string, until: int)
    requires Remembers(cell, id, until)
    ensures Writes(cell, e) ==> e.now < until ==> Remembers(Step(cell, e), id, until)
    ensures !Writes(cell, e) ==> Step(cell, e) == cell
    ensures e.now < until && ReleasesOnce(e.op, id) ==> DecidedBy(cell, e).1.Already?
  {
    if e.now < until {
      var u :| u in cell.value.state.used && u.id == id && u.until >= until;
      UsedOn(cell.value.state, e.policy, e.op, e.now, u);
    }
  }

  lemma RemembersTurn(
    events: seq<Event>, cells: seq<Option<Cell>>, answers: seq<Answer>, n: nat, id: string, until: int)
    requires Walk(events, cells, answers) && n < |events| && Remembers(cells[n], id, until)
    ensures (Writes(cells[n], events[n]) ==> events[n].now < until) ==> Remembers(cells[n + 1], id, until)
    ensures events[n].now < until && ReleasesOnce(events[n].op, id) ==> answers[n].Already?
  {
    assert Turn(n);
    RemembersOn(cells[n], events[n], id, until);
  }

  lemma Remembered(events: seq<Event>, cells: seq<Option<Cell>>, answers: seq<Answer>, i: nat, id: string)
    requires Walk(events, cells, answers) && i < |events| && ReleasesOnce(events[i].op, id) && answers[i].Released?
    ensures Remembers(cells[i + 1], id, events[i].now + events[i].op.terms.keepMs)
  {
    assert Turn(i);
    ReleasedUses(cells[i], events[i], id);
  }

  lemma ReleasedUses(cell: Option<Cell>, e: Event, id: string)
    requires ReleasesOnce(e.op, id) && DecidedBy(cell, e).1.Released?
    ensures Remembers(Step(cell, e), id, e.now + e.op.terms.keepMs)
  {
    var u := Use(id, e.now + e.op.terms.keepMs);
    assert u in Step(cell, e).value.state.used;
  }

  lemma {:induction false} RemembersThrough(
    events: seq<Event>, cells: seq<Option<Cell>>, answers: seq<Answer>, i: nat, j: nat, id: string, until: int)
    requires Walk(events, cells, answers) && i <= j <= |events| && Remembers(cells[i], id, until)
    requires forall k :: i <= k < j && Writes(cells[k], events[k]) ==> events[k].now < until
    ensures Remembers(cells[j], id, until)
    decreases j
  {
    if i < j {
      RemembersThrough(events, cells, answers, i, j - 1, id, until);
      RemembersTurn(events, cells, answers, j - 1, id, until);
    }
  }

  /** Stored with no end, as a released key is. */
  ghost predicate Endlessly(cell: Option<Cell>) {
    cell.Some? && cell.value.expiresAt.None? && cell.value.state.generation.Some?
  }

  lemma {:induction false} EndlesslyOn(
    events: seq<Event>, cells: seq<Option<Cell>>, answers: seq<Answer>, i: nat, j: nat)
    requires Walk(events, cells, answers) && i <= j <= |events| && Endlessly(cells[i])
    ensures Endlessly(cells[j])
    decreases j
  {
    if i < j {
      EndlesslyOn(events, cells, answers, i, j - 1);
      assert Turn(j - 1);
      EndlesslyStep(cells[j - 1], events[j - 1]);
    }
  }

  lemma EndlesslyStep(cell: Option<Cell>, e: Event)
    requires Endlessly(cell)
    ensures Endlessly(Step(cell, e))
  {
  }

  lemma {:induction false} LandedSince(events: seq<Event>, cells: seq<Option<Cell>>, k: nat, n: nat)
    requires Timed(events) && k < n <= |events| && n <= |cells| && Writes(cells[k], events[k])
    ensures events[k].at <= Landed(events, cells, n)
    decreases n
  {
    if k < n - 1 { LandedSince(events, cells, k, n - 1); }
  }

  /** On a key that is never absent, a call reads after every write before it was made. */
  lemma ReadsAfter(events: seq<Event>, cells: seq<Option<Cell>>, answers: seq<Answer>, k: nat, n: nat)
    requires Walk(events, cells, answers) && k < n < |events| && Endlessly(cells[n]) && Writes(cells[k], events[k])
    ensures events[k].now <= events[n].now
  {
    assert Turn(n);
    LandedSince(events, cells, k, n);
  }

  /** A release id is applied once within the time it is kept, whatever comes between: asked again it answers
      that it already was. */
  lemma AppliedOnce(events: seq<Event>, cells: seq<Option<Cell>>, answers: seq<Answer>, i: nat, j: nat, id: string)
    requires Walk(events, cells, answers) && i < j < |events|
    requires ReleasesOnce(events[i].op, id) && answers[i].Released? && ReleasesOnce(events[j].op, id)
    requires events[j].now < events[i].now + events[i].op.terms.keepMs
    ensures answers[j].Already?
  {
    var until := events[i].now + events[i].op.terms.keepMs;
    Remembered(events, cells, answers, i, id);
    EndlesslyOn(events, cells, answers, i + 1, j);
    forall k | i + 1 <= k < j && Writes(cells[k], events[k]) ensures events[k].now < until {
      ReadsAfter(events, cells, answers, k, j);
    }
    RemembersThrough(events, cells, answers, i + 1, j, id, until);
    RemembersTurn(events, cells, answers, j, id, until);
  }

  // ---- Fixed holds ----

  /** Held for good by the attempt of this time. */
  ghost predicate FixedAs(cell: Option<Cell>, at: int) {
    cell.Some? && cell.value.expiresAt.None? && cell.value.state.fixed && cell.value.state.fixedAt == Some(at)
  }

  /** What frees a hold fixed at this time: a whole release; a checked one that names it, not yet applied; or
      the attempt that fixed it handed back, while the window still counts it. */
  predicate Frees(was: State, e: Event, at: int) {
    var now := Aged(was, e.policy, e.now);
    match e.op
    case Release(Whole) => true
    case Release(Checked(id, _, _, lift)) => lift == Some(at) && !exists u :: u in now.used && u.id == id
    case Succeed(reservation) => reservation == Some(at) && at in now.spent
    case Abandon(attempt) => attempt == at && at in now.spent
    case _ => false
  }

  /** A fixed hold goes exactly when one of those frees it; nothing else touches it, nor does it name another. */
  lemma FixedOn(cell: Option<Cell>, e: Event, at: int)
    requires FixedAs(cell, at)
    ensures FixedAs(Step(cell, e), at) <==> !Frees(cell.value.state, e, at)
    ensures Frees(cell.value.state, e, at) ==> Step(cell, e).Some? && !Step(cell, e).value.state.fixed
    ensures e.op == Reserve ==> DecidedBy(cell, e).1 == Refused(Held(Hard, None))
  {
  }

  predicate FreesAt(events: seq<Event>, cells: seq<Option<Cell>>, n: nat, at: int)
    requires n < |events| && n < |cells|
  {
    cells[n].Some? && Frees(cells[n].value.state, events[n], at)
  }

  lemma FixedTurn(events: seq<Event>, cells: seq<Option<Cell>>, answers: seq<Answer>, n: nat, at: int)
    requires Walk(events, cells, answers) && n < |events| && FixedAs(cells[n], at) && !FreesAt(events, cells, n, at)
    ensures FixedAs(cells[n + 1], at)
  {
    assert Turn(n);
    FixedOn(cells[n], events[n], at);
  }

  /** Through any later calls and any passing of time, a fixed hold stays, fixed by the same attempt, until
      it is freed. */
  lemma {:induction false} FixedStays(
    events: seq<Event>, cells: seq<Option<Cell>>, answers: seq<Answer>, i: nat, j: nat, at: int)
    requires Walk(events, cells, answers) && i <= j <= |events| && FixedAs(cells[i], at)
    requires forall k :: i <= k < j ==> !FreesAt(events, cells, k, at)
    ensures FixedAs(cells[j], at)
    decreases j
  {
    if i < j {
      FixedStays(events, cells, answers, i, j - 1, at);
      FixedTurn(events, cells, answers, j - 1, at);
    }
  }

  // ---- Holds between attempts ----

  lemma {:induction false} Pow2Positive(n: nat)
    ensures Pow2(n) >= 1
  {
    if n > 0 { Pow2Positive(n - 1); }
  }

  /** From the threshold on every failure earns a hold, twice the one before up to the longest, and none
      outlasts the run's memory. */
  lemma HoldsGrow(p: Policy, run: int)
    requires Usable(p)
    ensures 0 <= HoldMs(p, run) <= p.maxBackoffMs <= p.memoryMs
    ensures run < p.threshold ==> HoldMs(p, run) == 0
    ensures run == p.threshold ==> HoldMs(p, run) == p.backoffMs
    ensures run >= p.threshold ==> HoldMs(p, run) >= 1 && HoldMs(p, run + 1) == Min(2 * HoldMs(p, run), p.maxBackoffMs)
  {
    if run >= p.threshold {
      var n := run - p.threshold;
      Pow2Positive(n);
      var earned := p.backoffMs * Pow2(n);
      assert earned >= 1 by { TimesAtLeast(p.backoffMs, Pow2(n)); }
      assert p.backoffMs * Pow2(n + 1) == 2 * earned;
    }
  }

  lemma TimesAtLeast(a: int, b: int)
    requires a >= 1 && b >= 1
    ensures a * b >= 1
  {
  }

  function RunIn(cell: Option<Cell>): int { if cell.None? then 0 else cell.value.state.run }

  /** Until its hold ends, the last attempt's hold stands, on a key that nobody handed back to or released. */
  ghost predicate HeldSince(cell: Option<Cell>, run: int, holdUntil: int) {
    && cell.Some? && cell.value.state.run == run && cell.value.state.holdUntil >= holdUntil
    && (cell.value.expiresAt.None? || cell.value.expiresAt.value >= holdUntil)
  }

  lemma AttemptHolds(cell: Option<Cell>, e: Event)
    requires Usable(e.policy) && e.now <= e.at && DecidedBy(cell, e).1.Reserved?
    ensures Step(cell, e).Some?
    ensures
      || HeldSince(Step(cell, e), RunIn(Step(cell, e)), e.now + HoldMs(e.policy, RunIn(Step(cell, e))))
      || HoldMs(e.policy, RunIn(Step(cell, e))) == 0
  {
    HoldsGrow(e.policy, RunIn(Step(cell, e)));
  }

  lemma HeldRefuses(cell: Option<Cell>, e: Event, run: int, holdUntil: int)
    requires HeldSince(cell, run, holdUntil) && e.op == Reserve && Found(cell, e.now) == Found(cell, e.at)
    ensures e.now < holdUntil ==> DecidedBy(cell, e).1.Refused?
    ensures DecidedBy(cell, e).1.Refused? ==> Step(cell, e) == cell
  {
  }

  lemma RefusedTurn(events: seq<Event>, cells: seq<Option<Cell>>, answers: seq<Answer>, n: nat)
    requires Walk(events, cells, answers) && n < |events| && answers[n].Refused?
    ensures cells[n + 1] == cells[n]
  {
    assert Turn(n);
    RefusedKeeps(cells[n], events[n]);
  }

  lemma RefusedKeeps(cell: Option<Cell>, e: Event)
    requires DecidedBy(cell, e).1.Refused?
    ensures Step(cell, e) == cell
  {
  }

  lemma {:induction false} RefusedThrough(
    events: seq<Event>, cells: seq<Option<Cell>>, answers: seq<Answer>, i: nat, j: nat)
    requires Walk(events, cells, answers) && i <= j <= |events| && forall n :: i <= n < j ==> answers[n].Refused?
    ensures cells[j] == cells[i]
    decreases j
  {
    if i < j {
      RefusedThrough(events, cells, answers, i, j - 1);
      RefusedTurn(events, cells, answers, j - 1);
    }
  }

  /** Admitted in calls `i` and `j`, and all calls between refused. */
  ghost predicate NextAdmitted(events: seq<Event>, answers: seq<Answer>, i: nat, j: nat) {
    && i < j < |events| && |answers| == |events| && answers[i].Reserved? && answers[j].Reserved?
    && forall n :: i < n < j ==> answers[n].Refused?
  }

  lemma HeldFrom(events: seq<Event>, cells: seq<Option<Cell>>, answers: seq<Answer>, i: nat)
    requires Walk(events, cells, answers) && i < |events| && answers[i].Reserved?
    ensures var run := RunIn(cells[i + 1]);
      HoldMs(events[i].policy, run) == 0 || HeldSince(cells[i + 1], run, events[i].now + HoldMs(events[i].policy, run))
  {
    assert Turn(i);
    AttemptHolds(cells[i], events[i]);
  }

  lemma NotBefore(events: seq<Event>, cells: seq<Option<Cell>>, answers: seq<Answer>, j: nat, run: int, holdUntil: int)
    requires Walk(events, cells, answers) && j < |events| && answers[j].Reserved? && HeldSince(cells[j], run, holdUntil)
    requires Current(events, cells, j)
    ensures events[j].now >= holdUntil
  {
    assert Turn(j);
    OnlyReserves(cells[j], events[j]);
    HeldRefuses(cells[j], events[j], run, holdUntil);
  }

  lemma OnlyReserves(cell: Option<Cell>, e: Event)
    requires DecidedBy(cell, e).1.Reserved?
    ensures e.op == Reserve
  {
  }

  lemma ReservedWrites(cell: Option<Cell>, e: Event)
    requires DecidedBy(cell, e).1.Reserved?
    ensures Writes(cell, e)
  {
  }

  lemma AfterAdmitted(events: seq<Event>, cells: seq<Option<Cell>>, answers: seq<Answer>, i: nat, j: nat)
    requires Walk(events, cells, answers) && Swift(events) && i < j < |events| && answers[i].Reserved?
    ensures Current(events, cells, j) && events[i].now <= events[i].at <= events[j].now
  {
    SwiftIsCurrent(events, cells, answers, j);
    assert Turn(i);
    ReservedWrites(cells[i], events[i]);
    LandedSince(events, cells, i, j);
  }

  /** Where every write lands soon, the next attempt admitted comes at least the hold after the one that
      earned it. */
  lemma NextComesAfterHold(events: seq<Event>, cells: seq<Option<Cell>>, answers: seq<Answer>, i: nat, j: nat)
    requires Walk(events, cells, answers) && Swift(events) && NextAdmitted(events, answers, i, j)
    ensures events[j].now >= events[i].now + HoldMs(events[i].policy, RunIn(cells[i + 1]))
  {
    HeldFrom(events, cells, answers, i);
    RefusedThrough(events, cells, answers, i + 1, j);
    AfterAdmitted(events, cells, answers, i, j);
    if HoldMs(events[i].policy, RunIn(cells[i + 1])) != 0 {
      NotBefore(
        events, cells, answers, j, RunIn(cells[i + 1]),
        events[i].now + HoldMs(events[i].policy, RunIn(cells[i + 1])));
    }
  }

  lemma RunStep(cell: Option<Cell>, e: Event, lastAt: int, since: int)
    requires Usable(e.policy) && DecidedBy(cell, e).1.Reserved? && cell.Some? && cell.value.state.lastAt == lastAt
    requires Found(cell, e.now) == Found(cell, e.at) && e.now - lastAt < e.policy.memoryMs && lastAt <= since
    requires cell.value.expiresAt.Some? ==> cell.value.expiresAt.value >= since + e.policy.memoryMs
    ensures RunIn(Step(cell, e)) == RunIn(cell) + 1
  {
  }

  lemma AttemptMarks(cell: Option<Cell>, e: Event)
    requires DecidedBy(cell, e).1.Reserved?
    ensures var c := Step(cell, e);
      && c.Some? && c.value.state.lastAt == e.now
      && (c.value.expiresAt.Some? ==> c.value.expiresAt.value >= e.at + e.policy.memoryMs)
  {
  }

  lemma MarkedBy(events: seq<Event>, cells: seq<Option<Cell>>, answers: seq<Answer>, i: nat)
    requires Walk(events, cells, answers) && i < |events| && answers[i].Reserved?
    ensures var c := cells[i + 1];
      && c.Some? && c.value.state.lastAt == events[i].now
      && (c.value.expiresAt.Some? ==> c.value.expiresAt.value >= events[i].at + events[i].policy.memoryMs)
  {
    assert Turn(i);
    AttemptMarks(cells[i], events[i]);
  }

  lemma RunTurn(
    events: seq<Event>, cells: seq<Option<Cell>>, answers: seq<Answer>, j: nat, lastAt: int, since: int)
    requires Walk(events, cells, answers) && j < |events| && Current(events, cells, j) && answers[j].Reserved?
    requires cells[j].Some? && cells[j].value.state.lastAt == lastAt && lastAt <= since
    requires events[j].now - lastAt < events[j].policy.memoryMs
    requires cells[j].value.expiresAt.Some? ==> cells[j].value.expiresAt.value >= since + events[j].policy.memoryMs
    ensures RunIn(cells[j + 1]) == RunIn(cells[j]) + 1
  {
    assert Turn(j);
    RunStep(cells[j], events[j], lastAt, since);
  }

  /** Within the run's memory the next attempt admitted is the run's next. */
  lemma RunGoesOn(events: seq<Event>, cells: seq<Option<Cell>>, answers: seq<Answer>, i: nat, j: nat)
    requires Walk(events, cells, answers) && Swift(events)
    requires NextAdmitted(events, answers, i, j) && events[j].policy == events[i].policy
    requires events[j].now - events[i].now < events[i].policy.memoryMs
    ensures RunIn(cells[j + 1]) == RunIn(cells[i + 1]) + 1
  {
    MarkedBy(events, cells, answers, i);
    RefusedThrough(events, cells, answers, i + 1, j);
    AfterAdmitted(events, cells, answers, i, j);
    RunTurn(events, cells, answers, j, events[i].now, events[i].at);
  }

  function HoldSum(p: Policy, run: int, m: nat): int {
    if m == 0 then 0 else HoldSum(p, run, m - 1) + HoldMs(p, run + m - 1)
  }

  /** The attempts of one remembered run: each admitted next after the one before, none handed back. */
  ghost predicate InARow(
    events: seq<Event>, cells: seq<Option<Cell>>, answers: seq<Answer>, chain: seq<nat>, p: Policy) {
    && |chain| > 0 && |cells| == |events| + 1
    && (forall k :: 0 <= k < |chain| ==> chain[k] < |events| && events[chain[k]].policy == p)
    && forall k :: 0 < k < |chain| ==>
      && NextAdmitted(events, answers, chain[k - 1], chain[k])
      && events[chain[k]].now - events[chain[k - 1]].now < p.memoryMs
  }

  lemma InARowInit(events: seq<Event>, cells: seq<Option<Cell>>, answers: seq<Answer>, chain: seq<nat>, p: Policy)
    requires InARow(events, cells, answers, chain, p) && |chain| > 1
    ensures InARow(events, cells, answers, chain[..|chain| - 1], p)
  {
  }

  lemma LastInARow(events: seq<Event>, cells: seq<Option<Cell>>, answers: seq<Answer>, chain: seq<nat>, p: Policy)
    requires Walk(events, cells, answers) && Swift(events) && InARow(events, cells, answers, chain, p) && |chain| > 1
    ensures var last, before := chain[|chain| - 1], chain[|chain| - 2];
      && RunIn(cells[last + 1]) == RunIn(cells[before + 1]) + 1
      && events[last].now >= events[before].now + HoldMs(p, RunIn(cells[before + 1]))
  {
    NextComesAfterHold(events, cells, answers, chain[|chain| - 2], chain[|chain| - 1]);
    RunGoesOn(events, cells, answers, chain[|chain| - 2], chain[|chain| - 1]);
  }

  /** So many attempts take at least the sum of the holds they earned. */
  lemma {:induction false} HoldsAddUp(
    events: seq<Event>, cells: seq<Option<Cell>>, answers: seq<Answer>, chain: seq<nat>, p: Policy)
    requires Walk(events, cells, answers) && Swift(events) && InARow(events, cells, answers, chain, p)
    ensures var last, first := chain[|chain| - 1], chain[0];
      && RunIn(cells[last + 1]) == RunIn(cells[first + 1]) + |chain| - 1
      && events[last].now - events[first].now >= HoldSum(p, RunIn(cells[first + 1]), |chain| - 1)
  {
    if |chain| > 1 {
      InARowInit(events, cells, answers, chain, p);
      HoldsAddUp(events, cells, answers, chain[..|chain| - 1], p);
      LastInARow(events, cells, answers, chain, p);
    }
  }

  // ---- A hold and the run's memory ----

  ghost predicate HoldRemembered(cell: Option<Cell>, p: Policy, t: int) {
    cell.Some? ==>
      && 0 <= cell.value.state.lastAt <= t
      && cell.value.state.holdUntil <= cell.value.state.lastAt + p.memoryMs
  }

  lemma HoldRememberedOn(cell: Option<Cell>, e: Event, t: int)
    requires HoldRemembered(cell, e.policy, t) && Usable(e.policy) && 0 < e.now <= e.at && Writes(cell, e)
    requires Found(cell, e.at).Some? ==> t <= e.now
    ensures HoldRemembered(Step(cell, e), e.policy, e.at)
  {
    var was := Aged(Found(cell, e.at).GetOr(NOTHING), e.policy, e.now);
    HoldsGrow(e.policy, was.run + 1);
  }

  lemma HoldTurn(events: seq<Event>, cells: seq<Option<Cell>>, answers: seq<Answer>, n: nat)
    requires Walk(events, cells, answers) && n < |events|
    requires HoldRemembered(cells[n], events[n].policy, Landed(events, cells, n))
    ensures HoldRemembered(cells[n + 1], events[n].policy, Landed(events, cells, n + 1))
  {
    assert Turn(n);
    if Writes(cells[n], events[n]) {
      HoldRememberedOn(cells[n], events[n], Landed(events, cells, n));
    } else {
      assert Step(cells[n], events[n]) == cells[n];
    }
  }

  /** No hold outlasts the run's memory: whenever a run is forgotten, its last hold has ended. */
  lemma {:induction false} ForgottenAfterHold(
    events: seq<Event>, cells: seq<Option<Cell>>, answers: seq<Answer>, n: nat, p: Policy)
    requires Walk(events, cells, answers) && n <= |events| && forall i :: 0 <= i < |events| ==> events[i].policy == p
    ensures HoldRemembered(cells[n], p, Landed(events, cells, n))
    ensures forall now :: cells[n].Some? && Aged(cells[n].value.state, p, now).run != cells[n].value.state.run ==>
      now >= cells[n].value.state.holdUntil
  {
    if n > 0 {
      ForgottenAfterHold(events, cells, answers, n - 1, p);
      HoldTurn(events, cells, answers, n - 1);
    }
  }
}
