/** Runs of failures on a key, the holds they earn, and their release: what one write decides. */
module Lockout {
  import opened Wrappers

  datatype Policy = Policy(
    threshold: int, backoffMs: int, maxBackoffMs: int, budget: int, budgetWindowMs: int, hardLimit: int, memoryMs: int)

  /** Why a policy cannot be used, or nothing. */
  function Problem(p: Policy): Option<string> {
    if p.threshold < 1 || p.backoffMs < 1 || p.maxBackoffMs < 1 || p.budget < 1 || p.budgetWindowMs < 1
      || p.hardLimit < 1 || p.memoryMs < 1
    then Some("every number is a positive integer")
    else if p.maxBackoffMs < p.backoffMs then Some("the longest hold is shorter than the first")
    else if p.budget < p.threshold || p.hardLimit < p.budget
    then Some("threshold, budget and hard limit must not decrease")
    else if p.memoryMs < p.maxBackoffMs then Some("a run is forgotten before its hold ends")
    else None
  }

  predicate Usable(p: Policy) { Problem(p).None? }

  /** A release id, until it may be applied again. */
  datatype Use = Use(id: string, until: int)

  datatype State = State(
    run: int,
    lastAt: int,
    spent: seq<int>,
    holdUntil: int,
    fixed: bool,
    fixedAt: Option<int>,
    named: Option<int>,
    generation: Option<nat>,
    used: seq<Use>)

  const NOTHING := State(0, 0, [], 0, false, None, None, None, [])

  datatype Hold = Hard | Backoff | Budget

  datatype Standing = Open | Held(hold: Hold, retryAfterMs: Option<int>)

  function Max(a: int, b: int): int { if a < b then b else a }
  function Min(a: int, b: int): int { if a < b then a else b }

  function Recent(spent: seq<int>, p: Policy, now: int): seq<int> {
    Filter(spent, (at: int) => at > now - p.budgetWindowMs)
  }

  function StillUsed(used: seq<Use>, now: int): seq<Use> { Filter(used, (u: Use) => u.until > now) }

  /** The state as of now: a quiet run is forgotten; failures past the window and ids past keeping drop out. */
  function Aged(s: State, p: Policy, now: int): State {
    var quiet := !s.fixed && s.lastAt > 0 && now - s.lastAt > p.memoryMs;
    s.(run := if quiet then 0 else s.run, spent := Recent(s.spent, p, now), used := StillUsed(s.used, now))
  }

  /** What every rewrite carries over: the attempt times handed out, and the releases. */
  function Kept(was: State, next: State): State {
    next.(named := was.named, generation := was.generation, used := was.used)
  }

  function FixedOf(s: State): Option<int> { if s.fixed then s.fixedAt else None }

  function FirstOf(s: State): Option<int> { if s.spent == [] then None else Some(s.spent[0]) }

  function Judge(s: State, p: Policy, now: int): Standing {
    if s.fixed then Held(Hard, None)
    else if s.holdUntil > now then Held(Backoff, Some(s.holdUntil - now))
    else if |s.spent| >= p.budget then
      Held(Budget, Some(FirstOf(s).GetOr(now) + p.budgetWindowMs - now))
    else Open
  }

  function Pow2(n: nat): nat { if n == 0 then 1 else 2 * Pow2(n - 1) }

  /** The hold a run's n-th failure earns. */
  function HoldMs(p: Policy, run: int): int {
    var over := run - p.threshold;
    if over < 0 then 0 else Min(p.backoffMs * Pow2(over), p.maxBackoffMs)
  }

  /** A list's `slice(-n)`. */
  function SliceLast(s: seq<int>, n: int): seq<int> {
    if n > 0 then (if |s| > n then s[|s| - n..] else s)
    else if -n <= |s| then s[-n..] else []
  }

  function LastIndexOf(s: seq<int>, x: int): (r: Option<nat>)
    ensures r.Some? ==> r.value < |s| && s[r.value] == x && x !in s[r.value + 1..]
    ensures r.None? ==> x !in s
  {
    if s == [] then None
    else
      assert s == s[..|s| - 1] + [s[|s| - 1]];
      if s[|s| - 1] == x then Some(|s| - 1)
      else
        var r := LastIndexOf(s[..|s| - 1], x);
        assert r.Some? ==> s[r.value + 1..] == s[..|s| - 1][r.value + 1..] + [s[|s| - 1]];
        r
  }

  /** A list's `toSpliced(k, 1)`. */
  function Spliced<T>(s: seq<T>, k: nat): (r: seq<T>)
    requires k < |s|
    ensures |r| == |s| - 1 && forall i :: 0 <= i < |r| ==> r[i] == s[if i < k then i else i + 1]
  {
    s[..k] + s[k + 1..]
  }

  // ---- What a write decides ----

  datatype Lifetime = Endless | For(ms: int) | AsIs

  datatype Decision = Keep | Write(next: State, lifetime: Lifetime)

  function LifetimeOf(next: State, p: Policy): Lifetime {
    if next.fixed || next.generation.Some? then Endless else For(Max(p.budgetWindowMs, p.memoryMs))
  }

  datatype Terms =
    | Whole
    | Checked(id: string, keepMs: int, forgive: Option<Option<int>>, lift: Option<int>)

  datatype Op =
    | Fail
    | Reserve
    | Succeed(reservation: Option<int>)
    | Abandon(attempt: int)
    | Release(terms: Terms)

  datatype Answer =
    | Counted(at: int, left: Standing)
    | Reserved(at: int, holds: Option<Hold>)
    | Refused(standing: Standing)
    | Done
    | Released(generation: nat, budget: bool, run: bool, hard: bool, fixedAt: Option<int>)
    | Already(generation: nat, fixedAt: Option<int>)
    | Unchanged(fixedAt: Option<int>)

  /** The attempt's own time, unique while the key's state is kept. */
  function AttemptAt(was: State, now: int): int { Max(now, was.named.GetOr(0) + 1) }

  function CountedState(was: State, p: Policy, now: int): State {
    var at, run := AttemptAt(was, now), was.run + 1;
    var holdMs := HoldMs(p, run);
    var fixed := was.fixed || run >= p.hardLimit;
    Kept(was, NOTHING).(
      run := run,
      lastAt := now,
      spent := SliceLast(was.spent + [at], p.budget),
      holdUntil := if holdMs > 0 then now + holdMs else was.holdUntil,
      fixed := fixed,
      named := Some(at),
      fixedAt := if was.fixed then was.fixedAt else if fixed then Some(at) else None)
  }

  function Record(was: State, p: Policy, now: int, reserving: bool): (Decision, Answer) {
    var at, before := AttemptAt(was, now), Judge(was, p, now);
    if reserving && before.Held? then (Keep, Refused(before))
    else
      var next := CountedState(was, p, now);
      var left := Judge(next, p, now);
      (Write(next, LifetimeOf(next, p)),
       if reserving then Reserved(at, if left.Held? then Some(left.hold) else None) else Counted(at, left))
  }

  function HandBack(was: State, p: Policy, reservation: Option<int>, success: bool): Decision {
    var index := if reservation.None? then None else LastIndexOf(was.spent, reservation.value);
    if !success && index.None? then Keep
    else if was.fixed && (index.None? || was.fixedAt != reservation) then Keep
    else
      var spent := if index.None? then was.spent else Spliced(was.spent, index.value);
      var run := if success then 0 else Max(0, was.run - 1);
      var own := index.Some? && index.value == |was.spent| - 1;
      var next := Kept(was, NOTHING).(
        run := run,
        lastAt := was.lastAt,
        holdUntil := if run < p.threshold || own then 0 else was.holdUntil,
        spent := spent);
      Write(next, if was.fixed then LifetimeOf(next, p) else AsIs)
  }

  function ReleaseChecked(was: State, p: Policy, t: Terms, now: int): (Decision, Answer)
    requires t.Checked?
  {
    if exists u :: u in was.used && u.id == t.id then (Keep, Already(was.generation.GetOr(0), FixedOf(was)))
    else
      var forgiven := t.forgive.Some? && t.forgive.value == FirstOf(was);
      var lifted := t.lift.Some? && t.lift == FixedOf(was);
      if !forgiven && !lifted then (Keep, Unchanged(FixedOf(was)))
      else
        var staysFixed := was.fixed && !lifted;
        var endsRun := lifted || (forgiven && !staysFixed);
        var generation := was.generation.GetOr(0) + 1;
        var next := State(
          if endsRun then 0 else was.run,
          was.lastAt,
          if forgiven then [] else was.spent,
          if endsRun then 0 else was.holdUntil,
          staysFixed,
          if staysFixed then FixedOf(was) else None,
          was.named,
          Some(generation),
          was.used + [Use(t.id, now + t.keepMs)]);
        (Write(next, LifetimeOf(next, p)), Released(generation, forgiven, endsRun, lifted, FixedOf(next)))
  }

  function ReleaseState(was: State, p: Policy, t: Terms, now: int): (Decision, Answer) {
    if t.Checked? then ReleaseChecked(was, p, t, now)
    else
      var generation := was.generation.GetOr(0) + 1;
      var next := Kept(was, NOTHING).(generation := Some(generation));
      (Write(next, LifetimeOf(next, p)), Released(generation, true, true, true, None))
  }

  /** What a call decides on what is stored, none when the key holds nothing. */
  function Decide(op: Op, p: Policy, current: Option<State>, now: int): (Decision, Answer) {
    var was := Aged(current.GetOr(NOTHING), p, now);
    match op
    case Fail => Record(was, p, now, false)
    case Reserve => Record(was, p, now, true)
    case Succeed(r) => (if current.None? then Keep else HandBack(was, p, r, true), Done)
    case Abandon(r) => (if current.None? then Keep else HandBack(was, p, Some(r), false), Done)
    case Release(t) => ReleaseState(was, p, t, now)
  }

  // ---- Runs ----

  /** A key's state as stored, ending at its time or never. */
  datatype Cell = Cell(state: State, expiresAt: Option<int>)

  /** A call: what it asked, the store's time when it read, and when its write landed. What it read is that of
      its last try; a call that writes nothing is over as it reads. */
  datatype Event = Event(op: Op, policy: Policy, now: int, at: int)

  function Found(cell: Option<Cell>, t: int): Option<State> {
    if cell.Some? && (cell.value.expiresAt.None? || cell.value.expiresAt.value > t) then Some(cell.value.state)
    else None
  }

  function Stored(cell: Option<Cell>, d: Decision, t: int): Option<Cell> {
    match d
    case Keep => cell
    case Write(next, lifetime) =>
      Some(Cell(next, match lifetime
        case Endless => None
        case For(ms) => Some(t + ms)
        case AsIs => if cell.None? then None else cell.value.expiresAt))
  }

  function DecidedBy(cell: Option<Cell>, e: Event): (Decision, Answer) {
    Decide(e.op, e.policy, Found(cell, e.at), e.now)
  }

  function Step(cell: Option<Cell>, e: Event): Option<Cell> { Stored(cell, DecidedBy(cell, e).0, e.at) }

  /** Names a turn of a run, for a proof to look into that turn only. */
  predicate Turn(n: nat) { true }

  predicate Writes(cell: Option<Cell>, e: Event) { DecidedBy(cell, e).0.Write? }

  /** Calls are in the order they land, on a clock that never goes back; each lands no earlier than it read. */
  predicate Timed(events: seq<Event>) {
    && (forall i :: 0 <= i < |events| ==> 0 < events[i].now <= events[i].at)
    && (forall i, j :: 0 <= i < j < |events| ==> events[i].at <= events[j].at)
  }

  /** When the last write of the first `n` calls landed. */
  function Landed(events: seq<Event>, cells: seq<Option<Cell>>, n: nat): int
    requires n <= |events| && n <= |cells|
  {
    if n == 0 then 0 else if Writes(cells[n - 1], events[n - 1]) then events[n - 1].at else Landed(events, cells, n - 1)
  }

  /** The key held cell `k` at this time: what was written before had landed by then, nothing after had. */
  ghost predicate InForce(events: seq<Event>, cells: seq<Option<Cell>>, k: nat, n: nat, t: int)
    requires n <= |events| && n <= |cells|
  {
    && k <= n && Landed(events, cells, k) <= t
    && forall m :: k <= m < n && Writes(cells[m], events[m]) ==> t <= events[m].at
  }

  /** What the store lets land. A write on an entry read lands only while that very entry stands; a write on an
      absence read lands whenever the key holds none again, whoever wrote it meanwhile. */
  ghost predicate Lands(events: seq<Event>, cells: seq<Option<Cell>>, n: nat)
    requires n < |events| && n < |cells|
  {
    var e := events[n];
    if !Writes(cells[n], e) then e.at == e.now
    else if Found(cells[n], e.at).Some? then Landed(events, cells, n) <= e.now
    else exists k: nat :: k <= n && InForce(events, cells, k, n, e.now) && Found(cells[k], e.now).None?
  }

  /** These are the cells a key comes through, one call after another, from none, and these the answers. */
  ghost predicate Walk(events: seq<Event>, cells: seq<Option<Cell>>, answers: seq<Answer>) {
    && |cells| == |events| + 1 && |answers| == |events| && cells[0] == None && Timed(events)
    && (forall i :: 0 <= i < |events| ==> Usable(events[i].policy))
    && (forall n: nat {:trigger Turn(n)} :: n < |events| ==>
        && Lands(events, cells, n)
        && cells[n + 1] == Step(cells[n], events[n]) && answers[n] == DecidedBy(cells[n], events[n]).1)
  }

  // ---- Writes that land soon ----

  /** How long what is stored is kept when it is kept for a time. */
  function KeptMs(p: Policy): int { Max(p.budgetWindowMs, p.memoryMs) }

  /** Every write lands within less than what is stored is kept. */
  predicate Swift(events: seq<Event>) {
    forall m, n :: 0 <= m < |events| && 0 <= n < |events| ==> events[n].at < events[n].now + KeptMs(events[m].policy)
  }

  /** The call decided on what the key held from its reading to its landing. */
  predicate Current(events: seq<Event>, cells: seq<Option<Cell>>, n: nat)
    requires n < |events| && n < |cells|
  {
    Landed(events, cells, n) <= events[n].now && Found(cells[n], events[n].now) == Found(cells[n], events[n].at)
  }

  lemma {:induction false} LandedBy(events: seq<Event>, cells: seq<Option<Cell>>, n: nat)
    requires Timed(events) && n < |events| && n <= |cells|
    ensures 0 <= Landed(events, cells, n) <= events[n].at
  {
    if n > 0 { LandedBy(events, cells, n - 1); }
  }

  ghost predicate Outlasts(cell: Option<Cell>, t: int) {
    cell.Some? && (cell.value.expiresAt.None? || cell.value.expiresAt.value > t)
  }

  lemma WriteOutlasts(cell: Option<Cell>, e: Event, t: int)
    requires Writes(cell, e) && e.at + KeptMs(e.policy) > t && (Found(cell, e.at).None? || Outlasts(cell, t))
    ensures Outlasts(Step(cell, e), t)
  {
  }

  /** From an absence on, whatever is written meanwhile outlasts a landing that is soon enough. */
  lemma {:induction false} MeanwhileOutlasts(
    events: seq<Event>, cells: seq<Option<Cell>>, answers: seq<Answer>, k: nat, j: nat, now: int, t: int)
    requires Walk(events, cells, answers) && k <= j <= |events| && Found(cells[k], now).None?
    requires forall m :: k <= m < j && Writes(cells[m], events[m]) ==>
      now <= events[m].at && events[m].at + KeptMs(events[m].policy) > t
    ensures (cells[j] == cells[k] && Landed(events, cells, j) == Landed(events, cells, k)) || Outlasts(cells[j], t)
    decreases j
  {
    if k < j {
      MeanwhileOutlasts(events, cells, answers, k, j - 1, now, t);
      assert Turn(j - 1);
      var cell, e := cells[j - 1], events[j - 1];
      assert cells[j] == Step(cell, e);
      if Writes(cell, e) {
        assert Found(cell, e.at).None? || Outlasts(cell, t);
        WriteOutlasts(cell, e, t);
      } else {
        assert Step(cell, e) == cell;
        assert Landed(events, cells, j) == Landed(events, cells, j - 1);
      }
    }
  }

  /** Where every write lands soon, each call decides on what stands when it lands. */
  lemma SwiftIsCurrent(events: seq<Event>, cells: seq<Option<Cell>>, answers: seq<Answer>, n: nat)
    requires Walk(events, cells, answers) && Swift(events) && n < |events|
    ensures Current(events, cells, n)
  {
    assert Turn(n);
    var e := events[n];
    LandedBy(events, cells, n);
    if Writes(cells[n], e) && Found(cells[n], e.at).None? {
      var k: nat :| k <= n && InForce(events, cells, k, n, e.now) && Found(cells[k], e.now).None?;
      MeanwhileOutlasts(events, cells, answers, k, n, e.now, e.at);
    }
  }
}
