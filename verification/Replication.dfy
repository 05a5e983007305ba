/** A primary that takes every write and a replica that follows its log: what is confirmed, what a failover
    loses, and what a restart or a shortage of memory keeps. */
module Replication {
  import opened Wrappers
  import opened Json
  import opened Contract
  import opened Store
  import opened Locality

  datatype Guarantee = NoEviction | Durable | Replicated | ConfirmedReads

  /** What each space declares. */
  type Declared = string -> set<Guarantee>

  /** A write as the primary took it: replayed at its own time, naming the versions it named then. */
  datatype Logged = Logged(serial: nat, request: Request, at: int, versions: seq<Version>)

  datatype Sim = Sim(
    primary: State,
    replica: State,
    pending: seq<Logged>,
    confirmed: seq<Logged>,
    last: nat,
    logged: nat,
    loseNext: bool,
    writesFail: bool,
    stalled: bool)

  const START := Sim(EMPTY, EMPTY, [], [], 0, 0, false, false, false)

  // ---- Spaces ----

  /** The space a request stands in, that of its first key. */
  function SpaceOf(op: Op): Option<string> {
    if KeysOf(op) == [] then None else Some(KeysOf(op)[0].space)
  }

  function GuaranteesOf(g: Declared, op: Op): set<Guarantee> {
    if SpaceOf(op).None? then {} else g(SpaceOf(op).value)
  }

  /** A batch joins spaces of the same guarantees only. */
  predicate Joins(g: Declared, op: Op) {
    forall k :: k in KeysOf(op) ==> g(k.space) == GuaranteesOf(g, op)
  }

  // ---- Replays ----

  function Replayed(s: State, l: Logged, last: nat): Outcome { Handle(s, l.request, l.at, Naming(l.versions, last)) }

  function ReplayAll(s: State, log: seq<Logged>): State {
    if log == [] then s else Replayed(ReplayAll(s, log[..|log| - 1]), log[|log| - 1], 0).state
  }

  /** Replayed here, a write names exactly the versions it named before, counting none. */
  predicate Exact(s: State, l: Logged) { Replayed(s, l, 0).naming == Naming([], 0) }

  predicate Faithful(s: State, log: seq<Logged>) {
    log == [] || (Faithful(s, log[..|log| - 1]) && Exact(ReplayAll(s, log[..|log| - 1]), log[|log| - 1]))
  }

  lemma {:induction false} ReplayConcat(s: State, a: seq<Logged>, b: seq<Logged>)
    ensures ReplayAll(s, a + b) == ReplayAll(ReplayAll(s, a), b)
    ensures Faithful(s, a + b) <==> Faithful(s, a) && Faithful(ReplayAll(s, a), b)
  {
    if b == [] {
      assert a + b == a;
    } else {
      assert (a + b)[..|a + b| - 1] == a + b[..|b| - 1];
      ReplayConcat(s, a, b[..|b| - 1]);
    }
  }

  // ---- Steps ----

  /** What a step answers: a write may await its confirmation, and is answered once that comes. */
  datatype Reply =
    | Unavailable
    | Answered(answer: Answer)
    | Awaiting(answer: Answer, serial: nat)
    | Found(entry: Option<Held>)
    | Confirmed
    | Silent

  /** Whether an answer is given only once the replica has it: a written one by replicated spaces, a refusal
      by those that confirm reads. */
  predicate Confirms(guarantees: set<Guarantee>, a: Answer) {
    if Wrote(a) then Replicated in guarantees else ConfirmedReads in guarantees
  }

  function LogOne(s: Sim, r: Request, now: int): Sim {
    var done := Handle(s.primary, r, now, Naming([], s.last));
    HandleAgain(s.primary, r, now, s.last, 0);
    s.(primary := done.state, last := done.naming.last, logged := s.logged + 1,
      pending := s.pending + [Logged(s.logged, r, now, VersionsAfter(s.last, done.naming.last))])
  }

  /** A write taken by the primary and logged, whatever it is answered. */
  function TakeWrite(g: Declared, s: Sim, r: Request, now: int): (Sim, Reply) {
    var answer := Handle(s.primary, r, now, Naming([], s.last)).answer;
    if s.writesFail || answer == Spans then (s, Unavailable)
    else
      var taken := LogOne(s, r, now);
      if s.loseNext then (taken.(loseNext := false), Unavailable)
      else if Confirms(GuaranteesOf(g, r.op), answer) then (taken, Awaiting(answer, s.logged))
      else (taken, Reply.Answered(answer))
  }

  /** The replica brought up to everything the primary holds. */
  function CaughtUp(s: Sim): Sim {
    s.(replica := ReplayAll(s.replica, s.pending), confirmed := s.confirmed + s.pending, pending := [])
  }

  predicate Logs(log: seq<Logged>, serial: nat) { exists l :: l in log && l.serial == serial }

  /** A write's confirmation, in a turn of its own; one a failover lost is unavailable. */
  function TakeConfirm(s: Sim, serial: nat): (Sim, Reply) {
    if s.stalled then (s, Unavailable)
    else if Logs(s.pending, serial) then (CaughtUp(s), Confirmed)
    else (s, if Logs(s.confirmed, serial) then Confirmed else Unavailable)
  }

  /** A read; of a space that confirms reads, everything is confirmed before it is answered. */
  function TakeRead(g: Declared, s: Sim, k: Key, now: int): (Sim, Reply) {
    if ConfirmedReads in g(k.space) then
      if s.stalled then (s, Unavailable) else (CaughtUp(s), Found(Look(s.primary.values, k, now)))
    else (s, Found(Look(s.primary.values, k, now)))
  }

  function FailedOver(s: Sim): Sim {
    s.(primary := s.replica, pending := [], replica := ReplayAll(EMPTY, s.confirmed))
  }

  function Keeping(g: Declared, kept: Guarantee, log: seq<Logged>): seq<Logged> {
    if log == [] then []
    else
      var init, l := Keeping(g, kept, log[..|log| - 1]), log[|log| - 1];
      if kept in GuaranteesOf(g, l.request.op) then init + [l] else init
  }

  lemma {:induction false} KeepingHas(g: Declared, kept: Guarantee, log: seq<Logged>)
    ensures forall l :: l in Keeping(g, kept, log) <==> l in log && kept in GuaranteesOf(g, l.request.op)
  {
    if log != [] {
      KeepingHas(g, kept, log[..|log| - 1]);
      assert log == log[..|log| - 1] + [log[|log| - 1]];
    }
  }

  /** Rebuilt from the log of the spaces that declare the guarantee, every other space losing everything. */
  function KeptOnly(g: Declared, kept: Guarantee, s: Sim): Sim {
    var confirmed, pending := Keeping(g, kept, s.confirmed), Keeping(g, kept, s.pending);
    s.(confirmed := confirmed, pending := pending,
      replica := ReplayAll(EMPTY, confirmed), primary := ReplayAll(EMPTY, confirmed + pending))
  }

  // ---- What every reachable state keeps ----

  function LogOf(s: Sim): seq<Logged> { s.confirmed + s.pending }

  /** No two writes are logged as one, each joins spaces of the same guarantees, and versions are counted ones. */
  ghost predicate WellLogged(g: Declared, log: seq<Logged>, logged: nat, last: nat) {
    && (forall i, j :: 0 <= i < j < |log| ==> log[i].serial < log[j].serial)
    && (forall i :: 0 <= i < |log| ==> log[i].serial < logged && Joins(g, log[i].request.op))
    && (forall i, v :: 0 <= i < |log| && v in log[i].versions ==> v <= last)
  }

  datatype Aspect = OfPrimary | OfReplica | OfReplays | OfLog

  ghost predicate Keeps(g: Declared, s: Sim, a: Aspect) {
    match a
    case OfPrimary => s.primary == ReplayAll(EMPTY, LogOf(s))
    case OfReplica => s.replica == ReplayAll(EMPTY, s.confirmed)
    case OfReplays => Faithful(EMPTY, LogOf(s))
    case OfLog => WellLogged(g, LogOf(s), s.logged, s.last)
  }

  /** The primary is a replay of all that was confirmed and then all that is pending; the replica of what was
      confirmed; and every replay names what was named before. */
  ghost predicate Inv(g: Declared, s: Sim) { forall a: Aspect :: Keeps(g, s, a) }

  lemma Opened(g: Declared, s: Sim)
    requires Inv(g, s)
    ensures s.primary == ReplayAll(EMPTY, LogOf(s)) && s.replica == ReplayAll(EMPTY, s.confirmed)
    ensures Faithful(EMPTY, LogOf(s)) && WellLogged(g, LogOf(s), s.logged, s.last)
  {
    assert Keeps(g, s, OfPrimary) && Keeps(g, s, OfReplica) && Keeps(g, s, OfReplays) && Keeps(g, s, OfLog);
  }

  lemma Closed(g: Declared, s: Sim)
    requires s.primary == ReplayAll(EMPTY, LogOf(s)) && s.replica == ReplayAll(EMPTY, s.confirmed)
    requires Faithful(EMPTY, LogOf(s)) && WellLogged(g, LogOf(s), s.logged, s.last)
    ensures Inv(g, s)
  {
  }

  /** Only what the stores and the log hold matters. */
  lemma FlagsAside(g: Declared, s: Sim, loseNext: bool, writesFail: bool, stalled: bool)
    requires Inv(g, s)
    ensures Inv(g, s.(loseNext := loseNext, writesFail := writesFail, stalled := stalled))
  {
    Opened(g, s);
    Closed(g, s.(loseNext := loseNext, writesFail := writesFail, stalled := stalled));
  }

  lemma LoggedIsReplayed(s: State, r: Request, now: int, n: nat, serial: nat)
    ensures var done := Handle(s, r, now, Naming([], n));
      && n <= done.naming.last
      && var l := Logged(serial, r, now, VersionsAfter(n, done.naming.last));
        Exact(s, l) && Replayed(s, l, 0).state == done.state
  {
    HandleAgain(s, r, now, n, 0);
  }

  lemma OneMore(s: State, log: seq<Logged>, l: Logged, more: seq<Logged>)
    requires Faithful(s, log) && Exact(ReplayAll(s, log), l) && more == log + [l]
    ensures Faithful(s, more) && ReplayAll(s, more) == Replayed(ReplayAll(s, log), l, 0).state
  {
    assert more[..|more| - 1] == log;
  }

  lemma LoggedMore(g: Declared, log: seq<Logged>, l: Logged, more: seq<Logged>, last: nat, later: nat)
    requires WellLogged(g, log, l.serial, last) && Joins(g, l.request.op) && last <= later && more == log + [l]
    requires forall v :: v in l.versions ==> v <= later
    ensures WellLogged(g, more, l.serial + 1, later)
  {
  }

  lemma LoggedAs(g: Declared, s: Sim, l: Logged, more: seq<Logged>, last: nat)
    requires Inv(g, s) && Joins(g, l.request.op) && Exact(s.primary, l) && more == LogOf(s) + [l]
    requires l.serial == s.logged
    requires s.last <= last && forall v :: v in l.versions ==> v <= last
    ensures Faithful(EMPTY, more) && ReplayAll(EMPTY, more) == Replayed(s.primary, l, 0).state
    ensures WellLogged(g, more, s.logged + 1, last)
  {
    Opened(g, s);
    OneMore(EMPTY, LogOf(s), l, more);
    LoggedMore(g, LogOf(s), l, more, s.last, last);
  }

  lemma LoggedKeeps(g: Declared, s: Sim, t: Sim, l: Logged)
    requires Inv(g, s) && Joins(g, l.request.op) && Exact(s.primary, l)
    requires LogOf(t) == LogOf(s) + [l] && t.confirmed == s.confirmed && t.replica == s.replica
    requires t.primary == Replayed(s.primary, l, 0).state && l.serial == s.logged && t.logged == s.logged + 1
    requires s.last <= t.last && forall v :: v in l.versions ==> v <= t.last
    ensures Inv(g, t)
  {
    LoggedAs(g, s, l, LogOf(t), t.last);
    assert Keeps(g, s, OfReplica);
    Closed(g, t);
  }

  lemma LogOneKeeps(g: Declared, s: Sim, r: Request, now: int)
    requires Inv(g, s) && Joins(g, r.op)
    ensures Inv(g, LogOne(s, r, now)) && s.last <= LogOne(s, r, now).last
  {
    LoggedIsReplayed(s.primary, r, now, s.last, s.logged);
    var t := LogOne(s, r, now);
    var l := Logged(s.logged, r, now, VersionsAfter(s.last, t.last));
    assert LogOf(t) == LogOf(s) + [l];
    LoggedKeeps(g, s, t, l);
  }

  lemma CaughtUpKeeps(g: Declared, s: Sim)
    requires Inv(g, s)
    ensures Inv(g, CaughtUp(s)) && CaughtUp(s).primary == s.primary
  {
    Opened(g, s);
    ReplayConcat(EMPTY, s.confirmed, s.pending);
    assert LogOf(CaughtUp(s)) == LogOf(s);
    Closed(g, CaughtUp(s));
  }

  lemma WellLoggedPrefix(g: Declared, a: seq<Logged>, b: seq<Logged>, logged: nat, last: nat)
    requires WellLogged(g, a + b, logged, last)
    ensures WellLogged(g, a, logged, last)
  {
    forall i | 0 <= i < |a| ensures (a + b)[i] == a[i] {}
  }

  lemma ConfirmedWell(g: Declared, s: Sim)
    requires Inv(g, s)
    ensures Faithful(EMPTY, s.confirmed) && WellLogged(g, s.confirmed, s.logged, s.last)
  {
    Opened(g, s);
    ReplayConcat(EMPTY, s.confirmed, s.pending);
    WellLoggedPrefix(g, s.confirmed, s.pending, s.logged, s.last);
  }

  lemma FailedOverKeeps(g: Declared, s: Sim)
    requires Inv(g, s)
    ensures Inv(g, FailedOver(s))
  {
    Opened(g, s);
    ConfirmedWell(g, s);
    assert LogOf(FailedOver(s)) == s.confirmed;
    Closed(g, FailedOver(s));
  }

  // ---- Some spaces only ----

  function SpacesWith(g: Declared, kept: Guarantee, names: set<string>): set<string> {
    set n | n in names && kept in g(n)
  }

  /** Every space a log names. */
  function SpacesNamed(log: seq<Logged>): set<string> { set l, k | l in log && k in KeysOf(l.request.op) :: k.space }

  /** Replayed without the other spaces' writes, a log leaves in the kept ones just what it leaves whole. */
  lemma {:induction false} KeepingReplays(g: Declared, kept: Guarantee, log: seq<Logged>, names: set<string>)
    requires Faithful(EMPTY, log) && SpacesNamed(log) <= names && forall l :: l in log ==> Joins(g, l.request.op)
    ensures Faithful(EMPTY, Keeping(g, kept, log))
    ensures ReplayAll(EMPTY, Keeping(g, kept, log)) == InSpaces(ReplayAll(EMPTY, log), SpacesWith(g, kept, names))
  {
    var spaces := SpacesWith(g, kept, names);
    if log != [] {
      var init, l := log[..|log| - 1], log[|log| - 1];
      assert log == init + [l];
      KeepingReplays(g, kept, init, names);
      var s := ReplayAll(EMPTY, init);
      KeepingOne(g, kept, l, names, s);
      var thin := Keeping(g, kept, init);
      if kept in GuaranteesOf(g, l.request.op) { assert (thin + [l])[..|thin|] == thin; }
    }
  }

  lemma KeepingOne(g: Declared, kept: Guarantee, l: Logged, names: set<string>, s: State)
    requires Joins(g, l.request.op) && Exact(s, l) && forall k :: k in KeysOf(l.request.op) ==> k.space in names
    ensures var spaces := SpacesWith(g, kept, names); var thin := InSpaces(s, spaces);
      if kept in GuaranteesOf(g, l.request.op) then
        Exact(thin, l) && Replayed(thin, l, 0).state == InSpaces(Replayed(s, l, 0).state, spaces)
      else InSpaces(Replayed(s, l, 0).state, spaces) == thin
  {
    var spaces := SpacesWith(g, kept, names);
    if kept in GuaranteesOf(g, l.request.op) {
      HandleIn(s, spaces, l.request, l.at, Naming(l.versions, 0));
    } else {
      HandleOut(s, spaces, l.request, l.at, Naming(l.versions, 0));
    }
  }

  lemma KeepingLast(g: Declared, kept: Guarantee, init: seq<Logged>, l: Logged, log: seq<Logged>)
    requires log == init + [l]
    ensures Keeping(g, kept, log) ==
      if kept in GuaranteesOf(g, l.request.op) then Keeping(g, kept, init) + [l] else Keeping(g, kept, init)
  {
    assert log[..|log| - 1] == init;
  }

  lemma {:induction false} KeepingConcat(g: Declared, kept: Guarantee, a: seq<Logged>, b: seq<Logged>)
    ensures Keeping(g, kept, a + b) == Keeping(g, kept, a) + Keeping(g, kept, b)
  {
    if b == [] {
      assert a + b == a;
    } else {
      var init, l := b[..|b| - 1], b[|b| - 1];
      assert b == init + [l] && a + b == a + init + [l];
      KeepingConcat(g, kept, a, init);
      KeepingLast(g, kept, a + init, l, a + b);
      KeepingLast(g, kept, init, l, b);
    }
  }

  lemma LoggedFewer(g: Declared, log: seq<Logged>, logged: nat, last: nat)
    requires log != [] && WellLogged(g, log, logged, last)
    ensures WellLogged(g, log[..|log| - 1], log[|log| - 1].serial, last)
  {
  }

  lemma {:induction false} KeepingLogged(g: Declared, kept: Guarantee, log: seq<Logged>, logged: nat, last: nat)
    requires WellLogged(g, log, logged, last)
    ensures WellLogged(g, Keeping(g, kept, log), logged, last)
  {
    if log != [] {
      var init, l := log[..|log| - 1], log[|log| - 1];
      LoggedFewer(g, log, logged, last);
      KeepingLogged(g, kept, init, l.serial, last);
      LoggedMore(g, Keeping(g, kept, init), l, Keeping(g, kept, init) + [l], last, last);
    }
  }

  /** What a rebuild keeps: of the spaces that declare the guarantee, all that primary and replica held. */
  lemma KeptOnlyKeeps(g: Declared, kept: Guarantee, s: Sim, names: set<string>)
    requires Inv(g, s) && SpacesNamed(s.confirmed + s.pending) <= names
    ensures Inv(g, KeptOnly(g, kept, s))
    ensures KeptOnly(g, kept, s).primary == InSpaces(s.primary, SpacesWith(g, kept, names))
    ensures KeptOnly(g, kept, s).replica == InSpaces(s.replica, SpacesWith(g, kept, names))
  {
    Opened(g, s);
    var log := s.confirmed + s.pending;
    KeepingConcat(g, kept, s.confirmed, s.pending);
    KeepingReplays(g, kept, log, names);
    ReplayConcat(EMPTY, s.confirmed, s.pending);
    forall l | l in s.confirmed ensures Joins(g, l.request.op) && l in log {
      var i :| 0 <= i < |s.confirmed| && s.confirmed[i] == l;
      assert log[i] == l;
    }
    KeepingReplays(g, kept, s.confirmed, names);
    KeepingLogged(g, kept, log, s.logged, s.last);
    Closed(g, KeptOnly(g, kept, s));
  }

  // ---- Runs ----

  datatype Step =
    | Write(request: Request, now: int)
    | Get(key: Key, now: int)
    | Confirm(serial: nat)
    | Failover
    | Restart
    | PressMemory
    | LoseNext
    | FailWrites(on: bool)
    | Stall(on: bool)

  function TakeStep(g: Declared, s: Sim, step: Step): (Sim, Reply) {
    match step
    case Write(r, now) => TakeWrite(g, s, r, now)
    case Get(k, now) => TakeRead(g, s, k, now)
    case Confirm(serial) => TakeConfirm(s, serial)
    case Failover => (FailedOver(s), Silent)
    case Restart => (KeptOnly(g, Durable, s), Silent)
    case PressMemory => (KeptOnly(g, NoEviction, s), Silent)
    case LoseNext => (s.(loseNext := true), Silent)
    case FailWrites(on) => (s.(writesFail := on), Silent)
    case Stall(on) => (s.(stalled := on), Silent)
  }

  function NextOf(g: Declared, s: Sim, step: Step): Sim { TakeStep(g, s, step).0 }

  /** Names a turn of a run, for a proof to look into that turn only. */
  predicate Turn(n: nat) { true }

  /** These are the states the steps come through, one after another, and these their answers. */
  ghost predicate Walk(g: Declared, steps: seq<Step>, states: seq<Sim>, replies: seq<Reply>) {
    && |states| == |steps| + 1 && |replies| == |steps| && states[0] == START
    && (forall i :: 0 <= i < |steps| && steps[i].Write? ==> Joins(g, steps[i].request.op))
    && (forall n: nat {:trigger Turn(n)} :: n < |steps| ==>
        (states[n + 1], replies[n]) == TakeStep(g, states[n], steps[n]))
  }

  lemma WriteKeeps(g: Declared, s: Sim, r: Request, now: int)
    requires Inv(g, s) && Joins(g, r.op)
    ensures var t := TakeWrite(g, s, r, now).0; Inv(g, t) && s.last <= t.last && s.logged <= t.logged
  {
    LogOneKeeps(g, s, r, now);
    var taken := LogOne(s, r, now);
    FlagsAside(g, taken, false, taken.writesFail, taken.stalled);
  }

  lemma StepKeeps(g: Declared, s: Sim, step: Step)
    requires Inv(g, s) && (step.Write? ==> Joins(g, step.request.op))
    ensures Inv(g, NextOf(g, s, step)) && s.last <= NextOf(g, s, step).last && s.logged <= NextOf(g, s, step).logged
  {
    match step
    case Write(r, now) => WriteKeeps(g, s, r, now);
    case Get(_, _) => CaughtUpKeeps(g, s);
    case Confirm(_) => CaughtUpKeeps(g, s);
    case Failover => FailedOverKeeps(g, s);
    case Restart => KeptOnlyKeeps(g, Durable, s, SpacesNamed(s.confirmed + s.pending));
    case PressMemory => KeptOnlyKeeps(g, NoEviction, s, SpacesNamed(s.confirmed + s.pending));
    case LoseNext => FlagsAside(g, s, true, s.writesFail, s.stalled);
    case FailWrites(on) => FlagsAside(g, s, s.loseNext, on, s.stalled);
    case Stall(on) => FlagsAside(g, s, s.loseNext, s.writesFail, on);
  }

  lemma BeginsKept(g: Declared, steps: seq<Step>, states: seq<Sim>, replies: seq<Reply>)
    requires Walk(g, steps, states, replies)
    ensures Inv(g, states[0])
  {
    Closed(g, START);
  }

  lemma TurnKeeps(g: Declared, steps: seq<Step>, states: seq<Sim>, replies: seq<Reply>, n: nat)
    requires Walk(g, steps, states, replies) && 0 < n <= |steps| && Inv(g, states[n - 1])
    ensures Inv(g, states[n])
  {
    assert Turn(n - 1);
    StepKeeps(g, states[n - 1], steps[n - 1]);
  }

  /** In every reachable state the primary is a replay of confirmed then pending writes, the replica of the
      confirmed ones. */
  lemma {:induction false} AlwaysReplays(g: Declared, steps: seq<Step>, states: seq<Sim>, replies: seq<Reply>, n: nat)
    requires Walk(g, steps, states, replies) && n <= |steps|
    ensures Inv(g, states[n])
  {
    if n == 0 {
      BeginsKept(g, steps, states, replies);
    } else {
      AlwaysReplays(g, steps, states, replies, n - 1);
      TurnKeeps(g, steps, states, replies, n);
    }
  }
}
