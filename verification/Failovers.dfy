/** What an answer is worth: over any run of writes, reads, failovers, restarts and shortages of memory, what
    was confirmed before it was answered is never lost to its space, nor anything logged before it. */
module Failovers {
  import opened Wrappers
  import opened Json
  import opened Contract
  import opened Store
  import opened Locality
  import opened Replication
  import Marks

  /** Of a log, the writes of interest up to this one. */
  function Part(log: seq<Logged>, serial: nat, keep: Logged -> bool): seq<Logged> {
    if log == [] then []
    else
      var init, l := Part(log[..|log| - 1], serial, keep), log[|log| - 1];
      if keep(l) && l.serial <= serial then init + [l] else init
  }

  lemma {:induction false} PartConcat(a: seq<Logged>, b: seq<Logged>, serial: nat, keep: Logged -> bool)
    ensures Part(a + b, serial, keep) == Part(a, serial, keep) + Part(b, serial, keep)
  {
    if b == [] {
      assert a + b == a;
    } else {
      assert (a + b)[..|a + b| - 1] == a + b[..|b| - 1];
      PartConcat(a, b[..|b| - 1], serial, keep);
    }
  }

  lemma {:induction false} PartNone(log: seq<Logged>, serial: nat, keep: Logged -> bool)
    requires forall i :: 0 <= i < |log| ==> log[i].serial > serial
    ensures Part(log, serial, keep) == []
  {
    if log != [] { PartNone(log[..|log| - 1], serial, keep); }
  }

  lemma {:induction false} PartAll(log: seq<Logged>, serial: nat, keep: Logged -> bool)
    requires forall i :: 0 <= i < |log| ==> log[i].serial <= serial && keep(log[i])
    ensures Part(log, serial, keep) == log
  {
    if log != [] { PartAll(log[..|log| - 1], serial, keep); }
  }

  lemma {:induction false} PartKeeping(
    g: Declared, kept: Guarantee, log: seq<Logged>, serial: nat, keep: Logged -> bool)
    requires forall l :: keep(l) ==> kept in GuaranteesOf(g, l.request.op)
    ensures Part(Keeping(g, kept, log), serial, keep) == Part(log, serial, keep)
  {
    if log != [] {
      var init, l := log[..|log| - 1], log[|log| - 1];
      var thin := Keeping(g, kept, init);
      PartKeeping(g, kept, init, serial, keep);
      assert keep(l) ==> kept in GuaranteesOf(g, l.request.op);
      assert (thin + [l])[..|thin|] == thin;
    }
  }


  /** A step that rebuilds the stores keeps every write of interest. */
  ghost predicate Safe(g: Declared, step: Step, keep: Logged -> bool) {
    && (step.Restart? ==> forall l :: keep(l) ==> Durable in GuaranteesOf(g, l.request.op))
    && (step.PressMemory? ==> forall l :: keep(l) ==> NoEviction in GuaranteesOf(g, l.request.op))
  }

  lemma SortedAfter(g: Declared, a: seq<Logged>, b: seq<Logged>, serial: nat, logged: nat, last: nat)
    requires WellLogged(g, a + b, logged, last) && Logs(a, serial)
    ensures forall i :: 0 <= i < |b| ==> b[i].serial > serial
  {
    var l :| l in a && l.serial == serial;
    var k :| 0 <= k < |a| && a[k] == l;
    forall i | 0 <= i < |b| ensures b[i].serial > serial {
      assert (a + b)[k] == l && (a + b)[|a| + i] == b[i];
    }
  }

  lemma LogsConcat(a: seq<Logged>, b: seq<Logged>, serial: nat)
    ensures Logs(a + b, serial) <==> Logs(a, serial) || Logs(b, serial)
  {
  }

  /** Of what was logged up to a write that is still logged, a step loses nothing of interest. */
  lemma PartStep(g: Declared, s: Sim, step: Step, serial: nat, keep: Logged -> bool)
    requires Inv(g, s) && serial < s.logged && Safe(g, step, keep) && Logs(LogOf(NextOf(g, s, step)), serial)
    ensures Part(LogOf(NextOf(g, s, step)), serial, keep) == Part(LogOf(s), serial, keep)
    ensures Logs(LogOf(s), serial)
  {
    if step.Write? {
      PartWrite(g, s, step.request, step.now, serial, keep);
    } else if step.Failover? {
      PartFailover(g, s, serial, keep);
    } else if step.Restart? {
      PartKept(g, Durable, s, serial, keep);
    } else if step.PressMemory? {
      PartKept(g, NoEviction, s, serial, keep);
    } else {
      OthersLog(g, s, step);
    }
  }

  /** No other step changes the log as a whole. */
  lemma OthersLog(g: Declared, s: Sim, step: Step)
    requires !step.Write? && !step.Failover? && !step.Restart? && !step.PressMemory?
    ensures LogOf(NextOf(g, s, step)) == LogOf(s)
  {
    CaughtUpLogs(s);
  }

  lemma CaughtUpLogs(s: Sim)
    ensures LogOf(CaughtUp(s)) == LogOf(s)
  {
  }

  lemma PartFailover(g: Declared, s: Sim, serial: nat, keep: Logged -> bool)
    requires Inv(g, s) && Logs(LogOf(FailedOver(s)), serial)
    ensures Part(LogOf(FailedOver(s)), serial, keep) == Part(LogOf(s), serial, keep)
    ensures Logs(LogOf(s), serial)
  {
    Opened(g, s);
    assert LogOf(FailedOver(s)) == s.confirmed;
    SortedAfter(g, s.confirmed, s.pending, serial, s.logged, s.last);
    PartConcat(s.confirmed, s.pending, serial, keep);
    PartNone(s.pending, serial, keep);
    LogsConcat(s.confirmed, s.pending, serial);
  }

  lemma PartKept(g: Declared, kept: Guarantee, s: Sim, serial: nat, keep: Logged -> bool)
    requires forall l :: keep(l) ==> kept in GuaranteesOf(g, l.request.op)
    ensures Part(LogOf(KeptOnly(g, kept, s)), serial, keep) == Part(LogOf(s), serial, keep)
    ensures Logs(LogOf(KeptOnly(g, kept, s)), serial) ==> Logs(LogOf(s), serial)
  {
    KeepingConcat(g, kept, s.confirmed, s.pending);
    PartKeeping(g, kept, LogOf(s), serial, keep);
    KeepingHas(g, kept, LogOf(s));
  }

  /** A write adds one to the log, last, or nothing. */
  lemma WriteLogs(g: Declared, s: Sim, r: Request, now: int)
    ensures var t := TakeWrite(g, s, r, now).0;
      && t.confirmed == s.confirmed
      && (LogOf(t) == LogOf(s) || (|LogOf(t)| == |LogOf(s)| + 1 && LogOf(t)[..|LogOf(s)|] == LogOf(s)
          && LogOf(t)[|LogOf(s)|].serial == s.logged && LogOf(t)[|LogOf(s)|].request == r))
  {
  }

  lemma PartWrite(g: Declared, s: Sim, r: Request, now: int, serial: nat, keep: Logged -> bool)
    requires serial < s.logged && Logs(LogOf(TakeWrite(g, s, r, now).0), serial)
    ensures Part(LogOf(TakeWrite(g, s, r, now).0), serial, keep) == Part(LogOf(s), serial, keep)
    ensures Logs(LogOf(s), serial)
  {
    WriteLogs(g, s, r, now);
    PartMore(LogOf(s), LogOf(TakeWrite(g, s, r, now).0), serial, keep);
  }

  lemma PartMore(log: seq<Logged>, more: seq<Logged>, serial: nat, keep: Logged -> bool)
    requires log == more || (|more| == |log| + 1 && more[..|log|] == log && more[|log|].serial > serial)
    requires Logs(more, serial)
    ensures Part(more, serial, keep) == Part(log, serial, keep) && Logs(log, serial)
  {
    if log != more { assert more == log + [more[|log|]]; }
  }

  // ---- Over runs ----

  lemma GrowthTurn(g: Declared, steps: seq<Step>, states: seq<Sim>, replies: seq<Reply>, n: nat)
    requires Walk(g, steps, states, replies) && n < |steps|
    ensures states[n].logged <= states[n + 1].logged && states[n].last <= states[n + 1].last
  {
    AlwaysReplays(g, steps, states, replies, n);
    assert Turn(n);
    StepKeeps(g, states[n], steps[n]);
  }

  /** Writes are numbered and versions counted on through every fault. */
  lemma {:induction false} Grows(g: Declared, steps: seq<Step>, states: seq<Sim>, replies: seq<Reply>, i: nat, j: nat)
    requires Walk(g, steps, states, replies) && i <= j <= |steps|
    ensures states[i].logged <= states[j].logged && states[i].last <= states[j].last
    decreases j
  {
    if i < j {
      Grows(g, steps, states, replies, i, j - 1);
      GrowthTurn(g, steps, states, replies, j - 1);
    }
  }

  lemma PartTurn(
    g: Declared, steps: seq<Step>, states: seq<Sim>, replies: seq<Reply>, n: nat, serial: nat, keep: Logged -> bool)
    requires Walk(g, steps, states, replies) && n < |steps| && serial < states[n].logged && Safe(g, steps[n], keep)
    requires Logs(LogOf(states[n + 1]), serial)
    ensures Part(LogOf(states[n + 1]), serial, keep) == Part(LogOf(states[n]), serial, keep)
    ensures Logs(LogOf(states[n]), serial)
  {
    AlwaysReplays(g, steps, states, replies, n);
    assert Turn(n);
    PartStep(g, states[n], steps[n], serial, keep);
  }

  /** A write still logged at the end was logged all along, and nothing of interest up to it was lost. */
  lemma {:induction false} PartStays(
    g: Declared, steps: seq<Step>, states: seq<Sim>, replies: seq<Reply>, i: nat, j: nat, serial: nat,
    keep: Logged -> bool)
    requires Walk(g, steps, states, replies) && i <= j <= |steps| && serial < states[i].logged
    requires forall k :: i <= k < j ==> Safe(g, steps[k], keep)
    requires Logs(LogOf(states[j]), serial)
    ensures Part(LogOf(states[j]), serial, keep) == Part(LogOf(states[i]), serial, keep)
    decreases j
  {
    if i < j {
      Grows(g, steps, states, replies, i, j - 1);
      PartTurn(g, steps, states, replies, j - 1, serial, keep);
      PartStays(g, steps, states, replies, i, j - 1, serial, keep);
    }
  }

  /** Whether the log keeps this write, one of interest. */
  ghost predicate Has(log: seq<Logged>, serial: nat, keep: Logged -> bool) {
    exists l :: l in log && l.serial == serial && keep(l)
  }

  lemma ConfirmedOn(g: Declared, s: Sim, step: Step, serial: nat, keep: Logged -> bool)
    requires Has(s.confirmed, serial, keep) && Safe(g, step, keep)
    ensures Has(NextOf(g, s, step).confirmed, serial, keep)
  {
    var l :| l in s.confirmed && l.serial == serial && keep(l);
    match step
    case Write(r, now) => WriteLogs(g, s, r, now);
    case Restart => KeepingHas(g, Durable, s.confirmed);
    case PressMemory => KeepingHas(g, NoEviction, s.confirmed);
    case _ =>
  }

  lemma ConfirmedTurn(
    g: Declared, steps: seq<Step>, states: seq<Sim>, replies: seq<Reply>, n: nat, serial: nat, keep: Logged -> bool)
    requires Walk(g, steps, states, replies) && n < |steps| && Has(states[n].confirmed, serial, keep)
    requires Safe(g, steps[n], keep)
    ensures Has(states[n + 1].confirmed, serial, keep)
  {
    assert Turn(n);
    ConfirmedOn(g, states[n], steps[n], serial, keep);
  }

  lemma {:induction false} ConfirmedLasts(
    g: Declared, steps: seq<Step>, states: seq<Sim>, replies: seq<Reply>, i: nat, j: nat, serial: nat,
    keep: Logged -> bool)
    requires Walk(g, steps, states, replies) && i <= j <= |steps| && Has(states[i].confirmed, serial, keep)
    requires forall k :: i <= k < j ==> Safe(g, steps[k], keep)
    ensures Has(states[j].confirmed, serial, keep)
    decreases j
  {
    if i < j {
      ConfirmedLasts(g, steps, states, replies, i, j - 1, serial, keep);
      ConfirmedTurn(g, steps, states, replies, j - 1, serial, keep);
    }
  }

  lemma {:induction false} PartMembers(log: seq<Logged>, serial: nat, keep: Logged -> bool)
    ensures forall l :: l in Part(log, serial, keep) <==> l in log && keep(l) && l.serial <= serial
  {
    if log != [] {
      PartMembers(log[..|log| - 1], serial, keep);
      assert log == log[..|log| - 1] + [log[|log| - 1]];
    }
  }

  /** A write logged and awaiting its confirmation, taken in step `i`; the confirmation answered in step `c`. */
  ghost predicate AnsweredAfter(
    g: Declared, steps: seq<Step>, states: seq<Sim>,
    replies: seq<Reply>, i: nat, c: nat, answer: Answer, serial: nat) {
    && Walk(g, steps, states, replies) && i < c < |steps| && steps[i].Write?
    && replies[i] == Awaiting(answer, serial) && steps[c] == Confirm(serial) && replies[c] == Confirmed
  }

  lemma AwaitingLogged(
    g: Declared, steps: seq<Step>, states: seq<Sim>,
    replies: seq<Reply>, i: nat, c: nat, answer: Answer, serial: nat)
    requires AnsweredAfter(g, steps, states, replies, i, c, answer, serial)
    ensures serial == states[i].logged && serial < states[i + 1].logged
    ensures var log := LogOf(states[i + 1]);
      |log| == |LogOf(states[i])| + 1 && log[..|log| - 1] == LogOf(states[i])
      && log[|log| - 1].serial == serial && log[|log| - 1].request == steps[i].request
  {
    assert Turn(i);
    WriteLogs(g, states[i], steps[i].request, steps[i].now);
  }

  lemma ConfirmTold(
    g: Declared, steps: seq<Step>, states: seq<Sim>,
    replies: seq<Reply>, i: nat, c: nat, answer: Answer, serial: nat)
    requires AnsweredAfter(g, steps, states, replies, i, c, answer, serial)
    ensures Logs(LogOf(states[c]), serial)
    ensures forall l :: l in LogOf(states[c]) && l.serial == serial ==> l in states[c + 1].confirmed
  {
    assert Turn(c);
    LogsConcat(states[c].confirmed, states[c].pending, serial);
  }

  lemma ConfirmedPart(
    g: Declared, steps: seq<Step>, states: seq<Sim>, replies: seq<Reply>, j: nat, serial: nat, keep: Logged -> bool)
    requires Walk(g, steps, states, replies) && j <= |steps| && Logs(states[j].confirmed, serial)
    ensures Logs(LogOf(states[j]), serial)
    ensures Part(states[j].confirmed, serial, keep) == Part(LogOf(states[j]), serial, keep)
  {
    var s := states[j];
    LoggedWell(g, steps, states, replies, j);
    SortedAfter(g, s.confirmed, s.pending, serial, s.logged, s.last);
    PartConcat(s.confirmed, s.pending, serial, keep);
    PartNone(s.pending, serial, keep);
    LogsConcat(s.confirmed, s.pending, serial);
  }

  /** An answered write is confirmed for good, with everything of interest logged before it, in order: the
      interest may be any that the faults since were declared to spare. */
  lemma AnsweredSurvives(
    g: Declared, steps: seq<Step>, states: seq<Sim>, replies: seq<Reply>, i: nat, c: nat, j: nat, answer: Answer,
    serial: nat, keep: Logged -> bool)
    requires AnsweredAfter(g, steps, states, replies, i, c, answer, serial) && c < j <= |steps|
    requires forall l: Logged :: l.request == steps[i].request ==> keep(l)
    requires forall k :: i < k < j ==> Safe(g, steps[k], keep)
    ensures Has(states[j].confirmed, serial, keep)
    ensures Part(states[j].confirmed, serial, keep) == Part(LogOf(states[i + 1]), serial, keep)
  {
    AwaitingLogged(g, steps, states, replies, i, c, answer, serial);
    var log := LogOf(states[i + 1]);
    var l := log[|log| - 1];
    ConfirmTold(g, steps, states, replies, i, c, answer, serial);
    PartStays(g, steps, states, replies, i + 1, c, serial, keep);
    PartMembers(log, serial, keep);
    PartMembers(LogOf(states[c]), serial, keep);
    assert l in Part(log, serial, keep);
    assert Has(states[c + 1].confirmed, serial, keep);
    ConfirmedLasts(g, steps, states, replies, c + 1, j, serial, keep);
    ConfirmedPart(g, steps, states, replies, j, serial, keep);
    PartStays(g, steps, states, replies, i + 1, j, serial, keep);
  }

  // ---- Failovers alone: everything stays ----

  predicate Lossless(step: Step) { !step.Restart? && !step.PressMemory? }

  lemma {:induction false} PartIsPrefix(
    g: Declared, log: seq<Logged>, serial: nat, keep: Logged -> bool, logged: nat, last: nat)
    requires WellLogged(g, log, logged, last) && forall l :: keep(l)
    ensures Part(log, serial, keep) <= log
  {
    if log != [] {
      var init, l := log[..|log| - 1], log[|log| - 1];
      LoggedFewer(g, log, logged, last);
      PartIsPrefix(g, init, serial, keep, l.serial, last);
      if l.serial <= serial { PartAll(init, serial, keep); }
    }
  }

  lemma AllConfirmed(
    g: Declared, steps: seq<Step>, states: seq<Sim>, replies: seq<Reply>, i: nat, c: nat, j: nat, answer: Answer,
    serial: nat)
    requires AnsweredAfter(g, steps, states, replies, i, c, answer, serial) && c < j <= |steps|
    requires forall k :: i < k < j ==> Lossless(steps[k])
    ensures LogOf(states[i + 1]) <= states[j].confirmed
  {
    var all := (l: Logged) => true;
    var log := LogOf(states[i + 1]);
    AwaitingLogged(g, steps, states, replies, i, c, answer, serial);
    AnsweredSurvives(g, steps, states, replies, i, c, j, answer, serial, all);
    LoggedWell(g, steps, states, replies, i + 1);
    LoggedWell(g, steps, states, replies, j);
    PartAll(log, serial, all);
    WellLoggedPrefix(g, states[j].confirmed, states[j].pending, states[j].logged, states[j].last);
    PartIsPrefix(g, states[j].confirmed, serial, all, states[j].logged, states[j].last);
  }

  lemma LoggedWell(g: Declared, steps: seq<Step>, states: seq<Sim>, replies: seq<Reply>, n: nat)
    requires Walk(g, steps, states, replies) && n <= |steps|
    ensures WellLogged(g, LogOf(states[n]), states[n].logged, states[n].last)
  {
    AlwaysReplays(g, steps, states, replies, n);
    Opened(g, states[n]);
  }

  lemma ReplayedHere(g: Declared, steps: seq<Step>, states: seq<Sim>, replies: seq<Reply>, n: nat)
    requires Walk(g, steps, states, replies) && n <= |steps|
    ensures states[n].primary == ReplayAll(EMPTY, LogOf(states[n]))
    ensures states[n].replica == ReplayAll(EMPTY, states[n].confirmed)
  {
    AlwaysReplays(g, steps, states, replies, n);
    Opened(g, states[n]);
  }

  /** Whichever stores serve at `j`, they are the primary of `i` with later writes after. */
  ghost predicate GoesOn(was: Sim, s: Sim) {
    && LogOf(was) <= s.confirmed
    && s.replica == ReplayAll(was.primary, s.confirmed[|LogOf(was)|..])
    && s.primary == ReplayAll(was.primary, LogOf(s)[|LogOf(was)|..])
  }

  lemma WentOn(g: Declared, steps: seq<Step>, states: seq<Sim>, replies: seq<Reply>, i: nat, j: nat)
    requires Walk(g, steps, states, replies) && i <= |steps| && j <= |steps| && LogOf(states[i]) <= states[j].confirmed
    ensures GoesOn(states[i], states[j])
  {
    ReplayedHere(g, steps, states, replies, i);
    ReplayedHere(g, steps, states, replies, j);
    Continues(states[j].confirmed, LogOf(states[i]));
    Continues(LogOf(states[j]), LogOf(states[i]));
  }

  /** Through any number of failovers: an answered write stays confirmed, with everything logged before it,
      and whichever store is primary is the one that answered, with later writes after. */
  lemma AnsweredOutlivesFailovers(
    g: Declared, steps: seq<Step>, states: seq<Sim>, replies: seq<Reply>, i: nat, c: nat, j: nat, answer: Answer,
    serial: nat)
    requires AnsweredAfter(g, steps, states, replies, i, c, answer, serial) && c < j <= |steps|
    requires forall k :: i < k < j ==> Lossless(steps[k])
    ensures GoesOn(states[i + 1], states[j])
  {
    AllConfirmed(g, steps, states, replies, i, c, j, answer, serial);
    WentOn(g, steps, states, replies, i + 1, j);
  }

  lemma Continues(log: seq<Logged>, first: seq<Logged>)
    requires first <= log
    ensures ReplayAll(EMPTY, log) == ReplayAll(ReplayAll(EMPTY, first), log[|first|..])
  {
    assert log == first + log[|first|..];
    ReplayConcat(EMPTY, first, log[|first|..]);
  }

  lemma ConfirmedStep(g: Declared, steps: seq<Step>, states: seq<Sim>, replies: seq<Reply>, n: nat)
    requires Walk(g, steps, states, replies) && n < |steps| && Lossless(steps[n])
    ensures states[n].confirmed <= states[n + 1].confirmed
  {
    assert Turn(n);
    if steps[n].Write? { WriteLogs(g, states[n], steps[n].request, steps[n].now); }
  }

  lemma {:induction false} ConfirmedStays(
    g: Declared, steps: seq<Step>, states: seq<Sim>, replies: seq<Reply>, i: nat, j: nat)
    requires Walk(g, steps, states, replies) && i <= j <= |steps| && forall k :: i <= k < j ==> Lossless(steps[k])
    ensures states[i].confirmed <= states[j].confirmed
    decreases j
  {
    if i < j {
      ConfirmedStays(g, steps, states, replies, i, j - 1);
      ConfirmedStep(g, steps, states, replies, j - 1);
    }
  }

  lemma ReadConfirms(g: Declared, steps: seq<Step>, states: seq<Sim>, replies: seq<Reply>, i: nat, entry: Option<Held>)
    requires Walk(g, steps, states, replies) && i < |steps| && steps[i].Get? && ConfirmedReads in g(steps[i].key.space)
    requires replies[i] == Found(entry)
    ensures LogOf(states[i]) == states[i + 1].confirmed
    ensures entry == Look(states[i].primary.values, steps[i].key, steps[i].now)
  {
    assert Turn(i);
  }

  /** What a confirmed read answered is what whichever store is primary held, before writes made since. */
  lemma ReadOutlivesFailovers(
    g: Declared, steps: seq<Step>, states: seq<Sim>, replies: seq<Reply>, i: nat, j: nat, entry: Option<Held>)
    requires Walk(g, steps, states, replies) && i < j <= |steps| && steps[i].Get?
    requires ConfirmedReads in g(steps[i].key.space)
    requires replies[i] == Found(entry)
    requires forall k :: i < k < j ==> Lossless(steps[k])
    ensures entry == Look(states[i].primary.values, steps[i].key, steps[i].now)
    ensures GoesOn(states[i], states[j])
  {
    ReadConfirms(g, steps, states, replies, i, entry);
    ConfirmedStays(g, steps, states, replies, i + 1, j);
    WentOn(g, steps, states, replies, i, j);
  }

  // ---- Restarts and shortages of memory ----

  /** A write of spaces that are durable and kept from eviction. */
  predicate Lasting(g: Declared, l: Logged) {
    var guarantees := GuaranteesOf(g, l.request.op);
    Durable in guarantees && NoEviction in guarantees
  }

  /** Through any faults at all, an answered write of lasting spaces stays, with all of theirs before it. */
  lemma AnsweredOutlivesFaults(
    g: Declared, steps: seq<Step>, states: seq<Sim>, replies: seq<Reply>, i: nat, c: nat, j: nat, answer: Answer,
    serial: nat)
    requires AnsweredAfter(g, steps, states, replies, i, c, answer, serial) && c < j <= |steps|
    requires Durable in GuaranteesOf(g, steps[i].request.op) && NoEviction in GuaranteesOf(g, steps[i].request.op)
    ensures var lasting := (l: Logged) => Lasting(g, l);
      && Has(states[j].confirmed, serial, lasting)
      && Part(states[j].confirmed, serial, lasting) == Part(LogOf(states[i + 1]), serial, lasting)
  {
    AnsweredSurvives(g, steps, states, replies, i, c, j, answer, serial, (l: Logged) => Lasting(g, l));
  }

  // ---- Versions ----

  lemma {:induction false} ReplayNames(log: seq<Logged>, last: nat)
    requires Faithful(EMPTY, log) && forall i, v :: 0 <= i < |log| && v in log[i].versions ==> v <= last
    ensures forall k :: k in ReplayAll(EMPTY, log).values ==> ReplayAll(EMPTY, log).values[k].version <= last
  {
    if log != [] {
      var init, l := log[..|log| - 1], log[|log| - 1];
      ReplayNames(init, last);
      HandleNames(ReplayAll(EMPTY, init), l.request, l.at, l.versions, 0);
    }
  }

  /** Every version these writes named was named by this count. */
  ghost predicate NamesBy(log: seq<Logged>, last: nat) {
    forall l, v :: l in log && v in l.versions ==> v <= last
  }

  /** Whatever one log names that the other does not is named after this count. */
  ghost predicate NamesPast(was: seq<Logged>, log: seq<Logged>, last: nat) {
    forall l, v :: l in log && l !in was && v in l.versions ==> last < v
  }

  lemma WriteNamesPast(g: Declared, s: Sim, r: Request, now: int)
    ensures NamesPast(LogOf(s), LogOf(TakeWrite(g, s, r, now).0), s.last)
  {
    HandleAgain(s.primary, r, now, s.last, 0);
    var done := Handle(s.primary, r, now, Naming([], s.last));
    var l := Logged(s.logged, r, now, VersionsAfter(s.last, done.naming.last));
    assert LogOf(LogOne(s, r, now)) == LogOf(s) + [l];
  }

  /** No version is ever named twice, whatever failed over or was rebuilt between: a write names its entries
      after every version any store held or any log named, and logs those names only. */
  lemma NamedOnce(g: Declared, steps: seq<Step>, states: seq<Sim>, replies: seq<Reply>, i: nat, j: nat)
    requires Walk(g, steps, states, replies) && i <= j < |steps| && steps[j].Write?
    ensures forall k :: k in states[i].primary.values ==>
      states[i].primary.values[k].version <= states[i].last <= states[j].last
    ensures forall k :: k in states[i].replica.values ==> states[i].replica.values[k].version <= states[i].last
    ensures NamesBy(LogOf(states[i]), states[i].last)
    ensures Marks.Renewed(states[j].primary.values, states[j + 1].primary.values, states[j].last)
    ensures NamesPast(LogOf(states[j]), LogOf(states[j + 1]), states[j].last)
  {
    AlwaysReplays(g, steps, states, replies, i);
    AlwaysReplays(g, steps, states, replies, j);
    Grows(g, steps, states, replies, i, j);
    StoresBelow(g, states[i]);
    StoresBelow(g, states[j]);
    assert Turn(j);
    WriteRenews(g, states[j], steps[j].request, steps[j].now);
    WriteNamesPast(g, states[j], steps[j].request, steps[j].now);
  }

  lemma StoresBelow(g: Declared, s: Sim)
    requires Inv(g, s)
    ensures forall k :: k in s.primary.values ==> s.primary.values[k].version <= s.last
    ensures forall k :: k in s.replica.values ==> s.replica.values[k].version <= s.last
    ensures NamesBy(LogOf(s), s.last)
  {
    Opened(g, s);
    ReplayNames(LogOf(s), s.last);
    ConfirmedWell(g, s);
    ReplayNames(s.confirmed, s.last);
  }

  lemma WriteRenews(g: Declared, s: Sim, r: Request, now: int)
    requires forall k :: k in s.primary.values ==> s.primary.values[k].version <= s.last
    ensures Marks.Renewed(s.primary.values, TakeWrite(g, s, r, now).0.primary.values, s.last)
  {
    Marks.StepRenews(Sys(s.primary, s.last), Call(now, r));
  }
}
