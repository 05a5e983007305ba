/** Records over the store: each write is resent under a mark until it is answered, a lost race is tried
    again, and what was only read is confirmed by a write of its own. Every method here runs against a
    line whose other traffic, delays and losses are arbitrary. */
module Records {
  import opened Wrappers
  import opened Json
  import opened Contract
  import opened Store
  import opened Marks
  import opened Serial
  import opened Effects
  import opened Works
  import opened Wire

  const PATIENCE_MS := 10_000
  const ATTEMPTS := 8
  const FIRST_PAUSE_MS := 50
  const LONGEST_PAUSE_MS := 1000

  /** Writes that land after this store-clock time are refused, so a lost send cannot act later. */
  function WriteDeadline(now: int): int { now + PATIENCE_MS }

  /** What a call comes to: an answer, the store unavailable, or a caller's mistake. */
  datatype Result<+T> = Done(value: T) | Unavailable | Misused

  /** An attempt that answers nothing lost a race and is made again. */
  type Attempt<+T> = Option<Result<T>>

  /** What one call of a client promises whatever comes of it: of all it sent, ever, one write at most
      changes anything; and an attempt to be made again changed and will change nothing. */
  twostate predicate Tidy(line: Line)
    reads line
  {
    OneChange(line.calls, line.sent - old(line.sent))
  }

  twostate predicate Nothing(line: Line)
    reads line
  {
    forall r :: r in line.sent - old(line.sent) ==> Inert(line.calls, r)
  }

  /** And whatever it changes, whenever, is the whole of its work. */
  twostate predicate WholeFor(line: Line, w: Work)
    reads line
  {
    WholeOnly(line.calls, line.sent - old(line.sent), w)
  }

  /** Sends one write until the store answers: each resend is the same request under the same mark. */
  method UntilAnswered(line: Line, r: Request) returns (reply: Option<Answer>)
    requires line.Valid() && r.mark.Some? && r.mark.value in line.drawn
    requires forall q :: q in line.sent && q.mark == r.mark ==> q == r
    modifies line
    ensures line.Valid() && line.Grew() && line.sent == old(line.sent) + {r} && line.drawn == old(line.drawn)
    ensures reply.Some? ==>
      |old(line.calls)| < |line.calls| && line.calls[|line.calls| - 1].request == r
      && reply.value == AnsweredAt(line.calls, |line.calls| - 1)
  {
    var waited, wait := 0, FIRST_PAUSE_MS;
    while true
      invariant line.Valid() && line.Grew() && line.drawn == old(line.drawn)
      invariant line.sent == old(line.sent) || line.sent == old(line.sent) + {r}
      invariant 0 <= waited <= PATIENCE_MS && 0 < wait
      decreases PATIENCE_MS - waited
    {
      reply := line.Send(r);
      if reply.Some? || waited + wait > PATIENCE_MS { return; }
      waited := waited + wait;
      wait := if wait * 2 < LONGEST_PAUSE_MS then wait * 2 else LONGEST_PAUSE_MS;
    }
  }

  /** A client's own marks are borne by one request each. */
  lemma SentIsOwn(line: Line, r: Request)
    requires line.Valid() && r in line.sent
    ensures OwnMark(line.calls, r)
  {
    forall i | 0 <= i < |line.calls| && line.calls[i].request.mark == r.mark ensures line.calls[i].request == r {
      assert line.calls[i] in line.calls;
    }
  }

  /** A request is carried out only after its mark was first sent. */
  lemma AfterDraw(was: seq<Call>, calls: seq<Call>, r: Request, e: nat)
    requires was <= calls && forall c :: c in was ==> c.request.mark != r.mark
    requires e < |calls| && calls[e].request == r
    ensures |was| <= e
  {
    forall i | 0 <= i < |was| ensures calls[i].request.mark != r.mark { assert was[i] in was; }
  }

  /** Carried out at `e`, with this answer; a refusal is the last word on the request. */
  ghost predicate SettledAt(calls: seq<Call>, r: Request, answer: Answer, e: nat) {
    && e < |calls| && calls[e].request == r && CarriedOut(calls, e) && AnsweredAt(calls, e) == answer
    && (!Wrote(answer) ==> Inert(calls, r)) && OnlyAt(calls, {r}, e)
  }

  ghost predicate SettledFrom(calls: seq<Call>, from: nat, r: Request, answer: Answer) {
    exists e: nat :: from <= e && SettledAt(calls, r, answer, e)
  }

  /** Where a marked write changed something it was carried out, and told so. */
  lemma ChangeIsSettled(calls: seq<Call>, r: Request, e: nat)
    requires e < |calls| && calls[e].request == r && ChangesView(calls, e)
    requires r.deadline.Some? && MarksOf(r) != []
    ensures SettledAt(calls, r, AnsweredAt(calls, e), e) && Wrote(AnsweredAt(calls, e))
  {
    OnlyEffectsChange(calls, e);
    CarriedOnlyAt(calls, r, e);
  }

  /** Where an answered write was carried out. */
  lemma AnsweredOnce(calls: seq<Call>, r: Request, answer: Answer) returns (e: nat)
    requires OwnMark(calls, r) && r.deadline.Some? && MarksOf(r) != []
    requires !(r.op.Batch? && !OnePartition(KeysOf(r.op)))
    requires calls != [] && calls[|calls| - 1].request == r
    requires answer == AnsweredAt(calls, |calls| - 1) && answer != Late
    ensures SettledAt(calls, r, answer, e)
  {
    e := AnswerComesFrom(calls, r, |calls| - 1);
    CarriedOnlyAt(calls, r, e);
    if !Wrote(answer) { RefusedIsInert(calls, r, e); }
  }

  predicate Unsettled(answer: Option<Answer>) { answer.None? || answer.value == Late || answer.value == Reused }

  /** Sends a write of its own under a mark not sent before; an answer is that of the one instant of this
      call at which it was carried out. */
  method SendNew(line: Line, r: Request) returns (reply: Option<Answer>)
    requires line.Valid() && r.mark.Some? && r.mark.value in line.drawn
    requires forall q :: q in line.sent ==> q.mark != r.mark
    requires r.deadline.Some? && MarksOf(r) != [] && !(r.op.Batch? && !OnePartition(KeysOf(r.op)))
    modifies line
    ensures line.Valid() && line.Grew() && line.sent == old(line.sent) + {r}
    ensures !Unsettled(reply) ==> SettledFrom(line.calls, |old(line.calls)|, r, reply.value)
  {
    NotBorneYet(line, r.mark);
    reply := UntilAnswered(line, r);
    if !Unsettled(reply) { AnsweredWithin(line, old(line.calls), r, reply.value); }
  }

  /** The same, and one change at most ever comes of it. */
  method SendMarked(line: Line, r: Request) returns (reply: Option<Answer>)
    requires line.Valid() && r.mark.Some? && r.mark.value in line.drawn
    requires forall q :: q in line.sent ==> q.mark != r.mark
    requires r.deadline.Some? && MarksOf(r) != [] && !(r.op.Batch? && !OnePartition(KeysOf(r.op)))
    modifies line
    ensures line.Valid() && line.Grew() && line.sent - old(line.sent) == {r}
    ensures Tidy(line) && (Inert(line.calls, r) ==> Nothing(line))
    ensures !Unsettled(reply) ==> SettledFrom(line.calls, |old(line.calls)|, r, reply.value)
  {
    reply := SendNew(line, r);
    SentOne(line.calls, old(line.sent), line.sent, r);
  }

  /** Of all sent since, this one request is all there is. */
  lemma SentOne(calls: seq<Call>, before: set<Request>, sent: set<Request>, r: Request)
    requires r.deadline.Some? && MarksOf(r) != []
    requires sent == before + {r} && forall q :: q in before ==> q.mark != r.mark
    ensures sent - before == {r} && OneChange(calls, sent - before)
    ensures Inert(calls, r) ==> forall q :: q in sent - before ==> Inert(calls, q)
  {
    MarkedChangesOnce(calls, r);
    assert sent - before == {r};
  }

  lemma NotBorneYet(line: Line, mark: Option<string>)
    requires line.Valid() && mark.Some? && mark.value in line.drawn
    requires forall q :: q in line.sent ==> q.mark != mark
    ensures forall c :: c in line.calls ==> c.request.mark != mark
  {
  }

  lemma AnsweredWithin(line: Line, was: seq<Call>, r: Request, answer: Answer)
    requires line.Valid() && r in line.sent && r.deadline.Some? && MarksOf(r) != []
    requires !(r.op.Batch? && !OnePartition(KeysOf(r.op)))
    requires was <= line.calls && forall c :: c in was ==> c.request.mark != r.mark
    requires line.calls != [] && line.calls[|line.calls| - 1].request == r
    requires answer == AnsweredAt(line.calls, |line.calls| - 1) && answer != Late
    ensures SettledFrom(line.calls, |was|, r, answer)
  {
    SentIsOwn(line, r);
    var e := AnsweredOnce(line.calls, r, answer);
    AfterDraw(was, line.calls, r, e);
  }

  // ---- Confirming what was read ----

  function ConditionOn(k: Key, version: Option<Version>): Condition {
    if version.None? then IsAbsent(k) else IsAt(k, version.value)
  }

  function SettledKey(k: Key): Key { k.(name := SETTLED) }

  function SettleRequest(k: Key, version: Option<Version>, deadline: int, mark: string): Request {
    Request(
      Batch([ConditionOn(k, version)], [Put(SettledKey(k), Bool(true), After(1))]), Some(deadline), Some(mark))
  }

  lemma SettleFacts(k: Key, version: Option<Version>, deadline: int, mark: string)
    ensures var r := SettleRequest(k, version, deadline, mark);
      OnlySettles(r) && MarksOf(r) != [] && OnePartition(KeysOf(r.op))
  {
    var r := SettleRequest(k, version, deadline, mark);
    assert KeysOf(r.op) == [k, SettledKey(k)];
  }

  /** At this instant the key met what it was read to hold, and the call that tells so changed nothing. */
  ghost predicate StoodAt(calls: seq<Call>, e: nat, k: Key, version: Option<Version>) {
    e < |calls| && Holds(Met(calls, e).values, ConditionOn(k, version), calls[e].at) && !ChangesView(calls, e)
  }

  ghost predicate StoodFrom(calls: seq<Call>, from: nat, k: Key, version: Option<Version>, rs: set<Request>) {
    exists e: nat :: from <= e && StoodAt(calls, e, k, version) && OnlyAt(calls, rs, e)
  }

  /** Writes a mark of its own only while the key holds what was read, at that version or none. */
  method ConfirmedAsRead(line: Line, k: Key, version: Option<Version>, deadline: int) returns (confirmed: Option<bool>)
    requires line.Valid()
    modifies line
    ensures line.Valid() && line.Grew() && Nothing(line)
    ensures confirmed == Some(true) ==>
      StoodFrom(line.calls, |old(line.calls)|, k, version, line.sent - old(line.sent))
  {
    var mark := line.Draw();
    var r := SettleRequest(k, version, deadline, mark);
    SettleFacts(k, version, deadline, mark);
    var reply := SendMarked(line, r);
    SettlingIsInert(line.calls, r);
    if reply.None? { return None; }
    if !reply.value.Committed? { return Some(false); }
    ghost var e: nat :| |old(line.calls)| <= e && SettledAt(line.calls, r, reply.value, e);
    SettledStood(line.calls, e, k, version, r);
    assert StoodFrom(line.calls, |old(line.calls)|, k, version, {r});
    return Some(true);
  }

  lemma SettledStood(calls: seq<Call>, e: nat, k: Key, version: Option<Version>, r: Request)
    requires r == SettleRequest(k, version, r.deadline.GetOr(0), r.mark.GetOr("")) && OnlySettles(r)
    requires e < |calls| && calls[e].request == r && CarriedOut(calls, e) && AnsweredAt(calls, e).Committed?
    requires Monotone(calls) && Inert(calls, r)
    ensures StoodAt(calls, e, k, version)
  {
    BatchInstant(calls, e);
    assert r.op.conditions[0] == ConditionOn(k, version);
  }

  // ---- One key rewritten ----

  /** At this instant the key held what the decision was made from, and the decision is all that was done. */
  ghost predicate RewrittenAt(calls: seq<Call>, e: nat, k: Key, decide: Decide, m: Try, done: Changed) {
    && e < |calls|
    && var step := RewriteStep(ViewAt(calls, e), calls[e].at, k, decide, m);
      step.before == done.before && step.after == done.after && ViewAt(calls, e + 1) == step.view
  }

  function ReadVersion(entry: Option<Held>): Option<Version> {
    if entry.Some? then Some(entry.value.version) else None
  }

  function ReadValue(entry: Option<Held>): Option<Json> {
    if entry.Some? then Some(entry.value.value) else None
  }

  /** The entry was read in this run: the store held it once. */
  ghost predicate WasRead(calls: seq<Call>, k: Key, entry: Option<Held>) {
    entry.Some? ==> exists i: nat :: i <= |calls| && k in Met(calls, i).values && Met(calls, i).values[k] == entry.value
  }

  lemma StillRead(was: seq<Call>, calls: seq<Call>, k: Key, entry: Option<Held>)
    requires was <= calls && WasRead(was, k, entry)
    ensures WasRead(calls, k, entry)
  {
    if entry.Some? {
      var i: nat :| i <= |was| && k in Met(was, i).values && Met(was, i).values[k] == entry.value;
      Extends(START, was, calls, i);
      assert i <= |calls| && k in Met(calls, i).values && Met(calls, i).values[k] == entry.value;
    }
  }

  /** What stood when it was confirmed is what was read. */
  lemma StoodIsRead(calls: seq<Call>, e: nat, k: Key, entry: Option<Held>)
    requires k.name != SETTLED && StoodAt(calls, e, k, ReadVersion(entry)) && WasRead(calls, k, entry)
    ensures LiveValue(ViewAt(calls, e), k, calls[e].at) == ReadValue(entry)
    ensures ViewAt(calls, e + 1) == ViewAt(calls, e)
  {
    ViewLooks(Met(calls, e).values, k, calls[e].at);
    if entry.Some? {
      var i: nat :| i <= |calls| && k in Met(calls, i).values && Met(calls, i).values[k] == entry.value;
      ReadStands(calls, i, e, k, entry.value);
    }
  }

  function RewriteRequest(k: Key, entry: Option<Held>, d: Decided, deadline: int, mark: string): Request {
    var op :=
      if entry.Some? then ReplaceIf(k, entry.value.version, d.value, d.expiry)
      else PutIfAbsent(k, d.value, d.expiry);
    Request(op, Some(deadline), Some(mark))
  }

  /** At this instant the key held what was read, and right after it what was decided, and nothing else changed. */
  ghost predicate WroteAt(calls: seq<Call>, e: nat, k: Key, entry: Option<Held>, d: Decided) {
    && e < |calls|
    && LiveValue(ViewAt(calls, e), k, calls[e].at) == ReadValue(entry)
    && ViewAt(calls, e + 1) == SetCell(ViewAt(calls, e), k, d.value, d.expiry, calls[e].at)
  }

  /** Written at one instant since call `from`, and by that call alone of all that bear these requests. */
  ghost predicate WroteFrom(calls: seq<Call>, from: nat, k: Key, entry: Option<Held>, d: Decided, rs: set<Request>) {
    exists e: nat :: from <= e && WroteAt(calls, e, k, entry, d) && OnlyAt(calls, rs, e)
  }

  lemma RewriteInstant(calls: seq<Call>, e: nat, k: Key, entry: Option<Held>, d: Decided, r: Request, answer: Answer)
    requires k.name != SETTLED && SettledAt(calls, r, answer, e) && answer.Written?
    requires r.op == RewriteRequest(k, entry, d, 0, "").op && WasRead(calls, k, entry)
    ensures WroteAt(calls, e, k, entry, d)
  {
    if entry.Some? {
      var i: nat :| i <= |calls| && k in Met(calls, i).values && Met(calls, i).values[k] == entry.value;
      ReplaceInstant(calls, i, e, k, entry.value, d.value, d.expiry);
    } else {
      PutInstant(calls, e, k, d.value, d.expiry);
    }
  }

  /** A write of one key is answered written, or refused for good. */
  lemma WrittenOrInert(calls: seq<Call>, e: nat, k: Key, entry: Option<Held>, d: Decided, r: Request, answer: Answer)
    requires SettledAt(calls, r, answer, e) && r.op == RewriteRequest(k, entry, d, 0, "").op
    ensures answer.Written? || Inert(calls, r)
  {
    CarriedStep(calls, e);
    OnlyWritesTell(Met(calls, e), r.op, calls[e].at, Naming([], Before(START, calls, e).last));
  }

  lemma OnlyWritesTell(s: State, op: Op, now: int, n: Naming)
    requires op.PutIfAbsent? || op.ReplaceIf?
    ensures Wrote(Execute(s, op, now, n).answer) ==> Execute(s, op, now, n).answer.Written?
  {
  }

  /** The write as decided on what was read is the whole of this work. */
  predicate Decides(w: Work, k: Key, entry: Option<Held>, d: Decided, m: Try) {
    match w
    case Rewriting(key, decide) => key == k && decide(ReadValue(entry), m) == Some(d)
    case Creating(key, value, x) => key == k && entry.None? && d == Decided(value(m.deadline), x)
    case _ => false
  }

  lemma WroteIsWhole(
    calls: seq<Call>, e: nat, k: Key, entry: Option<Held>, d: Decided, m: Try, w: Work)
    requires WroteAt(calls, e, k, entry, d) && Decides(w, k, entry, d, m)
    ensures WorkedAt(calls, e, w)
  {
    if w.Rewriting? {
      assert RewriteStep(ViewAt(calls, e), calls[e].at, k, w.decide, m).view == ViewAt(calls, e + 1);
    }
  }

  /** A write on what was read, whenever a copy arrives, does the whole of the work or nothing. */
  lemma WriteIsWhole(
    calls: seq<Call>, k: Key, entry: Option<Held>, d: Decided, m: Try, r: Request, w: Work)
    requires k.name != SETTLED && WasRead(calls, k, entry) && Decides(w, k, entry, d, m)
    requires r.op == RewriteRequest(k, entry, d, 0, "").op && r.deadline.Some? && MarksOf(r) != []
    ensures WholeOnly(calls, {r}, w)
  {
    forall future: seq<Call>, i: nat |
      calls <= future && Monotone(future) && i < |future| && future[i].request in {r} && ChangesView(future, i)
      ensures WorkedAt(future, i, w)
    {
      ChangeIsSettled(future, r, i);
      CarriedStep(future, i);
      OnlyWritesTell(Met(future, i), r.op, future[i].at, Naming([], Before(START, future, i).last));
      StillRead(calls, future, k, entry);
      RewriteInstant(future, i, k, entry, d, r, AnsweredAt(future, i));
      WroteIsWhole(future, i, k, entry, d, m, w);
    }
  }

  /** Writes what was decided, only on exactly what was read. */
  method WriteDecided(
    line: Line, k: Key, entry: Option<Held>, d: Decided, m: Try, mark: string, ghost w: Work)
    returns (written: Attempt<()>)
    requires line.Valid() && k.name != SETTLED && WasRead(line.calls, k, entry) && Decides(w, k, entry, d, m)
    requires mark in line.drawn && forall q :: q in line.sent ==> q.mark != Some(mark)
    modifies line
    ensures line.Valid() && line.Grew() && Tidy(line) && WholeFor(line, w)
    ensures written.None? ==> Nothing(line)
    ensures written.Some? && written.value.Done? ==>
      WroteFrom(line.calls, |old(line.calls)|, k, entry, d, line.sent - old(line.sent))
  {
    var r := RewriteRequest(k, entry, d, m.deadline, mark);
    var reply := SendMarked(line, r);
    StillRead(old(line.calls), line.calls, k, entry);
    WriteIsWhole(line.calls, k, entry, d, m, r, w);
    if Unsettled(reply) { return Some(Unavailable); }
    ghost var e: nat :| |old(line.calls)| <= e && SettledAt(line.calls, r, reply.value, e);
    WrittenOrInert(line.calls, e, k, entry, d, r, reply.value);
    if !reply.value.Written? { return None; }
    RewriteInstant(line.calls, e, k, entry, d, r, reply.value);
    assert WroteFrom(line.calls, |old(line.calls)|, k, entry, d, {r});
    return Some(Done(()));
  }

  /** Confirms what was read, nothing being decided. */
  method ConfirmRead(line: Line, k: Key, entry: Option<Held>, deadline: int) returns (confirmed: Attempt<()>)
    requires line.Valid() && k.name != SETTLED && WasRead(line.calls, k, entry)
    modifies line
    ensures line.Valid() && line.Grew() && Nothing(line)
    ensures confirmed.Some? && confirmed.value.Done? ==>
      KeptFrom(line.calls, |old(line.calls)|, k, entry, line.sent - old(line.sent))
  {
    var answer := ConfirmedAsRead(line, k, ReadVersion(entry), deadline);
    if answer.None? { return Some(Unavailable); }
    if !answer.value { return None; }
    StillRead(old(line.calls), line.calls, k, entry);
    StoodIsKept(line.calls, |old(line.calls)|, k, entry, line.sent - old(line.sent));
    return Some(Done(()));
  }

  lemma StoodIsKept(calls: seq<Call>, from: nat, k: Key, entry: Option<Held>, rs: set<Request>)
    requires k.name != SETTLED && StoodFrom(calls, from, k, ReadVersion(entry), rs) && WasRead(calls, k, entry)
    ensures KeptFrom(calls, from, k, entry, rs)
  {
    var e: nat :| from <= e && StoodAt(calls, e, k, ReadVersion(entry)) && OnlyAt(calls, rs, e);
    StoodIsRead(calls, e, k, entry);
    assert KeptAt(calls, e, k, entry);
  }

  /** At this instant the key held what was read, and it went on holding it. */
  ghost predicate KeptAt(calls: seq<Call>, e: nat, k: Key, entry: Option<Held>) {
    && e < |calls|
    && LiveValue(ViewAt(calls, e), k, calls[e].at) == ReadValue(entry)
    && ViewAt(calls, e + 1) == ViewAt(calls, e)
  }

  ghost predicate KeptFrom(calls: seq<Call>, from: nat, k: Key, entry: Option<Held>, rs: set<Request>) {
    exists e: nat :: from <= e && KeptAt(calls, e, k, entry) && OnlyAt(calls, rs, e)
  }

  lemma KeptIsRewritten(
    calls: seq<Call>, from: nat, k: Key, entry: Option<Held>, decide: Decide, m: Try, rs: set<Request>)
    requires decide(ReadValue(entry), m).None?
    requires KeptFrom(calls, from, k, entry, rs)
    ensures RewrittenFrom(calls, from, k, decide, m, DoneBy(entry, decide, m), rs)
  {
    var e: nat :| from <= e && KeptAt(calls, e, k, entry) && OnlyAt(calls, rs, e);
    assert RewrittenAt(calls, e, k, decide, m, DoneBy(entry, decide, m));
  }

  lemma WroteIsRewritten(
    calls: seq<Call>, from: nat, k: Key, entry: Option<Held>, decide: Decide, m: Try, rs: set<Request>)
    requires decide(ReadValue(entry), m).Some?
    requires WroteFrom(calls, from, k, entry, decide(ReadValue(entry), m).value, rs)
    ensures RewrittenFrom(calls, from, k, decide, m, DoneBy(entry, decide, m), rs)
  {
    var d := decide(ReadValue(entry), m).value;
    var e: nat :| from <= e && WroteAt(calls, e, k, entry, d) && OnlyAt(calls, rs, e);
    assert RewrittenAt(calls, e, k, decide, m, DoneBy(entry, decide, m));
  }

  /** Rewritten at one instant since call `from`, and by that call alone of all that bear these requests. */
  ghost predicate RewrittenFrom(
    calls: seq<Call>, from: nat, k: Key, decide: Decide, m: Try, done: Changed, rs: set<Request>) {
    exists e: nat :: from <= e && RewrittenAt(calls, e, k, decide, m, done) && OnlyAt(calls, rs, e)
  }

  lemma RewrittenMore(
    calls: seq<Call>, from: nat, earlier: nat, k: Key, decide: Decide, m: Try, done: Changed, rs: set<Request>,
    all: set<Request>)
    requires earlier <= from && RewrittenFrom(calls, from, k, decide, m, done, rs) && rs <= all
    requires forall r :: r in all && r !in rs ==> Inert(calls, r)
    ensures RewrittenFrom(calls, earlier, k, decide, m, done, all)
  {
    var e: nat :| from <= e && RewrittenAt(calls, e, k, decide, m, done) && OnlyAt(calls, rs, e);
    InertsBeside(calls, all, rs, e);
  }

  function DoneBy(entry: Option<Held>, decide: Decide, m: Try): Changed {
    var before := ReadValue(entry);
    match decide(before, m)
    case None => Changed(before, before)
    case Some(d) => Changed(before, Some(d.value))
  }

  lemma ReadJustNow(line: Line, k: Key, entry: Option<Held>)
    requires entry == Look(Met(line.calls, |line.calls|).values, k, line.now)
    ensures WasRead(line.calls, k, entry)
  {
  }

  lemma NothingIsTidy(line: Line, rs: set<Request>, w: Work)
    requires forall r :: r in rs ==> Inert(line.calls, r)
    ensures OneChange(line.calls, rs) && WholeOnly(line.calls, rs, w)
  {
    InertsAside(line.calls, rs, {});
    InertIsWhole(line.calls, rs, w);
  }

  /** An attempt after others that changed nothing is all the call comes to. */
  lemma AttemptIsAll(calls: seq<Call>, all: set<Request>, own: set<Request>, w: Work)
    requires forall r :: r in all && r !in own ==> Inert(calls, r)
    requires OneChange(calls, own) && WholeOnly(calls, own, w)
    ensures OneChange(calls, all) && WholeOnly(calls, all, w)
  {
    InertsAside(calls, all, own);
    WholeAside(calls, calls, all, own, w);
  }

  /** Writes what is decided on what was read, or confirms it, nothing being decided. */
  method WriteOrConfirm(line: Line, k: Key, entry: Option<Held>, decide: Decide, m: Try, mark: string)
    returns (tried: Attempt<Changed>)
    requires line.Valid() && k.name != SETTLED && WasRead(line.calls, k, entry)
    requires mark in line.drawn && forall q :: q in line.sent ==> q.mark != Some(mark)
    modifies line
    ensures line.Valid() && line.Grew() && Tidy(line) && WholeFor(line, Rewriting(k, decide))
    ensures tried.None? ==> Nothing(line)
    ensures tried.Some? && tried.value.Done? ==>
      RewrittenFrom(line.calls, |old(line.calls)|, k, decide, m, tried.value.value, line.sent - old(line.sent))
  {
    var decided := decide(ReadValue(entry), m);
    var done := DoneBy(entry, decide, m);
    if decided.None? {
      var confirmed := ConfirmRead(line, k, entry, m.deadline);
      NothingIsTidy(line, line.sent - old(line.sent), Rewriting(k, decide));
      if confirmed.None? { return None; }
      if !confirmed.value.Done? { return Some(Unavailable); }
      KeptIsRewritten(line.calls, |old(line.calls)|, k, entry, decide, m, line.sent - old(line.sent));
    } else {
      var written := WriteDecided(line, k, entry, decided.value, m, mark, Rewriting(k, decide));
      if written.None? { return None; }
      if !written.value.Done? { return Some(Unavailable); }
      WroteIsRewritten(line.calls, |old(line.calls)|, k, entry, decide, m, line.sent - old(line.sent));
    }
    return Some(Done(done));
  }

  /** Reads the key, decides, and writes on exactly what was read; or confirms it, deciding nothing. */
  method RewriteOnce(line: Line, k: Key, decide: Decide, clock: int) returns (tried: Attempt<Changed>, m: Try)
    requires line.Valid() && k.name != SETTLED
    modifies line
    ensures line.Valid() && line.Grew() && Tidy(line) && WholeFor(line, Rewriting(k, decide))
    ensures m.clock == clock && (tried.None? ==> Nothing(line))
    ensures tried.Some? && tried.value.Done? ==>
      RewrittenFrom(line.calls, |old(line.calls)|, k, decide, m, tried.value.value, line.sent - old(line.sent))
  {
    m := Try(0, clock);
    var read := line.Get(k);
    NothingIsTidy(line, line.sent - old(line.sent), Rewriting(k, decide));
    if read.None? { return Some(Unavailable), m; }
    ReadJustNow(line, k, read.value.entry);
    var mark := line.Draw();
    ghost var was := line.calls;
    m := Try(WriteDeadline(read.value.now), clock);
    tried := WriteOrConfirm(line, k, read.value.entry, decide, m, mark);
    if tried.Some? && tried.value.Done? {
      RewrittenMore(
        line.calls, |was|, |old(line.calls)|, k, decide, m, tried.value.value, line.sent - old(line.sent),
        line.sent - old(line.sent));
    }
  }

  /** Reads, decides and writes as one, deciding again on a lost race; what is answered held at one
      instant of the call, whatever else happened, and nothing sent ever does anything more. Each try decides
      with what the caller's clock then reads; `m` is the last. */
  method Rewrite(line: Line, k: Key, decide: Decide, clock: nat -> int) returns (result: Result<Changed>, m: Try)
    requires line.Valid() && k.name != SETTLED
    modifies line
    ensures line.Valid() && line.Grew() && Tidy(line) && WholeFor(line, Rewriting(k, decide))
    ensures result.Done? ==>
      && RewrittenFrom(line.calls, |old(line.calls)|, k, decide, m, result.value, line.sent - old(line.sent))
      && exists n: nat :: m.clock == clock(n)
  {
    NothingIsTidy(line, line.sent - old(line.sent), Rewriting(k, decide));
    m := Try(0, 0);
    var tried := 0;
    while tried < ATTEMPTS
      invariant line.Valid() && line.Grew() && Nothing(line) && Tidy(line) && WholeFor(line, Rewriting(k, decide))
    {
      ghost var was, sent := line.calls, line.sent;
      var answered;
      answered, m := RewriteOnce(line, k, decide, clock(tried));
      Carried(was, line.calls, sent - old(line.sent));
      AttemptIsAll(line.calls, line.sent - old(line.sent), line.sent - sent, Rewriting(k, decide));
      if answered.Some? {
        if answered.value.Done? {
          RewrittenMore(
            line.calls, |was|, |old(line.calls)|, k, decide, m, answered.value.value, line.sent - sent,
            line.sent - old(line.sent));
        }
        return answered.value, m;
      }
      tried := tried + 1;
    }
    return Unavailable, m;
  }

  /** What is inert stays inert as the run goes on. */
  lemma Carried(was: seq<Call>, calls: seq<Call>, rs: set<Request>)
    requires was <= calls && forall r :: r in rs ==> Inert(was, r)
    ensures forall r :: r in rs ==> Inert(calls, r)
  {
    forall r | r in rs ensures Inert(calls, r) { InertLater(was, calls, r); }
  }

  // ---- Creating and removing a record ----

  /** Placed at one instant since call `from` at which the key held nothing. */
  ghost predicate CreatedFrom(
    calls: seq<Call>, from: nat, k: Key, value: int -> Json, expiry: Expiry, rs: set<Request>) {
    exists deadline: int :: WroteFrom(calls, from, k, None, Decided(value(deadline), expiry), rs)
  }

  lemma CreatedMore(
    calls: seq<Call>, from: nat, earlier: nat, k: Key,
    value: int -> Json, expiry: Expiry, rs: set<Request>, all: set<Request>)
    requires earlier <= from && CreatedFrom(calls, from, k, value, expiry, rs) && rs <= all
    requires forall r :: r in all && r !in rs ==> Inert(calls, r)
    ensures CreatedFrom(calls, earlier, k, value, expiry, all)
  {
    var deadline: int :| WroteFrom(calls, from, k, None, Decided(value(deadline), expiry), rs);
    var d := Decided(value(deadline), expiry);
    var e: nat :| from <= e && WroteAt(calls, e, k, None, d) && OnlyAt(calls, rs, e);
    InertsBeside(calls, all, rs, e);
    assert WroteFrom(calls, earlier, k, None, d, all);
  }

  /** Held at one instant since call `from`, at a call of these. */
  ghost predicate HeldFrom(calls: seq<Call>, from: nat, k: Key, rs: set<Request>) {
    exists e: nat, entry: Held :: from <= e && KeptAt(calls, e, k, Some(entry)) && OnlyAt(calls, rs, e)
  }

  lemma HeldMore(calls: seq<Call>, from: nat, earlier: nat, k: Key, rs: set<Request>, all: set<Request>)
    requires earlier <= from && HeldFrom(calls, from, k, rs) && rs <= all
    requires forall r :: r in all && r !in rs ==> Inert(calls, r)
    ensures HeldFrom(calls, earlier, k, all)
  {
    var e: nat, entry: Held :| from <= e && KeptAt(calls, e, k, Some(entry)) && OnlyAt(calls, rs, e);
    InertsBeside(calls, all, rs, e);
  }

  lemma HeldSo(calls: seq<Call>, from: nat, k: Key, entry: Held, rs: set<Request>)
    requires KeptFrom(calls, from, k, Some(entry), rs)
    ensures HeldFrom(calls, from, k, rs)
  {
    var e: nat :| from <= e && KeptAt(calls, e, k, Some(entry)) && OnlyAt(calls, rs, e);
    assert KeptAt(calls, e, k, Some(entry));
  }

  /** Nothing sent since had any effect: what is there instead is confirmed. */
  method ConfirmInstead(line: Line, k: Key, deadline: int, ghost from: nat, ghost before: set<Request>, ghost w: Work)
    returns (tried: Attempt<bool>)
    requires line.Valid() && k.name != SETTLED && from <= |line.calls|
    requires before <= line.sent && forall r :: r in line.sent - before ==> Inert(line.calls, r)
    modifies line
    ensures line.Valid() && line.Grew() && forall r :: r in line.sent - before ==> Inert(line.calls, r)
    ensures OneChange(line.calls, line.sent - before) && WholeOnly(line.calls, line.sent - before, w)
    ensures tried != Some(Done(true))
    ensures tried == Some(Done(false)) ==> HeldFrom(line.calls, from, k, line.sent - before)
  {
    tried := ConfirmHeld(line, k, deadline);
    Carried(old(line.calls), line.calls, old(line.sent) - before);
    NothingIsTidy(line, line.sent - before, w);
    if tried == Some(Done(false)) {
      HeldMore(line.calls, |old(line.calls)|, from, k, line.sent - old(line.sent), line.sent - before);
    }
  }

  method CreateWith(line: Line, k: Key, value: int -> Json, expiry: Expiry, deadline: int, mark: string)
    returns (tried: Attempt<bool>)
    requires line.Valid() && k.name != SETTLED
    requires mark in line.drawn && forall q :: q in line.sent ==> q.mark != Some(mark)
    modifies line
    ensures line.Valid() && line.Grew() && Tidy(line) && WholeFor(line, Creating(k, value, expiry))
    ensures tried.None? ==> Nothing(line)
    ensures tried == Some(Done(true)) ==>
      CreatedFrom(line.calls, |old(line.calls)|, k, value, expiry, line.sent - old(line.sent))
    ensures tried == Some(Done(false)) ==>
      HeldFrom(line.calls, |old(line.calls)|, k, line.sent - old(line.sent)) && Nothing(line)
  {
    ghost var w := Creating(k, value, expiry);
    var written := WriteDecided(line, k, None, Decided(value(deadline), expiry), Try(deadline, 0), mark, w);
    if written.Some? {
      return Some(if written.value.Done? then Done(true) else Unavailable);
    }
    tried := ConfirmInstead(line, k, deadline, |old(line.calls)|, old(line.sent), w);
  }

  method CreateOnce(line: Line, k: Key, value: int -> Json, expiry: Expiry) returns (tried: Attempt<bool>)
    requires line.Valid() && k.name != SETTLED
    modifies line
    ensures line.Valid() && line.Grew() && Tidy(line) && WholeFor(line, Creating(k, value, expiry))
    ensures tried.None? ==> Nothing(line)
    ensures tried == Some(Done(true)) ==>
      CreatedFrom(line.calls, |old(line.calls)|, k, value, expiry, line.sent - old(line.sent))
    ensures tried == Some(Done(false)) ==>
      HeldFrom(line.calls, |old(line.calls)|, k, line.sent - old(line.sent)) && Nothing(line)
  {
    var now := line.Now();
    NothingIsTidy(line, line.sent - old(line.sent), Creating(k, value, expiry));
    if now.None? { return Some(Unavailable); }
    var mark := line.Draw();
    ghost var was := line.calls;
    tried := CreateWith(line, k, value, expiry, WriteDeadline(now.value), mark);
    if tried == Some(Done(true)) {
      CreatedMore(
        line.calls, |was|, |old(line.calls)|, k, value, expiry, line.sent - old(line.sent), line.sent - old(line.sent));
    }
    if tried == Some(Done(false)) {
      HeldMore(line.calls, |was|, |old(line.calls)|, k, line.sent - old(line.sent), line.sent - old(line.sent));
    }
  }

  /** Reads what is there instead, and confirms it. */
  method ConfirmHeld(line: Line, k: Key, deadline: int) returns (tried: Attempt<bool>)
    requires line.Valid() && k.name != SETTLED
    modifies line
    ensures line.Valid() && line.Grew() && Nothing(line)
    ensures tried != Some(Done(true))
    ensures tried == Some(Done(false)) ==>
      HeldFrom(line.calls, |old(line.calls)|, k, line.sent - old(line.sent))
  {
    var read := line.Get(k);
    if read.None? { return Some(Unavailable); }
    var entry := read.value.entry;
    if entry.None? { return None; }
    ReadJustNow(line, k, entry);
    var confirmed := ConfirmRead(line, k, entry, deadline);
    if confirmed.None? { return None; }
    if !confirmed.value.Done? { return Some(Unavailable); }
    HeldSo(line.calls, |old(line.calls)|, k, entry.value, line.sent - old(line.sent));
    return Some(Done(false));
  }

  /** Places the record unless the key holds one: `true` when it did, at an instant the key held none;
      `false` when the key held one at an instant of the call, and then nothing was or will be placed. */
  method Create(line: Line, k: Key, value: int -> Json, expiry: Expiry) returns (result: Result<bool>)
    requires line.Valid() && k.name != SETTLED
    modifies line
    ensures line.Valid() && line.Grew() && Tidy(line) && WholeFor(line, Creating(k, value, expiry))
    ensures result == Done(true) ==>
      CreatedFrom(line.calls, |old(line.calls)|, k, value, expiry, line.sent - old(line.sent))
    ensures result == Done(false) ==>
      HeldFrom(line.calls, |old(line.calls)|, k, line.sent - old(line.sent)) && Nothing(line)
  {
    NothingIsTidy(line, line.sent - old(line.sent), Creating(k, value, expiry));
    var tried := 0;
    while tried < ATTEMPTS
      invariant line.Valid() && line.Grew() && Nothing(line) && Tidy(line)
      invariant WholeFor(line, Creating(k, value, expiry))
    {
      ghost var was, sent := line.calls, line.sent;
      var answered := CreateOnce(line, k, value, expiry);
      Carried(was, line.calls, sent - old(line.sent));
      AttemptIsAll(line.calls, line.sent - old(line.sent), line.sent - sent, Creating(k, value, expiry));
      if answered.Some? {
        if answered.value == Done(true) {
          CreatedMore(
            line.calls, |was|, |old(line.calls)|, k, value, expiry, line.sent - sent, line.sent - old(line.sent));
        }
        if answered.value == Done(false) {
          HeldMore(line.calls, |was|, |old(line.calls)|, k, line.sent - sent, line.sent - old(line.sent));
        }
        return answered.value;
      }
      tried := tried + 1;
    }
    return Unavailable;
  }

  /** At this instant the record went, whatever it held, and nothing else changed; or the key held none. */
  ghost predicate RemovedAt(calls: seq<Call>, e: nat, k: Key) {
    e < |calls| && ViewAt(calls, e + 1) == RemoveStep(ViewAt(calls, e), calls[e].at, k)
  }

  ghost predicate RemovedFrom(calls: seq<Call>, from: nat, k: Key, rs: set<Request>) {
    exists e: nat :: from <= e && RemovedAt(calls, e, k) && OnlyAt(calls, rs, e)
  }

  lemma RemovedMore(calls: seq<Call>, from: nat, earlier: nat, k: Key, rs: set<Request>, all: set<Request>)
    requires earlier <= from && RemovedFrom(calls, from, k, rs) && rs <= all
    requires forall r :: r in all && r !in rs ==> Inert(calls, r)
    ensures RemovedFrom(calls, earlier, k, all)
  {
    var e: nat :| from <= e && RemovedAt(calls, e, k) && OnlyAt(calls, rs, e);
    InertsBeside(calls, all, rs, e);
  }

  lemma TakenOrInert(calls: seq<Call>, e: nat, k: Key, r: Request, answer: Answer)
    requires SettledAt(calls, r, answer, e) && r.op == Take(k) && k.name != SETTLED
    ensures answer == Missing ==> Inert(calls, r)
    ensures answer != Missing ==> RemovedAt(calls, e, k)
  {
    CarriedStep(calls, e);
    ViewRemoved(Met(calls, e).values, k);
    ViewLooks(Met(calls, e).values, k, calls[e].at);
  }

  /** Taking a record, whenever a copy arrives, removes it or nothing. */
  lemma TakeIsWhole(calls: seq<Call>, k: Key, r: Request)
    requires r.op == Take(k) && k.name != SETTLED && r.deadline.Some? && MarksOf(r) != []
    ensures WholeOnly(calls, {r}, Removing(k))
  {
    forall future: seq<Call>, i: nat |
      calls <= future && Monotone(future) && i < |future| && future[i].request in {r} && ChangesView(future, i)
      ensures WorkedAt(future, i, Removing(k))
    {
      ChangeIsSettled(future, r, i);
      TakenOrInert(future, i, k, r, AnsweredAt(future, i));
    }
  }

  lemma AbsentIsRemoved(calls: seq<Call>, from: nat, k: Key, rs: set<Request>)
    requires KeptFrom(calls, from, k, None, rs)
    ensures RemovedFrom(calls, from, k, rs)
  {
    var e: nat :| from <= e && KeptAt(calls, e, k, None) && OnlyAt(calls, rs, e);
    assert RemovedAt(calls, e, k);
  }

  /** Takes the record, or finds none. */
  method TakeMarked(line: Line, k: Key, deadline: int, mark: string) returns (taken: Attempt<()>)
    requires line.Valid() && mark in line.drawn && forall q :: q in line.sent ==> q.mark != Some(mark)
    requires k.name != SETTLED
    modifies line
    ensures line.Valid() && line.Grew() && Tidy(line) && WholeFor(line, Removing(k))
    ensures taken.None? ==> Nothing(line)
    ensures taken.Some? && taken.value.Done? ==>
      RemovedFrom(line.calls, |old(line.calls)|, k, line.sent - old(line.sent))
  {
    var r := Request(Op.Take(k), Some(deadline), Some(mark));
    var reply := SendMarked(line, r);
    TakeIsWhole(line.calls, k, r);
    if Unsettled(reply) { return Some(Unavailable); }
    ghost var e: nat :| |old(line.calls)| <= e && SettledAt(line.calls, r, reply.value, e);
    TakenOrInert(line.calls, e, k, r, reply.value);
    if reply.value == Missing { return None; }
    assert RemovedFrom(line.calls, |old(line.calls)|, k, {r});
    return Some(Done(()));
  }

  /** Nothing sent since had any effect: the absence is confirmed. */
  method ConfirmGone(line: Line, k: Key, deadline: int, ghost from: nat, ghost before: set<Request>)
    returns (tried: Attempt<()>)
    requires line.Valid() && k.name != SETTLED && from <= |line.calls|
    requires before <= line.sent && forall r :: r in line.sent - before ==> Inert(line.calls, r)
    modifies line
    ensures line.Valid() && line.Grew() && forall r :: r in line.sent - before ==> Inert(line.calls, r)
    ensures OneChange(line.calls, line.sent - before) && WholeOnly(line.calls, line.sent - before, Removing(k))
    ensures tried.Some? && tried.value.Done? ==> RemovedFrom(line.calls, from, k, line.sent - before)
  {
    tried := ConfirmRead(line, k, None, deadline);
    Carried(old(line.calls), line.calls, old(line.sent) - before);
    NothingIsTidy(line, line.sent - before, Removing(k));
    if tried.Some? && tried.value.Done? {
      AbsentIsRemoved(line.calls, |old(line.calls)|, k, line.sent - old(line.sent));
      RemovedMore(
        line.calls, |old(line.calls)|, from, k, line.sent - old(line.sent), line.sent - before);
    }
  }

  method RemoveWith(line: Line, k: Key, deadline: int, mark: string) returns (tried: Attempt<()>)
    requires line.Valid() && k.name != SETTLED
    requires mark in line.drawn && forall q :: q in line.sent ==> q.mark != Some(mark)
    modifies line
    ensures line.Valid() && line.Grew() && Tidy(line) && WholeFor(line, Removing(k))
    ensures tried.None? ==> Nothing(line)
    ensures tried.Some? && tried.value.Done? ==>
      RemovedFrom(line.calls, |old(line.calls)|, k, line.sent - old(line.sent))
  {
    tried := TakeMarked(line, k, deadline, mark);
    if tried.None? { tried := ConfirmGone(line, k, deadline, |old(line.calls)|, old(line.sent)); }
  }

  method RemoveOnce(line: Line, k: Key) returns (tried: Attempt<()>)
    requires line.Valid() && k.name != SETTLED
    modifies line
    ensures line.Valid() && line.Grew() && Tidy(line) && WholeFor(line, Removing(k))
    ensures tried.None? ==> Nothing(line)
    ensures tried.Some? && tried.value.Done? ==>
      RemovedFrom(line.calls, |old(line.calls)|, k, line.sent - old(line.sent))
  {
    var now := line.Now();
    NothingIsTidy(line, line.sent - old(line.sent), Removing(k));
    if now.None? { return Some(Unavailable); }
    var mark := line.Draw();
    ghost var was := line.calls;
    tried := RemoveWith(line, k, WriteDeadline(now.value), mark);
    if tried.Some? && tried.value.Done? {
      RemovedMore(line.calls, |was|, |old(line.calls)|, k, line.sent - old(line.sent), line.sent - old(line.sent));
    }
  }

  /** Removes the record whatever it holds; an absence is confirmed before it is answered. */
  method Remove(line: Line, k: Key) returns (result: Result<()>)
    requires line.Valid() && k.name != SETTLED
    modifies line
    ensures line.Valid() && line.Grew() && Tidy(line) && WholeFor(line, Removing(k))
    ensures result.Done? ==> RemovedFrom(line.calls, |old(line.calls)|, k, line.sent - old(line.sent))
  {
    NothingIsTidy(line, line.sent - old(line.sent), Removing(k));
    var tried := 0;
    while tried < ATTEMPTS
      invariant line.Valid() && line.Grew() && Nothing(line) && Tidy(line) && WholeFor(line, Removing(k))
    {
      ghost var was, sent := line.calls, line.sent;
      var answered := RemoveOnce(line, k);
      Carried(was, line.calls, sent - old(line.sent));
      AttemptIsAll(line.calls, line.sent - old(line.sent), line.sent - sent, Removing(k));
      if answered.Some? {
        if answered.value.Done? {
          RemovedMore(line.calls, |was|, |old(line.calls)|, k, line.sent - sent, line.sent - old(line.sent));
        }
        return answered.value;
      }
      tried := tried + 1;
    }
    return Unavailable;
  }
}
