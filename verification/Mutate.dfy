/** One entry changed by a pure decision, without marks: written on exactly the entry decided on, decided
    again on a lost race, and never sent twice. */
module Mutate {
  import opened Wrappers
  import opened Json
  import opened Contract
  import opened Store
  import opened Marks
  import opened Wire

  datatype Decision = Write(value: Json, expiry: Expiry) | Drop | Leave

  const DEFAULT_ATTEMPTS := 8

  type Decide = (Option<Held>, int) -> Decision

  datatype Mutated =
    | Settled(value: Option<Json>, version: Option<Version>)
    | TooLate
    | Contended
    | Unreachable

  /** Call `i` changed an entry. */
  predicate Changed(calls: seq<Call>, i: nat)
    requires i < |calls|
  {
    Met(calls, i + 1).values != Met(calls, i).values
  }

  function EntryAt(calls: seq<Call>, i: nat, k: Key, t: int): Option<Held>
    requires i <= |calls|
  {
    Look(Met(calls, i).values, k, t)
  }

  /** An entry read, or none, and the store's time at the reading. */
  datatype Reading = Reading(entry: Option<Held>, now: int)

  /** Read between call `i` and the one before it. */
  ghost predicate ReadAt(calls: seq<Call>, i: nat, k: Key, x: Reading) {
    && i <= |calls| && x.entry == EntryAt(calls, i, k, x.now)
    && (i > 0 ==> calls[i - 1].at <= x.now) && (i < |calls| ==> x.now <= calls[i].at)
  }

  ghost predicate ReadBy(calls: seq<Call>, e: nat, k: Key, x: Reading) {
    exists i: nat :: i <= e && ReadAt(calls, i, k, x)
  }

  // ---- What a settled mutation came to, at one instant ----

  predicate Leaves(entry: Option<Held>, d: Decision) { d.Leave? || (d.Drop? && entry.None?) }

  function LeftAs(entry: Option<Held>): Mutated {
    if entry.Some? then Settled(Some(entry.value.value), Some(entry.value.version)) else Settled(None, None)
  }

  /** Left as it was: the entry between two calls, as it was read. */
  ghost predicate LeftAt(calls: seq<Call>, e: nat, x: Reading, k: Key, decide: Decide, r: Mutated) {
    ReadAt(calls, e, k, x) && Leaves(x.entry, decide(x.entry, x.now)) && r == LeftAs(x.entry)
  }

  /** Call `e` met under its key what was read before it. */
  ghost predicate MeetsRead(calls: seq<Call>, e: nat, x: Reading, k: Key) {
    e < |calls| && ReadBy(calls, e, k, x) && x.now <= calls[e].at && EntryAt(calls, e, k, calls[e].at) == x.entry
  }

  /** Written: call `e` met the entry decided on, and put what was decided under its key, and did nothing else. */
  ghost predicate WrittenAt(calls: seq<Call>, e: nat, x: Reading, k: Key, decide: Decide, r: Mutated) {
    && MeetsRead(calls, e, x, k)
    && var d := decide(x.entry, x.now);
      && d.Write? && r.Settled? && r.value == Some(d.value) && r.version == Some(Before(START, calls, e).last + 1)
      && Met(calls, e + 1).values == Placed(Met(calls, e).values, k, d.value, d.expiry, calls[e].at, r.version.value)
  }

  /** Dropped: call `e` met the entry decided on and removed it, and did nothing else. */
  ghost predicate DroppedAt(calls: seq<Call>, e: nat, x: Reading, k: Key, decide: Decide, r: Mutated) {
    && MeetsRead(calls, e, x, k) && r == Settled(None, None)
    && x.entry.Some? && decide(x.entry, x.now).Drop? && Met(calls, e + 1).values == Met(calls, e).values - {k}
  }

  /** Found gone: the entry to drop was read before, and call `e` met none any more. */
  ghost predicate FoundGoneAt(calls: seq<Call>, e: nat, x: Reading, k: Key, decide: Decide, r: Mutated) {
    && e < |calls| && ReadBy(calls, e, k, x) && x.now <= calls[e].at && r == Settled(None, None)
    && x.entry.Some? && decide(x.entry, x.now).Drop?
    && EntryAt(calls, e, k, calls[e].at).None? && !Changed(calls, e)
  }

  ghost predicate SettledFrom(calls: seq<Call>, from: nat, x: Reading, k: Key, decide: Decide, r: Mutated) {
    exists e: nat :: from <= e && SettledAt(calls, e, x, k, decide, r)
  }

  ghost predicate SettledAt(calls: seq<Call>, e: nat, x: Reading, k: Key, decide: Decide, r: Mutated) {
    LeftAt(calls, e, x, k, decide, r) || SettledBy(calls, e, x, k, decide, r)
  }

  /** Settled by call `e` itself. */
  ghost predicate SettledBy(calls: seq<Call>, e: nat, x: Reading, k: Key, decide: Decide, r: Mutated) {
    || WrittenAt(calls, e, x, k, decide, r) || DroppedAt(calls, e, x, k, decide, r)
    || FoundGoneAt(calls, e, x, k, decide, r)
  }

  /** An unmarked call is carried out unless it is late, and then it changes nothing. */
  lemma UnmarkedStep(calls: seq<Call>, e: nat)
    requires e < |calls| && calls[e].request.mark.None? && !calls[e].request.op.Batch?
    ensures var s := Before(START, calls, e);
      var done := Execute(s.state, calls[e].request.op, calls[e].at, Naming([], s.last));
      if AnsweredAt(calls, e) == Late then !Changed(calls, e)
      else AnsweredAt(calls, e) == done.answer && Met(calls, e + 1).values == done.state.values
  {
    RunPrefix(START, calls, e);
    var s := Before(START, calls, e);
    HandleParts(s.state, calls[e].request, calls[e].at, Naming([], s.last));
    ExecutedNotLate(s.state, calls[e].request.op, calls[e].at, Naming([], s.last));
  }

  lemma ExecutedNotLate(s: State, op: Op, now: int, n: Naming)
    ensures Execute(s, op, now, n).answer != Late
  {
  }

  lemma RefusedExecute(s: State, op: Op, now: int, n: Naming)
    requires !Wrote(Execute(s, op, now, n).answer) && !op.Batch? && !op.BatchAcross?
    ensures Execute(s, op, now, n).state.values == s.values
  {
  }

  /** Refused, it changed nothing. */
  lemma RefusedIsStill(calls: seq<Call>, e: nat)
    requires e < |calls| && calls[e].request.mark.None? && !Wrote(AnsweredAt(calls, e))
    requires !calls[e].request.op.Batch? && !calls[e].request.op.BatchAcross?
    ensures !Changed(calls, e)
  {
    UnmarkedStep(calls, e);
    if AnsweredAt(calls, e) != Late {
      var s := Before(START, calls, e);
      RefusedExecute(s.state, calls[e].request.op, calls[e].at, Naming([], s.last));
    }
  }

  /** What was read, when a call met its version again. */
  lemma MetAgain(calls: seq<Call>, i: nat, e: nat, k: Key, now: int)
    requires i <= e < |calls| && EntryAt(calls, i, k, now).Some? && EntryAt(calls, e, k, calls[e].at).Some?
    requires EntryAt(calls, e, k, calls[e].at).value.version == EntryAt(calls, i, k, now).value.version
    ensures EntryAt(calls, e, k, calls[e].at) == EntryAt(calls, i, k, now)
  {
    VersionMeansEntry(calls, i, e, k);
  }

  function WriteOp(k: Key, entry: Option<Held>, d: Decision): Op
    requires d.Write?
  {
    if entry.Some? then ReplaceIf(k, entry.value.version, d.value, d.expiry) else PutIfAbsent(k, d.value, d.expiry)
  }

  /** The write or the drop decided on an entry read. */
  function DecidedOp(k: Key, entry: Option<Held>, d: Decision): Op
    requires !Leaves(entry, d)
  {
    if d.Write? then WriteOp(k, entry, d) else RemoveIf(k, ExpectedVersion(entry.value.version))
  }

  lemma WroteParts(calls: seq<Call>, e: nat, k: Key, entry: Option<Held>, d: Decision, version: Version)
    requires e < |calls| && d.Write? && calls[e].request.mark.None? && AnsweredAt(calls, e) == Written(version)
    requires calls[e].request.op == WriteOp(k, entry, d)
    ensures version == Before(START, calls, e).last + 1
    ensures Met(calls, e + 1).values == Placed(Met(calls, e).values, k, d.value, d.expiry, calls[e].at, version)
    ensures var met := EntryAt(calls, e, k, calls[e].at);
      if entry.None? then met.None? else met.Some? && met.value.version == entry.value.version
  {
    UnmarkedStep(calls, e);
    var s := Before(START, calls, e);
    WriteExecutes(s.state, k, entry, d, calls[e].at, s.last);
  }

  lemma WriteExecutes(s: State, k: Key, entry: Option<Held>, d: Decision, t: int, last: nat)
    requires d.Write?
    ensures var done := Execute(s, WriteOp(k, entry, d), t, Naming([], last));
      done.answer.Written? ==>
        && done.answer.version == last + 1 && done.state.values == Placed(s.values, k, d.value, d.expiry, t, last + 1)
        && var met := Look(s.values, k, t);
          if entry.None? then met.None? else met.Some? && met.value.version == entry.value.version
  {
  }

  lemma WroteSo(calls: seq<Call>, i: nat, e: nat, k: Key, decide: Decide, x: Reading, version: Version)
    requires i <= e < |calls| && x.now <= calls[e].at && ReadAt(calls, i, k, x)
    requires calls[e].request.mark.None? && AnsweredAt(calls, e) == Written(version)
    requires decide(x.entry, x.now).Write? && calls[e].request.op == WriteOp(k, x.entry, decide(x.entry, x.now))
    ensures WrittenAt(calls, e, x, k, decide, Settled(Some(decide(x.entry, x.now).value), Some(version)))
  {
    WroteParts(calls, e, k, x.entry, decide(x.entry, x.now), version);
    if x.entry.Some? { MetAgain(calls, i, e, k, x.now); }
  }

  lemma DroppedSo(calls: seq<Call>, i: nat, e: nat, k: Key, decide: Decide, x: Reading)
    requires i <= e < |calls| && x.now <= calls[e].at && ReadAt(calls, i, k, x) && calls[e].request.mark.None?
    requires x.entry.Some? && decide(x.entry, x.now).Drop?
    requires calls[e].request.op == RemoveIf(k, ExpectedVersion(x.entry.value.version))
    requires AnsweredAt(calls, e).Removed? || AnsweredAt(calls, e).Missing?
    ensures DroppedAt(calls, e, x, k, decide, Settled(None, None))
      || FoundGoneAt(calls, e, x, k, decide, Settled(None, None))
  {
    UnmarkedStep(calls, e);
    if AnsweredAt(calls, e).Removed? { MetAgain(calls, i, e, k, x.now); }
  }

  function ToldBy(answer: Answer, d: Decision): Option<Mutated> {
    if answer.Written? && d.Write? then Some(Settled(Some(d.value), Some(answer.version)))
    else if d.Drop? && (answer.Removed? || answer.Missing?) then Some(Settled(None, None))
    else if answer == Late then Some(TooLate)
    else None
  }

  /** A call that carried what was decided settled it, or changed nothing. */
  lemma DecidedCall(calls: seq<Call>, i: nat, e: nat, k: Key, decide: Decide, x: Reading)
    requires i <= e < |calls| && x.now <= calls[e].at && ReadAt(calls, i, k, x) && calls[e].request.mark.None?
    requires !Leaves(x.entry, decide(x.entry, x.now))
    requires calls[e].request.op == DecidedOp(k, x.entry, decide(x.entry, x.now))
    ensures var told := ToldBy(AnsweredAt(calls, e), decide(x.entry, x.now));
      if told.Some? && told.value.Settled? then SettledBy(calls, e, x, k, decide, told.value) else !Changed(calls, e)
  {
    var answer, d := AnsweredAt(calls, e), decide(x.entry, x.now);
    if d.Write? && answer.Written? {
      WroteSo(calls, i, e, k, decide, x, answer.version);
    } else if d.Drop? && (answer.Removed? || answer.Missing?) {
      DroppedSo(calls, i, e, k, decide, x);
    } else {
      OtherwiseRefused(calls, e);
      RefusedIsStill(calls, e);
    }
  }

  /** A reading of the run so far, when it has gone on with calls no earlier. */
  lemma ReadLater(was: seq<Call>, calls: seq<Call>, k: Key, x: Reading)
    requires was <= calls && ReadAt(was, |was|, k, x) && (|was| < |calls| ==> x.now <= calls[|was|].at)
    ensures ReadAt(calls, |was|, k, x)
  {
    Extends(START, was, calls, |was|);
  }

  // ---- A send given up ----

  /** The run goes on with calls that come no earlier than this time. */
  ghost predicate GoesOn(calls: seq<Call>, future: seq<Call>, now: int) {
    calls <= future && Monotone(future) && forall i :: |calls| <= i < |future| ==> now <= future[i].at
  }

  /** Whenever a send that was given up lands, however the run goes on, it writes or drops what was decided on
      the entry it meets, or changes nothing. */
  ghost predicate LandsSo(calls: seq<Call>, r: Request, k: Key, decide: Decide, x: Reading) {
    forall future: seq<Call>, e: nat ::
      GoesOn(calls, future, x.now) && |calls| <= e < |future| && future[e].request == r && Changed(future, e) ==>
        DoneAt(future, e, x, k, decide)
  }

  ghost predicate DoneAt(calls: seq<Call>, e: nat, x: Reading, k: Key, decide: Decide) {
    exists told: Mutated :: WrittenAt(calls, e, x, k, decide, told) || DroppedAt(calls, e, x, k, decide, told)
  }

  /** And one that names an entry does so once at most. */
  ghost predicate LandsOnce(calls: seq<Call>, r: Request, now: int) {
    forall future: seq<Call>, e: nat, f: nat ::
      GoesOn(calls, future, now) && |calls| <= e < f < |future| && future[e].request == r && future[f].request == r ==>
        !(Changed(future, e) && Changed(future, f))
  }

  lemma LandsLater(was: seq<Call>, calls: seq<Call>, r: Request, k: Key, decide: Decide, x: Reading)
    requires was <= calls && ReadAt(was, |was|, k, x) && r.mark.None? && !Leaves(x.entry, decide(x.entry, x.now))
    requires forall i :: |was| <= i < |calls| ==> x.now <= calls[i].at
    requires r.op == DecidedOp(k, x.entry, decide(x.entry, x.now))
    ensures LandsSo(calls, r, k, decide, x) && (x.entry.Some? ==> LandsOnce(calls, r, x.now))
  {
    forall future: seq<Call>, e: nat |
      GoesOn(calls, future, x.now) && |calls| <= e < |future| && future[e].request == r && Changed(future, e)
      ensures DoneAt(future, e, x, k, decide)
    {
      LandsDone(was, calls, future, e, r, k, decide, x);
    }
    if x.entry.Some? {
      forall future: seq<Call>, e: nat, f: nat |
        GoesOn(calls, future, x.now) && |calls| <= e < f < |future| && future[e].request == r && future[f].request == r
        ensures !(Changed(future, e) && Changed(future, f))
      {
        if Changed(future, e) && Changed(future, f) {
          LandsDone(was, calls, future, e, r, k, decide, x);
          LandsDone(was, calls, future, f, r, k, decide, x);
          NeverTwice(future, e, f, x, k, decide);
        }
      }
    }
  }

  lemma LandsDone(
    was: seq<Call>, calls: seq<Call>, future: seq<Call>, e: nat, r: Request, k: Key, decide: Decide, x: Reading)
    requires was <= calls && ReadAt(was, |was|, k, x) && r.mark.None? && !Leaves(x.entry, decide(x.entry, x.now))
    requires forall i :: |was| <= i < |calls| ==> x.now <= calls[i].at
    requires r.op == DecidedOp(k, x.entry, decide(x.entry, x.now))
    requires GoesOn(calls, future, x.now) && |calls| <= e < |future| && future[e].request == r
    ensures Changed(future, e) ==> DoneAt(future, e, x, k, decide)
  {
    if |was| < |calls| { assert future[|was|] == calls[|was|]; }
    ReadLater(was, future, k, x);
    DecidedCall(future, |was|, e, k, decide, x);
  }

  /** An entry replaced or dropped is never met again. */
  lemma NeverTwice(calls: seq<Call>, e: nat, f: nat, x: Reading, k: Key, decide: Decide)
    requires e < f < |calls| && x.entry.Some? && DoneAt(calls, e, x, k, decide)
    ensures !MeetsRead(calls, f, x, k)
  {
    RunBelow(calls, e);
    RunBelow(calls, e + 1);
    RunRenews(calls, e, e + 1);
    RunRenews(calls, e + 1, f);
  }

  /** Whether the calls asked since changed nothing but at most one, the last. */
  ghost predicate StillBut(calls: seq<Call>, asked: set<nat>, last: nat) {
    forall i :: i in asked && i < |calls| && i != last ==> !Changed(calls, i)
  }

  lemma StillLater(was: seq<Call>, calls: seq<Call>, asked: set<nat>)
    requires was <= calls && (forall i :: i in asked ==> i < |was|) && StillBut(was, asked, |was|)
    ensures forall i :: i in asked ==> !Changed(calls, i)
  {
    forall i | i in asked ensures !Changed(calls, i) {
      Extends(START, was, calls, i);
      Extends(START, was, calls, i + 1);
    }
  }

  /** Whatever these calls changed is what was decided on the entry met there. */
  ghost predicate AllDecided(calls: seq<Call>, from: nat, asked: set<nat>, k: Key, decide: Decide) {
    forall e: nat :: e in asked && e < |calls| && Changed(calls, e) ==> DecidedAt(calls, from, e, k, decide)
  }

  ghost predicate DecidedAt(calls: seq<Call>, from: nat, e: nat, k: Key, decide: Decide) {
    from <= e && exists x: Reading :: DoneAt(calls, e, x, k, decide)
  }

  /** What an attempt comes to: settled since call `from` on what was last read; or nothing changed, unless an
      answer was lost. */
  ghost predicate Ends(
    calls: seq<Call>, from: nat, asked: set<nat>, k: Key, decide: Decide, x: Option<Reading>, told: Option<Mutated>) {
    && (told.Some? && told.value.Settled? ==> x.Some? && SettledFrom(calls, from, x.value, k, decide, told.value))
    && (told.None? || told.value.TooLate? || told.value.Contended? ==> StillBut(calls, asked, |calls|))
    && (exists last :: StillBut(calls, asked, last)) && AllDecided(calls, from, asked, k, decide)
  }

  lemma AskedEnds(
    was: seq<Call>, calls: seq<Call>, asked: set<nat>, k: Key, decide: Decide, x: Reading, told: Option<Mutated>)
    requires was <= calls && |was| < |calls| && ReadAt(calls, |was|, k, x) && asked == {|calls| - 1}
    requires calls[|calls| - 1].request.mark.None? && x.now <= calls[|calls| - 1].at
    requires var d := decide(x.entry, x.now);
      && !Leaves(x.entry, d) && calls[|calls| - 1].request.op == DecidedOp(k, x.entry, d)
      && (told == ToldBy(AnsweredAt(calls, |calls| - 1), d) || told == Some(Unreachable))
    ensures Ends(calls, |was|, asked, k, decide, Some(x), told)
  {
    var last, d := |calls| - 1, decide(x.entry, x.now);
    DecidedCall(calls, |was|, last, k, decide, x);
    OneEnds(calls, |was|, k, decide, x, ToldBy(AnsweredAt(calls, last), d), told);
  }

  /** One call, settled or still, whether or not its answer was heard. */
  lemma OneEnds(
    calls: seq<Call>, from: nat, k: Key, decide: Decide, x: Reading, r: Option<Mutated>, told: Option<Mutated>)
    requires from < |calls| && (told == r || told == Some(Unreachable))
    requires if r.Some? && r.value.Settled? then SettledBy(calls, |calls| - 1, x, k, decide, r.value)
      else !Changed(calls, |calls| - 1) && r != Some(Unreachable)
    ensures Ends(calls, from, {|calls| - 1}, k, decide, Some(x), told)
  {
    StillOne(calls, {|calls| - 1});
    if r.Some? && r.value.Settled? { assert SettledAt(calls, |calls| - 1, x, k, decide, r.value); }
    OneDecided(calls, from, k, decide, x, r);
  }

  lemma OneDecided(calls: seq<Call>, from: nat, k: Key, decide: Decide, x: Reading, r: Option<Mutated>)
    requires from < |calls|
    requires Changed(calls, |calls| - 1) ==> r.Some? && SettledBy(calls, |calls| - 1, x, k, decide, r.value)
    ensures AllDecided(calls, from, {|calls| - 1}, k, decide)
  {
    if Changed(calls, |calls| - 1) {
      assert DoneAt(calls, |calls| - 1, x, k, decide);
      assert DecidedAt(calls, from, |calls| - 1, k, decide);
    }
  }

  lemma StillOne(calls: seq<Call>, asked: set<nat>)
    requires calls != [] && asked == {|calls| - 1}
    ensures exists last :: StillBut(calls, asked, last)
    ensures !Changed(calls, |calls| - 1) ==> StillBut(calls, asked, |calls|)
  {
    assert StillBut(calls, asked, |calls| - 1);
  }

  lemma NoneEnds(calls: seq<Call>, from: nat, k: Key, decide: Decide, x: Option<Reading>, told: Option<Mutated>)
    requires told.Some? ==> !told.value.Settled?
    ensures Ends(calls, from, {}, k, decide, x, told)
  {
    assert StillBut(calls, {}, |calls|);
  }

  function Told(reply: Option<Answer>, d: Decision): Option<Mutated> {
    if reply.None? then Some(Unreachable) else ToldBy(reply.value, d)
  }

  /** A send on the entry read, answered or lost. */
  ghost predicate AskedSo(was: seq<Call>, calls: seq<Call>, asked: set<nat>, op: Op, now: int, reply: Option<Answer>) {
    && was <= calls && (reply.Some? ==> asked != {} && calls != [] && reply.value == AnsweredAt(calls, |calls| - 1))
    && (forall i :: |was| <= i < |calls| ==> now <= calls[i].at)
    && (asked != {} ==>
      && |was| < |calls| && asked == {|calls| - 1}
      && calls[|calls| - 1].request.mark.None? && calls[|calls| - 1].request.op == op)
  }

  lemma AttemptEnds(
    was: seq<Call>, calls: seq<Call>, asked: set<nat>, k: Key, decide: Decide, x: Reading, reply: Option<Answer>)
    requires ReadAt(was, |was|, k, x) && !Leaves(x.entry, decide(x.entry, x.now))
    requires AskedSo(was, calls, asked, DecidedOp(k, x.entry, decide(x.entry, x.now)), x.now, reply)
    ensures Ends(calls, |was|, asked, k, decide, Some(x), Told(reply, decide(x.entry, x.now)))
  {
    if asked == {} {
      NoneEnds(calls, |was|, k, decide, Some(x), Some(Unreachable));
    } else {
      ReadLater(was, calls, k, x);
      AskedEnds(was, calls, asked, k, decide, x, Told(reply, decide(x.entry, x.now)));
    }
  }

  method AskOnce(line: Line, r: Request, now: int) returns (reply: Option<Answer>)
    requires line.Valid() && now <= line.now && r.mark.None?
    modifies line
    ensures line.Valid() && line.Grew() && old(line.asked) <= line.asked
    ensures AskedSo(old(line.calls), line.calls, line.asked - old(line.asked), r.op, now, reply)
  {
    reply := line.Ask(r);
    assert line.asked - old(line.asked) == {} || line.asked - old(line.asked) == {|line.calls| - 1};
  }

  /** A send lost may still land, and then so. */
  ghost predicate LostSo(
    calls: seq<Call>, k: Key, decide: Decide, x: Option<Reading>, lost: Option<Request>, told: Option<Mutated>) {
    && (lost.Some? ==> told == Some(Unreachable) && x.Some?)
    && (lost.Some? ==>
      && LandsSo(calls, lost.value, k, decide, x.value)
      && (x.value.entry.Some? ==> LandsOnce(calls, lost.value, x.value.now)))
  }

  /** Sends the decided write, or the drop, on the entry read; none when the race was lost. */
  method Attempt(line: Line, k: Key, decide: Decide, x: Reading, deadline: Option<int>)
    returns (result: Option<Mutated>, ghost lost: Option<Request>)
    requires line.Valid() && ReadAt(line.calls, |line.calls|, k, x) && x.now <= line.now
    requires !Leaves(x.entry, decide(x.entry, x.now))
    modifies line
    ensures line.Valid() && line.Grew() && old(line.asked) <= line.asked
    ensures Ends(line.calls, |old(line.calls)|, line.asked - old(line.asked), k, decide, Some(x), result)
    ensures LostSo(line.calls, k, decide, Some(x), lost, result)
  {
    var d := decide(x.entry, x.now);
    var r := Request(DecidedOp(k, x.entry, d), deadline, None);
    var reply := AskOnce(line, r, x.now);
    AttemptEnds(old(line.calls), line.calls, line.asked - old(line.asked), k, decide, x, reply);
    lost := if reply.None? then Some(r) else None;
    if reply.None? { LandsLater(old(line.calls), line.calls, r, k, decide, x); }
    result := Told(reply, d);
  }

  lemma OtherwiseRefused(calls: seq<Call>, e: nat)
    requires e < |calls| && calls[e].request.mark.None?
    requires calls[e].request.op.PutIfAbsent? || calls[e].request.op.ReplaceIf? || calls[e].request.op.RemoveIf?
    requires if calls[e].request.op.RemoveIf? then !AnsweredAt(calls, e).Removed? else !AnsweredAt(calls, e).Written?
    ensures !Wrote(AnsweredAt(calls, e))
  {
    UnmarkedStep(calls, e);
  }

  /** What was asked before stays as it was found, and the attempt adds what it came to. */
  lemma EndsMore(
    was: seq<Call>, mid: nat, calls: seq<Call>, before: set<nat>, asked: set<nat>, from: nat, k: Key,
    decide: Decide, x: Option<Reading>, told: Option<Mutated>)
    requires was <= calls && from <= mid && StillBut(was, before, |was|) && forall i :: i in before ==> i < |was|
    requires Ends(calls, mid, asked - before, k, decide, x, told)
    ensures Ends(calls, from, asked, k, decide, x, told)
  {
    StillLater(was, calls, before);
    var last :| StillBut(calls, asked - before, last);
    assert StillBut(calls, asked, last);
    forall e: nat | e in asked && e < |calls| && Changed(calls, e) ensures DecidedAt(calls, from, e, k, decide) {
      assert DecidedAt(calls, mid, e, k, decide);
    }
  }

  lemma EndsEarlier(
    calls: seq<Call>, mid: nat, from: nat, asked: set<nat>, k: Key, decide: Decide, x: Option<Reading>,
    told: Option<Mutated>)
    requires from <= mid && Ends(calls, mid, asked, k, decide, x, told)
    ensures Ends(calls, from, asked, k, decide, x, told)
  {
    forall e: nat | e in asked && e < |calls| && Changed(calls, e) ensures DecidedAt(calls, from, e, k, decide) {
      assert DecidedAt(calls, mid, e, k, decide);
    }
  }

  lemma LeftEnds(calls: seq<Call>, k: Key, decide: Decide, x: Reading)
    requires ReadAt(calls, |calls|, k, x) && Leaves(x.entry, decide(x.entry, x.now))
    ensures Ends(calls, |calls|, {}, k, decide, Some(x), Some(LeftAs(x.entry)))
  {
    assert StillBut(calls, {}, |calls|);
    assert SettledAt(calls, |calls|, x, k, decide, LeftAs(x.entry));
  }

  /** Reads and decides, and sends what was decided. */
  method ReadAndTry(line: Line, k: Key, decide: Decide, deadline: Option<int>)
    returns (result: Option<Mutated>, read: Option<Reading>, ghost lost: Option<Request>)
    requires line.Valid()
    modifies line
    ensures line.Valid() && line.Grew() && old(line.asked) <= line.asked
    ensures Ends(line.calls, |old(line.calls)|, line.asked - old(line.asked), k, decide, read, result)
    ensures LostSo(line.calls, k, decide, read, lost, result)
  {
    lost := None;
    var got := line.Get(k);
    if got.None? {
      assert line.asked - old(line.asked) == {};
      NoneEnds(line.calls, |old(line.calls)|, k, decide, None, Some(Unreachable));
      return Some(Unreachable), None, None;
    }
    var x := Reading(got.value.entry, got.value.now);
    read := Some(x);
    ghost var mid := |line.calls|;
    if Leaves(x.entry, decide(x.entry, x.now)) {
      assert line.asked - old(line.asked) == {};
      LeftEnds(line.calls, k, decide, x);
      result := Some(LeftAs(x.entry));
    } else {
      result, lost := Attempt(line, k, decide, x, deadline);
    }
    EndsEarlier(line.calls, mid, |old(line.calls)|, line.asked - old(line.asked), k, decide, read, result);
  }

  /** Reads, decides, and writes on the version read, deciding again on a lost race; with what was decided on
      last. A settled answer is that of one instant of the call; of all it sent, only the write it settled on,
      or one whose answer was lost, changed anything; and what that changed, or changes whenever it lands, is
      what was decided on the entry it meets. */
  method Mutate(line: Line, k: Key, decide: Decide, attempts: nat, deadline: Option<int>)
    returns (result: Mutated, read: Option<Reading>, ghost lost: Option<Request>)
    requires line.Valid()
    modifies line
    ensures line.Valid() && line.Grew() && old(line.asked) <= line.asked
    ensures Ends(line.calls, |old(line.calls)|, line.asked - old(line.asked), k, decide, read, Some(result))
    ensures LostSo(line.calls, k, decide, read, lost, Some(result))
    ensures attempts == 0 ==> result == Contended && line.calls == old(line.calls)
  {
    var attempt := 0;
    assert line.asked - old(line.asked) == {};
    NoneEnds(line.calls, |line.calls|, k, decide, None, None);
    read, lost := None, None;
    while attempt < attempts
      invariant line.Valid() && line.Grew() && old(line.asked) <= line.asked
      invariant Ends(line.calls, |old(line.calls)|, line.asked - old(line.asked), k, decide, read, None)
      invariant lost.None? && (attempt == 0 ==> line.calls == old(line.calls))
      invariant attempts == 0 ==> attempt == 0
    {
      ghost var was, before := line.calls, line.asked - old(line.asked);
      ghost var asked := line.asked;
      var tried;
      tried, read, lost := ReadAndTry(line, k, decide, deadline);
      assert line.asked - old(line.asked) - before == line.asked - asked;
      EndsMore(
        was, |was|, line.calls, before, line.asked - old(line.asked), |old(line.calls)|, k, decide, read, tried);
      if tried.Some? { return tried.value, read, lost; }
      attempt := attempt + 1;
    }
    return Contended, read, None;
  }
}
