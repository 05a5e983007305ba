/** What a mark and a deadline promise over any run of the store: one effect at most, one answer to all
    copies of a request, and versions that never name two entries. */
module Marks {
  import opened Wrappers
  import opened Contract
  import opened Store

  const START := Sys(EMPTY, 0)

  /** What call `i` of a run from the empty store met. */
  function Met(calls: seq<Call>, i: nat): State
    requires i <= |calls|
  {
    Before(START, calls, i).state
  }

  function AnsweredAt(calls: seq<Call>, i: nat): Answer
    requires i < |calls|
  {
    AnswerAt(START, calls, i)
  }

  /** Call `i` was carried out, not answered from a mark, late or refused. */
  predicate CarriedOut(calls: seq<Call>, i: nat)
    requires i < |calls|
  {
    Executes(Met(calls, i), calls[i].request, calls[i].at)
  }

  /** Call `i` wrote something. */
  predicate TookEffect(calls: seq<Call>, i: nat)
    requires i < |calls|
  {
    CarriedOut(calls, i) && Wrote(AnsweredAt(calls, i))
  }

  /** A run's calls met what they met whatever follows. */
  lemma {:induction false} RunPrefix(s: Sys, calls: seq<Call>, i: nat)
    requires i < |calls|
    ensures Before(s, calls, i + 1) == Stepped(Before(s, calls, i), calls[i])
  {
    assert calls[..i + 1][..i] == calls[..i];
  }

  lemma Extends(s: Sys, calls: seq<Call>, more: seq<Call>, i: nat)
    requires calls <= more && i <= |calls|
    ensures Before(s, more, i) == Before(s, calls, i)
  {
    assert more[..i] == calls[..i];
  }

  // ---- Marks ----

  /** Every partition of the request keeps its mark, with this answer, until this time. */
  ghost predicate Keeps(s: State, r: Request, answer: Answer, until: int) {
    forall m :: m in MarksOf(r) ==> m in s.answers && s.answers[m] == Answered(IdempotencyText(r.op), answer, until)
  }

  lemma {:induction false} SeenSome(answers: map<Mark, Answered>, marks: seq<Mark>, m: Mark, now: int)
    requires m in marks && LookAnswer(answers, m, now).Some?
    ensures Seen(answers, marks, now).Some?
  {
    if marks[0] != m { SeenSome(answers, marks[1..], m, now); }
  }

  lemma {:induction false} SeenIsOne(answers: map<Mark, Answered>, marks: seq<Mark>, now: int)
    requires Seen(answers, marks, now).Some?
    ensures exists m :: m in marks && LookAnswer(answers, m, now) == Seen(answers, marks, now)
  {
    if LookAnswer(answers, marks[0], now).None? {
      SeenIsOne(answers, marks[1..], now);
      var m :| m in marks[1..] && LookAnswer(answers, m, now) == Seen(answers, marks[1..], now);
      assert m in marks;
    } else {
      assert marks[0] in marks;
    }
  }

  /** While a mark is kept, nothing overwrites it. */
  lemma KeepsOn(s: Sys, c: Call, r: Request, answer: Answer, until: int)
    requires Keeps(s.state, r, answer, until) && c.at < until
    ensures Keeps(Stepped(s, c).state, r, answer, until)
  {
    forall m | m in MarksOf(r)
      ensures m in Stepped(s, c).state.answers
      ensures Stepped(s, c).state.answers[m] == Answered(IdempotencyText(r.op), answer, until)
    {
      if m in MarksOf(c.request) {
        SeenSome(s.state.answers, MarksOf(c.request), m, c.at);
      }
      ExecuteParts(s.state, c.request.op, c.at, Naming([], s.last));
    }
  }

  lemma KeptFrom(s: Sys, c: Call)
    requires Executes(s.state, c.request, c.at)
    ensures Keeps(Stepped(s, c).state, c.request, Took(s, c).answer, KeptUntil(c.request, c.at))
  {
  }

  lemma {:induction false} KeepsThrough(calls: seq<Call>, i: nat, j: nat)
    requires Monotone(calls) && i < j < |calls| && CarriedOut(calls, i)
    requires calls[j].at < KeptUntil(calls[i].request, calls[i].at)
    ensures Keeps(Met(calls, j), calls[i].request, AnsweredAt(calls, i), KeptUntil(calls[i].request, calls[i].at))
    decreases j
  {
    if j == i + 1 {
      KeptAtOnce(calls, i);
    } else {
      KeepsThrough(calls, i, j - 1);
      KeptOn(calls, j - 1, calls[i].request, AnsweredAt(calls, i), KeptUntil(calls[i].request, calls[i].at));
    }
  }

  lemma KeptAtOnce(calls: seq<Call>, i: nat)
    requires i < |calls| && CarriedOut(calls, i)
    ensures Keeps(Met(calls, i + 1), calls[i].request, AnsweredAt(calls, i), KeptUntil(calls[i].request, calls[i].at))
  {
    RunPrefix(START, calls, i);
    KeptFrom(Before(START, calls, i), calls[i]);
  }

  lemma KeptOn(calls: seq<Call>, j: nat, r: Request, answer: Answer, until: int)
    requires j < |calls| && Keeps(Met(calls, j), r, answer, until) && calls[j].at < until
    ensures Keeps(Met(calls, j + 1), r, answer, until)
  {
    RunPrefix(START, calls, j);
    KeepsOn(Before(START, calls, j), calls[j], r, answer, until);
  }

  lemma {:induction false} AllSeenAlike(answers: map<Mark, Answered>, marks: seq<Mark>, now: int, a: Answered)
    requires marks != [] && a.until > now
    requires forall m :: m in marks ==> m in answers && answers[m] == a
    ensures Seen(answers, marks, now) == Some(a)
  {
    assert marks[0] in marks;
  }

  /** Once a request under a mark is carried out, no copy of it arriving later is; one arriving while
      the mark is kept gets the first answer, and past that only late ones can still arrive. */
  lemma CopiesGetFirstAnswer(calls: seq<Call>, i: nat, j: nat)
    requires Monotone(calls) && i < j < |calls| && calls[i].request == calls[j].request
    requires MarksOf(calls[i].request) != [] && CarriedOut(calls, i)
    requires calls[i].request.deadline.Some? || calls[j].at < KeptUntil(calls[i].request, calls[i].at)
    ensures !CarriedOut(calls, j)
    ensures calls[j].at < KeptUntil(calls[i].request, calls[i].at) ==> AnsweredAt(calls, j) == AnsweredAt(calls, i)
  {
    var r := calls[i].request;
    if calls[j].at < KeptUntil(r, calls[i].at) {
      KeepsThrough(calls, i, j);
      AllSeenAlike(Met(calls, j).answers, MarksOf(r), calls[j].at,
        Answered(IdempotencyText(r.op), AnsweredAt(calls, i), KeptUntil(r, calls[i].at)));
    }
  }

  /** A marked write with a deadline takes effect at most once in a run, however often it arrives. */
  lemma AtMostOnce(calls: seq<Call>, r: Request)
    requires Monotone(calls) && r.deadline.Some? && MarksOf(r) != []
    ensures forall i, j :: 0 <= i < j < |calls| && calls[i].request == r && calls[j].request == r ==>
      !(CarriedOut(calls, i) && CarriedOut(calls, j))
  {
    forall i, j | 0 <= i < j < |calls| && calls[i].request == r && calls[j].request == r
      ensures !(CarriedOut(calls, i) && CarriedOut(calls, j))
    {
      if CarriedOut(calls, i) { CopiesGetFirstAnswer(calls, i, j); }
    }
  }

  /** What a kept mark says was answered to a call that bore it. */
  ghost predicate From(calls: seq<Call>, m: Mark, a: Answered, e: nat) {
    && e < |calls|
    && m in MarksOf(calls[e].request)
    && a == Answered(
         IdempotencyText(calls[e].request.op), AnsweredAt(calls, e), KeptUntil(calls[e].request, calls[e].at))
    && (CarriedOut(calls, e) || AnsweredAt(calls, e) == Late)
  }

  lemma FromLater(calls: seq<Call>, more: seq<Call>, m: Mark, a: Answered, e: nat)
    requires calls <= more && From(calls, m, a, e)
    ensures From(more, m, a, e)
  {
    Extends(START, calls, more, e);
  }

  /** A mark after a step was there before it, or was left by it. */
  lemma LeftBy(s: Sys, c: Call, m: Mark)
    requires m in Stepped(s, c).state.answers
    ensures var a := Stepped(s, c).state.answers[m];
      || (m in s.state.answers && s.state.answers[m] == a)
      || (m in MarksOf(c.request) && (Executes(s.state, c.request, c.at) || Took(s, c).answer == Late)
          && a == Answered(IdempotencyText(c.request.op), Took(s, c).answer, KeptUntil(c.request, c.at)))
  {
    ExecuteParts(s.state, c.request.op, c.at, Naming([], s.last));
  }

  lemma {:induction false} Provenance(calls: seq<Call>, m: Mark)
    requires m in Run(START, calls).state.answers
    ensures exists e :: From(calls, m, Run(START, calls).state.answers[m], e)
  {
    var init, c := calls[..|calls| - 1], calls[|calls| - 1];
    var s := Run(START, init);
    var a := Run(START, calls).state.answers[m];
    LeftBy(s, c, m);
    if m in s.state.answers && s.state.answers[m] == a {
      Provenance(init, m);
      var e :| From(init, m, a, e);
      FromLater(init, calls, m, a, e);
    } else {
      assert From(calls, m, a, |calls| - 1);
    }
  }

  /** No other request bears the mark: marks are unguessable, and a client draws one for each write. */
  ghost predicate OwnMark(calls: seq<Call>, r: Request) {
    r.mark.Some? && forall i :: 0 <= i < |calls| && calls[i].request.mark == r.mark ==> calls[i].request == r
  }

  /** The answer a client is given to any copy of its write is that of the one copy carried out. */
  lemma AnswerComesFrom(calls: seq<Call>, r: Request, j: nat) returns (e: nat)
    requires OwnMark(calls, r) && j < |calls| && calls[j].request == r && !(r.op.Batch? && !OnePartition(KeysOf(r.op)))
    requires AnsweredAt(calls, j) != Late
    ensures e <= j && calls[e].request == r && CarriedOut(calls, e) && AnsweredAt(calls, e) == AnsweredAt(calls, j)
  {
    if CarriedOut(calls, j) { return j; }
    var met, now := Met(calls, j), calls[j].at;
    var m, at := BornBy(calls, r, j);
    assert met.answers[m].digest == IdempotencyText(r.op);
    e := at;
  }

  /** A call neither carried out nor late met a mark, and the mark was left by an earlier call. */
  lemma BornBy(calls: seq<Call>, r: Request, j: nat) returns (m: Mark, at: nat)
    requires j < |calls| && calls[j].request == r && !(r.op.Batch? && !OnePartition(KeysOf(r.op)))
    requires OwnMark(calls, r) && !CarriedOut(calls, j) && AnsweredAt(calls, j) != Late
    ensures m in Met(calls, j).answers && From(calls, m, Met(calls, j).answers[m], at)
    ensures at < j && calls[at].request == r
    ensures Seen(Met(calls, j).answers, MarksOf(r), calls[j].at) == Some(Met(calls, j).answers[m])
  {
    var s, now := Met(calls, j), calls[j].at;
    SeenUnlessCarriedOut(s, r, now, Naming([], Before(START, calls, j).last));
    SeenIsOne(s.answers, MarksOf(r), now);
    m :| m in MarksOf(r) && LookAnswer(s.answers, m, now) == Seen(s.answers, MarksOf(r), now);
    at := Bearer(calls, r, j, m);
  }

  lemma SeenUnlessCarriedOut(s: State, r: Request, now: int, n: Naming)
    requires !(r.op.Batch? && !OnePartition(KeysOf(r.op))) && !Executes(s, r, now)
    requires Handle(s, r, now, n).answer != Late
    ensures Seen(s.answers, MarksOf(r), now).Some?
  {
  }

  lemma Bearer(calls: seq<Call>, r: Request, j: nat, m: Mark) returns (at: nat)
    requires j < |calls| && OwnMark(calls, r) && m in MarksOf(r) && m in Met(calls, j).answers
    ensures at < j && calls[at].request == r && From(calls, m, Met(calls, j).answers[m], at)
  {
    var a := Met(calls, j).answers[m];
    Provenance(calls[..j], m);
    at :| From(calls[..j], m, a, at);
    FromLater(calls[..j], calls, m, a, at);
    MarkTells(calls[at].request, r, m);
    assert calls[at].request.mark == r.mark;
  }

  lemma MarkTells(q: Request, r: Request, m: Mark)
    requires m in MarksOf(q) && m in MarksOf(r)
    ensures q.mark == r.mark
  {
  }

  // ---- Versions ----

  ghost predicate VersionsBelow(s: Sys) {
    forall k :: k in s.state.values ==> s.state.values[k].version <= s.last
  }

  /** What a step leaves under a key: what was there, or an entry named after every earlier one. */
  ghost predicate Renewed(was: map<Key, Held>, values: map<Key, Held>, last: nat) {
    forall k :: k in values ==> (k in was && values[k] == was[k]) || values[k].version > last
  }

  lemma {:induction false} WriteAllRenews(values: map<Key, Held>, ws: seq<BatchWrite>, now: int, last: nat)
    requires forall k :: k in values ==> values[k].version <= last
    ensures var done := WriteAll(values, ws, now, Naming([], last));
      && Renewed(values, done.values, last) && done.naming.replayed == [] && last <= done.naming.last
      && (forall k :: k in done.values ==> done.values[k].version <= done.naming.last)
  {
    if ws != [] { WriteAllRenews(values, ws[..|ws| - 1], now, last); }
  }

  lemma StepRenews(s: Sys, c: Call)
    requires VersionsBelow(s)
    ensures Renewed(s.state.values, Stepped(s, c).state.values, s.last)
    ensures VersionsBelow(Stepped(s, c)) && s.last <= Stepped(s, c).last
  {
    HandleParts(s.state, c.request, c.at, Naming([], s.last));
    ExecuteRenews(s.state, c.request.op, c.at, s.last);
  }

  lemma ExecuteRenews(s: State, op: Op, now: int, last: nat)
    requires forall k :: k in s.values ==> s.values[k].version <= last
    ensures var done := Execute(s, op, now, Naming([], last));
      && Renewed(s.values, done.state.values, last) && last <= done.naming.last
      && (forall k :: k in done.state.values ==> done.state.values[k].version <= done.naming.last)
  {
    if op.Batch? || op.BatchAcross? { WriteAllRenews(s.values, op.writes, now, last); }
  }

  lemma StepBelow(calls: seq<Call>, e: nat)
    requires e < |calls| && VersionsBelow(Before(START, calls, e))
    ensures VersionsBelow(Before(START, calls, e + 1))
  {
    RunPrefix(START, calls, e);
    StepRenews(Before(START, calls, e), calls[e]);
  }

  lemma {:induction false} RunBelow(calls: seq<Call>, e: nat)
    requires e <= |calls|
    ensures VersionsBelow(Before(START, calls, e))
  {
    if e > 0 {
      RunBelow(calls, e - 1);
      StepBelow(calls, e - 1);
    }
  }

  /** From call `i` to call `e`, what was there stayed or was named after every earlier entry. */
  ghost predicate RenewedTill(calls: seq<Call>, i: nat, e: nat)
    requires i <= |calls| && e <= |calls|
  {
    && Renewed(Met(calls, i).values, Met(calls, e).values, Before(START, calls, i).last)
    && Before(START, calls, i).last <= Before(START, calls, e).last
  }

  lemma RenewedOn(calls: seq<Call>, i: nat, e: nat)
    requires i <= e < |calls| && RenewedTill(calls, i, e) && VersionsBelow(Before(START, calls, e))
    ensures RenewedTill(calls, i, e + 1)
  {
    RunPrefix(START, calls, e);
    StepRenews(Before(START, calls, e), calls[e]);
  }

  lemma {:induction false} RunRenews(calls: seq<Call>, i: nat, e: nat)
    requires i <= e <= |calls|
    ensures RenewedTill(calls, i, e)
    decreases e
  {
    if i < e {
      RunRenews(calls, i, e - 1);
      RunBelow(calls, e - 1);
      RenewedOn(calls, i, e - 1);
    }
  }

  lemma RenewedSame(calls: seq<Call>, i: nat, e: nat, k: Key)
    requires i <= e <= |calls| && k in Met(calls, i).values && k in Met(calls, e).values
    requires Met(calls, i).values[k].version == Met(calls, e).values[k].version
    ensures Met(calls, i).values[k] == Met(calls, e).values[k]
  {
    RunBelow(calls, i);
    RunRenews(calls, i, e);
  }

  /** A version met again under a key is the very entry first met: a key never comes back to an old one. */
  lemma VersionMeansEntry(calls: seq<Call>, i: nat, e: nat, k: Key)
    requires i <= |calls| && e <= |calls|
    requires k in Met(calls, i).values && k in Met(calls, e).values
    requires Met(calls, i).values[k].version == Met(calls, e).values[k].version
    ensures Met(calls, i).values[k] == Met(calls, e).values[k]
  {
    if i <= e { RenewedSame(calls, i, e, k); } else { RenewedSame(calls, e, i, k); }
  }
}
