/** Records changed as one over the store: everything read is held by a condition of the one write, so
    another writer of any of it first makes the change read all again and decide again. */
module Together {
  import opened Wrappers
  import opened Json
  import opened Contract
  import opened Store
  import opened Marks
  import opened Serial
  import opened Effects
  import opened Works
  import opened Wire
  import opened Records

  datatype AllChanged = ChangedAll(targets: seq<Changed>, watched: seq<Changed>)

  /** At this instant everything the change read was as it read it; it left what it decided, and nothing else. */
  ghost predicate ChangedAt(calls: seq<Call>, e: nat, txn: Txn, answer: AllChanged) {
    && e < |calls|
    && var step := TxnStep(ViewAt(calls, e), calls[e].at, txn);
      step == Some(TxnDone(ViewAt(calls, e + 1), answer.targets, answer.watched))
  }

  /** Changed whole at one instant since call `from`, by that call alone of all that bear these requests. */
  ghost predicate ChangedFrom(calls: seq<Call>, from: nat, txn: Txn, answer: AllChanged, rs: set<Request>) {
    exists e: nat :: from <= e && ChangedAt(calls, e, txn, answer) && OnlyAt(calls, rs, e)
  }

  lemma ChangedMore(
    calls: seq<Call>, from: nat, earlier: nat, txn: Txn, answer: AllChanged, rs: set<Request>, all: set<Request>)
    requires earlier <= from && ChangedFrom(calls, from, txn, answer, rs) && rs <= all
    requires forall r :: r in all && r !in rs ==> Inert(calls, r)
    ensures ChangedFrom(calls, earlier, txn, answer, all)
  {
    var e: nat :| from <= e && ChangedAt(calls, e, txn, answer) && OnlyAt(calls, rs, e);
    InertsBeside(calls, all, rs, e);
  }

  // ---- Reading ----

  ghost predicate AllRead(calls: seq<Call>, held: seq<HeldRead>) {
    forall h :: h in held ==> WasRead(calls, RecordKey(h.target), h.entry)
  }

  lemma AllReadLater(was: seq<Call>, calls: seq<Call>, held: seq<HeldRead>)
    requires was <= calls && AllRead(was, held)
    ensures AllRead(calls, held)
  {
    forall h | h in held ensures WasRead(calls, RecordKey(h.target), h.entry) {
      StillRead(was, calls, RecordKey(h.target), h.entry);
    }
  }

  /** Where the first record read for the target is. */
  function IndexOf(held: seq<HeldRead>, x: Target): (r: Option<nat>)
    ensures r.Some? ==> r.value < |held| && held[r.value].target == x
    ensures r.None? ==> forall i :: 0 <= i < |held| ==> held[i].target != x
  {
    if held == [] then None
    else
      var before := IndexOf(held[..|held| - 1], x);
      if before.Some? then before
      else if held[|held| - 1].target == x then Some(|held| - 1)
      else None
  }

  /** One more record read, of a target not read before. */
  lemma ReadMore(calls: seq<Call>, held: seq<HeldRead>, h: HeldRead)
    requires AllRead(calls, held) && DistinctReads(held) && IndexOf(held, h.target).None?
    requires WasRead(calls, RecordKey(h.target), h.entry)
    ensures AllRead(calls, held + [h]) && DistinctReads(held + [h])
    ensures IndexOf(held + [h], h.target).Some?
    ensures forall x :: IndexOf(held, x).Some? ==> IndexOf(held + [h], x).Some?
  {
    assert (held + [h])[..|held|] == held;
  }

  method ReadOne(line: Line, x: Target) returns (h: Option<HeldRead>)
    requires line.Valid()
    modifies line`calls, line`longest, line`now, line`turns
    ensures line.Valid() && line.Grew()
    ensures h.Some? ==> h.value.target == x && WasRead(line.calls, RecordKey(x), h.value.entry)
  {
    var read := line.Get(RecordKey(x));
    if read.None? { return None; }
    ReadJustNow(line, RecordKey(x), read.value.entry);
    return Some(HeldRead(x, read.value.entry));
  }

  method ReadTargets(line: Line, targets: seq<Target>) returns (held: Option<seq<HeldRead>>)
    requires line.Valid()
    modifies line`calls, line`longest, line`now, line`turns
    ensures line.Valid() && line.Grew()
    ensures held.Some? ==> |held.value| == |targets| && AllRead(line.calls, held.value)
    ensures held.Some? ==> forall i :: 0 <= i < |targets| ==> held.value[i].target == targets[i]
  {
    var got: seq<HeldRead> := [];
    var i := 0;
    while i < |targets|
      invariant line.Valid() && line.Grew() && i == |got| <= |targets| && AllRead(line.calls, got)
      invariant forall j :: 0 <= j < i ==> got[j].target == targets[j]
    {
      ghost var was := line.calls;
      var h := ReadOne(line, targets[i]);
      if h.None? { return None; }
      AllReadLater(was, line.calls, got);
      got := got + [h.value];
      i := i + 1;
    }
    return Some(got);
  }

  /** Reads the record unless it is read already. */
  method ReadUnlessHeld(line: Line, held: seq<HeldRead>, x: Target) returns (all: Option<seq<HeldRead>>)
    requires line.Valid() && AllRead(line.calls, held) && DistinctReads(held)
    modifies line`calls, line`longest, line`now, line`turns
    ensures line.Valid() && line.Grew()
    ensures all.Some? ==> held <= all.value && AllRead(line.calls, all.value) && DistinctReads(all.value)
    ensures all.Some? ==> IndexOf(all.value, x).Some?
    ensures all.Some? ==> forall y :: IndexOf(held, y).Some? ==> IndexOf(all.value, y).Some?
  {
    if IndexOf(held, x).Some? { return Some(held); }
    var h := ReadOne(line, x);
    if h.None? { return None; }
    AllReadLater(old(line.calls), line.calls, held);
    ReadMore(line.calls, held, h.value);
    return Some(held + [h.value]);
  }

  /** Reads what the watch names besides, each record once. */
  method ReadWatched(line: Line, held: seq<HeldRead>, named: seq<Target>) returns (all: Option<seq<HeldRead>>)
    requires line.Valid() && AllRead(line.calls, held) && DistinctReads(held)
    modifies line`calls, line`longest, line`now, line`turns
    ensures line.Valid() && line.Grew()
    ensures all.Some? ==> held <= all.value && AllRead(line.calls, all.value) && DistinctReads(all.value)
    ensures all.Some? ==> forall x :: x in named ==> IndexOf(all.value, x).Some?
  {
    var got := held;
    var i := 0;
    while i < |named|
      invariant line.Valid() && line.Grew() && i <= |named| && AllRead(line.calls, got) && DistinctReads(got)
      invariant held <= got && forall j :: 0 <= j < i ==> IndexOf(got, named[j]).Some?
    {
      var more := ReadUnlessHeld(line, got, named[i]);
      if more.None? { return None; }
      got := more.value;
      i := i + 1;
    }
    return Some(got);
  }

  // ---- Deciding ----

  function Values(held: seq<HeldRead>): (r: seq<Option<Json>>)
    ensures |r| == |held|
  {
    seq(|held|, i requires 0 <= i < |held| => ReadValue(held[i].entry))
  }

  function ValueOf(held: seq<HeldRead>, x: Target): Option<Json> {
    var at := IndexOf(held, x);
    if at.Some? then ReadValue(held[at.value].entry) else None
  }

  function Found(held: seq<HeldRead>, named: seq<Target>): (r: seq<Option<Json>>)
    ensures |r| == |named|
  {
    seq(|named|, i requires 0 <= i < |named| => ValueOf(held, named[i]))
  }

  /** The decisions by place, against those by record. */
  ghost predicate PlacedAs(held: seq<HeldRead>, nexts: seq<Option<Next>>, m: map<Target, Next>) {
    && |nexts| == |held|
    && (forall i :: 0 <= i < |held| ==> nexts[i] == if held[i].target in m then Some(m[held[i].target]) else None)
    && (forall x :: x in m ==> IndexOf(held, x).Some?)
  }

  /** Sets each decision at its record's place, over one list of namings; none when a record is written twice. */
  method SetNexts(
    held: seq<HeldRead>, start: seq<Option<Next>>, ghost m: map<Target, Next>, named: seq<Target>,
    decided: seq<Option<Next>>)
    returns (nexts: Option<seq<Option<Next>>>)
    requires DistinctReads(held) && PlacedAs(held, start, m)
    requires forall x :: x in named ==> IndexOf(held, x).Some?
    ensures nexts.None? <==> Gather(m, named, decided, |named|).None?
    ensures nexts.Some? ==> PlacedAs(held, nexts.value, Gather(m, named, decided, |named|).value)
  {
    var placed := start;
    var n := 0;
    while n < |named|
      invariant n <= |named| && Gather(m, named, decided, n).Some?
      invariant PlacedAs(held, placed, Gather(m, named, decided, n).value)
    {
      var next := NextAt(decided, n);
      if next.Some? {
        assert named[n] in named;
        var at := IndexOf(held, named[n]).value;
        if placed[at].Some? {
          GatherFails(m, named, decided, n + 1, |named|);
          return None;
        }
        placed := placed[at := next];
      }
      n := n + 1;
    }
    return Some(placed);
  }

  lemma {:induction false} GatherFails(
    m: map<Target, Next>, named: seq<Target>, decided: seq<Option<Next>>, n: nat, more: nat)
    requires n <= more <= |named| && Gather(m, named, decided, n).None?
    ensures Gather(m, named, decided, more).None?
    decreases more
  {
    if n < more { GatherFails(m, named, decided, n, more - 1); }
  }

  lemma PlacedIsNexts(held: seq<HeldRead>, nexts: seq<Option<Next>>, m: map<Target, Next>)
    requires DistinctReads(held) && PlacedAs(held, nexts, m)
    ensures NextsOf(held, nexts) == m
  {
    var got := NextsOf(held, nexts);
    forall x ensures x in got <==> x in m {
      if x in m { assert held[IndexOf(held, x).value].target == x; }
    }
    forall x | x in m ensures got[x] == m[x] { assert held[IndexOf(held, x).value].target == x; }
  }

  function ReadOf(txn: Txn, held: seq<HeldRead>): seq<Option<Json>>
    requires |txn.targets| <= |held|
  {
    Values(held[..|txn.targets|])
  }

  function NamedOf(txn: Txn, held: seq<HeldRead>): seq<Target>
    requires |txn.targets| <= |held|
  {
    txn.watch(ReadOf(txn, held))
  }

  function DecisionsOf(txn: Txn, held: seq<HeldRead>): Decisions
    requires |txn.targets| <= |held|
  {
    txn.decide(ReadOf(txn, held), Found(held, NamedOf(txn, held)))
  }

  /** Everything the change needs was read, each record once, the targets first. */
  ghost predicate ReadFor(txn: Txn, held: seq<HeldRead>) {
    && |txn.targets| <= |held| && DistinctReads(held)
    && (forall i :: 0 <= i < |txn.targets| ==> held[i].target == txn.targets[i])
    && (forall x :: x in NamedOf(txn, held) ==> IndexOf(held, x).Some?)
  }

  /** Held as read, everything stands at this view and time. */
  ghost predicate Stands(view: View, t: int, held: seq<HeldRead>) {
    forall h :: h in held ==> LiveValue(view, RecordKey(h.target), t) == ReadValue(h.entry)
  }

  /** Where what was read stands, the change made at one instant decides the same. */
  lemma DecidesAlike(view: View, t: int, txn: Txn, held: seq<HeldRead>)
    requires ReadFor(txn, held) && Stands(view, t, held)
    ensures ReadAll(view, t, txn.targets) == ReadOf(txn, held)
    ensures ReadAll(view, t, NamedOf(txn, held)) == Found(held, NamedOf(txn, held))
  {
    forall i | 0 <= i < |txn.targets|
      ensures LiveValue(view, RecordKey(txn.targets[i]), t) == ReadOf(txn, held)[i]
    {
      assert held[i] in held;
    }
    var named := NamedOf(txn, held);
    forall i | 0 <= i < |named| ensures LiveValue(view, RecordKey(named[i]), t) == Found(held, named)[i] {
      assert named[i] in named;
      assert held[IndexOf(held, named[i]).value] in held;
    }
  }

  function AnswerFor(txn: Txn, held: seq<HeldRead>, m: map<Target, Next>): AllChanged
    requires |txn.targets| <= |held|
  {
    var named := NamedOf(txn, held);
    ChangedAll(Changes(txn.targets, ReadOf(txn, held), m), Changes(named, Found(held, named), m))
  }

  function AcrossRequest(txn: Txn, held: seq<HeldRead>, nexts: seq<Option<Next>>, deadline: int, mark: string): Request
    requires txn.targets != [] && |held| == |nexts|
  {
    var writes := WritesFor(held, nexts);
    var settled := [Put(SettledKey(RecordKey(txn.targets[0])), Bool(true), After(1))];
    Request(BatchAcross(Conditions(held), if writes != [] then writes else settled), Some(deadline), Some(mark))
  }

  function Conditions(held: seq<HeldRead>): (r: seq<Condition>)
    ensures |r| == |held|
  {
    seq(|held|, i requires 0 <= i < |held| => ConditionFor(held[i]))
  }

  /** At the instant the write was carried out, everything it was conditioned on stood as read. */
  lemma StoodAll(calls: seq<Call>, e: nat, held: seq<HeldRead>, r: Request, answer: Answer)
    requires SettledAt(calls, r, answer, e) && answer.Committed?
    requires r.op.BatchAcross? && r.op.conditions == Conditions(held) && AllRead(calls, held)
    ensures Stands(ViewAt(calls, e), calls[e].at, held)
  {
    BatchInstant(calls, e);
    forall h | h in held ensures LiveValue(ViewAt(calls, e), RecordKey(h.target), calls[e].at) == ReadValue(h.entry) {
      var i :| 0 <= i < |held| && held[i] == h;
      assert r.op.conditions[i] == ConditionFor(h);
      StandsOne(calls, e, h);
    }
  }

  lemma StandsOne(calls: seq<Call>, e: nat, h: HeldRead)
    requires e < |calls| && Holds(Met(calls, e).values, ConditionFor(h), calls[e].at)
    requires WasRead(calls, RecordKey(h.target), h.entry)
    ensures LiveValue(ViewAt(calls, e), RecordKey(h.target), calls[e].at) == ReadValue(h.entry)
  {
    var k := RecordKey(h.target);
    ViewLooks(Met(calls, e).values, k, calls[e].at);
    if h.entry.Some? {
      var i: nat :| i <= |calls| && k in Met(calls, i).values && Met(calls, i).values[k] == h.entry.value;
      ReadStands(calls, i, e, k, h.entry.value);
    }
  }

  lemma {:induction false} NoWritesNoNexts(held: seq<HeldRead>, nexts: seq<Option<Next>>)
    requires |held| == |nexts| && DistinctReads(held) && WritesFor(held, nexts) == []
    ensures NextsOf(held, nexts) == map[]
  {
    if held != [] { NoWritesNoNexts(held[..|held| - 1], nexts[..|held| - 1]); }
  }

  /** What the write left is what was decided, over everything there was. */
  lemma LeftAsDecided(
    calls: seq<Call>, e: nat, txn: Txn, held: seq<HeldRead>, nexts: seq<Option<Next>>, m: map<Target, Next>,
    r: Request, answer: Answer)
    requires SettledAt(calls, r, answer, e) && answer.Committed? && txn.targets != []
    requires DistinctReads(held) && PlacedAs(held, nexts, m)
    requires r.op == AcrossRequest(txn, held, nexts, 0, "").op
    ensures ViewAt(calls, e + 1) == Applied(ViewAt(calls, e), m, calls[e].at)
  {
    BatchInstant(calls, e);
    PlacedIsNexts(held, nexts, m);
    var s, n := Met(calls, e), Naming([], Before(START, calls, e).last);
    if WritesFor(held, nexts) == [] {
      NoWritesNoNexts(held, nexts);
      SettledWritesUnseen(s.values, r.op.writes, calls[e].at, n);
      AppliedNone(ViewOf(s.values), calls[e].at);
    } else {
      WritesApply(s.values, held, nexts, calls[e].at, n);
    }
  }

  lemma ChangeInstant(
    calls: seq<Call>, e: nat, txn: Txn, held: seq<HeldRead>, nexts: seq<Option<Next>>, m: map<Target, Next>,
    r: Request, answer: Answer)
    requires SettledAt(calls, r, answer, e) && answer.Committed? && txn.targets != []
    requires ReadFor(txn, held) && AllRead(calls, held)
    requires GatherAll(txn, NamedOf(txn, held), DecisionsOf(txn, held)) == Some(m) && PlacedAs(held, nexts, m)
    requires r.op == AcrossRequest(txn, held, nexts, 0, "").op
    ensures ChangedAt(calls, e, txn, AnswerFor(txn, held, m))
  {
    StoodAll(calls, e, held, r, answer);
    DecidesAlike(ViewAt(calls, e), calls[e].at, txn, held);
    LeftAsDecided(calls, e, txn, held, nexts, m, r, answer);
  }

  /** What the answer tells of each naming is what its place held and what was decided there. */
  lemma ToldByPlace(held: seq<HeldRead>, nexts: seq<Option<Next>>, m: map<Target, Next>, x: Target)
    requires PlacedAs(held, nexts, m) && IndexOf(held, x).Some?
    ensures nexts[IndexOf(held, x).value] == if x in m then Some(m[x]) else None
  {
  }

  /** What came of each record named, told from its place. */
  method TellChanges(held: seq<HeldRead>, nexts: seq<Option<Next>>, ghost m: map<Target, Next>, named: seq<Target>)
    returns (told: seq<Changed>)
    requires PlacedAs(held, nexts, m) && forall x :: x in named ==> IndexOf(held, x).Some?
    ensures told == Changes(named, Found(held, named), m)
  {
    told := [];
    var i := 0;
    while i < |named|
      invariant i <= |named| && |told| == i
      invariant forall j :: 0 <= j < i ==> told[j] == Changes(named, Found(held, named), m)[j]
    {
      assert named[i] in named;
      ToldByPlace(held, nexts, m, named[i]);
      var at := IndexOf(held, named[i]).value;
      told := told + [ChangedBy(ReadValue(held[at].entry), nexts[at])];
      i := i + 1;
    }
  }

  lemma FoundTargets(txn: Txn, held: seq<HeldRead>)
    requires ReadFor(txn, held)
    ensures forall x :: x in txn.targets ==> IndexOf(held, x).Some?
    ensures Found(held, txn.targets) == ReadOf(txn, held)
  {
    forall i | 0 <= i < |txn.targets| ensures IndexOf(held, txn.targets[i]) == Some(i) {
      var at := IndexOf(held, txn.targets[i]);
      assert held[i].target == txn.targets[i];
    }
  }

  predicate DistinctTargets(ts: seq<Target>) {
    forall i, j :: 0 <= i < j < |ts| ==> ts[i] != ts[j]
  }

  /** Reads everything the change needs; none when the store is unavailable. */
  method ReadForChange(line: Line, txn: Txn) returns (all: Option<seq<HeldRead>>)
    requires line.Valid() && DistinctTargets(txn.targets)
    modifies line`calls, line`longest, line`now, line`turns
    ensures line.Valid() && line.Grew()
    ensures all.Some? ==> ReadFor(txn, all.value) && AllRead(line.calls, all.value)
  {
    var held := ReadTargets(line, txn.targets);
    if held.None? { return None; }
    var named := txn.watch(Values(held.value));
    var got := ReadWatched(line, held.value, named);
    if got.None? { return None; }
    assert got.value[..|txn.targets|] == held.value;
    return got;
  }

  /** Decides by place; none when a record is written twice. */
  method DecideFor(txn: Txn, held: seq<HeldRead>) returns (nexts: Option<seq<Option<Next>>>)
    requires ReadFor(txn, held)
    ensures var m := GatherAll(txn, NamedOf(txn, held), DecisionsOf(txn, held));
      (nexts.None? <==> m.None?) && (nexts.Some? ==> PlacedAs(held, nexts.value, m.value))
  {
    FoundTargets(txn, held);
    var named, decided := NamedOf(txn, held), DecisionsOf(txn, held);
    var none := seq(|held|, _ => None);
    var first := SetNexts(held, none, map[], txn.targets, decided.targets);
    if first.None? { return None; }
    ghost var m := Gather(map[], txn.targets, decided.targets, |txn.targets|).value;
    nexts := SetNexts(held, first.value, m, named, decided.watched);
  }

  lemma AcrossFacts(txn: Txn, held: seq<HeldRead>, nexts: seq<Option<Next>>, deadline: int, mark: string)
    requires txn.targets != [] && |txn.targets| <= |held| == |nexts|
    ensures MarksOf(AcrossRequest(txn, held, nexts, deadline, mark)) != []
  {
    var r := AcrossRequest(txn, held, nexts, deadline, mark);
    assert KeysOf(r.op)[0] == RecordKey(held[0].target);
    assert PartitionOf(KeysOf(r.op)[0]) in PartitionsOf(KeysOf(r.op));
  }

  /** A batch is answered committed, or refused for good. */
  lemma CommittedOrInert(calls: seq<Call>, e: nat, r: Request, answer: Answer)
    requires SettledAt(calls, r, answer, e) && r.op.BatchAcross?
    ensures answer.Committed? || Inert(calls, r)
  {
    CarriedStep(calls, e);
  }

  lemma OnlyCommitsTell(s: State, op: Op, now: int, n: Naming)
    requires op.BatchAcross?
    ensures Wrote(Execute(s, op, now, n).answer) ==> Execute(s, op, now, n).answer.Committed?
  {
  }

  /** The write, whenever a copy of it arrives, makes the whole change or none. */
  lemma ChangeIsWhole(
    calls: seq<Call>, txn: Txn, held: seq<HeldRead>, nexts: seq<Option<Next>>, m: map<Target, Next>, r: Request)
    requires txn.targets != [] && ReadFor(txn, held) && AllRead(calls, held)
    requires GatherAll(txn, NamedOf(txn, held), DecisionsOf(txn, held)) == Some(m) && PlacedAs(held, nexts, m)
    requires r.op == AcrossRequest(txn, held, nexts, 0, "").op && r.deadline.Some? && MarksOf(r) != []
    ensures WholeOnly(calls, {r}, Changing(txn))
  {
    forall future: seq<Call>, i: nat |
      calls <= future && Monotone(future) && i < |future| && future[i].request in {r} && ChangesView(future, i)
      ensures WorkedAt(future, i, Changing(txn))
    {
      ChangeIsSettled(future, r, i);
      CarriedStep(future, i);
      OnlyCommitsTell(Met(future, i), r.op, future[i].at, Naming([], Before(START, future, i).last));
      AllReadLater(calls, future, held);
      ChangeInstant(future, i, txn, held, nexts, m, r, AnsweredAt(future, i));
    }
  }

  /** Sends what was decided, conditioned on everything read. */
  method Commit(
    line: Line, txn: Txn, held: seq<HeldRead>, nexts: seq<Option<Next>>,
    ghost m: map<Target, Next>, deadline: int, mark: string)
    returns (committed: Attempt<()>)
    requires line.Valid() && txn.targets != [] && ReadFor(txn, held) && AllRead(line.calls, held)
    requires GatherAll(txn, NamedOf(txn, held), DecisionsOf(txn, held)) == Some(m) && PlacedAs(held, nexts, m)
    requires mark in line.drawn && forall q :: q in line.sent ==> q.mark != Some(mark)
    modifies line
    ensures line.Valid() && line.Grew() && Tidy(line) && WholeFor(line, Changing(txn))
    ensures committed.None? ==> Nothing(line)
    ensures committed.Some? && committed.value.Done? ==>
      ChangedFrom(line.calls, |old(line.calls)|, txn, AnswerFor(txn, held, m), line.sent - old(line.sent))
  {
    var r := AcrossRequest(txn, held, nexts, deadline, mark);
    AcrossFacts(txn, held, nexts, deadline, mark);
    var reply := SendMarked(line, r);
    AllReadLater(old(line.calls), line.calls, held);
    ChangeIsWhole(line.calls, txn, held, nexts, m, r);
    if Unsettled(reply) { return Some(Unavailable); }
    ghost var e: nat :| |old(line.calls)| <= e && SettledAt(line.calls, r, reply.value, e);
    CommittedOrInert(line.calls, e, r, reply.value);
    if !reply.value.Committed? { return None; }
    ChangeInstant(line.calls, e, txn, held, nexts, m, r, reply.value);
    assert ChangedFrom(line.calls, |old(line.calls)|, txn, AnswerFor(txn, held, m), {r});
    return Some(Done(()));
  }

  /** What is told of each record named, targets first. */
  method Tell(
    txn: Txn, held: seq<HeldRead>, nexts: seq<Option<Next>>, ghost m: map<Target, Next>)
    returns (told: AllChanged)
    requires ReadFor(txn, held) && PlacedAs(held, nexts, m)
    ensures told == AnswerFor(txn, held, m)
  {
    FoundTargets(txn, held);
    var targets := TellChanges(held, nexts, m, txn.targets);
    var watched := TellChanges(held, nexts, m, NamedOf(txn, held));
    return ChangedAll(targets, watched);
  }

  method DecideAndCommit(
    line: Line, txn: Txn, held: seq<HeldRead>, deadline: int, mark: string)
    returns (tried: Attempt<AllChanged>)
    requires line.Valid() && txn.targets != [] && ReadFor(txn, held) && AllRead(line.calls, held)
    requires mark in line.drawn && forall q :: q in line.sent ==> q.mark != Some(mark)
    modifies line
    ensures line.Valid() && line.Grew() && Tidy(line) && WholeFor(line, Changing(txn))
    ensures tried.None? ==> Nothing(line)
    ensures tried.Some? && tried.value.Done? ==>
      ChangedFrom(line.calls, |old(line.calls)|, txn, tried.value.value, line.sent - old(line.sent))
  {
    NothingIsTidy(line, line.sent - old(line.sent), Changing(txn));
    var nexts := DecideFor(txn, held);
    if nexts.None? { return Some(Misused); }
    ghost var m := GatherAll(txn, NamedOf(txn, held), DecisionsOf(txn, held)).value;
    var told := Tell(txn, held, nexts.value, m);
    var committed := Commit(line, txn, held, nexts.value, m, deadline, mark);
    if committed.None? { return None; }
    return Some(if committed.value.Done? then Done(told) else Unavailable);
  }

  /** A mark and a deadline, then everything the change needs. */
  method BeginChange(line: Line, txn: Txn) returns (held: Option<seq<HeldRead>>, deadline: int, mark: string)
    requires line.Valid() && DistinctTargets(txn.targets)
    modifies line`calls, line`longest, line`now, line`turns, line`drawn
    ensures line.Valid() && line.Grew()
    ensures held.Some? ==> ReadFor(txn, held.value) && AllRead(line.calls, held.value)
    ensures held.Some? ==> mark in line.drawn && forall q :: q in line.sent ==> q.mark != Some(mark)
  {
    deadline, mark := 0, "";
    var now := line.Now();
    if now.None? { return None, 0, ""; }
    mark := line.Draw();
    deadline := WriteDeadline(now.value);
    held := ReadForChange(line, txn);
  }

  method ChangeOnce(line: Line, txn: Txn) returns (tried: Attempt<AllChanged>)
    requires line.Valid() && txn.targets != [] && DistinctTargets(txn.targets)
    modifies line
    ensures line.Valid() && line.Grew() && Tidy(line) && WholeFor(line, Changing(txn))
    ensures tried.None? ==> Nothing(line)
    ensures tried.Some? && tried.value.Done? ==>
      ChangedFrom(line.calls, |old(line.calls)|, txn, tried.value.value, line.sent - old(line.sent))
  {
    var held, deadline, mark := BeginChange(line, txn);
    NothingIsTidy(line, line.sent - old(line.sent), Changing(txn));
    if held.None? { return Some(Unavailable); }
    ghost var was := line.calls;
    tried := DecideAndCommit(line, txn, held.value, deadline, mark);
    if tried.Some? && tried.value.Done? {
      ChangedMore(
        line.calls, |was|, |old(line.calls)|, txn, tried.value.value, line.sent - old(line.sent),
        line.sent - old(line.sent));
    }
  }

  /** Changes records as one. Whatever else reaches the store, and whatever is lost, delayed or sent twice:
      an answer is that of the change made whole at one instant of the call, and of all that was sent, ever,
      one write at most takes effect. */
  method ChangeRecords(line: Line, txn: Txn) returns (result: Result<AllChanged>)
    requires line.Valid()
    modifies line
    ensures line.Valid() && line.Grew() && Tidy(line) && WholeFor(line, Changing(txn))
    ensures txn.targets == [] || !DistinctTargets(txn.targets) ==> result == Misused
    ensures result.Done? ==> ChangedFrom(line.calls, |old(line.calls)|, txn, result.value, line.sent - old(line.sent))
  {
    NothingIsTidy(line, line.sent - old(line.sent), Changing(txn));
    if txn.targets == [] || !DistinctTargets(txn.targets) { return Misused; }
    var tried := 0;
    while tried < ATTEMPTS
      invariant line.Valid() && line.Grew() && Nothing(line) && Tidy(line) && WholeFor(line, Changing(txn))
    {
      ghost var was, sent := line.calls, line.sent;
      var answered := ChangeOnce(line, txn);
      Carried(was, line.calls, sent - old(line.sent));
      AttemptIsAll(line.calls, line.sent - old(line.sent), line.sent - sent, Changing(txn));
      if answered.Some? {
        if answered.value.Done? {
          ChangedMore(
            line.calls, |was|, |old(line.calls)|, txn, answered.value.value, line.sent - sent,
            line.sent - old(line.sent));
        }
        return answered.value;
      }
      tried := tried + 1;
    }
    return Unavailable;
  }
}
