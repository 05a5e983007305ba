/** A request touches only the spaces of its keys, and carried out again with the versions it named, it
    does the same again: what lets a log of writes be replayed, whole or for some spaces only. */
module Locality {
  import opened Wrappers
  import opened Json
  import opened Contract
  import opened Store

  // ---- Carried out again with the versions named ----

  /** The versions counted after `n`, up to `m`. */
  function VersionsAfter(n: nat, m: nat): (r: seq<Version>)
    requires n <= m
    ensures |r| == m - n && forall i :: 0 <= i < |r| ==> r[i] == n + 1 + i
  {
    seq(m - n, i requires 0 <= i < m - n => n + 1 + i)
  }

  /** Names `p` versions, whether counting them or given them, and with some given to spare or none. */
  lemma {:induction false} WriteAllAgain(
    values: map<Key, Held>, ws: seq<BatchWrite>, now: int, n: nat, spare: seq<Version>, m: nat)
    ensures var counting := WriteAll(values, ws, now, Naming([], n));
      && counting.naming.replayed == [] && n <= counting.naming.last
      && WriteAll(values, ws, now, Naming(VersionsAfter(n, counting.naming.last) + spare, m))
        == counting.(naming := Naming(spare, m))
  {
    var counting := WriteAll(values, ws, now, Naming([], n));
    if ws == [] {
      assert VersionsAfter(n, n) + spare == spare;
    } else {
      var init, w := ws[..|ws| - 1], ws[|ws| - 1];
      var before := WriteAll(values, init, now, Naming([], n));
      WriteAllAgain(values, init, now, n, [], m);
      if w.Remove? {
        WriteAllAgain(values, init, now, n, spare, m);
      } else {
        var next := [before.naming.last + 1] + spare;
        WriteAllAgain(values, init, now, n, next, m);
        assert VersionsAfter(n, before.naming.last) + next == VersionsAfter(n, counting.naming.last) + spare;
        assert next[1..] == spare;
      }
    }
  }

  lemma ExecuteAgain(s: State, op: Op, now: int, n: nat, m: nat)
    ensures var counting := Execute(s, op, now, Naming([], n));
      && counting.naming.replayed == [] && n <= counting.naming.last
      && Execute(s, op, now, Naming(VersionsAfter(n, counting.naming.last), m)) == counting.(naming := Naming([], m))
  {
    if op.Batch? || op.BatchAcross? {
      WriteAllAgain(s.values, op.writes, now, n, [], m);
      var counting := WriteAll(s.values, op.writes, now, Naming([], n));
      assert VersionsAfter(n, counting.naming.last) + [] == VersionsAfter(n, counting.naming.last);
    }
    assert VersionsAfter(n, n) == [];
    assert VersionsAfter(n, n + 1) == [n + 1];
  }

  /** A request taken again, at its time and with the versions it named, is answered and leaves all the same. */
  lemma HandleAgain(s: State, r: Request, now: int, n: nat, m: nat)
    ensures var counting := Handle(s, r, now, Naming([], n));
      && counting.naming.replayed == [] && n <= counting.naming.last
      && Handle(s, r, now, Naming(VersionsAfter(n, counting.naming.last), m)) == counting.(naming := Naming([], m))
  {
    ExecuteAgain(s, r.op, now, n, m);
    assert VersionsAfter(n, n) == [];
  }

  lemma {:induction false} WriteAllCounts(
    values: map<Key, Held>, ws: seq<BatchWrite>, now: int, vs: seq<Version>, n: nat, m: nat)
    ensures n <= WriteAll(values, ws, now, Naming(vs, n)).naming.last
    ensures var given := WriteAll(values, ws, now, Naming(vs, n));
      given.naming.last == n ==>
        WriteAll(values, ws, now, Naming(vs, m)) == given.(naming := Naming(given.naming.replayed, m))
  {
    if ws != [] { WriteAllCounts(values, ws[..|ws| - 1], now, vs, n, m); }
  }

  lemma ExecuteGiven(s: State, op: Op, now: int, vs: seq<Version>, n: nat, m: nat)
    requires Execute(s, op, now, Naming(vs, n)).naming == Naming([], n)
    ensures Execute(s, op, now, Naming(vs, m)) == Execute(s, op, now, Naming(vs, n)).(naming := Naming([], m))
  {
    if op.Batch? || op.BatchAcross? { WriteAllCounts(s.values, op.writes, now, vs, n, m); }
  }

  /** Where the versions given are all used and none is counted, the count does not matter. */
  lemma HandleGiven(s: State, r: Request, now: int, vs: seq<Version>, n: nat, m: nat)
    requires Handle(s, r, now, Naming(vs, n)).naming == Naming([], n)
    ensures Handle(s, r, now, Naming(vs, m)) == Handle(s, r, now, Naming(vs, n)).(naming := Naming([], m))
  {
    if Executes(s, r, now) { ExecuteGiven(s, r.op, now, vs, n, m); }
  }

  /** What is written by versions given alone is named by those. */
  lemma {:induction false} WriteAllNames(
    values: map<Key, Held>, ws: seq<BatchWrite>, now: int, vs: seq<Version>, n: nat)
    requires WriteAll(values, ws, now, Naming(vs, n)).naming.last == n
    ensures var done := WriteAll(values, ws, now, Naming(vs, n));
      && (forall v :: v in done.naming.replayed ==> v in vs)
      && forall k :: k in done.values ==> (k in values && done.values[k] == values[k]) || done.values[k].version in vs
  {
    if ws != [] {
      WriteAllCounts(values, ws[..|ws| - 1], now, vs, n, n);
      WriteAllNames(values, ws[..|ws| - 1], now, vs, n);
    }
  }

  lemma HandleNames(s: State, r: Request, now: int, vs: seq<Version>, n: nat)
    requires Handle(s, r, now, Naming(vs, n)).naming.last == n
    ensures var after := Handle(s, r, now, Naming(vs, n)).state.values;
      forall k :: k in after ==> (k in s.values && after[k] == s.values[k]) || after[k].version in vs
  {
    HandleParts(s, r, now, Naming(vs, n));
    if Executes(s, r, now) { ExecuteNames(s, r.op, now, vs, n); }
  }

  lemma ExecuteNames(s: State, op: Op, now: int, vs: seq<Version>, n: nat)
    requires Execute(s, op, now, Naming(vs, n)).naming.last == n
    ensures var after := Execute(s, op, now, Naming(vs, n)).state.values;
      forall k :: k in after ==> (k in s.values && after[k] == s.values[k]) || after[k].version in vs
  {
    if (op.Batch? || op.BatchAcross?) && FirstUnmet(s.values, op.conditions, now, 0).None? {
      WriteAllNames(s.values, op.writes, now, vs, n);
    }
  }

  // ---- Some spaces only ----

  function ValuesIn(values: map<Key, Held>, kept: set<string>): map<Key, Held> {
    map k | k in values && k.space in kept :: values[k]
  }

  function CountersIn(counters: map<Key, Counter>, kept: set<string>): map<Key, Counter> {
    map k | k in counters && k.space in kept :: counters[k]
  }

  function AnswersIn(answers: map<Mark, Answered>, kept: set<string>): map<Mark, Answered> {
    map m | m in answers && m.partition.space in kept :: answers[m]
  }

  /** What the store holds of these spaces. */
  function InSpaces(s: State, kept: set<string>): State {
    State(ValuesIn(s.values, kept), CountersIn(s.counters, kept), AnswersIn(s.answers, kept))
  }

  predicate KeysIn(ks: seq<Key>, kept: set<string>) { forall k :: k in ks ==> k.space in kept }

  predicate KeysOut(ks: seq<Key>, kept: set<string>) { forall k :: k in ks ==> k.space !in kept }

  lemma LookIn(values: map<Key, Held>, kept: set<string>, k: Key, now: int)
    requires k.space in kept
    ensures Look(ValuesIn(values, kept), k, now) == Look(values, k, now)
  {
  }

  lemma {:induction false} UnmetIn(values: map<Key, Held>, kept: set<string>, cs: seq<Condition>, now: int, from: nat)
    requires from <= |cs| && forall i :: 0 <= i < |cs| ==> cs[i].key.space in kept
    ensures FirstUnmet(ValuesIn(values, kept), cs, now, from) == FirstUnmet(values, cs, now, from)
    decreases |cs| - from
  {
    if from < |cs| {
      LookIn(values, kept, cs[from].key, now);
      UnmetIn(values, kept, cs, now, from + 1);
    }
  }

  lemma PlacedIn(values: map<Key, Held>, kept: set<string>, k: Key, v: Json, e: Expiry, now: int, version: Version)
    ensures k.space in kept ==>
      Placed(ValuesIn(values, kept), k, v, e, now, version) == ValuesIn(Placed(values, k, v, e, now, version), kept)
    ensures k.space !in kept ==> ValuesIn(Placed(values, k, v, e, now, version), kept) == ValuesIn(values, kept)
  {
  }

  lemma RemovedIn(values: map<Key, Held>, kept: set<string>, k: Key)
    ensures ValuesIn(values - {k}, kept) ==
      if k.space in kept then ValuesIn(values, kept) - {k} else ValuesIn(values, kept)
  {
  }

  lemma {:induction false} WriteAllIn(
    values: map<Key, Held>, kept: set<string>, ws: seq<BatchWrite>, now: int, n: Naming)
    requires forall i :: 0 <= i < |ws| ==> ws[i].key.space in kept
    ensures var done := WriteAll(values, ws, now, n);
      WriteAll(ValuesIn(values, kept), ws, now, n) == done.(values := ValuesIn(done.values, kept))
  {
    if ws != [] {
      var init, w := ws[..|ws| - 1], ws[|ws| - 1];
      WriteAllIn(values, kept, init, now, n);
      var done := WriteAll(values, init, now, n);
      match w
      case Remove(k) => RemovedIn(done.values, kept, k);
      case Put(k, v, e) => PlacedIn(done.values, kept, k, v, e, now, Named(done.naming));
    }
  }

  lemma {:induction false} WriteAllOut(
    values: map<Key, Held>, kept: set<string>, ws: seq<BatchWrite>, now: int, n: Naming)
    requires forall i :: 0 <= i < |ws| ==> ws[i].key.space !in kept
    ensures ValuesIn(WriteAll(values, ws, now, n).values, kept) == ValuesIn(values, kept)
  {
    if ws != [] {
      var init, w := ws[..|ws| - 1], ws[|ws| - 1];
      WriteAllOut(values, kept, init, now, n);
      var done := WriteAll(values, init, now, n);
      match w
      case Remove(k) => RemovedIn(done.values, kept, k);
      case Put(k, v, e) => PlacedIn(done.values, kept, k, v, e, now, Named(done.naming));
    }
  }

  lemma BatchKeys(op: Op)
    requires op.Batch? || op.BatchAcross?
    ensures forall i :: 0 <= i < |op.conditions| ==> op.conditions[i].key in KeysOf(op)
    ensures forall i :: 0 <= i < |op.writes| ==> op.writes[i].key in KeysOf(op)
  {
    var ks := KeysOf(op);
    forall i | 0 <= i < |op.conditions| ensures op.conditions[i].key in ks { assert ks[i] == op.conditions[i].key; }
    forall i | 0 <= i < |op.writes| ensures op.writes[i].key in ks {
      assert ks[|op.conditions| + i] == op.writes[i].key;
    }
  }

  lemma ExecuteIn(s: State, kept: set<string>, op: Op, now: int, n: Naming)
    requires KeysIn(KeysOf(op), kept)
    ensures var done := Execute(s, op, now, n);
      Execute(InSpaces(s, kept), op, now, n) == done.(state := InSpaces(done.state, kept))
  {
    if op.Batch? || op.BatchAcross? {
      BatchKeys(op);
      UnmetIn(s.values, kept, op.conditions, now, 0);
      WriteAllIn(s.values, kept, op.writes, now, n);
    } else {
      SingleIn(s, kept, op, now, n);
    }
  }

  lemma SingleIn(s: State, kept: set<string>, op: Op, now: int, n: Naming)
    requires !op.Batch? && !op.BatchAcross? && KeysIn(KeysOf(op), kept)
    ensures var done := Execute(s, op, now, n);
      Execute(InSpaces(s, kept), op, now, n) == done.(state := InSpaces(done.state, kept))
  {
    var k := op.key;
    assert k in KeysOf(op);
    LookIn(s.values, kept, k, now);
    RemovedIn(s.values, kept, k);
    match op {
      case PutIfAbsent(_, v, e) => PlacedIn(s.values, kept, k, v, e, now, Named(n));
      case ReplaceIf(_, _, v, e) => PlacedIn(s.values, kept, k, v, e, now, Named(n));
      case Count(_, ms, limit) => CountedIn(s, kept, k, ms, limit, now, n);
      case _ =>
    }
  }

  lemma CountedIn(s: State, kept: set<string>, k: Key, ms: nat, limit: nat, now: int, n: Naming)
    requires k.space in kept
    ensures var done := Execute(s, Count(k, ms, limit), now, n);
      Execute(InSpaces(s, kept), Count(k, ms, limit), now, n) == done.(state := InSpaces(done.state, kept))
  {
    var held := LookCounter(s.counters, k, now);
    assert LookCounter(CountersIn(s.counters, kept), k, now) == held;
    CounterSetIn(s.counters, kept, k, Next(held, ms, now));
  }

  function Next(held: Option<Counter>, ms: nat, now: int): Counter {
    if held.None? then Counter(1, now + ms) else Counter(held.value.count + 1, held.value.resetAt)
  }

  lemma CounterSetIn(counters: map<Key, Counter>, kept: set<string>, k: Key, c: Counter)
    ensures k.space in kept ==> CountersIn(counters, kept)[k := c] == CountersIn(counters[k := c], kept)
    ensures k.space !in kept ==> CountersIn(counters[k := c], kept) == CountersIn(counters, kept)
  {
  }

  lemma ExecuteOut(s: State, kept: set<string>, op: Op, now: int, n: Naming)
    requires KeysOut(KeysOf(op), kept)
    ensures InSpaces(Execute(s, op, now, n).state, kept) == InSpaces(s, kept)
  {
    if op.Batch? || op.BatchAcross? {
      BatchKeys(op);
      WriteAllOut(s.values, kept, op.writes, now, n);
    } else {
      SingleOut(s, kept, op, now, n);
    }
  }

  lemma SingleOut(s: State, kept: set<string>, op: Op, now: int, n: Naming)
    requires !op.Batch? && !op.BatchAcross? && KeysOut(KeysOf(op), kept)
    ensures InSpaces(Execute(s, op, now, n).state, kept) == InSpaces(s, kept)
  {
    var k := op.key;
    assert k in KeysOf(op);
    RemovedIn(s.values, kept, k);
    match op {
      case PutIfAbsent(_, v, e) => PlacedIn(s.values, kept, k, v, e, now, Named(n));
      case ReplaceIf(_, _, v, e) => PlacedIn(s.values, kept, k, v, e, now, Named(n));
      case Count(_, _, _) => CountedOut(s, kept, op, now, n);
      case _ =>
    }
  }

  lemma CountedOut(s: State, kept: set<string>, op: Op, now: int, n: Naming)
    requires op.Count? && op.key.space !in kept
    ensures InSpaces(Execute(s, op, now, n).state, kept) == InSpaces(s, kept)
  {
    CounterSetIn(s.counters, kept, op.key, Next(LookCounter(s.counters, op.key, now), op.ms, now));
  }

  lemma MarksInKeys(r: Request, m: Mark)
    requires m in MarksOf(r)
    ensures exists k :: k in KeysOf(r.op) && PartitionOf(k) == m.partition
  {
    var i :| 0 <= i < |MarkedIn(r.op)| && m == Mark(MarkedIn(r.op)[i], r.mark.value);
    if r.op.BatchAcross? {
      assert m.partition in PartitionsOf(KeysOf(r.op));
      var j :| 0 <= j < |KeysOf(r.op)| && PartitionOf(KeysOf(r.op)[j]) == m.partition;
      assert KeysOf(r.op)[j] in KeysOf(r.op);
    } else {
      assert KeysOf(r.op)[0] in KeysOf(r.op);
    }
  }

  lemma {:induction false} SeenIn(answers: map<Mark, Answered>, kept: set<string>, marks: seq<Mark>, now: int)
    requires forall m :: m in marks ==> m.partition.space in kept
    ensures Seen(AnswersIn(answers, kept), marks, now) == Seen(answers, marks, now)
  {
    if marks != [] {
      assert marks[0] in marks;
      SeenIn(answers, kept, marks[1..], now);
    }
  }

  lemma SameGuards(s: State, kept: set<string>, r: Request, now: int)
    requires KeysIn(KeysOf(r.op), kept)
    ensures Executes(InSpaces(s, kept), r, now) == Executes(s, r, now)
    ensures Seen(InSpaces(s, kept).answers, MarksOf(r), now) == Seen(s.answers, MarksOf(r), now)
    ensures forall m :: m in MarksOf(r) ==> m.partition.space in kept
  {
    forall m | m in MarksOf(r) ensures m.partition.space in kept { MarksInKeys(r, m); }
    SeenIn(s.answers, kept, MarksOf(r), now);
  }

  lemma RefusedIn(s: State, kept: set<string>, r: Request, now: int, n: Naming)
    requires KeysIn(KeysOf(r.op), kept) && !Executes(s, r, now)
    ensures var h := Handle(s, r, now, n);
      Handle(InSpaces(s, kept), r, now, n) == h.(state := InSpaces(h.state, kept))
  {
    SameGuards(s, kept, r, now);
    RememberedIn(s, kept, r, Late, now);
  }

  /** Asked of the kept spaces only, a request of theirs is answered the same, and leaves the same in them. */
  lemma HandleIn(s: State, kept: set<string>, r: Request, now: int, n: Naming)
    requires KeysIn(KeysOf(r.op), kept)
    ensures var h := Handle(s, r, now, n);
      Handle(InSpaces(s, kept), r, now, n) == h.(state := InSpaces(h.state, kept))
  {
    if Executes(s, r, now) {
      SameGuards(s, kept, r, now);
      ExecuteIn(s, kept, r.op, now, n);
      var done := Execute(s, r.op, now, n);
      RememberedIn(done.state, kept, r, done.answer, now);
    } else {
      RefusedIn(s, kept, r, now, n);
    }
  }

  lemma RememberedIn(t: State, kept: set<string>, r: Request, a: Answer, now: int)
    requires forall m :: m in MarksOf(r) ==> m.partition.space in kept
    ensures InSpaces(Remembered(t, r, a, now), kept) == Remembered(InSpaces(t, kept), r, a, now)
  {
    KeptIn(t.answers, kept, MarksOf(r), Answered(IdempotencyText(r.op), a, KeptUntil(r, now)));
  }

  lemma KeptIn(answers: map<Mark, Answered>, kept: set<string>, marks: seq<Mark>, a: Answered)
    ensures (forall m :: m in marks ==> m.partition.space in kept) ==>
      AnswersIn(Kept(answers, marks, a), kept) == Kept(AnswersIn(answers, kept), marks, a)
    ensures (forall m :: m in marks ==> m.partition.space !in kept) ==>
      AnswersIn(Kept(answers, marks, a), kept) == AnswersIn(answers, kept)
  {
  }

  /** A request of other spaces leaves nothing in the kept ones. */
  lemma HandleOut(s: State, kept: set<string>, r: Request, now: int, n: Naming)
    requires KeysOut(KeysOf(r.op), kept)
    ensures InSpaces(Handle(s, r, now, n).state, kept) == InSpaces(s, kept)
  {
    forall m | m in MarksOf(r) ensures m.partition.space !in kept { MarksInKeys(r, m); }
    if Executes(s, r, now) {
      var done := Execute(s, r.op, now, n);
      ExecuteOut(s, kept, r.op, now, n);
      RememberedOut(done.state, kept, r, done.answer, now);
    } else {
      RememberedOut(s, kept, r, Late, now);
    }
  }

  lemma RememberedOut(t: State, kept: set<string>, r: Request, a: Answer, now: int)
    requires forall m :: m in MarksOf(r) ==> m.partition.space !in kept
    ensures InSpaces(Remembered(t, r, a, now), kept) == InSpaces(t, kept)
  {
    KeptIn(t.answers, kept, MarksOf(r), Answered(IdempotencyText(r.op), a, KeptUntil(r, now)));
  }
}
