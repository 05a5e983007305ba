/** The store in memory: it deletes what has expired on reads and writes, and sweeps everything every so
    many operations. None of it shows. */
module Memory {
  import opened Wrappers
  import opened Json
  import opened Contract
  import opened Store
  import Listing

  const SWEEP_EVERY := 256

  // ---- Stores that answer alike from a time on ----

  ghost predicate AlikeValues(a: map<Key, Held>, b: map<Key, Held>, now: int) {
    forall k :: Look(a, k, now) == Look(b, k, now)
  }

  ghost predicate AlikeCounters(a: map<Key, Counter>, b: map<Key, Counter>, now: int) {
    forall k :: LookCounter(a, k, now) == LookCounter(b, k, now)
  }

  ghost predicate AlikeAnswers(a: map<Mark, Answered>, b: map<Mark, Answered>, now: int) {
    forall m :: LookAnswer(a, m, now) == LookAnswer(b, m, now)
  }

  /** They hold the same live entries, counters and marks; what is dead in either is of no account. */
  ghost predicate Alike(a: State, b: State, now: int) {
    AlikeValues(a.values, b.values, now) && AlikeCounters(a.counters, b.counters, now)
    && AlikeAnswers(a.answers, b.answers, now)
  }

  /** What is dead stays dead: stores alike now are alike at any later time. */
  lemma AlikeLater(a: State, b: State, now: int, later: int)
    requires Alike(a, b, now) && now <= later
    ensures Alike(a, b, later)
  {
    forall k ensures Look(a.values, k, later) == Look(b.values, k, later) {
      assert Look(a.values, k, now) == Look(b.values, k, now);
    }
    forall k ensures LookCounter(a.counters, k, later) == LookCounter(b.counters, k, later) {
      assert LookCounter(a.counters, k, now) == LookCounter(b.counters, k, now);
    }
    forall m ensures LookAnswer(a.answers, m, later) == LookAnswer(b.answers, m, later) {
      assert LookAnswer(a.answers, m, now) == LookAnswer(b.answers, m, now);
    }
  }

  lemma {:induction false} SeenAlike(a: map<Mark, Answered>, b: map<Mark, Answered>, marks: seq<Mark>, now: int)
    requires AlikeAnswers(a, b, now)
    ensures Seen(a, marks, now) == Seen(b, marks, now)
  {
    if marks != [] {
      assert LookAnswer(a, marks[0], now) == LookAnswer(b, marks[0], now);
      SeenAlike(a, b, marks[1..], now);
    }
  }

  lemma PlacedAlike(a: map<Key, Held>, b: map<Key, Held>, k: Key, v: Json, e: Expiry, now: int, version: Version)
    requires AlikeValues(a, b, now)
    ensures AlikeValues(Placed(a, k, v, e, now, version), Placed(b, k, v, e, now, version), now)
  {
    var x, y := Placed(a, k, v, e, now, version), Placed(b, k, v, e, now, version);
    assert Look(a, k, now) == Look(b, k, now);
    forall l ensures Look(x, l, now) == Look(y, l, now) {
      assert Look(a, l, now) == Look(b, l, now);
    }
  }

  lemma RemovedAlike(a: map<Key, Held>, b: map<Key, Held>, k: Key, now: int)
    requires AlikeValues(a, b, now)
    ensures AlikeValues(a - {k}, b - {k}, now)
  {
    forall l ensures Look(a - {k}, l, now) == Look(b - {k}, l, now) {
      assert Look(a, l, now) == Look(b, l, now);
    }
  }

  lemma {:induction false} FirstUnmetAlike(
    a: map<Key, Held>, b: map<Key, Held>, cs: seq<Condition>, now: int, from: nat)
    requires AlikeValues(a, b, now) && from <= |cs|
    ensures FirstUnmet(a, cs, now, from) == FirstUnmet(b, cs, now, from)
    decreases |cs| - from
  {
    if from < |cs| {
      assert Look(a, cs[from].key, now) == Look(b, cs[from].key, now);
      FirstUnmetAlike(a, b, cs, now, from + 1);
    }
  }

  lemma {:induction false} WriteAllAlike(a: map<Key, Held>, b: map<Key, Held>, ws: seq<BatchWrite>, now: int, n: Naming)
    requires AlikeValues(a, b, now)
    ensures var x, y := WriteAll(a, ws, now, n), WriteAll(b, ws, now, n);
      AlikeValues(x.values, y.values, now) && x.versions == y.versions && x.naming == y.naming
  {
    if ws != [] {
      var init, w := ws[..|ws| - 1], ws[|ws| - 1];
      WriteAllAlike(a, b, init, now, n);
      var x, y := WriteAll(a, init, now, n), WriteAll(b, init, now, n);
      match w
      case Remove(k) => RemovedAlike(x.values, y.values, k, now);
      case Put(k, v, e) => PlacedAlike(x.values, y.values, k, v, e, now, Named(x.naming));
    }
  }

  /** A counter written alike into both. */
  lemma CountedAlike(a: map<Key, Counter>, b: map<Key, Counter>, k: Key, c: Counter, now: int)
    requires AlikeCounters(a, b, now)
    ensures AlikeCounters(a[k := c], b[k := c], now)
  {
    var x, y := a[k := c], b[k := c];
    forall l ensures LookCounter(x, l, now) == LookCounter(y, l, now) {
      assert LookCounter(a, l, now) == LookCounter(b, l, now);
    }
  }

  lemma KeptAlike(a: map<Mark, Answered>, b: map<Mark, Answered>, marks: seq<Mark>, x: Answered, now: int)
    requires AlikeAnswers(a, b, now)
    ensures AlikeAnswers(Kept(a, marks, x), Kept(b, marks, x), now)
  {
    forall m ensures LookAnswer(Kept(a, marks, x), m, now) == LookAnswer(Kept(b, marks, x), m, now) {
      assert LookAnswer(a, m, now) == LookAnswer(b, m, now);
    }
  }

  lemma ExecuteAlike(a: State, b: State, op: Op, now: int, n: Naming)
    requires Alike(a, b, now)
    ensures var x, y := Execute(a, op, now, n), Execute(b, op, now, n);
      Alike(x.state, y.state, now) && x.answer == y.answer && x.naming == y.naming
  {
    match op
    case PutIfAbsent(k, v, e) =>
      assert Look(a.values, k, now) == Look(b.values, k, now);
      PlacedAlike(a.values, b.values, k, v, e, now, Named(n));
    case ReplaceIf(k, version, v, e) =>
      assert Look(a.values, k, now) == Look(b.values, k, now);
      PlacedAlike(a.values, b.values, k, v, e, now, Named(n));
    case RemoveIf(k, _) =>
      assert Look(a.values, k, now) == Look(b.values, k, now);
      RemovedAlike(a.values, b.values, k, now);
    case Take(k) =>
      assert Look(a.values, k, now) == Look(b.values, k, now);
      RemovedAlike(a.values, b.values, k, now);
    case Batch(cs, ws) => BatchAlike(a, b, cs, ws, now, n);
    case BatchAcross(cs, ws) => BatchAlike(a, b, cs, ws, now, n);
    case Count(k, ms, limit) =>
      assert LookCounter(a.counters, k, now) == LookCounter(b.counters, k, now);
      CountedAlike(a.counters, b.counters, k, Counter(1, now + ms), now);
      if k in a.counters {
        CountedAlike(a.counters, b.counters, k, Counter(a.counters[k].count + 1, a.counters[k].resetAt), now);
      }
  }

  lemma BatchAlike(a: State, b: State, cs: seq<Condition>, ws: seq<BatchWrite>, now: int, n: Naming)
    requires Alike(a, b, now)
    ensures var x, y := ApplyBatch(a, cs, ws, now, n), ApplyBatch(b, cs, ws, now, n);
      Alike(x.state, y.state, now) && x.answer == y.answer && x.naming == y.naming
  {
    FirstUnmetAlike(a.values, b.values, cs, now, 0);
    WriteAllAlike(a.values, b.values, ws, now, n);
  }

  /** Stores alike at a time answer one request alike, and are alike after it. */
  lemma HandleAlike(a: State, b: State, r: Request, now: int, n: Naming)
    requires Alike(a, b, now)
    ensures var x, y := Handle(a, r, now, n), Handle(b, r, now, n);
      Alike(x.state, y.state, now) && x.answer == y.answer && x.naming == y.naming
  {
    SeenAlike(a.answers, b.answers, MarksOf(r), now);
    if !(r.op.Batch? && !OnePartition(KeysOf(r.op))) && Seen(a.answers, MarksOf(r), now).None? {
      if IsLate(r, now) {
        RememberedAlike(a, b, r, Late, now);
      } else {
        ExecuteAlike(a, b, r.op, now, n);
        var x, y := Execute(a, r.op, now, n), Execute(b, r.op, now, n);
        RememberedAlike(x.state, y.state, r, x.answer, now);
      }
    }
  }

  lemma RememberedAlike(a: State, b: State, r: Request, answer: Answer, now: int)
    requires Alike(a, b, now)
    ensures Alike(Remembered(a, r, answer, now), Remembered(b, r, answer, now), now)
  {
    KeptAlike(a.answers, b.answers, MarksOf(r), Answered(IdempotencyText(r.op), answer, KeptUntil(r, now)), now);
  }

  // ---- The store ----

  class MemoryStore {
    var values: map<Key, Held>
    var counters: map<Key, Counter>
    var answers: map<Mark, Answered>
    var operations: nat
    var last: nat

    constructor ()
      ensures Shown() == EMPTY && last == 0
    {
      values, counters, answers, operations, last := map[], map[], map[], 0, 0;
    }

    function Shown(): State
      reads this
    {
      State(values, counters, answers)
    }

    /** Every 256th operation, everything past its time goes. */
    method Sweep(now: int)
      modifies this
      ensures Alike(Shown(), old(Shown()), now) && last == old(last)
    {
      operations := operations + 1;
      if operations % SWEEP_EVERY != 0 { return; }
      var keys := values.Keys;
      while keys != {}
        invariant AlikeValues(values, old(values), now)
        invariant counters == old(counters) && answers == old(answers) && last == old(last)
        decreases |keys|
      {
        var k :| k in keys;
        if k in values && !Live(values[k], now) {
          assert forall l :: Look(values - {k}, l, now) == Look(values, l, now);
          values := values - {k};
        }
        keys := keys - {k};
      }
      var marks := answers.Keys;
      while marks != {}
        invariant AlikeAnswers(answers, old(answers), now)
        invariant AlikeValues(values, old(values), now)
        invariant counters == old(counters) && last == old(last)
        decreases |marks|
      {
        var m :| m in marks;
        if m in answers && answers[m].until <= now {
          assert forall l :: LookAnswer(answers - {m}, l, now) == LookAnswer(answers, l, now);
          answers := answers - {m};
        }
        marks := marks - {m};
      }
      var counted := counters.Keys;
      while counted != {}
        invariant AlikeCounters(counters, old(counters), now)
        invariant AlikeAnswers(answers, old(answers), now)
        invariant AlikeValues(values, old(values), now)
        invariant last == old(last)
        decreases |counted|
      {
        var k :| k in counted;
        if k in counters && counters[k].resetAt <= now {
          assert forall l :: LookCounter(counters - {k}, l, now) == LookCounter(counters, l, now);
          counters := counters - {k};
        }
        counted := counted - {k};
      }
    }

    /** The live entry, deleting one that is not. */
    method Current(k: Key, now: int) returns (held: Option<Held>)
      modifies this`values
      ensures held == Look(old(values), k, now) == Look(values, k, now)
      ensures AlikeValues(values, old(values), now)
      ensures held.None? ==> k !in values
    {
      if k in values && Live(values[k], now) { return Some(values[k]); }
      values := values - {k};
      return None;
    }

    /** Writes the entry, or deletes the key when the write is already past its expiry. */
    method Write(k: Key, v: Json, e: Expiry, now: int) returns (version: Version)
      modifies this`values, this`last
      ensures version == last == old(last) + 1
      ensures AlikeValues(values, Placed(old(values), k, v, e, now, version), now)
    {
      var before := Current(k, now);
      last := last + 1;
      version := last;
      var expiresAt := ResolveExpiry(e, CurrentExpiry(before), now);
      if expiresAt.Some? && expiresAt.value <= now {
        values := values - {k};
      } else {
        values := values[k := Held(Normal(v), version, expiresAt)];
      }
      forall l ensures Look(values, l, now) == Look(Placed(old(values), k, v, e, now, version), l, now) {
        assert l != k ==> Look(values, l, now) == Look(old(values), l, now);
      }
    }

    /** What an operation's method promises: the answer, and a store alike the one that never deletes. */
    twostate predicate Did(op: Op, now: int, answer: Answer)
      reads this
    {
      var done := Execute(old(Shown()), op, now, Naming([], old(last)));
      answer == done.answer && last == done.naming.last && done.naming.replayed == []
      && Alike(Shown(), done.state, now) && answers == old(answers)
    }

    method PutIfAbsent(k: Key, v: Json, e: Expiry, now: int) returns (answer: Answer)
      modifies this`values, this`last
      ensures Did(Op.PutIfAbsent(k, v, e), now, answer)
    {
      var held := Current(k, now);
      if held.Some? {
        var ends := held.value.expiresAt;
        return Exists(if ends.None? then None else Some(ends.value - now));
      }
      ghost var mid := values;
      var version := Write(k, v, e, now);
      PlacedAlike(mid, old(values), k, v, e, now, version);
      return Written(version);
    }

    method ReplaceIf(k: Key, version: Version, v: Json, e: Expiry, now: int) returns (answer: Answer)
      modifies this`values, this`last
      ensures Did(Op.ReplaceIf(k, version, v, e), now, answer)
    {
      var held := Current(k, now);
      if held.None? { return Missing; }
      if held.value.version != version { return Conflict; }
      ghost var mid := values;
      var named := Write(k, v, e, now);
      PlacedAlike(mid, old(values), k, v, e, now, named);
      return Written(named);
    }

    method RemoveIf(k: Key, expected: Expected, now: int) returns (answer: Answer)
      modifies this`values
      ensures Did(Op.RemoveIf(k, expected), now, answer)
    {
      var held := Current(k, now);
      if held.None? { return Missing; }
      if !Matches(held.value, expected) { return Conflict; }
      RemovedAlike(values, old(values), k, now);
      values := values - {k};
      return Answer.Removed(held.value);
    }

    method Take(k: Key, now: int) returns (answer: Answer)
      modifies this`values
      ensures Did(Op.Take(k), now, answer)
    {
      var held := Current(k, now);
      if held.None? { return Missing; }
      RemovedAlike(values, old(values), k, now);
      values := values - {k};
      return Taken(held.value);
    }

    /** Every condition first, then every write. */
    method ApplyBatch(cs: seq<Condition>, ws: seq<BatchWrite>, now: int) returns (answer: Answer)
      modifies this`values, this`last
      ensures Did(Batch(cs, ws), now, answer) && Did(BatchAcross(cs, ws), now, answer)
    {
      var i := 0;
      while i < |cs|
        invariant i <= |cs| && last == old(last) && AlikeValues(values, old(values), now)
        invariant FirstUnmet(old(values), cs, now, 0) == FirstUnmet(old(values), cs, now, i)
      {
        var held := Current(cs[i].key, now);
        var holds := match cs[i] case IsAbsent(_) => held.None?
          case IsAt(_, version) => held.Some? && held.value.version == version;
        assert Look(values, cs[i].key, now) == Look(old(values), cs[i].key, now);
        if !holds { return Unmet(i); }
        i := i + 1;
      }
      var versions: seq<Option<Version>> := [];
      ghost var n := Naming([], last);
      i := 0;
      while i < |ws|
        invariant i <= |ws|
        invariant var done := WriteAll(old(values), ws[..i], now, n);
          AlikeValues(values, done.values, now) && versions == done.versions && done.naming == Naming([], last)
      {
        ghost var done := WriteAll(old(values), ws[..i], now, n);
        assert ws[..i + 1][..i] == ws[..i];
        match ws[i] {
          case Remove(k) =>
            RemovedAlike(values, done.values, k, now);
            values := values - {k};
            versions := versions + [None];
          case Put(k, v, e) =>
            PlacedAlike(values, done.values, k, v, e, now, last + 1);
            var version := Write(k, v, e, now);
            versions := versions + [Some(version)];
        }
        i := i + 1;
      }
      assert ws[..|ws|] == ws;
      return Committed(versions);
    }

    /** A window is opened by its first use and counts up to its limit. */
    method Count(k: Key, ms: nat, limit: nat, now: int) returns (answer: Answer)
      modifies this`counters
      ensures Did(Op.Count(k, ms, limit), now, answer)
    {
      if k !in counters || counters[k].resetAt <= now {
        if limit < 1 { return Limited(now + ms); }
        counters := counters[k := Counter(1, now + ms)];
        return Counted(1, now + ms);
      }
      var held := counters[k];
      if held.count >= limit { return Limited(held.resetAt); }
      counters := counters[k := Counter(held.count + 1, held.resetAt)];
      return Counted(held.count + 1, held.resetAt);
    }

    method Apply(op: Op, now: int) returns (answer: Answer)
      modifies this
      ensures Did(op, now, answer)
    {
      match op
      case PutIfAbsent(k, v, e) => answer := PutIfAbsent(k, v, e, now);
      case ReplaceIf(k, version, v, e) => answer := ReplaceIf(k, version, v, e, now);
      case RemoveIf(k, expected) => answer := RemoveIf(k, expected, now);
      case Take(k) => answer := Take(k, now);
      case Batch(cs, ws) => answer := ApplyBatch(cs, ws, now);
      case BatchAcross(cs, ws) => answer := ApplyBatch(cs, ws, now);
      case Count(k, ms, limit) => answer := Count(k, ms, limit, now);
    }

    /** The first of the marks still kept, looked for in order. */
    method Find(marks: seq<Mark>, now: int) returns (seen: Option<Answered>)
      ensures seen == Seen(answers, marks, now)
    {
      var i := 0;
      while i < |marks|
        invariant i <= |marks| && Seen(answers, marks, now) == Seen(answers, marks[i..], now)
      {
        if marks[i] in answers && answers[marks[i]].until > now { return Some(answers[marks[i]]); }
        i := i + 1;
      }
      return None;
    }

    method Keep(marks: seq<Mark>, a: Answered)
      modifies this`answers
      ensures answers == Kept(old(answers), marks, a)
    {
      var i := 0;
      while i < |marks|
        invariant i <= |marks| && answers == Kept(old(answers), marks[..i], a)
      {
        assert marks[..i + 1] == marks[..i] + [marks[i]];
        answers := answers[marks[i] := a];
        i := i + 1;
      }
      assert marks[..|marks|] == marks;
    }

    /** A request, from the sweep to its answer. */
    method HandleRequest(r: Request, now: int) returns (answer: Answer)
      modifies this
      ensures var done := Handle(old(Shown()), r, now, Naming([], old(last)));
        answer == done.answer && done.naming == Naming([], last) && Alike(Shown(), done.state, now)
    {
      if r.op.Batch? {
        if !OnePartition(KeysOf(r.op)) { return Spans; }
      }
      ghost var was, n := Shown(), Naming([], last);
      Sweep(now);
      ghost var swept := Shown();
      HandleAlike(swept, was, r, now, n);
      var marks := MarksOf(r);
      var seen := Find(marks, now);
      if seen.Some? {
        return if seen.value.digest == IdempotencyText(r.op) then seen.value.answer else Reused;
      }
      if IsLate(r, now) {
        if !r.op.BatchAcross? { Keep(marks, Answered(IdempotencyText(r.op), Late, KeptUntil(r, now))); }
        return Late;
      }
      answer := Apply(r.op, now);
      ghost var done := Execute(swept, r.op, now, n);
      Keep(marks, Answered(IdempotencyText(r.op), answer, KeptUntil(r, now)));
      KeptAlike(
        swept.answers, done.state.answers, marks, Answered(IdempotencyText(r.op), answer, KeptUntil(r, now)), now);
      AlikeTwice(Shown(), Handle(swept, r, now, n).state, Handle(was, r, now, n).state, now);
    }
  }

  lemma AlikeTwice(a: State, b: State, c: State, now: int)
    requires Alike(a, b, now) && Alike(b, c, now)
    ensures Alike(a, c, now)
  {
    forall k
      ensures Look(a.values, k, now) == Look(c.values, k, now)
    {
      assert Look(a.values, k, now) == Look(b.values, k, now);
    }
    forall k ensures LookCounter(a.counters, k, now) == LookCounter(c.counters, k, now) {
      assert LookCounter(a.counters, k, now) == LookCounter(b.counters, k, now);
    }
    forall m ensures LookAnswer(a.answers, m, now) == LookAnswer(c.answers, m, now) {
      assert LookAnswer(a.answers, m, now) == LookAnswer(b.answers, m, now);
    }
  }

  /** A scan lists what is live, so it lists the same of both. */
  method ScanSpace(
    store: MemoryStore, ghost ideal: State, space: string, cursor: Option<string>, now: int)
    returns (page: Listing.Page)
    requires Alike(store.Shown(), ideal, now)
    ensures Listing.IsPage(page, Listing.Due(ideal.values, space, cursor, now))
  {
    forall k
      ensures k in Listing.Due(store.values, space, cursor, now) <==> k in Listing.Due(ideal.values, space, cursor, now)
    {
      assert Look(store.values, k, now) == Look(ideal.values, k, now);
    }
    assert Listing.Due(store.values, space, cursor, now) == Listing.Due(ideal.values, space, cursor, now);
    page := Listing.Scan(store.values, space, cursor, now);
  }

  // ---- Whole runs ----

  /** What a caller asks of the store. */
  datatype Asked = Asks(request: Request) | Gets(key: Key) | Scans(space: string, cursor: Option<string>)

  datatype Visit = Visit(at: int, asked: Asked)

  datatype Told = Replied(answer: Answer) | Found(held: Option<Held>) | Listed(page: Listing.Page)

  predicate InOrder(visits: seq<Visit>) { forall i, j :: 0 <= i <= j < |visits| ==> visits[i].at <= visits[j].at }

  /** What the store that never deletes has come to after these; reading it changes nothing. */
  function Ideal(visits: seq<Visit>): Sys {
    if visits == [] then Sys(EMPTY, 0)
    else
      var before, last := Ideal(visits[..|visits| - 1]), visits[|visits| - 1];
      if last.asked.Asks? then Stepped(before, Call(last.at, last.asked.request)) else before
  }

  /** And what it tells the visit that comes next. */
  ghost predicate Tells(ideal: Sys, v: Visit, told: Told) {
    match v.asked
    case Asks(r) => told == Replied(Took(ideal, Call(v.at, r)).answer)
    case Gets(k) => told == Found(Look(ideal.state.values, k, v.at))
    case Scans(space, cursor) =>
      told.Listed? && Listing.IsPage(told.page, Listing.Due(ideal.state.values, space, cursor, v.at))
  }

  /** One visit, of a store alike the one that never deletes. */
  method ServeOne(store: MemoryStore, ghost ideal: Sys, v: Visit) returns (told: Told)
    requires Alike(store.Shown(), ideal.state, v.at) && store.last == ideal.last
    modifies store
    ensures Tells(ideal, v, told)
    ensures var next := if v.asked.Asks? then Stepped(ideal, Call(v.at, v.asked.request)) else ideal;
      Alike(store.Shown(), next.state, v.at) && store.last == next.last
  {
    match v.asked
    case Asks(r) =>
      ghost var was := store.Shown();
      HandleAlike(was, ideal.state, r, v.at, Naming([], ideal.last));
      var answer := store.HandleRequest(r, v.at);
      AlikeTwice(
        store.Shown(), Handle(was, r, v.at, Naming([], ideal.last)).state, Took(ideal, Call(v.at, r)).state, v.at);
      told := Replied(answer);
    case Gets(k) =>
      assert Look(store.values, k, v.at) == Look(ideal.state.values, k, v.at);
      ghost var was := store.Shown();
      var held := store.Current(k, v.at);
      AlikeTwice(store.Shown(), was, ideal.state, v.at);
      told := Found(held);
    case Scans(space, cursor) =>
      var page := ScanSpace(store, ideal.state, space, cursor, v.at);
      told := Listed(page);
  }

  /** On a clock that never goes back, a store in memory answers any run of requests, reads and scans as the
      store that never deletes anything: no lazy deletion and no sweep is ever seen. */
  method Serve(visits: seq<Visit>) returns (told: seq<Told>)
    requires InOrder(visits)
    ensures |told| == |visits| && forall i :: 0 <= i < |visits| ==> Tells(Ideal(visits[..i]), visits[i], told[i])
  {
    var store := new MemoryStore();
    told := [];
    var i := 0;
    while i < |visits|
      invariant i == |told| <= |visits| && fresh(store)
      invariant store.last == Ideal(visits[..i]).last
      invariant i == 0 ==> store.Shown() == EMPTY
      invariant i > 0 ==> Alike(store.Shown(), Ideal(visits[..i]).state, visits[i - 1].at)
      invariant forall j :: 0 <= j < i ==> Tells(Ideal(visits[..j]), visits[j], told[j])
    {
      ghost var ideal := Ideal(visits[..i]);
      if i > 0 { AlikeLater(store.Shown(), ideal.state, visits[i - 1].at, visits[i].at); }
      var one := ServeOne(store, ideal, visits[i]);
      assert visits[..i + 1][..i] == visits[..i];
      told := told + [one];
      i := i + 1;
    }
  }
}
