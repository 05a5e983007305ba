/** The store that never deletes anything for being old: it only compares times. Every implementation is
    judged against it, and the protocols over the store are stated on it. */
module Store {
  import opened Wrappers
  import opened Json
  import opened Contract

  /** How long past a deadline a resend still gets the first answer. */
  const IDEMPOTENCY_SKEW_MS := 1000
  const IDEMPOTENCY_DEFAULT_MS := 5 * 60_000

  datatype Counter = Counter(count: nat, resetAt: int)

  /** A mark is kept in a partition. */
  datatype Mark = Mark(partition: Partition, text: string)

  datatype Answered = Answered(digest: string, answer: Answer, until: int)

  datatype State = State(
    values: map<Key, Held>,
    counters: map<Key, Counter>,
    answers: map<Mark, Answered>)

  const EMPTY := State(map[], map[], map[])

  // ---- Time ----

  /** Gone at exactly its expiry, for reads and writes alike. */
  predicate Live(h: Held, now: int) { h.expiresAt.None? || h.expiresAt.value > now }

  function Look(values: map<Key, Held>, k: Key, now: int): Option<Held> {
    if k in values && Live(values[k], now) then Some(values[k]) else None
  }

  function LookCounter(counters: map<Key, Counter>, k: Key, now: int): Option<Counter> {
    if k in counters && counters[k].resetAt > now then Some(counters[k]) else None
  }

  function LookAnswer(answers: map<Mark, Answered>, m: Mark, now: int): Option<Answered> {
    if m in answers && answers[m].until > now then Some(answers[m]) else None
  }

  function Max(a: int, b: int): int { if a < b then b else a }

  /** Expiry for a new write given the entry's current expiry (`None` when there is no live entry). */
  function ResolveExpiry(e: Expiry, current: Option<Option<int>>, now: int): Option<int> {
    match e
    case After(ms) => Some(now + ms)
    case At(at) => Some(at)
    case Never => None
    case Keep => if current.Some? then current.value else None
    case Extend(ms) =>
      if current.None? then Some(Max(0, now + ms))
      else if current.value.None? then None
      else Some(Max(current.value.value, now + ms))
  }

  function CurrentExpiry(held: Option<Held>): Option<Option<int>> {
    if held.Some? then Some(held.value.expiresAt) else None
  }

  // ---- Versions ----

  /** What the next written versions are named: those of a replayed write first, then counted on. */
  datatype Naming = Naming(replayed: seq<Version>, last: nat)

  function Named(n: Naming): Version {
    if n.replayed != [] then n.replayed[0] else n.last + 1
  }

  function Advanced(n: Naming): Naming {
    if n.replayed != [] then n.(replayed := n.replayed[1..]) else n.(last := n.last + 1)
  }

  // ---- Operations ----

  datatype Outcome = Outcome(state: State, answer: Answer, naming: Naming)

  function Placed(values: map<Key, Held>, k: Key, v: Json, e: Expiry, now: int, version: Version): map<Key, Held> {
    values[k := Held(Normal(v), version, ResolveExpiry(e, CurrentExpiry(Look(values, k, now)), now))]
  }

  predicate Holds(values: map<Key, Held>, c: Condition, now: int) {
    var held := Look(values, c.key, now);
    match c
    case IsAbsent(_) => held.None?
    case IsAt(_, version) => held.Some? && held.value.version == version
  }

  /** The first condition not met, counted from `from`. */
  function FirstUnmet(values: map<Key, Held>, cs: seq<Condition>, now: int, from: nat): (r: Option<nat>)
    requires from <= |cs|
    ensures r.Some? ==> from <= r.value < |cs| && !Holds(values, cs[r.value], now)
    ensures forall i :: from <= i < (if r.Some? then r.value else |cs|) ==> Holds(values, cs[i], now)
    decreases |cs| - from
  {
    if from == |cs| then None
    else if !Holds(values, cs[from], now) then Some(from)
    else FirstUnmet(values, cs, now, from + 1)
  }

  datatype Batched = Batched(values: map<Key, Held>, versions: seq<Option<Version>>, naming: Naming)

  function WriteAll(values: map<Key, Held>, ws: seq<BatchWrite>, now: int, n: Naming): (r: Batched)
    ensures |r.versions| == |ws|
  {
    if ws == [] then Batched(values, [], n)
    else
      var init := WriteAll(values, ws[..|ws| - 1], now, n);
      match ws[|ws| - 1]
      case Remove(k) => Batched(init.values - {k}, init.versions + [None], init.naming)
      case Put(k, v, e) =>
        Batched(
          Placed(init.values, k, v, e, now, Named(init.naming)),
          init.versions + [Some(Named(init.naming))],
          Advanced(init.naming))
  }

  function ApplyBatch(s: State, cs: seq<Condition>, ws: seq<BatchWrite>, now: int, n: Naming): Outcome {
    var unmet := FirstUnmet(s.values, cs, now, 0);
    if unmet.Some? then Outcome(s, Unmet(unmet.value), n)
    else
      var done := WriteAll(s.values, ws, now, n);
      Outcome(s.(values := done.values), Committed(done.versions), done.naming)
  }

  function WriteOne(s: State, k: Key, v: Json, e: Expiry, now: int, n: Naming): Outcome {
    Outcome(s.(values := Placed(s.values, k, v, e, now, Named(n))), Written(Named(n)), Advanced(n))
  }

  predicate Matches(h: Held, e: Expected) {
    match e
    case ExpectedVersion(version) => h.version == version
    case ExpectedValue(v) => Canonical(h.value) == Canonical(v)
  }

  /** An operation, its mark and its deadline aside. */
  function Execute(s: State, op: Op, now: int, n: Naming): Outcome {
    match op
    case PutIfAbsent(k, v, e) =>
      var held := Look(s.values, k, now);
      if held.Some? then
        var ends := held.value.expiresAt;
        Outcome(s, Exists(if ends.None? then None else Some(ends.value - now)), n)
      else WriteOne(s, k, v, e, now, n)
    case ReplaceIf(k, version, v, e) =>
      var held := Look(s.values, k, now);
      if held.None? then Outcome(s, Missing, n)
      else if held.value.version != version then Outcome(s, Conflict, n)
      else WriteOne(s, k, v, e, now, n)
    case RemoveIf(k, expected) =>
      var held := Look(s.values, k, now);
      if held.None? then Outcome(s, Missing, n)
      else if !Matches(held.value, expected) then Outcome(s, Conflict, n)
      else Outcome(s.(values := s.values - {k}), Removed(held.value), n)
    case Take(k) =>
      var held := Look(s.values, k, now);
      if held.None? then Outcome(s, Missing, n)
      else Outcome(s.(values := s.values - {k}), Taken(held.value), n)
    case Batch(cs, ws) => ApplyBatch(s, cs, ws, now, n)
    case BatchAcross(cs, ws) => ApplyBatch(s, cs, ws, now, n)
    case Count(k, ms, limit) =>
      var held := LookCounter(s.counters, k, now);
      if held.None? then
        if limit < 1 then Outcome(s, Limited(now + ms), n)
        else Outcome(s.(counters := s.counters[k := Counter(1, now + ms)]), Counted(1, now + ms), n)
      else if held.value.count >= limit then Outcome(s, Limited(held.value.resetAt), n)
      else
        var counter := Counter(held.value.count + 1, held.value.resetAt);
        Outcome(s.(counters := s.counters[k := counter]), Counted(counter.count, counter.resetAt), n)
  }

  // ---- Marks and deadlines ----

  predicate OnePartition(ks: seq<Key>) {
    forall i, j :: 0 <= i < |ks| && 0 <= j < |ks| ==> PartitionOf(ks[i]) == PartitionOf(ks[j])
  }

  /** Each partition once, where it is first named. */
  function PartitionsOf(ks: seq<Key>): (r: seq<Partition>)
    ensures forall p :: p in r <==> exists i :: 0 <= i < |ks| && PartitionOf(ks[i]) == p
  {
    if ks == [] then []
    else
      var rest := PartitionsOf(ks[..|ks| - 1]);
      var p := PartitionOf(ks[|ks| - 1]);
      assert ks == ks[..|ks| - 1] + [ks[|ks| - 1]];
      assert forall i :: 0 <= i < |ks| - 1 ==> ks[..|ks| - 1][i] == ks[i];
      if p in rest then rest else rest + [p]
  }

  /** The partitions an operation keeps its mark in, and looks for it in, in order. */
  function MarkedIn(op: Op): seq<Partition> {
    var ks := KeysOf(op);
    if op.BatchAcross? then PartitionsOf(ks)
    else if ks == [] then []
    else [PartitionOf(ks[0])]
  }

  function MarksOf(r: Request): seq<Mark> {
    if r.mark.None? then []
    else
      var ps := MarkedIn(r.op);
      seq(|ps|, i requires 0 <= i < |ps| => Mark(ps[i], r.mark.value))
  }

  /** The first mark that is still kept. */
  function Seen(answers: map<Mark, Answered>, marks: seq<Mark>, now: int): Option<Answered> {
    if marks == [] then None
    else
      var first := LookAnswer(answers, marks[0], now);
      if first.Some? then first else Seen(answers, marks[1..], now)
  }

  function Kept(answers: map<Mark, Answered>, marks: seq<Mark>, a: Answered): map<Mark, Answered> {
    answers + (map m | m in marks :: a)
  }

  function KeptUntil(r: Request, now: int): int {
    (if r.deadline.Some? then r.deadline.value else now + IDEMPOTENCY_DEFAULT_MS) + IDEMPOTENCY_SKEW_MS
  }

  predicate IsLate(r: Request, now: int) { r.deadline.Some? && now > r.deadline.value }

  function Remembered(s: State, r: Request, a: Answer, now: int): State {
    s.(answers := Kept(s.answers, MarksOf(r), Answered(IdempotencyText(r.op), a, KeptUntil(r, now))))
  }

  /** Whether a request gets as far as being carried out. */
  predicate Executes(s: State, r: Request, now: int) {
    && !(r.op.Batch? && !OnePartition(KeysOf(r.op)))
    && Seen(s.answers, MarksOf(r), now).None?
    && !IsLate(r, now)
  }

  /** A request as the store takes it: once per mark, and not past its deadline. */
  function Handle(s: State, r: Request, now: int, n: Naming): Outcome {
    if r.op.Batch? && !OnePartition(KeysOf(r.op)) then Outcome(s, Spans, n)
    else
      var seen := Seen(s.answers, MarksOf(r), now);
      if seen.Some? then
        Outcome(s, if seen.value.digest == IdempotencyText(r.op) then seen.value.answer else Reused, n)
      else if IsLate(r, now) then
        Outcome(if r.op.BatchAcross? then s else Remembered(s, r, Late, now), Late, n)
      else
        var done := Execute(s, r.op, now, n);
        Outcome(Remembered(done.state, r, done.answer, now), done.answer, done.naming)
  }

  /** Only a request carried out touches values, counters and versions, and then as its operation does. */
  lemma HandleParts(s: State, r: Request, now: int, n: Naming)
    ensures var h, done := Handle(s, r, now, n), Execute(s, r.op, now, n);
      if Executes(s, r, now) then
        h.state.values == done.state.values && h.state.counters == done.state.counters
        && h.answer == done.answer && h.naming == done.naming
      else h.state.values == s.values && h.state.counters == s.counters && h.naming == n
  {
  }

  lemma ExecuteParts(s: State, op: Op, now: int, n: Naming)
    ensures var done := Execute(s, op, now, n);
      && done.state.answers == s.answers
      && (op.Count? ==> done.state.values == s.values && done.naming == n)
      && (!op.Count? ==> done.state.counters == s.counters)
  {
  }

  // ---- Runs ----

  /** A request as it reached the store, at the store's time. */
  datatype Call = Call(at: int, request: Request)

  /** The store with the count its versions are named from. */
  datatype Sys = Sys(state: State, last: nat)

  function Took(s: Sys, c: Call): Outcome { Handle(s.state, c.request, c.at, Naming([], s.last)) }

  function Stepped(s: Sys, c: Call): Sys {
    var done := Took(s, c);
    Sys(done.state, done.naming.last)
  }

  function Run(s: Sys, calls: seq<Call>): Sys {
    if calls == [] then s else Stepped(Run(s, calls[..|calls| - 1]), calls[|calls| - 1])
  }

  /** What call `i` of a run met, and what it was answered. */
  function Before(s: Sys, calls: seq<Call>, i: nat): Sys
    requires i <= |calls|
  {
    Run(s, calls[..i])
  }

  function AnswerAt(s: Sys, calls: seq<Call>, i: nat): Answer
    requires i < |calls|
  {
    Took(Before(s, calls, i), calls[i]).answer
  }

  /** The store's clock never goes back. */
  predicate Monotone(calls: seq<Call>) {
    forall i, j :: 0 <= i <= j < |calls| ==> calls[i].at <= calls[j].at
  }
}
