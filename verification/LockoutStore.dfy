/** The lockout's calls over the store: each decides inside `mutate`, and what any number of them do to a key,
    however they come together, is a run of the lockout. */
module LockoutStore {
  import opened Wrappers
  import opened Json
  import opened Contract
  import opened Store
  import opened Marks
  import opened Wire
  import opened Mutate
  import L = Lockout

  /** How a state is written as JSON, and read. */
  datatype Codec = Codec(write: L.State -> Json, read: Json -> L.State)

  ghost predicate ReadsBack(c: Codec) { forall s: L.State :: c.read(Normal(c.write(s))) == s }

  function StateIn(c: Codec, entry: Option<Held>): Option<L.State> {
    if entry.None? then None else Some(c.read(entry.value.value))
  }

  function ExpiryFor(lifetime: L.Lifetime): Expiry {
    match lifetime
    case Endless => Never
    case For(ms) => Expiry.After(if ms < 0 then 0 else ms)
    case AsIs => Expiry.Keep
  }

  /** The call's decision on the entry read, as `mutate` runs it. */
  function Deciding(c: Codec, op: L.Op, p: L.Policy): Decide {
    (entry: Option<Held>, now: int) =>
      match L.Decide(op, p, StateIn(c, entry), now).0
      case Keep => Leave
      case Write(next, lifetime) => Decision.Write(c.write(next), ExpiryFor(lifetime))
  }

  // ---- One call ----

  /** One call's decision come to something: what it was made on, between which calls of the run or by which, and
      what it answers. */
  datatype Deed = Deed(op: L.Op, policy: L.Policy, read: Reading, place: nat, wrote: bool, answer: L.Answer)

  ghost predicate DeedAt(calls: seq<Call>, k: Key, c: Codec, d: Deed) {
    && L.Decide(d.op, d.policy, StateIn(c, d.read.entry), d.read.now).1 == d.answer
    && if d.wrote then exists told: Mutated :: WrittenAt(calls, d.place, d.read, k, Deciding(c, d.op, d.policy), told)
       else ReadAt(calls, d.place, k, d.read) && L.Decide(d.op, d.policy, StateIn(c, d.read.entry), d.read.now).0.Keep?
  }

  function DeedOf(c: Codec, op: L.Op, p: L.Policy, x: Reading, place: nat, wrote: bool): Deed {
    Deed(op, p, x, place, wrote, L.Decide(op, p, StateIn(c, x.entry), x.now).1)
  }

  /** The decision keeps, or writes; it never drops. */
  lemma SettledIsDeed(
    calls: seq<Call>, e: nat, x: Reading, k: Key, c: Codec, op: L.Op, p: L.Policy, r: Mutated)
    requires SettledAt(calls, e, x, k, Deciding(c, op, p), r)
    ensures DeedAt(calls, k, c, DeedOf(c, op, p, x, e, true)) || DeedAt(calls, k, c, DeedOf(c, op, p, x, e, false))
  {
  }

  /** What the calls asked since changed is this call's work. */
  ghost predicate Changes(calls: seq<Call>, asked: set<nat>, k: Key, c: Codec, op: L.Op, p: L.Policy) {
    forall e: nat :: e in asked && e < |calls| && Changed(calls, e) ==>
      exists d: Deed :: DeedAt(calls, k, c, d) && d.wrote && d.place == e && d.op == op && d.policy == p
  }

  lemma ChangesAre(calls: seq<Call>, from: nat, asked: set<nat>, k: Key, c: Codec, op: L.Op, p: L.Policy)
    requires AllDecided(calls, from, asked, k, Deciding(c, op, p))
    ensures Changes(calls, asked, k, c, op, p)
  {
    forall e: nat | e in asked && e < |calls| && Changed(calls, e)
      ensures exists d: Deed :: DeedAt(calls, k, c, d) && d.wrote && d.place == e && d.op == op && d.policy == p
    {
      assert DecidedAt(calls, from, e, k, Deciding(c, op, p));
      var x: Reading :| DoneAt(calls, e, x, k, Deciding(c, op, p));
      assert DeedAt(calls, k, c, DeedOf(c, op, p, x, e, true));
    }
  }

  /** Decides inside `mutate`, again on each lost race; what is answered is what the decision that was written, or
      kept, decided on what it was made on, at one instant of the call. Unanswered, whatever it still changes,
      whenever it lands, is such a decision too. */
  method Changing(line: Line, k: Key, c: Codec, op: L.Op, p: L.Policy)
    returns (answer: Option<L.Answer>, ghost deed: Option<Deed>, ghost lost: Option<(Request, Reading)>)
    requires line.Valid()
    modifies line
    ensures line.Valid() && line.Grew() && old(line.asked) <= line.asked
    ensures answer.Some? ==>
      && deed.Some? && deed.value.answer == answer.value && deed.value.op == op && deed.value.policy == p
      && |old(line.calls)| <= deed.value.place && DeedAt(line.calls, k, c, deed.value)
    ensures Changes(line.calls, line.asked - old(line.asked), k, c, op, p)
    ensures lost.Some? ==> LandsSo(line.calls, lost.value.0, k, Deciding(c, op, p), lost.value.1)
  {
    var decide := Deciding(c, op, p);
    var result, read, given := Mutate.Mutate(line, k, decide, DEFAULT_ATTEMPTS, None);
    ChangesAre(line.calls, |old(line.calls)|, line.asked - old(line.asked), k, c, op, p);
    deed, lost := None, if given.Some? then Some((given.value, read.value)) else None;
    if !result.Settled? { return None, None, lost; }
    var x := read.value;
    ghost var e: nat :| |old(line.calls)| <= e && SettledAt(line.calls, e, x, k, decide, result);
    SettledIsDeed(line.calls, e, x, k, c, op, p, result);
    var kept := DeedOf(c, op, p, x, e, false);
    deed := Some(if DeedAt(line.calls, k, c, kept) then kept else kept.(wrote := true));
    answer := Some(L.Decide(op, p, StateIn(c, x.entry), x.now).1);
  }

  lemma SameMet(was: seq<Call>, calls: seq<Call>, i: nat)
    requires was <= calls && i <= |was|
    ensures Before(START, calls, i) == Before(START, was, i)
  {
    assert calls[..i] == was[..i];
  }

  lemma ReadLonger(was: seq<Call>, calls: seq<Call>, i: nat, k: Key, x: Reading)
    requires GoesOn(was, calls, x.now) && ReadAt(was, i, k, x)
    ensures ReadAt(calls, i, k, x)
  {
    SameMet(was, calls, i);
    if i < |was| { assert calls[i] == was[i]; }
  }

  lemma WrittenLonger(
    was: seq<Call>, calls: seq<Call>, e: nat, x: Reading, k: Key, decide: Decide, told: Mutated)
    requires GoesOn(was, calls, x.now) && WrittenAt(was, e, x, k, decide, told)
    ensures WrittenAt(calls, e, x, k, decide, told)
  {
    MeetsLonger(was, calls, e, x, k);
    SameMet(was, calls, e);
    SameMet(was, calls, e + 1);
  }

  lemma MeetsLonger(was: seq<Call>, calls: seq<Call>, e: nat, x: Reading, k: Key)
    requires GoesOn(was, calls, x.now) && MeetsRead(was, e, x, k)
    ensures MeetsRead(calls, e, x, k) && calls[e] == was[e]
  {
    var i: nat :| i <= e && ReadAt(was, i, k, x);
    ReadLonger(was, calls, i, k, x);
    SameMet(was, calls, e);
  }

  /** What a call came to goes on being what it came to as the run goes on. */
  lemma DeedLater(was: seq<Call>, calls: seq<Call>, k: Key, c: Codec, d: Deed)
    requires GoesOn(was, calls, d.read.now) && DeedAt(was, k, c, d)
    ensures DeedAt(calls, k, c, d)
  {
    if d.wrote {
      var told: Mutated :| WrittenAt(was, d.place, d.read, k, Deciding(c, d.op, d.policy), told);
      WrittenLonger(was, calls, d.place, d.read, k, Deciding(c, d.op, d.policy), told);
    } else {
      ReadLonger(was, calls, d.place, k, d.read);
    }
  }

  // ---- All calls on a key ----

  function KeyAt(calls: seq<Call>, i: nat, k: Key): Option<Held>
    requires i <= |calls|
  {
    if k in Met(calls, i).values then Some(Met(calls, i).values[k]) else None
  }

  function CellIn(c: Codec, held: Option<Held>): Option<L.Cell> {
    if held.None? then None else Some(L.Cell(c.read(held.value.value), held.value.expiresAt))
  }

  function CellAt(calls: seq<Call>, i: nat, k: Key, c: Codec): Option<L.Cell>
    requires i <= |calls|
  {
    CellIn(c, KeyAt(calls, i, k))
  }

  /** When the call's decision landed: with its write, or as it read. */
  function LandedAt(calls: seq<Call>, d: Deed): int
    requires d.wrote ==> d.place < |calls|
  {
    if d.wrote then calls[d.place].at else d.read.now
  }

  function EventOf(calls: seq<Call>, d: Deed): L.Event
    requires d.wrote ==> d.place < |calls|
  {
    L.Event(d.op, d.policy, d.read.now, LandedAt(calls, d))
  }

  lemma FoundIsRead(calls: seq<Call>, i: nat, k: Key, c: Codec, t: int)
    requires i <= |calls|
    ensures L.Found(CellAt(calls, i, k, c), t) == StateIn(c, EntryAt(calls, i, k, t))
  {
  }

  lemma LifetimeFacts(op: L.Op, p: L.Policy, current: Option<L.State>, now: int)
    requires L.Usable(p)
    ensures var d := L.Decide(op, p, current, now).0;
      d.Write? ==> (d.lifetime.AsIs? ==> current.Some?) && (d.lifetime.For? ==> d.lifetime.ms >= 0)
  {
  }

  /** What is put is what the decision's step stores. */
  lemma PutIsStored(
    values: map<Key, Held>, k: Key, c: Codec, next: L.State, lifetime: L.Lifetime, t: int, version: Version)
    requires ReadsBack(c) && (lifetime.AsIs? ==> Look(values, k, t).Some?) && (lifetime.For? ==> lifetime.ms >= 0)
    ensures var was := if k in values then Some(values[k]) else None;
      var put := Placed(values, k, c.write(next), ExpiryFor(lifetime), t, version);
      CellIn(c, Some(put[k])) == L.Stored(CellIn(c, was), L.Write(next, lifetime), t)
  {
    assert c.read(Normal(c.write(next))) == next;
  }

  lemma WrittenIsStep(calls: seq<Call>, k: Key, c: Codec, d: Deed)
    requires DeedAt(calls, k, c, d) && d.wrote && ReadsBack(c) && L.Usable(d.policy)
    ensures d.place < |calls|
    ensures var cell, e := CellAt(calls, d.place, k, c), EventOf(calls, d);
      L.Writes(cell, e) && L.DecidedBy(cell, e).1 == d.answer && CellAt(calls, d.place + 1, k, c) == L.Step(cell, e)
  {
    var told: Mutated :| WrittenAt(calls, d.place, d.read, k, Deciding(c, d.op, d.policy), told);
    var t := calls[d.place].at;
    FoundIsRead(calls, d.place, k, c, t);
    LifetimeFacts(d.op, d.policy, StateIn(c, d.read.entry), d.read.now);
    var w := L.Decide(d.op, d.policy, StateIn(c, d.read.entry), d.read.now).0;
    PutIsStored(Met(calls, d.place).values, k, c, w.next, w.lifetime, t, told.version.value);
  }

  lemma KeptIsStep(calls: seq<Call>, k: Key, c: Codec, d: Deed)
    requires DeedAt(calls, k, c, d) && !d.wrote
    ensures d.place <= |calls|
    ensures var cell, e := CellAt(calls, d.place, k, c), EventOf(calls, d);
      !L.Writes(cell, e) && L.DecidedBy(cell, e).1 == d.answer && L.Step(cell, e) == cell
  {
    FoundIsRead(calls, d.place, k, c, d.read.now);
  }

  /** Listed by their places in the run, at one place those that read there before the one that wrote. */
  predicate InPlace(calls: seq<Call>, deeds: seq<Deed>) {
    && (forall n :: 0 <= n < |deeds| ==> deeds[n].place <= |calls| && (deeds[n].wrote ==> deeds[n].place < |calls|))
    && (forall m, n :: 0 <= m < n < |deeds| ==>
      deeds[m].place <= deeds[n].place && (deeds[m].wrote ==> deeds[m].place < deeds[n].place))
  }

  predicate InTime(calls: seq<Call>, deeds: seq<Deed>)
    requires InPlace(calls, deeds)
  {
    forall m, n :: 0 <= m < n < |deeds| ==> LandedAt(calls, deeds[m]) <= LandedAt(calls, deeds[n])
  }

  ghost predicate Listed(calls: seq<Call>, k: Key, c: Codec, deeds: seq<Deed>) {
    && InPlace(calls, deeds) && InTime(calls, deeds)
    && forall n: nat {:trigger L.Turn(n)} :: n < |deeds| ==>
      DeedAt(calls, k, c, deeds[n]) && L.Usable(deeds[n].policy) && deeds[n].read.now > 0
  }

  /** Nobody else changes what the key holds. */
  ghost predicate Alone(calls: seq<Call>, k: Key, deeds: seq<Deed>) {
    forall e: nat {:trigger WroteAt(deeds, e)} ::
      e < |calls| && !WroteAt(deeds, e) ==> KeyAt(calls, e + 1, k) == KeyAt(calls, e, k)
  }

  ghost predicate WroteAt(deeds: seq<Deed>, e: nat) {
    exists n :: 0 <= n < |deeds| && deeds[n].wrote && deeds[n].place == e
  }

  lemma {:induction false} Quiet(calls: seq<Call>, k: Key, deeds: seq<Deed>, i: nat, j: nat)
    requires Alone(calls, k, deeds) && i <= j <= |calls| && forall e: nat :: i <= e < j ==> !WroteAt(deeds, e)
    ensures KeyAt(calls, j, k) == KeyAt(calls, i, k)
    decreases j
  {
    if i < j {
      Quiet(calls, k, deeds, i, j - 1);
      assert !WroteAt(deeds, j - 1);
    }
  }

  function Events(calls: seq<Call>, deeds: seq<Deed>): (r: seq<L.Event>)
    requires InPlace(calls, deeds)
    ensures |r| == |deeds| && forall n :: 0 <= n < |r| ==> r[n] == EventOf(calls, deeds[n])
  {
    seq(|deeds|, n requires 0 <= n < |deeds| => EventOf(calls, deeds[n]))
  }

  function PlaceOf(calls: seq<Call>, deeds: seq<Deed>, n: nat): (place: nat)
    requires InPlace(calls, deeds)
    ensures place <= |calls|
  {
    if n < |deeds| then deeds[n].place else |calls|
  }

  function Cells(calls: seq<Call>, k: Key, c: Codec, deeds: seq<Deed>): (r: seq<Option<L.Cell>>)
    requires InPlace(calls, deeds)
    ensures |r| == |deeds| + 1
    ensures forall n :: 0 <= n < |r| ==> r[n] == CellAt(calls, PlaceOf(calls, deeds, n), k, c)
  {
    seq(|deeds| + 1, n requires 0 <= n <= |deeds| => CellAt(calls, PlaceOf(calls, deeds, n), k, c))
  }

  function Answers(deeds: seq<Deed>): (r: seq<L.Answer>)
    ensures |r| == |deeds| && forall n :: 0 <= n < |r| ==> r[n] == deeds[n].answer
  {
    seq(|deeds|, n requires 0 <= n < |deeds| => deeds[n].answer)
  }

  /** Past a call's place, its own write included. */
  function Past(d: Deed): nat { if d.wrote then d.place + 1 else d.place }

  lemma NobodyBetween(calls: seq<Call>, deeds: seq<Deed>, n: nat, e: nat)
    requires InPlace(calls, deeds) && n < |deeds| && Past(deeds[n]) <= e < PlaceOf(calls, deeds, n + 1)
    ensures !WroteAt(deeds, e)
  {
    forall m | 0 <= m < |deeds| && deeds[m].wrote ensures deeds[m].place != e {
      if m <= n { assert deeds[m].place <= deeds[n].place; } else { assert deeds[n + 1].place <= deeds[m].place; }
    }
  }

  /** Between one call's place and the next's, that call's own write apart, the key is left alone. */
  lemma BetweenQuiet(calls: seq<Call>, k: Key, deeds: seq<Deed>, n: nat)
    requires InPlace(calls, deeds) && Alone(calls, k, deeds) && n < |deeds|
    ensures var from, to := Past(deeds[n]), PlaceOf(calls, deeds, n + 1);
      from <= to && KeyAt(calls, to, k) == KeyAt(calls, from, k)
  {
    var from, to := Past(deeds[n]), PlaceOf(calls, deeds, n + 1);
    forall e: nat | from <= e < to ensures !WroteAt(deeds, e) { NobodyBetween(calls, deeds, n, e); }
    Quiet(calls, k, deeds, from, to);
  }

  lemma DeedTurn(calls: seq<Call>, k: Key, c: Codec, deeds: seq<Deed>, n: nat)
    requires Listed(calls, k, c, deeds) && Alone(calls, k, deeds) && ReadsBack(c) && n < |deeds|
    ensures var cell, e := CellAt(calls, deeds[n].place, k, c), EventOf(calls, deeds[n]);
      && L.Writes(cell, e) == deeds[n].wrote && L.DecidedBy(cell, e).1 == deeds[n].answer
      && CellAt(calls, PlaceOf(calls, deeds, n + 1), k, c) == L.Step(cell, e)
  {
    assert L.Turn(n);
    BetweenQuiet(calls, k, deeds, n);
    if deeds[n].wrote { WrittenIsStep(calls, k, c, deeds[n]); } else { KeptIsStep(calls, k, c, deeds[n]); }
  }

  // ---- What was read stands, or is absent again ----

  lemma {:induction false} WritersBy(events: seq<L.Event>, cells: seq<Option<L.Cell>>, n: nat, t: int)
    requires n <= |events| && n <= |cells| && 0 <= t
    requires forall m :: 0 <= m < n && L.Writes(cells[m], events[m]) ==> events[m].at <= t
    ensures L.Landed(events, cells, n) <= t
  {
    if n > 0 { WritersBy(events, cells, n - 1, t); }
  }

  /** A version read before a write of the key is not met after it. */
  lemma WrittenOver(calls: seq<Call>, k: Key, x: Reading, i: nat, m: nat, e: nat)
    requires ReadAt(calls, i, k, x) && x.entry.Some? && i <= m < e < |calls|
    requires NamesNew(calls, m, k)
    ensures !MeetsRead(calls, e, x, k)
  {
    RunBelow(calls, i);
    assert x.entry.value.version <= Before(START, calls, i).last;
    RunRenews(calls, i, m);
    if k in Met(calls, e).values { NamedPast(calls, k, m, e); }
  }

  /** What a write named, or what came after it, is all that is met later. */
  lemma NamedPast(calls: seq<Call>, k: Key, m: nat, e: nat)
    requires m < e <= |calls| && NamesNew(calls, m, k) && k in Met(calls, e).values
    ensures Met(calls, e).values[k].version > Before(START, calls, m).last
  {
    RunBelow(calls, m + 1);
    RunRenews(calls, m + 1, e);
  }

  lemma WrittenNames(calls: seq<Call>, k: Key, c: Codec, d: Deed)
    requires DeedAt(calls, k, c, d) && d.wrote
    ensures d.place < |calls| && MeetsRead(calls, d.place, d.read, k) && k in Met(calls, d.place + 1).values
    ensures Met(calls, d.place + 1).values[k].version == Before(START, calls, d.place).last + 1
  {
  }

  ghost predicate NamesNew(calls: seq<Call>, m: nat, k: Key) {
    && m < |calls| && k in Met(calls, m + 1).values
    && Met(calls, m + 1).values[k].version == Before(START, calls, m).last + 1
  }

  lemma NamesAt(calls: seq<Call>, k: Key, c: Codec, deeds: seq<Deed>, n: nat)
    requires Listed(calls, k, c, deeds) && n < |deeds| && deeds[n].wrote
    ensures NamesNew(calls, deeds[n].place, k) && MeetsRead(calls, deeds[n].place, deeds[n].read, k)
  {
    assert L.Turn(n);
    WrittenNames(calls, k, c, deeds[n]);
  }

  lemma ReadPast(calls: seq<Call>, k: Key, x: Reading, m: nat, e: nat)
    requires Monotone(calls) && x.entry.Some? && m < e && NamesNew(calls, m, k) && MeetsRead(calls, e, x, k)
    ensures calls[m].at <= x.now
  {
    var i: nat :| i <= e && ReadAt(calls, i, k, x);
    if i <= m { WrittenOver(calls, k, x, i, m, e); }
    assert calls[m].at <= calls[i - 1].at;
  }

  /** On an entry read, every write before it was made when it was read. */
  lemma WritersBefore(calls: seq<Call>, k: Key, c: Codec, deeds: seq<Deed>, m: nat, n: nat)
    requires Listed(calls, k, c, deeds) && Monotone(calls) && m < n < |deeds|
    requires deeds[m].wrote && deeds[n].wrote && deeds[n].read.entry.Some?
    ensures calls[deeds[m].place].at <= deeds[n].read.now
  {
    NamesAt(calls, k, c, deeds, m);
    NamesAt(calls, k, c, deeds, n);
    ReadPast(calls, k, deeds[n].read, deeds[m].place, deeds[n].place);
  }

  lemma WritesIsWrote(calls: seq<Call>, k: Key, c: Codec, deeds: seq<Deed>, m: nat)
    requires Listed(calls, k, c, deeds) && Alone(calls, k, deeds) && ReadsBack(c) && m < |deeds|
    ensures L.Writes(Cells(calls, k, c, deeds)[m], Events(calls, deeds)[m]) == deeds[m].wrote
  {
    DeedTurn(calls, k, c, deeds, m);
  }

  lemma LandsOnRead(calls: seq<Call>, k: Key, c: Codec, deeds: seq<Deed>, n: nat)
    requires Listed(calls, k, c, deeds) && Alone(calls, k, deeds) && ReadsBack(c) && Monotone(calls)
    requires n < |deeds| && deeds[n].wrote && deeds[n].read.entry.Some?
    ensures L.Landed(Events(calls, deeds), Cells(calls, k, c, deeds), n) <= deeds[n].read.now
  {
    assert L.Turn(n);
    var events, cells := Events(calls, deeds), Cells(calls, k, c, deeds);
    forall m | 0 <= m < n && L.Writes(cells[m], events[m]) ensures events[m].at <= deeds[n].read.now {
      WritesIsWrote(calls, k, c, deeds, m);
      WritersBefore(calls, k, c, deeds, m, n);
    }
    WritersBy(events, cells, n, deeds[n].read.now);
  }

  /** How many of the first calls have their place before this one. */
  function CountBefore(deeds: seq<Deed>, n: nat, i: nat): (j: nat)
    requires n <= |deeds|
    ensures j <= n
  {
    if n == 0 then 0 else if deeds[n - 1].place < i then n else CountBefore(deeds, n - 1, i)
  }

  lemma {:induction false} CountedBefore(calls: seq<Call>, deeds: seq<Deed>, n: nat, i: nat)
    requires InPlace(calls, deeds) && n <= |deeds|
    ensures var j := CountBefore(deeds, n, i);
      && (forall m :: 0 <= m < j ==> deeds[m].place < i) && (forall m :: j <= m < n ==> deeds[m].place >= i)
  {
    if n > 0 {
      if deeds[n - 1].place < i {
        forall m | 0 <= m < n ensures deeds[m].place < i {
          if m < n - 1 { assert deeds[m].place <= deeds[n - 1].place; }
        }
      } else {
        CountedBefore(calls, deeds, n - 1, i);
      }
    }
  }

  /** The cell in force where call `n` read is that of the first call placed no earlier. */
  lemma CellWhereRead(calls: seq<Call>, k: Key, deeds: seq<Deed>, n: nat, i: nat)
    requires InPlace(calls, deeds) && Alone(calls, k, deeds) && n < |deeds| && i <= deeds[n].place
    ensures var j := CountBefore(deeds, n, i);
      i <= PlaceOf(calls, deeds, j) && KeyAt(calls, PlaceOf(calls, deeds, j), k) == KeyAt(calls, i, k)
  {
    CountedBefore(calls, deeds, n, i);
    var j := CountBefore(deeds, n, i);
    var to := PlaceOf(calls, deeds, j);
    forall e: nat | i <= e < to ensures !WroteAt(deeds, e) {
      forall m | 0 <= m < |deeds| && deeds[m].wrote ensures deeds[m].place != e {
        if m >= j { assert deeds[j].place <= deeds[m].place; }
      }
    }
    Quiet(calls, k, deeds, i, to);
  }

  /** On an absence read, the key was absent at a time between the calls before and after. */
  lemma LandsOnAbsence(calls: seq<Call>, k: Key, c: Codec, deeds: seq<Deed>, n: nat) returns (j: nat)
    requires Listed(calls, k, c, deeds) && Alone(calls, k, deeds) && ReadsBack(c) && Monotone(calls)
    requires n < |deeds| && deeds[n].wrote && deeds[n].read.entry.None?
    ensures var events, cells := Events(calls, deeds), Cells(calls, k, c, deeds);
      j <= n && L.InForce(events, cells, j, n, deeds[n].read.now) && L.Found(cells[j], deeds[n].read.now).None?
  {
    assert L.Turn(n);
    WrittenNames(calls, k, c, deeds[n]);
    var x := deeds[n].read;
    var i: nat :| i <= deeds[n].place && ReadAt(calls, i, k, x);
    j := CountBefore(deeds, n, i);
    CountedBefore(calls, deeds, n, i);
    var events, cells := Events(calls, deeds), Cells(calls, k, c, deeds);
    forall m: nat | m < n && L.Writes(cells[m], events[m])
      ensures if m < j then events[m].at <= x.now else x.now <= events[m].at
    {
      WritesIsWrote(calls, k, c, deeds, m);
      if m < j {
        assert calls[deeds[m].place].at <= calls[i - 1].at;
      } else {
        assert calls[i].at <= calls[deeds[m].place].at;
      }
    }
    WritersBy(events, cells, j, x.now);
    CellWhereRead(calls, k, deeds, n, i);
    FoundIsRead(calls, PlaceOf(calls, deeds, j), k, c, x.now);
    FoundIsRead(calls, i, k, c, x.now);
  }

  lemma DeedLands(calls: seq<Call>, k: Key, c: Codec, deeds: seq<Deed>, n: nat)
    requires Listed(calls, k, c, deeds) && Alone(calls, k, deeds) && ReadsBack(c) && Monotone(calls) && n < |deeds|
    ensures L.Lands(Events(calls, deeds), Cells(calls, k, c, deeds), n)
    ensures 0 < Events(calls, deeds)[n].now <= Events(calls, deeds)[n].at
  {
    assert L.Turn(n);
    WritesIsWrote(calls, k, c, deeds, n);
    if deeds[n].wrote {
      WrittenNames(calls, k, c, deeds[n]);
      FoundIsRead(calls, deeds[n].place, k, c, calls[deeds[n].place].at);
      if deeds[n].read.entry.Some? {
        LandsOnRead(calls, k, c, deeds, n);
      } else {
        var j := LandsOnAbsence(calls, k, c, deeds, n);
      }
    }
  }

  lemma FirstQuiet(calls: seq<Call>, k: Key, c: Codec, deeds: seq<Deed>)
    requires InPlace(calls, deeds) && Alone(calls, k, deeds)
    ensures Cells(calls, k, c, deeds)[0] == None
  {
    var to := PlaceOf(calls, deeds, 0);
    forall e: nat | 0 <= e < to ensures !WroteAt(deeds, e) {
      forall m | 0 <= m < |deeds| && deeds[m].wrote ensures deeds[m].place != e {
        assert deeds[0].place <= deeds[m].place;
      }
    }
    Quiet(calls, k, deeds, 0, to);
    assert calls[..0] == [];
  }

  /** Whatever else reaches the store, all the calls on a key, listed as they came to something, are a run of
      the lockout: what each was made on is what the store had it land on. */
  lemma CallsAreAWalk(calls: seq<Call>, k: Key, c: Codec, deeds: seq<Deed>)
    requires Monotone(calls) && ReadsBack(c) && Listed(calls, k, c, deeds) && Alone(calls, k, deeds)
    ensures L.Walk(Events(calls, deeds), Cells(calls, k, c, deeds), Answers(deeds))
  {
    var events, cells := Events(calls, deeds), Cells(calls, k, c, deeds);
    FirstQuiet(calls, k, c, deeds);
    forall n: nat | n < |deeds|
      ensures L.Lands(events, cells, n) && 0 < events[n].now <= events[n].at && L.Usable(events[n].policy)
      ensures cells[n + 1] == L.Step(cells[n], events[n])
      ensures Answers(deeds)[n] == L.DecidedBy(cells[n], events[n]).1
    {
      assert L.Turn(n);
      DeedLands(calls, k, c, deeds, n);
      DeedTurn(calls, k, c, deeds, n);
    }
  }
}
