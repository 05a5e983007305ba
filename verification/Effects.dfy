/** What one client's marked writes can change, whatever else reaches the store and whenever copies arrive. */
module Effects {
  import opened Wrappers
  import opened Json
  import opened Contract
  import opened Store
  import opened Marks
  import opened Serial

  function ViewAt(calls: seq<Call>, i: nat): View
    requires i <= |calls|
  {
    ViewOf(Met(calls, i).values)
  }

  /** Call `i` changed something. */
  ghost predicate ChangesView(calls: seq<Call>, i: nat)
    requires i < |calls|
  {
    ViewAt(calls, i + 1) != ViewAt(calls, i)
  }

  /** However the run goes on, no copy of the request changes anything, past or to come. */
  ghost predicate Inert(calls: seq<Call>, r: Request) {
    forall future: seq<Call>, i: nat ::
      calls <= future && Monotone(future) && i < |future| && future[i].request == r ==> !ChangesView(future, i)
  }

  /** However the run goes on, one call at most, of all that bear these requests, changes anything. */
  ghost predicate OneChange(calls: seq<Call>, rs: set<Request>) {
    forall future: seq<Call>, i: nat, j: nat ::
      calls <= future && Monotone(future) && i < j < |future| && future[i].request in rs && future[j].request in rs ==>
        !(ChangesView(future, i) && ChangesView(future, j))
  }

  /** However the run goes on, of all calls that bear these requests only call `e`, one of them, may change
      anything. */
  ghost predicate OnlyAt(calls: seq<Call>, rs: set<Request>, e: nat) {
    && e < |calls| && calls[e].request in rs
    && forall future: seq<Call>, i: nat ::
      calls <= future && Monotone(future) && i < |future| && i != e && future[i].request in rs ==>
        !ChangesView(future, i)
  }

  lemma OnlyEffectsChange(calls: seq<Call>, i: nat)
    requires i < |calls| && ChangesView(calls, i)
    ensures TookEffect(calls, i)
  {
    RunPrefix(START, calls, i);
    var s := Before(START, calls, i);
    if !TookEffect(calls, i) {
      HandleParts(s.state, calls[i].request, calls[i].at, Naming([], s.last));
      RefusedChangesNothing(s.state, calls[i].request, calls[i].at, Naming([], s.last));
    }
  }

  lemma MarkedChangesOnce(calls: seq<Call>, r: Request)
    requires r.deadline.Some? && MarksOf(r) != []
    ensures OneChange(calls, {r})
  {
    forall future: seq<Call>, i: nat, j: nat |
      calls <= future && Monotone(future) && i < j < |future| && future[i].request in {r} && future[j].request in {r}
      ensures !(ChangesView(future, i) && ChangesView(future, j))
    {
      if ChangesView(future, i) && ChangesView(future, j) {
        OnlyEffectsChange(future, i);
        OnlyEffectsChange(future, j);
        CopiesGetFirstAnswer(future, i, j);
      }
    }
  }

  /** Carried out once, a marked write is carried out nowhere else. */
  lemma CarriedOnlyAt(calls: seq<Call>, r: Request, e: nat)
    requires e < |calls| && calls[e].request == r && CarriedOut(calls, e)
    requires r.deadline.Some? && MarksOf(r) != []
    ensures OnlyAt(calls, {r}, e)
  {
    forall future: seq<Call>, i: nat |
      calls <= future && Monotone(future) && i < |future| && i != e && future[i].request in {r}
      ensures !ChangesView(future, i)
    {
      Extends(START, calls, future, e);
      assert future[e] == calls[e];
      if ChangesView(future, i) {
        OnlyEffectsChange(future, i);
        if i < e { CopiesGetFirstAnswer(future, i, e); }
        if e < i { CopiesGetFirstAnswer(future, e, i); }
      }
    }
  }

  /** A write answered with a refusal never takes effect, whenever a copy of it arrives. */
  lemma RefusedIsInert(calls: seq<Call>, r: Request, e: nat)
    requires e < |calls| && calls[e].request == r && CarriedOut(calls, e) && !Wrote(AnsweredAt(calls, e))
    requires r.deadline.Some? && MarksOf(r) != []
    ensures Inert(calls, r)
  {
    forall future: seq<Call>, i: nat | calls <= future && Monotone(future) && i < |future| && future[i].request == r
      ensures !ChangesView(future, i)
    {
      Extends(START, calls, future, e);
      assert future[e] == calls[e];
      if ChangesView(future, i) {
        OnlyEffectsChange(future, i);
        if i < e { CopiesGetFirstAnswer(future, i, e); }
        if e < i { CopiesGetFirstAnswer(future, e, i); }
      }
    }
  }

  lemma {:induction false} SettledWritesUnseen(values: map<Key, Held>, ws: seq<BatchWrite>, t: int, n: Naming)
    requires forall w :: w in ws ==> w.Put? && w.key.name == SETTLED
    ensures ViewOf(WriteAll(values, ws, t, n).values) == ViewOf(values)
  {
    if ws != [] {
      var init, w := ws[..|ws| - 1], ws[|ws| - 1];
      assert w in ws;
      SettledWritesUnseen(values, init, t, n);
      var done := WriteAll(values, init, t, n);
      ViewPlaced(done.values, w.key, w.value, w.expiry, t, Named(done.naming));
    }
  }

  /** Whether a request writes only marks that confirm what was read. */
  predicate OnlySettles(r: Request) {
    (r.op.Batch? || r.op.BatchAcross?) && forall w :: w in r.op.writes ==> w.Put? && w.key.name == SETTLED
  }

  lemma SettlingIsInert(calls: seq<Call>, r: Request)
    requires OnlySettles(r)
    ensures Inert(calls, r)
  {
    forall future: seq<Call>, i: nat | calls <= future && Monotone(future) && i < |future| && future[i].request == r
      ensures !ChangesView(future, i)
    {
      SettlingUnseen(future, i);
    }
  }

  lemma SettlingUnseen(calls: seq<Call>, i: nat)
    requires i < |calls| && OnlySettles(calls[i].request)
    ensures !ChangesView(calls, i)
  {
    RunPrefix(START, calls, i);
    var s := Before(START, calls, i);
    HandleParts(s.state, calls[i].request, calls[i].at, Naming([], s.last));
    SettledWritesUnseen(s.state.values, calls[i].request.op.writes, calls[i].at, Naming([], s.last));
  }

  lemma InertLater(calls: seq<Call>, more: seq<Call>, r: Request)
    requires Inert(calls, r) && calls <= more
    ensures Inert(more, r)
  {
    forall future: seq<Call>, i: nat | more <= future && Monotone(future) && i < |future| && future[i].request == r
      ensures !ChangesView(future, i)
    {
      assert calls <= future;
    }
  }

  /** Writes that never change anything, and others of which one at most does: of them all, one at most. */
  lemma InertsAside(calls: seq<Call>, all: set<Request>, rest: set<Request>)
    requires forall r :: r in all && r !in rest ==> Inert(calls, r)
    requires OneChange(calls, rest)
    ensures OneChange(calls, all)
  {
    forall future: seq<Call>, i: nat, j: nat |
      calls <= future && Monotone(future) && i < j < |future| && future[i].request in all && future[j].request in all
      ensures !(ChangesView(future, i) && ChangesView(future, j))
    {
      if future[i].request !in rest { assert Inert(calls, future[i].request); }
      if future[j].request !in rest { assert Inert(calls, future[j].request); }
    }
  }

  lemma InertsBeside(calls: seq<Call>, all: set<Request>, rest: set<Request>, e: nat)
    requires forall r :: r in all && r !in rest ==> Inert(calls, r)
    requires OnlyAt(calls, rest, e) && rest <= all
    ensures OnlyAt(calls, all, e)
  {
    forall future: seq<Call>, i: nat |
      calls <= future && Monotone(future) && i < |future| && i != e && future[i].request in all
      ensures !ChangesView(future, i)
    {
      if future[i].request !in rest { assert Inert(calls, future[i].request); }
    }
  }

  // ---- The instant a write was carried out ----

  function CarriedTo(calls: seq<Call>, e: nat): Outcome
    requires e < |calls|
  {
    Execute(Met(calls, e), calls[e].request.op, calls[e].at, Naming([], Before(START, calls, e).last))
  }

  lemma CarriedStep(calls: seq<Call>, e: nat)
    requires e < |calls| && CarriedOut(calls, e)
    ensures AnsweredAt(calls, e) == CarriedTo(calls, e).answer
    ensures Met(calls, e + 1).values == CarriedTo(calls, e).state.values
  {
    RunPrefix(START, calls, e);
    var s := Before(START, calls, e);
    HandleParts(s.state, calls[e].request, calls[e].at, Naming([], s.last));
  }

  /** What a read showed is still there, at the version read, when a write on that version is carried out. */
  lemma ReadStands(calls: seq<Call>, i: nat, e: nat, k: Key, held: Held)
    requires i <= |calls| && e < |calls|
    requires k in Met(calls, i).values && Met(calls, i).values[k] == held
    requires Look(Met(calls, e).values, k, calls[e].at).Some?
    requires Met(calls, e).values[k].version == held.version
    ensures Look(Met(calls, e).values, k, calls[e].at) == Some(held)
  {
    VersionMeansEntry(calls, i, e, k);
  }

  lemma ReplaceInstant(calls: seq<Call>, i: nat, e: nat, k: Key, held: Held, v: Json, x: Expiry)
    requires i <= |calls| && e < |calls| && k.name != SETTLED
    requires k in Met(calls, i).values && Met(calls, i).values[k] == held
    requires calls[e].request.op == ReplaceIf(k, held.version, v, x)
    requires CarriedOut(calls, e) && AnsweredAt(calls, e).Written?
    ensures LiveValue(ViewAt(calls, e), k, calls[e].at) == Some(held.value)
    ensures ViewAt(calls, e + 1) == SetCell(ViewAt(calls, e), k, v, x, calls[e].at)
  {
    CarriedStep(calls, e);
    var s := Before(START, calls, e);
    ReadStands(calls, i, e, k, held);
    ViewLooks(s.state.values, k, calls[e].at);
    ViewPlaced(s.state.values, k, v, x, calls[e].at, s.last + 1);
  }

  lemma PutInstant(calls: seq<Call>, e: nat, k: Key, v: Json, x: Expiry)
    requires e < |calls| && k.name != SETTLED
    requires calls[e].request.op == PutIfAbsent(k, v, x)
    requires CarriedOut(calls, e) && AnsweredAt(calls, e).Written?
    ensures LiveValue(ViewAt(calls, e), k, calls[e].at) == None
    ensures ViewAt(calls, e + 1) == SetCell(ViewAt(calls, e), k, v, x, calls[e].at)
  {
    PutStep(calls, e, k, v, x);
    PutViewed(Met(calls, e).values, k, v, x, calls[e].at, Before(START, calls, e).last + 1);
  }

  lemma PutViewed(values: map<Key, Held>, k: Key, v: Json, x: Expiry, t: int, version: Version)
    requires k.name != SETTLED && Look(values, k, t).None?
    ensures LiveValue(ViewOf(values), k, t) == None
    ensures ViewOf(Placed(values, k, v, x, t, version)) == SetCell(ViewOf(values), k, v, x, t)
  {
    ViewLooks(values, k, t);
    ViewPlaced(values, k, v, x, t, version);
  }

  lemma PutStep(calls: seq<Call>, e: nat, k: Key, v: Json, x: Expiry)
    requires e < |calls| && calls[e].request.op == PutIfAbsent(k, v, x)
    requires CarriedOut(calls, e) && AnsweredAt(calls, e).Written?
    ensures var s := Before(START, calls, e);
      && Look(s.state.values, k, calls[e].at).None?
      && Met(calls, e + 1).values == Placed(s.state.values, k, v, x, calls[e].at, s.last + 1)
  {
    CarriedStep(calls, e);
    var s := Before(START, calls, e);
    PutExecutes(s.state, k, v, x, calls[e].at, s.last);
  }

  lemma PutExecutes(s: State, k: Key, v: Json, x: Expiry, t: int, last: nat)
    ensures var done := Execute(s, PutIfAbsent(k, v, x), t, Naming([], last));
      done.answer.Written? ==> Look(s.values, k, t).None? && done.state.values == Placed(s.values, k, v, x, t, last + 1)
  {
  }

  /** A batch that committed met every condition at that instant, and left what its writes leave. */
  lemma BatchInstant(calls: seq<Call>, e: nat)
    requires e < |calls| && CarriedOut(calls, e) && AnsweredAt(calls, e).Committed?
    requires calls[e].request.op.Batch? || calls[e].request.op.BatchAcross?
    ensures var op, s := calls[e].request.op, Before(START, calls, e);
      && (forall i :: 0 <= i < |op.conditions| ==> Holds(s.state.values, op.conditions[i], calls[e].at))
      && Met(calls, e + 1).values == WriteAll(s.state.values, op.writes, calls[e].at, Naming([], s.last)).values
  {
    CarriedStep(calls, e);
  }
}
