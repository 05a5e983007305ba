/** What a client set out to do to the records, and what its writes may come to however the run goes on:
    the whole of it at one instant, or nothing. */
module Works {
  import opened Wrappers
  import opened Json
  import opened Contract
  import opened Store
  import opened Marks
  import opened Serial
  import opened Effects

  datatype Work =
    | Changing(txn: Txn)
    | Rewriting(key: Key, decide: Decide)
    | Creating(key: Key, value: int -> Json, expiry: Expiry)
    | Removing(key: Key)

  /** One view comes of another by the work done whole, alone, at this time. */
  ghost predicate Whole(before: View, t: int, after: View, w: Work) {
    match w
    case Changing(txn) => TxnStep(before, t, txn).Some? && TxnStep(before, t, txn).value.view == after
    case Rewriting(k, decide) => exists m: Try :: RewriteStep(before, t, k, decide, m).view == after
    case Creating(k, value, x) =>
      LiveValue(before, k, t).None? && exists deadline: int :: after == SetCell(before, k, value(deadline), x, t)
    case Removing(k) => after == RemoveStep(before, t, k)
  }

  ghost predicate WorkedAt(calls: seq<Call>, e: nat, w: Work) {
    e < |calls| && Whole(ViewAt(calls, e), calls[e].at, ViewAt(calls, e + 1), w)
  }

  /** However the run goes on, whatever a call that bears one of these requests changes is the whole of the work. */
  ghost predicate WholeOnly(calls: seq<Call>, rs: set<Request>, w: Work) {
    forall future: seq<Call>, i: nat ::
      calls <= future && Monotone(future) && i < |future| && future[i].request in rs && ChangesView(future, i) ==>
        WorkedAt(future, i, w)
  }

  lemma ChangeIsOfRest(calls: seq<Call>, all: set<Request>, rest: set<Request>, i: nat, future: seq<Call>)
    requires forall r :: r in all && r !in rest ==> Inert(calls, r)
    requires calls <= future && Monotone(future) && i < |future| && future[i].request in all
    ensures ChangesView(future, i) ==> future[i].request in rest
  {
    if future[i].request !in rest { assert Inert(calls, future[i].request); }
  }

  /** Writes that never change anything do the work no harm, before it or after. */
  lemma WholeAside(was: seq<Call>, calls: seq<Call>, all: set<Request>, rest: set<Request>, w: Work)
    requires was <= calls && WholeOnly(was, rest, w)
    requires forall r :: r in all && r !in rest ==> Inert(calls, r)
    ensures WholeOnly(calls, all, w)
  {
    forall future: seq<Call>, i: nat |
      calls <= future && Monotone(future) && i < |future| && future[i].request in all && ChangesView(future, i)
      ensures WorkedAt(future, i, w)
    {
      ChangeIsOfRest(calls, all, rest, i, future);
    }
  }

  lemma InertIsWhole(calls: seq<Call>, rs: set<Request>, w: Work)
    requires forall r :: r in rs ==> Inert(calls, r)
    ensures WholeOnly(calls, rs, w)
  {
    WholeAside(calls, calls, rs, {}, w);
  }
}
