/** Work done on records by many clients at once comes out as if each piece were done alone, one after another,
    in the order their writes were carried out; a client that never heard did its work whole, or nothing. */
module Order {
  import opened Wrappers
  import opened Json
  import opened Contract
  import opened Store
  import opened Marks
  import opened Serial
  import opened Effects
  import opened Works
  import opened Records
  import opened Together

  /** What a client was told. */
  datatype Told =
    | TheChanges(answer: AllChanged)
    | TheRewrite(done: Changed)
    | Created
    | Exists
    | Removed

  /** One client's call: its work, all it sent for it, the calls between its start and its end, and what it was
      told, with the instant that tells of; none when it never heard. */
  datatype Client = Client(work: Work, sent: set<Request>, from: nat, until: nat, told: Option<Telling>)

  datatype Telling = Telling(told: Told, instant: nat)

  /** The work done alone on one view at this time leaves the other, and this is what there is to tell of it. */
  ghost predicate Tells(before: View, t: int, after: View, w: Work, told: Told) {
    match told
    case TheChanges(a) =>
      w.Changing? && TxnStep(before, t, w.txn) == Some(TxnDone(after, a.targets, a.watched))
    case TheRewrite(done) =>
      w.Rewriting? && exists m: Try ::
        RewriteStep(before, t, w.key, w.decide, m) == Rewritten(after, done.before, done.after)
    case Created => w.Creating? && Whole(before, t, after, w)
    case Exists => w.Creating? && after == before && LiveValue(before, w.key, t).Some?
    case Removed => w.Removing? && Whole(before, t, after, w)
  }

  ghost predicate TellsAt(calls: seq<Call>, e: nat, w: Work, told: Told) {
    e < |calls| && Tells(ViewAt(calls, e), calls[e].at, ViewAt(calls, e + 1), w, told)
  }

  /** What each operation promises its client, of this run and however it goes on. */
  ghost predicate Served(calls: seq<Call>, c: Client) {
    && OneChange(calls, c.sent) && WholeOnly(calls, c.sent, c.work)
    && (c.told.Some? ==>
      var telling := c.told.value;
      && c.from <= telling.instant < c.until && TellsAt(calls, telling.instant, c.work, telling.told)
      && OnlyAt(calls, c.sent, telling.instant))
  }

  // ---- Every operation's own promise is this one ----

  lemma ChangeServed(calls: seq<Call>, from: nat, txn: Txn, answer: AllChanged, rs: set<Request>) returns (c: Client)
    requires OneChange(calls, rs) && WholeOnly(calls, rs, Changing(txn)) && ChangedFrom(calls, from, txn, answer, rs)
    ensures Served(calls, c) && c.work == Changing(txn) && c.sent == rs && c.from == from && c.until == |calls|
    ensures c.told.Some? && c.told.value.told == TheChanges(answer)
  {
    var e: nat :| from <= e && ChangedAt(calls, e, txn, answer) && OnlyAt(calls, rs, e);
    c := Client(Changing(txn), rs, from, |calls|, Some(Telling(TheChanges(answer), e)));
  }

  lemma RewriteServed(calls: seq<Call>, from: nat, k: Key, decide: Decide, m: Try, done: Changed, rs: set<Request>)
    returns (c: Client)
    requires OneChange(calls, rs) && WholeOnly(calls, rs, Rewriting(k, decide))
    requires RewrittenFrom(calls, from, k, decide, m, done, rs)
    ensures Served(calls, c) && c.work == Rewriting(k, decide) && c.sent == rs && c.from == from && c.until == |calls|
    ensures c.told.Some? && c.told.value.told == TheRewrite(done)
  {
    var e: nat :| from <= e && RewrittenAt(calls, e, k, decide, m, done) && OnlyAt(calls, rs, e);
    c := Client(Rewriting(k, decide), rs, from, |calls|, Some(Telling(TheRewrite(done), e)));
    assert RewriteStep(ViewAt(calls, e), calls[e].at, k, decide, m)
      == Rewritten(ViewAt(calls, e + 1), done.before, done.after);
  }

  lemma CreateServed(calls: seq<Call>, from: nat, k: Key, value: int -> Json, x: Expiry, rs: set<Request>)
    returns (c: Client)
    requires OneChange(calls, rs) && WholeOnly(calls, rs, Creating(k, value, x))
    requires CreatedFrom(calls, from, k, value, x, rs)
    ensures Served(calls, c) && c.work == Creating(k, value, x) && c.sent == rs && c.from == from && c.until == |calls|
    ensures c.told.Some? && c.told.value.told == Created
  {
    var deadline: int :| WroteFrom(calls, from, k, None, Decided(value(deadline), x), rs);
    var d := Decided(value(deadline), x);
    var e: nat :| from <= e && WroteAt(calls, e, k, None, d) && OnlyAt(calls, rs, e);
    WroteIsWhole(calls, e, k, None, d, Try(deadline, 0), Creating(k, value, x));
    c := Client(Creating(k, value, x), rs, from, |calls|, Some(Telling(Created, e)));
  }

  lemma ExistsServed(calls: seq<Call>, from: nat, k: Key, value: int -> Json, x: Expiry, rs: set<Request>)
    returns (c: Client)
    requires OneChange(calls, rs) && WholeOnly(calls, rs, Creating(k, value, x)) && HeldFrom(calls, from, k, rs)
    ensures Served(calls, c) && c.work == Creating(k, value, x) && c.sent == rs && c.from == from && c.until == |calls|
    ensures c.told.Some? && c.told.value.told == Told.Exists
  {
    var e: nat, entry: Held :| from <= e && KeptAt(calls, e, k, Some(entry)) && OnlyAt(calls, rs, e);
    c := Client(Creating(k, value, x), rs, from, |calls|, Some(Telling(Told.Exists, e)));
  }

  lemma RemoveServed(calls: seq<Call>, from: nat, k: Key, rs: set<Request>) returns (c: Client)
    requires OneChange(calls, rs) && WholeOnly(calls, rs, Removing(k)) && RemovedFrom(calls, from, k, rs)
    ensures Served(calls, c) && c.work == Removing(k) && c.sent == rs && c.from == from && c.until == |calls|
    ensures c.told.Some? && c.told.value.told == Told.Removed
  {
    var e: nat :| from <= e && RemovedAt(calls, e, k) && OnlyAt(calls, rs, e);
    c := Client(Removing(k), rs, from, |calls|, Some(Telling(Told.Removed, e)));
  }

  lemma SameViews(was: seq<Call>, calls: seq<Call>, e: nat)
    requires was <= calls && e < |was|
    ensures calls[e] == was[e] && ViewAt(calls, e) == ViewAt(was, e) && ViewAt(calls, e + 1) == ViewAt(was, e + 1)
  {
    Extends(START, was, calls, e);
    assert calls[..e] == was[..e] && calls[..e + 1] == was[..e + 1];
  }

  /** What a client was promised goes on holding as the run goes on. */
  lemma ServedLater(was: seq<Call>, calls: seq<Call>, c: Client)
    requires was <= calls && Served(was, c)
    ensures Served(calls, c)
  {
    if c.told.Some? { SameViews(was, calls, c.told.value.instant); }
  }

  // ---- One after another ----

  /** One piece of work done alone: whose, when, and what it met and left. */
  datatype Turn = Turn(client: nat, at: int, before: View, after: View)

  /** From nothing to this, by these turns and nothing between them. */
  predicate Chain(run: seq<Turn>, last: View) {
    if run == [] then last == map[]
    else run[|run| - 1].after == last && Chain(run[..|run| - 1], run[|run| - 1].before)
  }

  /** The client has a turn at its place, and what it was told is what there is to tell of that turn. */
  ghost predicate TurnOf(run: seq<Turn>, p: nat, j: nat, c: Client) {
    p < |run| && run[p].client == j
    && (c.told.Some? ==> Tells(run[p].before, run[p].at, run[p].after, c.work, c.told.value.told))
  }

  ghost predicate OneByOne(run: seq<Turn>, clients: seq<Client>) {
    && (forall p :: 0 <= p < |run| ==>
      && run[p].client < |clients| && TurnOf(run, p, run[p].client, clients[run[p].client])
      && (clients[run[p].client].told.None? ==>
           Whole(run[p].before, run[p].at, run[p].after, clients[run[p].client].work)))
    && (forall p, q :: 0 <= p < q < |run| ==> run[p].at <= run[q].at && run[p].client != run[q].client)
  }

  /** Every client told has its turn, and a client told before another began has it before the other's. */
  ghost predicate KeepsOrder(run: seq<Turn>, clients: seq<Client>) {
    && (forall j :: 0 <= j < |clients| && clients[j].told.Some? ==> exists p :: TurnOf(run, p, j, clients[j]))
    && (forall p, q |
          0 <= p < |run| && 0 <= q < |run| && run[p].client < |clients| && run[q].client < |clients| ::
          Precedes(clients[run[p].client], clients[run[q].client]) ==> p < q)
  }

  predicate Precedes(c: Client, d: Client) { c.told.Some? && d.told.Some? && c.until <= d.from }

  /** Names a client or a call, for a proof to look into that one only. */
  predicate Nth(j: nat) { true }

  /** Every client is served, none sent what another did, and nobody else changes a record. */
  ghost predicate AllServed(calls: seq<Call>, clients: seq<Client>) {
    && (forall j: nat {:trigger Nth(j)} :: j < |clients| ==> Served(calls, clients[j]))
    && (forall i: nat, j: nat {:trigger Nth(i), Nth(j)} :: i < j < |clients| ==> clients[i].sent !! clients[j].sent)
    && (forall i :: 0 <= i < |calls| && ChangesView(calls, i) ==> SentBySome(clients, calls[i].request))
  }

  ghost predicate SentBySome(clients: seq<Client>, r: Request) {
    exists j :: 0 <= j < |clients| && r in clients[j].sent
  }

  /** The client's work was done at this call. */
  ghost predicate DoneAt(calls: seq<Call>, c: Client, i: nat) {
    && i < |calls| && calls[i].request in c.sent
    && (if c.told.Some? then i == c.told.value.instant else ChangesView(calls, i))
  }

  lemma SentApart(calls: seq<Call>, c: Client, d: Client, i: nat)
    requires c.sent !! d.sent
    ensures !(DoneAt(calls, c, i) && DoneAt(calls, d, i))
  {
  }

  lemma OneOwner(calls: seq<Call>, clients: seq<Client>, i: nat, j: nat, k: nat)
    requires AllServed(calls, clients) && j < |clients| && k < |clients|
    ensures DoneAt(calls, clients[j], i) && DoneAt(calls, clients[k], i) ==> j == k
  {
    assert Nth(j) && Nth(k);
    if j < k { SentApart(calls, clients[j], clients[k], i); }
    if k < j { SentApart(calls, clients[k], clients[j], i); }
  }

  lemma OneTurn(calls: seq<Call>, c: Client, i: nat, k: nat)
    requires Monotone(calls) && Served(calls, c) && i < k
    ensures !(DoneAt(calls, c, i) && DoneAt(calls, c, k))
  {
  }

  lemma ChangeIsItsWork(calls: seq<Call>, c: Client, i: nat)
    requires Monotone(calls) && Served(calls, c) && i < |calls| && calls[i].request in c.sent
    ensures ChangesView(calls, i) ==> DoneAt(calls, c, i)
  {
  }

  lemma ItsWorkIsDone(calls: seq<Call>, clients: seq<Client>, i: nat, j: nat)
    requires Monotone(calls) && AllServed(calls, clients) && i < |calls| && ChangesView(calls, i)
    requires j < |clients| && calls[i].request in clients[j].sent
    ensures DoneAt(calls, clients[j], i)
  {
    assert Nth(j);
    ChangeIsItsWork(calls, clients[j], i);
  }

  /** Where a record changes, somebody's work is done. */
  lemma SomebodysIsDone(calls: seq<Call>, clients: seq<Client>, i: nat)
    requires Monotone(calls) && AllServed(calls, clients) && i < |calls| && ChangesView(calls, i)
    ensures exists j: nat :: j < |clients| && DoneAt(calls, clients[j], i)
  {
    assert SentBySome(clients, calls[i].request);
    var j: nat :| j < |clients| && calls[i].request in clients[j].sent;
    ItsWorkIsDone(calls, clients, i, j);
  }

  function TurnAt(calls: seq<Call>, j: nat, i: nat): Turn
    requires i < |calls|
  {
    Turn(j, calls[i].at, ViewAt(calls, i), ViewAt(calls, i + 1))
  }

  lemma DoneIsWhole(calls: seq<Call>, c: Client, i: nat)
    requires Monotone(calls) && Served(calls, c) && DoneAt(calls, c, i)
    ensures c.told.Some? ==> TellsAt(calls, i, c.work, c.told.value.told)
    ensures c.told.None? ==> WorkedAt(calls, i, c.work)
  {
  }

  /** The turns so far, each with the call it was done at. */
  ghost predicate Placed(calls: seq<Call>, clients: seq<Client>, n: nat, run: seq<Turn>, places: seq<nat>) {
    && |places| == |run| && n <= |calls|
    && (forall p :: 0 <= p < |run| ==>
      && places[p] < n && run[p].client < |clients| && DoneAt(calls, clients[run[p].client], places[p])
      && run[p] == TurnAt(calls, run[p].client, places[p]))
    && (forall p, q :: 0 <= p < q < |run| ==> places[p] < places[q])
    && (forall i: nat {:trigger Nth(i)} :: i < n ==> PlacedIfDone(calls, clients, places, i))
  }

  ghost predicate PlacedIfDone(calls: seq<Call>, clients: seq<Client>, places: seq<nat>, i: nat) {
    forall j: nat :: j < |clients| && DoneAt(calls, clients[j], i) ==> i in places
  }

  lemma BeginsEmpty(calls: seq<Call>)
    ensures ViewAt(calls, 0) == map[]
  {
    assert calls[..0] == [];
  }

  lemma PlacedSame(calls: seq<Call>, clients: seq<Client>, n: nat, run: seq<Turn>, places: seq<nat>)
    requires Placed(calls, clients, n, run, places) && n < |calls|
    requires forall j: nat :: j < |clients| ==> !DoneAt(calls, clients[j], n)
    ensures Placed(calls, clients, n + 1, run, places)
  {
    forall i: nat | i < n + 1 ensures PlacedIfDone(calls, clients, places, i) {
      if i < n { assert Nth(i); }
    }
  }

  lemma PlacedMore(calls: seq<Call>, clients: seq<Client>, n: nat, run: seq<Turn>, places: seq<nat>, j: nat)
    requires Placed(calls, clients, n, run, places) && n < |calls| && j < |clients| && DoneAt(calls, clients[j], n)
    ensures Placed(calls, clients, n + 1, run + [TurnAt(calls, j, n)], places + [n])
  {
    assert (places + [n])[|places|] == n;
    forall i: nat | i < n + 1 ensures PlacedIfDone(calls, clients, places + [n], i) {
      if i < n { assert Nth(i) && PlacedIfDone(calls, clients, places, i); }
    }
  }

  /** One more call, which is somebody's turn or changes nothing. */
  lemma NextTurn(calls: seq<Call>, clients: seq<Client>, n: nat, before: seq<Turn>, at: seq<nat>)
    returns (run: seq<Turn>, places: seq<nat>)
    requires Monotone(calls) && AllServed(calls, clients) && n < |calls|
    requires Placed(calls, clients, n, before, at) && Chain(before, ViewAt(calls, n))
    ensures Placed(calls, clients, n + 1, run, places) && Chain(run, ViewAt(calls, n + 1))
  {
    if j: nat :| j < |clients| && DoneAt(calls, clients[j], n) {
      run, places := before + [TurnAt(calls, j, n)], at + [n];
      assert run[..|run| - 1] == before;
      PlacedMore(calls, clients, n, before, at, j);
    } else {
      if ChangesView(calls, n) { SomebodysIsDone(calls, clients, n); }
      run, places := before, at;
      PlacedSame(calls, clients, n, before, at);
    }
  }

  lemma {:induction false} InTurns(calls: seq<Call>, clients: seq<Client>, n: nat)
    returns (run: seq<Turn>, places: seq<nat>)
    requires Monotone(calls) && AllServed(calls, clients) && n <= |calls|
    ensures Placed(calls, clients, n, run, places) && Chain(run, ViewAt(calls, n))
  {
    if n == 0 {
      BeginsEmpty(calls);
      run, places := [], [];
    } else {
      run, places := InTurns(calls, clients, n - 1);
      run, places := NextTurn(calls, clients, n - 1, run, places);
    }
  }

  lemma PlacedOneByOne(calls: seq<Call>, clients: seq<Client>, run: seq<Turn>, places: seq<nat>)
    requires Monotone(calls) && AllServed(calls, clients) && Placed(calls, clients, |calls|, run, places)
    ensures OneByOne(run, clients)
  {
    forall p | 0 <= p < |run| ensures
      && TurnOf(run, p, run[p].client, clients[run[p].client])
      && (clients[run[p].client].told.None? ==>
           Whole(run[p].before, run[p].at, run[p].after, clients[run[p].client].work))
    {
      assert Nth(run[p].client);
      DoneIsWhole(calls, clients[run[p].client], places[p]);
    }
    forall p, q | 0 <= p < q < |run| ensures run[p].at <= run[q].at && run[p].client != run[q].client {
      assert Nth(run[p].client);
      OneTurn(calls, clients[run[p].client], places[p], places[q]);
    }
  }

  lemma ToldIsDone(calls: seq<Call>, clients: seq<Client>, j: nat)
    requires AllServed(calls, clients) && j < |clients| && clients[j].told.Some?
    ensures DoneAt(calls, clients[j], clients[j].told.value.instant)
    ensures clients[j].from <= clients[j].told.value.instant < clients[j].until
  {
    assert Nth(j);
  }

  lemma ToldHasTurn(calls: seq<Call>, clients: seq<Client>, run: seq<Turn>, places: seq<nat>, j: nat) returns (p: nat)
    requires AllServed(calls, clients) && Placed(calls, clients, |calls|, run, places)
    requires j < |clients| && clients[j].told.Some?
    ensures p < |run| && run[p].client == j
  {
    ToldIsDone(calls, clients, j);
    var e := clients[j].told.value.instant;
    assert Nth(e) && PlacedIfDone(calls, clients, places, e);
    p :| p < |places| && places[p] == e;
    OneOwner(calls, clients, e, j, run[p].client);
  }

  lemma EarlierTurn(calls: seq<Call>, clients: seq<Client>, run: seq<Turn>, places: seq<nat>, p: nat, q: nat)
    requires AllServed(calls, clients) && Placed(calls, clients, |calls|, run, places) && p < |run| && q < |run|
    requires run[p].client < |clients| && run[q].client < |clients|
    requires Precedes(clients[run[p].client], clients[run[q].client])
    ensures p < q
  {
    ToldIsDone(calls, clients, run[p].client);
    ToldIsDone(calls, clients, run[q].client);
    assert places[p] < places[q];
  }

  lemma PlacedKeepsOrder(calls: seq<Call>, clients: seq<Client>, run: seq<Turn>, places: seq<nat>)
    requires AllServed(calls, clients) && Placed(calls, clients, |calls|, run, places) && OneByOne(run, clients)
    ensures KeepsOrder(run, clients)
  {
    forall j: nat | j < |clients| && clients[j].told.Some? ensures exists p: nat :: TurnOf(run, p, j, clients[j]) {
      var p := ToldHasTurn(calls, clients, run, places, j);
      assert TurnOf(run, p, j, clients[j]);
    }
    forall p: nat, q: nat | p < |run| && q < |run| && run[p].client < |clients| && run[q].client < |clients|
      && Precedes(clients[run[p].client], clients[run[q].client])
      ensures p < q
    {
      EarlierTurn(calls, clients, run, places, p, q);
    }
  }

  /** In any interleaving, with any sends lost, repeated or late: the records come of work done one piece at a
      time, from nothing. Each client told has one turn, and was told what came of it; a client told before
      another began comes before it; and one never told has one turn, its work done whole, or none. */
  lemma Serializable(calls: seq<Call>, clients: seq<Client>) returns (run: seq<Turn>)
    requires Monotone(calls) && AllServed(calls, clients)
    ensures Chain(run, ViewAt(calls, |calls|)) && OneByOne(run, clients) && KeepsOrder(run, clients)
  {
    var places: seq<nat>;
    run, places := InTurns(calls, clients, |calls|);
    PlacedOneByOne(calls, clients, run, places);
    PlacedKeepsOrder(calls, clients, run, places);
  }
}
