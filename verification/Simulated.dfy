/** The simulated store as it changes: each operation is one turn, and comes to the step of the same name. */
module Simulated {
  import opened Wrappers
  import opened Contract
  import opened Store
  import opened Locality
  import opened Replication

  class SimulatedStore {
    const declared: Declared
    var primary: State
    var replica: State
    var pending: seq<Logged>
    var confirmed: seq<Logged>
    /** The count all versions come from, whichever store names them. */
    var last: nat
    var logged: nat
    var loseNext: bool
    var writesFail: bool
    var stalled: bool

    ghost function Here(): Sim
      reads this
    {
      Sim(primary, replica, pending, confirmed, last, logged, loseNext, writesFail, stalled)
    }

    ghost predicate Valid()
      reads this
    {
      Inv(declared, Here())
    }

    constructor (declared: Declared)
      ensures Valid() && Here() == START && this.declared == declared
    {
      this.declared := declared;
      primary, replica, pending, confirmed, last, logged := EMPTY, EMPTY, [], [], 0, 0;
      loseNext, writesFail, stalled := false, false, false;
    }

    /** Takes a log's writes again, each at its own time and by the versions it named, counting none. */
    method Replay(target: State, log: seq<Logged>) returns (s: State)
      requires Faithful(target, log)
      modifies this`last
      ensures s == ReplayAll(target, log) && last == old(last)
    {
      s := target;
      var i := 0;
      while i < |log|
        invariant i <= |log| && s == ReplayAll(target, log[..i]) && last == old(last)
      {
        FaithfulPrefix(target, log, i + 1);
        assert log[..i + 1][..i] == log[..i];
        var l := log[i];
        HandleGiven(s, l.request, l.at, l.versions, 0, last);
        var done := Handle(s, l.request, l.at, Naming(l.versions, last));
        s, last := done.state, done.naming.last;
        i := i + 1;
      }
      assert log[..i] == log;
    }

    /** Brings the replica up to everything the primary holds. */
    method Confirm()
      requires Valid()
      modifies this
      ensures Valid() && Here() == CaughtUp(old(Here()))
    {
      CaughtUpKeeps(declared, Here());
      ReplaysFaithfully(declared, Here());
      replica := Replay(replica, pending);
      confirmed := confirmed + pending;
      pending := [];
    }

    /** A write's turn: taken by the primary, and logged whatever it is answered, a refusal too. */
    method Apply(r: Request, now: int) returns (reply: Reply)
      requires Valid() && Joins(declared, r.op)
      modifies this
      ensures Valid() && (Here(), reply) == TakeWrite(declared, old(Here()), r, now)
    {
      WriteKeeps(declared, Here(), r, now);
      if writesFail { return Unavailable; }
      var done := Handle(primary, r, now, Naming([], last));
      if done.answer == Spans { return Unavailable; }
      var serial := logged;
      Log(r, now, done);
      if loseNext {
        loseNext := false;
        return Unavailable;
      }
      return if Confirms(GuaranteesOf(declared, r.op), done.answer)
        then Awaiting(done.answer, serial) else Reply.Answered(done.answer);
    }

    method Log(r: Request, now: int, done: Outcome)
      requires done == Handle(primary, r, now, Naming([], last))
      modifies this
      ensures Here() == LogOne(old(Here()), r, now)
    {
      HandleAgain(primary, r, now, last, 0);
      pending := pending + [Logged(logged, r, now, VersionsAfter(last, done.naming.last))];
      primary, last, logged := done.state, done.naming.last, logged + 1;
    }

    /** A read's turn. */
    method ApplyRead(k: Key, now: int) returns (reply: Reply)
      requires Valid()
      modifies this
      ensures Valid() && (Here(), reply) == TakeRead(declared, old(Here()), k, now)
    {
      if stalled && ConfirmedReads in declared(k.space) { return Unavailable; }
      var read := Look(primary.values, k, now);
      if ConfirmedReads in declared(k.space) { Confirm(); }
      return Found(read);
    }

    /** A write's confirmation, in a turn of its own: unavailable if a failover lost it meanwhile. */
    method ConfirmWrite(serial: nat) returns (reply: Reply)
      requires Valid()
      modifies this
      ensures Valid() && (Here(), reply) == TakeConfirm(old(Here()), serial)
    {
      if stalled { return Unavailable; }
      if Logs(pending, serial) {
        Confirm();
        return Confirmed;
      }
      return if Logs(confirmed, serial) then Confirmed else Unavailable;
    }

    /** The replica takes over, and what was not confirmed is lost. */
    method FailOver()
      requires Valid()
      modifies this
      ensures Valid() && Here() == FailedOver(old(Here()))
    {
      FailedOverKeeps(declared, Here());
      ReplaysFaithfully(declared, Here());
      primary := replica;
      pending := [];
      replica := Replay(EMPTY, confirmed);
    }

    /** Rebuilds both stores from the log, keeping only spaces that declare the guarantee. */
    method KeepOnly(kept: Guarantee)
      requires Valid()
      modifies this
      ensures Valid() && Here() == KeptOnly(declared, kept, old(Here()))
    {
      KeptFaithfully(declared, kept, Here());
      confirmed := Keeping(declared, kept, confirmed);
      pending := Keeping(declared, kept, pending);
      replica := Replay(EMPTY, confirmed);
      primary := Replay(EMPTY, confirmed + pending);
    }
  }

  lemma KeptFaithfully(g: Declared, kept: Guarantee, s: Sim)
    requires Inv(g, s)
    ensures Inv(g, KeptOnly(g, kept, s))
    ensures var t := KeptOnly(g, kept, s); Faithful(EMPTY, t.confirmed) && Faithful(EMPTY, t.confirmed + t.pending)
  {
    KeptOnlyKeeps(g, kept, s, SpacesNamed(s.confirmed + s.pending));
    ReplaysFaithfully(g, KeptOnly(g, kept, s));
  }

  lemma ReplaysFaithfully(g: Declared, s: Sim)
    requires Inv(g, s)
    ensures Faithful(EMPTY, s.confirmed) && Faithful(EMPTY, s.confirmed + s.pending) && Faithful(s.replica, s.pending)
  {
    Opened(g, s);
    ReplayConcat(EMPTY, s.confirmed, s.pending);
  }

  lemma {:induction false} FaithfulPrefix(s: State, log: seq<Logged>, n: nat)
    requires Faithful(s, log) && n <= |log|
    ensures Faithful(s, log[..n])
    decreases |log|
  {
    if n == |log| {
      assert log[..n] == log;
    } else {
      FaithfulPrefix(s, log[..|log| - 1], n);
      assert log[..|log| - 1][..n] == log[..n];
    }
  }
}
