/** Fixed windows counted on the store's clock: how many uses a key's windows let through. */
module Windows {
  import opened Wrappers
  import opened Contract
  import opened Store

  /** A use that was counted, and when its window ends. */
  datatype Use = Use(at: int, resetAt: int)

  /** What a call counts on the key: a use, unless it is refused, late, or a resend met under its mark. */
  function Counts(s: Sys, c: Call, k: Key): Option<Use> {
    var op := c.request.op;
    if op.Count? && op.key == k && Executes(s.state, c.request, c.at) then
      var answer := Execute(s.state, op, c.at, Naming([], s.last)).answer;
      if answer.Counted? then Some(Use(c.at, answer.resetAt)) else None
    else None
  }

  /** The uses of a key a run counted, oldest first. */
  function UsesIn(calls: seq<Call>, k: Key): seq<Use> {
    if calls == [] then []
    else
      var init, c := calls[..|calls| - 1], calls[|calls| - 1];
      var use := Counts(Run(Sys(EMPTY, 0), init), c, k);
      if use.Some? then UsesIn(init, k) + [use.value] else UsesIn(init, k)
  }

  /** Every count of the key asks for this one window. */
  predicate OneWindow(calls: seq<Call>, k: Key, ms: nat, limit: nat) {
    forall i :: 0 <= i < |calls| ==>
      var op := calls[i].request.op;
      op.Count? && op.key == k ==> op.ms == ms && op.limit == limit
  }

  /** How many uses were counted in the window that ends at `resetAt`. */
  function InWindow(uses: seq<Use>, resetAt: int): nat {
    if uses == [] then 0
    else InWindow(uses[..|uses| - 1], resetAt) + (if uses[|uses| - 1].resetAt == resetAt then 1 else 0)
  }

  /** How many uses were counted from `from` to `to`, both ends in. */
  function Between(uses: seq<Use>, from: int, to: int): nat {
    if uses == [] then 0
    else Between(uses[..|uses| - 1], from, to) + (if from <= uses[|uses| - 1].at <= to then 1 else 0)
  }

  /** Each use lies in its window, a window opens only once the one before has ended, and none is over full. */
  ghost predicate Windowed(uses: seq<Use>, ms: nat, limit: nat) {
    && (forall i :: 0 <= i < |uses| ==> Inside(uses[i], ms))
    && (forall i, j :: 0 <= i <= j < |uses| ==> Apart(uses[i], uses[j], ms))
    && (forall w :: InWindow(uses, w) <= limit)
  }

  predicate Inside(u: Use, ms: nat) { u.resetAt - ms <= u.at < u.resetAt }

  /** The first no later than the second, in its window or in one that ended before the second's began. */
  predicate Apart(u: Use, v: Use, ms: nat) {
    u.at <= v.at && (u.resetAt == v.resetAt || u.resetAt <= v.resetAt - ms)
  }

  /** What the store keeps of the key, told by the uses it counted. */
  ghost predicate CounterTells(counters: map<Key, Counter>, k: Key, uses: seq<Use>) {
    if uses == [] then k !in counters
    else
      var w := uses[|uses| - 1].resetAt;
      k in counters && counters[k].resetAt == w && counters[k].count == InWindow(uses, w)
  }

  lemma {:induction false} InWindowPast(uses: seq<Use>, w: int)
    requires forall i :: 0 <= i < |uses| ==> uses[i].resetAt < w
    ensures InWindow(uses, w) == 0
  {
    if uses != [] { InWindowPast(uses[..|uses| - 1], w); }
  }

  lemma OneMore(uses: seq<Use>, u: Use, ms: nat, limit: nat)
    requires Windowed(uses, ms, limit) && ms > 0 && Inside(u, ms)
    requires uses != [] ==> Apart(uses[|uses| - 1], u, ms)
    requires InWindow(uses, u.resetAt) + 1 <= limit
    ensures Windowed(uses + [u], ms, limit)
    ensures InWindow(uses + [u], u.resetAt) == InWindow(uses, u.resetAt) + 1
  {
    var more := uses + [u];
    assert more[..|more| - 1] == uses;
    forall w ensures InWindow(more, w) <= limit {
      assert InWindow(uses, w) <= limit;
    }
    forall i, j | 0 <= i <= j < |more| ensures Apart(more[i], more[j], ms) {
      if j < |uses| {
        assert Apart(uses[i], uses[j], ms);
      } else if i < |uses| {
        assert Apart(uses[i], uses[|uses| - 1], ms);
      }
    }
    forall i | 0 <= i < |more| ensures Inside(more[i], ms) {
      if i < |uses| { assert Inside(uses[i], ms); }
    }
  }

  /** A request that counts nothing on a key leaves the key's counter as it is. */
  lemma CounterStays(s: Sys, c: Call, k: Key)
    requires Counts(s, c, k).None?
    ensures k in Stepped(s, c).state.counters <==> k in s.state.counters
    ensures k in s.state.counters ==> Stepped(s, c).state.counters[k] == s.state.counters[k]
  {
    HandleParts(s.state, c.request, c.at, Naming([], s.last));
    ExecuteParts(s.state, c.request.op, c.at, Naming([], s.last));
  }

  lemma {:induction false} RunCounts(calls: seq<Call>, k: Key, ms: nat, limit: nat)
    requires Monotone(calls) && OneWindow(calls, k, ms, limit) && ms > 0
    ensures Windowed(UsesIn(calls, k), ms, limit)
    ensures CounterTells(Run(Sys(EMPTY, 0), calls).state.counters, k, UsesIn(calls, k))
    ensures forall u :: u in UsesIn(calls, k) ==> calls != [] && u.at <= calls[|calls| - 1].at
  {
    if calls != [] {
      var init, c := calls[..|calls| - 1], calls[|calls| - 1];
      RunCounts(init, k, ms, limit);
      var s, uses := Run(Sys(EMPTY, 0), init), UsesIn(init, k);
      var use := Counts(s, c, k);
      if use.None? {
        CounterStays(s, c, k);
      } else {
        CountStep(s, c, k, ms, limit, uses);
      }
    }
  }

  lemma CountStep(s: Sys, c: Call, k: Key, ms: nat, limit: nat, uses: seq<Use>)
    requires Windowed(uses, ms, limit) && CounterTells(s.state.counters, k, uses) && ms > 0
    requires c.request.op.Count? ==> c.request.op.ms == ms && c.request.op.limit == limit
    requires forall u :: u in uses ==> u.at <= c.at
    requires Counts(s, c, k).Some?
    ensures var more := uses + [Counts(s, c, k).value];
      Windowed(more, ms, limit) && CounterTells(Stepped(s, c).state.counters, k, more)
  {
    var u := Counts(s, c, k).value;
    var more := uses + [u];
    var held := LookCounter(s.state.counters, k, c.at);
    if uses != [] { assert uses[|uses| - 1] in uses; }
    HandleParts(s.state, c.request, c.at, Naming([], s.last));
    if held.None? {
      forall i | 0 <= i < |uses| ensures uses[i].resetAt < u.resetAt {
        var last := uses[|uses| - 1];
        assert Apart(uses[i], last, ms);
      }
      InWindowPast(uses, u.resetAt);
    }
    OneMore(uses, u, ms, limit);
    assert more[|more| - 1] == u;
  }

  lemma {:induction false} BetweenTwo(uses: seq<Use>, from: int, to: int, v: int, w: int)
    requires forall i :: 0 <= i < |uses| && from <= uses[i].at <= to ==> uses[i].resetAt == v || uses[i].resetAt == w
    ensures Between(uses, from, to) <= InWindow(uses, v) + InWindow(uses, w)
  {
    if uses != [] { BetweenTwo(uses[..|uses| - 1], from, to, v, w); }
  }

  lemma {:induction false} NoneBetween(uses: seq<Use>, from: int, to: int)
    requires forall i :: 0 <= i < |uses| ==> !(from <= uses[i].at <= to)
    ensures Between(uses, from, to) == 0
  {
    if uses != [] { NoneBetween(uses[..|uses| - 1], from, to); }
  }

  /** Windows of one length that never overlap: any stretch that long meets two of them at most. */
  lemma TwoWindowsAtMost(uses: seq<Use>, ms: nat, limit: nat, from: int)
    requires Windowed(uses, ms, limit)
    ensures Between(uses, from, from + ms) <= 2 * limit
  {
    if i :| 0 <= i < |uses| && from <= uses[i].at <= from + ms {
      var lo := Lowest(uses, from, from + ms, i);
      var hi := Highest(uses, from, from + ms, i);
      var v, w := uses[lo].resetAt, uses[hi].resetAt;
      forall x | 0 <= x < |uses| && from <= uses[x].at <= from + ms
        ensures uses[x].resetAt == v || uses[x].resetAt == w
      {
        assert lo <= x <= hi;
        assert Apart(uses[lo], uses[x], ms) && Apart(uses[x], uses[hi], ms);
        assert Inside(uses[lo], ms) && Inside(uses[x], ms) && Inside(uses[hi], ms);
      }
      BetweenTwo(uses, from, from + ms, v, w);
      assert InWindow(uses, v) <= limit && InWindow(uses, w) <= limit;
    } else {
      NoneBetween(uses, from, from + ms);
    }
  }

  lemma Lowest(uses: seq<Use>, from: int, to: int, i: nat) returns (lo: nat)
    requires i < |uses| && from <= uses[i].at <= to
    ensures lo <= i && from <= uses[lo].at <= to
    ensures forall x :: 0 <= x < |uses| && from <= uses[x].at <= to ==> lo <= x
    decreases i
  {
    if x :| 0 <= x < i && from <= uses[x].at <= to { lo := Lowest(uses, from, to, x); } else { lo := i; }
  }

  lemma Highest(uses: seq<Use>, from: int, to: int, i: nat) returns (hi: nat)
    requires i < |uses| && from <= uses[i].at <= to
    ensures i <= hi < |uses| && from <= uses[hi].at <= to
    ensures forall x :: 0 <= x < |uses| && from <= uses[x].at <= to ==> x <= hi
    decreases |uses| - i
  {
    if x :| i < x < |uses| && from <= uses[x].at <= to { hi := Highest(uses, from, to, x); } else { hi := i; }
  }

  /** Over any run on a monotone clock, whatever else it asks: no window is over full, windows never
      overlap, and no stretch as long as one holds more than two windows' uses. */
  lemma WindowsHold(calls: seq<Call>, k: Key, ms: nat, limit: nat, from: int)
    requires Monotone(calls) && OneWindow(calls, k, ms, limit) && ms > 0
    ensures var uses := UsesIn(calls, k);
      && (forall w :: InWindow(uses, w) <= limit)
      && (forall i, j :: 0 <= i <= j < |uses| ==> Apart(uses[i], uses[j], ms))
      && Between(uses, from, from + ms) <= 2 * limit
  {
    RunCounts(calls, k, ms, limit);
    TwoWindowsAtMost(UsesIn(calls, k), ms, limit, from);
  }
}
