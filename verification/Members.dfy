/** Lists of members with their ends: kept as a map keeps its entries, ordered by end, and cut at a cap. */
module Members {
  import opened Wrappers
  import opened Text

  datatype Pair = Pair(member: string, ends: int)

  function Max(a: int, b: int): int { if a < b then b else a }

  // ---- Lists of pairs ----

  predicate Distinct(ps: seq<Pair>) {
    forall i, j :: 0 <= i < j < |ps| ==> ps[i].member != ps[j].member
  }

  function Live(ps: seq<Pair>, now: int): seq<Pair> { Filter(ps, (p: Pair) => p.ends > now) }

  /** A map's `get`, the later of two entries standing. */
  function EndOf(ps: seq<Pair>, member: string): (r: Option<int>)
    ensures r.Some? ==> Pair(member, r.value) in ps
    ensures r.None? ==> forall p :: p in ps ==> p.member != member
  {
    if ps == [] then None
    else
      assert ps == ps[..|ps| - 1] + [ps[|ps| - 1]];
      if ps[|ps| - 1].member == member then Some(ps[|ps| - 1].ends) else EndOf(ps[..|ps| - 1], member)
  }

  /** A map's `set`: in its place, or last. */
  function SetIn(ps: seq<Pair>, member: string, ends: int): seq<Pair> {
    if EndOf(ps, member).None? then ps + [Pair(member, ends)]
    else seq(|ps|, i requires 0 <= i < |ps| => if ps[i].member == member then Pair(member, ends) else ps[i])
  }

  function MapOf(ps: seq<Pair>): seq<Pair> {
    if ps == [] then [] else SetIn(MapOf(ps[..|ps| - 1]), ps[|ps| - 1].member, ps[|ps| - 1].ends)
  }

  lemma SetInFacts(ps: seq<Pair>, member: string, ends: int)
    requires Distinct(ps)
    ensures Distinct(SetIn(ps, member, ends))
    ensures forall p :: p in SetIn(ps, member, ends) <==> p == Pair(member, ends) || (p in ps && p.member != member)
  {
    var r := SetIn(ps, member, ends);
    if EndOf(ps, member).None? {
      forall i | 0 <= i < |ps| ensures ps[i].member != member { assert ps[i] in ps; }
    } else {
      var k :| 0 <= k < |ps| && ps[k] == Pair(member, EndOf(ps, member).value);
      assert r[k] == Pair(member, ends);
      forall p | p in ps && p.member != member ensures p in r {
        var i :| 0 <= i < |ps| && ps[i] == p;
        assert r[i] == p;
      }
    }
  }

  lemma {:induction false} MapOfFacts(ps: seq<Pair>)
    ensures Distinct(MapOf(ps))
    ensures forall p :: p in MapOf(ps) ==> p in ps
  {
    if ps != [] {
      var init, last := ps[..|ps| - 1], ps[|ps| - 1];
      assert ps == init + [last];
      MapOfFacts(init);
      SetInFacts(MapOf(init), last.member, last.ends);
    }
  }

  lemma {:induction false} MapOfDistinct(ps: seq<Pair>)
    requires Distinct(ps)
    ensures MapOf(ps) == ps
  {
    if ps != [] {
      var init, last := ps[..|ps| - 1], ps[|ps| - 1];
      assert ps == init + [last];
      MapOfDistinct(init);
    }
  }

  lemma {:induction false} FilterDistinct(ps: seq<Pair>, keep: Pair -> bool)
    requires Distinct(ps)
    ensures Distinct(Filter(ps, keep))
  {
    if ps != [] {
      var init, last := ps[..|ps| - 1], ps[|ps| - 1];
      FilterDistinct(init, keep);
      forall p | p in Filter(init, keep) ensures p.member != last.member {
        var i :| 0 <= i < |init| && init[i] == p;
        assert ps[i] == p;
      }
    }
  }

  /** In a list of distinct members, a member's end is the one it is listed with. */
  lemma EndListed(ps: seq<Pair>, p: Pair)
    requires Distinct(ps) && p in ps
    ensures EndOf(ps, p.member) == Some(p.ends)
  {
    var i :| 0 <= i < |ps| && ps[i] == p;
    var j :| 0 <= j < |ps| && ps[j] == Pair(p.member, EndOf(ps, p.member).value);
    assert i == j;
  }

  function Names(ps: seq<Pair>): set<string> { set p | p in ps :: p.member }

  lemma {:induction false} NamesCount(ps: seq<Pair>)
    requires Distinct(ps)
    ensures |Names(ps)| == |ps|
  {
    if ps != [] {
      var init, last := ps[..|ps| - 1], ps[|ps| - 1];
      assert ps == init + [last];
      NamesCount(init);
      assert last.member !in Names(init) by {
        forall p | p in init ensures p.member != last.member {
          var i :| 0 <= i < |init| && init[i] == p;
          assert ps[i] == p;
        }
      }
      assert Names(ps) == Names(init) + {last.member};
    }
  }

  // ---- By end, ties by member ----

  /** Ends first, or at the same time and comes first by code point. */
  predicate Before(p: Pair, q: Pair) {
    p.ends < q.ends || (p.ends == q.ends && CodePointOrder(p.member, q.member) < 0)
  }

  lemma BeforeOrders(p: Pair, q: Pair, r: Pair)
    ensures !(Before(p, q) && Before(q, p))
    ensures p.member != q.member ==> Before(p, q) || Before(q, p)
    ensures Before(p, q) && Before(q, r) ==> Before(p, r)
  {
    CodePointOrderTotal(p.member, q.member, r.member);
  }

  predicate ByEnd(ps: seq<Pair>) {
    forall i, j :: 0 <= i < j < |ps| ==> Before(ps[i], ps[j])
  }

  function Inserted(p: Pair, ps: seq<Pair>): seq<Pair> {
    if ps != [] && Before(p, ps[|ps| - 1]) then Inserted(p, ps[..|ps| - 1]) + [ps[|ps| - 1]] else ps + [p]
  }

  function SortedByEnd(ps: seq<Pair>): seq<Pair> {
    if ps == [] then [] else Inserted(ps[|ps| - 1], SortedByEnd(ps[..|ps| - 1]))
  }

  lemma {:induction false} InsertedFacts(p: Pair, ps: seq<Pair>)
    requires ByEnd(ps) && forall q :: q in ps ==> q.member != p.member
    ensures ByEnd(Inserted(p, ps))
    ensures forall q :: q in Inserted(p, ps) <==> q == p || q in ps
    ensures |Inserted(p, ps)| == |ps| + 1
  {
    if ps != [] {
      var init, last := ps[..|ps| - 1], ps[|ps| - 1];
      assert ps == init + [last];
      if Before(p, last) {
        InsertedFacts(p, init);
        forall q | q in Inserted(p, init) ensures Before(q, last) {
          if q != p { var i :| 0 <= i < |init| && init[i] == q; assert ps[i] == q; }
        }
      } else {
        forall i | 0 <= i < |ps| ensures Before(ps[i], p) {
          assert ps[i] in ps && last in ps;
          BeforeOrders(last, p, p);
          BeforeOrders(ps[i], last, p);
        }
      }
    }
  }

  lemma {:induction false} SortedFacts(ps: seq<Pair>)
    requires Distinct(ps)
    ensures ByEnd(SortedByEnd(ps)) && |SortedByEnd(ps)| == |ps|
    ensures forall p :: p in SortedByEnd(ps) <==> p in ps
  {
    if ps != [] {
      var init, last := ps[..|ps| - 1], ps[|ps| - 1];
      assert ps == init + [last];
      SortedFacts(init);
      forall q | q in SortedByEnd(init) ensures q.member != last.member {
        var i :| 0 <= i < |init| && init[i] == q;
        assert ps[i] == q;
      }
      InsertedFacts(last, SortedByEnd(init));
    }
  }

  /** Listed with no member twice, being as many as their members. */
  lemma {:induction false} CountedDistinct(ps: seq<Pair>)
    requires |Names(ps)| == |ps|
    ensures Distinct(ps)
  {
    if ps != [] {
      var init, last := ps[..|ps| - 1], ps[|ps| - 1];
      assert ps == init + [last];
      assert Names(ps) == Names(init) + {last.member};
      NamesAtMost(init);
      CountedDistinct(init);
      forall i | 0 <= i < |init| ensures init[i].member != last.member {
        assert last.member !in Names(init);
        assert init[i].member in Names(init) by { assert init[i] in init; }
      }
    }
  }

  lemma {:induction false} NamesAtMost(ps: seq<Pair>)
    ensures |Names(ps)| <= |ps|
  {
    if ps != [] {
      var init, last := ps[..|ps| - 1], ps[|ps| - 1];
      assert ps == init + [last];
      NamesAtMost(init);
      assert Names(ps) == Names(init) + {last.member};
    }
  }

  lemma SortedDistinct(ps: seq<Pair>)
    requires Distinct(ps)
    ensures Distinct(SortedByEnd(ps))
  {
    SortedFacts(ps);
    NamesCount(ps);
    assert Names(SortedByEnd(ps)) == Names(ps);
    CountedDistinct(SortedByEnd(ps));
  }

  lemma {:induction false} FilterByEnd(ps: seq<Pair>, keep: Pair -> bool)
    requires ByEnd(ps)
    ensures ByEnd(Filter(ps, keep))
  {
    if ps != [] {
      var init, last := ps[..|ps| - 1], ps[|ps| - 1];
      FilterByEnd(init, keep);
      forall p | p in Filter(init, keep) ensures Before(p, last) {
        var i :| 0 <= i < |init| && init[i] == p;
        assert ps[i] == p;
      }
    }
  }

  // ---- What is over the cap ----

  datatype Capped = Capped(held: seq<Pair>, out: seq<string>)

  function MembersOf(ps: seq<Pair>): (r: seq<string>)
    ensures |r| == |ps| && forall i :: 0 <= i < |ps| ==> r[i] == ps[i].member
  {
    seq(|ps|, i requires 0 <= i < |ps| => ps[i].member)
  }

  function Others(ps: seq<Pair>, added: string): seq<Pair> { Filter(ps, (p: Pair) => p.member != added) }

  function OverCap(byEnd: seq<Pair>, added: string, cap: nat): Capped {
    var over := Max(0, |byEnd| - cap);
    var others := Others(byEnd, added);
    var out := MembersOf(others[..if over <= |others| then over else |others|]);
    Capped(Filter(byEnd, (p: Pair) => p.member !in out), out)
  }

  predicate NoneTwice(names: seq<string>) {
    forall i, j :: 0 <= i < j < |names| ==> names[i] != names[j]
  }

  /** What was added stays; of the others exactly the first to end go, as many as are over the cap. */
  ghost predicate CappedSo(byEnd: seq<Pair>, added: string, cap: nat, c: Capped) {
    && added !in c.out && NoneTwice(c.out) && Distinct(c.held)
    && (forall name :: name in c.out ==> name in Names(byEnd))
    && (forall p :: p in c.held <==> p in byEnd && p.member !in c.out)
    && |c.out| == Max(0, |byEnd| - cap) && |c.held| == |byEnd| - |c.out|
    && (forall p, q :: p in byEnd && p.member in c.out && q in c.held && q.member != added ==> Before(p, q))
  }

  lemma OverCapFacts(byEnd: seq<Pair>, added: string, cap: nat)
    requires ByEnd(byEnd) && Distinct(byEnd) && cap >= 1 && added in Names(byEnd)
    ensures CappedSo(byEnd, added, cap, OverCap(byEnd, added, cap))
  {
    var c, others := OverCap(byEnd, added, cap), Others(byEnd, added);
    FilterDistinct(byEnd, (p: Pair) => p.member != added);
    FilterByEnd(byEnd, (p: Pair) => p.member != added);
    NamesCount(byEnd);
    NamesCount(others);
    assert Names(others) == Names(byEnd) - {added};
    assert |others| == |byEnd| - 1;
    assert forall name :: name in c.out ==> exists i :: 0 <= i < |c.out| && others[i].member == name;
    forall i | 0 <= i < |c.out| ensures c.out[i] != added && c.out[i] in Names(byEnd) { assert others[i] in others; }
    HeldCount(byEnd, c.out, c.held);
    FilterDistinct(byEnd, (p: Pair) => p.member !in c.out);
    forall p, q | p in byEnd && p.member in c.out && q in c.held && q.member != added ensures Before(p, q) {
      OutEndsFirst(byEnd, added, cap, p, q);
    }
  }

  lemma FirstOut(others: seq<Pair>, over: nat, i: nat, q: Pair)
    requires ByEnd(others) && i < over <= |others| && q in others && q.member !in MembersOf(others[..over])
    ensures Before(others[i], q)
  {
    var j :| 0 <= j < |others| && others[j] == q;
    var out := MembersOf(others[..over]);
    assert forall k :: 0 <= k < over ==> out[k] == others[k].member && out[k] in out;
  }

  lemma OutEndsFirst(byEnd: seq<Pair>, added: string, cap: nat, p: Pair, q: Pair)
    requires ByEnd(byEnd) && Distinct(byEnd) && p in byEnd && q in OverCap(byEnd, added, cap).held
    requires p.member in OverCap(byEnd, added, cap).out && q.member != added
    ensures Before(p, q)
  {
    var c, others := OverCap(byEnd, added, cap), Others(byEnd, added);
    FilterByEnd(byEnd, (p: Pair) => p.member != added);
    var i :| 0 <= i < |c.out| && c.out[i] == p.member;
    assert others[i] in others;
    EndListed(byEnd, others[i]);
    EndListed(byEnd, p);
    FirstOut(others, |c.out|, i, q);
  }

  lemma HeldCount(byEnd: seq<Pair>, out: seq<string>, held: seq<Pair>)
    requires Distinct(byEnd) && NoneTwice(out) && forall name :: name in out ==> name in Names(byEnd)
    requires held == Filter(byEnd, (p: Pair) => p.member !in out)
    ensures |held| == |byEnd| - |out|
  {
    FilterDistinct(byEnd, (p: Pair) => p.member !in out);
    NamesCount(byEnd);
    NamesCount(held);
    var gone := set name | name in out;
    SetCount(out, gone);
    assert Names(held) == Names(byEnd) - gone;
  }

  lemma {:induction false} SetCount(names: seq<string>, all: set<string>)
    requires NoneTwice(names) && all == set name | name in names
    ensures |all| == |names|
  {
    if names != [] {
      var init := names[..|names| - 1];
      assert names == init + [names[|names| - 1]];
      SetCount(init, set name | name in init);
      assert all == (set name | name in init) + {names[|names| - 1]};
    }
  }
}
