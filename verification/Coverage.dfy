/** Whether trusted-proxy blocks together cover an address family: every source would then be undetermined. */
module Coverage {
  import opened Wrappers
  import opened Bits
  import opened Addresses

  /** Where IPv4 lies inside IPv6: the mapped addresses, as a mapped peer is checked as IPv4. */
  const MAPPED_START: nat := 0xffff_0000_0000
  const MAPPED_END: nat := 0xffff_ffff_ffff

  datatype Interval = Interval(start: int, end: int)

  predicate Inside(x: int, i: Interval) { i.start <= x <= i.end }

  // ---- Intervals ----

  predicate ByStart(s: seq<Interval>) {
    forall i, j :: 0 <= i < j < |s| ==> s[i].start <= s[j].start
  }

  predicate SomeHolds(s: seq<Interval>, x: int) { exists i :: i in s && Inside(x, i) }

  function Inserted(i: Interval, s: seq<Interval>): seq<Interval> {
    if s != [] && i.start < s[|s| - 1].start then Inserted(i, s[..|s| - 1]) + [s[|s| - 1]] else s + [i]
  }

  function ToSorted(s: seq<Interval>): seq<Interval> {
    if s == [] then [] else Inserted(s[|s| - 1], ToSorted(s[..|s| - 1]))
  }

  lemma {:induction false} InsertedSame(i: Interval, s: seq<Interval>)
    ensures multiset(Inserted(i, s)) == multiset(s) + multiset{i}
  {
    if s != [] && i.start < s[|s| - 1].start {
      assert s == s[..|s| - 1] + [s[|s| - 1]];
      InsertedSame(i, s[..|s| - 1]);
    }
  }

  lemma {:induction false} InsertedSorted(i: Interval, s: seq<Interval>)
    requires ByStart(s)
    ensures ByStart(Inserted(i, s)) && forall j :: j in Inserted(i, s) ==> j == i || j in s
  {
    if s != [] && i.start < s[|s| - 1].start {
      var init, last := s[..|s| - 1], s[|s| - 1];
      InsertedSorted(i, init);
      forall j | j in Inserted(i, init) ensures j.start <= last.start {
        if j != i { var k :| 0 <= k < |init| && init[k] == j; assert s[k] == j; }
      }
    }
  }

  lemma {:induction false} SortedIsSorted(s: seq<Interval>)
    ensures ByStart(ToSorted(s)) && multiset(ToSorted(s)) == multiset(s)
  {
    if s != [] {
      var init, last := s[..|s| - 1], s[|s| - 1];
      SortedIsSorted(init);
      InsertedSorted(last, ToSorted(init));
      InsertedSame(last, ToSorted(init));
      assert multiset(s) == multiset(init) + multiset{last} by { assert s == init + [last]; }
    }
  }

  lemma SameHolds(s: seq<Interval>, x: int)
    ensures SomeHolds(ToSorted(s), x) <==> SomeHolds(s, x)
    ensures forall i :: i in ToSorted(s) <==> i in s
  {
    SortedIsSorted(s);
    assert forall i :: i in ToSorted(s) <==> i in multiset(ToSorted(s));
    assert forall i :: i in s <==> i in multiset(s);
  }

  /** Whether intervals together cover every number from 0 to `last`, in whatever order they are given. */
  method CoverAll(intervals: seq<Interval>, last: nat) returns (all: bool)
    requires forall i :: i in intervals ==> 0 <= i.start <= i.end && i.start <= last
    ensures all <==> forall x :: 0 <= x <= last ==> SomeHolds(intervals, x)
  {
    var sorted := ToSorted(intervals);
    SortedIsSorted(intervals);
    forall x ensures SomeHolds(sorted, x) <==> SomeHolds(intervals, x) { SameHolds(intervals, x); }
    SameHolds(intervals, 0);
    var reached := -1;
    var n := 0;
    while n < |sorted|
      invariant n <= |sorted| && -1 <= reached
      invariant forall x :: 0 <= x <= reached ==> SomeHolds(sorted, x)
      invariant forall j :: 0 <= j < n ==> sorted[j].end <= reached
    {
      var i := sorted[n];
      assert i in sorted;
      if i.start > reached + 1 {
        LeftOut(sorted, n, reached + 1);
        return false;
      }
      if i.end > reached {
        forall x | reached < x <= i.end ensures SomeHolds(sorted, x) { assert Inside(x, i); }
        reached := i.end;
      }
      n := n + 1;
    }
    if reached < last { LeftOut(sorted, n, reached + 1); }
    return reached >= last;
  }

  /** Past the ends of those seen and before the starts of those to come, a number is in none. */
  lemma LeftOut(sorted: seq<Interval>, n: nat, x: int)
    requires ByStart(sorted) && n <= |sorted| && forall j :: 0 <= j < n ==> sorted[j].end < x
    requires n < |sorted| ==> x < sorted[n].start
    ensures !SomeHolds(sorted, x)
  {
    forall i | i in sorted ensures !Inside(x, i) {
      var j :| 0 <= j < |sorted| && sorted[j] == i;
      if j > n { assert sorted[n].start <= sorted[j].start; }
    }
  }

  // ---- Blocks ----

  datatype Family = V4 | V6

  /** An entry read: its address's number, and how many leading bits its block shares. */
  datatype Block = Block(family: Family, value: nat, prefix: Option<nat>)

  function BitsOf(f: Family): nat { if f.V4? then 32 else 128 }

  function LastOf(f: Family): nat { if f.V4? then LAST4 else LAST6 }

  predicate Fits(b: Block) { b.value <= LastOf(b.family) && (b.prefix.Some? ==> b.prefix.value <= BitsOf(b.family)) }

  function PrefixOf(b: Block): nat { b.prefix.GetOr(BitsOf(b.family)) }

  /** The addresses of a block's family that share its prefix: the same leading bits. */
  ghost predicate Shares(b: Block, x: nat)
    requires Fits(b)
  {
    && x <= LastOf(b.family)
    && forall k: nat :: BitsOf(b.family) - PrefixOf(b) <= k < BitsOf(b.family) ==> Bit(x, k) == Bit(b.value, k)
  }

  function IntervalOf(b: Block): Interval
    requires Fits(b)
  {
    var host := BitsOf(b.family) - PrefixOf(b);
    var start := Shl(Shr(b.value, host), host);
    Interval(start, Or(start, Pow2(host) - 1))
  }

  lemma FamilyBits(f: Family)
    ensures Pow2(BitsOf(f)) == LastOf(f) + 1
  {
    FamilySizes();
  }

  lemma PrefixBits(x: nat, value: nat, host: nat, m: nat)
    requires x < Pow2(host + m) && value < Pow2(host + m)
    ensures Shr(x, host) == Shr(value, host) <==>
      forall k: nat :: host <= k < host + m ==> Bit(x, k) == Bit(value, k)
  {
    ShrBelow(x, host, m);
    ShrBelow(value, host, m);
    SameBits(Shr(x, host), Shr(value, host), m);
    forall k: nat | k < m
      ensures Bit(Shr(x, host), k) == Bit(x, host + k) && Bit(Shr(value, host), k) == Bit(value, host + k)
    {
      ShrTwice(x, host, k);
      ShrTwice(value, host, k);
    }
    if forall k: nat :: k < m ==> Bit(Shr(x, host), k) == Bit(Shr(value, host), k) {
      forall k: nat | host <= k < host + m ensures Bit(x, k) == Bit(value, k) {
        assert Bit(Shr(x, host), k - host) == Bit(Shr(value, host), k - host);
      }
    }
  }

  /** A block's interval is exactly the addresses that share its prefix. */
  lemma IntervalShares(b: Block, x: nat)
    requires Fits(b)
    ensures Inside(x, IntervalOf(b)) <==> Shares(b, x)
    ensures 0 <= IntervalOf(b).start <= b.value <= IntervalOf(b).end <= LastOf(b.family)
  {
    var host := BitsOf(b.family) - PrefixOf(b);
    var q := Shr(b.value, host);
    FamilyBits(b.family);
    OrLow(q, Pow2(host) - 1, host);
    ShrBetween(b.value, q, host);
    ShrBetween(x, q, host);
    IntervalEnds(b, q, host);
    if x <= LastOf(b.family) { PrefixBits(x, b.value, host, PrefixOf(b)); }
  }

  /** The last address of a block is of its family. */
  lemma IntervalEnds(b: Block, q: nat, host: nat)
    requires Fits(b) && host == BitsOf(b.family) - PrefixOf(b) && q == Shr(b.value, host)
    ensures Shl(q, host) + Pow2(host) - 1 <= LastOf(b.family)
  {
    FamilyBits(b.family);
    ShrBelow(b.value, host, PrefixOf(b));
    Pow2Adds(PrefixOf(b), host);
    ShlIsTimes(q, host);
    TimesAtMost(q, Pow2(PrefixOf(b)), Pow2(host));
  }

  lemma TimesAtMost(q: nat, p: nat, h: nat)
    requires q + 1 <= p
    ensures q * h + h <= p * h
  {
    assert (q + 1) * h <= p * h;
  }

  // ---- What a list of one block checks ----

  /** An address as a number of the block's family: a mapped one is taken as IPv4, and IPv4 as mapped. */
  function NumberIn(b: Block, f: Family, x: int): Option<int> {
    if b.family == f then Some(x)
    else if f.V4? then Some(MAPPED_START + x)
    else if MAPPED_START <= x <= MAPPED_END then Some(x - MAPPED_START)
    else None
  }

  predicate Has(b: Block, f: Family, x: int)
    requires Fits(b)
  {
    var n := NumberIn(b, f, x); n.Some? && Inside(n.value, IntervalOf(b))
  }

  /** Both ends of a family are held. */
  predicate CoversAlone(b: Block)
    requires Fits(b)
  {
    (Has(b, V4, 0) && Has(b, V4, LAST4)) || (Has(b, V6, 0) && Has(b, V6, LAST6))
  }

  ghost predicate HoldsAll(b: Block, f: Family)
    requires Fits(b)
  {
    forall x :: 0 <= x <= LastOf(f) ==> Has(b, f, x)
  }

  /** One block that holds both ends of a family holds all of it. */
  lemma BothEndsIsAll(b: Block)
    requires Fits(b)
    ensures CoversAlone(b) <==> HoldsAll(b, V4) || HoldsAll(b, V6)
  {
    if HoldsAll(b, V4) { assert Has(b, V4, 0) && Has(b, V4, LastOf(V4)); }
    if HoldsAll(b, V6) { assert Has(b, V6, 0) && Has(b, V6, LastOf(V6)); }
  }

  /** An address some entry holds, of those that cover no family alone; an entry that is no block counts for nothing. */
  ghost predicate Held(entries: seq<Option<Block>>, f: Family, x: int)
    requires AllFit(entries)
  {
    exists e :: e in entries && Counts(e) && Has(e.value, f, x)
  }

  predicate AllFit(entries: seq<Option<Block>>) { forall e :: e in entries && e.Some? ==> Fits(e.value) }

  predicate Counts(e: Option<Block>)
    requires e.Some? ==> Fits(e.value)
  {
    e.Some? && !CoversAlone(e.value)
  }

  ghost predicate AllHeld(entries: seq<Option<Block>>, f: Family)
    requires AllFit(entries)
  {
    forall x :: 0 <= x <= LastOf(f) ==> Held(entries, f, x)
  }

  /** With every IPv6 address held every IPv4 one is, being mapped among them: the second comparison never
      tells more than the first. */
  lemma Ipv6HoldsIpv4(entries: seq<Option<Block>>)
    requires AllFit(entries) && AllHeld(entries, V6)
    ensures AllHeld(entries, V4)
  {
    forall x | 0 <= x <= LAST4 ensures Held(entries, V4, x) {
      assert Held(entries, V6, MAPPED_START + x);
      var e :| e in entries && Counts(e) && Has(e.value, V6, MAPPED_START + x);
      assert Has(e.value, V4, x);
    }
  }

  // ---- The intervals together ----

  /** An IPv6 block's share of the mapped addresses, as IPv4. */
  function ShareOf(i: Interval): Option<Interval> {
    var low := if i.start > MAPPED_START then i.start else MAPPED_START;
    var high := if i.end < MAPPED_END then i.end else MAPPED_END;
    if low <= high then Some(Interval(low - MAPPED_START, high - MAPPED_START)) else None
  }

  /** The intervals one entry gives, of IPv4 and of IPv6. */
  function Gives(e: Option<Block>, f: Family): Option<Interval>
    requires e.Some? ==> Fits(e.value)
  {
    if !Counts(e) then None
    else if e.value.family == f then Some(IntervalOf(e.value))
    else if f.V4? then ShareOf(IntervalOf(e.value))
    else None
  }

  lemma GivesHeld(e: Option<Block>, x: int)
    requires (e.Some? ==> Fits(e.value)) && 0 <= x <= LAST4
    ensures Counts(e) && Has(e.value, V4, x) <==> Gives(e, V4).Some? && Inside(x, Gives(e, V4).value)
  {
  }

  lemma GivesFits(e: Option<Block>, f: Family)
    requires (e.Some? ==> Fits(e.value)) && Gives(e, f).Some?
    ensures var i := Gives(e, f).value; 0 <= i.start <= i.end && i.start <= LastOf(f)
  {
    IntervalShares(e.value, e.value.value);
  }

  predicate Given(entries: seq<Option<Block>>, f: Family, i: Interval)
    requires AllFit(entries)
  {
    exists e :: e in entries && Gives(e, f) == Some(i)
  }

  function GivenAll(entries: seq<Option<Block>>, f: Family): seq<Interval>
    requires AllFit(entries)
  {
    if entries == [] then []
    else
      var init, last := GivenAll(entries[..|entries| - 1], f), Gives(entries[|entries| - 1], f);
      if last.Some? then init + [last.value] else init
  }

  lemma {:induction false} InGiven(entries: seq<Option<Block>>, f: Family, i: Interval)
    requires AllFit(entries)
    ensures i in GivenAll(entries, f) <==> Given(entries, f, i)
  {
    if entries != [] {
      var init, last := entries[..|entries| - 1], entries[|entries| - 1];
      assert entries == init + [last];
      InGiven(init, f, i);
      if Given(entries, f, i) { var e :| e in entries && Gives(e, f) == Some(i); }
      if Gives(last, f) == Some(i) { assert last in entries; }
    }
  }

  /** Whether entries together cover a whole family: exactly when, of the blocks that cover none alone, the
      addresses held leave out none of IPv4, the IPv6 blocks' mapped share counted, or none of IPv6. */
  method CoverAFamilyTogether(entries: seq<Option<Block>>) returns (covers: bool)
    requires AllFit(entries)
    ensures covers <==> AllHeld(entries, V4) || AllHeld(entries, V6)
  {
    var v4, v6: seq<Interval> := [], [];
    var n := 0;
    while n < |entries|
      invariant n <= |entries|
      invariant v4 == GivenAll(entries[..n], V4) && v6 == GivenAll(entries[..n], V6)
    {
      var e := entries[n];
      assert entries[..n + 1][..n] == entries[..n];
      if e.Some? && !CoversAlone(e.value) {
        var i := IntervalOf(e.value);
        if e.value.family.V4? {
          v4 := v4 + [i];
        } else {
          v6 := v6 + [i];
          var share := ShareOf(i);
          if share.Some? { v4 := v4 + [share.value]; }
        }
      }
      n := n + 1;
    }
    assert entries[..n] == entries;
    forall i ensures (i in v4 <==> Given(entries, V4, i)) && (i in v6 <==> Given(entries, V6, i)) {
      InGiven(entries, V4, i);
      InGiven(entries, V6, i);
    }
    GivenFits(entries, V4);
    GivenFits(entries, V6);
    var all4 := CoverAll(v4, LAST4);
    GivenHolds4(entries, v4);
    if all4 { return true; }
    var all6 := CoverAll(v6, LAST6);
    GivenHolds6(entries, v6);
    if AllHeld(entries, V6) { Ipv6HoldsIpv4(entries); }
    return all6;
  }

  lemma GivenFits(entries: seq<Option<Block>>, f: Family)
    requires AllFit(entries)
    ensures forall i :: Given(entries, f, i) ==> 0 <= i.start <= i.end && i.start <= LastOf(f)
  {
    forall i | Given(entries, f, i) ensures 0 <= i.start <= i.end && i.start <= LastOf(f) {
      var e :| e in entries && Gives(e, f) == Some(i);
      GivesFits(e, f);
    }
  }

  lemma GivenHolds4(entries: seq<Option<Block>>, v4: seq<Interval>)
    requires AllFit(entries) && forall i :: i in v4 <==> Given(entries, V4, i)
    ensures forall x :: 0 <= x <= LAST4 ==> (SomeHolds(v4, x) <==> Held(entries, V4, x))
  {
    forall x | 0 <= x <= LAST4 ensures SomeHolds(v4, x) <==> Held(entries, V4, x) {
      if SomeHolds(v4, x) {
        var i :| i in v4 && Inside(x, i);
        var e :| e in entries && Gives(e, V4) == Some(i);
        GivesHeld(e, x);
      }
      if Held(entries, V4, x) {
        var e :| e in entries && Counts(e) && Has(e.value, V4, x);
        GivesHeld(e, x);
        assert Given(entries, V4, Gives(e, V4).value);
      }
    }
  }

  /** What the IPv6 blocks hold is held. */
  lemma GivenHolds6(entries: seq<Option<Block>>, v6: seq<Interval>)
    requires AllFit(entries) && forall i :: i in v6 <==> Given(entries, V6, i)
    ensures forall x :: SomeHolds(v6, x) ==> Held(entries, V6, x)
  {
    forall x | SomeHolds(v6, x) ensures Held(entries, V6, x) {
      var i :| i in v6 && Inside(x, i);
      var e :| e in entries && Gives(e, V6) == Some(i);
      assert Has(e.value, V6, x);
    }
  }
}
