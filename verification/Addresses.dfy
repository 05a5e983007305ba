/** IPv4 and IPv6 addresses as numbers, from the parts their text is split into. */
module Addresses {
  import opened Wrappers
  import opened Bits

  const LAST4: nat := 0xffff_ffff
  const LAST6: nat := 0xffff_ffff_ffff_ffff_ffff_ffff_ffff_ffff

  lemma Sixteen()
    ensures Pow2(16) == 0x1_0000
  {
    assert Pow2(4) == 0x10;
    Pow2Adds(4, 4);
    assert Pow2(8) == 0x100;
    Pow2Adds(8, 8);
  }

  lemma FamilySizes()
    ensures Pow2(32) == LAST4 + 1 && Pow2(128) == LAST6 + 1
  {
    Sixteen();
    Pow2Adds(16, 16);
    assert Pow2(32) == 0x1_0000_0000;
    Pow2Adds(32, 32);
    assert Pow2(64) == 0x1_0000_0000_0000_0000;
    Pow2Adds(64, 64);
  }

  // ---- Addresses as numbers ----

  /** An address as its text is split: the IPv6 groups before and after `::`, and a dotted tail. */
  datatype Address =
    | Dotted(octets: seq<nat>)
    | Groups(before: seq<nat>, after: Option<seq<nat>>, tail: Option<seq<nat>>)

  predicate Octets(parts: seq<nat>) { |parts| == 4 && forall i :: 0 <= i < 4 ==> parts[i] < 0x100 }

  function Hex(a: Address): nat
    requires a.Groups?
  {
    |a.before| + (if a.after.Some? then |a.after.value| else 0) + (if a.tail.Some? then 2 else 0)
  }

  predicate GroupsFit(groups: seq<nat>) { forall i :: 0 <= i < |groups| ==> groups[i] < 0x1_0000 }

  /** What is an address: four octets, or eight groups, fewer where `::` stands for the rest. */
  predicate IsAddress(a: Address) {
    match a
    case Dotted(octets) => Octets(octets)
    case Groups(before, after, tail) =>
      && GroupsFit(before) && (after.Some? ==> GroupsFit(after.value)) && (tail.Some? ==> Octets(tail.value))
      && (if after.Some? then Hex(a) <= 7 else Hex(a) == 8)
  }

  /** Joined by shifts of so many bits. */
  function Joined(parts: seq<nat>, bits: nat): nat {
    if parts == [] then 0 else Or(Shl(Joined(parts[..|parts| - 1], bits), bits), parts[|parts| - 1])
  }

  function Ipv4Number(octets: seq<nat>): nat { Joined(octets, 8) }

  /** A dotted tail as its two groups. */
  function TailGroups(tail: Option<seq<nat>>): seq<nat> {
    if tail.None? then [] else [Shr(Ipv4Number(tail.value), 16), Ipv4Number(tail.value) % 0x1_0000]
  }

  /** The groups written out: what `::` leaves out is zeros, and a dotted tail ends whichever part is last. */
  function AllGroups(a: Address): seq<nat>
    requires a.Groups?
  {
    if a.after.None? then a.before + TailGroups(a.tail)
    else
      var after := a.after.value + TailGroups(a.tail);
      var fill := 8 - |a.before| - |after|;
      a.before + seq(if fill < 0 then 0 else fill, _ => 0) + after
  }

  function Ipv6Number(a: Address): nat
    requires a.Groups?
  {
    Joined(AllGroups(a), 16)
  }

  lemma JoinedLast(parts: seq<nat>, bits: nat)
    requires parts != [] && parts[|parts| - 1] < Pow2(bits)
    ensures var init := Joined(parts[..|parts| - 1], bits);
      Joined(parts, bits) == Shl(init, bits) + parts[|parts| - 1] && Shr(Joined(parts, bits), bits) == init
  {
    var init := Joined(parts[..|parts| - 1], bits);
    OrLow(init, parts[|parts| - 1], bits);
    ShrBetween(Joined(parts, bits), init, bits);
  }

  /** Shifted down, a joined number is its leading parts joined: each part is where it was put. */
  lemma {:induction false} JoinedParts(parts: seq<nat>, bits: nat, k: nat)
    requires k <= |parts| && forall j :: 0 <= j < |parts| ==> parts[j] < Pow2(bits)
    ensures ShrTimes(Joined(parts, bits), bits, k) == Joined(parts[..|parts| - k], bits)
    ensures k < |parts| ==> var n := ShrTimes(Joined(parts, bits), bits, k);
      n - Shl(Shr(n, bits), bits) == parts[|parts| - 1 - k]
    decreases k
  {
    if k == 0 {
      assert parts[..|parts|] == parts;
      if parts != [] { JoinedLast(parts, bits); }
    } else {
      var init := parts[..|parts| - 1];
      JoinedLast(parts, bits);
      JoinedParts(init, bits, k - 1);
      assert init[..|init| - (k - 1)] == parts[..|parts| - k];
    }
  }

  lemma JoinedBelow(parts: seq<nat>, bits: nat)
    requires forall j :: 0 <= j < |parts| ==> parts[j] < Pow2(bits)
    ensures Joined(parts, bits) < Pow2(bits * |parts|)
  {
    JoinedParts(parts, bits, |parts|);
    assert parts[..0] == [];
    ShrTimesIs(Joined(parts, bits), bits, |parts|);
    ShrZero(Joined(parts, bits), bits * |parts|);
  }

  function Value(a: Address): nat { if a.Dotted? then Ipv4Number(a.octets) else Ipv6Number(a) }

  lemma Ipv4Fits(octets: seq<nat>)
    requires Octets(octets)
    ensures Ipv4Number(octets) <= LAST4
  {
    assert Pow2(8) == 0x100;
    JoinedBelow(octets, 8);
    FamilySizes();
  }

  lemma TailFits(tail: Option<seq<nat>>)
    requires tail.Some? ==> Octets(tail.value)
    ensures GroupsFit(TailGroups(tail)) && |TailGroups(tail)| == if tail.Some? then 2 else 0
  {
    if tail.Some? {
      Ipv4Fits(tail.value);
      FamilySizes();
      ShrBelow(Ipv4Number(tail.value), 16, 16);
      Sixteen();
    }
  }

  /** A dotted tail is the low thirty-two bits: its two groups joined are its number. */
  lemma TailJoins(tail: seq<nat>)
    requires Octets(tail)
    ensures Joined(TailGroups(Some(tail)), 16) == Ipv4Number(tail)
  {
    var n, groups := Ipv4Number(tail), TailGroups(Some(tail));
    Sixteen();
    TailFits(Some(tail));
    var high, low := groups[0], groups[1];
    JoinedLast(groups, 16);
    assert groups[..1] == [high];
    JoinedLast([high], 16);
    assert [high][..0] == [];
    ShlZero(16);
    ShlIsTimes(high, 16);
    ShrBetween(n, high, 16);
    LowPart(n, high);
  }

  lemma LowPart(n: nat, high: nat)
    requires high * 0x1_0000 <= n < high * 0x1_0000 + 0x1_0000
    ensures n == high * 0x1_0000 + n % 0x1_0000
  {
  }

  /** Written out, an IPv6 address is eight groups: those before `::`, zeros, those after it, and the tail. */
  lemma EightGroups(a: Address)
    requires a.Groups? && IsAddress(a)
    ensures |AllGroups(a)| == 8 && GroupsFit(AllGroups(a)) && a.before <= AllGroups(a)
    ensures a.tail.Some? ==> AllGroups(a)[6..] == TailGroups(a.tail)
  {
    TailFits(a.tail);
  }

  /** A number made of these parts has each at its place. */
  ghost predicate MadeOf(n: nat, parts: seq<nat>, bits: nat) {
    forall k: nat :: k < |parts| ==> PartOf(n, bits, k) == parts[|parts| - 1 - k]
  }

  function PartOf(n: nat, bits: nat, k: nat): int {
    var shifted := Shr(n, bits * k); shifted - Shl(Shr(shifted, bits), bits)
  }

  lemma JoinedMadeOf(parts: seq<nat>, bits: nat)
    requires forall j :: 0 <= j < |parts| ==> parts[j] < Pow2(bits)
    ensures MadeOf(Joined(parts, bits), parts, bits)
  {
    forall k: nat | k < |parts| ensures PartOf(Joined(parts, bits), bits, k) == parts[|parts| - 1 - k] {
      JoinedParts(parts, bits, k);
      ShrTimesIs(Joined(parts, bits), bits, k);
    }
  }

  /** An IPv4 address's number holds its octets, each at its place, and fits the family. */
  lemma Ipv4Holds(a: Address)
    requires a.Dotted? && IsAddress(a)
    ensures Value(a) <= LAST4 && MadeOf(Value(a), a.octets, 8)
  {
    assert Pow2(8) == 0x100;
    Ipv4Fits(a.octets);
    JoinedMadeOf(a.octets, 8);
  }

  /** An IPv6 address's holds its eight groups. */
  lemma Ipv6Holds(a: Address)
    requires a.Groups? && IsAddress(a)
    ensures Value(a) <= LAST6 && MadeOf(Value(a), AllGroups(a), 16) && |AllGroups(a)| == 8
  {
    EightGroups(a);
    Sixteen();
    JoinedBelow(AllGroups(a), 16);
    FamilySizes();
    JoinedMadeOf(AllGroups(a), 16);
  }
}
