/** JavaScript strings as they are held, sixteen-bit units that need not be well formed, and their code points. */
module Units {
  import opened Wrappers
  import opened Text

  predicate High(u: nat) { 0xD800 <= u < 0xDC00 }
  predicate Low(u: nat) { 0xDC00 <= u < 0xE000 }

  predicate AreUnits(units: seq<nat>) { forall i :: 0 <= i < |units| ==> units[i] < 0x1_0000 }

  predicate Paired(units: seq<nat>) { |units| >= 2 && High(units[0]) && Low(units[1]) }

  /** How many code points a loop over the string meets, a lone surrogate being one. */
  function Count(units: seq<nat>): nat {
    if units == [] then 0 else 1 + Count(units[if Paired(units) then 2 else 1..])
  }

  lemma {:induction false} CountBounds(units: seq<nat>)
    ensures Count(units) <= |units| <= 2 * Count(units)
  {
    if units != [] { CountBounds(units[if Paired(units) then 2 else 1..]); }
  }

  /** Whether a text is at most `most` code points, its length looked at first so a long one is never walked
      to its end. */
  method WithinCodePoints(units: seq<nat>, most: nat) returns (within: bool)
    ensures within <==> Count(units) <= most
  {
    CountBounds(units);
    if |units| <= most { return true; }
    if |units| > 2 * most { return false; }
    var n, rest := 0, units;
    while rest != []
      invariant n <= most && n + Count(rest) == Count(units)
      decreases |rest|
    {
      n := n + 1;
      if n > most { return false; }
      rest := rest[if Paired(rest) then 2 else 1..];
    }
    return true;
  }

  /** The text the units hold, none when a surrogate stands alone. */
  function Decoded(units: seq<nat>): Option<string>
    requires AreUnits(units)
  {
    if units == [] then Some("")
    else if Paired(units) then
      var rest := Decoded(units[2..]);
      if rest.None? then None
      else Some([(0x1_0000 + (units[0] - 0xD800) * 0x400 + (units[1] - 0xDC00)) as char] + rest.value)
    else if High(units[0]) || Low(units[0]) then None
    else
      var rest := Decoded(units[1..]);
      if rest.None? then None else Some([units[0] as char] + rest.value)
  }

  /** Well formed, the units are those of the text decoded, a code point to a character. */
  lemma {:induction false} DecodedHolds(units: seq<nat>)
    requires AreUnits(units) && Decoded(units).Some?
    ensures Utf16(Decoded(units).value) == units && Count(units) == |Decoded(units).value|
  {
    if units != [] {
      var s := Decoded(units).value;
      var n := if Paired(units) then 2 else 1;
      DecodedHolds(units[n..]);
      assert s[1..] == Decoded(units[n..]).value;
      if n == 2 { PairHolds(units[0], units[1]); }
      assert units == units[..n] + units[n..];
      assert Utf16Char(s[0]) == units[..n];
    }
  }

  lemma PairHolds(high: nat, low: nat)
    requires High(high) && Low(low)
    ensures var n := 0x1_0000 + (high - 0xD800) * 0x400 + (low - 0xDC00);
      n < 0x11_0000 && Utf16Char(n as char) == [high, low]
  {
  }

  /** Every text is held by well-formed units. */
  lemma {:induction false} EveryTextDecodes(s: string)
    ensures AreUnits(Utf16(s)) && Decoded(Utf16(s)) == Some(s)
  {
    if s != "" {
      EveryTextDecodes(s[1..]);
      var units, head := Utf16(s), Utf16Char(s[0]);
      assert units[|head|..] == Utf16(s[1..]);
      assert s == [s[0]] + s[1..];
      if |head| == 2 { assert units[0] == head[0] && units[1] == head[1]; } else { assert units[0] == head[0]; }
    }
  }
}
