/** Well-formed texts, their two encodings, and the orders the store compares them in.

    A Dafny `string` is a sequence of Unicode scalar values, which is exactly what a well-formed
    JavaScript string denotes; `Utf16` gives the units such a string is made of. */
module Text {

  /** The bytes or units of a text. */
  type Codes = seq<nat>

  function CodePoints(s: string): (r: Codes)
    ensures |r| == |s|
  {
    seq(|s|, i requires 0 <= i < |s| => s[i] as nat)
  }

  // ---- Comparing sequences of codes ----

  /** The sign of the lexicographic comparison, as `Buffer.compare` and string `<` answer it. */
  function Compare(a: Codes, b: Codes): int {
    if a == [] && b == [] then 0
    else if a == [] then -1
    else if b == [] then 1
    else if a[0] < b[0] then -1
    else if a[0] > b[0] then 1
    else Compare(a[1..], b[1..])
  }

  lemma {:induction false} CompareAntisymmetric(a: Codes, b: Codes)
    ensures Compare(a, b) == -Compare(b, a)
    ensures Compare(a, b) == 0 <==> a == b
  {
    if a != [] && b != [] && a[0] == b[0] {
      CompareAntisymmetric(a[1..], b[1..]);
      assert a == [a[0]] + a[1..] && b == [b[0]] + b[1..];
    }
  }

  lemma {:induction false} CompareTransitive(a: Codes, b: Codes, c: Codes)
    requires Compare(a, b) < 0 && Compare(b, c) < 0
    ensures Compare(a, c) < 0
  {
    if a != [] && b != [] && c != [] && a[0] == b[0] == c[0] {
      CompareTransitive(a[1..], b[1..], c[1..]);
    }
  }

  /** A shared prefix decides nothing. */
  lemma {:induction false} CompareSkips(p: Codes, a: Codes, b: Codes)
    ensures Compare(p + a, p + b) == Compare(a, b)
  {
    if p == [] {
      assert p + a == a && p + b == b;
    } else {
      assert (p + a)[1..] == p[1..] + a && (p + b)[1..] == p[1..] + b;
      CompareSkips(p[1..], a, b);
    }
  }

  /** Two sequences that differ at `k`, and agree before it, are ordered there whatever follows. */
  lemma {:induction false} CompareAt(a: Codes, b: Codes, k: nat)
    requires k < |a| && k < |b| && a[..k] == b[..k] && a[k] != b[k]
    ensures Compare(a, b) == if a[k] < b[k] then -1 else 1
  {
    assert a == a[..k] + a[k..] && b == a[..k] + b[k..];
    CompareSkips(a[..k], a[k..], b[k..]);
  }

  // ---- UTF-8 (section 3 of RFC 3629) ----

  function Utf8Bytes(n: nat): (r: Codes)
    ensures 1 <= |r| <= 4
  {
    if n < 0x80 then [n]
    else if n < 0x800 then [0xC0 + n / 0x40, 0x80 + n % 0x40]
    else if n < 0x1_0000 then [0xE0 + n / 0x1000, 0x80 + n / 0x40 % 0x40, 0x80 + n % 0x40]
    else [0xF0 + n / 0x4_0000, 0x80 + n / 0x1000 % 0x40, 0x80 + n / 0x40 % 0x40, 0x80 + n % 0x40]
  }

  function Utf8Char(c: char): (r: Codes)
    ensures 1 <= |r| <= 4
  {
    Utf8Bytes(c as nat)
  }

  function Utf8(s: string): Codes {
    if s == "" then [] else Utf8Char(s[0]) + Utf8(s[1..])
  }

  lemma {:induction false} Utf8Concat(a: string, b: string)
    ensures Utf8(a + b) == Utf8(a) + Utf8(b)
  {
    if a == "" {
      assert a + b == b;
    } else {
      assert (a + b)[1..] == a[1..] + b;
      Utf8Concat(a[1..], b);
    }
  }

  /** The first place, up to the end of the shorter, where two sequences differ. */
  function FirstApart(x: Codes, y: Codes): (k: nat)
    ensures k <= |x| && k <= |y| && forall i :: 0 <= i < k ==> x[i] == y[i]
    ensures k < |x| && k < |y| ==> x[k] != y[k]
    ensures k == |x| || k == |y| || x[k] != y[k]
  {
    if x == [] || y == [] || x[0] != y[0] then 0
    else
      var k := FirstApart(x[1..], y[1..]);
      assert forall i :: 1 <= i < k + 1 ==> x[i] == x[1..][i - 1] && y[i] == y[1..][i - 1];
      1 + k
  }

  /** Six bits apart: the higher part decides, then the lower. */
  lemma Sextets(n: nat, m: nat)
    requires n < m
    ensures n / 0x40 < m / 0x40 || (n / 0x40 == m / 0x40 && n % 0x40 < m % 0x40)
  {
  }

  /** Two characters' bytes differ first at a byte that orders them as their code points do. */
  lemma CharBytesOrdered(n: nat, m: nat)
    requires n < m < 0x11_0000
    ensures var x, y := Utf8Bytes(n), Utf8Bytes(m); var k := FirstApart(x, y);
      k < |x| && k < |y| && x[..k] == y[..k] && x[k] < y[k]
  {
    Sextets(n, m);
    var a, b := n / 0x40, m / 0x40;
    if a < b { Sextets(a, b); }
    assert n / 0x1000 == a / 0x40 && m / 0x1000 == b / 0x40;
    var e, f := a / 0x40, b / 0x40;
    if e < f { Sextets(e, f); }
    assert n / 0x4_0000 == e / 0x40 && m / 0x4_0000 == f / 0x40;
    LeadBytesOrdered(n, m);
    var x, y := Utf8Bytes(n), Utf8Bytes(m);
    if |x| == |y| {
      OrderedAt(x, y);
    } else {
      assert x[0] < y[0];
    }
  }

  /** Four places at most: the first that differs is ordered, given that each is once those before it agree. */
  lemma OrderedAt(x: Codes, y: Codes)
    requires |x| == |y| <= 4
    requires |x| > 0 ==> x[0] <= y[0]
    requires |x| > 1 && x[0] == y[0] ==> x[1] <= y[1]
    requires |x| > 2 && x[0] == y[0] && x[1] == y[1] ==> x[2] <= y[2]
    requires |x| > 3 && x[0] == y[0] && x[1] == y[1] && x[2] == y[2] ==> x[3] <= y[3]
    ensures var k := FirstApart(x, y); k < |x| ==> x[k] < y[k]
  {
  }

  /** A longer form starts with a higher byte. */
  lemma LeadBytesOrdered(n: nat, m: nat)
    requires n < m < 0x11_0000
    ensures |Utf8Bytes(n)| < |Utf8Bytes(m)| ==> Utf8Bytes(n)[0] < Utf8Bytes(m)[0]
    ensures |Utf8Bytes(n)| <= |Utf8Bytes(m)|
  {
  }

  /** The order of members and of ties. */
  function CodePointOrder(a: string, b: string): int {
    Compare(Utf8(a), Utf8(b))
  }

  lemma {:induction false} CharsApart(c: char, d: char, u: Codes, v: Codes)
    requires c as nat < d as nat
    ensures Compare(Utf8Char(c) + u, Utf8Char(d) + v) == -1
    ensures Compare(Utf8Char(d) + v, Utf8Char(c) + u) == 1
  {
    CharBytesOrdered(c as nat, d as nat);
    var x, y := Utf8Char(c), Utf8Char(d);
    var k := FirstApart(x, y);
    assert (x + u)[..k] == x[..k] && (y + v)[..k] == y[..k];
    CompareAt(x + u, y + v, k);
    CompareAntisymmetric(x + u, y + v);
  }

  /** Comparing texts by their UTF-8 bytes is comparing them by code point, at any length. */
  lemma {:induction false} ByteOrderIsCodePointOrder(a: string, b: string)
    ensures CodePointOrder(a, b) == Compare(CodePoints(a), CodePoints(b))
  {
    if a == "" || b == "" {
    } else if a[0] as nat < b[0] as nat {
      CharsApart(a[0], b[0], Utf8(a[1..]), Utf8(b[1..]));
    } else if a[0] as nat > b[0] as nat {
      CharsApart(b[0], a[0], Utf8(b[1..]), Utf8(a[1..]));
    } else {
      assert a[0] == b[0];
      CompareSkips(Utf8Char(a[0]), Utf8(a[1..]), Utf8(b[1..]));
      ByteOrderIsCodePointOrder(a[1..], b[1..]);
      assert CodePoints(a)[1..] == CodePoints(a[1..]) && CodePoints(b)[1..] == CodePoints(b[1..]);
    }
  }

  lemma {:induction false} CodePointsInjective(a: string, b: string)
    requires CodePoints(a) == CodePoints(b)
    ensures a == b
  {
    assert |a| == |b|;
    forall i | 0 <= i < |a| ensures a[i] == b[i] {
      assert CodePoints(a)[i] == CodePoints(b)[i];
    }
  }

  /** `codePointOrder` is a strict total order: no two texts tie, and it never turns back. */
  lemma {:induction false} CodePointOrderTotal(a: string, b: string, c: string)
    ensures CodePointOrder(a, b) == -CodePointOrder(b, a)
    ensures CodePointOrder(a, b) == 0 <==> a == b
    ensures CodePointOrder(a, b) < 0 && CodePointOrder(b, c) < 0 ==> CodePointOrder(a, c) < 0
  {
    CompareAntisymmetric(Utf8(a), Utf8(b));
    ByteOrderIsCodePointOrder(a, b);
    CompareAntisymmetric(CodePoints(a), CodePoints(b));
    if CodePointOrder(a, b) == 0 { CodePointsInjective(a, b); }
    if CodePointOrder(a, b) < 0 && CodePointOrder(b, c) < 0 { CompareTransitive(Utf8(a), Utf8(b), Utf8(c)); }
  }

  // ---- UTF-16: the units a JavaScript string holds, and the order `sort` and `<` use ----

  function Utf16Char(c: char): (r: Codes)
    ensures 1 <= |r| <= 2
  {
    var n := c as nat;
    if n < 0x1_0000 then [n]
    else [0xD800 + (n - 0x1_0000) / 0x400, 0xDC00 + (n - 0x1_0000) % 0x400]
  }

  function Utf16(s: string): Codes {
    if s == "" then [] else Utf16Char(s[0]) + Utf16(s[1..])
  }

  lemma {:induction false} Utf16Injective(a: string, b: string)
    requires Utf16(a) == Utf16(b)
    ensures a == b
  {
    if a != "" && b != "" {
      var x, y := Utf16Char(a[0]), Utf16Char(b[0]);
      assert Utf16(a)[0] == x[0] && Utf16(b)[0] == y[0];
      if |x| == 2 && |y| == 2 {
        assert Utf16(a)[1] == x[1] && Utf16(b)[1] == y[1];
      }
      assert a[0] == b[0];
      assert Utf16(a)[|x|..] == Utf16(a[1..]) && Utf16(b)[|x|..] == Utf16(b[1..]);
      Utf16Injective(a[1..], b[1..]);
      assert a == [a[0]] + a[1..] && b == [b[0]] + b[1..];
    }
  }

  /** JavaScript's `a < b` on strings, which `sort` with no comparison also uses. */
  predicate UnitsBefore(a: string, b: string) {
    Compare(Utf16(a), Utf16(b)) < 0
  }

  lemma {:induction false} UnitsBeforeTotal(a: string, b: string, c: string)
    ensures !(UnitsBefore(a, b) && UnitsBefore(b, a))
    ensures UnitsBefore(a, b) || UnitsBefore(b, a) <==> a != b
    ensures UnitsBefore(a, b) && UnitsBefore(b, c) ==> UnitsBefore(a, c)
  {
    CompareAntisymmetric(Utf16(a), Utf16(b));
    if Utf16(a) == Utf16(b) { Utf16Injective(a, b); }
    if UnitsBefore(a, b) && UnitsBefore(b, c) { CompareTransitive(Utf16(a), Utf16(b), Utf16(c)); }
  }

  /** The two orders differ: a character past the basic plane sorts before U+FF5E by units, after it by code point. */
  lemma OrdersDiffer()
    ensures var a, b := "\U{10000}", "\U{FF5E}"; UnitsBefore(a, b) && CodePointOrder(a, b) > 0
  {
    var a, b := "\U{10000}", "\U{FF5E}";
    assert a[1..] == "" && b[1..] == "";
    assert Utf16(a) == [0xD800, 0xDC00] && Utf16(b) == [0xFF5E];
    assert Utf8(a) == [0xF0, 0x90, 0x80, 0x80] && Utf8(b) == [0xEF, 0xBD, 0x9E];
  }
}
