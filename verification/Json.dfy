/** JSON values, the one serialization every implementation of the store shares, and its parser. */
module Json {
  import opened Wrappers
  import Text

  /** A number is held as the text JSON writes for it, one text to a number. */
  datatype Json =
    | Null
    | Bool(b: bool)
    | Num(text: string)
    | Str(s: string)
    | Arr(items: seq<Json>)
    | Obj(members: seq<Member>)

  datatype Member = Member(name: string, value: Json)

  predicate NumChar(c: char) { '0' <= c <= '9' || c == '-' || c == '+' || c == '.' || c == 'e' }

  predicate NumText(t: string) { t != "" && forall i :: 0 <= i < |t| ==> NumChar(t[i]) }

  predicate Distinct(ms: seq<Member>) {
    forall i, j :: 0 <= i < j < |ms| ==> ms[i].name != ms[j].name
  }

  /** Plain JSON: a number's text is a number's, and no object names a member twice. */
  predicate Plain(v: Json) {
    match v
    case Num(t) => NumText(t)
    case Arr(items) => forall x :: x in items ==> Plain(x)
    case Obj(ms) => Distinct(ms) && forall m :: m in ms ==> Plain(m.value)
    case _ => true
  }

  // ---- Writing ----

  const HEX := "0123456789abcdef"

  /** One character inside a JSON string. */
  function Escaped(c: char): (r: string)
    ensures r != ""
  {
    if c == '"' then "\\\""
    else if c == '\\' then "\\\\"
    else if c as int == 8 then "\\b"
    else if c == '\t' then "\\t"
    else if c == '\n' then "\\n"
    else if c as int == 12 then "\\f"
    else if c == '\r' then "\\r"
    else if c as int < 0x20 then "\\u00" + [HEX[c as int / 16], HEX[c as int % 16]]
    else [c]
  }

  function EscapedAll(s: string): string {
    if s == "" then "" else Escaped(s[0]) + EscapedAll(s[1..])
  }

  function Quoted(s: string): string { "\"" + EscapedAll(s) + "\"" }

  /** `JSON.stringify`: members in the order the object holds them. */
  function Write(v: Json): string {
    match v
    case Null => "null"
    case Bool(b) => if b then "true" else "false"
    case Num(t) => t
    case Str(s) => Quoted(s)
    case Arr(items) => "[" + WriteItems(items) + "]"
    case Obj(ms) => "{" + WriteMembers(ms) + "}"
  }

  function WriteItems(items: seq<Json>): string {
    if items == [] then ""
    else if |items| == 1 then Write(items[0])
    else Write(items[0]) + "," + WriteItems(items[1..])
  }

  function WriteMember(m: Member): string { Quoted(m.name) + ":" + Write(m.value) }

  function WriteMembers(ms: seq<Member>): string {
    if ms == [] then ""
    else if |ms| == 1 then WriteMember(ms[0])
    else WriteMember(ms[0]) + "," + WriteMembers(ms[1..])
  }

  // ---- Canonical form: members sorted by name, at every depth ----

  function Insert(m: Member, ms: seq<Member>): seq<Member> {
    if ms == [] || Text.UnitsBefore(m.name, ms[0].name) then [m] + ms
    else [ms[0]] + Insert(m, ms[1..])
  }

  function SortMembers(ms: seq<Member>): seq<Member> {
    if ms == [] then [] else Insert(ms[0], SortMembers(ms[1..]))
  }

  function Normal(v: Json): Json {
    match v
    case Arr(items) => Arr(NormalItems(items))
    case Obj(ms) => Obj(SortMembers(NormalMembers(ms)))
    case _ => v
  }

  function NormalItems(items: seq<Json>): (r: seq<Json>)
    ensures |r| == |items| && forall i :: 0 <= i < |items| ==> r[i] == Normal(items[i])
  {
    if items == [] then [] else [Normal(items[0])] + NormalItems(items[1..])
  }

  function NormalMembers(ms: seq<Member>): (r: seq<Member>)
    ensures |r| == |ms| && forall i :: 0 <= i < |ms| ==> r[i] == Member(ms[i].name, Normal(ms[i].value))
  {
    if ms == [] then [] else [Member(ms[0].name, Normal(ms[0].value))] + NormalMembers(ms[1..])
  }

  /** The text a value is digested and compared by. */
  function Canonical(v: Json): string { Write(Normal(v)) }

  /** The same JSON value: the order of an object's members tells nothing. */
  ghost predicate Same(a: Json, b: Json) {
    match (a, b)
    case (Arr(xs), Arr(ys)) =>
      |xs| == |ys| && forall i :: 0 <= i < |xs| ==> Same(xs[i], ys[i])
    case (Obj(ms), Obj(ns)) =>
      && |ms| == |ns|
      && forall i :: 0 <= i < |ms| ==>
        exists j :: 0 <= j < |ns| && ms[i].name == ns[j].name && Same(ms[i].value, ns[j].value)
    case (_, _) => a == b
  }

  // ---- Sorting ----

  ghost predicate Ascending(ms: seq<Member>) {
    forall i, j :: 0 <= i < j < |ms| ==> Text.UnitsBefore(ms[i].name, ms[j].name)
  }

  lemma {:induction false} InsertSorts(m: Member, ms: seq<Member>)
    requires Ascending(ms) && forall n :: n in ms ==> n.name != m.name
    ensures Ascending(Insert(m, ms))
    ensures forall n :: n in Insert(m, ms) <==> n == m || n in ms
    ensures |Insert(m, ms)| == |ms| + 1
  {
    if ms == [] {
    } else if Text.UnitsBefore(m.name, ms[0].name) {
      forall j | 0 <= j < |ms| ensures Text.UnitsBefore(m.name, ms[j].name) {
        Text.UnitsBeforeTotal(m.name, ms[0].name, ms[j].name);
      }
    } else {
      Text.UnitsBeforeTotal(m.name, ms[0].name, m.name);
      assert ms[0] in ms;
      InsertSorts(m, ms[1..]);
      var rest := Insert(m, ms[1..]);
      forall j | 0 <= j < |rest| ensures Text.UnitsBefore(ms[0].name, rest[j].name) {
        assert rest[j] in rest;
      }
      assert forall n :: n in ms <==> n == ms[0] || n in ms[1..];
    }
  }

  lemma {:induction false} SortSorts(ms: seq<Member>)
    requires Distinct(ms)
    ensures Ascending(SortMembers(ms)) && |SortMembers(ms)| == |ms|
    ensures forall n :: n in SortMembers(ms) <==> n in ms
  {
    if ms != [] {
      SortSorts(ms[1..]);
      InsertSorts(ms[0], SortMembers(ms[1..]));
      assert forall n :: n in ms <==> n == ms[0] || n in ms[1..];
    }
  }

  /** A strictly ascending listing is determined by what it lists. */
  lemma {:induction false} AscendingUnique(xs: seq<Member>, ys: seq<Member>)
    requires Ascending(xs) && Ascending(ys) && |xs| == |ys|
    requires forall n :: n in xs <==> n in ys
    ensures xs == ys
  {
    if xs != [] {
      assert xs[0] in ys;
      assert ys[0] in xs;
      if xs[0] != ys[0] {
        var i :| 0 <= i < |ys| && ys[i] == xs[0];
        var j :| 0 <= j < |xs| && xs[j] == ys[0];
        Text.UnitsBeforeTotal(xs[0].name, ys[0].name, xs[0].name);
        assert false;
      }
      forall n ensures n in xs[1..] <==> n in ys[1..] {
        if n in xs[1..] { assert n in ys; Rest(xs, n); }
        if n in ys[1..] { assert n in xs; Rest(ys, n); }
      }
      AscendingUnique(xs[1..], ys[1..]);
      assert xs == [xs[0]] + xs[1..] && ys == [ys[0]] + ys[1..];
    }
  }

  lemma Rest(xs: seq<Member>, n: Member)
    requires Ascending(xs) && xs != [] && n in xs[1..]
    ensures n != xs[0]
  {
    var i :| 0 <= i < |xs[1..]| && xs[1..][i] == n;
    assert Text.UnitsBefore(xs[0].name, xs[i + 1].name);
    Text.UnitsBeforeTotal(xs[0].name, n.name, n.name);
  }

  /** Normal forms are equal exactly for the same JSON. */
  lemma {:induction false} NormalMeansSame(a: Json, b: Json)
    requires Plain(a) && Plain(b)
    ensures Normal(a) == Normal(b) <==> Same(a, b)
    decreases a
  {
    match (a, b) {
      case (Arr(xs), Arr(ys)) =>
        if |xs| == |ys| {
          forall i | 0 <= i < |xs| ensures Normal(xs[i]) == Normal(ys[i]) <==> Same(xs[i], ys[i]) {
            assert xs[i] in xs && ys[i] in ys;
            NormalMeansSame(xs[i], ys[i]);
          }
          if Same(a, b) { assert NormalItems(xs) == NormalItems(ys); }
          if Normal(a) == Normal(b) {
            forall i | 0 <= i < |xs| ensures Same(xs[i], ys[i]) {
              assert NormalItems(xs)[i] == NormalItems(ys)[i];
            }
          }
        }
      case (Obj(ms), Obj(ns)) => ObjectsSame(a, b);
      case (_, _) =>
    }
  }

  lemma {:induction false} ObjectsSame(a: Json, b: Json)
    requires a.Obj? && b.Obj? && Plain(a) && Plain(b)
    ensures Normal(a) == Normal(b) <==> Same(a, b)
    decreases a, 0
  {
    var ms, ns := a.members, b.members;
    forall i, j | 0 <= i < |ms| && 0 <= j < |ns|
      ensures Normal(ms[i].value) == Normal(ns[j].value) <==> Same(ms[i].value, ns[j].value)
    {
      assert ms[i] in ms && ns[j] in ns;
      NormalMeansSame(ms[i].value, ns[j].value);
    }
    ObjectsTell(ms, ns);
  }

  lemma ObjectsTell(ms: seq<Member>, ns: seq<Member>)
    requires Distinct(ms) && Distinct(ns) && NormalsTell(ms, ns)
    ensures SortMembers(NormalMembers(ms)) == SortMembers(NormalMembers(ns)) <==> Same(Obj(ms), Obj(ns))
  {
    if SortMembers(NormalMembers(ms)) == SortMembers(NormalMembers(ns)) { SortedAlikeThenSame(ms, ns); }
    if Same(Obj(ms), Obj(ns)) { SameThenSortedAlike(ms, ns); }
  }

  lemma SameIsMatched(ms: seq<Member>, ns: seq<Member>)
    requires Same(Obj(ms), Obj(ns))
    ensures Matched(ms, ns)
  {
    forall i | 0 <= i < |ms| ensures HasSame(ns, ms[i]) {
      var j :| 0 <= j < |ns| && ms[i].name == ns[j].name && Same(ms[i].value, ns[j].value);
      assert SameMember(ms[i], ns[j]);
    }
  }

  lemma SameThenSortedAlike(ms: seq<Member>, ns: seq<Member>)
    requires Distinct(ms) && Distinct(ns) && NormalsTell(ms, ns) && Same(Obj(ms), Obj(ns))
    ensures SortMembers(NormalMembers(ms)) == SortMembers(NormalMembers(ns))
  {
    SameIsMatched(ms, ns);
    SameThenListedAlike(ms, ns);
    SortSorts(NormalMembers(ms));
    SortSorts(NormalMembers(ns));
    AscendingUnique(SortMembers(NormalMembers(ms)), SortMembers(NormalMembers(ns)));
  }

  ghost predicate SameMember(m: Member, n: Member) { m.name == n.name && Same(m.value, n.value) }

  ghost predicate NormalsTell(ms: seq<Member>, ns: seq<Member>) {
    forall i, j :: 0 <= i < |ms| && 0 <= j < |ns| ==>
      (Normal(ms[i].value) == Normal(ns[j].value) <==> Same(ms[i].value, ns[j].value))
  }

  lemma SortedAlikeThenSame(ms: seq<Member>, ns: seq<Member>)
    requires Distinct(ms) && Distinct(ns) && NormalsTell(ms, ns)
    requires SortMembers(NormalMembers(ms)) == SortMembers(NormalMembers(ns))
    ensures Same(Obj(ms), Obj(ns))
  {
    var xs, ys := NormalMembers(ms), NormalMembers(ns);
    SortSorts(xs);
    SortSorts(ys);
    forall i | 0 <= i < |ms|
      ensures exists j :: 0 <= j < |ns| && ms[i].name == ns[j].name && Same(ms[i].value, ns[j].value)
    {
      assert xs[i] in xs;
      assert xs[i] in SortMembers(ys);
      assert xs[i] in ys;
      var j :| 0 <= j < |ys| && ys[j] == xs[i];
      assert ms[i].name == ns[j].name && Same(ms[i].value, ns[j].value);
    }
  }

  ghost predicate HasSame(ns: seq<Member>, m: Member) { exists j :: 0 <= j < |ns| && SameMember(m, ns[j]) }

  ghost predicate Matched(ms: seq<Member>, ns: seq<Member>) {
    forall i :: 0 <= i < |ms| ==> HasSame(ns, ms[i])
  }

  lemma SameThenListedAlike(ms: seq<Member>, ns: seq<Member>)
    requires Distinct(ms) && Distinct(ns) && |ms| == |ns| && NormalsTell(ms, ns) && Matched(ms, ns)
    ensures forall n :: n in SortMembers(NormalMembers(ms)) <==> n in SortMembers(NormalMembers(ns))
  {
    var xs, ys := NormalMembers(ms), NormalMembers(ns);
    SortSorts(xs);
    SortSorts(ys);
    forall n ensures n in xs <==> n in ys {
      if n in xs { Forth(ms, ns, n); }
      if n in ys { Back(ms, ns, n); }
    }
  }

  lemma Forth(ms: seq<Member>, ns: seq<Member>, n: Member)
    requires NormalsTell(ms, ns) && Matched(ms, ns) && n in NormalMembers(ms)
    ensures n in NormalMembers(ns)
  {
    var i :| 0 <= i < |ms| && NormalMembers(ms)[i] == n;
    var j :| 0 <= j < |ns| && SameMember(ms[i], ns[j]);
    assert NormalMembers(ns)[j] == n;
  }

  lemma Back(ms: seq<Member>, ns: seq<Member>, n: Member)
    requires Distinct(ms) && Distinct(ns) && |ms| == |ns|
    requires NormalsTell(ms, ns) && Matched(ms, ns) && n in NormalMembers(ns)
    ensures n in NormalMembers(ms)
  {
    var j :| 0 <= j < |ns| && NormalMembers(ns)[j] == n;
    var i := Partner(ms, ns, j);
    assert NormalMembers(ms)[i] == n;
  }

  lemma Partner(ms: seq<Member>, ns: seq<Member>, j: nat) returns (i: nat)
    requires Distinct(ms) && Distinct(ns) && |ms| == |ns| && Matched(ms, ns) && j < |ns|
    ensures i < |ms| && SameMember(ms[i], ns[j])
  {
    forall n | n in Names(ms) ensures n in Names(ns) {
      var m :| m in ms && m.name == n;
      var i :| 0 <= i < |ms| && ms[i] == m;
      var k :| 0 <= k < |ns| && SameMember(ms[i], ns[k]);
      assert ns[k] in ns;
    }
    NamesCount(ms);
    NamesCount(ns);
    SubsetOfEqualSize(Names(ms), Names(ns));
    assert ns[j] in ns;
    assert ns[j].name in Names(ns);
    assert ns[j].name in Names(ms);
    var m :| m in ms && m.name == ns[j].name;
    i :| 0 <= i < |ms| && ms[i] == m;
    var k :| 0 <= k < |ns| && SameMember(ms[i], ns[k]);
    assert !(j < k) && !(k < j);
  }

  ghost function Names(ms: seq<Member>): set<string> { set m | m in ms :: m.name }

  lemma {:induction false} NamesCount(ms: seq<Member>)
    requires Distinct(ms)
    ensures |Names(ms)| == |ms|
  {
    if ms != [] {
      NamesCount(ms[1..]);
      assert Names(ms) == {ms[0].name} + Names(ms[1..]) by {
        assert forall m :: m in ms <==> m == ms[0] || m in ms[1..];
      }
    }
  }

  lemma SubsetOfEqualSize<T>(a: set<T>, b: set<T>)
    requires a <= b && |a| == |b|
    ensures a == b
  {
    assert |b - a| == |b| - |a|;
  }

  // ---- Reading the text back ----

  /** How many characters a number's text takes from the front. */
  function NumLength(s: string): (n: nat)
    ensures n <= |s|
  {
    if s != "" && NumChar(s[0]) then 1 + NumLength(s[1..]) else 0
  }

  function HexDigit(c: char): Option<int> {
    if '0' <= c <= '9' then Some(c as int - '0' as int)
    else if 'a' <= c <= 'f' then Some(c as int - 'a' as int + 10)
    else None
  }

  /** The character an escape stands for, after its backslash, and how long the escape is. */
  function Unescaped(s: string): (r: Option<(char, nat)>)
    ensures r.Some? ==> 1 <= r.value.1 <= |s|
  {
    if s == "" then None
    else if s[0] == '"' || s[0] == '\\' then Some((s[0], 1))
    else if s[0] == 'b' then Some((8 as char, 1))
    else if s[0] == 't' then Some(('\t', 1))
    else if s[0] == 'n' then Some(('\n', 1))
    else if s[0] == 'f' then Some((12 as char, 1))
    else if s[0] == 'r' then Some(('\r', 1))
    else if s[0] == 'u' && |s| >= 5 && s[1] == '0' && s[2] == '0' then
      match (HexDigit(s[3]), HexDigit(s[4]))
      case (Some(h), Some(l)) => Some(((16 * h + l) as char, 5))
      case _ => None
    else None
  }

  /** What a string holds up to its closing quote, and what follows the quote. */
  function ParseString(s: string): (r: Option<(string, string)>)
    ensures r.Some? ==> |r.value.1| < |s|
  {
    if s == "" then None
    else if s[0] == '"' then Some(("", s[1..]))
    else
      var one := if s[0] == '\\' then Unescaped(s[1..]) else Some((s[0], 0));
      if one.None? then None
      else
        var rest := ParseString(s[1 + one.value.1..]);
        if rest.None? then None else Some(([one.value.0] + rest.value.0, rest.value.1))
  }

  predicate Starts(s: string, word: string) { |s| >= |word| && s[..|word|] == word }

  /** The value a text starts with, and the text after it. */
  function ParseValue(s: string): (r: Option<(Json, string)>)
    ensures r.Some? ==> |r.value.1| < |s|
    decreases |s|, 1
  {
    if s == "" then None
    else if Starts(s, "null") then Some((Null, s[4..]))
    else if Starts(s, "true") then Some((Bool(true), s[4..]))
    else if Starts(s, "false") then Some((Bool(false), s[5..]))
    else if s[0] == '"' then
      var t := ParseString(s[1..]);
      if t.None? then None else Some((Str(t.value.0), t.value.1))
    else if Starts(s, "[]") then Some((Arr([]), s[2..]))
    else if s[0] == '[' then
      var t := ParseItems(s[1..]);
      if t.None? then None else Some((Arr(t.value.0), t.value.1))
    else if Starts(s, "{}") then Some((Obj([]), s[2..]))
    else if s[0] == '{' then
      var t := ParseMembers(s[1..]);
      if t.None? then None else Some((Obj(t.value.0), t.value.1))
    else
      var n := NumLength(s);
      if n == 0 then None else Some((Num(s[..n]), s[n..]))
  }

  function ParseItems(s: string): (r: Option<(seq<Json>, string)>)
    ensures r.Some? ==> |r.value.1| < |s|
    decreases |s|, 2
  {
    var first := ParseValue(s);
    if first.None? || first.value.1 == "" then None
    else if first.value.1[0] == ']' then Some(([first.value.0], first.value.1[1..]))
    else if first.value.1[0] != ',' then None
    else
      var more := ParseItems(first.value.1[1..]);
      if more.None? then None else Some(([first.value.0] + more.value.0, more.value.1))
  }

  function ParseMember(s: string): (r: Option<(Member, string)>)
    ensures r.Some? ==> |r.value.1| < |s|
    decreases |s|, 1
  {
    if s == "" || s[0] != '"' then None
    else
      var name := ParseString(s[1..]);
      if name.None? || name.value.1 == "" || name.value.1[0] != ':' then None
      else
        var v := ParseValue(name.value.1[1..]);
        if v.None? then None else Some((Member(name.value.0, v.value.0), v.value.1))
  }

  function ParseMembers(s: string): (r: Option<(seq<Member>, string)>)
    ensures r.Some? ==> |r.value.1| < |s|
    decreases |s|, 2
  {
    var first := ParseMember(s);
    if first.None? || first.value.1 == "" then None
    else if first.value.1[0] == '}' then Some(([first.value.0], first.value.1[1..]))
    else if first.value.1[0] != ',' then None
    else
      var more := ParseMembers(first.value.1[1..]);
      if more.None? then None else Some(([first.value.0] + more.value.0, more.value.1))
  }

  /** The value a whole text is, as `JSON.parse` answers it. */
  function Parse(s: string): Option<Json> {
    var r := ParseValue(s);
    if r.Some? && r.value.1 == "" then Some(r.value.0) else None
  }

  // ---- The parser reads back what was written ----

  lemma EscapeReads(c: char, rest: string)
    ensures Escaped(c)[0] != '"'
    ensures Escaped(c)[0] == '\\' ==> Unescaped((Escaped(c) + rest)[1..]) == Some((c, |Escaped(c)| - 1))
    ensures Escaped(c)[0] != '\\' ==> Escaped(c) == [c]
  {
    var t := (Escaped(c) + rest)[1..];
    assert t == Escaped(c)[1..] + rest;
    if c as int < 0x20 && |Escaped(c)| > 2 {
      var h, l := c as int / 16, c as int % 16;
      assert t[3] == HEX[h] && t[4] == HEX[l];
      HexReads(h);
      HexReads(l);
    }
  }

  lemma HexReads(d: int)
    requires 0 <= d < 16
    ensures HexDigit(HEX[d]) == Some(d)
  {
  }

  lemma {:induction false} StringReads(s: string, rest: string)
    ensures ParseString(EscapedAll(s) + "\"" + rest) == Some((s, rest))
  {
    var text := EscapedAll(s) + "\"" + rest;
    if s == "" {
      assert text == "\"" + rest;
      assert text[1..] == rest;
    } else {
      var tail := EscapedAll(s[1..]) + "\"" + rest;
      assert text == Escaped(s[0]) + tail;
      EscapeReads(s[0], tail);
      StringReads(s[1..], rest);
      assert text[|Escaped(s[0])|..] == tail;
      assert s == [s[0]] + s[1..];
    }
  }

  /** What may follow a value: nothing a number's text could go on with. */
  predicate Stops(rest: string) { rest == "" || !NumChar(rest[0]) }

  lemma {:induction false} NumReads(t: string, rest: string)
    requires (forall i :: 0 <= i < |t| ==> NumChar(t[i])) && Stops(rest)
    ensures NumLength(t + rest) == |t|
  {
    if t == "" {
      assert t + rest == rest;
    } else {
      assert (t + rest)[1..] == t[1..] + rest;
      NumReads(t[1..], rest);
    }
  }

  /** No value's text closes an array or an object at once. */
  lemma WriteStart(v: Json)
    requires Plain(v)
    ensures Write(v) != "" && Write(v)[0] != ']' && Write(v)[0] != '}'
  {
  }

  lemma FirstDiffers(text: string, word: string)
    requires text != "" && word != "" && text[0] != word[0]
    ensures !Starts(text, word)
  {
    if |text| >= |word| { assert text[..|word|][0] == text[0]; }
  }

  lemma NoWord(text: string)
    requires text != "" && text[0] != 'n' && text[0] != 't' && text[0] != 'f'
    ensures !Starts(text, "null") && !Starts(text, "true") && !Starts(text, "false")
  {
    FirstDiffers(text, "null");
    FirstDiffers(text, "true");
    FirstDiffers(text, "false");
  }

  lemma WordStarts(v: Json, rest: string)
    requires v.Null? || v.Bool?
    ensures ParseValue(Write(v) + rest) == Some((v, rest))
  {
    var word := Write(v);
    var text := word + rest;
    assert text[..|word|] == word && text[|word|..] == rest;
    if !v.Null? { FirstDiffers(text, "null"); }
    if v == Bool(false) { FirstDiffers(text, "true"); }
  }

  lemma NumberStarts(t: string, rest: string)
    requires NumText(t) && Stops(rest)
    ensures ParseValue(t + rest) == Some((Num(t), rest))
  {
    var text := t + rest;
    NumReads(t, rest);
    assert text[0] == t[0];
    NoWord(text);
    FirstDiffers(text, "[]");
    FirstDiffers(text, "{}");
    assert text[..|t|] == t && text[|t|..] == rest;
  }

  lemma StringStarts(text: string, s: string, rest: string)
    requires text != "" && text[0] == '"' && ParseString(text[1..]) == Some((s, rest))
    ensures ParseValue(text) == Some((Str(s), rest))
  {
    NoWord(text);
  }

  lemma EmptyStarts(rest: string)
    ensures ParseValue("[]" + rest) == Some((Arr([]), rest)) && ParseValue("{}" + rest) == Some((Obj([]), rest))
  {
    var a, o := "[]" + rest, "{}" + rest;
    NoWord(a);
    NoWord(o);
    assert a[..2] == "[]" && a[2..] == rest;
    FirstDiffers(o, "[]");
    assert o[..2] == "{}" && o[2..] == rest;
  }

  lemma ArrayStarts(text: string, items: seq<Json>, rest: string)
    requires |text| > 1 && text[0] == '[' && text[1] != ']'
    requires ParseItems(text[1..]) == Some((items, rest))
    ensures ParseValue(text) == Some((Arr(items), rest))
  {
    NoWord(text);
    assert text[..2][1] == text[1];
  }

  lemma ObjectStarts(text: string, ms: seq<Member>, rest: string)
    requires |text| > 1 && text[0] == '{' && text[1] != '}'
    requires ParseMembers(text[1..]) == Some((ms, rest))
    ensures ParseValue(text) == Some((Obj(ms), rest))
  {
    NoWord(text);
    FirstDiffers(text, "[]");
    assert text[..2][1] == text[1];
  }

  lemma {:induction false} ValueReads(v: Json, rest: string)
    requires Plain(v) && Stops(rest)
    ensures ParseValue(Write(v) + rest) == Some((v, rest))
    decreases v, 1
  {
    match v
    case Null => WordStarts(v, rest);
    case Bool(b) => WordStarts(v, rest);
    case Num(t) => NumberStarts(t, rest);
    case Str(s) => StringValueReads(s, rest);
    case Arr(items) => ArrayReads(v, rest);
    case Obj(ms) => ObjectReads(v, rest);
  }

  lemma StringValueReads(s: string, rest: string)
    ensures ParseValue(Quoted(s) + rest) == Some((Str(s), rest))
  {
    var text := Quoted(s) + rest;
    assert text[1..] == EscapedAll(s) + "\"" + rest;
    StringReads(s, rest);
    StringStarts(text, s, rest);
  }

  lemma {:induction false} ArrayReads(v: Json, rest: string)
    requires v.Arr? && Plain(v) && Stops(rest)
    ensures ParseValue(Write(v) + rest) == Some((v, rest))
    decreases v, 0
  {
    var items := v.items;
    if items == [] {
      EmptyStarts(rest);
      assert Write(v) == "[]";
    } else {
      ItemsRead(v, items, rest);
      assert items[0] in items;
      WriteStart(items[0]);
      ItemsFirst(items);
      Brackets('[', WriteItems(items), "]", rest);
      ArrayStarts(Write(v) + rest, items, rest);
    }
  }

  /** What is bracketed, past its bracket. */
  lemma Brackets(open: char, inner: string, close: string, rest: string)
    requires inner != ""
    ensures var text := [open] + inner + close + rest;
      |text| > 1 && text[0] == open && text[1] == inner[0] && text[1..] == inner + close + rest
  {
  }

  lemma ItemsFirst(items: seq<Json>)
    requires items != [] && Write(items[0]) != ""
    ensures WriteItems(items) != "" && WriteItems(items)[0] == Write(items[0])[0]
  {
  }

  lemma Regroup(a: string, b: string, close: string, rest: string)
    ensures a + "," + b + close + rest == a + ("," + (b + close + rest))
    ensures a + close + rest == a + (close + rest)
  {
  }

  lemma Drop(c: char, s: string)
    ensures ([c] + s)[1..] == s && ([c] + s)[0] == c
  {
  }

  lemma ItemsEnd(text: string, x: Json, rest: string)
    requires ParseValue(text) == Some((x, "]" + rest))
    ensures ParseItems(text) == Some(([x], rest))
  {
    Drop(']', rest);
  }

  lemma ItemsGoOn(text: string, x: Json, tail: string, more: seq<Json>, rest: string)
    requires ParseValue(text) == Some((x, "," + tail)) && ParseItems(tail) == Some((more, rest))
    ensures ParseItems(text) == Some(([x] + more, rest))
  {
    Drop(',', tail);
  }

  lemma {:induction false} ItemsRead(v: Json, items: seq<Json>, rest: string)
    requires items != [] && forall x :: x in items ==> x < v && Plain(x)
    ensures ParseItems(WriteItems(items) + "]" + rest) == Some((items, rest))
    decreases v, 0, |items|
  {
    var text := WriteItems(items) + "]" + rest;
    var x := items[0];
    assert x in items;
    if |items| == 1 {
      ValueReads(x, "]" + rest);
      Regroup(Write(x), "", "]", rest);
      ItemsEnd(text, x, rest);
      assert items == [x];
    } else {
      var tail := WriteItems(items[1..]) + "]" + rest;
      Regroup(Write(x), WriteItems(items[1..]), "]", rest);
      ValueReads(x, "," + tail);
      assert forall x :: x in items[1..] ==> x in items;
      ItemsRead(v, items[1..], rest);
      ItemsGoOn(text, x, tail, items[1..], rest);
      assert items == [x] + items[1..];
    }
  }

  lemma {:induction false} ObjectReads(v: Json, rest: string)
    requires v.Obj? && Plain(v) && Stops(rest)
    ensures ParseValue(Write(v) + rest) == Some((v, rest))
    decreases v, 0
  {
    var ms := v.members;
    if ms == [] {
      EmptyStarts(rest);
      assert Write(v) == "{}";
    } else {
      MembersRead(v, ms, rest);
      MembersFirst(ms);
      Brackets('{', WriteMembers(ms), "}", rest);
      ObjectStarts(Write(v) + rest, ms, rest);
    }
  }

  lemma MembersFirst(ms: seq<Member>)
    requires ms != []
    ensures WriteMembers(ms) != "" && WriteMembers(ms)[0] == '"'
  {
    assert WriteMember(ms[0])[0] == '"';
  }

  lemma MemberStarts(text: string, name: string, tail: string, v: Json, rest: string)
    requires text != "" && text[0] == '"' && ParseString(text[1..]) == Some((name, ":" + tail))
    requires ParseValue(tail) == Some((v, rest))
    ensures ParseMember(text) == Some((Member(name, v), rest))
  {
    Drop(':', tail);
  }

  lemma {:induction false} MemberReads(v: Json, m: Member, rest: string)
    requires m.value < v && Plain(m.value) && Stops(rest)
    ensures ParseMember(WriteMember(m) + rest) == Some((m, rest))
    decreases v, 0, 0
  {
    var tail := Write(m.value) + rest;
    NamedText(m.name, Write(m.value), rest);
    StringReads(m.name, ":" + tail);
    ValueReads(m.value, rest);
    MemberStarts(WriteMember(m) + rest, m.name, tail, m.value, rest);
  }

  lemma NamedText(name: string, value: string, rest: string)
    ensures var text := Quoted(name) + ":" + value + rest;
      text != "" && text[0] == '"' && text[1..] == EscapedAll(name) + "\"" + (":" + (value + rest))
  {
  }

  lemma MembersEnd(text: string, m: Member, rest: string)
    requires ParseMember(text) == Some((m, "}" + rest))
    ensures ParseMembers(text) == Some(([m], rest))
  {
    Drop('}', rest);
  }

  lemma MembersGoOn(text: string, m: Member, tail: string, more: seq<Member>, rest: string)
    requires ParseMember(text) == Some((m, "," + tail)) && ParseMembers(tail) == Some((more, rest))
    ensures ParseMembers(text) == Some(([m] + more, rest))
  {
    Drop(',', tail);
  }

  lemma {:induction false} MembersRead(v: Json, ms: seq<Member>, rest: string)
    requires ms != [] && forall m :: m in ms ==> m.value < v && Plain(m.value)
    ensures ParseMembers(WriteMembers(ms) + "}" + rest) == Some((ms, rest))
    decreases v, 0, |ms|
  {
    var text := WriteMembers(ms) + "}" + rest;
    var m := ms[0];
    assert m in ms;
    if |ms| == 1 {
      MemberReads(v, m, "}" + rest);
      Regroup(WriteMember(m), "", "}", rest);
      MembersEnd(text, m, rest);
      assert ms == [m];
    } else {
      var tail := WriteMembers(ms[1..]) + "}" + rest;
      Regroup(WriteMember(m), WriteMembers(ms[1..]), "}", rest);
      MemberReads(v, m, "," + tail);
      assert forall m :: m in ms[1..] ==> m in ms;
      MembersRead(v, ms[1..], rest);
      MembersGoOn(text, m, tail, ms[1..], rest);
      assert ms == [m] + ms[1..];
    }
  }

  lemma {:induction false} NormalPlain(v: Json)
    requires Plain(v)
    ensures Plain(Normal(v))
  {
    match v
    case Arr(items) =>
      forall x | x in NormalItems(items) ensures Plain(x) {
        var i :| 0 <= i < |items| && NormalItems(items)[i] == x;
        assert items[i] in items;
        NormalPlain(items[i]);
      }
    case Obj(ms) =>
      var ns := NormalMembers(ms);
      SortSorts(ns);
      forall m | m in SortMembers(ns) ensures Plain(m.value) {
        var i :| 0 <= i < |ns| && ns[i] == m;
        assert ms[i] in ms;
        NormalPlain(ms[i].value);
      }
      AscendingDistinct(SortMembers(ns));
    case _ =>
  }

  lemma AscendingDistinct(ms: seq<Member>)
    requires Ascending(ms)
    ensures Distinct(ms)
  {
    forall i, j | 0 <= i < j < |ms| ensures ms[i].name != ms[j].name {
      Text.UnitsBeforeTotal(ms[i].name, ms[j].name, ms[i].name);
    }
  }

  /** Parsing a canonical text gives back the value it was written from, its members now in order. */
  lemma CanonicalReadsBack(v: Json)
    requires Plain(v)
    ensures Parse(Canonical(v)) == Some(Normal(v))
    ensures Same(Normal(v), v)
  {
    NormalPlain(v);
    ValueReads(Normal(v), "");
    assert Write(Normal(v)) + "" == Canonical(v);
    NormalTwice(v);
    NormalMeansSame(Normal(v), v);
  }

  lemma {:induction false} InsertFirst(m: Member, ms: seq<Member>)
    requires Ascending([m] + ms)
    ensures Insert(m, ms) == [m] + ms
  {
    if ms != [] { assert Text.UnitsBefore(([m] + ms)[0].name, ([m] + ms)[1].name); }
  }

  lemma {:induction false} SortSorted(ms: seq<Member>)
    requires Ascending(ms)
    ensures SortMembers(ms) == ms
  {
    if ms != [] {
      SortSorted(ms[1..]);
      assert ms == [ms[0]] + ms[1..];
      InsertFirst(ms[0], ms[1..]);
    }
  }

  /** Normalising again changes nothing: what the store holds is its own canonical form. */
  lemma {:induction false} NormalTwice(v: Json)
    requires Plain(v)
    ensures Normal(Normal(v)) == Normal(v)
  {
    match v
    case Arr(items) =>
      forall i | 0 <= i < |items| ensures Normal(NormalItems(items)[i]) == NormalItems(items)[i] {
        assert items[i] in items;
        NormalTwice(items[i]);
      }
      assert NormalItems(NormalItems(items)) == NormalItems(items);
    case Obj(ms) =>
      var ns := NormalMembers(ms);
      SortSorts(ns);
      var sorted := SortMembers(ns);
      forall i | 0 <= i < |sorted| ensures NormalMembers(sorted)[i] == sorted[i] {
        assert sorted[i] in ns;
        var j :| 0 <= j < |ns| && ns[j] == sorted[i];
        assert ms[j] in ms;
        NormalTwice(ms[j].value);
      }
      assert NormalMembers(sorted) == sorted;
      SortSorted(sorted);
    case _ =>
  }

  /** Two values have one canonical text exactly when they are the same JSON. */
  lemma CanonicalMeansSame(a: Json, b: Json)
    requires Plain(a) && Plain(b)
    ensures Canonical(a) == Canonical(b) <==> Same(a, b)
  {
    NormalMeansSame(a, b);
    CanonicalReadsBack(a);
    CanonicalReadsBack(b);
  }
}
