/** The claims a grant adds to its access token: checked, counted and copied in one walk over what was given. */
module Claims {
  import opened Wrappers
  import opened Json
  import Text
  import opened Units

  const NAME_CODE_POINTS := 255
  const STRING_CODE_POINTS := 2048
  const MEMBERS := 256
  const NODES := 1024
  const DEPTH := 8
  const BYTES := 4096

  /** What may be given: a plain tree, whose strings need not be well formed nor its numbers finite; or no JSON. */
  datatype Given =
    | GivenNull
    | GivenBool(b: bool)
    | GivenNum(text: string, finite: bool)
    | GivenStr(units: seq<nat>)
    | GivenArr(items: seq<Given>)
    | GivenObj(members: seq<GivenMember>)
    | NotJson

  datatype GivenMember = GivenMember(name: seq<nat>, value: Given)

  datatype Nulls = NullsRefused | NullsRead

  /** The names an access token's issuer writes, and those a specification gives a meaning it never writes. */
  const RESERVED := {
    "iss", "sub", "aud", "client_id", "scope", "act", "amr", "auth_time", "acr", "iat", "exp", "jti", "cnf",
    "o3co_standing_at", "nbf", "roles", "groups", "entitlements", "scp", "may_act", "authorization_details",
    "htm", "htu", "ath", "nonce", "azp", "at_hash", "c_hash", "sid", "name", "picture", "profile", "email",
    "email_verified", "active", "token_type", "username"}

  const OBJECT_NAMES := {"__proto__", "constructor", "prototype", "toJSON"}

  /** Strings are sixteen-bit units, and a finite number's text is JSON's for it. */
  predicate Tree(v: Given) {
    match v
    case GivenNum(text, finite) => finite ==> NumText(text)
    case GivenStr(units) => AreUnits(units)
    case GivenArr(items) => forall i :: 0 <= i < |items| ==> Tree(items[i])
    case GivenObj(ms) => forall i :: 0 <= i < |ms| ==> AreUnits(ms[i].name) && Tree(ms[i].value)
    case _ => true
  }

  // ---- The rules, on the finished tree ----

  predicate Control(c: char) { c as int < 0x20 || 0x7F <= c as int <= 0x9F }

  predicate Space(c: char) {
    var n := c as int;
    || 9 <= n <= 13 || n == 0x20 || n == 0x85 || n == 0xA0 || n == 0x1680 || 0x2000 <= n <= 0x200A
    || n == 0x2028 || n == 0x2029 || n == 0x202F || n == 0x205F || n == 0x3000
  }

  predicate NameText(s: string, top: bool) {
    && (forall i :: 0 <= i < |s| ==> !Control(s[i]) && !Space(s[i]))
    && s !in OBJECT_NAMES && (top ==> s !in RESERVED)
  }

  predicate NameMeets(name: seq<nat>, top: bool)
    requires AreUnits(name)
  {
    && 1 <= |name| && Count(name) <= NAME_CODE_POINTS
    && Decoded(name).Some? && NameText(Decoded(name).value, top)
  }

  /** Every rule but the counts over the whole. */
  predicate Meets(v: Given, depth: nat, nulls: Nulls)
    requires Tree(v)
  {
    && depth <= DEPTH
    && match v
       case GivenNull => nulls.NullsRead?
       case GivenBool(_) => true
       case GivenNum(_, finite) => finite
       case GivenStr(units) => Count(units) <= STRING_CODE_POINTS && Decoded(units).Some?
       case GivenArr(items) =>
         |items| <= MEMBERS && forall i :: 0 <= i < |items| ==> Meets(items[i], depth + 1, nulls)
       case GivenObj(ms) =>
         && |ms| <= MEMBERS
         && forall i :: 0 <= i < |ms| ==> NameMeets(ms[i].name, false) && Meets(ms[i].value, depth + 1, nulls)
       case NotJson => false
  }

  /** How many values a tree holds, itself one. */
  function Values(v: Given): nat {
    match v
    case GivenArr(items) => 1 + ItemValues(items)
    case GivenObj(ms) => 1 + MemberValues(ms)
    case _ => 1
  }

  function ItemValues(items: seq<Given>): nat {
    if items == [] then 0 else ItemValues(items[..|items| - 1]) + Values(items[|items| - 1])
  }

  function MemberValues(ms: seq<GivenMember>): nat {
    if ms == [] then 0 else MemberValues(ms[..|ms| - 1]) + Values(ms[|ms| - 1].value)
  }

  // ---- The copy ----

  function TextOf(units: seq<nat>): string
    requires AreUnits(units)
  {
    Decoded(units).GetOr("")
  }

  /** The same tree as JSON. */
  function Copied(v: Given): Json
    requires Tree(v)
  {
    match v
    case GivenNull => Null
    case GivenBool(b) => Bool(b)
    case GivenNum(text, _) => Num(text)
    case GivenStr(units) => Str(TextOf(units))
    case GivenArr(items) => Arr(seq(|items|, i requires 0 <= i < |items| => Copied(items[i])))
    case GivenObj(ms) =>
      Obj(seq(|ms|, i requires 0 <= i < |ms| => Member(TextOf(ms[i].name), Copied(ms[i].value))))
    case NotJson => Null
  }

  // ---- The bytes, counted as the walk counts them ----

  function BytesOf(s: string): nat { |Text.Utf8(Quoted(s))| }

  function Commas(n: nat): nat { 2 + if n == 0 then 0 else n - 1 }

  function ByteCount(v: Json): nat {
    match v
    case Null => 4
    case Bool(b) => if b then 4 else 5
    case Num(text) => |text|
    case Str(s) => BytesOf(s)
    case Arr(items) => Commas(|items|) + ItemBytes(items)
    case Obj(ms) => Commas(|ms|) + MemberBytes(ms)
  }

  function ItemBytes(items: seq<Json>): nat {
    if items == [] then 0 else ItemBytes(items[..|items| - 1]) + ByteCount(items[|items| - 1])
  }

  function CountOf(m: Member): nat
    decreases m, 1
  {
    BytesOf(m.name) + 1 + ByteCount(m.value)
  }

  function MemberBytes(ms: seq<Member>): nat {
    if ms == [] then 0 else MemberBytes(ms[..|ms| - 1]) + CountOf(ms[|ms| - 1])
  }

  lemma {:induction false} AsciiBytes(s: string)
    requires forall i :: 0 <= i < |s| ==> s[i] as int < 0x80
    ensures |Text.Utf8(s)| == |s|
  {
    if s != "" { AsciiBytes(s[1..]); }
  }

  lemma {:induction false} ItemsWritten(items: seq<Json>)
    requires forall i :: 0 <= i < |items| ==> ByteCount(items[i]) == |Text.Utf8(Write(items[i]))|
    ensures items != [] ==> |Text.Utf8(WriteItems(items))| == ItemBytesFrom(items) + |items| - 1
  {
    if |items| > 1 {
      ItemsWritten(items[1..]);
      var first, rest := Write(items[0]), WriteItems(items[1..]);
      Text.Utf8Concat(first + ",", rest);
      Text.Utf8Concat(first, ",");
      AsciiBytes(",");
    }
  }

  function ItemBytesFrom(items: seq<Json>): nat {
    if items == [] then 0 else ByteCount(items[0]) + ItemBytesFrom(items[1..])
  }

  lemma {:induction false} EitherWay(items: seq<Json>)
    ensures ItemBytes(items) == ItemBytesFrom(items)
  {
    if |items| > 1 {
      var init := items[..|items| - 1];
      EitherWay(init);
      EitherWay(items[1..]);
      EitherWay(items[1..][..|items| - 2]);
      assert items[1..][..|items| - 2] == init[1..];
    }
  }

  lemma {:induction false} MembersWritten(ms: seq<Member>)
    requires forall i :: 0 <= i < |ms| ==> ByteCount(ms[i].value) == |Text.Utf8(Write(ms[i].value))|
    ensures ms != [] ==> |Text.Utf8(WriteMembers(ms))| == MemberBytesFrom(ms) + |ms| - 1
  {
    if ms != [] {
      MemberWritten(ms[0]);
      if |ms| > 1 {
        MembersWritten(ms[1..]);
        var first, rest := WriteMember(ms[0]), WriteMembers(ms[1..]);
        Text.Utf8Concat(first + ",", rest);
        Text.Utf8Concat(first, ",");
        AsciiBytes(",");
      }
    }
  }

  lemma MemberWritten(m: Member)
    requires ByteCount(m.value) == |Text.Utf8(Write(m.value))|
    ensures |Text.Utf8(WriteMember(m))| == CountOf(m)
  {
    Text.Utf8Concat(Quoted(m.name) + ":", Write(m.value));
    Text.Utf8Concat(Quoted(m.name), ":");
    AsciiBytes(":");
  }

  function MemberBytesFrom(ms: seq<Member>): nat {
    if ms == [] then 0 else CountOf(ms[0]) + MemberBytesFrom(ms[1..])
  }

  lemma {:induction false} EitherWayMembers(ms: seq<Member>)
    ensures MemberBytes(ms) == MemberBytesFrom(ms)
  {
    if |ms| > 1 {
      var init, rest, last := ms[..|ms| - 1], ms[1..], ms[|ms| - 1];
      var mid := rest[..|rest| - 1];
      assert mid == init[1..];
      EitherWayMembers(init);
      EitherWayMembers(rest);
      EitherWayMembers(mid);
      assert MemberBytes(rest) == MemberBytes(mid) + CountOf(last);
    }
  }

  lemma Bracketed(open: string, inner: string, close: string)
    requires |open| == |close| == 1 && open[0] as int < 0x80 && close[0] as int < 0x80
    ensures |Text.Utf8(open + inner + close)| == |Text.Utf8(inner)| + 2
  {
    Text.Utf8Concat(open + inner, close);
    Text.Utf8Concat(open, inner);
    AsciiBytes(open);
    AsciiBytes(close);
  }

  predicate Numbered(v: Json) {
    match v
    case Num(text) => NumText(text)
    case Arr(items) => forall i :: 0 <= i < |items| ==> Numbered(items[i])
    case Obj(ms) => forall i :: 0 <= i < |ms| ==> Numbered(ms[i].value)
    case _ => true
  }

  /** The bytes counted are those of the JSON text in UTF-8, every one. */
  lemma {:induction false} CountIsLength(v: Json)
    requires Numbered(v)
    ensures ByteCount(v) == |Text.Utf8(Write(v))|
    decreases v
  {
    match v {
      case Null => AsciiBytes("null");
      case Bool(b) => AsciiBytes(if b then "true" else "false");
      case Num(text) => AsciiBytes(text);
      case Str(_) =>
      case Arr(items) =>
        forall i | 0 <= i < |items|
          ensures ByteCount(items[i]) == |Text.Utf8(Write(items[i]))|
        {
          CountIsLength(items[i]);
        }
        ItemsWritten(items);
        EitherWay(items);
        Bracketed("[", WriteItems(items), "]");
      case Obj(ms) =>
        forall i | 0 <= i < |ms|
          ensures ByteCount(ms[i].value) == |Text.Utf8(Write(ms[i].value))|
        {
          CountIsLength(ms[i].value);
        }
        MembersWritten(ms);
        EitherWayMembers(ms);
        Bracketed("{", WriteMembers(ms), "}");
    }
  }

  lemma {:induction false} CopiedNumbered(v: Given, depth: nat, nulls: Nulls)
    requires Tree(v) && Meets(v, depth, nulls)
    ensures Numbered(Copied(v))
    decreases v
  {
    match v {
      case GivenArr(items) =>
        forall i | 0 <= i < |items| ensures Numbered(Copied(items[i])) { CopiedNumbered(items[i], depth + 1, nulls); }
      case GivenObj(ms) =>
        forall i | 0 <= i < |ms|
          ensures Numbered(Copied(ms[i].value))
        {
          CopiedNumbered(ms[i].value, depth + 1, nulls);
        }
      case _ =>
    }
  }

  // ---- The walk ----

  lemma {:induction false} ValuesGrow(items: seq<Given>, i: nat)
    requires i <= |items|
    ensures ItemValues(items[..i]) <= ItemValues(items)
    ensures i < |items| ==> ItemValues(items[..i]) + Values(items[i]) == ItemValues(items[..i + 1]) <= ItemValues(items)
    decreases |items| - i
  {
    if i < |items| {
      assert items[..i + 1][..i] == items[..i];
      ValuesGrow(items, i + 1);
    } else {
      assert items[..i] == items;
    }
  }

  lemma {:induction false} BytesGrow(items: seq<Json>, i: nat)
    requires i <= |items|
    ensures ItemBytes(items[..i]) <= ItemBytes(items)
    ensures i < |items| ==> ItemBytes(items[..i]) + ByteCount(items[i]) == ItemBytes(items[..i + 1]) <= ItemBytes(items)
    decreases |items| - i
  {
    if i < |items| {
      assert items[..i + 1][..i] == items[..i];
      BytesGrow(items, i + 1);
    } else {
      assert items[..i] == items;
    }
  }

  lemma {:induction false} MemberValuesGrow(ms: seq<GivenMember>, i: nat)
    requires i <= |ms|
    ensures MemberValues(ms[..i]) <= MemberValues(ms)
    ensures i < |ms| ==> MemberValues(ms[..i]) + Values(ms[i].value) == MemberValues(ms[..i + 1]) <= MemberValues(ms)
    decreases |ms| - i
  {
    if i < |ms| {
      assert ms[..i + 1][..i] == ms[..i];
      MemberValuesGrow(ms, i + 1);
    } else {
      assert ms[..i] == ms;
    }
  }

  lemma {:induction false} MemberBytesGrow(ms: seq<Member>, i: nat)
    requires i <= |ms|
    ensures MemberBytes(ms[..i]) <= MemberBytes(ms)
    ensures i < |ms| ==> MemberBytes(ms[..i]) + CountOf(ms[i]) == MemberBytes(ms[..i + 1]) <= MemberBytes(ms)
    decreases |ms| - i
  {
    if i < |ms| {
      assert ms[..i + 1][..i] == ms[..i];
      MemberBytesGrow(ms, i + 1);
    } else {
      assert ms[..i] == ms;
    }
  }

  function CopiedMember(m: GivenMember): Member
    requires AreUnits(m.name) && Tree(m.value)
  {
    Member(TextOf(m.name), Copied(m.value))
  }

  /** A walk that stands at these counts takes the whole of a tree. */
  ghost predicate Takes(nulls: Nulls, nodes: nat, bytes: nat, v: Given, depth: nat)
    requires Tree(v)
  {
    Meets(v, depth, nulls) && nodes + Values(v) <= NODES && bytes + ByteCount(Copied(v)) <= BYTES
  }

  /** A member, with its name. */
  ghost predicate TakesMember(nulls: Nulls, nodes: nat, bytes: nat, m: GivenMember, depth: nat, top: bool)
    requires AreUnits(m.name) && Tree(m.value)
  {
    && NameMeets(m.name, top) && Meets(m.value, depth, nulls) && nodes + Values(m.value) <= NODES
    && bytes + CountOf(CopiedMember(m)) <= BYTES
  }

  /** An object's members, or at the top a set's claims. */
  ghost predicate MembersMeet(v: Given, depth: nat, nulls: Nulls, top: bool)
    requires Tree(v) && v.GivenObj?
  {
    && |v.members| <= MEMBERS
    && forall i :: 0 <= i < |v.members| ==>
         NameMeets(v.members[i].name, top) && Meets(v.members[i].value, depth + 1, nulls)
  }

  ghost predicate TakesMembers(nulls: Nulls, nodes: nat, bytes: nat, v: Given, depth: nat, top: bool)
    requires Tree(v) && v.GivenObj?
  {
    && MembersMeet(v, depth, nulls, top) && nodes + MemberValues(v.members) <= NODES
    && bytes + ByteCount(Copied(v)) <= BYTES
  }

  /** The rest of an array or an object, itself counted. */
  ghost predicate TakesInside(nulls: Nulls, nodes: nat, bytes: nat, v: Given, depth: nat)
    requires Tree(v)
  {
    Meets(v, depth, nulls) && nodes + Values(v) - 1 <= NODES && bytes + ByteCount(Copied(v)) <= BYTES
  }

  /** The first items taken, and the counts as they then stand. */
  ghost predicate ItemsTaken(
    nulls: Nulls, nodes: nat, bytes: nat, v: Given, depth: nat, at: nat, n: nat, b: nat, copied: seq<Json>)
    requires Tree(v) && v.GivenArr? && at <= |v.items|
  {
    && copied == Copied(v).items[..at]
    && (forall i :: 0 <= i < at ==> Meets(v.items[i], depth + 1, nulls))
    && n == nodes + ItemValues(v.items[..at]) && b == bytes + Commas(|v.items|) + ItemBytes(Copied(v).items[..at])
  }

  lemma ItemsStep(
    nulls: Nulls, nodes: nat, bytes: nat, v: Given, depth: nat, at: nat, n: nat, b: nat, copied: seq<Json>)
    requires Tree(v) && v.GivenArr? && at < |v.items|
    requires ItemsTaken(nulls, nodes, bytes, v, depth, at, n, b, copied) && Takes(nulls, n, b, v.items[at], depth + 1)
    ensures ItemsTaken(
      nulls, nodes, bytes, v, depth, at + 1, n + Values(v.items[at]), b + ByteCount(Copied(v.items[at])),
      copied + [Copied(v.items[at])])
  {
    ValuesGrow(v.items, at);
    BytesGrow(Copied(v).items, at);
  }

  lemma ItemsRefused(
    nulls: Nulls, nodes: nat, bytes: nat, v: Given, depth: nat, at: nat, n: nat, b: nat, copied: seq<Json>)
    requires Tree(v) && v.GivenArr? && at < |v.items|
    requires ItemsTaken(nulls, nodes, bytes, v, depth, at, n, b, copied) && !Takes(nulls, n, b, v.items[at], depth + 1)
    ensures !TakesInside(nulls, nodes, bytes, v, depth)
  {
    ValuesGrow(v.items, at);
    BytesGrow(Copied(v).items, at);
  }

  lemma ItemsDone(nulls: Nulls, nodes: nat, bytes: nat, v: Given, depth: nat, n: nat, b: nat, copied: seq<Json>)
    requires Tree(v) && v.GivenArr? && |v.items| <= MEMBERS && depth <= DEPTH && n <= NODES && b <= BYTES
    requires ItemsTaken(nulls, nodes, bytes, v, depth, |v.items|, n, b, copied)
    ensures TakesInside(nulls, nodes, bytes, v, depth) && Arr(copied) == Copied(v)
    ensures n == nodes + Values(v) - 1 && b == bytes + ByteCount(Copied(v))
  {
    assert v.items[..|v.items|] == v.items && Copied(v).items[..|v.items|] == Copied(v).items;
  }

  /** The first members taken, and the counts as they then stand. */
  ghost predicate MembersTaken(
    nulls: Nulls, nodes: nat, bytes: nat, v: Given, depth: nat, top: bool, at: nat, n: nat, b: nat, copied: seq<Member>)
    requires Tree(v) && v.GivenObj? && at <= |v.members|
  {
    && copied == Copied(v).members[..at]
    && (forall i :: 0 <= i < at ==> NameMeets(v.members[i].name, top) && Meets(v.members[i].value, depth + 1, nulls))
    && n == nodes + MemberValues(v.members[..at])
    && b == bytes + Commas(|v.members|) + MemberBytes(Copied(v).members[..at])
  }

  /** How the counts go on at one member of the copy. */
  lemma MemberCounts(v: Given, at: nat)
    requires Tree(v) && v.GivenObj? && at < |v.members|
    ensures var m, whole := v.members[at], Copied(v).members;
      && whole[..at] + [CopiedMember(m)] == whole[..at + 1]
      && MemberValues(v.members[..at]) + Values(m.value) == MemberValues(v.members[..at + 1]) <= MemberValues(v.members)
      && MemberBytes(whole[..at]) + CountOf(CopiedMember(m)) == MemberBytes(whole[..at + 1]) <= MemberBytes(whole)
  {
    MemberValuesGrow(v.members, at);
    MemberBytesGrow(Copied(v).members, at);
    assert Copied(v).members[at] == CopiedMember(v.members[at]);
  }

  lemma MembersStep(
    nulls: Nulls, nodes: nat, bytes: nat, v: Given, depth: nat, top: bool, at: nat, n: nat, b: nat, copied: seq<Member>)
    requires Tree(v) && v.GivenObj? && at < |v.members|
    requires MembersTaken(nulls, nodes, bytes, v, depth, top, at, n, b, copied)
    requires TakesMember(nulls, n, b, v.members[at], depth + 1, top)
    ensures MembersTaken(nulls, nodes, bytes, v, depth, top, at + 1, n + Values(v.members[at].value),
      b + CountOf(CopiedMember(v.members[at])), copied + [CopiedMember(v.members[at])])
  {
    MemberCounts(v, at);
  }

  lemma MembersRefused(
    nulls: Nulls, nodes: nat, bytes: nat, v: Given, depth: nat, top: bool, at: nat, n: nat, b: nat, copied: seq<Member>)
    requires Tree(v) && v.GivenObj? && at < |v.members|
    requires MembersTaken(nulls, nodes, bytes, v, depth, top, at, n, b, copied)
    requires !TakesMember(nulls, n, b, v.members[at], depth + 1, top)
    ensures !TakesMembers(nulls, nodes, bytes, v, depth, top)
  {
    MemberCounts(v, at);
  }

  lemma MembersDone(
    nulls: Nulls, nodes: nat, bytes: nat, v: Given, depth: nat, top: bool, n: nat, b: nat, copied: seq<Member>)
    requires Tree(v) && v.GivenObj? && |v.members| <= MEMBERS && n <= NODES && b <= BYTES
    requires MembersTaken(nulls, nodes, bytes, v, depth, top, |v.members|, n, b, copied)
    ensures TakesMembers(nulls, nodes, bytes, v, depth, top) && Obj(copied) == Copied(v)
    ensures n == nodes + MemberValues(v.members) && b == bytes + ByteCount(Copied(v))
  {
    assert v.members[..|v.members|] == v.members && Copied(v).members[..|v.members|] == Copied(v).members;
  }

  /** The walk's running counts: the values met and the bytes the JSON would take. */
  class Walk {
    var nodes: nat
    var bytes: nat
    const nulls: Nulls

    constructor (nulls: Nulls)
      ensures nodes == 0 && bytes == 0 && this.nulls == nulls
    {
      nodes, bytes := 0, 0;
      this.nulls := nulls;
    }

    ghost predicate Valid()
      reads this
    {
      nodes <= NODES && bytes <= BYTES
    }

    /** Each count is checked as it grows, before the walk goes on. */
    method Node() returns (within: bool)
      modifies this`nodes
      ensures nodes == old(nodes) + 1 && (within <==> nodes <= NODES)
    {
      nodes := nodes + 1;
      within := nodes <= NODES;
    }

    method Bytes(n: nat) returns (within: bool)
      modifies this`bytes
      ensures bytes == old(bytes) + n && (within <==> bytes <= BYTES)
    {
      bytes := bytes + n;
      within := bytes <= BYTES;
    }

    method NameOf(name: seq<nat>, top: bool) returns (r: Option<string>)
      requires AreUnits(name)
      ensures r == if NameMeets(name, top) then Decoded(name) else None
    {
      if name == [] { return None; }
      var within := WithinCodePoints(name, NAME_CODE_POINTS);
      if !within { return None; }
      var text := Decoded(name);
      if text.None? || (exists i :: 0 <= i < |text.value| && (Control(text.value[i]) || Space(text.value[i]))) {
        return None;
      }
      if text.value in OBJECT_NAMES { return None; }
      if top && text.value in RESERVED { return None; }
      return text;
    }

    /** Copies a value just when the walk may take it whole, and then counts all its values and its bytes. */
    method Copy(v: Given, depth: nat) returns (r: Option<Json>)
      requires Valid() && Tree(v)
      modifies this
      ensures r == if Takes(nulls, old(nodes), old(bytes), v, depth) then Some(Copied(v)) else None
      ensures r.Some? ==> Valid() && nodes == old(nodes) + Values(v) && bytes == old(bytes) + ByteCount(Copied(v))
      decreases v, 1
    {
      if depth > DEPTH { return None; }
      var within := Node();
      if !within { return None; }
      match v
      case GivenNull =>
        if nulls == NullsRefused { return None; }
        within := Bytes(4);
        return if within then Some(Null) else None;
      case GivenBool(b) =>
        within := Bytes(if b then 4 else 5);
        return if within then Some(Bool(b)) else None;
      case GivenNum(text, finite) =>
        if !finite { return None; }
        within := Bytes(|text|);
        return if within then Some(Num(text)) else None;
      case GivenStr(units) =>
        var short := WithinCodePoints(units, STRING_CODE_POINTS);
        if !short { return None; }
        var text := Decoded(units);
        if text.None? { return None; }
        within := Bytes(BytesOf(text.value));
        return if within then Some(Str(text.value)) else None;
      case GivenArr(items) => r := CopyArray(v, depth);
      case GivenObj(ms) => r := CopyObject(v, depth, false);
      case NotJson => return None;
    }

    method CopyArray(v: Given, depth: nat) returns (r: Option<Json>)
      requires Valid() && Tree(v) && v.GivenArr? && depth <= DEPTH
      modifies this
      ensures r == if TakesInside(nulls, old(nodes), old(bytes), v, depth) then Some(Copied(v)) else None
      ensures r.Some? ==> Valid() && nodes == old(nodes) + Values(v) - 1 && bytes == old(bytes) + ByteCount(Copied(v))
      decreases v, 0
    {
      var items := v.items;
      if |items| > MEMBERS { return None; }
      var within := Bytes(Commas(|items|));
      if !within { return None; }
      var copied: seq<Json> := [];
      var at := 0;
      assert items[..0] == [] && Copied(v).items[..0] == [];
      while at < |items|
        invariant at <= |items| && Valid()
        invariant ItemsTaken(nulls, old(nodes), old(bytes), v, depth, at, nodes, bytes, copied)
      {
        ghost var n, b := nodes, bytes;
        var entry := Copy(items[at], depth + 1);
        if entry.None? {
          ItemsRefused(nulls, old(nodes), old(bytes), v, depth, at, n, b, copied);
          return None;
        }
        ItemsStep(nulls, old(nodes), old(bytes), v, depth, at, n, b, copied);
        copied := copied + [entry.value];
        at := at + 1;
      }
      ItemsDone(nulls, old(nodes), old(bytes), v, depth, nodes, bytes, copied);
      return Some(Arr(copied));
    }

    method CopyMember(m: GivenMember, depth: nat, top: bool) returns (r: Option<Member>)
      requires Valid() && AreUnits(m.name) && Tree(m.value)
      modifies this
      ensures r == if TakesMember(nulls, old(nodes), old(bytes), m, depth, top) then Some(CopiedMember(m)) else None
      ensures r.Some? ==>
        Valid() && nodes == old(nodes) + Values(m.value) && bytes == old(bytes) + CountOf(CopiedMember(m))
      decreases m.value, 2
    {
      var name := NameOf(m.name, top);
      if name.None? { return None; }
      var within := Bytes(BytesOf(name.value) + 1);
      if !within { return None; }
      var value := Copy(m.value, depth);
      return if value.None? then None else Some(Member(name.value, value.value));
    }

    /** An object's members, or a set's claims, in the order they are held. */
    method CopyObject(v: Given, depth: nat, top: bool) returns (r: Option<Json>)
      requires Valid() && Tree(v) && v.GivenObj?
      modifies this
      ensures r == if TakesMembers(nulls, old(nodes), old(bytes), v, depth, top) then Some(Copied(v)) else None
      ensures r.Some? ==>
        Valid() && nodes == old(nodes) + MemberValues(v.members) && bytes == old(bytes) + ByteCount(Copied(v))
      decreases v, 0
    {
      var ms := v.members;
      if |ms| > MEMBERS { return None; }
      var within := Bytes(Commas(|ms|));
      if !within { return None; }
      var copied: seq<Member> := [];
      var at := 0;
      assert ms[..0] == [] && Copied(v).members[..0] == [];
      while at < |ms|
        invariant at <= |ms| && Valid()
        invariant MembersTaken(nulls, old(nodes), old(bytes), v, depth, top, at, nodes, bytes, copied)
      {
        ghost var n, b := nodes, bytes;
        var member := CopyMember(ms[at], depth + 1, top);
        if member.None? {
          MembersRefused(nulls, old(nodes), old(bytes), v, depth, top, at, n, b, copied);
          return None;
        }
        MembersStep(nulls, old(nodes), old(bytes), v, depth, top, at, n, b, copied);
        copied := copied + [member.value];
        at := at + 1;
      }
      MembersDone(nulls, old(nodes), old(bytes), v, depth, top, nodes, bytes, copied);
      return Some(Obj(copied));
    }
  }

  // ---- A whole set ----

  datatype Claimed = NoClaims | Claims(members: seq<Member>) | Refused

  /** A set of claims meets every rule: names, nesting and values, how many values it holds in all, and how long
      its JSON text is in UTF-8. */
  ghost predicate SetMeets(v: Given, nulls: Nulls)
    requires Tree(v)
  {
    && v.GivenObj? && MembersMeet(v, 0, nulls, true)
    && MemberValues(v.members) <= NODES && |Text.Utf8(Write(Copied(v)))| <= BYTES
  }

  lemma SetCount(v: Given, nulls: Nulls)
    requires Tree(v) && v.GivenObj? && MembersMeet(v, 0, nulls, true)
    ensures ByteCount(Copied(v)) == |Text.Utf8(Write(Copied(v)))|
  {
    forall i | 0 <= i < |v.members| ensures Numbered(Copied(v.members[i].value)) {
      CopiedNumbered(v.members[i].value, 1, nulls);
    }
    CountIsLength(Copied(v));
  }

  /** The claims a grant adds: taken exactly when the whole set meets the rules, and then copied as given; none
      given, or an empty set, is none. Stopping at the first count passed refuses nothing the whole would not. */
  method CopyClaims(given: Option<Given>, nulls: Nulls) returns (r: Claimed)
    requires given.Some? ==> Tree(given.value)
    ensures r == if given.None? || given.value == GivenObj([]) then NoClaims
      else if SetMeets(given.value, nulls) then Claims(Copied(given.value).members) else Refused
    ensures r.Claims? ==> Mirrors(Obj(r.members), given.value)
  {
    if given.None? { return NoClaims; }
    var v := given.value;
    if !v.GivenObj? { return Refused; }
    if |v.members| > MEMBERS { return Refused; }
    if v.members == [] { return NoClaims; }
    var walk := new Walk(nulls);
    var taken := walk.CopyObject(v, 0, true);
    if MembersMeet(v, 0, nulls, true) { SetCount(v, nulls); }
    if SetMeets(v, nulls) { SetMirrors(v, nulls); }
    return if taken.None? then Refused else Claims(taken.value.members);
  }

  // ---- What the copy is ----

  /** JSON that mirrors what was given: its strings are those the units hold, member for member, value for value. */
  ghost predicate Mirrors(j: Json, v: Given) {
    match (j, v)
    case (Null, GivenNull) => true
    case (Bool(a), GivenBool(b)) => a == b
    case (Num(s), GivenNum(t, finite)) => s == t && finite
    case (Str(s), GivenStr(units)) => Text.Utf16(s) == units
    case (Arr(js), GivenArr(items)) => |js| == |items| && forall i :: 0 <= i < |js| ==> Mirrors(js[i], items[i])
    case (Obj(js), GivenObj(ms)) =>
      && |js| == |ms|
      && forall i :: 0 <= i < |js| ==> Text.Utf16(js[i].name) == ms[i].name && Mirrors(js[i].value, ms[i].value)
    case _ => false
  }

  /** What is taken is what was given, to every unit of every string. */
  lemma {:induction false} CopyMirrors(v: Given, depth: nat, nulls: Nulls)
    requires Tree(v) && Meets(v, depth, nulls)
    ensures Mirrors(Copied(v), v)
    decreases v
  {
    match v {
      case GivenStr(units) => DecodedHolds(units);
      case GivenArr(items) =>
        forall i | 0 <= i < |items|
          ensures Mirrors(Copied(items[i]), items[i])
        {
          CopyMirrors(items[i], depth + 1, nulls);
        }
      case GivenObj(ms) =>
        forall i | 0 <= i < |ms|
          ensures Text.Utf16(TextOf(ms[i].name)) == ms[i].name && Mirrors(Copied(ms[i].value), ms[i].value)
        {
          DecodedHolds(ms[i].name);
          CopyMirrors(ms[i].value, depth + 1, nulls);
        }
      case _ =>
    }
  }

  lemma SetMirrors(v: Given, nulls: Nulls)
    requires Tree(v) && SetMeets(v, nulls)
    ensures Mirrors(Copied(v), v)
  {
    var ms := v.members;
    forall i | 0 <= i < |ms|
      ensures Text.Utf16(TextOf(ms[i].name)) == ms[i].name && Mirrors(Copied(ms[i].value), ms[i].value)
    {
      DecodedHolds(ms[i].name);
      CopyMirrors(ms[i].value, 1, nulls);
    }
  }
}
