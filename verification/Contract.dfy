/** The store's contract: keys, expiries, the operations and their answers, and the text a mark is bound to. */
module Contract {
  import opened Wrappers
  import opened Json

  /** Versions are compared for equality only; a store counts them from one. */
  type Version = nat

  datatype Key = Key(space: string, partition: string, name: string)

  /** Keys in one partition of one space can be written together. */
  datatype Partition = Partition(space: string, partition: string)

  function PartitionOf(k: Key): Partition { Partition(k.space, k.partition) }

  datatype Expiry = After(ms: nat) | At(at: nat) | Never | Keep | Extend(ms: nat)

  /** An entry; without an expiry time it never ends. */
  datatype Held = Held(value: Json, version: Version, expiresAt: Option<int>)

  datatype Condition =
    | IsAbsent(key: Key)
    | IsAt(key: Key, version: Version)

  datatype BatchWrite =
    | Put(key: Key, value: Json, expiry: Expiry)
    | Remove(key: Key)

  datatype Expected = ExpectedVersion(version: Version) | ExpectedValue(value: Json)

  datatype Op =
    | PutIfAbsent(key: Key, value: Json, expiry: Expiry)
    | ReplaceIf(key: Key, version: Version, value: Json, expiry: Expiry)
    | RemoveIf(key: Key, expected: Expected)
    | Take(key: Key)
    | Batch(conditions: seq<Condition>, writes: seq<BatchWrite>)
    | BatchAcross(conditions: seq<Condition>, writes: seq<BatchWrite>)
    | Count(key: Key, ms: nat, limit: nat)

  /** A request, with the deadline and the idempotency mark it may carry. */
  datatype Request = Request(op: Op, deadline: Option<int>, mark: Option<string>)

  datatype Answer =
    | Written(version: Version)
    | Exists(remainingMs: Option<int>)
    | Missing
    | Conflict
    | Unmet(index: nat)
    | Removed(was: Held)
    | Taken(entry: Held)
    | Committed(versions: seq<Option<Version>>)
    | Counted(count: nat, resetAt: int)
    | Limited(resetAt: int)
    | Late
    | Reused
    | Spans

  /** The answers that say something was written. */
  predicate Wrote(a: Answer) {
    a.Written? || a.Removed? || a.Taken? || a.Committed? || a.Counted?
  }

  function KeysOf(op: Op): seq<Key> {
    match op
    case Batch(cs, ws) => ConditionKeys(cs) + WriteKeys(ws)
    case BatchAcross(cs, ws) => ConditionKeys(cs) + WriteKeys(ws)
    case _ => [op.key]
  }

  function ConditionKeys(cs: seq<Condition>): (r: seq<Key>)
    ensures |r| == |cs|
  {
    seq(|cs|, i requires 0 <= i < |cs| => cs[i].key)
  }

  function WriteKeys(ws: seq<BatchWrite>): (r: seq<Key>)
    ensures |r| == |ws|
  {
    seq(|ws|, i requires 0 <= i < |ws| => ws[i].key)
  }

  // ---- What an idempotency mark is bound to ----

  const DIGITS := "0123456789"

  function Decimal(n: nat): (r: string)
    ensures NumText(r)
  {
    if n < 10 then [DIGITS[n]] else Decimal(n / 10) + [DIGITS[n % 10]]
  }

  lemma {:induction false} DecimalInjective(n: nat, m: nat)
    requires Decimal(n) == Decimal(m)
    ensures n == m
  {
    var a, b := Decimal(n), Decimal(m);
    assert a[|a| - 1] == DIGITS[n % 10] && b[|b| - 1] == DIGITS[m % 10];
    assert n % 10 == m % 10;
    if n >= 10 && m >= 10 {
      assert a[..|a| - 1] == Decimal(n / 10) && b[..|b| - 1] == Decimal(m / 10);
      DecimalInjective(n / 10, m / 10);
    }
  }

  function Number(n: nat): Json { Num(Decimal(n)) }

  function KeyJson(k: Key): Json { Arr([Str(k.space), Str(k.partition), Str(k.name)]) }

  function KeysJson(ks: seq<Key>): Json { Arr(seq(|ks|, i requires 0 <= i < |ks| => KeyJson(ks[i]))) }

  function ExpiryJson(e: Expiry): Json {
    match e
    case After(ms) => Obj([Member("kind", Str("after")), Member("ms", Number(ms))])
    case At(at) => Obj([Member("kind", Str("at")), Member("at", Number(at))])
    case Never => Obj([Member("kind", Str("never"))])
    case Keep => Obj([Member("kind", Str("keep"))])
    case Extend(ms) => Obj([Member("kind", Str("extend")), Member("ms", Number(ms))])
  }

  function VersionJson(v: Version): Json { Str(Decimal(v)) }

  function ExpectedJson(e: Expected): Json {
    match e
    case ExpectedVersion(v) => Obj([Member("version", VersionJson(v))])
    case ExpectedValue(v) => Obj([Member("value", v)])
  }

  function ConditionJson(c: Condition): Json {
    match c
    case IsAbsent(_) => Obj([Member("absent", Bool(true))])
    case IsAt(_, v) => Obj([Member("version", VersionJson(v))])
  }

  function WriteJson(w: BatchWrite): Json {
    match w
    case Put(_, v, e) => Arr([v, ExpiryJson(e)])
    case Remove(_) => Null
  }

  function BatchArgs(cs: seq<Condition>, ws: seq<BatchWrite>): seq<Json> {
    [Arr(seq(|cs|, i requires 0 <= i < |cs| => ConditionJson(cs[i]))),
     Arr(seq(|ws|, i requires 0 <= i < |ws| => WriteJson(ws[i])))]
  }

  function OperationName(op: Op): string {
    match op
    case PutIfAbsent(_, _, _) => "putIfAbsent"
    case ReplaceIf(_, _, _, _) => "replaceIf"
    case RemoveIf(_, _) => "removeIf"
    case Take(_) => "take"
    case Batch(_, _) => "batch"
    case BatchAcross(_, _) => "batchAcross"
    case Count(_, _, _) => "count"
  }

  function ArgsOf(op: Op): seq<Json> {
    match op
    case PutIfAbsent(_, v, e) => [v, ExpiryJson(e)]
    case ReplaceIf(_, version, v, e) => [VersionJson(version), v, ExpiryJson(e)]
    case RemoveIf(_, expected) => [ExpectedJson(expected)]
    case Take(_) => []
    case Batch(cs, ws) => BatchArgs(cs, ws)
    case BatchAcross(cs, ws) => BatchArgs(cs, ws)
    case Count(_, ms, limit) => [Number(ms), Number(limit)]
  }

  function RequestJson(op: Op): Json {
    Arr([Str(OperationName(op)), KeysJson(KeysOf(op)), Arr(ArgsOf(op))])
  }

  /** The text a mark is bound to, the same for every implementation. */
  function IdempotencyText(op: Op): string { Canonical(RequestJson(op)) }

  // ---- The same request, told without any text ----

  predicate PlainWrites(ws: seq<BatchWrite>) {
    forall i :: 0 <= i < |ws| && ws[i].Put? ==> Plain(ws[i].value)
  }

  /** Every value a request carries is plain JSON, as the contract's front checks. */
  predicate PlainOp(op: Op) {
    match op
    case PutIfAbsent(_, v, _) => Plain(v)
    case ReplaceIf(_, _, v, _) => Plain(v)
    case RemoveIf(_, e) => e.ExpectedValue? ==> Plain(e.value)
    case Batch(_, ws) => PlainWrites(ws)
    case BatchAcross(_, ws) => PlainWrites(ws)
    case _ => true
  }

  ghost predicate SameWrite(a: BatchWrite, b: BatchWrite) {
    match (a, b)
    case (Put(k, v, e), Put(l, w, f)) => k == l && e == f && Same(v, w)
    case (Remove(k), Remove(l)) => k == l
    case _ => false
  }

  ghost predicate SameWrites(xs: seq<BatchWrite>, ys: seq<BatchWrite>) {
    |xs| == |ys| && forall i :: 0 <= i < |xs| ==> SameWrite(xs[i], ys[i])
  }

  /** One operation on one list of keys, with equal arguments, a value's member order aside. */
  ghost predicate SameRequest(a: Op, b: Op) {
    match (a, b)
    case (PutIfAbsent(k, v, e), PutIfAbsent(l, w, f)) => k == l && e == f && Same(v, w)
    case (ReplaceIf(k, n, v, e), ReplaceIf(l, m, w, f)) => k == l && n == m && e == f && Same(v, w)
    case (RemoveIf(k, ExpectedValue(v)), RemoveIf(l, ExpectedValue(w))) => k == l && Same(v, w)
    case (Batch(cs, xs), Batch(ds, ys)) => cs == ds && SameWrites(xs, ys)
    case (BatchAcross(cs, xs), BatchAcross(ds, ys)) => cs == ds && SameWrites(xs, ys)
    case (_, _) => a == b
  }

  lemma ExpiryPlain(e: Expiry)
    ensures Plain(ExpiryJson(e))
  {
  }

  lemma RequestPlain(op: Op)
    requires PlainOp(op)
    ensures Plain(RequestJson(op))
  {
    forall a | a in ArgsOf(op) ensures Plain(a) { ArgPlain(op, a); }
    assert Plain(Arr(ArgsOf(op)));
    forall k | k in KeysJson(KeysOf(op)).items ensures Plain(k) {
      var i :| 0 <= i < |KeysOf(op)| && k == KeyJson(KeysOf(op)[i]);
    }
    assert Plain(KeysJson(KeysOf(op)));
  }

  lemma ArgPlain(op: Op, a: Json)
    requires PlainOp(op) && a in ArgsOf(op)
    ensures Plain(a)
  {
    forall e: Expiry ensures Plain(ExpiryJson(e)) { ExpiryPlain(e); }
    if op.Batch? || op.BatchAcross? {
      forall i | 0 <= i < |op.writes| ensures Plain(WriteJson(op.writes[i])) {
        if op.writes[i].Put? { assert Plain(ExpiryJson(op.writes[i].expiry)); }
      }
      forall i | 0 <= i < |op.conditions| ensures Plain(ConditionJson(op.conditions[i])) {}
    }
  }

  lemma NumbersTell(n: nat, m: nat)
    ensures Same(Number(n), Number(m)) <==> n == m
    ensures VersionJson(n) == VersionJson(m) <==> n == m
  {
    if Decimal(n) == Decimal(m) { DecimalInjective(n, m); }
  }

  lemma KeyTells(k: Key, l: Key)
    ensures Same(KeyJson(k), KeyJson(l)) <==> k == l
  {
    var xs, ys := KeyJson(k).items, KeyJson(l).items;
    if Same(KeyJson(k), KeyJson(l)) {
      assert Same(xs[0], ys[0]) && Same(xs[1], ys[1]) && Same(xs[2], ys[2]);
    }
  }

  lemma KeysTell(ks: seq<Key>, ls: seq<Key>)
    ensures Same(KeysJson(ks), KeysJson(ls)) <==> ks == ls
  {
    if |ks| == |ls| {
      forall i | 0 <= i < |ks| ensures Same(KeyJson(ks[i]), KeyJson(ls[i])) <==> ks[i] == ls[i] {
        KeyTells(ks[i], ls[i]);
      }
      var xs, ys := KeysJson(ks).items, KeysJson(ls).items;
      if Same(KeysJson(ks), KeysJson(ls)) {
        forall i | 0 <= i < |ks| ensures ks[i] == ls[i] { assert Same(xs[i], ys[i]); }
      }
    }
  }

  /** An object of one member is told by its name and its value. */
  lemma SingleTells(m: Member, n: Member)
    ensures Same(Obj([m]), Obj([n])) <==> m.name == n.name && Same(m.value, n.value)
  {
    var a, b := [m], [n];
    if Same(Obj(a), Obj(b)) {
      var j :| 0 <= j < |b| && a[0].name == b[j].name && Same(a[0].value, b[j].value);
    }
    if m.name == n.name && Same(m.value, n.value) {
      assert a[0].name == b[0].name && Same(a[0].value, b[0].value);
    }
  }

  /** So is one of two members, the first under the same name in both. */
  lemma PairTells(k: Member, m: Member, l: Member, n: Member)
    requires k.name == l.name && m.name != k.name && n.name != l.name
    ensures Same(Obj([k, m]), Obj([l, n])) <==>
      Same(k.value, l.value) && m.name == n.name && Same(m.value, n.value)
  {
    var a, b := [k, m], [l, n];
    if Same(Obj(a), Obj(b)) {
      var i :| 0 <= i < |b| && a[0].name == b[i].name && Same(a[0].value, b[i].value);
      var j :| 0 <= j < |b| && a[1].name == b[j].name && Same(a[1].value, b[j].value);
      assert i == 0 && j == 1;
    }
    if Same(k.value, l.value) && m.name == n.name && Same(m.value, n.value) {
      assert a[0].name == b[0].name && Same(a[0].value, b[0].value);
      assert a[1].name == b[1].name && Same(a[1].value, b[1].value);
    }
  }

  lemma SizesTell(ms: seq<Member>, ns: seq<Member>)
    requires |ms| != |ns|
    ensures !Same(Obj(ms), Obj(ns))
  {
  }

  predicate Dated(e: Expiry) { e.After? || e.At? || e.Extend? }

  function KindMember(e: Expiry): Member {
    Member("kind", Str(match e case After(_) => "after" case At(_) => "at" case Never => "never"
      case Keep => "keep" case Extend(_) => "extend"))
  }

  function TimeMember(e: Expiry): Member
    requires Dated(e)
  {
    match e
    case At(at) => Member("at", Number(at))
    case After(ms) => Member("ms", Number(ms))
    case Extend(ms) => Member("ms", Number(ms))
  }

  lemma ExpiryMembers(e: Expiry)
    ensures ExpiryJson(e) == Obj(if Dated(e) then [KindMember(e), TimeMember(e)] else [KindMember(e)])
  {
  }

  lemma ExpiryTells(e: Expiry, f: Expiry)
    ensures Same(ExpiryJson(e), ExpiryJson(f)) <==> e == f
  {
    ExpiryMembers(e);
    ExpiryMembers(f);
    if Dated(e) != Dated(f) {
      SizesTell(ExpiryJson(e).members, ExpiryJson(f).members);
    } else if !Dated(e) {
      SingleTells(KindMember(e), KindMember(f));
    } else {
      PairTells(KindMember(e), TimeMember(e), KindMember(f), TimeMember(f));
      NumbersTell(if e.At? then e.at else e.ms, if f.At? then f.at else f.ms);
    }
  }

  lemma ExpectedTells(e: Expected, f: Expected)
    ensures Same(ExpectedJson(e), ExpectedJson(f)) <==>
      (e == f && e.ExpectedVersion?) || (e.ExpectedValue? && f.ExpectedValue? && Same(e.value, f.value))
  {
    SingleTells(ExpectedJson(e).members[0], ExpectedJson(f).members[0]);
    if e.ExpectedVersion? && f.ExpectedVersion? { NumbersTell(e.version, f.version); }
  }

  lemma ConditionTells(c: Condition, d: Condition)
    requires c.key == d.key
    ensures Same(ConditionJson(c), ConditionJson(d)) <==> c == d
  {
    SingleTells(ConditionJson(c).members[0], ConditionJson(d).members[0]);
    if c.IsAt? && d.IsAt? { NumbersTell(c.version, d.version); }
  }

  lemma WriteTells(w: BatchWrite, x: BatchWrite)
    requires w.key == x.key
    ensures Same(WriteJson(w), WriteJson(x)) <==> SameWrite(w, x)
  {
    if w.Put? && x.Put? {
      ExpiryTells(w.expiry, x.expiry);
      var a, b := WriteJson(w).items, WriteJson(x).items;
      if Same(WriteJson(w), WriteJson(x)) { assert Same(a[0], b[0]) && Same(a[1], b[1]); }
    }
  }

  lemma ConditionsTell(cs: seq<Condition>, ds: seq<Condition>)
    requires |cs| == |ds| ==> forall i :: 0 <= i < |cs| ==> cs[i].key == ds[i].key
    ensures Same(BatchArgs(cs, [])[0], BatchArgs(ds, [])[0]) <==> cs == ds
  {
    if |cs| == |ds| {
      forall i | 0 <= i < |cs| ensures Same(ConditionJson(cs[i]), ConditionJson(ds[i])) <==> cs[i] == ds[i] {
        ConditionTells(cs[i], ds[i]);
      }
      var xs, ys := BatchArgs(cs, [])[0].items, BatchArgs(ds, [])[0].items;
      if Same(Arr(xs), Arr(ys)) {
        forall i | 0 <= i < |cs| ensures cs[i] == ds[i] { assert Same(xs[i], ys[i]); }
      }
    }
  }

  lemma WritesTell(ws: seq<BatchWrite>, xs: seq<BatchWrite>)
    requires |ws| == |xs| ==> forall i :: 0 <= i < |ws| ==> ws[i].key == xs[i].key
    ensures Same(BatchArgs([], ws)[1], BatchArgs([], xs)[1]) <==> SameWrites(ws, xs)
  {
    if |ws| == |xs| {
      forall i | 0 <= i < |ws| ensures Same(WriteJson(ws[i]), WriteJson(xs[i])) <==> SameWrite(ws[i], xs[i]) {
        WriteTells(ws[i], xs[i]);
      }
      var a, b := BatchArgs([], ws)[1].items, BatchArgs([], xs)[1].items;
      if Same(Arr(a), Arr(b)) {
        forall i | 0 <= i < |ws| ensures SameWrite(ws[i], xs[i]) { assert Same(a[i], b[i]); }
      }
    }
  }

  /** One list of keys, cut where the conditions end, is the keys of each. */
  lemma BatchKeysSplit(cs: seq<Condition>, ws: seq<BatchWrite>, ds: seq<Condition>, xs: seq<BatchWrite>)
    requires ConditionKeys(cs) + WriteKeys(ws) == ConditionKeys(ds) + WriteKeys(xs)
    requires |cs| == |ds|
    ensures forall i :: 0 <= i < |cs| ==> cs[i].key == ds[i].key
    ensures |ws| == |xs| && forall i :: 0 <= i < |ws| ==> ws[i].key == xs[i].key
  {
    var a, b := ConditionKeys(cs) + WriteKeys(ws), ConditionKeys(ds) + WriteKeys(xs);
    forall i | 0 <= i < |cs| ensures cs[i].key == ds[i].key { assert a[i] == b[i]; }
    assert |a| == |b|;
    forall i | 0 <= i < |ws| ensures ws[i].key == xs[i].key { assert a[|cs| + i] == b[|cs| + i]; }
  }

  lemma BatchTells(cs: seq<Condition>, ws: seq<BatchWrite>, ds: seq<Condition>, xs: seq<BatchWrite>)
    ensures (ConditionKeys(cs) + WriteKeys(ws) == ConditionKeys(ds) + WriteKeys(xs)
        && Same(Arr(BatchArgs(cs, ws)), Arr(BatchArgs(ds, xs))))
      <==> (cs == ds && SameWrites(ws, xs))
  {
    var a, b := BatchArgs(cs, ws), BatchArgs(ds, xs);
    assert a[0] == BatchArgs(cs, [])[0] && b[0] == BatchArgs(ds, [])[0];
    assert a[1] == BatchArgs([], ws)[1] && b[1] == BatchArgs([], xs)[1];
    if ConditionKeys(cs) + WriteKeys(ws) == ConditionKeys(ds) + WriteKeys(xs) && Same(Arr(a), Arr(b)) {
      assert Same(a[0], b[0]) && Same(a[1], b[1]);
      BatchKeysSplit(cs, ws, ds, xs);
      ConditionsTell(cs, ds);
      WritesTell(ws, xs);
    }
    if cs == ds && SameWrites(ws, xs) {
      assert forall i :: 0 <= i < |ws| ==> SameWrite(ws[i], xs[i]) && ws[i].key == xs[i].key;
      assert WriteKeys(ws) == WriteKeys(xs);
      ConditionsTell(cs, ds);
      WritesTell(ws, xs);
    }
  }

  /** Two lists of arguments are the same, told place by place. */
  lemma ArgsTell(xs: seq<Json>, ys: seq<Json>)
    requires |xs| == |ys| <= 3
    ensures Same(Arr(xs), Arr(ys)) <==>
      && (|xs| > 0 ==> Same(xs[0], ys[0]))
      && (|xs| > 1 ==> Same(xs[1], ys[1]))
      && (|xs| > 2 ==> Same(xs[2], ys[2]))
  {
  }

  lemma SingleKey(a: Op, b: Op)
    requires KeysOf(a) == KeysOf(b)
    requires !a.Batch? && !a.BatchAcross? && !b.Batch? && !b.BatchAcross?
    ensures a.key == b.key
  {
    assert KeysOf(a)[0] == KeysOf(b)[0];
  }

  lemma OperationTells(a: Op, b: Op)
    ensures (OperationName(a) == OperationName(b) && KeysOf(a) == KeysOf(b) && Same(Arr(ArgsOf(a)), Arr(ArgsOf(b))))
      <==> SameRequest(a, b)
  {
    if OperationName(a) == OperationName(b) && |ArgsOf(a)| == |ArgsOf(b)| {
      ArgsTell(ArgsOf(a), ArgsOf(b));
      if KeysOf(a) == KeysOf(b) && !a.Batch? && !a.BatchAcross? { SingleKey(a, b); }
      match (a, b) {
        case (PutIfAbsent(_, _, e), PutIfAbsent(_, _, f)) => ExpiryTells(e, f);
        case (ReplaceIf(_, n, _, e), ReplaceIf(_, m, _, f)) =>
          ExpiryTells(e, f);
          NumbersTell(n, m);
        case (RemoveIf(_, e), RemoveIf(_, f)) => ExpectedTells(e, f);
        case (Batch(cs, xs), Batch(ds, ys)) => BatchTells(cs, xs, ds, ys);
        case (BatchAcross(cs, xs), BatchAcross(ds, ys)) => BatchTells(cs, xs, ds, ys);
        case (Count(_, n, x), Count(_, m, y)) =>
          NumbersTell(n, m);
          NumbersTell(x, y);
        case (_, _) =>
      }
    }
  }

  /** Two requests read the same under a mark exactly when they are the same request. */
  lemma IdempotencyTextMeansSame(a: Op, b: Op)
    requires PlainOp(a) && PlainOp(b)
    ensures IdempotencyText(a) == IdempotencyText(b) <==> SameRequest(a, b)
  {
    RequestPlain(a);
    RequestPlain(b);
    CanonicalMeansSame(RequestJson(a), RequestJson(b));
    ArgsTell(RequestJson(a).items, RequestJson(b).items);
    KeysTell(KeysOf(a), KeysOf(b));
    OperationTells(a, b);
  }
}
