/** Records changed one transaction at a time, with no versions, marks or resends: what the concurrent
    protocol over the store is proved to come to. */
module Serial {
  import opened Wrappers
  import opened Json
  import opened Contract
  import opened Store

  const RECORD := "record"
  const SETTLED := "settled"

  /** What a key holds, its version aside. */
  datatype Cell = Cell(value: Json, expiresAt: Option<int>)

  type View = map<Key, Cell>

  /** Everything the store holds but the marks a client writes to confirm what it read. */
  function ViewOf(values: map<Key, Held>): View {
    map k | k in values && k.name != SETTLED :: Cell(values[k].value, values[k].expiresAt)
  }

  function LiveCell(view: View, k: Key, t: int): Option<Cell> {
    if k in view && (view[k].expiresAt.None? || view[k].expiresAt.value > t) then Some(view[k]) else None
  }

  function LiveValue(view: View, k: Key, t: int): Option<Json> {
    var cell := LiveCell(view, k, t);
    if cell.Some? then Some(cell.value.value) else None
  }

  function LiveExpiry(view: View, k: Key, t: int): Option<Option<int>> {
    var cell := LiveCell(view, k, t);
    if cell.Some? then Some(cell.value.expiresAt) else None
  }

  function SetCell(view: View, k: Key, v: Json, e: Expiry, t: int): View {
    view[k := Cell(Normal(v), ResolveExpiry(e, LiveExpiry(view, k, t), t))]
  }

  // ---- One key rewritten ----

  datatype Decided = Decided(value: Json, expiry: Expiry)

  /** A try at a write: the deadline it is made with, and what the caller's own clock reads as it decides. */
  datatype Try = Try(deadline: int, clock: int)

  /** Decides on what the key holds, knowing the try; none writes nothing. */
  type Decide = (Option<Json>, Try) -> Option<Decided>

  datatype Rewritten = Rewritten(view: View, before: Option<Json>, after: Option<Json>)

  function RewriteStep(view: View, t: int, k: Key, decide: Decide, m: Try): Rewritten {
    var before := LiveValue(view, k, t);
    match decide(before, m)
    case None => Rewritten(view, before, before)
    case Some(d) => Rewritten(SetCell(view, k, d.value, d.expiry, t), before, Some(d.value))
  }

  /** The record goes, if the key holds one. */
  function RemoveStep(view: View, t: int, k: Key): View {
    if LiveValue(view, k, t).Some? then view - {k} else view
  }

  // ---- Many records changed as one ----

  datatype Target = Target(space: string, key: string)

  function RecordKey(x: Target): Key { Key(x.space, x.key, RECORD) }

  datatype Lifetime = Same | Endless | For(ms: int)

  function ExpiryFor(l: Lifetime): Expiry {
    match l
    case Same => Expiry.Keep
    case Endless => Never
    case For(ms) => After(if ms < 1 then 1 else ms)
  }

  datatype Next = SetTo(value: Json, lifetime: Lifetime) | Gone

  datatype Decisions = Decisions(targets: seq<Option<Next>>, watched: seq<Option<Next>>)

  /** A change of records: the targets, what else to watch from what they hold, and what to do about it all. */
  datatype Txn = Txn(
    targets: seq<Target>,
    watch: seq<Option<Json>> -> seq<Target>,
    decide: (seq<Option<Json>>, seq<Option<Json>>) -> Decisions)

  datatype Changed = Changed(before: Option<Json>, after: Option<Json>)

  datatype TxnDone = TxnDone(view: View, targets: seq<Changed>, watched: seq<Changed>)

  function ReadAll(view: View, t: int, named: seq<Target>): (r: seq<Option<Json>>)
    ensures |r| == |named|
  {
    seq(|named|, i requires 0 <= i < |named| => LiveValue(view, RecordKey(named[i]), t))
  }

  function NextAt(nexts: seq<Option<Next>>, i: nat): Option<Next> {
    if i < |nexts| then nexts[i] else None
  }

  /** What is decided for each record, over the first `n` namings; none when one is written twice. */
  function Gather(
    nexts: map<Target, Next>, named: seq<Target>, decided: seq<Option<Next>>, n: nat): Option<map<Target, Next>>
    requires n <= |named|
  {
    if n == 0 then Some(nexts)
    else
      var got := Gather(nexts, named, decided, n - 1);
      match (got, NextAt(decided, n - 1))
      case (None, _) => None
      case (Some(m), None) => got
      case (Some(m), Some(x)) => if named[n - 1] in m then None else Some(m[named[n - 1] := x])
  }

  function GatherAll(txn: Txn, named: seq<Target>, d: Decisions): Option<map<Target, Next>> {
    var first := Gather(map[], txn.targets, d.targets, |txn.targets|);
    if first.None? then None else Gather(first.value, named, d.watched, |named|)
  }

  function NextOf(nexts: map<Target, Next>, k: Key): Option<Next> {
    var x := Target(k.space, k.partition);
    if k.name == RECORD && x in nexts then Some(nexts[x]) else None
  }

  function SetKeys(nexts: map<Target, Next>): set<Key> { set x | x in nexts :: RecordKey(x) }

  /** The named records as decided, every other key as it was. */
  function Applied(view: View, nexts: map<Target, Next>, t: int): View {
    map k | k in view.Keys + SetKeys(nexts) && NextOf(nexts, k) != Some(Gone) ::
      match NextOf(nexts, k)
      case None => view[k]
      case Some(SetTo(v, l)) => Cell(Normal(v), ResolveExpiry(ExpiryFor(l), LiveExpiry(view, k, t), t))
  }

  function ChangedBy(before: Option<Json>, next: Option<Next>): Changed {
    match next
    case None => Changed(before, before)
    case Some(Gone) => Changed(before, None)
    case Some(SetTo(v, _)) => Changed(before, Some(v))
  }

  function Changes(named: seq<Target>, read: seq<Option<Json>>, nexts: map<Target, Next>): (r: seq<Changed>)
    requires |named| == |read|
    ensures |r| == |named|
  {
    seq(|named|, i requires 0 <= i < |named| =>
      ChangedBy(read[i], if named[i] in nexts then Some(nexts[named[i]]) else None))
  }

  /** The whole change at one instant: read everything, decide, write everything; none when it writes one record
      twice. */
  function TxnStep(view: View, t: int, txn: Txn): Option<TxnDone> {
    var read := ReadAll(view, t, txn.targets);
    var named := txn.watch(read);
    var found := ReadAll(view, t, named);
    var nexts := GatherAll(txn, named, txn.decide(read, found));
    if nexts.None? then None
    else Some(TxnDone(
      Applied(view, nexts.value, t), Changes(txn.targets, read, nexts.value), Changes(named, found, nexts.value)))
  }

  // ---- The store seen as cells ----

  lemma ViewLooks(values: map<Key, Held>, k: Key, t: int)
    requires k.name != SETTLED
    ensures LiveCell(ViewOf(values), k, t) ==
      if Look(values, k, t).Some? then Some(Cell(values[k].value, values[k].expiresAt)) else None
  {
  }

  lemma ViewPlaced(values: map<Key, Held>, k: Key, v: Json, e: Expiry, t: int, version: Version)
    ensures ViewOf(Placed(values, k, v, e, t, version)) ==
      if k.name == SETTLED then ViewOf(values) else SetCell(ViewOf(values), k, v, e, t)
  {
    if k.name != SETTLED { ViewLooks(values, k, t); }
  }

  lemma ViewRemoved(values: map<Key, Held>, k: Key)
    ensures ViewOf(values - {k}) == ViewOf(values) - {k}
  {
  }

  /** A write that refuses, or is never carried out, changes nothing. */
  lemma RefusedChangesNothing(s: State, r: Request, now: int, n: Naming)
    requires Executes(s, r, now) ==> !Wrote(Execute(s, r.op, now, n).answer)
    ensures Handle(s, r, now, n).state.values == s.values
  {
    HandleParts(s, r, now, n);
  }

  // ---- A batch of the decided writes ----

  /** One record as read: it is held by its version, or by its absence. */
  datatype HeldRead = HeldRead(target: Target, entry: Option<Held>)

  predicate DistinctReads(held: seq<HeldRead>) {
    forall i, j :: 0 <= i < j < |held| ==> held[i].target != held[j].target
  }

  function ConditionFor(h: HeldRead): Condition {
    if h.entry.None? then IsAbsent(RecordKey(h.target)) else IsAt(RecordKey(h.target), h.entry.value.version)
  }

  function WriteFor(x: Target, next: Next): BatchWrite {
    match next
    case Gone => Remove(RecordKey(x))
    case SetTo(v, l) => Put(RecordKey(x), v, ExpiryFor(l))
  }

  function WritesFor(held: seq<HeldRead>, nexts: seq<Option<Next>>): seq<BatchWrite>
    requires |held| == |nexts|
  {
    if held == [] then []
    else
      var n := |held| - 1;
      var init := WritesFor(held[..n], nexts[..n]);
      if nexts[n].None? then init else init + [WriteFor(held[n].target, nexts[n].value)]
  }

  function NextsOf(held: seq<HeldRead>, nexts: seq<Option<Next>>): (r: map<Target, Next>)
    requires |held| == |nexts| && DistinctReads(held)
    ensures forall x :: x in r ==> exists i :: 0 <= i < |held| && held[i].target == x && nexts[i] == Some(r[x])
    ensures forall i :: 0 <= i < |held| && nexts[i].Some? ==> held[i].target in r && r[held[i].target] == nexts[i].value
  {
    if held == [] then map[]
    else
      var n := |held| - 1;
      var init := NextsOf(held[..n], nexts[..n]);
      if nexts[n].None? then init else init[held[n].target := nexts[n].value]
  }

  function CellAt(view: View, k: Key): Option<Cell> { if k in view then Some(view[k]) else None }

  lemma SameCells(a: View, b: View)
    requires forall k :: CellAt(a, k) == CellAt(b, k)
    ensures a == b
  {
    forall k ensures k in a <==> k in b { assert CellAt(a, k) == CellAt(b, k); }
    forall k | k in a ensures a[k] == b[k] { assert CellAt(a, k) == CellAt(b, k); }
  }

  /** What a change leaves under one key. */
  lemma AppliedAt(view: View, nexts: map<Target, Next>, t: int, k: Key)
    ensures CellAt(Applied(view, nexts, t), k) ==
      match NextOf(nexts, k)
      case None => CellAt(view, k)
      case Some(Gone) => None
      case Some(SetTo(v, l)) => Some(Cell(Normal(v), ResolveExpiry(ExpiryFor(l), LiveExpiry(view, k, t), t)))
  {
    if NextOf(nexts, k).Some? {
      assert k == RecordKey(Target(k.space, k.partition));
      assert k in SetKeys(nexts);
    }
  }

  lemma AppliedOne(view: View, nexts: map<Target, Next>, x: Target, next: Next, t: int)
    requires x !in nexts
    ensures Applied(view, nexts[x := next], t) == match next
        case Gone => Applied(view, nexts, t) - {RecordKey(x)}
        case SetTo(v, l) => SetCell(Applied(view, nexts, t), RecordKey(x), v, ExpiryFor(l), t)
  {
    var was, more := Applied(view, nexts, t), Applied(view, nexts[x := next], t);
    var key := RecordKey(x);
    var one := match next case Gone => was - {key} case SetTo(v, l) => SetCell(was, key, v, ExpiryFor(l), t);
    forall k ensures CellAt(more, k) == CellAt(one, k) {
      AppliedAt(view, nexts, t, k);
      AppliedAt(view, nexts[x := next], t, k);
      if k == key {
        assert NextOf(nexts, key) == None && NextOf(nexts[x := next], key) == Some(next);
        assert LiveExpiry(was, key, t) == LiveExpiry(view, key, t);
      } else {
        assert NextOf(nexts[x := next], k) == NextOf(nexts, k);
      }
    }
    SameCells(more, one);
  }

  lemma AppliedNone(view: View, t: int)
    ensures Applied(view, map[], t) == view
  {
    assert SetKeys(map[]) == {};
  }

  /** Written one after another in a batch, the decided records come out as decided all at once. */
  lemma {:induction false} WritesApply(
    values: map<Key, Held>, held: seq<HeldRead>, nexts: seq<Option<Next>>, t: int, n: Naming)
    requires |held| == |nexts| && DistinctReads(held)
    ensures ViewOf(WriteAll(values, WritesFor(held, nexts), t, n).values) ==
      Applied(ViewOf(values), NextsOf(held, nexts), t)
  {
    if held == [] {
      AppliedNone(ViewOf(values), t);
    } else {
      var last := |held| - 1;
      WritesApply(values, held[..last], nexts[..last], t, n);
      if nexts[last].Some? {
        var so := NextsOf(held[..last], nexts[..last]);
        var x := held[last].target;
        OneMoreWrite(values, WritesFor(held[..last], nexts[..last]), so, x, nexts[last].value, t, n);
      }
    }
  }

  lemma OneMoreWrite(
    values: map<Key, Held>, init: seq<BatchWrite>, so: map<Target, Next>, x: Target, next: Next, t: int, n: Naming)
    requires x !in so && ViewOf(WriteAll(values, init, t, n).values) == Applied(ViewOf(values), so, t)
    ensures ViewOf(WriteAll(values, init + [WriteFor(x, next)], t, n).values) ==
      Applied(ViewOf(values), so[x := next], t)
  {
    var ws := init + [WriteFor(x, next)];
    assert ws[..|ws| - 1] == init;
    AppliedOne(ViewOf(values), so, x, next, t);
    var done := WriteAll(values, init, t, n);
    match next
    case Gone => ViewRemoved(done.values, RecordKey(x));
    case SetTo(v, l) => ViewPlaced(done.values, RecordKey(x), v, ExpiryFor(l), t, Named(done.naming));
  }
}
