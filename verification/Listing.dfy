/** Scanning a space: pages of live keys in the order of their names in the store, and the walk over them. */
module Listing {
  import opened Wrappers
  import opened Json
  import opened Contract
  import opened Store
  import Text

  const SCAN_PAGE := 100

  /** The name a key goes by inside the store. */
  function IdText(k: Key): string { Write(KeyJson(k)) }

  predicate KeyBefore(a: Key, b: Key) { Text.UnitsBefore(IdText(a), IdText(b)) }

  lemma IdTextInjective(a: Key, b: Key)
    requires IdText(a) == IdText(b)
    ensures a == b
  {
    ValueReads(KeyJson(a), "");
    ValueReads(KeyJson(b), "");
    assert IdText(a) + "" == IdText(a) && IdText(b) + "" == IdText(b);
    assert KeyJson(a).items == KeyJson(b).items;
    assert KeyJson(a).items[0] == KeyJson(b).items[0] && KeyJson(a).items[1] == KeyJson(b).items[1];
    assert KeyJson(a).items[2] == KeyJson(b).items[2];
  }

  lemma KeyBeforeTotal(a: Key, b: Key, c: Key)
    ensures !(KeyBefore(a, b) && KeyBefore(b, a))
    ensures KeyBefore(a, b) || KeyBefore(b, a) <==> a != b
    ensures KeyBefore(a, b) && KeyBefore(b, c) ==> KeyBefore(a, c)
  {
    Text.UnitsBeforeTotal(IdText(a), IdText(b), IdText(c));
    if IdText(a) == IdText(b) { IdTextInjective(a, b); }
  }

  ghost predicate Ascending(ks: seq<Key>) {
    forall i, j :: 0 <= i < j < |ks| ==> KeyBefore(ks[i], ks[j])
  }

  /** A cursor is the name of the last key answered. */
  predicate Past(cursor: Option<string>, k: Key) { cursor.None? || Text.UnitsBefore(cursor.value, IdText(k)) }

  /** The keys still to list: live, in the space, past the cursor. */
  function Due(values: map<Key, Held>, space: string, cursor: Option<string>, now: int): set<Key> {
    set k | k in values && Live(values[k], now) && k.space == space && Past(cursor, k)
  }

  datatype Page = Page(keys: seq<Key>, cursor: Option<string>)

  ghost predicate IsListing(ks: seq<Key>, s: set<Key>) {
    Ascending(ks) && forall k :: k in ks <==> k in s
  }

  function PageOf(ids: seq<Key>): Page {
    if |ids| > SCAN_PAGE then Page(ids[..SCAN_PAGE], Some(IdText(ids[SCAN_PAGE - 1])))
    else Page(ids, None)
  }

  /** A page: the first hundred due, in order, with a cursor while more are due. */
  ghost predicate IsPage(p: Page, due: set<Key>) {
    exists ids :: IsListing(ids, due) && p == PageOf(ids)
  }

  function Insert(k: Key, ks: seq<Key>): seq<Key> {
    if ks == [] || KeyBefore(k, ks[0]) then [k] + ks else [ks[0]] + Insert(k, ks[1..])
  }

  lemma {:induction false} InsertLists(k: Key, ks: seq<Key>)
    requires Ascending(ks) && k !in ks
    ensures Ascending(Insert(k, ks)) && forall x :: x in Insert(k, ks) <==> x == k || x in ks
  {
    if ks == [] {
    } else if KeyBefore(k, ks[0]) {
      forall j | 0 <= j < |ks| ensures KeyBefore(k, ks[j]) {
        KeyBeforeTotal(k, ks[0], ks[j]);
      }
    } else {
      KeyBeforeTotal(k, ks[0], k);
      InsertLists(k, ks[1..]);
      var rest := Insert(k, ks[1..]);
      forall j | 0 <= j < |rest| ensures KeyBefore(ks[0], rest[j]) {
        assert rest[j] in rest;
      }
      assert forall x :: x in ks <==> x == ks[0] || x in ks[1..];
    }
  }

  /** Filters, sorts and cuts, as the store in memory answers a scan. */
  method Scan(values: map<Key, Held>, space: string, cursor: Option<string>, now: int) returns (page: Page)
    ensures IsPage(page, Due(values, space, cursor, now))
  {
    var ids: seq<Key> := [];
    var left := values.Keys;
    ghost var taken: set<Key> := {};
    while left != {}
      invariant left <= values.Keys && taken == values.Keys - left
      invariant IsListing(ids, Due(values, space, cursor, now) * taken)
      decreases |left|
    {
      var k :| k in left;
      if Live(values[k], now) && k.space == space && Past(cursor, k) {
        InsertLists(k, ids);
        ids := Insert(k, ids);
      }
      left := left - {k};
      taken := taken + {k};
    }
    assert Due(values, space, cursor, now) * taken == Due(values, space, cursor, now);
    return PageOf(ids);
  }

  // ---- A walk: each page from the cursor of the one before, whatever happens between them ----

  /** What a page met: the values then, and the time. */
  datatype Moment = Moment(values: map<Key, Held>, now: int)

  function CursorAt(pages: seq<Page>, i: nat): Option<string>
    requires i <= |pages|
  {
    if i == 0 then None else pages[i - 1].cursor
  }

  /** Names a page of a walk, for a proof to look into that page only. */
  predicate Turn(i: nat) { true }

  /** The pages follow each other's cursors to the end. */
  ghost predicate IsWalk(pages: seq<Page>, moments: seq<Moment>, space: string) {
    && |pages| == |moments| > 0
    && (forall i: nat {:trigger Turn(i)} :: i < |pages| ==>
        IsPage(pages[i], Due(moments[i].values, space, CursorAt(pages, i), moments[i].now)))
    && (forall i :: 0 <= i < |pages| ==> (pages[i].cursor.None? <==> i == |pages| - 1))
  }

  ghost predicate LivesThrough(moments: seq<Moment>, k: Key) {
    forall i :: 0 <= i < |moments| ==> Look(moments[i].values, k, moments[i].now).Some?
  }

  /** A page's keys lie past its own cursor, up to the next page's, in order. */
  lemma PageSpans(p: Page, due: set<Key>)
    requires IsPage(p, due)
    ensures Ascending(p.keys) && forall k :: k in p.keys ==> k in due
    ensures p.cursor.Some? ==> p.keys != [] && p.cursor.value == IdText(p.keys[|p.keys| - 1])
    ensures p.cursor.Some? ==> forall k :: k in due && k !in p.keys ==> Past(p.cursor, k)
    ensures p.cursor.None? ==> forall k :: k in due ==> k in p.keys
  {
    var ids :| IsListing(ids, due) && p == PageOf(ids);
    if |ids| > SCAN_PAGE {
      forall k | k in due && k !in p.keys ensures Past(p.cursor, k) {
        var i :| 0 <= i < |ids| && ids[i] == k;
        var head := ids[..SCAN_PAGE];
        assert forall j :: 0 <= j < SCAN_PAGE ==> head[j] == ids[j];
        assert KeyBefore(ids[SCAN_PAGE - 1], ids[i]);
      }
    }
  }

  /** A key of a page is at or before the page's cursor. */
  lemma NotPastOwnCursor(p: Page, due: set<Key>, k: Key)
    requires IsPage(p, due) && k in p.keys && p.cursor.Some?
    ensures !Past(p.cursor, k)
  {
    PageSpans(p, due);
    var i :| 0 <= i < |p.keys| && p.keys[i] == k;
    var last := p.keys[|p.keys| - 1];
    KeyBeforeTotal(k, last, k);
    KeyBeforeTotal(last, k, last);
  }

  function DueAt(pages: seq<Page>, moments: seq<Moment>, space: string, i: nat): set<Key>
    requires i < |pages| == |moments|
  {
    Due(moments[i].values, space, CursorAt(pages, i), moments[i].now)
  }

  /** What one page of a walk tells of its own cursor and the next. */
  lemma WalkPage(pages: seq<Page>, moments: seq<Moment>, space: string, i: nat, k: Key)
    requires IsWalk(pages, moments, space) && i < |pages| && k in pages[i].keys
    ensures Past(CursorAt(pages, i), k)
    ensures i + 1 < |pages| ==> CursorAt(pages, i + 1).Some? && !Past(CursorAt(pages, i + 1), k)
  {
    assert Turn(i);
    PageSpans(pages[i], DueAt(pages, moments, space, i));
    if i + 1 < |pages| { NotPastOwnCursor(pages[i], DueAt(pages, moments, space, i), k); }
  }

  lemma NextCursor(pages: seq<Page>, moments: seq<Moment>, space: string, i: nat)
    requires IsWalk(pages, moments, space) && i + 1 < |pages|
    ensures CursorAt(pages, i + 1).Some?
    ensures CursorAt(pages, i).Some? ==> Text.UnitsBefore(CursorAt(pages, i).value, CursorAt(pages, i + 1).value)
  {
    assert Turn(i);
    PageSpans(pages[i], DueAt(pages, moments, space, i));
    var last := pages[i].keys[|pages[i].keys| - 1];
    WalkPage(pages, moments, space, i, last);
  }

  /** Cursors strictly grow along a walk. */
  lemma {:induction false} CursorsGrow(pages: seq<Page>, moments: seq<Moment>, space: string, i: nat, j: nat)
    requires IsWalk(pages, moments, space) && i < j < |pages|
    ensures CursorAt(pages, j).Some?
    ensures CursorAt(pages, i).Some? ==> Text.UnitsBefore(CursorAt(pages, i).value, CursorAt(pages, j).value)
    decreases j - i
  {
    NextCursor(pages, moments, space, i);
    if i + 1 < j {
      CursorsGrow(pages, moments, space, i + 1, j);
      if i > 0 {
        Text.UnitsBeforeTotal(CursorAt(pages, i).value, CursorAt(pages, i + 1).value, CursorAt(pages, j).value);
      }
    }
  }

  lemma NotPastLater(pages: seq<Page>, moments: seq<Moment>, space: string, i: nat, j: nat, k: Key)
    requires IsWalk(pages, moments, space) && i < j < |pages|
    requires CursorAt(pages, i).Some? && !Past(CursorAt(pages, i), k)
    ensures !Past(CursorAt(pages, j), k)
  {
    CursorsGrow(pages, moments, space, i, j);
    var a, b := CursorAt(pages, i).value, CursorAt(pages, j).value;
    Text.UnitsBeforeTotal(a, b, IdText(k));
  }

  /** Nothing a page answered is past any later page's cursor: no key comes twice. */
  lemma NeverAgain(pages: seq<Page>, moments: seq<Moment>, space: string, i: nat, j: nat, k: Key)
    requires IsWalk(pages, moments, space) && i < j < |pages| && k in pages[i].keys
    ensures k !in pages[j].keys
  {
    WalkPage(pages, moments, space, i, k);
    if i + 1 < j { NotPastLater(pages, moments, space, i + 1, j, k); }
    forall x | x in pages[j].keys ensures Past(CursorAt(pages, j), x) { WalkPage(pages, moments, space, j, x); }
  }

  lemma HereOrLater(pages: seq<Page>, moments: seq<Moment>, space: string, i: nat, k: Key)
    requires IsWalk(pages, moments, space) && LivesThrough(moments, k) && k.space == space
    requires i < |pages| && Past(CursorAt(pages, i), k)
    ensures k in pages[i].keys || (i + 1 < |pages| && Past(CursorAt(pages, i + 1), k))
  {
    var due := DueAt(pages, moments, space, i);
    assert Turn(i);
    PageSpans(pages[i], due);
    assert Look(moments[i].values, k, moments[i].now).Some?;
    assert k in due;
  }

  /** From a page whose cursor the key is still past, the walk answers it there or later. */
  lemma {:induction false} AnsweredFrom(
    pages: seq<Page>, moments: seq<Moment>, space: string, i: nat, k: Key) returns (at: nat)
    requires IsWalk(pages, moments, space) && LivesThrough(moments, k) && k.space == space
    requires i < |pages| && Past(CursorAt(pages, i), k)
    ensures i <= at < |pages| && k in pages[at].keys
    decreases |pages| - i
  {
    HereOrLater(pages, moments, space, i, k);
    if k in pages[i].keys {
      at := i;
    } else {
      at := AnsweredFrom(pages, moments, space, i + 1, k);
    }
  }

  /** Every key whose value lives through the whole walk is answered exactly once: on one page, at one place. */
  lemma WalkAnswersOnce(pages: seq<Page>, moments: seq<Moment>, space: string, k: Key)
    requires IsWalk(pages, moments, space) && LivesThrough(moments, k) && k.space == space
    ensures exists i, x :: 0 <= i < |pages| && 0 <= x < |pages[i].keys| && pages[i].keys[x] == k
    ensures forall i, x, j, y ::
      (0 <= i < |pages| && 0 <= x < |pages[i].keys| && pages[i].keys[x] == k
      && 0 <= j < |pages| && 0 <= y < |pages[j].keys| && pages[j].keys[y] == k) ==> i == j && x == y
  {
    var at := AnsweredFrom(pages, moments, space, 0, k);
    var z :| 0 <= z < |pages[at].keys| && pages[at].keys[z] == k;
    forall i, x, j, y |
      0 <= i < |pages| && 0 <= x < |pages[i].keys| && pages[i].keys[x] == k
      && 0 <= j < |pages| && 0 <= y < |pages[j].keys| && pages[j].keys[y] == k
      ensures i == j && x == y
    {
      if i < j { NeverAgain(pages, moments, space, i, j, k); }
      if j < i { NeverAgain(pages, moments, space, j, i, k); }
      assert Turn(i);
      PageSpans(pages[i], DueAt(pages, moments, space, i));
      if x < y { KeyBeforeTotal(pages[i].keys[x], pages[i].keys[y], k); }
      if y < x { KeyBeforeTotal(pages[i].keys[y], pages[i].keys[x], k); }
    }
  }
}
