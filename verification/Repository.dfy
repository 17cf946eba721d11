/** The generic repository: cursor and offset pages over a changing table, and bulk writes. */
module Repositories {
  import opened Division
  import opened Results
  import opened CursorCodec

  type Row = map<string, int>
  type Table = map<int, Row>
  type Filter = (int, Row) -> bool

  datatype Item = Item(pk: int, row: Row)

  // ---------- Rows in key order ----------

  predicate IsLeast(m: int, s: set<int>) {
    m in s && forall x | x in s :: m <= x
  }

  lemma LeastBelow(s: set<int>, a: int)
    requires a in s
    ensures exists m :: IsLeast(m, s)
    decreases |s|
  {
    if b :| b in s && b < a {
      LeastBelow(s - {a}, b);
      var m :| IsLeast(m, s - {a});
      assert s == (s - {a}) + {a};
      assert IsLeast(if m < a then m else a, s);
    } else {
      assert IsLeast(a, s);
    }
  }

  lemma LeastExists(s: set<int>)
    requires exists a :: a in s
    ensures exists m :: IsLeast(m, s)
  {
    var a :| a in s;
    LeastBelow(s, a);
  }

  function Least(s: set<int>): (m: int)
    requires exists a :: a in s
    ensures IsLeast(m, s)
  {
    LeastExists(s);
    var m :| IsLeast(m, s);
    m
  }

  /** The elements of a set of keys in ascending order. */
  function InOrder(s: set<int>): (ks: seq<int>)
    ensures forall i | 0 <= i < |ks| :: ks[i] in s
    decreases |s|
  {
    if exists a :: a in s then var m := Least(s); [m] + InOrder(s - {m}) else []
  }

  ghost predicate Rising(ks: seq<int>) {
    forall i, j | 0 <= i < j < |ks| :: ks[i] < ks[j]
  }

  lemma {:induction false} InOrderRises(s: set<int>)
    ensures Rising(InOrder(s)) && |InOrder(s)| == |s|
    decreases |s|
  {
    if exists a :: a in s {
      InOrderRises(s - {Least(s)});
    } else {
      assert s == {};
    }
  }

  lemma {:induction false} InOrderHas(s: set<int>, k: int)
    requires k in s
    ensures k in InOrder(s)
    decreases |s|
  {
    if k != Least(s) {
      InOrderHas(s - {Least(s)}, k);
    }
  }

  function Matching(t: Table, f: Filter): set<int> {
    set k | k in t && f(k, t[k])
  }

  function Above(t: Table, f: Filter, after: Option<int>): set<int> {
    set k | k in t && f(k, t[k]) && (after.None? || k > after.value)
  }

  function ItemsOf(t: Table, ks: seq<int>): (items: seq<Item>)
    requires forall i | 0 <= i < |ks| :: ks[i] in t
    ensures |items| == |ks| && forall i | 0 <= i < |ks| :: items[i] == Item(ks[i], t[ks[i]])
  {
    seq(|ks|, i requires 0 <= i < |ks| => Item(ks[i], t[ks[i]]))
  }

  function Keys(items: seq<Item>): (ks: seq<int>)
    ensures |ks| == |items| && forall i | 0 <= i < |items| :: ks[i] == items[i].pk
  {
    seq(|items|, i requires 0 <= i < |items| => items[i].pk)
  }

  // ---------- Pages ----------

  datatype PageError = BadCursor | NegativeSlice | IndexError

  datatype Page = Page(items: seq<Item>, next: Option<string>)

  /** `items[:limit]` for a list that is longer than `limit`, counting from the end when it is negative. */
  function Cut(ks: seq<int>, limit: int): seq<int>
    requires |ks| > limit
  {
    if limit >= 0 then ks[..limit] else if |ks| + limit > 0 then ks[..|ks| + limit] else []
  }

  /** One page of the rows `ks`, read as `qs[: limit + 1]`. */
  function PageOf(t: Table, ks: seq<int>, limit: int): Result<Page, PageError>
    requires forall i | 0 <= i < |ks| :: ks[i] in t
  {
    if limit + 1 < 0 then Err(NegativeSlice)
    else
      var got := if |ks| > limit + 1 then ks[..limit + 1] else ks;
      if |got| <= limit then Ok(Page(ItemsOf(t, got), None))
      else
        var page := Cut(got, limit);
        if page == [] then Err(IndexError)
        else Ok(Page(ItemsOf(t, page), Some(EncodeCursor(page[|page| - 1]))))
  }

  function PageFrom(t: Table, f: Filter, after: Option<int>, limit: int): Result<Page, PageError> {
    PageOf(t, InOrder(Above(t, f, after)), limit)
  }

  function ListCursor(t: Table, f: Filter, cursor: Option<string>, limit: int): Result<Page, PageError> {
    if cursor.None? then PageFrom(t, f, None, limit)
    else
      var last := DecodeCursor(cursor.value);
      if last.None? then Err(BadCursor) else PageFrom(t, f, Some(last.value), limit)
  }

  /** A page of `list` ordered by primary key. */
  function ListOffset(t: Table, f: Filter, limit: nat, offset: nat): seq<Item> {
    var ks := InOrder(Matching(t, f));
    var lo := if offset < |ks| then offset else |ks|;
    var hi := if offset + limit < |ks| then offset + limit else |ks|;
    ItemsOf(t, ks[lo..hi])
  }

  lemma NoneInOrder(s: set<int>)
    ensures InOrder(s) == [] <==> s == {}
  {
    InOrderRises(s);
  }

  /**
   Exactly when a cursor page is an error: the cursor does not decode, the limit is negative, or it is
   zero and there is a row to return.
   */
  lemma PageFails(t: Table, f: Filter, cursor: Option<string>, limit: int)
    ensures var after := if cursor.None? then None else DecodeCursor(cursor.value);
            ListCursor(t, f, cursor, limit).Err? <==>
            || (cursor.Some? && after.None?)
            || limit < 0
            || (limit == 0 && exists k | k in t :: f(k, t[k]) && Beyond(k, after))
  {
    if cursor.None? || DecodeCursor(cursor.value).Some? {
      var after := if cursor.None? then None else DecodeCursor(cursor.value);
      NoneInOrder(Above(t, f, after));
      if k :| k in t && f(k, t[k]) && Beyond(k, after) {
        assert k in Above(t, f, after);
      }
    }
  }

  /** Offset pages cut the matching rows in key order, at any offset: two in a row are one of both lengths. */
  lemma OffsetPages(t: Table, f: Filter, limit: nat, limit': nat, offset: nat)
    ensures ListOffset(t, f, limit, offset) + ListOffset(t, f, limit', offset + limit)
         == ListOffset(t, f, limit + limit', offset)
    ensures |ListOffset(t, f, limit, offset)| == Min(limit, Max(0, |Matching(t, f)| - offset))
    ensures ListOffset(t, f, |Matching(t, f)|, 0) == ItemsOf(t, InOrder(Matching(t, f)))
  {
    InOrderRises(Matching(t, f));
  }

  // ---------- Cursor walks over a table that changes between pages ----------

  /** `tables` are the successive states of the table, one per page; `pages` counts those used. */
  datatype Walk = Walk(items: seq<Item>, pages: nat, finished: bool, failed: bool)

  function WalkFrom(tables: seq<Table>, f: Filter, cursor: Option<string>, limit: int): (w: Walk)
    ensures w.pages <= |tables|
    decreases |tables|
  {
    if tables == [] then Walk([], 0, false, false)
    else
      match ListCursor(tables[0], f, cursor, limit)
      case Err(_) => Walk([], 1, false, true)
      case Ok(page) =>
        if page.next.None? then Walk(page.items, 1, true, false)
        else
          var rest := WalkFrom(tables[1..], f, page.next, limit);
          Walk(page.items + rest.items, rest.pages + 1, rest.finished, rest.failed)
  }

  /** The key a cursor stands for. */
  predicate At(cursor: Option<string>, after: Option<int>) {
    if after.None? then cursor.None? else cursor == Some(EncodeCursor(after.value))
  }

  predicate Beyond(k: int, after: Option<int>) {
    after.None? || k > after.value
  }

  lemma CursorAt(t: Table, f: Filter, cursor: Option<string>, after: Option<int>, limit: int)
    requires At(cursor, after)
    ensures ListCursor(t, f, cursor, limit) == PageFrom(t, f, after, limit)
  {
    if after.Some? {
      CursorRoundTrip(after.value);
    }
  }

  /** What a page with a positive limit is: the first rows, and a cursor if and only if more follow. */
  lemma PageShape(t: Table, ks: seq<int>, limit: nat)
    requires limit >= 1 && forall i | 0 <= i < |ks| :: ks[i] in t
    ensures PageOf(t, ks, limit) == Ok(if |ks| <= limit then Page(ItemsOf(t, ks), None)
                                       else Page(ItemsOf(t, ks[..limit]), Some(EncodeCursor(ks[limit - 1]))))
  {
    if |ks| > limit {
      CutTwice(ks, limit);
    }
  }

  lemma CutTwice(ks: seq<int>, limit: nat)
    requires 1 <= limit < |ks|
    ensures var got := if |ks| > limit + 1 then ks[..limit + 1] else ks;
            Cut(got, limit) == ks[..limit] && ks[..limit] != [] && ks[..limit][limit - 1] == ks[limit - 1]
  {
  }

  /** The rows a page starting beyond `after` draws on, in key order. */
  function Ahead(t: Table, f: Filter, after: Option<int>): (ks: seq<int>)
    ensures forall i | 0 <= i < |ks| :: ks[i] in t
  {
    InOrder(Above(t, f, after))
  }

  /** The walk in terms of keys: each page is the first `limit` rows beyond the last key returned. */
  function KeyWalk(tables: seq<Table>, f: Filter, after: Option<int>, limit: nat): (w: Walk)
    requires limit >= 1
    ensures w.pages <= |tables| && !w.failed
    decreases |tables|
  {
    if tables == [] then Walk([], 0, false, false)
    else
      var ks := Ahead(tables[0], f, after);
      if |ks| <= limit then Walk(ItemsOf(tables[0], ks), 1, true, false)
      else
        var rest := KeyWalk(tables[1..], f, Some(ks[limit - 1]), limit);
        Walk(ItemsOf(tables[0], ks[..limit]) + rest.items, rest.pages + 1, rest.finished, false)
  }

  /** Passing cursors from page to page is passing keys: a walk with a positive limit never fails. */
  lemma {:induction false} WalkByKeys(tables: seq<Table>, f: Filter, cursor: Option<string>, after: Option<int>,
                                      limit: nat)
    requires limit >= 1 && At(cursor, after)
    ensures WalkFrom(tables, f, cursor, limit) == KeyWalk(tables, f, after, limit)
    decreases |tables|
  {
    if tables != [] {
      var ks := Ahead(tables[0], f, after);
      CursorAt(tables[0], f, cursor, after, limit);
      PageShape(tables[0], ks, limit);
      if |ks| > limit {
        WalkByKeys(tables[1..], f, Some(EncodeCursor(ks[limit - 1])), Some(ks[limit - 1]), limit);
      }
    }
  }

  ghost predicate Ascends(ks: seq<int>, after: Option<int>) {
    Rising(ks) && forall i | 0 <= i < |ks| :: Beyond(ks[i], after)
  }

  lemma AscendsJoin(ks: seq<int>, ls: seq<int>, after: Option<int>)
    requires ks != [] && Ascends(ks, after) && Ascends(ls, Some(ks[|ks| - 1]))
    ensures Ascends(ks + ls, after)
  {
  }

  lemma AheadAscends(t: Table, f: Filter, after: Option<int>)
    ensures Ascends(Ahead(t, f, after), after)
  {
    InOrderRises(Above(t, f, after));
  }

  lemma KeysJoin(xs: seq<Item>, ys: seq<Item>)
    ensures Keys(xs + ys) == Keys(xs) + Keys(ys)
  {
  }

  lemma KeysOfItems(t: Table, ks: seq<int>)
    requires forall i | 0 <= i < |ks| :: ks[i] in t
    ensures Keys(ItemsOf(t, ks)) == ks
  {
  }

  /** The keys of a walk: those of its first page, then those of the walk from there. */
  lemma WalkKeys(tables: seq<Table>, f: Filter, after: Option<int>, limit: nat)
    requires limit >= 1 && tables != []
    ensures var ks := Ahead(tables[0], f, after);
            Keys(KeyWalk(tables, f, after, limit).items) ==
            if |ks| <= limit then ks
            else ks[..limit] + Keys(KeyWalk(tables[1..], f, Some(ks[limit - 1]), limit).items)
  {
    var ks := Ahead(tables[0], f, after);
    if |ks| <= limit {
      KeysOfItems(tables[0], ks);
    } else {
      KeysOfItems(tables[0], ks[..limit]);
      KeysJoin(ItemsOf(tables[0], ks[..limit]), KeyWalk(tables[1..], f, Some(ks[limit - 1]), limit).items);
    }
  }

  lemma {:induction false} KeyWalkAscends(tables: seq<Table>, f: Filter, after: Option<int>, limit: nat)
    requires limit >= 1
    ensures Ascends(Keys(KeyWalk(tables, f, after, limit).items), after)
    decreases |tables|
  {
    if tables != [] {
      var ks := Ahead(tables[0], f, after);
      WalkKeys(tables, f, after, limit);
      AheadAscends(tables[0], f, after);
      if |ks| > limit {
        KeyWalkAscends(tables[1..], f, Some(ks[limit - 1]), limit);
        AscendsJoin(ks[..limit], Keys(KeyWalk(tables[1..], f, Some(ks[limit - 1]), limit).items), after);
      }
    }
  }

  /** The key has a matching row in each of the first `pages` table states. */
  ghost predicate Throughout(tables: seq<Table>, f: Filter, pages: nat, k: int)
    requires pages <= |tables|
  {
    forall n | 0 <= n < pages :: k in tables[n] && f(k, tables[n][k])
  }

  lemma {:induction false} KeyWalkMissesNothing(tables: seq<Table>, f: Filter, after: Option<int>, limit: nat, k: int)
    requires limit >= 1 && Beyond(k, after) && KeyWalk(tables, f, after, limit).finished
    requires Throughout(tables, f, KeyWalk(tables, f, after, limit).pages, k)
    ensures k in Keys(KeyWalk(tables, f, after, limit).items)
    decreases |tables|
  {
    var ks := Ahead(tables[0], f, after);
    WalkKeys(tables, f, after, limit);
    InOrderHas(Above(tables[0], f, after), k);
    if |ks| > limit {
      AheadAscends(tables[0], f, after);
      var last := ks[limit - 1];
      if k > last {
        assert forall n | 0 <= n < KeyWalk(tables[1..], f, Some(last), limit).pages :: tables[1..][n] == tables[n + 1];
        KeyWalkMissesNothing(tables[1..], f, Some(last), limit, k);
      } else {
        EarlyKey(ks, limit, k);
      }
    }
  }

  lemma EarlyKey(ks: seq<int>, limit: nat, k: int)
    requires Rising(ks) && k in ks && 1 <= limit < |ks| && k <= ks[limit - 1]
    ensures k in ks[..limit]
  {
    var i :| 0 <= i < |ks| && ks[i] == k;
    assert i < limit;
  }

  /** An item is a matching row of one of the first `pages` table states. */
  ghost predicate Seen(item: Item, tables: seq<Table>, pages: nat, f: Filter)
    requires pages <= |tables|
  {
    exists n | 0 <= n < pages :: item.pk in tables[n] && tables[n][item.pk] == item.row && f(item.pk, item.row)
  }

  lemma SeenLater(item: Item, tables: seq<Table>, pages: nat, f: Filter)
    requires pages < |tables| && Seen(item, tables[1..], pages, f)
    ensures Seen(item, tables, pages + 1, f)
  {
    var n :| 0 <= n < pages && item.pk in tables[1..][n] && tables[1..][n][item.pk] == item.row
             && f(item.pk, item.row);
    assert tables[n + 1] == tables[1..][n];
  }

  lemma {:induction false} KeyWalkReturnsRows(tables: seq<Table>, f: Filter, after: Option<int>, limit: nat, item: Item)
    requires limit >= 1 && item in KeyWalk(tables, f, after, limit).items
    ensures Seen(item, tables, KeyWalk(tables, f, after, limit).pages, f)
    decreases |tables|
  {
    var t := tables[0];
    var ks := Ahead(t, f, after);
    var page := if |ks| <= limit then ks else ks[..limit];
    if item in ItemsOf(t, page) {
      var i :| 0 <= i < |page| && ItemsOf(t, page)[i] == item;
      assert page[i] == ks[i] && ks[i] in Above(t, f, after);
      assert tables[0] == t;
    } else {
      KeyWalkReturnsRows(tables[1..], f, Some(ks[limit - 1]), limit, item);
      SeenLater(item, tables, KeyWalk(tables[1..], f, Some(ks[limit - 1]), limit).pages, f);
    }
  }

  /**
   A walk from the start, with any inserts, updates and deletes between its pages, never fails and
   returns strictly ascending keys, so none twice, each with a row it really had; and once it is
   finished, no key was missed that had a matching row in every table state the walk read.
   */
  lemma CursorWalk(tables: seq<Table>, f: Filter, limit: nat)
    requires limit >= 1
    ensures var w := WalkFrom(tables, f, None, limit);
            && !w.failed
            && Rising(Keys(w.items))
            && (forall item | item in w.items :: Seen(item, tables, w.pages, f))
            && (w.finished ==> forall k | Throughout(tables, f, w.pages, k) :: k in Keys(w.items))
  {
    WalkByKeys(tables, f, None, None, limit);
    KeyWalkAscends(tables, f, None, limit);
    var w := KeyWalk(tables, f, None, limit);
    forall item | item in w.items ensures Seen(item, tables, w.pages, f) {
      KeyWalkReturnsRows(tables, f, None, limit, item);
    }
    if w.finished {
      forall k | Throughout(tables, f, w.pages, k) ensures k in Keys(w.items) {
        KeyWalkMissesNothing(tables, f, None, limit, k);
      }
    }
  }

  // ---------- Walks over a table that does not change ----------

  lemma {:induction false} RisingUnique(ks: seq<int>, ls: seq<int>)
    requires Rising(ks) && Rising(ls) && (forall k :: k in ks <==> k in ls)
    ensures ks == ls
    decreases |ks|
  {
    if ks != [] {
      assert ks[0] in ks;
    }
    if ls != [] {
      assert ls[0] in ls;
    }
    if ks != [] && ls != [] {
      TailElements(ks);
      TailElements(ls);
      RisingUnique(ks[1..], ls[1..]);
    }
  }

  lemma TailElements(ks: seq<int>)
    requires Rising(ks) && ks != []
    ensures forall k :: k in ks[1..] <==> k in ks && k > ks[0]
  {
    forall k | k in ks && k > ks[0] ensures k in ks[1..] {
      var i :| 0 <= i < |ks| && ks[i] == k;
      assert ks[1..][i - 1] == k;
    }
  }

  /** The rows beyond the last key of a page are the rows after that page. */
  lemma AheadDrops(t: Table, f: Filter, after: Option<int>, m: nat)
    requires 1 <= m <= |Ahead(t, f, after)|
    ensures Ahead(t, f, Some(Ahead(t, f, after)[m - 1])) == Ahead(t, f, after)[m..]
  {
    var ks := Ahead(t, f, after);
    var ls := Ahead(t, f, Some(ks[m - 1]));
    AheadAscends(t, f, after);
    AheadAscends(t, f, Some(ks[m - 1]));
    forall k ensures k in ks[m..] <==> k in ls {
      if k in ls {
        InOrderHas(Above(t, f, after), k);
        var i :| 0 <= i < |ks| && ks[i] == k;
        assert ks[m..][i - m] == k;
      } else if k in ks[m..] {
        var i :| 0 <= i < |ks[m..]| && ks[m..][i] == k;
        assert ks[m + i] in Above(t, f, after);
        InOrderHas(Above(t, f, Some(ks[m - 1])), k);
      }
    }
    RisingUnique(ls, ks[m..]);
  }

  function PagesFor(n: nat, limit: nat): int
    requires limit >= 1
  {
    Max(1, (n + limit - 1) / limit)
  }

  lemma OneMorePage(n: nat, limit: nat)
    requires limit >= 1
    ensures n <= limit ==> PagesFor(n, limit) == 1
    ensures n > limit ==> PagesFor(n, limit) == PagesFor(n - limit, limit) + 1
  {
    if 0 < n <= limit {
      DivModUnique(n + limit - 1, limit, 1, n - 1);
    } else if n == 0 {
      DivModUnique(limit - 1, limit, 0, limit - 1);
    } else {
      DivShift(n - 1, limit);
      DivShift(n - limit - 1, limit);
      QuotientAtLeast(n - limit + limit - 1, limit);
    }
  }

  lemma QuotientAtLeast(x: int, d: int)
    requires d > 0 && x >= d
    ensures x / d >= 1
  {
    DivShift(x - d, d);
    assert (x - d) / d >= 0;
  }

  lemma ItemsJoin(t: Table, ks: seq<int>, m: nat)
    requires m <= |ks| && forall i | 0 <= i < |ks| :: ks[i] in t
    ensures ItemsOf(t, ks[..m]) + ItemsOf(t, ks[m..]) == ItemsOf(t, ks)
  {
  }

  lemma {:induction false} FrozenWalk(tables: seq<Table>, t: Table, f: Filter, after: Option<int>, limit: nat)
    requires limit >= 1 && forall n | 0 <= n < |tables| :: tables[n] == t
    requires |tables| >= PagesFor(|Ahead(t, f, after)|, limit)
    ensures KeyWalk(tables, f, after, limit)
         == Walk(ItemsOf(t, Ahead(t, f, after)), PagesFor(|Ahead(t, f, after)|, limit), true, false)
    decreases |tables|
  {
    var ks := Ahead(t, f, after);
    OneMorePage(|ks|, limit);
    assert tables[0] == t;
    if |ks| > limit {
      AheadDrops(t, f, after, limit);
      FrozenWalk(tables[1..], t, f, Some(ks[limit - 1]), limit);
      ItemsJoin(t, ks, limit);
    }
  }

  /** The first `pages` offset pages, one after the other. */
  function OffsetWalk(t: Table, f: Filter, limit: nat, pages: nat): seq<Item> {
    if pages == 0 then [] else OffsetWalk(t, f, limit, pages - 1) + ListOffset(t, f, limit, (pages - 1) * limit)
  }

  function Clip(n: nat, most: nat): nat {
    if n < most then n else most
  }

  lemma SliceItems(t: Table, ks: seq<int>, lo: nat, hi: nat)
    requires lo <= hi <= |ks| && forall i | 0 <= i < |ks| :: ks[i] in t
    ensures ItemsOf(t, ks[..lo]) + ItemsOf(t, ks[lo..hi]) == ItemsOf(t, ks[..hi])
  {
  }

  lemma {:induction false} OffsetWalkPrefix(t: Table, f: Filter, limit: nat, pages: nat)
    ensures 0 <= pages * limit
    ensures var ks := InOrder(Matching(t, f));
            OffsetWalk(t, f, limit, pages) == ItemsOf(t, ks[..Clip(pages * limit, |ks|)])
  {
    var ks := InOrder(Matching(t, f));
    if pages > 0 {
      OffsetWalkPrefix(t, f, limit, pages - 1);
      assert (pages - 1) * limit + limit == pages * limit;
      SliceItems(t, ks, Clip((pages - 1) * limit, |ks|), Clip(pages * limit, |ks|));
    } else {
      assert 0 * limit == 0;
    }
  }

  lemma EnoughPages(n: nat, limit: nat)
    requires limit >= 1
    ensures PagesFor(n, limit) * limit >= n
  {
    var x := n + limit - 1;
    assert x == x / limit * limit + x % limit;
    if PagesFor(n, limit) != x / limit {
      QuotientAtLeastConverse(x, limit);
    }
  }

  lemma QuotientAtLeastConverse(x: int, d: int)
    requires d > 0 && x / d < 1
    ensures x < d
  {
    if x >= d {
      QuotientAtLeast(x, d);
    }
  }

  /**
   On a table that does not change, cursor pages and offset pages ordered by key both give exactly
   the matching rows in key order; the cursor walk takes one page per `limit` rows begun, at least
   one, so it has no empty last page.
   */
  lemma FrozenTable(tables: seq<Table>, t: Table, f: Filter, limit: nat)
    requires limit >= 1 && forall n | 0 <= n < |tables| :: tables[n] == t
    requires |tables| >= PagesFor(|Matching(t, f)|, limit)
    ensures var rows := ItemsOf(t, InOrder(Matching(t, f)));
            && WalkFrom(tables, f, None, limit) == Walk(rows, PagesFor(|Matching(t, f)|, limit), true, false)
            && OffsetWalk(t, f, limit, PagesFor(|Matching(t, f)|, limit)) == rows
  {
    assert Above(t, f, None) == Matching(t, f);
    InOrderRises(Matching(t, f));
    WalkByKeys(tables, f, None, None, limit);
    FrozenWalk(tables, t, f, None, limit);
    OffsetWalkPrefix(t, f, limit, PagesFor(|Matching(t, f)|, limit));
    EnoughPages(|Matching(t, f)|, limit);
    var ks := InOrder(Matching(t, f));
    assert ks[..|ks|] == ks;
  }

  // ---------- Single and bulk writes ----------

  function Without(t: Table, ids: seq<int>): Table {
    map k | k in t && k !in ids :: t[k]
  }

  function Patched(t: Table, ids: seq<int>, fields: Row): Table {
    map k | k in t :: if k in ids then t[k] + fields else t[k]
  }

  /**
   `t'` has the rows of `t`; in those that `ids` names the given fields have their given values and the
   others what they had, with no further fields; every other row is as it was.
   */
  ghost predicate SetIn(t: Table, t': Table, ids: seq<int>, fields: Row) {
    && t'.Keys == t.Keys
    && (forall k | k in t && k !in ids :: t'[k] == t[k])
    && (forall k | k in t && k in ids ::
          && t'[k].Keys == t[k].Keys + fields.Keys
          && (forall name | name in t'[k] :: t'[k][name] == if name in fields then fields[name] else t[k][name]))
  }

  lemma PatchSets(t: Table, t': Table, ids: seq<int>, fields: Row)
    ensures SetIn(t, t', ids, fields) <==> t' == Patched(t, ids, fields)
  {
    if SetIn(t, t', ids, fields) {
      forall k | k in t ensures t'[k] == Patched(t, ids, fields)[k] {
      }
    }
  }

  /** `t'` has exactly the rows of `t` that `ids` does not name, as they were. */
  ghost predicate GoneFrom(t: Table, t': Table, ids: seq<int>) {
    && (forall k :: k in t' <==> k in t && k !in ids)
    && (forall k | k in t' :: t'[k] == t[k])
  }

  /** The rows named by `ids`, each once. */
  function Named(t: Table, ids: seq<int>): set<int> {
    set k | k in t && k in ids
  }

  /** The positions of `ids` that name a row, repeats included. */
  function Hits(t: Table, ids: seq<int>): nat {
    if ids == [] then 0
    else Hits(t, ids[..|ids| - 1]) + if ids[|ids| - 1] in t then 1 else 0
  }

  /** The row count of a queryset update; with no fields to set it issues no statement. */
  function Matched(t: Table, ids: seq<int>, fields: Row): nat {
    if fields == map[] then 0 else |Named(t, ids)|
  }

  class Repository {
    var rows: Table

    constructor ()
      ensures rows == map[]
    {
      rows := map[];
    }

    /** False stands for DoesNotExist. */
    method Update(id: int, fields: Row) returns (found: bool)
      modifies this
      ensures found <==> id in old(rows)
      ensures rows == Patched(old(rows), [id], fields) && SetIn(old(rows), rows, [id], fields)
    {
      PatchSets(rows, Patched(rows, [id], fields), [id], fields);
      found := id in rows;
      if found {
        rows := rows[id := rows[id] + fields];
      }
    }

    method Delete(id: int)
      modifies this
      ensures rows == Without(old(rows), [id]) && GoneFrom(old(rows), rows, [id])
    {
      rows := rows - {id};
    }

    /** Both modes leave the same table; they count differently. */
    method BulkDelete(ids: seq<int>, fast: bool) returns (deleted: nat)
      modifies this
      ensures rows == Without(old(rows), ids) && GoneFrom(old(rows), rows, ids)
      ensures deleted == if fast then |Named(old(rows), ids)| else |ids|
      ensures fast ==> deleted == |old(rows)| - |rows|
    {
      RowsLost(rows, ids);
      if fast {
        deleted := |Named(rows, ids)|;
        rows := map k | k in rows && k !in ids :: rows[k];
        return;
      }
      deleted := 0;
      while deleted < |ids|
        invariant deleted <= |ids|
        invariant rows == Without(old(rows), ids[..deleted])
      {
        Delete(ids[deleted]);
        assert ids[..deleted + 1] == ids[..deleted] + [ids[deleted]];
        deleted := deleted + 1;
      }
      assert ids[..deleted] == ids;
    }

    method BulkPatch(ids: seq<int>, fast: bool, fields: Row) returns (updated: nat)
      modifies this
      ensures rows == Patched(old(rows), ids, fields) && SetIn(old(rows), rows, ids, fields)
      ensures updated == if fast then Matched(old(rows), ids, fields) else Hits(old(rows), ids)
    {
      ghost var was := rows;
      if fast {
        updated := if fields == map[] then 0 else |Named(rows, ids)|;
        rows := map k | k in rows :: if k in ids then rows[k] + fields else rows[k];
        PatchSets(was, rows, ids, fields);
        return;
      }
      updated := 0;
      var i := 0;
      while i < |ids|
        invariant 0 <= i <= |ids|
        invariant rows == Patched(old(rows), ids[..i], fields)
        invariant updated == Hits(old(rows), ids[..i])
      {
        var found := Update(ids[i], fields);
        assert ids[..i + 1] == ids[..i] + [ids[i]];
        PatchAgain(old(rows), ids[..i], ids[i], fields);
        if found {
          updated := updated + 1;
        }
        i := i + 1;
      }
      assert ids[..i] == ids;
      PatchSets(was, rows, ids, fields);
    }
  }

  /** A delete loses one row for every row it names. */
  lemma RowsLost(t: Table, ids: seq<int>)
    ensures |Without(t, ids)| == |t| - |Named(t, ids)|
  {
    var left := Without(t, ids);
    assert left.Keys == t.Keys - Named(t, ids) && Named(t, ids) <= t.Keys;
    assert |left| == |left.Keys| && |t| == |t.Keys|;
  }

  /** Patching a row twice with the same fields is patching it once. */
  lemma PatchAgain(t: Table, ids: seq<int>, id: int, fields: Row)
    ensures Patched(Patched(t, ids, fields), [id], fields) == Patched(t, ids + [id], fields)
  {
    forall k | k in t ensures Patched(Patched(t, ids, fields), [id], fields)[k] == Patched(t, ids + [id], fields)[k] {
      assert t[k] + fields + fields == t[k] + fields;
    }
  }

  ghost predicate NoRowTwice(t: Table, ids: seq<int>) {
    forall i, j | 0 <= i < j < |ids| && ids[i] == ids[j] :: ids[i] !in t
  }

  lemma NamedPush(t: Table, ids: seq<int>, x: int)
    ensures Named(t, ids + [x]) == Named(t, ids) + if x in t then {x} else {}
    ensures x in ids && x in t ==> x in Named(t, ids)
  {
  }

  lemma NoRowTwicePush(t: Table, ids: seq<int>, x: int)
    ensures NoRowTwice(t, ids + [x]) <==> NoRowTwice(t, ids) && !(x in t && x in ids)
  {
    var more := ids + [x];
    if NoRowTwice(t, more) {
      forall i, j | 0 <= i < j < |ids| && ids[i] == ids[j] ensures ids[i] !in t {
        assert more[i] == more[j];
      }
      if x in ids {
        var i :| 0 <= i < |ids| && ids[i] == x;
        assert more[i] == more[|ids|];
      }
    }
  }

  lemma {:induction false} HitsNamed(t: Table, ids: seq<int>)
    ensures Hits(t, ids) >= |Named(t, ids)|
    ensures Hits(t, ids) == |Named(t, ids)| <==> NoRowTwice(t, ids)
    ensures Hits(t, ids) == 0 <==> Named(t, ids) == {}
  {
    if ids == [] {
      assert Named(t, ids) == {};
    } else {
      var n := |ids| - 1;
      HitsNamed(t, ids[..n]);
      assert ids == ids[..n] + [ids[n]];
      NamedPush(t, ids[..n], ids[n]);
      NoRowTwicePush(t, ids[..n], ids[n]);
      if ids[n] in Named(t, ids[..n]) {
        assert Named(t, ids) == Named(t, ids[..n]);
      }
    }
  }

  /**
   The two modes of `bulk_patch` report the same count exactly when no existing row is named twice;
   or, when there is nothing to set, exactly when no existing row is named at all.
   */
  lemma PatchCountsAgree(t: Table, ids: seq<int>, fields: Row)
    ensures Hits(t, ids) >= Matched(t, ids, fields)
    ensures fields != map[] ==> (Hits(t, ids) == Matched(t, ids, fields) <==> NoRowTwice(t, ids))
    ensures fields == map[] ==> (Hits(t, ids) == Matched(t, ids, fields) <==> forall i | 0 <= i < |ids| :: ids[i] !in t)
  {
    HitsNamed(t, ids);
    if Named(t, ids) == {} {
      forall i | 0 <= i < |ids| ensures ids[i] !in t {
        assert ids[i] !in Named(t, ids);
      }
    }
  }

  lemma {:induction false} HitsAll(t: Table, ids: seq<int>)
    ensures Hits(t, ids) <= |ids|
    ensures Hits(t, ids) == |ids| <==> forall i | 0 <= i < |ids| :: ids[i] in t
  {
    if ids != [] {
      HitsAll(t, ids[..|ids| - 1]);
    }
  }

  /** The two modes of `bulk_delete` report the same count exactly when the ids are distinct and all exist. */
  lemma DeleteCountsAgree(t: Table, ids: seq<int>)
    ensures |ids| == |Named(t, ids)| <==> (forall i | 0 <= i < |ids| :: ids[i] in t)
                                          && (forall i, j | 0 <= i < j < |ids| :: ids[i] != ids[j])
  {
    HitsAll(t, ids);
    HitsNamed(t, ids);
  }
}
