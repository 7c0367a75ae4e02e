/**
 * transform_data: the page-view rows of one extraction become one row per
 * (day, language, title_normalized), with a category, the first original
 * title, and the per-page metrics of RollingMetrics.
 *
 * Both groupbys are modelled as a left fold of a sorted upsert: rows are
 * inserted in the order the frame holds them, a row whose key is already
 * present adds its views and keeps the present row's original title (the
 * pandas aggregation `first`), and the result is ordered by
 * (language, name, day), the order sort_values then gives it.
 */
module Transformation {
  import opened Wrappers
  import opened Classification
  import opened TitleNormalization
  import opened RollingMetrics

  // ---------------------------------------------------------------------
  // Python's order on str (code point by code point) and the sort key.

  predicate StrLess(a: string, b: string)
  {
    if a == [] then b != []
    else if b == [] then false
    else if a[0] != b[0] then a[0] < b[0]
    else StrLess(a[1..], b[1..])
  }

  lemma {:induction false} StrLessIrreflexive(a: string)
    ensures !StrLess(a, a)
  {
    if a != [] {
      StrLessIrreflexive(a[1..]);
    }
  }

  lemma {:induction false} StrLessTransitive(a: string, b: string, c: string)
    requires StrLess(a, b) && StrLess(b, c)
    ensures StrLess(a, c)
  {
    if a != [] && b != [] && c != [] && a[0] == b[0] && b[0] == c[0] {
      StrLessTransitive(a[1..], b[1..], c[1..]);
    }
  }

  lemma {:induction false} StrLessTotal(a: string, b: string)
    ensures a == b || StrLess(a, b) || StrLess(b, a)
  {
    if a != [] && b != [] && a[0] == b[0] {
      StrLessTotal(a[1..], b[1..]);
      if a[1..] == b[1..] {
        assert a == [a[0]] + a[1..] && b == [b[0]] + b[1..];
      }
    }
  }

  /** The sort key of both sort_values calls: language, then title (or
      title_normalized), then day. */
  datatype Key = Key(language: string, name: string, day: int)

  predicate KeyLess(x: Key, y: Key)
  {
    || StrLess(x.language, y.language)
    || (x.language == y.language && StrLess(x.name, y.name))
    || (x.language == y.language && x.name == y.name && x.day < y.day)
  }

  lemma KeyLessIrreflexive(x: Key)
    ensures !KeyLess(x, x)
  {
    StrLessIrreflexive(x.language);
    StrLessIrreflexive(x.name);
  }

  lemma KeyLessTransitive(x: Key, y: Key, z: Key)
    requires KeyLess(x, y) && KeyLess(y, z)
    ensures KeyLess(x, z)
  {
    if StrLess(x.language, y.language) && StrLess(y.language, z.language) {
      StrLessTransitive(x.language, y.language, z.language);
    } else if x.language == y.language == z.language && StrLess(x.name, y.name) && StrLess(y.name, z.name) {
      StrLessTransitive(x.name, y.name, z.name);
    }
  }

  lemma KeyLessTotal(x: Key, y: Key)
    ensures x == y || KeyLess(x, y) || KeyLess(y, x)
  {
    StrLessTotal(x.language, y.language);
    StrLessTotal(x.name, y.name);
  }

  // ---------------------------------------------------------------------
  // One groupby: rows with the same key are merged.

  /** A row of a grouped frame: its key, views_total, and original_title. */
  datatype Agg = Agg(key: Key, views: int, original: string)

  /** Strictly increasing keys: ordered as sort_values leaves it, and no key twice. */
  ghost predicate Sorted(s: seq<Agg>)
  {
    forall i, j :: 0 <= i < j < |s| ==> KeyLess(s[i].key, s[j].key)
  }

  function Keys(s: seq<Agg>): set<Key>
  {
    set i | 0 <= i < |s| :: s[i].key
  }

  /** Row r enters the grouped rows acc: merged into the row with its key, whose
      original title stays, or inserted in key order. */
  function Upsert(acc: seq<Agg>, r: Agg): seq<Agg>
  {
    if acc == [] then [r]
    else if r.key == acc[0].key then [acc[0].(views := acc[0].views + r.views)] + acc[1..]
    else if KeyLess(r.key, acc[0].key) then [r] + acc
    else [acc[0]] + Upsert(acc[1..], r)
  }

  /** groupby(key).agg(sum, first): the rows folded in frame order. */
  function Aggregate(rows: seq<Agg>): seq<Agg>
  {
    if rows == [] then [] else Upsert(Aggregate(rows[..|rows| - 1]), rows[|rows| - 1])
  }

  lemma {:induction false} UpsertKeys(acc: seq<Agg>, r: Agg)
    ensures Keys(Upsert(acc, r)) == Keys(acc) + {r.key}
    ensures |Upsert(acc, r)| >= 1
  {
    if acc != [] {
      KeysCons(acc);
      if r.key == acc[0].key {
        KeysCons([acc[0].(views := acc[0].views + r.views)] + acc[1..]);
        assert ([acc[0].(views := acc[0].views + r.views)] + acc[1..])[1..] == acc[1..];
      } else if KeyLess(r.key, acc[0].key) {
        KeysCons([r] + acc);
        assert ([r] + acc)[1..] == acc;
      } else {
        UpsertKeys(acc[1..], r);
        var u := [acc[0]] + Upsert(acc[1..], r);
        KeysCons(u);
        assert u[1..] == Upsert(acc[1..], r);
      }
    } else {
      assert [r][0].key == r.key;
    }
  }

  lemma KeysCons(s: seq<Agg>)
    requires s != []
    ensures Keys(s) == {s[0].key} + Keys(s[1..])
  {
    forall k | k in Keys(s) ensures k in {s[0].key} + Keys(s[1..]) {
      var i :| 0 <= i < |s| && s[i].key == k;
      if i > 0 {
        assert s[1..][i - 1].key == k;
      }
    }
    forall k | k in Keys(s[1..]) ensures k in Keys(s) {
      var i :| 0 <= i < |s[1..]| && s[1..][i].key == k;
      assert s[i + 1].key == k;
    }
  }

  /** A sorted sequence with a smaller key in front stays sorted. */
  lemma SortedCons(x: Agg, s: seq<Agg>)
    requires Sorted(s)
    requires forall k :: k in Keys(s) ==> KeyLess(x.key, k)
    ensures Sorted([x] + s)
  {
    var t := [x] + s;
    forall i, j | 0 <= i < j < |t| ensures KeyLess(t[i].key, t[j].key) {
      if i == 0 {
        assert t[j].key == s[j - 1].key;
        assert s[j - 1].key in Keys(s);
      } else {
        assert t[i] == s[i - 1] && t[j] == s[j - 1];
      }
    }
  }

  lemma SortedTail(s: seq<Agg>)
    requires Sorted(s) && s != []
    ensures Sorted(s[1..])
    ensures forall k :: k in Keys(s[1..]) ==> KeyLess(s[0].key, k)
  {
    forall k | k in Keys(s[1..]) ensures KeyLess(s[0].key, k) {
      var i :| 0 <= i < |s[1..]| && s[1..][i].key == k;
      assert s[i + 1].key == k;
    }
  }

  lemma {:induction false} UpsertSorted(acc: seq<Agg>, r: Agg)
    requires Sorted(acc)
    ensures Sorted(Upsert(acc, r))
  {
    if acc != [] {
      SortedTail(acc);
      if r.key == acc[0].key {
        SortedCons(acc[0].(views := acc[0].views + r.views), acc[1..]);
      } else if KeyLess(r.key, acc[0].key) {
        KeysCons(acc);
        forall k | k in Keys(acc) ensures KeyLess(r.key, k) {
          if k != acc[0].key {
            KeyLessTransitive(r.key, acc[0].key, k);
          }
        }
        SortedCons(r, acc);
      } else {
        KeyLessTotal(r.key, acc[0].key);
        UpsertSorted(acc[1..], r);
        UpsertKeys(acc[1..], r);
        SortedCons(acc[0], Upsert(acc[1..], r));
      }
    }
  }

  /** The grouped rows are in key order with one row per key, and their keys
      are exactly the keys of the input rows. */
  lemma {:induction false} AggregateSortedKeys(rows: seq<Agg>)
    ensures Sorted(Aggregate(rows))
    ensures Keys(Aggregate(rows)) == Keys(rows)
  {
    if rows != [] {
      var init := rows[..|rows| - 1];
      AggregateSortedKeys(init);
      UpsertSorted(Aggregate(init), rows[|rows| - 1]);
      UpsertKeys(Aggregate(init), rows[|rows| - 1]);
      KeysSnoc(init, rows[|rows| - 1]);
      assert init + [rows[|rows| - 1]] == rows;
    }
  }

  lemma KeysSnoc(s: seq<Agg>, x: Agg)
    ensures Keys(s + [x]) == Keys(s) + {x.key}
  {
    var t := s + [x];
    forall k | k in Keys(t) ensures k in Keys(s) + {x.key} {
      var i :| 0 <= i < |t| && t[i].key == k;
      if i < |s| {
        assert s[i].key == k;
      }
    }
    forall k | k in Keys(s) ensures k in Keys(t) {
      var i :| 0 <= i < |s| && s[i].key == k;
      assert t[i].key == k;
    }
    assert t[|s|].key == x.key;
  }

  /** The views of the rows whose key satisfies p, summed. */
  function ViewsWhere(s: seq<Agg>, p: Key -> bool): int
  {
    if s == [] then 0 else (if p(s[0].key) then s[0].views else 0) + ViewsWhere(s[1..], p)
  }

  /** The selector of one key. */
  function Is(k: Key): Key -> bool
  {
    j => j == k
  }

  /** original_title of the first row with key k, if any. */
  function FirstOriginal(s: seq<Agg>, k: Key): Option<string>
  {
    if s == [] then None
    else if s[0].key == k then Some(s[0].original)
    else FirstOriginal(s[1..], k)
  }

  lemma {:induction false} UpsertViews(acc: seq<Agg>, r: Agg, p: Key -> bool)
    ensures ViewsWhere(Upsert(acc, r), p) == ViewsWhere(acc, p) + (if p(r.key) then r.views else 0)
  {
    if acc != [] {
      var u := Upsert(acc, r);
      if r.key == acc[0].key {
        assert u[1..] == acc[1..];
      } else if KeyLess(r.key, acc[0].key) {
        assert u[1..] == acc;
      } else {
        UpsertViews(acc[1..], r, p);
        assert u[1..] == Upsert(acc[1..], r);
      }
    }
  }

  lemma {:induction false} AppendViews(a: seq<Agg>, b: seq<Agg>, p: Key -> bool)
    ensures ViewsWhere(a + b, p) == ViewsWhere(a, p) + ViewsWhere(b, p)
  {
    if a == [] {
      assert a + b == b;
    } else {
      AppendViews(a[1..], b, p);
      assert (a + b)[1..] == a[1..] + b;
    }
  }

  /** Grouping keeps the views of every set of keys: the sum aggregation. */
  lemma {:induction false} AggregateViews(rows: seq<Agg>, p: Key -> bool)
    ensures ViewsWhere(Aggregate(rows), p) == ViewsWhere(rows, p)
  {
    if rows != [] {
      var init, last := rows[..|rows| - 1], rows[|rows| - 1];
      AggregateViews(init, p);
      UpsertViews(Aggregate(init), last, p);
      AppendViews(init, [last], p);
      assert init + [last] == rows;
    }
  }

  /** In rows with one row per key, the views of a key are that row's views. */
  lemma {:induction false} KeyViewsOfSorted(s: seq<Agg>, i: int)
    requires Sorted(s) && 0 <= i < |s|
    ensures ViewsWhere(s, Is(s[i].key)) == s[i].views
  {
    SortedTail(s);
    if i == 0 {
      KeyViewsAbsent(s[1..], s[0].key);
    } else {
      KeyLessIrreflexive(s[i].key);
      assert s[1..][i - 1] == s[i];
      KeyViewsOfSorted(s[1..], i - 1);
    }
  }

  lemma {:induction false} KeyViewsAbsent(s: seq<Agg>, k: Key)
    requires forall j :: j in Keys(s) ==> KeyLess(k, j)
    ensures ViewsWhere(s, Is(k)) == 0 && FirstOriginal(s, k) == None
  {
    if s != [] {
      KeysCons(s);
      KeyLessIrreflexive(k);
      KeyViewsAbsent(s[1..], k);
    }
  }

  lemma {:induction false} AppendFirst(a: seq<Agg>, b: seq<Agg>, k: Key)
    ensures FirstOriginal(a + b, k) == if FirstOriginal(a, k).Some? then FirstOriginal(a, k) else FirstOriginal(b, k)
  {
    if a == [] {
      assert a + b == b;
    } else {
      assert (a + b)[1..] == a[1..] + b;
      if a[0].key != k {
        AppendFirst(a[1..], b, k);
      }
    }
  }

  lemma {:induction false} UpsertFirst(acc: seq<Agg>, r: Agg, k: Key)
    requires Sorted(acc)
    ensures FirstOriginal(Upsert(acc, r), k) == FirstOriginal(acc + [r], k)
  {
    AppendFirst(acc, [r], k);
    if acc != [] {
      var u := Upsert(acc, r);
      SortedTail(acc);
      AppendFirst(acc[1..], [r], k);
      if r.key == acc[0].key {
        assert u[1..] == acc[1..];
      } else if KeyLess(r.key, acc[0].key) {
        assert u[1..] == acc;
        forall j | j in Keys(acc) ensures KeyLess(r.key, j) {
          KeysCons(acc);
          if j != acc[0].key {
            KeyLessTransitive(r.key, acc[0].key, j);
          }
        }
        KeyViewsAbsent(acc, r.key);
      } else {
        UpsertFirst(acc[1..], r, k);
        assert u[1..] == Upsert(acc[1..], r);
      }
    }
  }

  /** Each grouped row keeps the original title of the first input row with
      its key: the pandas aggregation `first`. */
  lemma {:induction false} AggregateFirst(rows: seq<Agg>, k: Key)
    ensures FirstOriginal(Aggregate(rows), k) == FirstOriginal(rows, k)
  {
    if rows != [] {
      var init, last := rows[..|rows| - 1], rows[|rows| - 1];
      AggregateFirst(init, k);
      AggregateSortedKeys(init);
      UpsertFirst(Aggregate(init), last, k);
      AppendFirst(Aggregate(init), [last], k);
      AppendFirst(init, [last], k);
      assert init + [last] == rows;
    }
  }

  /** What FirstOriginal finds is the original title of a row with key k that
      no earlier row shares its key with. */
  lemma {:induction false} FirstOriginalIndex(s: seq<Agg>, k: Key) returns (j: int)
    requires FirstOriginal(s, k).Some?
    ensures 0 <= j < |s| && s[j].key == k && Some(s[j].original) == FirstOriginal(s, k)
    ensures forall i :: 0 <= i < j ==> s[i].key != k
  {
    if s[0].key == k {
      j := 0;
    } else {
      var j' := FirstOriginalIndex(s[1..], k);
      j := j' + 1;
      assert s[j] == s[1..][j'];
      forall i | 0 <= i < j ensures s[i].key != k {
        if i > 0 { assert s[i] == s[1..][i - 1]; }
      }
    }
  }

  lemma {:induction false} FirstOriginalOfSorted(s: seq<Agg>, i: int)
    requires Sorted(s) && 0 <= i < |s|
    ensures FirstOriginal(s, s[i].key) == Some(s[i].original)
  {
    SortedTail(s);
    if i > 0 {
      KeyLessIrreflexive(s[i].key);
      assert s[1..][i - 1] == s[i];
      FirstOriginalOfSorted(s[1..], i - 1);
    }
  }

  // ---------------------------------------------------------------------
  // The two groupbys of transform_data.

  /** A row of the extracted frame: day (as a day number), language, title
      and views_total. */
  datatype RawRow = RawRow(day: int, language: string, title: string, views: int)

  function TitleKey(r: RawRow): Key
  {
    Key(r.language, r.title, r.day)
  }

  /** The page a key belongs to once its title is normalised. */
  function PageKey(k: Key): Key
  {
    Key(k.language, NormalizeTitle(k.name), k.day)
  }

  /** The selector of the keys that rename maps to k. */
  function MapsTo(rename: Key -> Key, k: Key): Key -> bool
  {
    j => rename(j) == k
  }

  /** The extracted rows keyed by (language, title, day); original_title is the title. */
  function TitleRows(raw: seq<RawRow>): seq<Agg>
  {
    seq(|raw|, i requires 0 <= i < |raw| => Agg(TitleKey(raw[i]), raw[i].views, raw[i].title))
  }

  /** The first groupby and sort: one row per (language, title, day). */
  function ByTitle(raw: seq<RawRow>): seq<Agg>
  {
    Aggregate(TitleRows(raw))
  }

  /** Every key renamed, views and original_title kept: with PageKey,
      title_normalized takes the place of the title. */
  function Renamed(s: seq<Agg>, rename: Key -> Key): seq<Agg>
  {
    seq(|s|, i requires 0 <= i < |s| => Agg(rename(s[i].key), s[i].views, s[i].original))
  }

  /** The second groupby and sort: one row per (language, title_normalized, day). */
  function ByPage(raw: seq<RawRow>): seq<Agg>
  {
    Aggregate(Renamed(ByTitle(raw), PageKey))
  }

  /** The views of the extracted rows whose title key satisfies p. */
  function RawViewsWhere(raw: seq<RawRow>, p: Key -> bool): int
  {
    if raw == [] then 0
    else (if p(TitleKey(raw[0])) then raw[0].views else 0) + RawViewsWhere(raw[1..], p)
  }

  lemma TitleRowsTail(raw: seq<RawRow>)
    requires raw != []
    ensures TitleRows(raw)[1..] == TitleRows(raw[1..])
  {
  }

  lemma RenamedTail(s: seq<Agg>, rename: Key -> Key)
    requires s != []
    ensures Renamed(s, rename)[1..] == Renamed(s[1..], rename)
  {
  }

  lemma {:induction false} TitleRowsViews(raw: seq<RawRow>, p: Key -> bool)
    ensures ViewsWhere(TitleRows(raw), p) == RawViewsWhere(raw, p)
  {
    if raw != [] {
      TitleRowsViews(raw[1..], p);
      TitleRowsTail(raw);
    }
  }

  lemma {:induction false} RenamedViews(s: seq<Agg>, rename: Key -> Key, k: Key)
    ensures ViewsWhere(Renamed(s, rename), Is(k)) == ViewsWhere(s, MapsTo(rename, k))
  {
    if s != [] {
      RenamedViews(s[1..], rename, k);
      RenamedTail(s, rename);
    }
  }

  lemma {:induction false} RenamedFirst(s: seq<Agg>, rename: Key -> Key, k: Key) returns (j: int)
    requires FirstOriginal(Renamed(s, rename), k).Some?
    ensures 0 <= j < |s| && rename(s[j].key) == k
    ensures FirstOriginal(Renamed(s, rename), k) == Some(s[j].original)
    ensures forall i :: 0 <= i < j ==> rename(s[i].key) != k
  {
    j := FirstOriginalIndex(Renamed(s, rename), k);
    forall i | 0 <= i < j ensures rename(s[i].key) != k {
      assert Renamed(s, rename)[i].key != k;
    }
  }

  lemma RenamedKeys(s: seq<Agg>, rename: Key -> Key)
    ensures Keys(Renamed(s, rename)) == set k | k in Keys(s) :: rename(k)
  {
    var r := Renamed(s, rename);
    forall k | k in Keys(r) ensures k in set x | x in Keys(s) :: rename(x) {
      var i :| 0 <= i < |r| && r[i].key == k;
      assert s[i].key in Keys(s);
    }
    forall x | x in Keys(s) ensures rename(x) in Keys(r) {
      var i :| 0 <= i < |s| && s[i].key == x;
      assert r[i].key == rename(x);
    }
  }

  lemma TitleRowsKeys(raw: seq<RawRow>)
    ensures Keys(TitleRows(raw)) == set r | r in raw :: TitleKey(r)
  {
    var t := TitleRows(raw);
    forall k | k in Keys(t) ensures k in set r | r in raw :: TitleKey(r) {
      var i :| 0 <= i < |t| && t[i].key == k;
      assert raw[i] in raw;
    }
    forall r | r in raw ensures TitleKey(r) in Keys(t) {
      var i :| 0 <= i < |raw| && raw[i] == r;
      assert t[i].key == TitleKey(r);
    }
  }

  /** The grouped pages are in (language, title_normalized, day) order, one
      row each, and they are exactly the pages of the extracted rows. */
  lemma ByPageKeys(raw: seq<RawRow>)
    ensures Sorted(ByPage(raw))
    ensures Keys(ByPage(raw)) == set r | r in raw :: PageKey(TitleKey(r))
  {
    var t := ByTitle(raw);
    AggregateSortedKeys(TitleRows(raw));
    AggregateSortedKeys(Renamed(t, PageKey));
    RenamedKeys(t, PageKey);
    TitleRowsKeys(raw);
  }

  /** The views of a page on a day are the sum of the views of every extracted
      row whose normalised title, language and day are the page's. */
  lemma ByPageViews(raw: seq<RawRow>, i: int)
    requires 0 <= i < |ByPage(raw)|
    ensures ByPage(raw)[i].views == RawViewsWhere(raw, MapsTo(PageKey, ByPage(raw)[i].key))
  {
    var s, t := ByPage(raw), ByTitle(raw);
    var k := s[i].key;
    AggregateSortedKeys(Renamed(t, PageKey));
    KeyViewsOfSorted(s, i);
    AggregateViews(Renamed(t, PageKey), Is(k));
    RenamedViews(t, PageKey, k);
    AggregateViews(TitleRows(raw), MapsTo(PageKey, k));
    TitleRowsViews(raw, MapsTo(PageKey, k));
  }

  /** In rows grouped by title, original_title is the title of some extracted
      row with that key. */
  lemma ByTitleOriginal(raw: seq<RawRow>, j: int) returns (m: int)
    requires 0 <= j < |ByTitle(raw)|
    ensures 0 <= m < |raw| && TitleKey(raw[m]) == ByTitle(raw)[j].key
    ensures ByTitle(raw)[j].original == raw[m].title
  {
    var t := ByTitle(raw);
    AggregateSortedKeys(TitleRows(raw));
    FirstOriginalOfSorted(t, j);
    AggregateFirst(TitleRows(raw), t[j].key);
    m := FirstOriginalIndex(TitleRows(raw), t[j].key);
  }

  /** Two keys in order on the same language and day differ in their titles,
      in the same order. */
  lemma SameDayOrder(x: Key, y: Key)
    requires KeyLess(x, y) && x.language == y.language && x.day == y.day
    ensures StrLess(x.name, y.name)
  {
    StrLessIrreflexive(x.language);
  }

  /** The original_title of a grouped page is the least title (in Python's
      string order) among the extracted rows that fall on the page: the row
      the sort by title puts first, taken by the aggregation `first`. */
  lemma ByPageOriginal(raw: seq<RawRow>, i: int) returns (m: int)
    requires 0 <= i < |ByPage(raw)|
    ensures 0 <= m < |raw| && PageKey(TitleKey(raw[m])) == ByPage(raw)[i].key
    ensures ByPage(raw)[i].original == raw[m].title
    ensures forall n :: 0 <= n < |raw| && PageKey(TitleKey(raw[n])) == ByPage(raw)[i].key ==>
              raw[n].title == raw[m].title || StrLess(raw[m].title, raw[n].title)
  {
    var s, t := ByPage(raw), ByTitle(raw);
    var k := s[i].key;
    AggregateSortedKeys(Renamed(t, PageKey));
    AggregateSortedKeys(TitleRows(raw));
    TitleRowsKeys(raw);
    FirstOriginalOfSorted(s, i);
    AggregateFirst(Renamed(t, PageKey), k);
    var j := RenamedFirst(t, PageKey, k);
    m := ByTitleOriginal(raw, j);
    forall n | 0 <= n < |raw| && PageKey(TitleKey(raw[n])) == k
      ensures raw[n].title == raw[m].title || StrLess(raw[m].title, raw[n].title)
    {
      assert raw[n] in raw;
      assert TitleKey(raw[n]) in Keys(t);
      var q :| 0 <= q < |t| && t[q].key == TitleKey(raw[n]);
      if q != j {
        assert j < q;
        SameDayOrder(t[j].key, t[q].key);
      }
    }
  }

  // ---------------------------------------------------------------------
  // The per-page metrics and the output frame.

  /** The views of the rows of s on page (language, name), in order: the
      series groupby(['language', 'title_normalized']) hands on. */
  function PageSeries(s: seq<Agg>, language: string, name: string): seq<int>
  {
    if s == [] then []
    else
      var last := s[|s| - 1];
      PageSeries(s[..|s| - 1], language, name)
        + (if last.key.language == language && last.key.name == name then [last.views] else [])
  }

  /** The series of row i's page up to and including row i: what rolling and
      shift see when they reach row i. */
  function History(s: seq<Agg>, i: int): (h: seq<int>)
    requires 0 <= i < |s|
    ensures h != [] && h[|h| - 1] == s[i].views
  {
    assert s[..i + 1][..i] == s[..i];
    PageSeries(s[..i + 1], s[i].key.language, s[i].key.name)
  }

  /** One row of the result of transform_data. */
  datatype PageDay = PageDay(
    day: int, language: string, titleNormalized: string, views: int,
    category: Category, originalTitle: string,
    avg7: real, avg28: real, variation: real, trend: TrendScore)

  function Metrics(s: seq<Agg>, i: int): PageDay
    requires 0 <= i < |s|
  {
    var h := History(s, i);
    var k := |h| - 1;
    PageDay(s[i].key.day, s[i].key.language, s[i].key.name, s[i].views,
            Classify(s[i].original), s[i].original,
            RollingMean(h, k, ShortWindow), RollingMean(h, k, LongWindow),
            Variation(h, k), Trend(h, k))
  }

  /** transform_data: an empty frame is returned as it is; otherwise one row
      per page and day, with its category, original title and metrics. */
  function TransformData(raw: seq<RawRow>): seq<PageDay>
  {
    if raw == [] then []
    else
      var s := ByPage(raw);
      seq(|s|, i requires 0 <= i < |s| => Metrics(s, i))
  }

  function PageDayKey(d: PageDay): Key
  {
    Key(d.language, d.titleNormalized, d.day)
  }

  lemma TransformRows(raw: seq<RawRow>)
    ensures |TransformData(raw)| == |ByPage(raw)|
    ensures forall i :: 0 <= i < |ByPage(raw)| ==> TransformData(raw)[i] == Metrics(ByPage(raw), i)
  {
  }

  /** The result is empty exactly when the input is; it is ordered by
      (language, title_normalized, day) with no page twice on a day, and its
      pages are exactly those of the input rows. */
  lemma TransformPages(raw: seq<RawRow>)
    ensures TransformData(raw) == [] <==> raw == []
    ensures forall i, j :: 0 <= i < j < |TransformData(raw)| ==>
              KeyLess(PageDayKey(TransformData(raw)[i]), PageDayKey(TransformData(raw)[j]))
    ensures (set d | d in TransformData(raw) :: PageDayKey(d)) == set r | r in raw :: PageKey(TitleKey(r))
  {
    ByPageKeys(raw);
    TransformRows(raw);
    TransformKeys(raw);
    if raw != [] {
      assert PageKey(TitleKey(raw[0])) in Keys(ByPage(raw));
    }
  }

  lemma TransformKeys(raw: seq<RawRow>)
    ensures (set d | d in TransformData(raw) :: PageDayKey(d)) == Keys(ByPage(raw))
  {
    var out, s := TransformData(raw), ByPage(raw);
    TransformRows(raw);
    forall d | d in out ensures PageDayKey(d) in Keys(s) {
      var i :| 0 <= i < |out| && out[i] == d;
      assert PageDayKey(d) == s[i].key;
    }
    forall k | k in Keys(s) ensures k in set d | d in out :: PageDayKey(d) {
      var i :| 0 <= i < |s| && s[i].key == k;
      assert out[i] in out;
    }
  }

  /** Each result row: its views are the sum over the input rows on its page
      and day; its original title is the least title among those rows, it
      normalises to title_normalized, and the category is that title's. */
  lemma TransformRow(raw: seq<RawRow>, i: int) returns (m: int)
    requires 0 <= i < |TransformData(raw)|
    ensures var d := TransformData(raw)[i];
      && d.views == RawViewsWhere(raw, MapsTo(PageKey, PageDayKey(d)))
      && 0 <= m < |raw| && raw[m].title == d.originalTitle
      && raw[m].language == d.language && raw[m].day == d.day
      && NormalizeTitle(d.originalTitle) == d.titleNormalized
      && d.category == Classify(d.originalTitle)
      && forall n :: 0 <= n < |raw| && PageKey(TitleKey(raw[n])) == PageDayKey(d) ==>
           raw[n].title == d.originalTitle || StrLess(d.originalTitle, raw[n].title)
  {
    TransformRows(raw);
    ByPageViews(raw, i);
    m := ByPageOriginal(raw, i);
  }

  /** Two keys of one page (language and title), whatever their days. */
  predicate SamePage(x: Key, y: Key)
  {
    x.language == y.language && x.name == y.name
  }

  /** A row ordered between two rows of one page is on that page. */
  lemma BetweenSamePage(x: Key, y: Key, z: Key)
    requires KeyLess(x, y) && KeyLess(y, z) && SamePage(x, z)
    ensures SamePage(x, y)
  {
    StrLessIrreflexive(x.language);
    StrLessIrreflexive(x.name);
    if StrLess(x.language, y.language) && StrLess(y.language, z.language) {
      StrLessTransitive(x.language, y.language, z.language);
    }
    if x.language == y.language && StrLess(x.name, y.name) && StrLess(y.name, z.name) {
      StrLessTransitive(x.name, y.name, z.name);
    }
  }

  lemma {:induction false} PageSeriesNone(s: seq<Agg>, language: string, name: string)
    requires forall j :: 0 <= j < |s| ==> !(s[j].key.language == language && s[j].key.name == name)
    ensures PageSeries(s, language, name) == []
  {
    if s != [] {
      PageSeriesNone(s[..|s| - 1], language, name);
    }
  }

  lemma HistoryStep(s: seq<Agg>, i: int)
    requires 0 < i < |s| && SamePage(s[i - 1].key, s[i].key)
    ensures History(s, i) == History(s, i - 1) + [s[i].views]
  {
    assert s[..i + 1][..i] == s[..i];
  }

  /** The views column of grouped rows and of result rows. */
  const AggViews: Agg -> int := (x: Agg) => x.views
  const RowViews: PageDay -> int := (d: PageDay) => d.views

  /** The views of rows a to b - 1. */
  function ViewsOf<T>(s: seq<T>, views: T -> int, a: int, b: int): (v: seq<int>)
    requires 0 <= a <= b <= |s|
    ensures |v| == b - a && forall j :: 0 <= j < b - a ==> v[j] == views(s[a + j])
  {
    seq(b - a, j requires 0 <= j < b - a => views(s[a + j]))
  }

  /** In rows ordered by page and day, the series row i's metrics are computed
      on is the views of the run of rows of its page that ends at row i. */
  lemma {:induction false} HistoryRun(s: seq<Agg>, i: int) returns (start: int)
    requires Sorted(s) && 0 <= i < |s|
    ensures 0 <= start <= i
    ensures forall j :: start <= j <= i ==> SamePage(s[j].key, s[i].key)
    ensures start == 0 || !SamePage(s[start - 1].key, s[i].key)
    ensures History(s, i) == ViewsOf(s, AggViews, start, i + 1)
  {
    if i > 0 && SamePage(s[i - 1].key, s[i].key) {
      start := HistoryRun(s, i - 1);
      HistoryStep(s, i);
      ViewsOfSnoc(s, start, i);
    } else {
      start := i;
      HistoryFirst(s, i);
      assert ViewsOf(s, AggViews, i, i + 1) == [s[i].views];
    }
  }

  lemma ViewsOfSnoc(s: seq<Agg>, a: int, b: int)
    requires 0 <= a <= b < |s|
    ensures ViewsOf(s, AggViews, a, b + 1) == ViewsOf(s, AggViews, a, b) + [s[b].views]
  {
  }

  /** The first row of a page in order has no earlier row on the page. */
  lemma HistoryFirst(s: seq<Agg>, i: int)
    requires Sorted(s) && 0 <= i < |s|
    requires i == 0 || !SamePage(s[i - 1].key, s[i].key)
    ensures History(s, i) == [s[i].views]
  {
    forall j | 0 <= j < i ensures !SamePage(s[j].key, s[i].key) {
      if SamePage(s[j].key, s[i].key) && j < i - 1 {
        BetweenSamePage(s[j].key, s[i - 1].key, s[i].key);
      }
    }
    PageSeriesNone(s[..i], s[i].key.language, s[i].key.name);
    assert s[..i + 1][..i] == s[..i];
  }

  /** The metrics of a result row are those of the views of its page's rows
      of the result up to it: the rows from start to i share language and
      title_normalized, the row before start (if any) does not. */
  lemma TransformMetrics(raw: seq<RawRow>, i: int) returns (start: int)
    requires 0 <= i < |TransformData(raw)|
    ensures var out := TransformData(raw);
      && 0 <= start <= i
      && (forall j :: start <= j <= i ==>
            out[j].language == out[i].language && out[j].titleNormalized == out[i].titleNormalized)
      && (start == 0 || !SamePage(PageDayKey(out[start - 1]), PageDayKey(out[i])))
      && var h := ViewsOf(out, RowViews, start, i + 1);
         && out[i].avg7 == RollingMean(h, i - start, ShortWindow)
         && out[i].avg28 == RollingMean(h, i - start, LongWindow)
         && out[i].variation == Variation(h, i - start)
         && out[i].trend == Trend(h, i - start)
  {
    var out, s := TransformData(raw), ByPage(raw);
    TransformRowFields(raw);
    ByPageKeys(raw);
    MetricsAt(s, i);
    start := RunMetrics(s, out, i);
  }

  /** TransformMetrics for any rows that keep the keys and views of sorted
      aggregates, row i holding the metrics of aggregate i. */
  lemma RunMetrics(s: seq<Agg>, out: seq<PageDay>, i: int) returns (start: int)
    requires Sorted(s) && |out| == |s| && 0 <= i < |s|
    requires forall j :: 0 <= j < |s| ==> PageDayKey(out[j]) == s[j].key && out[j].views == s[j].views
    requires var h := History(s, i);
      && out[i].avg7 == RollingMean(h, |h| - 1, ShortWindow)
      && out[i].avg28 == RollingMean(h, |h| - 1, LongWindow)
      && out[i].variation == Variation(h, |h| - 1)
      && out[i].trend == Trend(h, |h| - 1)
    ensures && 0 <= start <= i
      && (forall j :: start <= j <= i ==>
            out[j].language == out[i].language && out[j].titleNormalized == out[i].titleNormalized)
      && (start == 0 || !SamePage(PageDayKey(out[start - 1]), PageDayKey(out[i])))
      && var h := ViewsOf(out, RowViews, start, i + 1);
         && out[i].avg7 == RollingMean(h, i - start, ShortWindow)
         && out[i].avg28 == RollingMean(h, i - start, LongWindow)
         && out[i].variation == Variation(h, i - start)
         && out[i].trend == Trend(h, i - start)
  {
    start := HistoryRun(s, i);
    OutViews(out, s, start, i + 1);
  }

  /** Each result row keeps the key and the views of its row of ByPage. */
  lemma TransformRowFields(raw: seq<RawRow>)
    ensures |TransformData(raw)| == |ByPage(raw)|
    ensures forall j :: 0 <= j < |ByPage(raw)| ==>
      PageDayKey(TransformData(raw)[j]) == ByPage(raw)[j].key && TransformData(raw)[j].views == ByPage(raw)[j].views
    ensures forall j :: 0 <= j < |ByPage(raw)| ==> TransformData(raw)[j] == Metrics(ByPage(raw), j)
  {
    TransformRows(raw);
  }

  /** The metrics of row i are computed on History(s, i), whose last element is row i. */
  lemma MetricsAt(s: seq<Agg>, i: int)
    requires 0 <= i < |s|
    ensures var h := History(s, i);
      && Metrics(s, i).avg7 == RollingMean(h, |h| - 1, ShortWindow)
      && Metrics(s, i).avg28 == RollingMean(h, |h| - 1, LongWindow)
      && Metrics(s, i).variation == Variation(h, |h| - 1)
      && Metrics(s, i).trend == Trend(h, |h| - 1)
  {
  }

  lemma OutViews(out: seq<PageDay>, s: seq<Agg>, a: int, b: int)
    requires 0 <= a <= b <= |s| == |out|
    requires forall j :: 0 <= j < |s| ==> out[j].views == s[j].views
    ensures ViewsOf(out, RowViews, a, b) == ViewsOf(s, AggViews, a, b)
  {
  }

  lemma SamePageDayOrder(x: Key, y: Key)
    requires KeyLess(x, y) && SamePage(x, y)
    ensures x.day < y.day
  {
    StrLessIrreflexive(x.language);
    StrLessIrreflexive(x.name);
  }

  /** The first row of a page: both means are its views, and the variation
      and the trend are 0. */
  lemma TransformFirstDay(raw: seq<RawRow>, i: int)
    requires 0 <= i < |TransformData(raw)|
    requires i == 0 || !SamePage(PageDayKey(TransformData(raw)[i - 1]), PageDayKey(TransformData(raw)[i]))
    ensures var d := TransformData(raw)[i];
      d.avg7 == d.views as real && d.avg28 == d.views as real && d.variation == 0.0 && d.trend == ZeroScore
  {
    var out := TransformData(raw);
    var start := TransformMetrics(raw, i);
    var h := ViewsOf(out, RowViews, start, i + 1);
    assert start == i;
    FirstRowMean(h, ShortWindow);
    FirstRowMean(h, LongWindow);
    TrendOfConstant(h, 0);
  }

  /** d's variation is the change from p's views to d's, in percent: applied
      to p's views it gives d's; 0 when p has no views. */
  predicate VariationFrom(p: PageDay, d: PageDay)
  {
    && (p.views == 0 ==> d.variation == 0.0)
    && (p.views != 0 ==> p.views as real * (1.0 + d.variation / 100.0) == d.views as real)
  }

  /** A later row of a page: it is a later day, and its variation is the
      change from the previous row's views, in percent (0 after 0 views). */
  lemma TransformNextDay(raw: seq<RawRow>, i: int)
    requires 0 < i < |TransformData(raw)|
    requires SamePage(PageDayKey(TransformData(raw)[i - 1]), PageDayKey(TransformData(raw)[i]))
    ensures var p, d := TransformData(raw)[i - 1], TransformData(raw)[i];
      p.day < d.day && VariationFrom(p, d)
  {
    var s := ByPage(raw);
    TransformRows(raw);
    ByPageKeys(raw);
    MetricsKey(s, i - 1);
    MetricsKey(s, i);
    MetricsNextDay(s, i);
  }

  lemma MetricsKey(s: seq<Agg>, i: int)
    requires 0 <= i < |s|
    ensures PageDayKey(Metrics(s, i)) == s[i].key && Metrics(s, i).views == s[i].views
  {
  }

  lemma MetricsNextDay(s: seq<Agg>, i: int)
    requires Sorted(s) && 0 < i < |s| && SamePage(s[i - 1].key, s[i].key)
    ensures var p, d := Metrics(s, i - 1), Metrics(s, i);
      p.day < d.day && VariationFrom(p, d)
  {
    SamePageDayOrder(s[i - 1].key, s[i].key);
    HistoryStep(s, i);
    var h := History(s, i);
    VariationStep(h, Metrics(s, i - 1), Metrics(s, i));
  }

  lemma VariationStep(h: seq<int>, p: PageDay, d: PageDay)
    requires |h| >= 2 && h[|h| - 2] == p.views && h[|h| - 1] == d.views
    requires d.variation == Variation(h, |h| - 1)
    ensures VariationFrom(p, d)
  {
    if p.views != 0 {
      VariationRecoversViews(h, |h| - 1);
    }
  }

  lemma {:induction false} SortedKeysCount(s: seq<Agg>)
    requires Sorted(s)
    ensures |Keys(s)| == |s|
  {
    if s != [] {
      SortedTail(s);
      KeysCons(s);
      KeyLessIrreflexive(s[0].key);
      SortedKeysCount(s[1..]);
    }
  }

  /** The result has one row per distinct (language, title_normalized, day)
      of the input rows. */
  lemma TransformCount(raw: seq<RawRow>)
    ensures |TransformData(raw)| == |set r | r in raw :: PageKey(TitleKey(r))|
  {
    TransformRows(raw);
    ByPageKeys(raw);
    SortedKeysCount(ByPage(raw));
  }

  /** The selector of every key. */
  function AnyKey(): Key -> bool
  {
    j => true
  }

  function TotalViews(out: seq<PageDay>): int
  {
    if out == [] then 0 else out[0].views + TotalViews(out[1..])
  }

  lemma {:induction false} RenamedTotal(s: seq<Agg>, rename: Key -> Key)
    ensures ViewsWhere(Renamed(s, rename), AnyKey()) == ViewsWhere(s, AnyKey())
  {
    if s != [] {
      RenamedTotal(s[1..], rename);
      RenamedTail(s, rename);
    }
  }

  lemma {:induction false} SameViewsTotal(out: seq<PageDay>, s: seq<Agg>)
    requires |out| == |s| && forall i :: 0 <= i < |s| ==> out[i].views == s[i].views
    ensures TotalViews(out) == ViewsWhere(s, AnyKey())
  {
    if s != [] {
      SameViewsTotal(out[1..], s[1..]);
    }
  }

  /** The result holds as many views in all as the input rows. */
  lemma TransformTotal(raw: seq<RawRow>)
    ensures TotalViews(TransformData(raw)) == RawViewsWhere(raw, AnyKey())
  {
    var s, t := ByPage(raw), ByTitle(raw);
    TransformRows(raw);
    forall i | 0 <= i < |s| ensures TransformData(raw)[i].views == s[i].views {
      MetricsKey(s, i);
    }
    SameViewsTotal(TransformData(raw), s);
    AggregateViews(Renamed(t, PageKey), AnyKey());
    RenamedTotal(t, PageKey);
    AggregateViews(TitleRows(raw), AnyKey());
    TitleRowsViews(raw, AnyKey());
  }
}
