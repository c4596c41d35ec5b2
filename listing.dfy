/** Filtering, ordering and pagination as the query builder provides them
    (`where`, `orderBy(... 'desc')`, `paginate(10)`). */
module Listing {
  import opened Common

  /** Rows per page of `paginate(10)`. */
  const PerPage: nat := 10

  /** `where(...)`: the rows that satisfy the condition, in table order. */
  function Where<T>(s: seq<T>, keep: T -> bool): (r: seq<T>)
    ensures forall i :: 0 <= i < |r| ==> r[i] in s && keep(r[i])
    ensures forall i :: 0 <= i < |s| && keep(s[i]) ==> s[i] in r
    ensures multiset(r) <= multiset(s)
  {
    if s == [] then []
    else
      var init, last := s[..|s| - 1], s[|s| - 1];
      assert s == init + [last];
      var rest := Where(init, keep);
      if keep(last) then rest + [last] else rest
  }

  /** Rows are in descending order of their key. */
  predicate SortedDesc<T>(s: seq<T>, key: T -> int) {
    forall i, j :: 0 <= i < j < |s| ==> key(s[i]) >= key(s[j])
  }

  /** Puts `x` in front of the first row whose key is not larger than its own. */
  function Insert<T>(x: T, s: seq<T>, key: T -> int): (r: seq<T>)
    requires SortedDesc(s, key)
    ensures |r| == |s| + 1
    ensures r[0] == x || (s != [] && r[0] == s[0])
    ensures SortedDesc(r, key)
  {
    if s == [] then [x]
    else if key(x) >= key(s[0]) then [x] + s
    else
      var rest := Insert(x, s[1..], key);
      assert s == [s[0]] + s[1..];
      assert key(s[0]) >= key(rest[0]);
      SortedCons(s[0], rest, key);
      [s[0]] + rest
  }

  /** Inserting adds exactly the one row. */
  lemma {:induction false} InsertPermutes<T>(x: T, s: seq<T>, key: T -> int)
    requires SortedDesc(s, key)
    ensures multiset(Insert(x, s, key)) == multiset(s) + multiset{x}
  {
    if s != [] && key(x) < key(s[0]) {
      assert s == [s[0]] + s[1..];
      InsertPermutes(x, s[1..], key);
    }
  }

  lemma {:induction false} SortedCons<T>(x: T, s: seq<T>, key: T -> int)
    requires SortedDesc(s, key) && s != [] && key(x) >= key(s[0])
    ensures SortedDesc([x] + s, key)
  {
    var r := [x] + s;
    forall i, j | 0 <= i < j < |r| ensures key(r[i]) >= key(r[j]) {
      if i == 0 { assert key(s[0]) >= key(s[j - 1]) || j - 1 == 0; }
    }
  }

  /** `orderBy(key, 'desc')`: the same rows, largest key first. Rows with
      equal keys keep their table order here; the database leaves it open. */
  function SortDesc<T>(s: seq<T>, key: T -> int): (r: seq<T>)
    ensures SortedDesc(r, key)
    ensures multiset(r) == multiset(s)
  {
    if s == [] then [] else
      assert s == [s[0]] + s[1..];
      InsertPermutes(s[0], SortDesc(s[1..], key), key);
      Insert(s[0], SortDesc(s[1..], key), key)
  }

  /** The page number `paginate` uses: below 1 means page 1. */
  function CurrentPage(page: int): (p: int)
    ensures p >= 1 && (page >= 1 ==> p == page) && (page < 1 ==> p == 1)
  {
    if page < 1 then 1 else page
  }

  function Offset(page: int): nat {
    (CurrentPage(page) - 1) * PerPage
  }

  /** How many of `n` rows the page holds: `PerPage`, fewer on the last
      page, none past it. */
  function PageSize(n: nat, page: int): nat {
    if n <= Offset(page) then 0 else if n - Offset(page) < PerPage then n - Offset(page) else PerPage
  }

  /** The rows of one page: at most `PerPage` rows, starting at the page's offset. */
  function Page<T>(s: seq<T>, page: int): (r: seq<T>)
    ensures |r| == PageSize(|s|, page)
    ensures forall k :: 0 <= k < |r| ==> Offset(page) + k < |s| && r[k] == s[Offset(page) + k]
  {
    var lo := Offset(page);
    if |s| <= lo then []
    else if |s| - lo < PerPage then s[lo..]
    else s[lo..lo + PerPage]
  }

  /** Every row is on exactly the page its rank says: row `k` is entry
      `k % PerPage` of page `k / PerPage + 1`, so the pages cover the listing. */
  lemma {:induction false} PageLocate<T>(s: seq<T>, k: nat)
    requires k < |s|
    ensures var p := k / PerPage + 1;
            k % PerPage < |Page(s, p)| && Page(s, p)[k % PerPage] == s[k]
  {
    var p := k / PerPage + 1;
    assert Offset(p) == k / PerPage * PerPage;
    assert Offset(p) + k % PerPage == k;
  }

  /** A row of the listing appears on some page. */
  lemma {:induction false} PageCovers<T>(s: seq<T>, x: T)
    requires x in s
    ensures exists page :: page >= 1 && x in Page(s, page)
  {
    var k :| 0 <= k < |s| && s[k] == x;
    PageLocate(s, k);
    assert Page(s, k / PerPage + 1)[k % PerPage] == x;
  }

  /** A page of a sorted listing is sorted, and holds rows of the listing only. */
  lemma {:induction false} PageOfSorted<T>(s: seq<T>, key: T -> int, page: int)
    requires SortedDesc(s, key)
    ensures SortedDesc(Page(s, page), key)
    ensures forall x :: x in Page(s, page) ==> x in s
  {
    var r := Page(s, page);
    forall i, j | 0 <= i < j < |r| ensures key(r[i]) >= key(r[j]) {
      assert r[i] == s[Offset(page) + i] && r[j] == s[Offset(page) + j];
    }
    forall x | x in r ensures x in s {
      var k :| 0 <= k < |r| && r[k] == x;
      assert s[Offset(page) + k] == x;
    }
  }

  /** Pages of a sorted listing follow each other in key order: every row of
      an earlier page has a key at least that of every row of a later one. */
  lemma {:induction false} PagesOrdered<T>(s: seq<T>, key: T -> int, p: int, q: int)
    requires SortedDesc(s, key) && CurrentPage(p) < CurrentPage(q)
    ensures forall i, j :: 0 <= i < |Page(s, p)| && 0 <= j < |Page(s, q)| ==>
              key(Page(s, p)[i]) >= key(Page(s, q)[j])
  {
    var a, b := Page(s, p), Page(s, q);
    assert Offset(q) - Offset(p) == (CurrentPage(q) - CurrentPage(p)) * PerPage;
    forall i, j | 0 <= i < |a| && 0 <= j < |b| ensures key(a[i]) >= key(b[j]) {
      assert a[i] == s[Offset(p) + i] && b[j] == s[Offset(q) + j];
      assert Offset(p) + i < Offset(q) + j;
    }
  }
}
