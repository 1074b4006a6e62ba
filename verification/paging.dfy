/** The pagination every listing of the three services shares:
    `const { page = 1, limit = 10 } = query`, `skip = (page - 1) * limit`,
    `take(limit)`, and `totalPages: Math.ceil(total / limit)`. */
module Paging {
  import opened Outcomes
  import opened Seqs

  const DefaultPage: int := 1
  const DefaultLimit: int := 10

  /** The `page` and `limit` query parameters, either of which may be absent. */
  datatype PageQuery = PageQuery(page: Option<int>, limit: Option<int>)

  /** Given values are positive (values below 1 are not modelled). */
  predicate ValidQuery(q: PageQuery) {
    (q.page.Some? ==> q.page.value >= 1) && (q.limit.Some? ==> q.limit.value >= 1)
  }

  function PageOf(q: PageQuery): int { q.page.GetOr(DefaultPage) }
  function LimitOf(q: PageQuery): int { q.limit.GetOr(DefaultLimit) }

  /** `(page - 1) * limit`: the number of rows before the requested page. */
  function Skip(q: PageQuery): (r: nat)
    requires ValidQuery(q)
    ensures q.page.None? ==> r == 0
    ensures r % LimitOf(q) == 0 && r / LimitOf(q) == PageOf(q) - 1
  {
    var page, limit := PageOf(q), LimitOf(q);
    assert (page - 1) * limit >= 0;
    MulDivExact(page - 1, limit);
    (page - 1) * limit
  }

  lemma MulDivExact(a: nat, b: int)
    requires b >= 1
    ensures (a * b) % b == 0 && (a * b) / b == a
  {
    var q, r := (a * b) / b, (a * b) % b;
    assert q * b + r == a * b;
    var d := a - q;
    assert d * b == r by {
      assert d * b == a * b - q * b;
    }
    if d >= 1 {
      MulMonotone(1, d, b);
    }
  }

  /** `Math.ceil(total / limit)` on non-negative integers: the least number of
      pages of `limit` rows that holds `total` rows. */
  function CeilDiv(total: nat, limit: int): (r: nat)
    requires limit >= 1
    ensures r * limit >= total
    ensures (r - 1) * limit < total || r == 0
    ensures r == 0 <==> total == 0
  {
    var q := (total + limit - 1) / limit;
    assert q * limit + (total + limit - 1) % limit == total + limit - 1;
    q
  }

  /** A listing response: one page of rows and the paging totals. */
  datatype Page<T> = Page(items: seq<T>, total: nat, page: int, limit: int, totalPages: nat)

  function Min(a: int, b: int): int { if a <= b then a else b }

  /** How many of `total` matching rows the page of `q` holds: `limit`,
      fewer on the last page, none past it. */
  function PageLength(total: nat, q: PageQuery): nat
    requires ValidQuery(q)
  {
    if Skip(q) >= total then 0 else Min(LimitOf(q), total - Skip(q))
  }

  /** The totals of page `q` of a listing of `total` rows. */
  predicate PageTotals<T>(p: Page<T>, total: nat, q: PageQuery)
    requires ValidQuery(q)
  {
    && p.total == total && p.page == PageOf(q) && p.limit == LimitOf(q)
    && p.totalPages == CeilDiv(total, LimitOf(q))
    && |p.items| == PageLength(total, q)
  }

  /** `p` is page `q` of `rows`: the totals count all of `rows`, and item
      `i` is row `skip + i`. */
  ghost predicate IsPage<T>(p: Page<T>, rows: seq<T>, q: PageQuery)
    requires ValidQuery(q)
  {
    && PageTotals(p, |rows|, q)
    && forall i :: 0 <= i < |p.items| ==> Skip(q) + i < |rows| && p.items[i] == rows[Skip(q) + i]
  }

  /** `p` is page `q` of `rows` with each row mapped through `f`. */
  ghost predicate IsMappedPage<T, U>(p: Page<U>, rows: seq<T>, f: T -> U, q: PageQuery)
    requires ValidQuery(q)
  {
    && PageTotals(p, |rows|, q)
    && forall i :: 0 <= i < |p.items| ==> Skip(q) + i < |rows| && p.items[i] == f(rows[Skip(q) + i])
  }

  /** The requested page of `rows`, which are already filtered and ordered
      by the query. */
  function Paginate<T>(rows: seq<T>, q: PageQuery): (p: Page<T>)
    requires ValidQuery(q)
    ensures p.total == |rows| && p.page == PageOf(q) && p.limit == LimitOf(q)
    ensures p.totalPages == CeilDiv(|rows|, p.limit)
    ensures |p.items| <= p.limit
    ensures |p.items| == PageLength(|rows|, q)
    ensures forall i :: 0 <= i < |p.items| ==> p.items[i] == rows[Skip(q) + i]
  {
    var skip, limit := Skip(q), LimitOf(q);
    var lo := Min(skip, |rows|);
    var hi := Min(skip + limit, |rows|);
    Page(rows[lo..hi], |rows|, PageOf(q), limit, CeilDiv(|rows|, limit))
  }

  /** Row `i` is found on page `i / limit + 1` at position `i % limit`, and
      that page is within `totalPages`. */
  lemma EveryRowIsOnItsPage<T>(rows: seq<T>, limit: int, i: nat)
    requires limit >= 1 && i < |rows|
    ensures var p := Paginate(rows, PageQuery(Some(i / limit + 1), Some(limit)));
            && i % limit < |p.items| && p.items[i % limit] == rows[i]
            && i / limit + 1 <= p.totalPages
  {
    var q := PageQuery(Some(i / limit + 1), Some(limit));
    var p := Paginate(rows, q);
    assert Skip(q) == (i / limit) * limit;
    assert Skip(q) + i % limit == i;
    var t := p.totalPages;
    if t < i / limit + 1 {
      assert t <= i / limit;
      MulMonotone(t, i / limit, limit);
      assert false;
    }
  }

  lemma MulMonotone(a: nat, b: nat, c: int)
    requires a <= b && c >= 1
    ensures a * c <= b * c
  {
  }

  /** A page after the last one is empty. */
  lemma PagesAfterTheLastAreEmpty<T>(rows: seq<T>, q: PageQuery)
    requires ValidQuery(q)
    requires PageOf(q) > CeilDiv(|rows|, LimitOf(q))
    ensures Paginate(rows, q).items == []
  {
    var t, limit := CeilDiv(|rows|, LimitOf(q)), LimitOf(q);
    MulMonotone(t, PageOf(q) - 1, limit);
  }

  /** Every page before the last one is full. */
  lemma PagesBeforeTheLastAreFull<T>(rows: seq<T>, q: PageQuery)
    requires ValidQuery(q)
    requires PageOf(q) < CeilDiv(|rows|, LimitOf(q))
    ensures |Paginate(rows, q).items| == LimitOf(q)
  {
    var t, limit := CeilDiv(|rows|, LimitOf(q)), LimitOf(q);
    MulMonotone(PageOf(q), t - 1, limit);
  }

  /** Paging keeps the newest-first order of the rows. */
  lemma PageKeepsOrder<T>(rows: seq<T>, q: PageQuery, stamp: T -> nat)
    requires ValidQuery(q) && NewestFirst(rows, stamp)
    ensures NewestFirst(Paginate(rows, q).items, stamp)
  {
    var skip, limit := Skip(q), LimitOf(q);
    SliceKeepsOrder(rows, Min(skip, |rows|), Min(skip + limit, |rows|), stamp);
  }

  /** Item `i` of a page is row `skip + i`. */
  lemma {:induction false} PageItem<T>(rows: seq<T>, q: PageQuery, i: nat)
    requires ValidQuery(q) && i < |Paginate(rows, q).items|
    ensures Skip(q) + i < |rows| && Paginate(rows, q).items[i] == rows[Skip(q) + i]
  {
  }

  /** Item `i` of a page of mapped rows is the image of row `skip + i`. */
  lemma {:induction false} MappedPageItem<T, U>(rows: seq<T>, f: T -> U, q: PageQuery, i: nat)
    requires ValidQuery(q) && i < |Paginate(MapSeq(rows, f), q).items|
    ensures Skip(q) + i < |rows| && Paginate(MapSeq(rows, f), q).items[i] == f(rows[Skip(q) + i])
  {
    PageItem(MapSeq(rows, f), q, i);
    MapSeqAt(rows, f, Skip(q) + i);
  }

  /** The page `q` selects among the rows with key `k` of an
      insertion-ordered table, read latest first and mapped through `f`. */
  function LatestPage<T, K(==), U>(s: seq<T>, key: T -> K, k: K, f: T -> U, q: PageQuery): (p: Page<U>)
    requires ValidQuery(q)
    ensures IsMappedPage(p, LatestFirst(s, key, k), f, q)
    ensures p.total == CountKey(s, key, k)
  {
    MappedPageItems(LatestFirst(s, key, k), f, q);
    Paginate(MapSeq(LatestFirst(s, key, k), f), q)
  }

  lemma {:induction false} MappedPageItems<T, U>(rows: seq<T>, f: T -> U, q: PageQuery)
    requires ValidQuery(q)
    ensures var p := Paginate(MapSeq(rows, f), q);
            forall i :: 0 <= i < |p.items| ==> Skip(q) + i < |rows| && p.items[i] == f(rows[Skip(q) + i])
  {
    var p := Paginate(MapSeq(rows, f), q);
    forall i | 0 <= i < |p.items|
      ensures Skip(q) + i < |rows| && p.items[i] == f(rows[Skip(q) + i])
    {
      MappedPageItem(rows, f, q, i);
    }
  }

  /** The page `q` selects among the rows with key `k`, in the table's order
      (`where: { column: k }` with `skip` and `take`). */
  function WherePage<T, K(==)>(s: seq<T>, key: T -> K, k: K, q: PageQuery): (p: Page<T>)
    requires ValidQuery(q)
    ensures IsPage(p, Where(s, key, k), q)
    ensures p.total == CountKey(s, key, k)
  {
    Paginate(Where(s, key, k), q)
  }

  /** A page of the rows with key `k` keeps newest-first order. */
  lemma {:induction false} WherePageKeepsOrder<T, K>(s: seq<T>, key: T -> K, k: K, q: PageQuery, stamp: T -> nat)
    requires ValidQuery(q) && NewestFirst(s, stamp)
    ensures NewestFirst(WherePage(s, key, k, q).items, stamp)
  {
    WhereKeepsOrder(s, key, k, stamp);
    PageKeepsOrder(Where(s, key, k), q, stamp);
  }

  /** The `j`-th row with key `k` is on page `j / limit + 1`. */
  lemma {:induction false} MatchIsOnItsPage<T, K>(rows: seq<T>, key: T -> K, k: K, j: nat, limit: int)
    requires j < |Where(rows, key, k)| && limit >= 1
    ensures Where(rows, key, k)[j] in WherePage(rows, key, k, PageQuery(Some(j / limit + 1), Some(limit))).items
  {
    EveryRowIsOnItsPage(Where(rows, key, k), limit, j);
  }

  lemma {:induction false} PageNumberPositive(j: nat, limit: int)
    requires limit >= 1
    ensures j / limit + 1 >= 1
  {
  }

  /** Every row with key `k` is on some page of the filtered listing,
      whatever the page size. */
  lemma {:induction false} EveryMatchIsListed<T, K>(rows: seq<T>, key: T -> K, k: K, i: nat, limit: int)
    requires i < |rows| && key(rows[i]) == k && limit >= 1
    ensures exists page :: page >= 1 && rows[i] in WherePage(rows, key, k, PageQuery(Some(page), Some(limit))).items
  {
    var m := Matches(rows, key, k);
    var j :| 0 <= j < |m| && m[j] == i;
    assert Where(rows, key, k)[j] == rows[i];
    var page := j / limit + 1;
    PageNumberPositive(j, limit);
    MatchIsOnItsPage(rows, key, k, j, limit);
    assert page >= 1 && rows[i] in WherePage(rows, key, k, PageQuery(Some(page), Some(limit))).items;
  }
}
