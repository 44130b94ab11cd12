/**
 * Page arithmetic of the transaction history: a page number and a page size
 * (both at least 1, defaulting to 1 and 10) select the rows after skipping
 * (page - 1) * limit of them, and the number of pages is ceil(total / limit).
 */
module Pagination {

  const DefaultPage: nat := 1
  const DefaultLimit: nat := 10

  function Min(a: nat, b: nat): nat {
    if a <= b then a else b
  }

  /** The rows a query returns when it skips `skip` rows and takes at most `take`. */
  function Window<T>(s: seq<T>, skip: nat, take: nat): (r: seq<T>)
    ensures |r| == if skip >= |s| then 0 else Min(take, |s| - skip)
    ensures forall i :: 0 <= i < |r| ==> r[i] == s[skip + i]
  {
    if skip >= |s| then [] else s[skip..skip + Min(take, |s| - skip)]
  }

  /** The number of rows before the first row of a page. */
  function Offset(page: nat, limit: nat): nat
    requires page >= 1
  {
    (page - 1) * limit
  }

  /** ceil(total / limit), characterised without division. */
  function TotalPages(total: nat, limit: nat): (pages: nat)
    requires limit >= 1
    ensures total <= pages * limit
    ensures pages == 0 || (pages - 1) * limit < total
  {
    (total + limit - 1) / limit
  }

  lemma MulMonotone(a: nat, b: nat, c: nat)
    requires a <= b
    ensures a * c <= b * c
  {
  }

  /** Row k of the history appears on page k / limit + 1, at position
      k % limit, and that page is one of the reported pages. */
  lemma PageHolds<T>(s: seq<T>, limit: nat, k: nat)
    requires limit >= 1 && k < |s|
    ensures var page := k / limit + 1;
            var w := Window(s, Offset(page, limit), limit);
            && page <= TotalPages(|s|, limit)
            && k % limit < |w|
            && w[k % limit] == s[k]
  {
    var page := k / limit + 1;
    assert Offset(page, limit) + k % limit == k;
    var pages := TotalPages(|s|, limit);
    if pages < page {
      MulMonotone(pages, page - 1, limit);
      assert false;
    }
  }

  /** A page past the last reported one is empty. */
  lemma PastLastPageEmpty<T>(s: seq<T>, limit: nat, page: nat)
    requires limit >= 1 && page > TotalPages(|s|, limit)
    ensures Window(s, Offset(page, limit), limit) == []
  {
    MulMonotone(TotalPages(|s|, limit), page - 1, limit);
  }
}
