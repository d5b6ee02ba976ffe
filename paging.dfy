/**
 * `LIMIT ? OFFSET ?` with `offset = (page - 1) * limit`, and the pagination
 * metadata every listing reports, `totalPages: Math.ceil(total / limit)`.
 */
module Paging {

  /** `(page - 1) * limit`. */
  function Offset(page: nat, limit: nat): (o: nat)
    requires page >= 1
  {
    (page - 1) * limit
  }

  /** `LIMIT limit OFFSET offset` over an ordered result. */
  function Window<T>(s: seq<T>, offset: nat, limit: nat): (r: seq<T>)
    ensures |r| <= limit
    ensures |r| == if offset >= |s| then 0 else if |s| - offset < limit then |s| - offset else limit
    ensures forall i :: 0 <= i < |r| ==> r[i] == s[offset + i]
  {
    if offset >= |s| then []
    else if |s| - offset < limit then s[offset..]
    else s[offset..offset + limit]
  }

  /** `Math.ceil(total / limit)` for a positive integer limit. */
  function TotalPages(total: nat, limit: nat): (p: nat)
    requires limit >= 1
    ensures total == 0 ==> p == 0
    ensures total > 0 ==> (p - 1) * limit < total <= p * limit
  {
    var q := total / limit;
    if total % limit == 0 then q else q + 1
  }

  /** Every row of a listing sits on exactly the page its position says, at the slot its position says. */
  lemma RowOnItsPage<T>(s: seq<T>, limit: nat, k: nat) returns (page: nat, i: nat)
    requires limit >= 1 && k < |s|
    ensures page == k / limit + 1 && i == k % limit
    ensures i < |Window(s, Offset(page, limit), limit)|
    ensures Window(s, Offset(page, limit), limit)[i] == s[k]
  {
    page := k / limit + 1;
    i := k % limit;
    var off := Offset(page, limit);
    assert off == (k / limit) * limit;
    assert off + i == k;
  }

  /** Every row of a listing is on some page; the page and slot without the arithmetic that finds them. */
  lemma RowOnSomePage<T>(s: seq<T>, limit: nat, k: nat) returns (page: nat, i: nat)
    requires limit >= 1 && k < |s|
    ensures page >= 1
    ensures i < |Window(s, Offset(page, limit), limit)|
    ensures Window(s, Offset(page, limit), limit)[i] == s[k]
  {
    page, i := RowOnItsPage(s, limit, k);
  }

  /** The first page is a prefix of the result, and the whole result when it is short. */
  lemma WindowFromStart<T>(s: seq<T>, limit: nat)
    ensures Window(s, 0, limit) <= s
    ensures |Window(s, 0, limit)| < limit ==> Window(s, 0, limit) == s
  {
  }

  /** A window of an ordered result is ordered the same way. */
  lemma WindowOfSorted<T>(s: seq<T>, offset: nat, limit: nat, le: (T, T) -> bool)
    requires forall i, j :: 0 <= i < j < |s| ==> le(s[i], s[j])
    ensures var w := Window(s, offset, limit);
            forall i, j :: 0 <= i < j < |w| ==> le(w[i], w[j])
  {
    var w := Window(s, offset, limit);
    forall i, j | 0 <= i < j < |w|
      ensures le(w[i], w[j])
    {
      assert w[i] == s[offset + i] && w[j] == s[offset + j];
    }
  }

  /** Pages 1..totalPages are non-empty and later pages are empty. */
  lemma PagesInRangeNonEmpty<T>(s: seq<T>, limit: nat, page: nat)
    requires limit >= 1 && page >= 1
    ensures page <= TotalPages(|s|, limit) <==> Window(s, Offset(page, limit), limit) != []
  {
    var tp := TotalPages(|s|, limit);
    var off := Offset(page, limit);
    assert |Window(s, off, limit)| == 0 <==> off >= |s|;
    if page <= tp {
      MulMonotone(page - 1, tp - 1, limit);
      assert off < |s|;
    } else {
      MulMonotone(tp, page - 1, limit);
      assert off >= |s|;
    }
  }

  lemma MulMonotone(a: nat, b: nat, c: nat)
    requires a <= b
    ensures a * c <= b * c
  {
    assert b * c == a * c + (b - a) * c;
  }
}
