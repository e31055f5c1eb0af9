/** The arithmetic of the "Show more" pagination: which slice of the current
    matches one page adds, what the button then says, and what the list holds
    after a number of pages. */
module Pagination {

  function Min(a: int, b: int): int {
    if a <= b then a else b
  }

  /** Array.prototype.slice(start, end) for non-negative bounds: both bounds
      are cut back to the length, and a start at or past the end gives the
      empty slice. */
  function Slice<T>(s: seq<T>, start: nat, end: nat): (r: seq<T>)
    ensures |r| == if start < Min(end, |s|) then Min(end, |s|) - start else 0
    ensures forall k :: 0 <= k < |r| ==> r[k] == s[start + k]
  {
    var hi := Min(end, |s|);
    if start < hi then s[start..hi] else []
  }

  /** The number in the "Show more (n)" label: the books not yet shown, and 0
      once the counter has reached or passed the end. */
  function ShowMoreCount(total: int, displayed: int): (n: nat)
    ensures n == 0 <==> total - displayed <= 0
    ensures n > 0 ==> n == total - displayed
  {
    if total - displayed <= 0 then 0 else total - displayed
  }

  /** The list after `k` pages of `pageSize` books since the last reset. */
  function Revealed<T>(m: seq<T>, pageSize: nat, k: nat): seq<T> {
    if k == 0 then []
    else Revealed(m, pageSize, k - 1) + Slice(m, (k - 1) * pageSize, (k - 1) * pageSize + pageSize)
  }

  /** One page appended to the first `n` matches gives the first `n + pageSize`
      (each cut back to the number of matches). */
  lemma AppendPage<T>(m: seq<T>, n: nat, pageSize: nat)
    ensures m[..Min(n, |m|)] + Slice(m, n, n + pageSize) == m[..Min(n + pageSize, |m|)]
  {
    var l, r := m[..Min(n, |m|)] + Slice(m, n, n + pageSize), m[..Min(n + pageSize, |m|)];
    assert |l| == |r|;
    forall k | 0 <= k < |l| ensures l[k] == r[k] {
      if k >= Min(n, |m|) {
        assert l[k] == Slice(m, n, n + pageSize)[k - n];
      }
    }
  }

  /** After `k` pages the list is exactly the first `k * pageSize` matches, or
      all of them when there are fewer. */
  lemma {:induction false} RevealedIsPrefix<T>(m: seq<T>, pageSize: nat, k: nat)
    ensures Revealed(m, pageSize, k) == m[..Min(k * pageSize, |m|)]
  {
    if k > 0 {
      RevealedIsPrefix(m, pageSize, k - 1);
      AppendPage(m, (k - 1) * pageSize, pageSize);
      assert (k - 1) * pageSize + pageSize == k * pageSize;
    }
  }

  /** Once the counter has reached the end, a page adds nothing and the
      button shows 0 and is disabled. */
  lemma PastTheEnd<T>(m: seq<T>, displayed: nat, pageSize: nat)
    requires |m| <= displayed
    ensures Slice(m, displayed, displayed + pageSize) == []
    ensures ShowMoreCount(|m|, displayed) == 0
  {
  }

  /** With a positive page size, exactly ceil(|m| / pageSize) pages show every
      match, one page fewer does not, and any further page adds nothing. */
  lemma PagesToExhaust<T>(m: seq<T>, pageSize: nat)
    requires pageSize > 0
    ensures var k := (|m| + pageSize - 1) / pageSize;
            Revealed(m, pageSize, k) == m &&
            Revealed(m, pageSize, k + 1) == m &&
            ShowMoreCount(|m|, k * pageSize) == 0 &&
            (k > 0 ==> Revealed(m, pageSize, k - 1) != m && ShowMoreCount(|m|, (k - 1) * pageSize) > 0)
  {
    var k := (|m| + pageSize - 1) / pageSize;
    var rem := (|m| + pageSize - 1) % pageSize;
    assert k * pageSize + rem == |m| + pageSize - 1;
    assert k * pageSize >= |m|;
    RevealedIsPrefix(m, pageSize, k);
    assert m[..|m|] == m;
    PastTheEnd(m, k * pageSize, pageSize);
    if k > 0 {
      assert (k - 1) * pageSize == k * pageSize - pageSize;
      RevealedIsPrefix(m, pageSize, k - 1);
      assert |Revealed(m, pageSize, k - 1)| < |m|;
    }
  }

  /** A page size of one and two matches: the first page shows the first
      book with one left, the second shows both with none left, and a third
      adds nothing. */
  lemma OneByOneScenario<T>(b0: T, b1: T)
    ensures Revealed([b0, b1], 1, 1) == [b0] && ShowMoreCount(2, 1) == 1
    ensures Revealed([b0, b1], 1, 2) == [b0, b1] && ShowMoreCount(2, 2) == 0
    ensures Slice([b0, b1], 2, 3) == []
  {
    RevealedIsPrefix([b0, b1], 1, 1);
    RevealedIsPrefix([b0, b1], 1, 2);
    assert [b0, b1][..2] == [b0, b1];
  }
}
