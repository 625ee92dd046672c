/**
 * `ArrayUtils` (js/utils.js): removing duplicates, cutting a list into chunks and
 * cutting out one page of it.
 */
module ArrayUtils {
  import Js

  predicate Distinct<T(==)>(s: seq<T>)
  {
    forall i, j :: 0 <= i < j < |s| ==> s[i] != s[j]
  }

  /**
   * `unique(array)`, that is `[...new Set(array)]`: a `Set` keeps the order in which its
   * elements were first added, so the result lists every distinct element once, at the
   * place of its first occurrence.
   */
  function Unique<T(==)>(s: seq<T>): (r: seq<T>)
    ensures Distinct(r)
    ensures forall i :: 0 <= i < |r| ==> r[i] in s
    ensures forall i :: 0 <= i < |s| ==> s[i] in r
    ensures |r| <= |s|
  {
    if s == [] then []
    else
      var init := s[..|s| - 1];
      var last := s[|s| - 1];
      var u := Unique(init);
      assert forall i :: 0 <= i < |init| ==> init[i] == s[i];
      if last in u then u else u + [last]
  }

  /** The elements of `unique(s)` come in the order of their first occurrences in `s`. */
  lemma {:induction false} UniqueFirstOccurrences<T>(s: seq<T>)
    ensures forall i, j :: 0 <= i < j < |Unique(s)| ==> Js.IndexOf(s, Unique(s)[i]) < Js.IndexOf(s, Unique(s)[j])
  {
    if s != [] {
      var init := s[..|s| - 1];
      var last := s[|s| - 1];
      UniqueFirstOccurrences(init);
      assert s == init + [last];
      FirstOccurrencesExtend(init, last, Unique(init), Unique(s));
    }
  }

  /** One more element keeps a list of first occurrences ordered, whether it is new (and goes last) or not. */
  lemma FirstOccurrencesExtend<T>(init: seq<T>, last: T, u: seq<T>, r: seq<T>)
    requires forall i, j :: 0 <= i < j < |u| ==> Js.IndexOf(init, u[i]) < Js.IndexOf(init, u[j])
    requires forall i :: 0 <= i < |u| ==> u[i] in init
    requires forall i :: 0 <= i < |init| ==> init[i] in u
    requires r == if last in u then u else u + [last]
    ensures forall i, j :: 0 <= i < j < |r| ==> Js.IndexOf(init + [last], r[i]) < Js.IndexOf(init + [last], r[j])
  {
    IndexOfExtend(init, last);
    forall i, j | 0 <= i < j < |r| ensures Js.IndexOf(init + [last], r[i]) < Js.IndexOf(init + [last], r[j]) {
      assert r[i] == u[i] && u[i] in init;
      if j < |u| {
        assert r[j] == u[j] && u[j] in init;
      } else {
        assert r[j] == last;
        assert last !in init;
      }
    }
  }

  /** Appending an element leaves the first occurrences of everything already there in place. */
  lemma IndexOfExtend<T>(s: seq<T>, x: T)
    ensures forall y :: y in s ==> Js.IndexOf(s + [x], y) == Js.IndexOf(s, y)
    ensures x !in s ==> Js.IndexOf(s + [x], x) == |s|
  {
    forall y | y in s ensures Js.IndexOf(s + [x], y) == Js.IndexOf(s, y) {
      var i := Js.IndexOf(s, y);
      assert (s + [x])[..i] == s[..i];
      FirstIndex(s + [x], y, i);
    }
    if x !in s {
      assert (s + [x])[..|s|] == s;
      FirstIndex(s + [x], x, |s|);
    }
  }

  /** The position of an occurrence with none before it is the `indexOf`. */
  lemma FirstIndex<T>(t: seq<T>, y: T, i: nat)
    requires i < |t| && t[i] == y && y !in t[..i]
    ensures Js.IndexOf(t, y) == i
  {
    assert t[i] in t;
  }

  /** A list without duplicates is its own `unique`. */
  lemma {:induction false} UniqueOfDistinct<T>(s: seq<T>)
    requires Distinct(s)
    ensures Unique(s) == s
  {
    if s != [] {
      var init := s[..|s| - 1];
      assert Distinct(init);
      UniqueOfDistinct(init);
      assert s[|s| - 1] !in init;
      assert s == init + [s[|s| - 1]];
    }
  }

  /** `unique` is idempotent. */
  lemma UniqueIdempotent<T>(s: seq<T>)
    ensures Unique(Unique(s)) == Unique(s)
  {
    UniqueOfDistinct(Unique(s));
  }

  /** The chunks laid end to end. */
  function Flatten<T>(chunks: seq<seq<T>>): seq<T>
  {
    if chunks == [] then [] else Flatten(chunks[..|chunks| - 1]) + chunks[|chunks| - 1]
  }

  lemma FlattenAppend<T>(chunks: seq<seq<T>>, next: seq<T>)
    ensures Flatten(chunks + [next]) == Flatten(chunks) + next
  {
    assert (chunks + [next])[..|chunks|] == chunks;
  }

  /**
   * `chunk(array, size)`: slices of `size` elements starting at 0, `size`, `2*size`, ...
   * as long as the start is inside the array. A size of 0 or less never advances the
   * loop, so a non-empty array needs a positive size; an empty one gives no chunks whatever the size.
   */
  method Chunk<T>(items: seq<T>, size: int) returns (chunks: seq<seq<T>>)
    requires size > 0 || items == []
    ensures Flatten(chunks) == items
    ensures chunks == [] <==> items == []
    ensures forall k :: 0 <= k < |chunks| ==> 1 <= |chunks[k]| <= size
    ensures forall k :: 0 <= k < |chunks| - 1 ==> |chunks[k]| == size
  {
    chunks := [];
    var i := 0;
    while i < |items|
      invariant Chunked(items, chunks, i, size)
      invariant size > 0 || items == []
      decreases |items| - i
    {
      var next := Js.Slice(items, i, i + size);
      assert next == items[i..Js.Min(i + size, |items|)];
      ChunkStep(items, chunks, i, size);
      chunks := chunks + [next];
      i := i + size;
    }
    assert items[..Js.Min(i, |items|)] == items;
  }

  /** The chunks cut so far cover the items before `i`, every one but the last is full, and a short one ends the list. */
  ghost predicate Chunked<T>(items: seq<T>, chunks: seq<seq<T>>, i: int, size: int)
  {
    && 0 <= i
    && (i == 0 <==> chunks == [])
    && Flatten(chunks) == items[..Js.Min(i, |items|)]
    && (forall k :: 0 <= k < |chunks| ==> 1 <= |chunks[k]| <= size)
    && (forall k :: 0 <= k < |chunks| - 1 ==> |chunks[k]| == size)
    && (chunks != [] && |chunks[|chunks| - 1]| < size ==> |items| <= i)
  }

  lemma ChunkStep<T>(items: seq<T>, chunks: seq<seq<T>>, i: int, size: int)
    requires size > 0 && i < |items| && Chunked(items, chunks, i, size)
    ensures Chunked(items, chunks + [items[i..Js.Min(i + size, |items|)]], i + size, size)
  {
    var next := items[i..Js.Min(i + size, |items|)];
    assert items[..Js.Min(i + size, |items|)] == items[..i] + next;
    FlattenAppend(chunks, next);
    var r := chunks + [next];
    assert forall k :: 0 <= k < |chunks| ==> r[k] == chunks[k];
  }

  datatype Page<T> = Page(data: seq<T>, currentPage: int, totalPages: int, totalItems: nat, hasNext: bool, hasPrev: bool)

  /** `Math.ceil(n / d)` for a non-zero integer `d`. */
  function CeilDiv(n: nat, d: int): (q: int)
    requires d != 0
    ensures d > 0 ==> (q - 1) * d < n <= q * d
    ensures d < 0 ==> q <= 0
    ensures d < 0 ==> q * d <= n < (q - 1) * d
  {
    if d > 0 then (n + d - 1) / d
    else
      CeilDivNegative(n, -d);
      -(n / -d)
  }

  /** For a negative divisor `-m`, the quotient `-(n / m)` is the ceiling of `n / -m`. */
  lemma CeilDivNegative(n: nat, m: int)
    requires m > 0
    ensures -(n / m) * -m <= n < (-(n / m) - 1) * -m
  {
    var q := n / m;
    assert n == q * m + n % m && 0 <= n % m < m;
    assert -q * -m == q * m;
    assert (-q - 1) * -m == q * m + m;
  }

  /** Where page `page` starts: `(page - 1) * pageSize`, which ends `pageSize` later at `page * pageSize`. */
  function PageStart(page: int, pageSize: int): (start: int)
    ensures start + pageSize == page * pageSize
    ensures page >= 1 && pageSize > 0 ==> 0 <= start
  {
    PageBounds(page, pageSize);
    (page - 1) * pageSize
  }

  lemma PageBounds(page: int, pageSize: int)
    ensures (page - 1) * pageSize + pageSize == page * pageSize
    ensures page >= 1 && pageSize > 0 ==> 0 <= (page - 1) * pageSize
  {
    MulSucc(page - 1, pageSize);
    if page >= 1 && pageSize > 0 {
      MulLeft(0, page - 1, pageSize);
    }
  }

  /**
   * `paginate(array, page, pageSize)`: `array.slice((page - 1) * pageSize, page * pageSize)`,
   * with the page count and whether a further and an earlier page exist. Below page 1 the
   * slice indexes are negative and count back from the end of the array; a negative size
   * makes the end come before the start, so only page 1 has data: all but the last `-pageSize`
   * items. `pageSize` 0 makes the page count `Infinity` or `NaN`, outside the numbers modelled here.
   */
  function Paginate<T>(items: seq<T>, page: int, pageSize: int): (p: Page<T>)
    requires pageSize != 0
    ensures p.totalItems == |items| && p.currentPage == page
    ensures p.hasNext <==> page * pageSize < |items|
    ensures p.hasPrev <==> page > 1
    ensures pageSize > 0 ==> (p.totalPages - 1) * pageSize < |items| <= p.totalPages * pageSize
    ensures pageSize < 0 ==> p.totalPages * pageSize <= |items| < (p.totalPages - 1) * pageSize
    ensures page >= 1 && pageSize > 0 ==>
      p.data == items[Js.Min(PageStart(page, pageSize), |items|)..Js.Min(page * pageSize, |items|)]
    ensures page == 0 && pageSize > 0 ==> p.data == []
    ensures page < 0 && pageSize > 0 ==>
      p.data == items[Js.Max(|items| + PageStart(page, pageSize), 0)..Js.Max(|items| + page * pageSize, 0)]
    ensures pageSize < 0 ==> p.data == if page == 1 then items[..Js.Max(|items| + pageSize, 0)] else []
  {
    PageSigns(page, pageSize);
    var start := PageStart(page, pageSize);
    var end := start + pageSize;
    Page(Js.Slice(items, start, end), page, CeilDiv(|items|, pageSize), |items|, end < |items|, page > 1)
  }

  /** The signs of both slice indexes, for a page below 1 or a negative size. */
  lemma PageSigns(page: int, pageSize: int)
    ensures page <= 0 && pageSize > 0 ==> PageStart(page, pageSize) < 0 && page * pageSize <= 0
    ensures page < 0 && pageSize > 0 ==> page * pageSize < 0
    ensures pageSize < 0 && page >= 2 ==> PageStart(page, pageSize) < 0
    ensures pageSize < 0 && page <= 0 ==> page * pageSize >= 0
  {
    if page <= 0 && pageSize > 0 {
      MulLeft(page, 0, pageSize);
      MulLeft(page - 1, -1, pageSize);
    }
    if page < 0 && pageSize > 0 {
      MulLeft(page, -1, pageSize);
    }
    if pageSize < 0 && page >= 2 {
      MulLeft(1, page - 1, -pageSize);
    }
    if pageSize < 0 && page <= 0 {
      MulLeft(page, 0, -pageSize);
    }
  }

  lemma MulLeft(a: int, b: int, c: int)
    requires a <= b && c >= 0
    ensures a * c <= b * c
  {
  }

  /** With `t` pages of `d` items for `n` items, page `page` starts inside the items exactly when it is one of the `t`. */
  lemma PageStartsInside(n: nat, d: int, t: int, page: int)
    requires d > 0 && page >= 1 && (t - 1) * d < n <= t * d
    ensures PageStart(page, d) < n <==> page <= t
  {
    if page <= t {
      MulLeft(page - 1, t - 1, d);
    } else {
      MulLeft(t, page - 1, d);
    }
  }

  /** ... and it ends inside them exactly when a later page exists. */
  lemma PageEndsInside(n: nat, d: int, t: int, page: int)
    requires d > 0 && page >= 1 && (t - 1) * d < n <= t * d
    ensures page * d < n <==> page < t
  {
    if page < t {
      MulLeft(page, t - 1, d);
    } else {
      MulLeft(t, page, d);
    }
  }

  /**
   * For a positive page size: the pages 1..totalPages are exactly the non-empty ones,
   * each of them holds `pageSize` items except possibly the last, and there is a next
   * page exactly when the page number is below the page count.
   */
  lemma PaginateSpec<T>(items: seq<T>, page: int, pageSize: int)
    requires page >= 1 && pageSize > 0
    ensures var p := Paginate(items, page, pageSize);
      (p.data != [] <==> page <= p.totalPages) &&
      (p.hasNext <==> page < p.totalPages) &&
      (page < p.totalPages ==> |p.data| == pageSize) &&
      |p.data| <= pageSize
  {
    var p := Paginate(items, page, pageSize);
    PageStartsInside(|items|, pageSize, p.totalPages, page);
    PageEndsInside(|items|, pageSize, p.totalPages, page);
  }

  /** Page `k + 1` starts where page `k` ends: consecutive pages laid end to end are a slice of the array. */
  lemma PagesAdjacent<T>(items: seq<T>, page: int, pageSize: int)
    requires page >= 1 && pageSize > 0
    ensures Paginate(items, page, pageSize).data + Paginate(items, page + 1, pageSize).data
      == Js.Slice(items, PageStart(page, pageSize), PageStart(page + 2, pageSize))
  {
    var lo, mid, hi := PageStart(page, pageSize), PageStart(page + 1, pageSize), PageStart(page + 2, pageSize);
    assert mid == page * pageSize && hi == (page + 1) * pageSize;
    var a, b, c := Js.Min(lo, |items|), Js.Min(mid, |items|), Js.Min(hi, |items|);
    assert Paginate(items, page, pageSize).data == items[a..b];
    assert Paginate(items, page + 1, pageSize).data == items[b..c];
    assert items[a..b] + items[b..c] == items[a..c];
  }

  lemma MulSucc(k: int, n: int)
    ensures (k + 1) * n == k * n + n
  {
  }
}
