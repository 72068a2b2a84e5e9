/** Offset pages of a listing, and the same pages cut off one after another. */
module OffsetPages {

  function Clip(n: nat, bound: nat): nat {
    if n < bound then n else bound
  }

  lemma TimesMonotone(a: nat, b: nat, size: nat)
    requires a <= b
    ensures a * size <= b * size
  {
    assert b * size == a * size + (b - a) * size;
  }

  /** How many rows come before a page; pages count from one. */
  function Offset(page: nat, size: nat): nat
    requires page >= 1
  {
    TimesMonotone(0, page - 1, size);
    (page - 1) * size
  }

  /** OFFSET (page - 1) * size FETCH NEXT size. */
  function OffsetPage<T>(listing: seq<T>, page: nat, size: nat): seq<T>
    requires page >= 1
  {
    var offset := Offset(page, size);
    listing[Clip(offset, |listing|)..Clip(offset + size, |listing|)]
  }

  function Chunks<T>(listing: seq<T>, size: nat): seq<seq<T>>
    requires size >= 1
  {
    if |listing| <= size then [listing] else [listing[..size]] + Chunks(listing[size..], size)
  }

  function Concat<T>(pages: seq<seq<T>>): seq<T> {
    if pages == [] then [] else pages[0] + Concat(pages[1..])
  }

  lemma {:induction false} ChunksJoin<T>(listing: seq<T>, size: nat)
    requires size >= 1
    ensures Concat(Chunks(listing, size)) == listing
  {
    if |listing| <= size {
      assert Concat([listing]) == listing + Concat([]);
    } else {
      ChunksJoin(listing[size..], size);
      assert Chunks(listing, size)[1..] == Chunks(listing[size..], size);
    }
  }

  /** n divided by size and rounded up, but at least one. */
  function PageCount(n: nat, size: nat): nat
    requires size >= 1
  {
    if n == 0 then 1 else (n + size - 1) / size
  }

  lemma QuotientIs(x: nat, size: nat, q: nat)
    requires size >= 1 && q * size <= x < (q + 1) * size
    ensures x / size == q
  {
    var d := x / size;
    assert d * size <= x < (d + 1) * size;
    if d < q {
      TimesMonotone(d + 1, q, size);
    } else if q < d {
      TimesMonotone(q + 1, d, size);
    }
  }

  lemma OnePageMore(n: nat, size: nat)
    requires size >= 1 && n > size
    ensures PageCount(n, size) == PageCount(n - size, size) + 1
  {
    var q := (n - 1) / size;
    assert q * size <= n - 1 < (q + 1) * size;
    assert (q + 1) * size == q * size + size && (q + 2) * size == q * size + size + size;
    QuotientIs(n + size - 1, size, q + 1);
  }

  lemma {:induction false} ChunkCount<T>(listing: seq<T>, size: nat)
    requires size >= 1
    ensures |Chunks(listing, size)| == PageCount(|listing|, size)
  {
    if |listing| == 0 {
      assert |Chunks(listing, size)| == 1;
    } else if |listing| <= size {
      QuotientIs(|listing| + size - 1, size, 1);
    } else {
      ChunkCount(listing[size..], size);
      OnePageMore(|listing|, size);
    }
  }

  lemma OffsetStep(page: nat, size: nat)
    requires page >= 2
    ensures Offset(page, size) == Offset(page - 1, size) + size
  {}

  lemma SliceOfTail<T>(listing: seq<T>, skip: nat, from: nat, to: nat)
    requires skip <= |listing| && from <= to
    ensures var tail := listing[skip..];
            tail[Clip(from, |tail|)..Clip(to, |tail|)] == listing[Clip(from + skip, |listing|)..Clip(to + skip, |listing|)]
  {}

  lemma {:induction false} ChunkIsOffsetPage<T>(listing: seq<T>, size: nat, k: nat)
    requires size >= 1 && k < |Chunks(listing, size)|
    ensures Chunks(listing, size)[k] == OffsetPage(listing, k + 1, size)
  {
    if k == 0 {
      assert Offset(1, size) == 0;
    } else {
      ChunkIsOffsetPage(listing[size..], size, k - 1);
      OffsetStep(k + 1, size);
      SliceOfTail(listing, size, Offset(k, size), Offset(k, size) + size);
    }
  }
}
