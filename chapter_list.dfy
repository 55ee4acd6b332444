/** `get_chapters`: the chapter listing of a manga, read page by page from the catalog API. */
module ChapterList {
  import opened Http

  /** The page size the loop asks for. */
  const Limit: nat := 100

  /** The answers of the listing endpoint, one per request in the order they are made: the
      `data` array of a page, or a failure raised by `raise_for_status`. Past the end of the
      sequence the endpoint returns an empty page. */
  type Batches<T> = seq<Result<seq<T>, Upstream>>

  function At<T>(bs: Batches<T>, k: nat): Result<seq<T>, Upstream>
  {
    if k < |bs| then bs[k] else Success([])
  }

  /** The loop ends on this answer: it raised, it was empty, or it was shorter than a page. */
  predicate Stops<T>(b: Result<seq<T>, Upstream>)
  {
    b.Failure? || |b.value| < Limit
  }

  /** The number of the request at which the loop ends: the first answer that stops it. */
  function StopAt<T>(bs: Batches<T>): (n: nat)
    ensures Stops(At(bs, n))
    ensures forall k :: 0 <= k < n ==> !Stops(At(bs, k))
    ensures n <= |bs|
  {
    if Stops(At(bs, 0)) then 0
    else
      var n' := StopAt(bs[1..]);
      assert forall k :: 1 <= k < 1 + n' ==> At(bs, k) == At(bs[1..], k - 1);
      1 + n'
  }

  /** The items of the first `n` answers, in order. */
  function Concat<T>(bs: Batches<T>, n: nat): (items: seq<T>)
    decreases n
  {
    if n == 0 || bs == [] then []
    else (if bs[0].Success? then bs[0].value else []) + Concat(bs[1..], n - 1)
  }

  lemma {:induction false} ConcatSnoc<T>(bs: Batches<T>, n: nat)
    requires At(bs, n).Success?
    ensures Concat(bs, n + 1) == Concat(bs, n) + At(bs, n).value
    decreases n
  {
    if bs == [] {
    } else if n == 0 {
      assert Concat(bs[1..], 0) == [];
    } else {
      assert At(bs[1..], n - 1) == At(bs, n);
      ConcatSnoc(bs[1..], n - 1);
    }
  }

  /** Answers that did not stop the loop each held at least `Limit` items. */
  lemma {:induction false} FullPagesLength<T>(bs: Batches<T>, n: nat)
    requires forall k :: 0 <= k < n ==> !Stops(At(bs, k))
    ensures Limit * n <= |Concat(bs, n)|
    decreases n
  {
    if n > 0 {
      assert !Stops(At(bs, 0));
      assert forall k :: 0 <= k < n - 1 ==> At(bs[1..], k) == At(bs, k + 1);
      FullPagesLength(bs[1..], n - 1);
    }
  }

  /** What `get_chapters` returns: the items of every answer up to and including the one
      that stops the loop, or the failure that answer raised. */
  function Listing<T>(bs: Batches<T>): (r: Result<seq<T>, Upstream>)
    // the call fails exactly when the answer that ends the loop raised
    ensures r.Failure? <==> At(bs, StopAt(bs)).Failure?
    // every page before the last one was full
    ensures r.Success? ==> Limit * StopAt(bs) <= |r.value|
  {
    FullPagesLength(bs, StopAt(bs));
    var n := StopAt(bs);
    if At(bs, n).Failure? then Failure(At(bs, n).error)
    else
      ConcatSnoc(bs, n);
      Success(Concat(bs, n + 1))
  }

  method GetChapters<T>(bs: Batches<T>) returns (r: Result<seq<T>, Upstream>)
    ensures r == Listing(bs)
  {
    var chapters: seq<T> := [];
    var limit := Limit;
    var offset := 0;
    var k := 0;  // requests made so far; the next one asks for `limit` items from `offset`
    while true
      invariant k <= StopAt(bs)
      invariant chapters == Concat(bs, k)
      invariant offset == |chapters|
      decreases StopAt(bs) - k
    {
      var response := At(bs, k);
      if Stops(response) {
        assert StopAt(bs) == k;
      }
      if response.Failure? {
        return Failure(response.error);
      }
      var data := response.value;
      if data == [] {
        ConcatSnoc(bs, k);
        assert Concat(bs, k + 1) == chapters;
        return Success(chapters);
      }
      ConcatSnoc(bs, k);
      chapters := chapters + data;
      offset := offset + |data|;
      if |data| < limit {
        return Success(chapters);
      }
      k := k + 1;
    }
  }

  /** The listing cut into pages of `Limit` items, the way the endpoint serves it; a
      listing whose length is a multiple of `Limit` ends with an empty page. */
  function Pages<T>(items: seq<T>): (bs: Batches<T>)
    decreases |items|
  {
    if |items| < Limit then [Success(items)]
    else [Success(items[..Limit])] + Pages(items[Limit..])
  }

  /** Reading a listing page by page gives back the whole listing, in order. */
  lemma {:induction false} ListingOfPages<T>(items: seq<T>)
    ensures Listing(Pages(items)) == Success(items)
    decreases |items|
  {
    var bs := Pages(items);
    if |items| < Limit {
      assert StopAt(bs) == 0;
      assert bs[1..] == [];
      assert Concat(bs, 1) == items + Concat(bs[1..], 0);
      assert Concat(bs[1..], 0) == [];
      assert Concat(bs, 1) == items;
      assert Listing(bs) == Success(Concat(bs, 1));
    } else {
      var rest := Pages(items[Limit..]);
      ListingOfPages(items[Limit..]);
      assert bs[1..] == rest;
      assert !Stops(At(bs, 0));
      assert StopAt(bs) == 1 + StopAt(rest);
      var n := StopAt(rest);
      assert At(bs, n + 1) == At(rest, n);
      assert Concat(bs, n + 2) == items[..Limit] + Concat(rest, n + 1);
      assert items == items[..Limit] + items[Limit..];
    }
  }
}
