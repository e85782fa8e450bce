/**
 Paginated listings, as the AWS watchers read them: page after page until one carries no token.
 */
module Paging {
  import opened Options

  /** A page; an absent token and an empty one both say that there is no further page. */
  datatype Page<T> = Page(items: seq<T>, token: Option<string>)

  /** The answers of the list calls; None is a call that failed, and after so many pages the API
      answers no more. */
  datatype Listing<T> = Listing(page: nat -> Option<Page<T>>, pages: nat)

  predicate Answered<T>(l: Listing<T>, p: nat) {
    p < l.pages && l.page(p).Some?
  }

  predicate More<T>(page: Page<T>) {
    page.token.Some? && page.token.value != ""
  }

  /** Everything listed from page p on, or None for an error. */
  function AllFrom<T>(l: Listing<T>, p: nat): Option<seq<T>>
    decreases l.pages - p
  {
    if !Answered(l, p) then None
    else
      var page := l.page(p).value;
      if !More(page) then Some(page.items)
      else
        var rest := AllFrom(l, p + 1);
        if rest.None? then None else Some(page.items + rest.value)
  }

  /** Page n is the first, from page p on, without a token, and no call up to it failed. */
  predicate EndsAt<T>(l: Listing<T>, p: nat, n: nat) {
    && p <= n
    && (forall q :: p <= q <= n ==> Answered(l, q) && (More(l.page(q).value) <==> q < n))
  }

  /** The items of pages p to n, in order. */
  function Items<T>(l: Listing<T>, p: nat, n: nat): seq<T>
    requires p <= n && forall q :: p <= q <= n ==> Answered(l, q)
    decreases n - p
  {
    assert Answered(l, p);
    l.page(p).value.items + (if p == n then [] else Items(l, p + 1, n))
  }

  /** A listing that ends gives every page's items, in order, and no others. */
  lemma {:induction false} AllIs<T>(l: Listing<T>, p: nat, n: nat)
    requires EndsAt(l, p, n)
    ensures AllFrom(l, p) == Some(Items(l, p, n))
    decreases n - p
  {
    if p < n {
      assert Answered(l, p) && More(l.page(p).value);
      AllIs(l, p + 1, n);
    } else {
      assert l.page(p).value.items + [] == l.page(p).value.items;
    }
  }

  lemma {:induction false} AllEnds<T>(l: Listing<T>, p: nat) returns (n: nat)
    requires AllFrom(l, p).Some?
    ensures EndsAt(l, p, n)
    decreases l.pages - p
  {
    if More(l.page(p).value) {
      n := AllEnds(l, p + 1);
    } else {
      n := p;
    }
  }

  /** The listing fails exactly when some call fails before a page without a token is reached. */
  lemma ListedIff<T>(l: Listing<T>)
    ensures AllFrom(l, 0).Some? <==> exists n :: EndsAt(l, 0, n)
    ensures forall n :: EndsAt(l, 0, n) ==> AllFrom(l, 0) == Some(Items(l, 0, n))
  {
    forall n | EndsAt(l, 0, n)
      ensures AllFrom(l, 0) == Some(Items(l, 0, n))
    {
      AllIs(l, 0, n);
    }
    if AllFrom(l, 0).Some? {
      var n := AllEnds(l, 0);
    }
  }
}
