/** Request parameters and the length-aware paginator the listings end in. */
module Http {
  import opened Basics

  /** The query string of a request, one value per key. */
  type Request = map<string, string>

  /** `request($key)` used as the condition of `when`: PHP treats an absent
      key (null), the empty string and the string "0" as false. */
  predicate Filled(req: Request, key: string) {
    key in req && req[key] != "" && req[key] != "0"
  }

  /** `request()->only($keys)`: the listed keys the request carries, with
      their values, whether filled or not. */
  function Only(req: Request, keys: set<string>): (r: Request)
    ensures r.Keys == req.Keys * keys
    ensures forall k :: k in r ==> r[k] == req[k]
  {
    map k | k in req && k in keys :: req[k]
  }

  // ----------------------------------------------------------- pagination

  const PerPage: nat := 10

  /** The paginator's view of one page: the rows and the counts shown with them. */
  datatype Page<T> = Page(data: seq<T>, total: nat, perPage: nat, currentPage: nat, lastPage: nat)

  /** `resolveCurrentPage`: the `page` parameter when it is an integer of at
      least 1, else page 1. `page` is `None` when absent or not an integer. */
  function CurrentPage(page: Option<int>): (n: nat)
    ensures n >= 1
    ensures page.Some? && page.value >= 1 ==> n == page.value
    ensures !(page.Some? && page.value >= 1) ==> n == 1
  {
    if page.Some? && page.value >= 1 then page.value else 1
  }

  /** `max(ceil(total / perPage), 1)`. */
  function LastPage(total: nat): (n: nat)
    ensures n >= 1
    ensures (n - 1) * PerPage <= total
    ensures total <= n * PerPage
    ensures total > 0 ==> (n - 1) * PerPage < total
  {
    if total == 0 then 1 else (total + PerPage - 1) / PerPage
  }

  /** The rows of page `n`: `OFFSET (n - 1) * 10 LIMIT 10`. */
  function Slice<T>(s: seq<T>, n: nat): seq<T>
    requires n >= 1
  {
    s[Min(|s|, (n - 1) * PerPage)..Min(|s|, n * PerPage)]
  }

  /** `paginate(10)` on an ordered result. */
  function Paginate<T>(s: seq<T>, page: Option<int>): (p: Page<T>)
    ensures p.total == |s| && p.perPage == PerPage
    ensures p.currentPage == CurrentPage(page) && p.lastPage == LastPage(|s|)
    ensures |p.data| <= PerPage
    ensures p.currentPage > p.lastPage ==> p.data == []
    ensures var n := p.currentPage; p.data == s[Min(|s|, (n - 1) * PerPage)..Min(|s|, n * PerPage)]
  {
    var n := CurrentPage(page);
    Page(Slice(s, n), |s|, PerPage, n, LastPage(|s|))
  }

  /** Page `n` of an explicit `page` parameter `n >= 1` holds rows
      10(n-1) to 10n of the result and reports its full size. */
  lemma PageNumbered<T>(s: seq<T>, n: int)
    requires n >= 1
    ensures Paginate(s, Some(n)).total == |s|
    ensures Paginate(s, Some(n)).data == s[Min(|s|, 10 * (n - 1))..Min(|s|, 10 * n)]
  {
    assert CurrentPage(Some(n)) == n;
  }

  /** Pages 1 to `n`, one after the other. */
  function Pages<T>(s: seq<T>, n: nat): seq<T>
  {
    if n == 0 then [] else Pages(s, n - 1) + Slice(s, n)
  }

  lemma {:induction false} PagesPrefix<T>(s: seq<T>, n: nat)
    ensures Pages(s, n) == s[..Min(|s|, n * PerPage)]
  {
    if n > 0 {
      PagesPrefix(s, n - 1);
      var a, b := Min(|s|, (n - 1) * PerPage), Min(|s|, n * PerPage);
      assert s[..a] + s[a..b] == s[..b];
    }
  }

  /** Walking the pages from 1 to the last shows every row exactly once, in
      the order of the result. */
  lemma PagesCoverResult<T>(s: seq<T>)
    ensures Pages(s, LastPage(|s|)) == s
  {
    PagesPrefix(s, LastPage(|s|));
  }

  /** Row `i` of the result is row `i % 10` of page `i / 10 + 1`. */
  lemma PageOfRow<T>(s: seq<T>, i: nat)
    requires i < |s|
    ensures var p := Paginate(s, Some(i / PerPage + 1));
            i % PerPage < |p.data| && p.data[i % PerPage] == s[i]
  {
    var n := i / PerPage + 1;
    assert (n - 1) * PerPage + i % PerPage == i;
  }
}
