/**
 * `paginated_kb`: one page of a list as inline-keyboard rows. Buttons are
 * abstract (label, callback data) pairs; six items per page, each row's
 * callback carries the item's absolute index.
 */
module Pagination {
  import opened Text

  const PageSize: nat := 6

  datatype Button = Button(caption: string, data: string)

  function ViewData(prefix: string, i: int): string {
    prefix + ":view:" + IntToString(i)
  }

  function PageData(prefix: string, p: int): string {
    prefix + ":page:" + IntToString(p)
  }

  const BackButton: Button := Button("Back", "cfg:back")

  function PrevButton(prefix: string, page: int): Button {
    Button("\U{25C0} Prev", PageData(prefix, page - 1))
  }

  function NextButton(prefix: string, page: int): Button {
    Button("Next \U{25B6}", PageData(prefix, page + 1))
  }

  /** Python's clamping of a slice bound against a sequence of length `n`. */
  function SliceBound(i: int, n: nat): (b: nat)
    ensures b <= n
  {
    if i < 0 then (if i + n < 0 then 0 else i + n) else if i > n then n else i
  }

  /**
   * `s[i:j]` with Python's semantics for any integers `i`, `j`. With
   * non-negative bounds it holds the items from `i` up to `j` or the end of
   * the list, whichever comes first, and nothing when `i` is already past either.
   */
  function PySlice<T>(s: seq<T>, i: int, j: int): (r: seq<T>)
    ensures |r| <= |s|
    ensures 0 <= i && 0 <= j ==> |r| == (if i < j && i < |s| then (if j < |s| then j else |s|) - i else 0)
    ensures 0 <= i && 0 <= j ==> forall k :: 0 <= k < |r| ==> r[k] == s[i + k]
  {
    var a := SliceBound(i, |s|);
    var b := SliceBound(j, |s|);
    if a < b then
      assert 0 <= i ==> a == i;
      s[a..b]
    else []
  }

  /** How many items page `page` (not negative) shows out of `n`. */
  function ItemsOnPage(n: nat, page: nat): nat {
    if page * PageSize >= n then 0
    else if n - page * PageSize < PageSize then n - page * PageSize
    else PageSize
  }

  /** One single-button row per shown item, the callback carrying `start + k`. */
  function ItemRows(shown: seq<string>, prefix: string, start: int): (rows: seq<seq<Button>>)
    ensures |rows| == |shown|
    ensures forall k :: 0 <= k < |shown| ==> rows[k] == [Button(shown[k], ViewData(prefix, start + k))]
  {
    seq(|shown|, k requires 0 <= k < |shown| => [Button(shown[k], ViewData(prefix, start + k))])
  }

  /** The navigation buttons: Prev after the first page, Next while items remain past this page. */
  function NavRow(prefix: string, page: int, n: nat): (nav: seq<Button>)
    ensures |nav| <= 2
    ensures |nav| > 0 <==> page > 0 || page * PageSize + PageSize < n
    ensures PrevButton(prefix, page) in nav <==> page > 0
    ensures NextButton(prefix, page) in nav <==> page * PageSize + PageSize < n
    ensures forall b :: b in nav ==> b == PrevButton(prefix, page) || b == NextButton(prefix, page)
  {
    assert PrevButton(prefix, page) != NextButton(prefix, page) by {
      assert PrevButton(prefix, page).caption[0] != NextButton(prefix, page).caption[0];
    }
    (if page > 0 then [PrevButton(prefix, page)] else [])
    + (if page * PageSize + PageSize < n then [NextButton(prefix, page)] else [])
  }

  /**
   * The keyboard rows of `paginated_kb(items, prefix, page)`, items given by
   * their titles: the item rows of the page, then the navigation row when it
   * is not empty, then the Back row.
   */
  function PaginatedKb(labels: seq<string>, prefix: string, page: int): (kb: seq<seq<Button>>)
    ensures var shown := PySlice(labels, page * PageSize, page * PageSize + PageSize);
            var nav := NavRow(prefix, page, |labels|);
            && |kb| == |shown| + (if |nav| > 0 then 2 else 1)
            && kb[..|shown|] == ItemRows(shown, prefix, page * PageSize)
            && (|nav| > 0 ==> kb[|shown|] == nav)
            && kb[|kb| - 1] == [BackButton]
  {
    var start := page * PageSize;
    var shown := PySlice(labels, start, start + PageSize);
    var nav := NavRow(prefix, page, |labels|);
    var rows := ItemRows(shown, prefix, start);
    var kb := rows + (if |nav| > 0 then [nav] else []) + [[BackButton]];
    assert kb[..|shown|] == rows;
    kb
  }

  /** For a real page number the rows show exactly `items[page*6 : page*6+6]`. */
  lemma PageShowsSlice(labels: seq<string>, page: nat)
    ensures var start := page * PageSize;
            var shown := PySlice(labels, start, start + PageSize);
            && |shown| == ItemsOnPage(|labels|, page)
            && (start < |labels| ==> shown == labels[start..start + |shown|])
  {
  }

  lemma ViewDataInjective(prefix: string, a: int, b: int)
    requires ViewData(prefix, a) == ViewData(prefix, b)
    ensures a == b
  {
    assert ViewData(prefix, a)[|prefix| + 6..] == IntToString(a);
    assert ViewData(prefix, b)[|prefix| + 6..] == IntToString(b);
    IntToStringInjective(a, b);
  }

  /** Row `k` of a page shows item `page * 6 + k` with a callback naming that index. */
  lemma PageRow(labels: seq<string>, prefix: string, page: nat, k: nat)
    requires k < ItemsOnPage(|labels|, page)
    ensures var kb := PaginatedKb(labels, prefix, page);
            k < |kb| && kb[k] == [Button(labels[page * PageSize + k], ViewData(prefix, page * PageSize + k))]
  {
    var start := page * PageSize;
    var shown := PySlice(labels, start, start + PageSize);
    var kb := PaginatedKb(labels, prefix, page);
    PageShowsSlice(labels, page);
    assert shown[k] == labels[start + k];
    assert kb[..|shown|][k] == kb[k];
  }

  /** Every item appears on page `i / 6`, in row `i % 6`, with a callback naming its own index. */
  lemma EveryItemHasAPage(labels: seq<string>, prefix: string, i: nat)
    requires i < |labels|
    ensures var kb := PaginatedKb(labels, prefix, i / PageSize);
            i % PageSize < |kb| && kb[i % PageSize] == [Button(labels[i], ViewData(prefix, i))]
  {
    var p := i / PageSize;
    var k := i % PageSize;
    assert p * PageSize + k == i;
    assert k < ItemsOnPage(|labels|, p);
    PageRow(labels, prefix, p, k);
  }

  /** No item is shown on two pages: a row of page `p` that views index `i` has `p == i / 6`. */
  lemma OnlyOnePage(labels: seq<string>, prefix: string, page: nat, k: nat, i: int)
    requires k < ItemsOnPage(|labels|, page)
    requires PaginatedKb(labels, prefix, page)[k] == [Button(labels[page * PageSize + k], ViewData(prefix, i))]
    ensures i >= 0 && page == i / PageSize && k == i % PageSize
  {
    PageRow(labels, prefix, page, k);
    ViewDataInjective(prefix, page * PageSize + k, i);
  }

  /** A Next button never leads to an empty page. */
  lemma NextPageIsNotEmpty(labels: seq<string>, prefix: string, page: nat)
    requires NextButton(prefix, page) in NavRow(prefix, page, |labels|)
    ensures ItemsOnPage(|labels|, page + 1) >= 1
  {
  }
}
