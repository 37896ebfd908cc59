/**
 * The forum category model: its relations to threads and child
 * categories, the thread and reply counts derived from them, the order in
 * which a category lists its threads, and its newest and latest active
 * threads. The tables are sequences in storage order; soft-deleted rows
 * stay in them with `trashed` set.
 */
module Categories {
  import opened Collections

  type Id = int

  datatype Category = Category(
    id: Id,
    parentId: Option<Id>,
    title: string,
    slug: string,
    weight: int,
    allowsThreads: bool,
    trashed: bool)

  /** A thread row; `posts` is the size of its `posts` relation. */
  datatype Thread = Thread(
    id: Id,
    categoryId: Id,
    pinned: bool,
    createdAt: int,
    updatedAt: int,
    trashed: bool,
    posts: nat)

  // ---------------------------------------------------------------------
  // Relations

  /** The row test of the `threads` relation. */
  function LiveIn(c: Category): Thread -> bool
  {
    (t: Thread) => t.categoryId == c.id && !t.trashed
  }

  /** The row test of the `threadsWithTrashed` relation. */
  function AnyIn(c: Category): Thread -> bool
  {
    (t: Thread) => t.categoryId == c.id
  }

  predicate NotTrashed(t: Thread)
  {
    !t.trashed
  }

  /** The `threads` relation: this category's threads that are not soft-deleted. */
  function Threads(c: Category, table: seq<Thread>): (r: seq<Thread>)
    ensures forall t :: t in r <==> t in table && t.categoryId == c.id && !t.trashed
    ensures IsSubsequence(r, table)
  {
    FilterIsSubsequence(table, LiveIn(c));
    Filter(table, LiveIn(c))
  }

  /** The `threadsWithTrashed` relation: all of this category's threads. */
  function ThreadsWithTrashed(c: Category, table: seq<Thread>): (r: seq<Thread>)
    ensures forall t :: t in r <==> t in table && t.categoryId == c.id
    ensures IsSubsequence(r, table)
  {
    FilterIsSubsequence(table, AnyIn(c));
    Filter(table, AnyIn(c))
  }

  /** The relation a category's children are drawn from, before ordering. */
  function ChildRows(c: Category, categories: seq<Category>): seq<Category>
  {
    Filter(categories, (k: Category) => k.parentId == Some(c.id) && !k.trashed)
  }

  predicate WeightLe(a: Category, b: Category)
  {
    a.weight <= b.weight
  }

  lemma WeightLeIsTotalPreorder()
    ensures TotalPreorder(WeightLe)
  {
  }

  /**
   * The `children` relation: the categories whose parent is this one,
   * not soft-deleted, ordered by weight ascending.
   */
  function Children(c: Category, categories: seq<Category>): (r: seq<Category>)
    ensures forall k :: k in r <==> k in categories && k.parentId == Some(c.id) && !k.trashed
    ensures multiset(r) == multiset(ChildRows(c, categories))
    ensures forall i, j :: 0 <= i < j < |r| ==> r[i].weight <= r[j].weight
  {
    WeightLeIsTotalPreorder();
    var r := SortBy(ChildRows(c, categories), WeightLe);
    assert forall k :: k in r <==> k in ChildRows(c, categories) by {
      forall k ensures k in r <==> k in ChildRows(c, categories) {
        assert k in r <==> k in multiset(r);
      }
    }
    r
  }

  /** The `parent` relation: the first category row with the parent id, if any. */
  function Parent(c: Category, categories: seq<Category>): (r: Option<Category>)
    ensures r.None? <==> c.parentId.None? || forall k :: k in categories ==> !(k.id == c.parentId.value && !k.trashed)
    ensures r.Some? ==> r.value in categories && Some(r.value.id) == c.parentId && !r.value.trashed
  {
    match c.parentId
    case None => None
    case Some(pid) =>
      var matches := (k: Category) => k.id == pid && !k.trashed;
      var rows := Filter(categories, matches);
      assert forall k :: k in categories && matches(k) ==> k in rows;
      if rows == [] then None else
        assert rows[0] in rows;
        Some(rows[0])
  }

  // ---------------------------------------------------------------------
  // Counts

  /** `threadCount`: the number of this category's threads that are not soft-deleted. */
  function ThreadCount(c: Category, table: seq<Thread>): (n: nat)
    ensures n == |set i | 0 <= i < |table| && table[i].categoryId == c.id && !table[i].trashed|
  {
    FilterCountsIndices(table, LiveIn(c));
    assert IndicesWhere(table, LiveIn(c)) == set i | 0 <= i < |table| && table[i].categoryId == c.id && !table[i].trashed;
    |Threads(c, table)|
  }

  /** The replies in `threads`: every post of each thread except its opening post. */
  function ReplySum(threads: seq<Thread>): int
    decreases |threads|
  {
    if threads == [] then 0
    else ReplySum(threads[..|threads| - 1]) + threads[|threads| - 1].posts - 1
  }

  /** All posts in `threads`. */
  function PostTotal(threads: seq<Thread>): nat
    decreases |threads|
  {
    if threads == [] then 0
    else PostTotal(threads[..|threads| - 1]) + threads[|threads| - 1].posts
  }

  /** `postCount`: the running sum of `posts - 1` over the category's threads. */
  method PostCount(c: Category, table: seq<Thread>) returns (replyCount: int)
    ensures replyCount == ReplySum(Threads(c, table))
  {
    replyCount := 0;
    var threads := Threads(c, table);
    for i := 0 to |threads|
      invariant replyCount == ReplySum(threads[..i])
    {
      assert threads[..i + 1][..i] == threads[..i];
      replyCount := replyCount + threads[i].posts - 1;
    }
    assert threads[..|threads|] == threads;
  }

  /** The reply count is the post count less one opening post per thread. */
  lemma {:induction false} ReplySumIsPostsLessOpeners(threads: seq<Thread>)
    ensures ReplySum(threads) == PostTotal(threads) - |threads|
    decreases |threads|
  {
    if threads != [] {
      ReplySumIsPostsLessOpeners(threads[..|threads| - 1]);
    }
  }

  /** Nothing keeps the reply count from going negative: a thread with no posts counts -1. */
  lemma ReplyCountCanBeNegative(c: Category, t: Thread)
    requires t.categoryId == c.id && !t.trashed && t.posts == 0
    ensures ReplySum(Threads(c, [t])) == -1
  {
    assert Threads(c, [t]) == [t] by {
      assert [t][..0] == [];
    }
    assert [t][..0] == [];
  }

  /** With every thread holding its opening post, the reply count is not negative. */
  lemma {:induction false} ReplySumNonNegative(threads: seq<Thread>)
    requires forall t :: t in threads ==> t.posts >= 1
    ensures ReplySum(threads) >= 0
    decreases |threads|
  {
    if threads != [] {
      assert threads[|threads| - 1] in threads;
      ReplySumNonNegative(threads[..|threads| - 1]);
    }
  }

  // ---------------------------------------------------------------------
  // Listing order

  /** `orderBy('pinned', 'desc')->orderBy('updated_at', 'desc')`: may `a` come before `b`. */
  predicate ListedBefore(a: Thread, b: Thread)
  {
    (a.pinned && !b.pinned) || (a.pinned == b.pinned && a.updatedAt >= b.updatedAt)
  }

  lemma ListedBeforeIsTotalPreorder()
    ensures TotalPreorder(ListedBefore)
  {
  }

  /** Pinned threads come first, and among equally pinned threads `updated_at` does not increase. */
  predicate ListingOrdered(r: seq<Thread>)
  {
    && (forall i, j :: 0 <= i < j < |r| && r[j].pinned ==> r[i].pinned)
    && (forall i, j :: 0 <= i < j < |r| && r[i].pinned == r[j].pinned ==> r[i].updatedAt >= r[j].updatedAt)
  }

  /** A thread listing: the threads, pinned ones first, then by `updated_at` descending. */
  function Listing(threads: seq<Thread>): (r: seq<Thread>)
    ensures multiset(r) == multiset(threads)
    ensures SortedBy(r, ListedBefore)
    ensures ListingOrdered(r)
  {
    ListedBeforeIsTotalPreorder();
    SortBy(threads, ListedBefore)
  }

  /** The number of rows before page `page`; a page below 1 is page 1. */
  function PageOffset(page: int, perPage: nat): nat
  {
    (if page < 1 then 0 else page - 1) * perPage
  }

  /** The up to `count` elements of `xs` from position `offset` on. */
  function Window<T>(xs: seq<T>, offset: nat, count: nat): (r: seq<T>)
    ensures |r| == if offset >= |xs| then 0 else if offset + count <= |xs| then count else |xs| - offset
    ensures forall i :: 0 <= i < |r| ==> offset + i < |xs| && r[i] == xs[offset + i]
  {
    if offset >= |xs| then []
    else if offset + count <= |xs| then xs[offset..offset + count]
    else xs[offset..]
  }

  /** The page `page` of `xs` at `perPage` rows a page; pages below 1 are page 1. */
  function Page<T>(xs: seq<T>, page: int, perPage: nat): (r: seq<T>)
    ensures |r| <= perPage
    ensures |r| == if PageOffset(page, perPage) >= |xs| then 0
                   else if PageOffset(page, perPage) + perPage <= |xs| then perPage
                   else |xs| - PageOffset(page, perPage)
    ensures forall i :: 0 <= i < |r| ==> PageOffset(page, perPage) + i < |xs| && r[i] == xs[PageOffset(page, perPage) + i]
  {
    Window(xs, PageOffset(page, perPage), perPage)
  }

  /** `threadsPaginated`: one page of the category's listing. */
  function ThreadsPaginated(c: Category, table: seq<Thread>, page: int, perPage: nat): (r: seq<Thread>)
    ensures r == Page(Listing(Threads(c, table)), page, perPage)
    ensures |r| <= perPage && ListingOrdered(r)
    ensures forall t :: t in r ==> t in table && t.categoryId == c.id && !t.trashed
  {
    PageOfListing(Threads(c, table), page, perPage);
    Page(Listing(Threads(c, table)), page, perPage)
  }

  /** `threadsWithTrashedPaginated`: one page of the listing that includes soft-deleted threads. */
  function ThreadsWithTrashedPaginated(c: Category, table: seq<Thread>, page: int, perPage: nat): (r: seq<Thread>)
    ensures r == Page(Listing(ThreadsWithTrashed(c, table)), page, perPage)
    ensures |r| <= perPage && ListingOrdered(r)
    ensures forall t :: t in r ==> t in table && t.categoryId == c.id
  {
    PageOfListing(ThreadsWithTrashed(c, table), page, perPage);
    Page(Listing(ThreadsWithTrashed(c, table)), page, perPage)
  }

  /** A window of an ordered sequence is ordered the same way. */
  lemma WindowOfSorted<T>(xs: seq<T>, offset: nat, count: nat, le: (T, T) -> bool)
    requires SortedBy(xs, le)
    ensures SortedBy(Window(xs, offset, count), le)
  {
    var r := Window(xs, offset, count);
    forall i, j | 0 <= i < j < |r| ensures le(r[i], r[j]) {
      var a, b := offset + i, offset + j;
      assert 0 <= a < b < |xs|;
      assert r[i] == xs[a] && r[j] == xs[b];
    }
  }

  /** A page of an ordered sequence is ordered the same way. */
  lemma PageOfSorted<T>(xs: seq<T>, page: int, perPage: nat, le: (T, T) -> bool)
    requires SortedBy(xs, le)
    ensures SortedBy(Page(xs, page, perPage), le)
  {
    WindowOfSorted(xs, PageOffset(page, perPage), perPage, le);
  }

  /** Every page keeps the listing order, and holds only threads it was given. */
  lemma PageOfListing(threads: seq<Thread>, page: int, perPage: nat)
    ensures ListingOrdered(Page(Listing(threads), page, perPage))
    ensures forall t :: t in Page(Listing(threads), page, perPage) ==> t in threads
  {
    var l := Listing(threads);
    PageOfSorted(l, page, perPage, ListedBefore);
    forall t | t in Page(l, page, perPage) ensures t in threads {
      assert t in l;
      assert t in multiset(l);
    }
  }

  /**
   * The plain relation is the with-trashed relation without its
   * soft-deleted rows, in the same order.
   */
  lemma {:induction false} ThreadsAreUntrashedThreadsWithTrashed(c: Category, table: seq<Thread>)
    ensures Threads(c, table) == Filter(ThreadsWithTrashed(c, table), NotTrashed)
    decreases |table|
  {
    if table != [] {
      var n := |table| - 1;
      ThreadsAreUntrashedThreadsWithTrashed(c, table[..n]);
      var all := ThreadsWithTrashed(c, table[..n]);
      var t := table[n];
      if t.categoryId == c.id {
        assert ThreadsWithTrashed(c, table) == all + [t];
        assert (all + [t])[..|all|] == all;
      }
    }
  }

  /** The with-trashed listing orders every thread the plain listing orders. */
  lemma TrashedListingIsSuperset(c: Category, table: seq<Thread>)
    ensures multiset(Listing(Threads(c, table))) <= multiset(Listing(ThreadsWithTrashed(c, table)))
  {
    ThreadsAreUntrashedThreadsWithTrashed(c, table);
    FilterSubMultiset(ThreadsWithTrashed(c, table), NotTrashed);
  }

  // ---------------------------------------------------------------------
  // Newest and latest active thread

  /** `newestThread`: a thread with the largest `created_at`, none when there are no threads. */
  function NewestThread(c: Category, table: seq<Thread>): (r: Option<Thread>)
    ensures r.None? <==> Threads(c, table) == []
    ensures r.Some? ==> r.value in table && r.value.categoryId == c.id && !r.value.trashed
    ensures r.Some? ==> forall t :: t in Threads(c, table) ==> t.createdAt <= r.value.createdAt
  {
    MaxBy(Threads(c, table), (t: Thread) => t.createdAt)
  }

  /** `latestActiveThread`: a thread with the largest `updated_at`, none when there are no threads. */
  function LatestActiveThread(c: Category, table: seq<Thread>): (r: Option<Thread>)
    ensures r.None? <==> Threads(c, table) == []
    ensures r.Some? ==> r.value in table && r.value.categoryId == c.id && !r.value.trashed
    ensures r.Some? ==> forall t :: t in Threads(c, table) ==> t.updatedAt <= r.value.updatedAt
  {
    MaxBy(Threads(c, table), (t: Thread) => t.updatedAt)
  }

  // ---------------------------------------------------------------------
  // Plain attributes

  /** `threadsAllowed`: the category's `allows_threads` flag. */
  function ThreadsAllowed(c: Category): (r: bool)
    ensures r <==> c.allowsThreads
  {
    c.allowsThreads
  }

  datatype RouteValue = IdValue(id: Id) | SlugValue(slug: string)

  /** `getRouteParameters`: the parameters of the category's routes. */
  function RouteParameters(c: Category): (r: map<string, RouteValue>)
    ensures r.Keys == {"category", "category_slug"}
    ensures r["category"] == IdValue(c.id) && r["category_slug"] == SlugValue(c.slug)
  {
    map["category" := IdValue(c.id), "category_slug" := SlugValue(c.slug)]
  }
}
