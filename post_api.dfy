/**
 * The post API's read side: which recent posts a reader may see, the
 * unread view of them, and the privacy guard in front of a single post
 * and a thread's post listing. Permissions and the "updated since the
 * reader" test belong to the host application; they enter the model as
 * the functions of an `Env`.
 */
module PostApi {
  import opened Collections

  type Id = int
  type UserId = int

  datatype CategoryRef = CategoryRef(id: Id, isPrivate: bool)

  /** The current user's read marker on a thread. */
  datatype Reader = Reader(id: Id, updatedAt: int)

  /** A thread as a post reaches it: its category and the current user's reader, if any. */
  datatype ThreadRef = ThreadRef(id: Id, category: CategoryRef, reader: Option<Reader>)

  datatype Post = Post(id: Id, thread: ThreadRef, updatedAt: int)

  /** What a `view` permission is asked about. */
  datatype Target = OfCategory(category: CategoryRef) | OfThread(thread: ThreadRef)

  /**
   * The request's context: the signed-in user (if any), the gate's answer
   * to `view` for a (possibly absent) user, and the post's `updatedSince`.
   */
  datatype Env = Env(
    user: Option<UserId>,
    canView: (Option<UserId>, Target) -> bool,
    updatedSince: (Post, Reader) -> bool)

  /** The privacy part of the `recent` filter: public, or a user who may view both. */
  predicate MayRead(env: Env, p: Post)
  {
    !p.thread.category.isPrivate ||
    (env.user.Some? &&
     env.canView(env.user, OfCategory(p.thread.category)) &&
     env.canView(env.user, OfThread(p.thread)))
  }

  /** The unread part of the `recent` filter: no reader yet, or updated since the reader. */
  predicate IsUnread(env: Env, p: Post)
  {
    p.thread.reader.None? || env.updatedSince(p, p.thread.reader.value)
  }

  /** The closure `recent` filters with. */
  predicate Visible(env: Env, unreadOnly: bool, p: Post)
  {
    (!unreadOnly || IsUnread(env, p)) && MayRead(env, p)
  }

  /** `recent`: the posts of `Post::recent()` that the filter keeps, in their order. */
  function Recent(env: Env, posts: seq<Post>, unreadOnly: bool): (r: seq<Post>)
    ensures forall p :: p in r <==> p in posts && Visible(env, unreadOnly, p)
    ensures IsSubsequence(r, posts)
  {
    FilterIsSubsequence(posts, p => Visible(env, unreadOnly, p));
    Filter(posts, p => Visible(env, unreadOnly, p))
  }

  /** `unread`: the recent posts that are also unread. */
  function Unread(env: Env, posts: seq<Post>): (r: seq<Post>)
    ensures forall p :: p in r <==> p in posts && MayRead(env, p) && IsUnread(env, p)
  {
    Recent(env, posts, true)
  }

  /** The unread view is the recent view narrowed, order kept. */
  lemma UnreadNarrowsRecent(env: Env, posts: seq<Post>)
    ensures IsSubsequence(Unread(env, posts), Recent(env, posts, false))
  {
    FilterMonotone(posts, p => Visible(env, true, p), p => Visible(env, false, p));
  }

  /** Without `unreadOnly`, every post from a public category is in the result. */
  lemma PublicPostsAreRecent(env: Env, posts: seq<Post>)
    ensures forall p :: p in posts && !p.thread.category.isPrivate ==> p in Recent(env, posts, false)
  {
  }

  /** A guest sees no post of a private category in the recent view. */
  lemma GuestSeesOnlyPublic(env: Env, posts: seq<Post>, unreadOnly: bool)
    requires env.user.None?
    ensures forall p :: p in Recent(env, posts, unreadOnly) ==> !p.thread.category.isPrivate
  {
  }

  /** The number of recent posts is the number of positions the filter keeps. */
  lemma RecentCountsPositions(env: Env, posts: seq<Post>, unreadOnly: bool)
    ensures |Recent(env, posts, unreadOnly)| == |set i | 0 <= i < |posts| && Visible(env, unreadOnly, posts[i])|
  {
    var keep := p => Visible(env, unreadOnly, p);
    FilterCountsIndices(posts, keep);
    assert IndicesWhere(posts, keep) == set i | 0 <= i < |posts| && Visible(env, unreadOnly, posts[i]);
  }

  // ---------------------------------------------------------------------
  // Guarded reads

  /** A guarded answer: the resource, or 403 when an `authorize` call refused. */
  datatype Reply<T> = Resource(value: T) | Forbidden

  /** The answer together with the `view` checks that were run, in order. */
  datatype Guarded<T> = Guarded(reply: Reply<T>, checks: seq<Target>)

  /**
   * The guard of `fetch` and `indexByThread`: no check for a public
   * category; otherwise `view` on the category, then on the thread, each
   * refusal ending the request.
   */
  function ViewGuard(env: Env, thread: ThreadRef): (r: (bool, seq<Target>))
    ensures !thread.category.isPrivate ==> r == (true, [])
    ensures thread.category.isPrivate ==>
      r.0 == (env.canView(env.user, OfCategory(thread.category)) && env.canView(env.user, OfThread(thread)))
    ensures thread.category.isPrivate ==>
      r.1 == if env.canView(env.user, OfCategory(thread.category))
             then [OfCategory(thread.category), OfThread(thread)]
             else [OfCategory(thread.category)]
  {
    if !thread.category.isPrivate then (true, [])
    else if !env.canView(env.user, OfCategory(thread.category)) then (false, [OfCategory(thread.category)])
    else (env.canView(env.user, OfThread(thread)), [OfCategory(thread.category), OfThread(thread)])
  }

  /** `fetch`: the post, behind the privacy guard of its thread. */
  function Fetch(env: Env, post: Post): (r: Guarded<Post>)
    ensures r.checks == ViewGuard(env, post.thread).1
    ensures r.reply.Resource? <==> ViewGuard(env, post.thread).0
    ensures r.reply.Resource? ==> r.reply.value == post
  {
    var (allowed, checks) := ViewGuard(env, post.thread);
    Guarded(if allowed then Resource(post) else Forbidden, checks)
  }

  /** `indexByThread`: the thread's posts, behind the same guard. */
  function IndexByThread(env: Env, thread: ThreadRef, threadPosts: seq<Post>): (r: Guarded<seq<Post>>)
    ensures r.checks == ViewGuard(env, thread).1
    ensures r.reply.Resource? <==> ViewGuard(env, thread).0
    ensures r.reply.Resource? ==> r.reply.value == threadPosts
  {
    var (allowed, checks) := ViewGuard(env, thread);
    Guarded(if allowed then Resource(threadPosts) else Forbidden, checks)
  }

  /** A post of a public category is served with no authorization run. */
  lemma PublicFetchRunsNoChecks(env: Env, post: Post, threadPosts: seq<Post>)
    requires !post.thread.category.isPrivate
    ensures Fetch(env, post) == Guarded(Resource(post), [])
    ensures IndexByThread(env, post.thread, threadPosts) == Guarded(Resource(threadPosts), [])
  {
  }

  /**
   * For a signed-in user, fetching a post succeeds exactly when the
   * recent filter would let that post through.
   */
  lemma FetchAgreesWithRecent(env: Env, post: Post)
    requires env.user.Some?
    ensures Fetch(env, post).reply.Resource? <==> MayRead(env, post)
  {
  }
}
