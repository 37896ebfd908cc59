# Forum package core, modelled in Dafny

This project models the parts of the forum package that make decisions of
their own:

- **the generic API controller** (`BaseController`). It is a record
  lifecycle over one model's table. Each id is absent, active or trashed
  (soft-deleted). The controller offers `fetch`, `update`, `destroy`,
  `restore`, `updateAttributes` and `bulk`.
- **the category model** (`Category`). It covers the category's thread
  relations and its children, the thread and reply counts, the order of a
  paginated thread listing, and its newest and latest active threads.
- **the post API's read side** (`PostController`). It covers which recent
  posts a reader may see, the unread view, and the privacy guard in front
  of `fetch` and `indexByThread`.

Files and modules:

- `collections.dfy`, module `Collections`: an order-preserving `Filter`,
  the subsequence relation, `MaxBy` (argmax) and a stable insertion sort
  `SortBy`. Several models use them; they stand for the query builder's
  `where`, `orderBy`, `first` and the collection's `filter`.
- `api_base.dfy`, module `ApiBase`. Pure step functions describe each
  action on a store value: `DestroyStep`, `RestoreStep`, `BulkRun`. The
  lemmas about the lifecycle are stated over these functions. The class
  `BaseController` holds the store in a field. Its methods change the store
  in place and are proved to agree with the step functions.
- `categories.dfy`, module `Categories`: `Category.php`. It is pure apart
  from `PostCount`, a method with the source's accumulator loop.
- `post_api.dfy`, module `PostApi`: `PostController.php`. Everything in it
  is pure.

Parameters that stand for things outside the code:

- **Store and request input.** The table is a `map<Id, Record>`. A request's
  input is a `map<string, int>`.
- **Request scopes.** Whether `find` also sees trashed rows depends on the
  request scopes set up in the constructor. The model makes it the
  controller's `withTrashed` constant.
- **Authorization.** The `policy` function stands for the gate. Every
  `authorize` call is appended to the `checks` log, so the contracts can say
  which checks ran and in what order.
- **Clock.** Time is passed in as the parameter `now`.
- **Post permissions.** In the post API, the `Env` datatype carries three
  things: the signed-in user (or none), the gate's `view` answer for a
  user who may be absent, and the post's `updatedSince` test.

Behaviour of the source that the model keeps as written:

- **Trashed records and the request scopes.** `fetch` and `update` look a
  record up with `find` on the scoped model (BaseController.php:84, 101).
  A trashed record is therefore not found unless the request scopes
  include trashed rows.
- **Destroy of a trashed record.** Without `force` equal to 1, `destroy`
  answers "not found" for a trashed record and changes nothing
  (BaseController.php:135-140).
- **Timestamps.** The timestamps flag is switched off only around the
  write inside `updateAttributes` (BaseController.php:180-182). `update`
  reaches that write only through `doUpdate`.
- **Bulk keys.** Each bulk item's request is `$input + compact('id')`
  (BaseController.php:202). PHP's array union keeps the left operand's
  keys, so an `id` inside `$input` takes precedence over the item.
  `ItemRequest` models exactly this.

## Model

| member | source | states |
|---|---|---|
| `ApiBase.BaseController.constructor` | src/Http/Controllers/API/BaseController.php:38-48 | binds the store, the request-scope choice of including trashed rows, the model's timestamps flag and the gate; no authorization has been asked yet |
| `ApiBase.BaseController.Fetch` | src/Http/Controllers/API/BaseController.php:82-91 | not found exactly when the id is absent, or trashed while the scopes exclude trashed rows; otherwise the stored record; the store is only read |
| `ApiBase.BaseController.Authorize` | src/Http/Controllers/API/BaseController.php:107 | records the (ability, model) check and passes exactly when the gate allows it |
| `ApiBase.BaseController.Update` | src/Http/Controllers/API/BaseController.php:99-116 | a missing id gives not found with no check, no write and no flag change; a found id runs exactly the `edit` check first; refused means 403 with the store unchanged; allowed writes the attributes without touching `updated_at` and answers "updated" |
| `ApiBase.BaseController.UpdateAttributes` | src/Http/Controllers/API/BaseController.php:173-185 | checks only when an authorize pair is supplied, and only that pair; refused means 403 with nothing written; otherwise merges the attributes, keeps `updated_at` and leaves the timestamps flag on |
| `ApiBase.BaseController.Destroy` | src/Http/Controllers/API/BaseController.php:124-141 | the new store and the response are those of `DestroyStep` on the old store |
| `ApiBase.BaseController.Restore` | src/Http/Controllers/API/BaseController.php:149-163 | the new store and the response are those of `RestoreStep` on the old store |
| `ApiBase.BaseController.Bulk` | src/Http/Controllers/API/BaseController.php:196-211 | the store is that of running the action on every item in order; the answer is the contents of the responses that were not "not found", in order, with the message count equal to their number |
| `ApiBase.Write` | src/Http/Controllers/API/BaseController.php:180-182 | the attributes are merged with the new ones winning; the status is kept; `updated_at` changes to `now` only when timestamps are on |
| `ApiBase.DestroyStep` | src/Http/Controllers/API/BaseController.php:124-141 | destroy never answers 403: it runs no authorization |
| `ApiBase.RestoreStep` | src/Http/Controllers/API/BaseController.php:149-163 | restore never answers 403: it runs no authorization |
| `ApiBase.Step` | src/Http/Controllers/API/BaseController.php:203 | the closed dispatch of a bulk action never answers 403 |
| `ApiBase.BulkRun` | src/Http/Controllers/API/BaseController.php:200-208 | one response per item, none of them 403 |
| `ApiBase.Kept` | src/Http/Controllers/API/BaseController.php:205-207 | keeps the content of every Ok response, keeps only contents of Ok responses, and holds no more contents than there were responses |
| `ApiBase.KeptCountsOk` | src/Http/Controllers/API/BaseController.php:205-210 | the kept contents number exactly the Ok responses, which is the count the bulk message reports |
| `ApiBase.DestroyMissesNotFound` | src/Http/Controllers/API/BaseController.php:126-130 | forced or not, destroy of an id the lookup misses answers not found and leaves the store unchanged |
| `ApiBase.RestoreMissesNotFound` | src/Http/Controllers/API/BaseController.php:151-155 | restore of an id the lookup misses answers not found and leaves the store unchanged |
| `ApiBase.DestroyWithoutForce` | src/Http/Controllers/API/BaseController.php:135-140 | without force, a found active record becomes trashed; a trashed or missing one gives not found with the store unchanged |
| `ApiBase.ForceDeleteIsPermanent` | src/Http/Controllers/API/BaseController.php:132-134 | force with a found record, trashed or not, removes the id and answers "perma_deleted"; afterwards `find` misses it and restore gives not found |
| `ApiBase.RestoreOnlyTrashed` | src/Http/Controllers/API/BaseController.php:151-162 | restore moves a trashed record to active; an active or absent id gives not found with the store unchanged |
| `ApiBase.SoftDeleteRestoreRoundTrip` | src/Http/Controllers/API/BaseController.php:135-159 | soft delete followed by restore of an active record gives back the original store |
| `ApiBase.BulkSplit` | src/Http/Controllers/API/BaseController.php:201-208 | a batch `a + b` is batch `a` and then batch `b` from the store `a` left: earlier items' effects are never undone |
| `ApiBase.KeptConcat` | src/Http/Controllers/API/BaseController.php:205-207 | the kept contents of concatenated responses are the concatenated kept contents |
| `ApiBase.BulkDestroyTrashes` | src/Http/Controllers/API/BaseController.php:201-203 | a bulk soft delete over distinct ids trashes exactly the active records among them and changes no other id |
| `ApiBase.BulkDestroyAnswers` | src/Http/Controllers/API/BaseController.php:201-207 | a bulk soft delete over distinct ids answers exactly the active records, trashed, in input order |
| `ApiBase.BulkDestroyKeepsActive` | src/Http/Controllers/API/BaseController.php:196-210 | a bulk soft delete over distinct ids answers exactly the active records, trashed, in input order; it trashes exactly those and changes no other id |
| `Categories.Threads` | src/Models/Category.php:56-59 | exactly the category's threads that are not soft-deleted, in storage order |
| `Categories.ThreadsWithTrashed` | src/Models/Category.php:66-69 | exactly the category's threads, soft-deleted or not, in storage order |
| `Categories.Children` | src/Models/Category.php:46-49 | exactly the non-deleted categories whose parent is this one, each as often as stored, ordered by weight ascending |
| `Categories.Parent` | src/Models/Category.php:36-39 | a non-deleted category row with the parent id, and none exactly when there is no parent id or no such row |
| `Categories.ThreadCount` | src/Models/Category.php:162-168 | the number of table rows that are non-deleted threads of the category |
| `Categories.PostCount` | src/Models/Category.php:175-189 | the loop's total is the sum over the category's non-deleted threads of their post count less one |
| `Categories.ReplySumIsPostsLessOpeners` | src/Models/Category.php:183-185 | that sum is all posts less one opening post per thread, so 0 with no threads |
| `Categories.ReplyCountCanBeNegative` | src/Models/Category.php:184 | a category whose only thread has no posts has reply count -1 |
| `Categories.ReplySumNonNegative` | src/Models/Category.php:184 | when every thread has its opening post, the reply count is not negative |
| `Categories.Listing` | src/Models/Category.php:98-100 | a permutation of the threads with pinned ones first and, among equally pinned ones, `updated_at` not increasing |
| `Categories.Page` | src/Models/Category.php:101 | the consecutive rows after the earlier pages: a full page when enough rows remain, the remaining rows on the last page, none past the end; a page below 1 is the first |
| `Categories.PageOfSorted` | src/Models/Category.php:101 | a page of an ordered listing keeps its order |
| `Categories.PageOfListing` | src/Models/Category.php:96-102 | a page of a listing keeps the pinned-then-`updated_at` order and holds only listed threads |
| `Categories.ThreadsPaginated` | src/Models/Category.php:96-102 | exactly the requested page of the listing of the category's non-deleted threads; at most a page's worth, in listing order, only the category's non-deleted threads |
| `Categories.ThreadsWithTrashedPaginated` | src/Models/Category.php:109-115 | exactly the requested page of the listing of all the category's threads; at most a page's worth, in listing order, only the category's threads |
| `Categories.ThreadsAreUntrashedThreadsWithTrashed` | src/Models/Category.php:56-69 | the plain relation is the with-trashed relation with the soft-deleted rows removed, order kept |
| `Categories.TrashedListingIsSuperset` | src/Models/Category.php:56-69 | the plain listing orders a sub-multiset of what the with-trashed listing orders |
| `Categories.WindowOfSorted` | src/Models/Category.php:101 | a run of consecutive rows of an ordered listing keeps its order |
| `Categories.NewestThread` | src/Models/Category.php:132-135 | a non-deleted thread of the category with the largest `created_at`; none exactly when there are no threads |
| `Categories.LatestActiveThread` | src/Models/Category.php:142-145 | a non-deleted thread of the category with the largest `updated_at`; none exactly when there are no threads |
| `Categories.ThreadsAllowed` | src/Models/Category.php:152-155 | the category's `allows_threads` flag |
| `Categories.RouteParameters` | src/Models/Category.php:196-202 | exactly the keys `category` and `category_slug`, bound to the id and the slug |
| `PostApi.Recent` | src/Http/Controllers/Api/PostController.php:39-55 | a post is kept exactly when the filter holds: unread if asked for, and public or viewable by a signed-in user on both category and thread; the result is an order-preserving subsequence of the input |
| `PostApi.Unread` | src/Http/Controllers/Api/PostController.php:57-60 | exactly the posts readable under the privacy rule whose thread has no reader or that were updated since it |
| `PostApi.UnreadNarrowsRecent` | src/Http/Controllers/Api/PostController.php:45 | the unread view is an order-preserving subsequence of the plain recent view |
| `PostApi.PublicPostsAreRecent` | src/Http/Controllers/Api/PostController.php:47 | without `unreadOnly`, every post of a public category is kept |
| `PostApi.GuestSeesOnlyPublic` | src/Http/Controllers/Api/PostController.php:47-48 | with no signed-in user, only posts of public categories are kept |
| `PostApi.RecentCountsPositions` | src/Http/Controllers/Api/PostController.php:41-52 | the result has one post per input position the filter accepts |
| `PostApi.ViewGuard` | src/Http/Controllers/Api/PostController.php:64-68 | public: allowed with no check; private: `view` on the category, then on the thread only when the first passed, allowed exactly when both pass |
| `PostApi.Fetch` | src/Http/Controllers/Api/PostController.php:62-71 | the post when the guard of its thread allows it, else 403; the checks run are the guard's |
| `PostApi.IndexByThread` | src/Http/Controllers/Api/PostController.php:16-30 | the thread's posts when the guard allows it, else 403; the checks run are the guard's |
| `PostApi.PublicFetchRunsNoChecks` | src/Http/Controllers/Api/PostController.php:18-24 | for a public category, both `fetch` and `indexByThread` answer with no authorization run |
| `PostApi.FetchAgreesWithRecent` | src/Http/Controllers/Api/PostController.php:43-68 | for a signed-in user, `fetch` succeeds exactly when the recent filter's privacy rule lets the post through |

## Left out

- `index`: it is a single call to the framework's paginator over the whole
  table, with no rule of its own.
- Response shaping is left out. This covers `response`, `notFoundResponse`,
  `buildFailedValidationResponse` and the JSON vs. plain choice. A response
  is `Ok(data, message) | NotFound | Forbidden`. The model also does not
  capture that a filtered collection keeps its original positions as keys
  for serialization; it keeps only the order.
- Request validation (the constructor's rules, and `items` being required in
  `bulk`) is left out. It belongs to the framework validator. `items` is
  taken as given.
- `withRequestScopes` is defined in a model base class that is not part of
  this model. Its effect on lookups is the `withTrashed` constant.
- Translation (`trans`) is not modelled. A message is its translation key
  and count.
- `doUpdate` is defined by the concrete controllers, which are not part of
  this model. `Update` has it write the request attributes through
  `UpdateAttributes` with no second authorization. The source's check for a
  `JsonResponse` returned by `doUpdate` is folded into that.
- Authorization failures are modelled as a 403 answer. In the source they
  are exceptions. This model has no bulk action that authorizes, so no
  exception can escape the bulk loop.
- `force` is compared as an integer. PHP's loose comparison of strings with
  1 is not modelled.
- Eloquent framework behaviour is left out. This covers mass-assignment
  filtering by `$fillable`, and `save` skipping writes of clean attributes.
  It also covers `delete`/`restore` setting `deleted_at` and touching
  `updated_at`: those two change only the status here. So the soft-delete
  round trip is stated over this model's record.
- `UpdateAttributes` sets the instance's timestamps flag to true even for a
  model whose class default is false (such as `Category`). The model states
  this. Nothing in the modelled code saves that instance again, so no
  consequence follows.
- Database ties in `ORDER BY` are left unspecified by the source. The model
  resolves them with a stable sort. It takes the earliest maximal thread for
  `newestThread` and `latestActiveThread`.
- Pagination is modelled as the slice of the current page. The page size
  (a configuration value) is a parameter, and so is the current page.
  Paginator metadata and `render` (`getPageLinksAttribute`) are left out.
- `rememberAttribute` memoization of the counts is left out. It caches per
  request and does not change the value.
- Route and URL attributes (`getRouteAttribute`,
  `getNewThreadRouteAttribute`) and `indexByThread`'s `links` are left out.
  They call the framework's `route()`. The slug is a stored field.
- `Post::recent()` and the post's `updatedSince` come from code that is not
  part of this model. The first is the input sequence, the second a field
  of `Env`.
- `PostController::search` and `store` are left out. They delegate to
  request `fulfill()` methods that are not part of this model.
- `src/Riari/Forum/Models/Thread.php`, `config/integration.php` and the
  post edit view are left out. They hold relation declarations, URL
  generation, configuration and markup.
- There is no cycle check on the category hierarchy, in the source or in
  this model.
- `ApiBase.DestroyStep`, `ApiBase.RestoreStep`, `ApiBase.Step`,
  `ApiBase.BulkRun`: their own contracts state only that no authorization
  is involved. Their case-by-case behaviour is stated by
  `DestroyMissesNotFound`, `DestroyWithoutForce`, `ForceDeleteIsPermanent`,
  `RestoreMissesNotFound`, `RestoreOnlyTrashed`,
  `SoftDeleteRestoreRoundTrip`, `BulkSplit` and `BulkDestroyKeepsActive`.
- `PostApi.IndexByThread`: `threadPosts` stands for the page that
  `$thread->posts()->paginate()` returns (PostController.php:24). The
  paginator itself is left out, as above.
- `updateAttributes` has no `finally` around its write
  (BaseController.php:180-182). An exception from `$model->update` would
  leave the timestamps flag false. Exceptions from the write are not
  modelled.
- `update` passes `$this->request` to `doUpdate` (BaseController.php:109).
  The constructor shown (lines 38-48) never assigns that field (declared at
  line 26), so where the attributes come from rests on subclasses that are
  not part of this model. The model takes the attributes as a parameter.
- The constructor stores one query object (BaseController.php:47), and
  every `find` reuses it (lines 126 and 151, reached from the bulk loop at
  201-203). If that object is a query builder, `where` clauses could pile
  up across bulk items. The model treats each lookup as a fresh query.
