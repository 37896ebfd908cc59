/**
 * The generic API controller: a record lifecycle over a store in which
 * every id is absent, active or trashed (soft-deleted). The step functions
 * describe one action each on a store value; the class BaseController holds
 * the store and carries out the same actions in place, and its methods are
 * proved to agree with the step functions.
 */
module ApiBase {
  import opened Collections

  type Id = int

  datatype Status = Active | Trashed

  /** A stored row: its soft-delete status, its attributes and its `updated_at`. */
  datatype Record = Record(status: Status, attributes: map<string, string>, updatedAt: int)

  /** The table behind the controller's model; an id that is not a key is absent. */
  type Store = map<Id, Record>

  /** The request's input parameters (`id`, `force`, ...). */
  type Input = map<string, int>

  datatype Message = NoMessage | Trans(key: string, count: nat)

  /** What a successful response carries: one model, or a collection of them. */
  datatype Content = Model(id: Id, record: Record) | Collection(items: seq<Content>)

  datatype Response = Ok(data: Content, message: Message) | NotFound | Forbidden

  /** The controller actions a bulk request can run once per item. */
  datatype Action = Destroy | Restore

  /** One authorization request: an ability asked of the gate for a model. */
  datatype Check = Check(ability: string, id: Id)

  /** The query `find(id)`, which sees trashed rows only when `withTrashed` holds. */
  function Find(s: Store, id: Id, withTrashed: bool): Option<Record>
  {
    if id in s && (withTrashed || s[id].status == Active) then Some(s[id]) else None
  }

  /** `find($request->input('id'))`: a request without an id finds nothing. */
  function FindRequested(s: Store, req: Input, withTrashed: bool): Option<Record>
  {
    if "id" in req then Find(s, req["id"], withTrashed) else None
  }

  /** `$request->has('force') && $request->input('force') == 1`. */
  predicate Forced(req: Input)
  {
    "force" in req && req["force"] == 1
  }

  /** Eloquent's `update`: merge the attributes, touching `updated_at` only when timestamps are on. */
  function Write(rec: Record, attrs: map<string, string>, timestamps: bool, now: int): (r: Record)
    ensures r.status == rec.status
    ensures r.attributes.Keys == rec.attributes.Keys + attrs.Keys
    ensures forall k :: k in attrs ==> r.attributes[k] == attrs[k]
    ensures forall k :: k in rec.attributes && k !in attrs ==> r.attributes[k] == rec.attributes[k]
    ensures r.updatedAt == if timestamps then now else rec.updatedAt
  {
    rec.(attributes := rec.attributes + attrs, updatedAt := if timestamps then now else rec.updatedAt)
  }

  /** `destroy`: force-delete, soft-delete, or not found. */
  function DestroyStep(s: Store, withTrashed: bool, req: Input): (r: (Store, Response))
    ensures !r.1.Forbidden?
  {
    match FindRequested(s, req, withTrashed)
    case None => (s, NotFound)
    case Some(rec) =>
      var id := req["id"];
      if Forced(req) then
        (s - {id}, Ok(Model(id, rec), Trans("perma_deleted", 1)))
      else if rec.status == Active then
        var trashed := rec.(status := Trashed);
        (s[id := trashed], Ok(Model(id, trashed), Trans("deleted", 1)))
      else
        (s, NotFound)
  }

  /** `restore`: the lookup always includes trashed rows; only a trashed row is restored. */
  function RestoreStep(s: Store, req: Input): (r: (Store, Response))
    ensures !r.1.Forbidden?
  {
    match FindRequested(s, req, true)
    case None => (s, NotFound)
    case Some(rec) =>
      var id := req["id"];
      if rec.status == Trashed then
        var restored := rec.(status := Active);
        (s[id := restored], Ok(Model(id, restored), Trans("restored", 1)))
      else
        (s, NotFound)
  }

  /** `$this->{$action}($request)` over the closed set of bulk actions. */
  function Step(action: Action, s: Store, withTrashed: bool, req: Input): (r: (Store, Response))
    ensures !r.1.Forbidden?
  {
    match action
    case Destroy => DestroyStep(s, withTrashed, req)
    case Restore => RestoreStep(s, req)
  }

  /** The request one bulk item runs with: `$input + compact('id')`, where keys of `$input` win. */
  function ItemRequest(input: Input, id: Id): Input
  {
    map["id" := id] + input
  }

  /** The store after running `action` on every item in order, and every response in order. */
  function BulkRun(s: Store, withTrashed: bool, action: Action, input: Input, items: seq<Id>): (r: (Store, seq<Response>))
    ensures |r.1| == |items|
    ensures forall i :: 0 <= i < |r.1| ==> !r.1[i].Forbidden?
    decreases |items|
  {
    if items == [] then (s, [])
    else
      var (s1, rs) := BulkRun(s, withTrashed, action, input, items[..|items| - 1]);
      var (s2, r) := Step(action, s1, withTrashed, ItemRequest(input, items[|items| - 1]));
      (s2, rs + [r])
  }

  /** The contents of the responses that were not "not found", in order. */
  function Kept(rs: seq<Response>): (r: seq<Content>)
    ensures |r| <= |rs|
    ensures forall i :: 0 <= i < |rs| && rs[i].Ok? ==> rs[i].data in r
    ensures forall c :: c in r ==> exists i :: 0 <= i < |rs| && rs[i].Ok? && rs[i].data == c
    decreases |rs|
  {
    if rs == [] then []
    else
      var n := |rs| - 1;
      var init, last := rs[..n], rs[n];
      var rest := Kept(init);
      assert forall i :: 0 <= i < n ==> rs[i] == init[i];
      rest + (if last.Ok? then [last.data] else [])
  }

  /** The indices of `rs` that hold an Ok response. */
  ghost function OkIndices(rs: seq<Response>): set<int>
  {
    set i | 0 <= i < |rs| && rs[i].Ok?
  }

  /** One more response adds its index to the Ok indices exactly when it is Ok. */
  lemma OkIndicesSnoc(rs: seq<Response>)
    requires rs != []
    ensures |OkIndices(rs)| == |OkIndices(rs[..|rs| - 1])| + (if rs[|rs| - 1].Ok? then 1 else 0)
  {
    var n := |rs| - 1;
    var init := rs[..n];
    var before, after := OkIndices(init), OkIndices(rs);
    var last: set<int> := if rs[n].Ok? then {n} else {};
    forall i ensures i in after <==> i in before + last {
      if 0 <= i < n { assert rs[i] == init[i]; }
    }
    assert after == before + last;
    assert n !in before;
  }

  /** Kept holds one content per Ok response. */
  lemma {:induction false} KeptCountsOk(rs: seq<Response>)
    ensures |Kept(rs)| == |OkIndices(rs)|
    decreases |rs|
  {
    if rs != [] {
      KeptCountsOk(rs[..|rs| - 1]);
      OkIndicesSnoc(rs);
    }
  }

  /** The active ids among `items`, each as the trashed model a soft delete returns. */
  function SoftDeleted(s: Store, items: seq<Id>): seq<Content>
    decreases |items|
  {
    if items == [] then []
    else
      var id := items[|items| - 1];
      SoftDeleted(s, items[..|items| - 1]) +
      (if id in s && s[id].status == Active then [Model(id, s[id].(status := Trashed))] else [])
  }

  predicate Distinct(items: seq<Id>)
  {
    forall i, j :: 0 <= i < j < |items| ==> items[i] != items[j]
  }

  // ---------------------------------------------------------------------
  // Properties of the lifecycle

  /** Destroy without force on a trashed record, or on one the lookup misses, changes nothing. */
  lemma DestroyWithoutForce(s: Store, withTrashed: bool, req: Input)
    requires !Forced(req)
    ensures var (s', r) := DestroyStep(s, withTrashed, req);
      if FindRequested(s, req, withTrashed).Some? && s[req["id"]].status == Active then
        s' == s[req["id"] := s[req["id"]].(status := Trashed)] && r.Ok?
      else
        s' == s && r == NotFound
  {
  }

  /** Destroy, forced or not, of an id the lookup misses changes nothing and is not found. */
  lemma DestroyMissesNotFound(s: Store, withTrashed: bool, req: Input)
    requires FindRequested(s, req, withTrashed).None?
    ensures DestroyStep(s, withTrashed, req) == (s, NotFound)
  {
  }

  /** Restore of an id the lookup misses changes nothing and is not found. */
  lemma RestoreMissesNotFound(s: Store, req: Input)
    requires FindRequested(s, req, true).None?
    ensures RestoreStep(s, req) == (s, NotFound)
  {
  }

  /** Force-deleting a found record removes it: afterwards neither fetch nor restore finds it. */
  lemma ForceDeleteIsPermanent(s: Store, withTrashed: bool, req: Input)
    requires Forced(req) && FindRequested(s, req, withTrashed).Some?
    ensures var (s', r) := DestroyStep(s, withTrashed, req);
      var id := req["id"];
      && r == Ok(Model(id, s[id]), Trans("perma_deleted", 1))
      && s' == s - {id}
      && Find(s', id, withTrashed) == None
      && RestoreStep(s', map["id" := id]) == (s', NotFound)
  {
  }

  /** Restore acts on a trashed record only; otherwise it changes nothing. */
  lemma RestoreOnlyTrashed(s: Store, req: Input)
    ensures var (s', r) := RestoreStep(s, req);
      if "id" in req && req["id"] in s && s[req["id"]].status == Trashed then
        s' == s[req["id"] := s[req["id"]].(status := Active)] && r.Ok?
      else
        s' == s && r == NotFound
  {
  }

  /** Soft delete followed by restore of the same id gives back the original store. */
  lemma SoftDeleteRestoreRoundTrip(s: Store, withTrashed: bool, id: Id)
    requires id in s && s[id].status == Active
    ensures var (s1, r1) := DestroyStep(s, withTrashed, map["id" := id]);
      var (s2, r2) := RestoreStep(s1, map["id" := id]);
      r1.Ok? && r2.Ok? && s2 == s
  {
    var s1 := DestroyStep(s, withTrashed, map["id" := id]).0;
    assert s1 == s[id := s[id].(status := Trashed)];
    assert s1[id := s1[id].(status := Active)] == s;
  }

  /** Running a bulk request on `a + b` runs `a` and then `b` from where `a` left the store. */
  lemma {:induction false} BulkSplit(s: Store, withTrashed: bool, action: Action, input: Input, a: seq<Id>, b: seq<Id>)
    ensures var (s1, ra) := BulkRun(s, withTrashed, action, input, a);
      var (s2, rb) := BulkRun(s1, withTrashed, action, input, b);
      BulkRun(s, withTrashed, action, input, a + b) == (s2, ra + rb)
    decreases |b|
  {
    if b == [] {
      assert a + b == a;
      var (s1, ra) := BulkRun(s, withTrashed, action, input, a);
      assert BulkRun(s1, withTrashed, action, input, b) == (s1, []);
      assert ra + [] == ra;
    } else {
      var n := |b| - 1;
      BulkSplit(s, withTrashed, action, input, a, b[..n]);
      var (s1, ra) := BulkRun(s, withTrashed, action, input, a);
      var (s2, rb) := BulkRun(s1, withTrashed, action, input, b[..n]);
      var (s3, r) := Step(action, s2, withTrashed, ItemRequest(input, b[n]));
      assert BulkRun(s1, withTrashed, action, input, b) == (s3, rb + [r]);
      assert (a + b)[..|a + b| - 1] == a + b[..n];
      assert (a + b)[|a + b| - 1] == b[n];
      assert BulkRun(s, withTrashed, action, input, a + b) == (s3, (ra + rb) + [r]);
      assert (ra + rb) + [r] == ra + (rb + [r]);
    }
  }

  /** The kept contents of a response list split at a concatenation. */
  lemma {:induction false} KeptConcat(xs: seq<Response>, ys: seq<Response>)
    ensures Kept(xs + ys) == Kept(xs) + Kept(ys)
    decreases |ys|
  {
    if ys == [] {
      assert xs + ys == xs;
    } else {
      var n := |ys| - 1;
      assert (xs + ys)[..|xs + ys| - 1] == xs + ys[..n];
      assert (xs + ys)[|xs + ys| - 1] == ys[n];
      KeptConcat(xs, ys[..n]);
    }
  }

  /** Kept of one more response keeps that response's content only when it is Ok. */
  lemma KeptSnoc(rs: seq<Response>, r: Response)
    ensures Kept(rs + [r]) == Kept(rs) + (if r.Ok? then [r.data] else [])
  {
    assert (rs + [r])[..|rs|] == rs;
  }

  /** `s'` is `s` with every active record among `items` trashed and nothing else changed. */
  ghost predicate TrashedAmong(s: Store, s': Store, items: seq<Id>)
  {
    && s'.Keys == s.Keys
    && (forall id :: id in s && id !in items ==> s'[id] == s[id])
    && (forall id :: id in s && id in items ==> s'[id] == s[id].(status := Trashed))
  }

  /** A bulk soft delete over distinct ids trashes exactly its active records and nothing else. */
  lemma {:induction false} BulkDestroyTrashes(s: Store, withTrashed: bool, input: Input, items: seq<Id>)
    requires Distinct(items) && "id" !in input && !Forced(input)
    ensures TrashedAmong(s, BulkRun(s, withTrashed, Destroy, input, items).0, items)
    decreases |items|
  {
    if items != [] {
      var n := |items| - 1;
      var init, id := items[..n], items[n];
      assert Distinct(init);
      BulkDestroyTrashes(s, withTrashed, input, init);
      var s1 := BulkRun(s, withTrashed, Destroy, input, init).0;
      assert id !in init;
      var req := ItemRequest(input, id);
      assert "id" in req && req["id"] == id && !Forced(req);
      DestroyWithoutForce(s1, withTrashed, req);
      var s2 := DestroyStep(s1, withTrashed, req).0;
      assert BulkRun(s, withTrashed, Destroy, input, items).0 == s2;
      if id in s && s[id].status == Active {
        assert s2 == s1[id := s[id].(status := Trashed)];
      } else {
        assert id in s ==> s[id].(status := Trashed) == s[id];
        assert s2 == s1;
      }
      forall x | x in items ensures x in init || x == id { }
    }
  }

  /** A bulk soft delete over distinct ids answers its active records, trashed, in input order. */
  lemma {:induction false} BulkDestroyAnswers(s: Store, withTrashed: bool, input: Input, items: seq<Id>)
    requires Distinct(items) && "id" !in input && !Forced(input)
    ensures Kept(BulkRun(s, withTrashed, Destroy, input, items).1) == SoftDeleted(s, items)
    decreases |items|
  {
    if items != [] {
      var n := |items| - 1;
      var init, id := items[..n], items[n];
      assert Distinct(init);
      BulkDestroyAnswers(s, withTrashed, input, init);
      BulkDestroyTrashes(s, withTrashed, input, init);
      var (s1, rs1) := BulkRun(s, withTrashed, Destroy, input, init);
      assert id !in init;
      assert id in s ==> s1[id] == s[id];
      var req := ItemRequest(input, id);
      assert "id" in req && req["id"] == id && !Forced(req);
      var r := DestroyStep(s1, withTrashed, req).1;
      assert BulkRun(s, withTrashed, Destroy, input, items).1 == rs1 + [r];
      KeptSnoc(rs1, r);
      if id in s && s[id].status == Active {
        assert r == Ok(Model(id, s[id].(status := Trashed)), Trans("deleted", 1));
      } else {
        assert r == NotFound;
      }
    }
  }

  /**
   * A bulk soft delete over distinct ids keeps exactly the active records,
   * trashed, in input order; every other id is skipped as not found, and
   * ids outside the batch are untouched.
   */
  lemma BulkDestroyKeepsActive(s: Store, withTrashed: bool, input: Input, items: seq<Id>)
    requires Distinct(items) && "id" !in input && !Forced(input)
    ensures var (s', rs) := BulkRun(s, withTrashed, Destroy, input, items);
      Kept(rs) == SoftDeleted(s, items) && TrashedAmong(s, s', items)
  {
    BulkDestroyTrashes(s, withTrashed, input, items);
    BulkDestroyAnswers(s, withTrashed, input, items);
  }

  // ---------------------------------------------------------------------
  // The controller

  /**
   * BaseController bound to one model class. `store` is that model's table,
   * `withTrashed` says whether the request scopes applied in the constructor
   * let `find` see trashed rows, `timestamps` is the model's timestamps flag,
   * `policy` answers the gate and `checks` records every authorization asked.
   */
  class BaseController {
    var store: Store
    var timestamps: bool
    var checks: seq<Check>
    const withTrashed: bool
    const policy: (string, Id) -> bool

    constructor (store0: Store, withTrashed: bool, timestamps: bool, policy: (string, Id) -> bool)
      ensures store == store0 && this.withTrashed == withTrashed && this.timestamps == timestamps
      ensures this.policy == policy && checks == []
    {
      store := store0;
      this.withTrashed := withTrashed;
      this.timestamps := timestamps;
      this.policy := policy;
      checks := [];
    }

    /** GET: the record with this id, or not found; the store is read only. */
    method Fetch(id: Id) returns (r: Response)
      ensures r.NotFound? <==> !(id in store && (withTrashed || store[id].status == Active))
      ensures !r.NotFound? ==> r == Ok(Model(id, store[id]), NoMessage)
    {
      var found := Find(store, id, withTrashed);
      if found.None? {
        return NotFound;
      }
      r := Ok(Model(id, found.value), NoMessage);
    }

    /** `$this->authorize`: asks the gate, records the request, and fails with a 403 when refused. */
    method Authorize(ability: string, id: Id) returns (allowed: bool)
      modifies this`checks
      ensures checks == old(checks) + [Check(ability, id)]
      ensures allowed == policy(ability, id)
    {
      checks := checks + [Check(ability, id)];
      allowed := policy(ability, id);
    }

    /**
     * Writes `attrs` with the timestamps flag off, then turns it on; the
     * optional `authorize` pair is checked first.
     */
    method UpdateAttributes(id: Id, attrs: map<string, string>, authorize: Option<(string, Id)>, now: int) returns (r: Response)
      requires id in store
      modifies this`store, this`timestamps, this`checks
      ensures authorize.None? ==> checks == old(checks)
      ensures authorize.Some? ==> checks == old(checks) + [Check(authorize.value.0, authorize.value.1)]
      ensures r.Forbidden? <==> authorize.Some? && !policy(authorize.value.0, authorize.value.1)
      ensures r.Forbidden? ==> store == old(store) && timestamps == old(timestamps)
      ensures !r.Forbidden? ==>
        var rec := Write(old(store)[id], attrs, false, now);
        && store == old(store)[id := rec]
        && store[id].updatedAt == old(store)[id].updatedAt
        && timestamps
        && r == Ok(Model(id, rec), Trans("updated", 1))
    {
      if authorize.Some? {
        var allowed := Authorize(authorize.value.0, authorize.value.1);
        if !allowed {
          return Forbidden;
        }
      }
      timestamps := false;
      var rec := Write(store[id], attrs, timestamps, now);
      store := store[id := rec];
      timestamps := true;
      r := Ok(Model(id, rec), Trans("updated", 1));
    }

    /**
     * PUT/PATCH: not found with no authorization asked, or the `edit`
     * check and then the write.
     */
    method Update(id: Id, attrs: map<string, string>, now: int) returns (r: Response)
      modifies this`store, this`timestamps, this`checks
      ensures Find(old(store), id, withTrashed).None? ==>
        r == NotFound && store == old(store) && checks == old(checks) && timestamps == old(timestamps)
      ensures Find(old(store), id, withTrashed).Some? ==>
        checks == old(checks) + [Check("edit", id)] &&
        if policy("edit", id) then
          var rec := Write(old(store)[id], attrs, false, now);
          store == old(store)[id := rec] && timestamps && r == Ok(Model(id, rec), Trans("updated", 1))
        else
          r == Forbidden && store == old(store) && timestamps == old(timestamps)
    {
      var found := Find(store, id, withTrashed);
      if found.None? {
        return NotFound;
      }
      var allowed := Authorize("edit", id);
      if !allowed {
        return Forbidden;
      }
      r := UpdateAttributes(id, attrs, None, now);
    }

    /** DELETE: force-delete when `force == 1`, else soft-delete an active record. */
    method Destroy(req: Input) returns (r: Response)
      modifies this`store
      ensures (store, r) == DestroyStep(old(store), withTrashed, req)
    {
      var found := FindRequested(store, req, withTrashed);
      if found.None? {
        return NotFound;
      }
      var id, rec := req["id"], found.value;
      if Forced(req) {
        store := store - {id};
        return Ok(Model(id, rec), Trans("perma_deleted", 1));
      } else if rec.status == Active {
        var trashed := rec.(status := Trashed);
        store := store[id := trashed];
        return Ok(Model(id, trashed), Trans("deleted", 1));
      }
      r := NotFound;
    }

    /** PATCH: restore a trashed record; anything else is not found. */
    method Restore(req: Input) returns (r: Response)
      modifies this`store
      ensures (store, r) == RestoreStep(old(store), req)
    {
      var found := FindRequested(store, req, true);
      if found.None? {
        return NotFound;
      }
      var id, rec := req["id"], found.value;
      if rec.status == Trashed {
        var restored := rec.(status := Active);
        store := store[id := restored];
        return Ok(Model(id, restored), Trans("restored", 1));
      }
      r := NotFound;
    }

    /**
     * Runs `action` once per item, in order, and answers with the contents
     * of the responses that were not "not found"; earlier items' effects
     * stay when later items are not found.
     */
    method Bulk(action: Action, transKey: string, input: Input, items: seq<Id>) returns (r: Response)
      modifies this`store
      ensures var (s, rs) := BulkRun(old(store), withTrashed, action, input, items);
        store == s && r == Ok(Collection(Kept(rs)), Trans(transKey, |Kept(rs)|))
    {
      var kept: seq<Content> := [];
      ghost var responses: seq<Response> := [];
      for i := 0 to |items|
        invariant (store, responses) == BulkRun(old(store), withTrashed, action, input, items[..i])
        invariant kept == Kept(responses)
      {
        assert items[..i + 1][..i] == items[..i];
        var req := ItemRequest(input, items[i]);
        var response: Response;
        match action {
          case Destroy => response := Destroy(req);
          case Restore => response := Restore(req);
        }
        if !response.NotFound? {
          kept := kept + [response.data];
        }
        ghost var before := responses;
        responses := responses + [response];
        assert responses[..|responses| - 1] == before;
      }
      assert items[..|items|] == items;
      r := Ok(Collection(kept), Trans(transKey, |kept|));
    }
  }
}
