/**
 * The decisions of the `/nfctags` API controller (`DomainController`): each
 * handler maps (table, caller, request) to (status and body, new table).
 * Every route requires an authenticated caller, so an anonymous request
 * (`None`) is answered 401 before any handler runs. An exception no
 * handler catches becomes a 500 response and saves nothing.
 */
module Api {
  import opened Values
  import opened Tags
  import opened Services
  import opened Selectors

  /** The tag table a request sees: its rows and the next primary key. */
  datatype Db = Db(rows: map<TagId, Tag>, nextId: TagId)

  /** The deployment: the concrete tag model, its uid validator and the scan parser. */
  datatype Env = Env(model: TagModel, validUid: Uid -> bool, parse: MirrorParser)

  ghost predicate ValidDb(db: Db, env: Env)
  {
    TableInvariant(db.rows, db.nextId, env.model)
  }

  datatype Body =
    | TagBody(tag: Tag)
    | TagPage(items: seq<Tag>)
    | Detail(message: string)
    | ValidationDetail(error: ServiceError)   // {"detail": str(e)} of a ValidationError
    | StorageDetail                           // {"detail": str(e)} of a failed delete
    | DeleteSuccess                           // {"success": True}
    | NoBody

  datatype Response = Response(status: nat, body: Body)

  datatype Exchange = Exchange(response: Response, db: Db)

  /** Body of both 404 answers of `scan_lookup`. */
  const TagNotFound := "Tag not found"

  /** Body of the 404 raised by `get_object_or_404`. */
  const NotFound := "Not Found"

  const AlreadyRegistered := "This tag is already registered to another account."

  function Unauthorized(db: Db): Exchange
  {
    Exchange(Response(401, NoBody), db)
  }

  function ServerError(db: Db): Exchange
  {
    Exchange(Response(500, NoBody), db)
  }

  // ---------------------------------------------------------------------
  // Listing order
  // ---------------------------------------------------------------------

  /** Row `top` of a query set has the greatest uuid. */
  ghost predicate IsNewest(qs: map<TagId, Tag>, top: TagId)
    requires top in qs
  {
    forall id :: id in qs ==> qs[id].uuid <= qs[top].uuid
  }

  /** Every non-empty query set has a row with the greatest uuid. */
  lemma {:induction false} GreatestUuidExists(qs: map<TagId, Tag>)
    requires qs != map[]
    ensures exists top :: top in qs && IsNewest(qs, top)
    decreases |qs|
  {
    var k :| k in qs;
    var rest := qs - {k};
    assert forall id :: id in qs && id != k ==> id in rest;
    if rest == map[] {
      assert IsNewest(qs, k);
    } else {
      assert |rest| < |qs| by {
        assert rest.Keys == qs.Keys - {k};
      }
      GreatestUuidExists(rest);
      var top :| top in rest && IsNewest(rest, top);
      if qs[k].uuid <= qs[top].uuid {
        assert IsNewest(qs, top);
      } else {
        assert IsNewest(qs, k);
      }
    }
  }

  /** `order_by("-uuid")`: repeatedly take the row with the greatest uuid. */
  ghost function NewestFirst(qs: map<TagId, Tag>): seq<TagId>
    decreases |qs|
  {
    if qs == map[] then []
    else
      GreatestUuidExists(qs);
      var top :| top in qs && IsNewest(qs, top);
      assert (qs - {top}).Keys == qs.Keys - {top};
      [top] + NewestFirst(qs - {top})
  }

  /** `s` lists every id of `qs` exactly once, by descending uuid. */
  ghost predicate ListsNewestFirst(qs: map<TagId, Tag>, s: seq<TagId>)
  {
    && |s| == |qs|
    && (forall i :: 0 <= i < |s| ==> s[i] in qs)
    && (forall id :: id in qs ==> id in s)
    && (forall i, j :: 0 <= i < j < |s| ==> s[i] != s[j] && s[i] in qs && s[j] in qs && qs[s[j]].uuid <= qs[s[i]].uuid)
  }

  /** Putting the newest row in front of a listing of the other rows lists them all. */
  lemma PrependNewest(qs: map<TagId, Tag>, top: TagId, r: seq<TagId>)
    requires top in qs && IsNewest(qs, top)
    requires ListsNewestFirst(qs - {top}, r)
    ensures ListsNewestFirst(qs, [top] + r)
  {
    var s := [top] + r;
    assert (qs - {top}).Keys == qs.Keys - {top};
    PrependCovers(qs, top, qs - {top}, r);
    forall i, j | 0 <= i < j < |s|
      ensures s[i] != s[j] && qs[s[j]].uuid <= qs[s[i]].uuid
    {
      PrependOrders(qs, top, r, i, j);
    }
  }

  lemma PrependCovers(qs: map<TagId, Tag>, top: TagId, rest: map<TagId, Tag>, r: seq<TagId>)
    requires top in qs && rest == qs - {top}
    requires |r| == |rest|
    requires forall i :: 0 <= i < |r| ==> r[i] in rest
    requires forall id :: id in rest ==> id in r
    ensures |[top] + r| == |qs|
    ensures forall i :: 0 <= i < |[top] + r| ==> ([top] + r)[i] in qs
    ensures forall id :: id in qs ==> id in [top] + r
  {
    assert rest.Keys == qs.Keys - {top};
    forall id | id in qs
      ensures id in [top] + r
    {
      if id != top {
        assert id in rest;
      }
    }
  }

  lemma PrependOrders(qs: map<TagId, Tag>, top: TagId, r: seq<TagId>, i: nat, j: nat)
    requires top in qs && IsNewest(qs, top)
    requires ListsNewestFirst(qs - {top}, r)
    requires i < j < |r| + 1
    ensures ([top] + r)[i] != ([top] + r)[j]
    ensures ([top] + r)[i] in qs && ([top] + r)[j] in qs
    ensures qs[([top] + r)[j]].uuid <= qs[([top] + r)[i]].uuid
  {
    var rest := qs - {top};
    assert ([top] + r)[j] == r[j - 1] && r[j - 1] in rest;
    if i > 0 {
      assert ([top] + r)[i] == r[i - 1] && r[i - 1] in rest;
      assert rest[r[j - 1]].uuid <= rest[r[i - 1]].uuid;
    }
  }

  lemma {:induction false} NewestFirstIsOrdered(qs: map<TagId, Tag>)
    ensures ListsNewestFirst(qs, NewestFirst(qs))
    decreases |qs|
  {
    if qs != map[] {
      var s := NewestFirst(qs);
      var top := s[0];
      var rest := qs - {top};
      assert top in qs && IsNewest(qs, top) && s == [top] + NewestFirst(rest);
      assert rest.Keys == qs.Keys - {top};
      NewestFirstIsOrdered(rest);
      PrependNewest(qs, top, NewestFirst(rest));
    }
  }

  /** The rows of a query set in the order of `ids`. */
  function RowsOf(qs: map<TagId, Tag>, ids: seq<TagId>): (s: seq<Tag>)
    requires forall i :: 0 <= i < |ids| ==> ids[i] in qs
    ensures |s| == |ids| && forall i :: 0 <= i < |s| ==> s[i] == qs[ids[i]]
  {
    seq(|ids|, i requires 0 <= i < |ids| => qs[ids[i]])
  }

  // ---------------------------------------------------------------------
  // Handlers
  // ---------------------------------------------------------------------

  /** `get_object_or_404(get_nfctags_for(caller), uuid=...)`. */
  ghost function VisibleByUuid(rows: map<TagId, Tag>, caller: Option<UserId>, uuid: Uuid): Lookup
  {
    GetOne(WithUuid(TagsFor(rows, caller), uuid))
  }

  /** `filter(uid=...).first()`: some row with that uid, if any. */
  ghost function First(ids: set<TagId>): (r: Option<TagId>)
    ensures r.None? <==> ids == {}
    ensures r.Some? ==> r.value in ids
  {
    if ids == {} then None else var id :| id in ids; Some(id)
  }

  /** `list_tags`: the caller's visible tags, newest uuid first (pagination left out). */
  ghost function ListTags(db: Db, caller: Option<UserId>): (x: Exchange)
    ensures x.db == db
  {
    if caller.None? then Unauthorized(db)
    else
      var qs := TagsFor(db.rows, caller);
      NewestFirstIsOrdered(qs);
      Exchange(Response(200, TagPage(RowsOf(qs, NewestFirst(qs)))), db)
  }

  /** `retrieve(uuid)`. */
  ghost function Retrieve(db: Db, caller: Option<UserId>, uuid: Uuid): (x: Exchange)
    ensures x.db == db
  {
    if caller.None? then Unauthorized(db)
    else
      match VisibleByUuid(db.rows, caller, uuid)
      case Missing => Exchange(Response(404, Detail(NotFound)), db)
      case Multiple => ServerError(db)
      case Found(id) => Exchange(Response(200, TagBody(db.rows[id])), db)
  }

  /**
   * `scan_lookup(ascii_mirror)`: the same 404 whether no tag has the scanned
   * uid or the tag is not visible to the caller.
   */
  ghost function ScanLookup(db: Db, caller: Option<UserId>, mirror: string, env: Env): (x: Exchange)
    ensures x.db == db
  {
    if caller.None? then Unauthorized(db)
    else
      match ByScan(db.rows, env.parse, mirror, caller)
      case Err(_) => ServerError(db)
      case Ok(None) => Exchange(Response(404, Detail(TagNotFound)), db)
      case Ok(Some(id)) =>
        if id !in VisibleFor(db.rows, caller) then Exchange(Response(404, Detail(TagNotFound)), db)
        else Exchange(Response(200, TagBody(db.rows[id])), db)
  }

  /**
   * `register(uid)`; `uuid` is what `uuid.uuid4()` draws if a tag is created.
   * An unknown uid creates a tag owned by the caller (201; a `full_clean()`
   * failure there is outside the `try` and becomes 500); an available tag is
   * given to the caller (200, or 400 on a `ValidationError`); any other tag
   * is refused with 409.
   */
  ghost function Register(db: Db, caller: Option<UserId>, uid: Uid, uuid: Uuid, env: Env): (x: Exchange)
    requires ValidDb(db, env)
    ensures db.rows.Keys <= x.db.rows.Keys && db.nextId <= x.db.nextId
  {
    if caller.None? then Unauthorized(db)
    else
      match First(WithUid(db.rows, uid))
      case None =>
        (match CreateOutcome(db.rows, db.nextId, env.model, env.validUid, caller, uid, uuid)
         case Ok(t) => Exchange(Response(201, TagBody(t)), Db(db.rows[db.nextId := t], db.nextId + 1))
         case Err(_) => ServerError(db))
      case Some(id) =>
        if IsAvailableToRegister(db.rows[id]) then
          var r := RegisterOutcome(db.rows, id, caller, env.validUid);
          match r
          case Ok(t) => Exchange(Response(200, TagBody(t)), Db(Commit(db.rows, id, r), db.nextId))
          case Err(e) => Exchange(Response(400, ValidationDetail(e)), db)
        else Exchange(Response(409, Detail(AlreadyRegistered)), db)
  }

  /**
   * `update(uuid, label)`: writes `label` when the payload has one and the
   * model has the attribute (a `full_clean()` failure there is uncaught:
   * 500); otherwise saves nothing. The uid is never written.
   */
  ghost function Update(db: Db, caller: Option<UserId>, uuid: Uuid, newLabel: Option<string>, env: Env): (x: Exchange)
    ensures x.db.rows.Keys == db.rows.Keys && x.db.nextId == db.nextId
  {
    if caller.None? then Unauthorized(db)
    else
      match VisibleByUuid(db.rows, caller, uuid)
      case Missing => Exchange(Response(404, Detail(NotFound)), db)
      case Multiple => ServerError(db)
      case Found(id) =>
        var tag := db.rows[id];
        if newLabel.Some? && tag.labelAttr.Label? then
          var tag' := tag.(labelAttr := Label(newLabel.value));
          if FullClean(db.rows, id, tag', env.validUid)
          then Exchange(Response(200, TagBody(tag')), Db(db.rows[id := tag'], db.nextId))
          else ServerError(db)
        else Exchange(Response(200, TagBody(tag)), db)
  }

  /** `disconnect(uuid)`: 200 with the released tag, or 400 on a `ValidationError`. */
  ghost function Disconnect(db: Db, caller: Option<UserId>, uuid: Uuid, env: Env): (x: Exchange)
    ensures x.db.rows.Keys == db.rows.Keys && x.db.nextId == db.nextId
  {
    if caller.None? then Unauthorized(db)
    else
      match VisibleByUuid(db.rows, caller, uuid)
      case Missing => Exchange(Response(404, Detail(NotFound)), db)
      case Multiple => ServerError(db)
      case Found(id) =>
        var r := DisconnectOutcome(db.rows, id, caller, env.validUid);
        match r
        case Ok(t) => Exchange(Response(200, TagBody(t)), Db(Commit(db.rows, id, r), db.nextId))
        case Err(e) => Exchange(Response(400, ValidationDetail(e)), db)
  }

  /** `deactivate(uuid)`: 200 with the deactivated tag; a `ValidationError` is uncaught (500). */
  ghost function Deactivate(db: Db, caller: Option<UserId>, uuid: Uuid, env: Env): (x: Exchange)
    ensures x.db.rows.Keys == db.rows.Keys && x.db.nextId == db.nextId
  {
    if caller.None? then Unauthorized(db)
    else
      match VisibleByUuid(db.rows, caller, uuid)
      case Missing => Exchange(Response(404, Detail(NotFound)), db)
      case Multiple => ServerError(db)
      case Found(id) =>
        var r := DeactivateOutcome(db.rows, id, env.validUid);
        match r
        case Ok(t) => Exchange(Response(200, TagBody(t)), Db(Commit(db.rows, id, r), db.nextId))
        case Err(_) => ServerError(db)
  }

  /**
   * `delete(uuid)`: a hard delete, the functional form of `TagStore.Delete`;
   * `storageFails` says whether the database refuses it (400).
   */
  ghost function Delete(db: Db, caller: Option<UserId>, uuid: Uuid, storageFails: bool): (x: Exchange)
    ensures x.db.rows.Keys <= db.rows.Keys && x.db.nextId == db.nextId
    ensures forall id :: id in x.db.rows ==> x.db.rows[id] == db.rows[id]
  {
    if caller.None? then Unauthorized(db)
    else
      match VisibleByUuid(db.rows, caller, uuid)
      case Missing => Exchange(Response(404, Detail(NotFound)), db)
      case Multiple => ServerError(db)
      case Found(id) =>
        if storageFails then Exchange(Response(400, StorageDetail), db)
        else Exchange(Response(200, DeleteSuccess), Db(db.rows - {id}, db.nextId))
  }

  /** The routes of the controller, with what each request carries. */
  datatype Request =
    | ListRequest
    | RetrieveRequest(uuid: Uuid)
    | ScanRequest(asciiMirror: string)
    | RegisterRequest(uid: Uid, freshUuid: Uuid)
    | UpdateRequest(uuid: Uuid, newLabel: Option<string>)
    | DisconnectRequest(uuid: Uuid)
    | DeactivateRequest(uuid: Uuid)
    | DeleteRequest(uuid: Uuid, storageFails: bool)
  {
    /** The routes that name a tag by uuid and fetch it through the caller's visible set. */
    predicate ByUuid()
    {
      RetrieveRequest? || UpdateRequest? || DisconnectRequest? || DeactivateRequest? || DeleteRequest?
    }
  }

  /** The controller: one request against the table. */
  ghost function Handle(db: Db, caller: Option<UserId>, req: Request, env: Env): (x: Exchange)
    requires ValidDb(db, env)
    ensures db.nextId <= x.db.nextId
    ensures caller.None? ==> x == Unauthorized(db)
  {
    match req
    case ListRequest => ListTags(db, caller)
    case RetrieveRequest(uuid) => Retrieve(db, caller, uuid)
    case ScanRequest(mirror) => ScanLookup(db, caller, mirror, env)
    case RegisterRequest(uid, uuid) => Register(db, caller, uid, uuid, env)
    case UpdateRequest(uuid, newLabel) => Update(db, caller, uuid, newLabel, env)
    case DisconnectRequest(uuid) => Disconnect(db, caller, uuid, env)
    case DeactivateRequest(uuid) => Deactivate(db, caller, uuid, env)
    case DeleteRequest(uuid, fails) => Delete(db, caller, uuid, fails)
  }

  // ---------------------------------------------------------------------
  // Properties
  // ---------------------------------------------------------------------

  /** In a valid table a visible tag is found by its uuid, and nothing else is. */
  lemma VisibleLookup(db: Db, env: Env, caller: Option<UserId>, uuid: Uuid)
    requires ValidDb(db, env)
    ensures !VisibleByUuid(db.rows, caller, uuid).Multiple?
    ensures VisibleByUuid(db.rows, caller, uuid).Found? ==>
              var id := VisibleByUuid(db.rows, caller, uuid).id;
              id in VisibleFor(db.rows, caller) && db.rows[id].uuid == uuid
    ensures (exists id :: id in VisibleFor(db.rows, caller) && db.rows[id].uuid == uuid) ==>
              VisibleByUuid(db.rows, caller, uuid).Found?
  {
    UniqueUuidLookup(TagsFor(db.rows, caller), uuid);
    if exists id :: id in VisibleFor(db.rows, caller) && db.rows[id].uuid == uuid {
      var id :| id in VisibleFor(db.rows, caller) && db.rows[id].uuid == uuid;
      assert id in WithUuid(TagsFor(db.rows, caller), uuid);
    }
  }

  /** A tag the caller can see is the one its uuid finds. */
  lemma VisibleTagLookup(db: Db, env: Env, caller: UserId, id: TagId)
    requires ValidDb(db, env) && id in VisibleFor(db.rows, Some(caller))
    ensures VisibleByUuid(db.rows, Some(caller), db.rows[id].uuid) == Found(id)
  {
    VisibleLookup(db, env, Some(caller), db.rows[id].uuid);
  }

  /** `retrieve` answers 200 with the row for every tag the caller can see, and writes nothing. */
  lemma VisibleTagIsFound(db: Db, caller: UserId, id: TagId, env: Env)
    requires ValidDb(db, env) && id in VisibleFor(db.rows, Some(caller))
    ensures Retrieve(db, Some(caller), db.rows[id].uuid) == Exchange(Response(200, TagBody(db.rows[id])), db)
  {
    VisibleTagLookup(db, env, caller, id);
  }

  /**
   * `update` on a visible tag: with a payload label and a model that has the
   * attribute, the label is saved (200) exactly when `full_clean()` accepts
   * the relabelled tag, else 500 with nothing saved; without either, 200 with
   * the tag as it is.
   */
  lemma UpdateVisibleTag(db: Db, caller: UserId, id: TagId, newLabel: Option<string>, env: Env)
    requires ValidDb(db, env) && id in VisibleFor(db.rows, Some(caller))
    ensures var x := Update(db, Some(caller), db.rows[id].uuid, newLabel, env);
            if newLabel.Some? && db.rows[id].labelAttr.Label? then
              var tag' := db.rows[id].(labelAttr := Label(newLabel.value));
              && (x.response.status == 200 <==> FullClean(db.rows, id, tag', env.validUid))
              && (x.response.status == 200 ==>
                    x == Exchange(Response(200, TagBody(tag')), Db(db.rows[id := tag'], db.nextId)))
              && (x.response.status != 200 ==> x == ServerError(db))
            else x == Exchange(Response(200, TagBody(db.rows[id])), db)
  {
    VisibleTagLookup(db, env, caller, id);
  }

  /**
   * `disconnect` on a visible tag releases it (200): the owner is cleared,
   * the tag stays active and so becomes available to register, exactly when
   * `full_clean()` accepts the tag; otherwise 400 with nothing saved.
   */
  lemma DisconnectVisibleTag(db: Db, caller: UserId, id: TagId, env: Env)
    requires ValidDb(db, env) && id in VisibleFor(db.rows, Some(caller))
    ensures var x := Disconnect(db, Some(caller), db.rows[id].uuid, env);
            && x.response.status in {200, 400}
            && (x.response.status == 200 <==> FullClean(db.rows, id, db.rows[id], env.validUid))
            && (x.response.status == 200 ==>
                  && x.db == Db(db.rows[id := db.rows[id].(owner := None)], db.nextId)
                  && IsAvailableToRegister(x.db.rows[id]))
            && (x.response.status == 400 ==> x.db == db)
  {
    VisibleTagLookup(db, env, caller, id);
  }

  /**
   * `deactivate` on a visible tag clears `active` (200) exactly when
   * `full_clean()` accepts the tag, keeping the owner; otherwise 500 with
   * nothing saved.
   */
  lemma DeactivateVisibleTag(db: Db, caller: UserId, id: TagId, env: Env)
    requires ValidDb(db, env) && id in VisibleFor(db.rows, Some(caller))
    ensures var x := Deactivate(db, Some(caller), db.rows[id].uuid, env);
            && (x.response.status == 200 <==> FullClean(db.rows, id, db.rows[id], env.validUid))
            && (x.response.status == 200 ==>
                  && x.db == Db(db.rows[id := db.rows[id].(active := false)], db.nextId)
                  && id !in VisibleFor(x.db.rows, Some(caller)))
            && (x.response.status != 200 ==> x == ServerError(db))
  {
    VisibleTagLookup(db, env, caller, id);
  }

  /**
   * `delete` on a visible tag removes exactly that row (200) unless the
   * database refuses (400, nothing removed); afterwards its uuid is not found.
   */
  lemma DeleteVisibleTag(db: Db, caller: UserId, id: TagId, storageFails: bool, env: Env)
    requires ValidDb(db, env) && id in VisibleFor(db.rows, Some(caller))
    ensures var x := Delete(db, Some(caller), db.rows[id].uuid, storageFails);
            && (storageFails ==> x == Exchange(Response(400, StorageDetail), db))
            && (!storageFails ==> x == Exchange(Response(200, DeleteSuccess), Db(db.rows - {id}, db.nextId)))
            && (!storageFails ==> Retrieve(x.db, Some(caller), db.rows[id].uuid).response.status == 404)
  {
    VisibleTagLookup(db, env, caller, id);
    var uuid := db.rows[id].uuid;
    var rows' := db.rows - {id};
    assert WithUuid(TagsFor(rows', Some(caller)), uuid) == {} by {
      forall k | k in rows'
        ensures rows'[k].uuid != uuid
      {
        assert k in db.rows && k != id;
      }
    }
  }

  /** Every request keeps the table invariant. */
  lemma HandleKeepsInvariant(db: Db, caller: Option<UserId>, req: Request, env: Env)
    requires ValidDb(db, env)
    ensures ValidDb(Handle(db, caller, req, env).db, env)
  {
    if caller.Some? {
      match req
      case RegisterRequest(uid, uuid) =>
        CreateKeepsInvariant(db.rows, db.nextId, env.model, env.validUid, caller, uid, uuid);
        var f := First(WithUid(db.rows, uid));
        if f.Some? {
          TransitionsKeepInvariant(db.rows, db.nextId, env.model, env.validUid, f.value, caller);
        }
      case UpdateRequest(uuid, newLabel) =>
        var l := VisibleByUuid(db.rows, caller, uuid);
        if l.Found? && newLabel.Some? && db.rows[l.id].labelAttr.Label? {
          var tag' := db.rows[l.id].(labelAttr := Label(newLabel.value));
          if FullClean(db.rows, l.id, tag', env.validUid) {
            SaveKeepsInvariant(db.rows, db.nextId, env.model, l.id, tag', env.validUid);
          }
        }
      case DisconnectRequest(uuid) =>
        var l := VisibleByUuid(db.rows, caller, uuid);
        if l.Found? {
          TransitionsKeepInvariant(db.rows, db.nextId, env.model, env.validUid, l.id, caller);
        }
      case DeactivateRequest(uuid) =>
        var l := VisibleByUuid(db.rows, caller, uuid);
        if l.Found? {
          TransitionsKeepInvariant(db.rows, db.nextId, env.model, env.validUid, l.id, caller);
        }
      case _ =>
    }
  }

  /**
   * Every row survives unchanged except a row visible to the caller with
   * the named uuid.
   */
  ghost predicate ChangesOnlyNamed(db: Db, db': Db, caller: Option<UserId>, uuid: Uuid)
  {
    && db'.rows.Keys <= db.rows.Keys
    && forall id :: id in db.rows && !(id in VisibleFor(db.rows, caller) && db.rows[id].uuid == uuid)
         ==> id in db'.rows && db'.rows[id] == db.rows[id]
  }

  /**
   * Only an authenticated caller gets past the permission check; list and
   * scan lookup never write; every request that names a uuid changes only
   * the caller's visible tag with that uuid.
   */
  lemma RequestsTouchOnlyVisibleTags(db: Db, caller: Option<UserId>, req: Request, env: Env)
    requires ValidDb(db, env)
    ensures caller.None? ==> Handle(db, caller, req, env) == Unauthorized(db)
    ensures req.ListRequest? || req.ScanRequest? ==> Handle(db, caller, req, env).db == db
    ensures req.ByUuid() ==> ChangesOnlyNamed(db, Handle(db, caller, req, env).db, caller, req.uuid)
  {
    match req
    case UpdateRequest(uuid, newLabel) => UpdateChangesOnlyNamed(db, caller, uuid, newLabel, env);
    case DisconnectRequest(uuid) => DisconnectChangesOnlyNamed(db, caller, uuid, env);
    case DeactivateRequest(uuid) => DeactivateChangesOnlyNamed(db, caller, uuid, env);
    case DeleteRequest(uuid, fails) => DeleteChangesOnlyNamed(db, caller, uuid, fails, env);
    case _ =>
  }

  lemma UpdateChangesOnlyNamed(db: Db, caller: Option<UserId>, uuid: Uuid, newLabel: Option<string>, env: Env)
    requires ValidDb(db, env)
    ensures ChangesOnlyNamed(db, Update(db, caller, uuid, newLabel, env).db, caller, uuid)
  {
    VisibleLookup(db, env, caller, uuid);
  }

  lemma DisconnectChangesOnlyNamed(db: Db, caller: Option<UserId>, uuid: Uuid, env: Env)
    requires ValidDb(db, env)
    ensures ChangesOnlyNamed(db, Disconnect(db, caller, uuid, env).db, caller, uuid)
  {
    VisibleLookup(db, env, caller, uuid);
  }

  lemma DeactivateChangesOnlyNamed(db: Db, caller: Option<UserId>, uuid: Uuid, env: Env)
    requires ValidDb(db, env)
    ensures ChangesOnlyNamed(db, Deactivate(db, caller, uuid, env).db, caller, uuid)
  {
    VisibleLookup(db, env, caller, uuid);
  }

  lemma DeleteChangesOnlyNamed(db: Db, caller: Option<UserId>, uuid: Uuid, storageFails: bool, env: Env)
    requires ValidDb(db, env)
    ensures ChangesOnlyNamed(db, Delete(db, caller, uuid, storageFails).db, caller, uuid)
  {
    VisibleLookup(db, env, caller, uuid);
  }

  /** A request naming a uuid that is not among the caller's visible tags is answered 404 and changes nothing. */
  lemma HiddenTagIsNotFound(db: Db, caller: Option<UserId>, req: Request, env: Env)
    requires ValidDb(db, env) && caller.Some? && req.ByUuid()
    requires forall id :: id in VisibleFor(db.rows, caller) ==> db.rows[id].uuid != req.uuid
    ensures Handle(db, caller, req, env) == Exchange(Response(404, Detail(NotFound)), db)
  {
    assert WithUuid(TagsFor(db.rows, caller), req.uuid) == {};
  }

  /**
   * `register` with an unknown uid creates a tag owned by the caller under
   * the next primary key (201) exactly when `full_clean()` accepts it: the
   * uid is empty or valid and the drawn uuid is unused. Otherwise it fails
   * with 500 saving nothing.
   */
  lemma RegisterUnknownUid(db: Db, caller: UserId, uid: Uid, uuid: Uuid, env: Env)
    requires ValidDb(db, env)
    requires forall id :: id in db.rows ==> db.rows[id].uid != uid
    ensures var x := Register(db, Some(caller), uid, uuid, env);
            && x.response.status in {201, 500}
            && (x.response.status == 201 <==>
                  && (uid == [] || (|uid| <= UidMaxLength && env.validUid(uid)))
                  && forall j :: j in db.rows ==> db.rows[j].uuid != uuid)
            && (x.response.status == 201 ==>
                  && db.nextId !in db.rows
                  && x.response.body == TagBody(NewTag(env.model, uuid, uid, Some(caller)))
                  && x.db == Db(db.rows[db.nextId := NewTag(env.model, uuid, uid, Some(caller))], db.nextId + 1)
                  && x.db.rows.Keys == db.rows.Keys + {db.nextId}
                  && db.nextId in VisibleFor(x.db.rows, Some(caller)))
            && (x.response.status == 500 ==> x.db == db)
  {
    assert WithUid(db.rows, uid) == {};
  }

  /**
   * `register` on an available tag gives it to the caller (200) exactly when
   * `full_clean()` accepts the tag; otherwise it answers 400 saving nothing.
   */
  lemma RegisterAvailableTag(db: Db, caller: UserId, id: TagId, uuid: Uuid, env: Env)
    requires ValidDb(db, env) && id in db.rows && IsAvailableToRegister(db.rows[id])
    ensures var x := Register(db, Some(caller), db.rows[id].uid, uuid, env);
            && x.response.status in {200, 400}
            && (x.response.status == 200 <==> FullClean(db.rows, id, db.rows[id], env.validUid))
            && (x.response.status == 200 ==>
                  && x.response.body == TagBody(db.rows[id].(owner := Some(caller)))
                  && x.db == Db(db.rows[id := db.rows[id].(owner := Some(caller))], db.nextId))
            && (x.response.status == 400 ==> x.db == db)
  {
    assert WithUid(db.rows, db.rows[id].uid) == {id};
  }

  /** `register` on an unavailable tag is refused with 409 and changes nothing, even for its owner. */
  lemma RegisterUnavailableTag(db: Db, caller: UserId, id: TagId, uuid: Uuid, env: Env)
    requires ValidDb(db, env) && id in db.rows && !IsAvailableToRegister(db.rows[id])
    ensures Register(db, Some(caller), db.rows[id].uid, uuid, env)
            == Exchange(Response(409, Detail(AlreadyRegistered)), db)
  {
    assert WithUid(db.rows, db.rows[id].uid) == {id};
  }

  /**
   * `scan_lookup` discloses a tag only to a caller who can see it; when the
   * scanned uid is unknown and when its tag is hidden the answer is the same
   * 404. The table is never changed.
   */
  lemma ScanDisclosesOnlyVisible(db: Db, caller: UserId, mirror: string, env: Env)
    requires ValidDb(db, env) && env.parse(mirror).Some?
    ensures var x := ScanLookup(db, Some(caller), mirror, env);
            && x.db == db
            && (x.response.status == 200 <==>
                  exists id :: id in VisibleFor(db.rows, Some(caller)) && db.rows[id].uid == env.parse(mirror).value.0)
            && (x.response.status == 200 ==>
                  x.response.body.TagBody? && x.response.body.tag.owner == Some(caller) && x.response.body.tag.active)
            && (x.response.status != 200 ==> x.response == Response(404, Detail(TagNotFound)))
  {
    var uid := env.parse(mirror).value.0;
    UniqueUidLookup(db.rows, uid);
    if exists id :: id in VisibleFor(db.rows, Some(caller)) && db.rows[id].uid == uid {
      var id :| id in VisibleFor(db.rows, Some(caller)) && db.rows[id].uid == uid;
      ScanFindsTagByUid(db.rows, env.parse, mirror, Some(caller), id);
    }
  }

  /**
   * `update` changes at most the label of one tag: the same rows, every
   * other column as before, and no write at all without a payload label or
   * without a label attribute.
   */
  lemma UpdateWritesOnlyLabel(db: Db, caller: Option<UserId>, uuid: Uuid, newLabel: Option<string>, env: Env)
    requires ValidDb(db, env)
    ensures var db' := Update(db, caller, uuid, newLabel, env).db;
            && db'.rows.Keys == db.rows.Keys && db'.nextId == db.nextId
            && (forall id :: id in db.rows ==> db'.rows[id] == db.rows[id].(labelAttr := db'.rows[id].labelAttr))
            && (newLabel.None? || !env.model.hasLabel ==> db' == db)
  {
    var l := VisibleByUuid(db.rows, caller, uuid);
    if l.Found? {
      assert l.id in db.rows;
    }
  }

  /** `list_tags` shows each of the caller's visible tags exactly once, by descending uuid. */
  lemma ListTagsIsVisibleNewestFirst(db: Db, caller: UserId, env: Env)
    requires ValidDb(db, env)
    ensures var x := ListTags(db, Some(caller));
            && x.db == db && x.response.status == 200 && x.response.body.TagPage?
            && var items := x.response.body.items;
               && |items| == |VisibleFor(db.rows, Some(caller))|
               && (forall i :: 0 <= i < |items| ==> items[i].owner == Some(caller) && items[i].active)
               && (forall id :: id in VisibleFor(db.rows, Some(caller)) ==> db.rows[id] in items)
               && (forall i, j :: 0 <= i < j < |items| ==> items[j].uuid < items[i].uuid)
  {
    var qs := TagsFor(db.rows, Some(caller));
    NewestFirstIsOrdered(qs);
    assert UniqueUuids(qs) by {
      assert forall id :: id in qs ==> id in db.rows && qs[id] == db.rows[id];
    }
    ListedRows(qs, NewestFirst(qs));
    assert |qs| == |qs.Keys|;
  }

  /**
   * The rows of a newest-first listing of a query set with unique uuids:
   * one per row of the set, every row present, uuids strictly descending.
   */
  lemma ListedRows(qs: map<TagId, Tag>, ids: seq<TagId>)
    requires ListsNewestFirst(qs, ids) && UniqueUuids(qs)
    ensures var items := RowsOf(qs, ids);
            && |items| == |qs|
            && (forall i :: 0 <= i < |items| ==> items[i] in qs.Values)
            && (forall id :: id in qs ==> qs[id] in items)
            && (forall i, j :: 0 <= i < j < |items| ==> items[j].uuid < items[i].uuid)
  {
    var items := RowsOf(qs, ids);
    forall i | 0 <= i < |items|
      ensures items[i] in qs.Values
    {
      assert ids[i] in qs && items[i] == qs[ids[i]];
    }
    forall id | id in qs
      ensures qs[id] in items
    {
      var i :| 0 <= i < |ids| && ids[i] == id;
      assert items[i] == qs[id];
    }
    forall i, j | 0 <= i < j < |items|
      ensures items[j].uuid < items[i].uuid
    {
      assert ids[i] != ids[j];
    }
  }

  /** A tag created through a user's service shows up in that user's list. */
  lemma CreatedTagIsListed(db: Db, caller: UserId, uid: Uid, uuid: Uuid, env: Env)
    requires ValidDb(db, env)
    requires CreateOutcome(db.rows, db.nextId, env.model, env.validUid, Some(caller), uid, uuid).Ok?
    ensures var t := CreateOutcome(db.rows, db.nextId, env.model, env.validUid, Some(caller), uid, uuid).value;
            t in ListTags(Db(db.rows[db.nextId := t], db.nextId + 1), Some(caller)).response.body.items
  {
    var t := CreateOutcome(db.rows, db.nextId, env.model, env.validUid, Some(caller), uid, uuid).value;
    var db' := Db(db.rows[db.nextId := t], db.nextId + 1);
    CreateKeepsInvariant(db.rows, db.nextId, env.model, env.validUid, Some(caller), uid, uuid);
    assert ValidDb(db', env);
    ListTagsIsVisibleNewestFirst(db', caller, env);
    assert db.nextId in VisibleFor(db'.rows, Some(caller));
    assert db'.rows[db.nextId] == t;
  }

  /** A tag a caller registers under a new uid shows up in that caller's list. */
  lemma RegisteredTagIsListed(db: Db, caller: UserId, uid: Uid, uuid: Uuid, env: Env)
    requires ValidDb(db, env)
    requires Register(db, Some(caller), uid, uuid, env).response.status == 201
    ensures var db' := Register(db, Some(caller), uid, uuid, env).db;
            db'.rows[db.nextId] in ListTags(db', Some(caller)).response.body.items
  {
    CreatedTagIsListed(db, caller, uid, uuid, env);
  }
}
