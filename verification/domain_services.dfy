/**
 * `NFCTagService`: the ownership state machine. Each operation checks its
 * precondition on the tag, updates one field of the in-memory record,
 * runs `full_clean()` and saves the record.
 *
 * The pure functions `CreateOutcome`, `RegisterOutcome`, `DisconnectOutcome`
 * and `DeactivateOutcome` say what record each operation saves (or which
 * `ValidationError` it raises instead); the methods of the class perform
 * the operation on the table and are proved to save exactly that record.
 */
module Services {
  import opened Values
  import opened Tags

  /** The three reasons for which the service raises `ValidationError`. */
  datatype ServiceError =
    | NotAvailable   // register_user on a tag that is inactive or owned
    | NotOwner       // disconnect_tag by someone other than the owner
    | Invalid        // full_clean() rejected the record

  /** The table after saving an outcome to row `id`; an error saves nothing. */
  function Commit(rows: map<TagId, Tag>, id: TagId, r: Result<Tag, ServiceError>): map<TagId, Tag>
  {
    if r.Ok? then rows[id := r.value] else rows
  }

  /**
   * `create_tag(uid)` for the record that would get primary key `id`: a new
   * tag with the caller as owner (possibly nobody), active and unattached;
   * `full_clean()` rejects it when a non-empty uid is too long or refused by
   * the validator, or when its uid or uuid is already in use. An empty uid
   * is not validated at all.
   */
  function CreateOutcome(rows: map<TagId, Tag>, id: TagId, m: TagModel, validUid: Uid -> bool,
                         user: Option<UserId>, uid: Uid, uuid: Uuid): (r: Result<Tag, ServiceError>)
    requires id !in rows
    ensures r.Ok? ==> r.value.uid == uid && r.value.uuid == uuid && r.value.owner == user
    ensures r.Ok? ==> r.value.active && HasShape(r.value, m) && r.value.link.contentType.None?
    ensures r.Ok? <==> && (uid == [] || (|uid| <= UidMaxLength && validUid(uid)))
                       && forall j :: j in rows ==> rows[j].uid != uid && rows[j].uuid != uuid
    ensures r.Err? ==> r.error == Invalid
  {
    var tag := NewTag(m, uuid, uid, user);
    if FullClean(rows, id, tag, validUid) then Ok(tag) else Err(Invalid)
  }

  /**
   * An empty uid is never validated: a tag with an empty uid is created
   * whenever no row already has an empty uid or the drawn uuid.
   */
  lemma EmptyUidIsCreated(rows: map<TagId, Tag>, id: TagId, m: TagModel, validUid: Uid -> bool,
                          user: Option<UserId>, uuid: Uuid)
    requires id !in rows
    requires forall j :: j in rows ==> rows[j].uid != [] && rows[j].uuid != uuid
    ensures CreateOutcome(rows, id, m, validUid, user, [], uuid).Ok?
  {
  }

  /**
   * `register_user(tag)`: refused with `NotAvailable` unless the tag is
   * available; otherwise the owner becomes the service's user and nothing
   * else changes.
   */
  function RegisterOutcome(rows: map<TagId, Tag>, id: TagId, user: Option<UserId>, validUid: Uid -> bool)
    : (r: Result<Tag, ServiceError>)
    requires id in rows
    ensures !IsAvailableToRegister(rows[id]) ==> r == Err(NotAvailable)
    ensures r.Ok? <==> IsAvailableToRegister(rows[id]) && FullClean(rows, id, rows[id], validUid)
    ensures r.Ok? ==> r.value == rows[id].(owner := user)
  {
    var tag := rows[id];
    if !IsAvailableToRegister(tag) then Err(NotAvailable)
    else
      var tag' := tag.(owner := user);
      if FullClean(rows, id, tag', validUid) then Ok(tag') else Err(Invalid)
  }

  /**
   * `disconnect_tag(tag)`: refused with `NotOwner` when the tag's owner is
   * not the service's user; otherwise the owner is cleared and nothing else
   * changes (in particular `active` is kept).
   */
  function DisconnectOutcome(rows: map<TagId, Tag>, id: TagId, user: Option<UserId>, validUid: Uid -> bool)
    : (r: Result<Tag, ServiceError>)
    requires id in rows
    ensures rows[id].owner != user ==> r == Err(NotOwner)
    ensures r.Ok? <==> rows[id].owner == user && FullClean(rows, id, rows[id], validUid)
    ensures r.Ok? ==> r.value == rows[id].(owner := None)
  {
    var tag := rows[id];
    if tag.owner != user then Err(NotOwner)
    else
      var tag' := tag.(owner := None);
      if FullClean(rows, id, tag', validUid) then Ok(tag') else Err(Invalid)
  }

  /** `deactivate_tag(tag)`: clears `active` whatever the tag's state, keeping the owner. */
  function DeactivateOutcome(rows: map<TagId, Tag>, id: TagId, validUid: Uid -> bool)
    : (r: Result<Tag, ServiceError>)
    requires id in rows
    ensures r.Ok? <==> FullClean(rows, id, rows[id], validUid)
    ensures r.Ok? ==> r.value == rows[id].(active := false)
    ensures r.Err? ==> r.error == Invalid
  {
    var tag' := rows[id].(active := false);
    if FullClean(rows, id, tag', validUid) then Ok(tag') else Err(Invalid)
  }

  /** A saved `create_tag` keeps the table invariant and hands out the next primary key. */
  lemma CreateKeepsInvariant(rows: map<TagId, Tag>, nextId: TagId, m: TagModel, validUid: Uid -> bool,
                             user: Option<UserId>, uid: Uid, uuid: Uuid)
    requires TableInvariant(rows, nextId, m)
    ensures nextId !in rows
    ensures var r := CreateOutcome(rows, nextId, m, validUid, user, uid, uuid);
            r.Ok? ==> TableInvariant(rows[nextId := r.value], nextId + 1, m)
  {
  }

  /** Register, disconnect and deactivate keep the table invariant whatever they return. */
  lemma TransitionsKeepInvariant(rows: map<TagId, Tag>, nextId: TagId, m: TagModel, validUid: Uid -> bool,
                                 id: TagId, user: Option<UserId>)
    requires TableInvariant(rows, nextId, m) && id in rows
    ensures TableInvariant(Commit(rows, id, RegisterOutcome(rows, id, user, validUid)), nextId, m)
    ensures TableInvariant(Commit(rows, id, DisconnectOutcome(rows, id, user, validUid)), nextId, m)
    ensures TableInvariant(Commit(rows, id, DeactivateOutcome(rows, id, validUid)), nextId, m)
  {
    var r1 := RegisterOutcome(rows, id, user, validUid);
    if r1.Ok? { SaveKeepsInvariant(rows, nextId, m, id, r1.value, validUid); }
    var r2 := DisconnectOutcome(rows, id, user, validUid);
    if r2.Ok? { SaveKeepsInvariant(rows, nextId, m, id, r2.value, validUid); }
    var r3 := DeactivateOutcome(rows, id, validUid);
    if r3.Ok? { SaveKeepsInvariant(rows, nextId, m, id, r3.value, validUid); }
  }

  /** After the owner disconnects, the tag is available again exactly when it is still active. */
  lemma DisconnectFreesActiveTag(rows: map<TagId, Tag>, id: TagId, user: Option<UserId>, validUid: Uid -> bool)
    requires id in rows
    requires DisconnectOutcome(rows, id, user, validUid).Ok?
    ensures var rows' := Commit(rows, id, DisconnectOutcome(rows, id, user, validUid));
            rows'[id].active == rows[id].active &&
            (IsAvailableToRegister(rows'[id]) <==> rows[id].active)
  {
  }

  /** Deactivating twice leaves the table as deactivating once does. */
  lemma DeactivateIdempotent(rows: map<TagId, Tag>, id: TagId, validUid: Uid -> bool)
    requires id in rows
    ensures var once := Commit(rows, id, DeactivateOutcome(rows, id, validUid));
            Commit(once, id, DeactivateOutcome(once, id, validUid)) == once
  {
    var r := DeactivateOutcome(rows, id, validUid);
    var once := Commit(rows, id, r);
    if r.Ok? {
      assert forall j :: j in once && j != id ==> once[j] == rows[j];
      assert FullClean(once, id, once[id], validUid);
    }
  }

  /**
   * Register by `a`, a refused register by `b`, a refused disconnect by `b`,
   * disconnect by `a`, then register by `b`: the tag ends up owned by `b`
   * with every other field as it was.
   */
  lemma {:induction false} HandOverScenario(rows: map<TagId, Tag>, id: TagId, a: UserId, b: UserId, validUid: Uid -> bool)
    requires id in rows && a != b
    requires IsAvailableToRegister(rows[id]) && FullClean(rows, id, rows[id], validUid)
    ensures var s1 := Commit(rows, id, RegisterOutcome(rows, id, Some(a), validUid));
            && s1[id].owner == Some(a)
            && RegisterOutcome(s1, id, Some(b), validUid) == Err(NotAvailable)
            && DisconnectOutcome(s1, id, Some(b), validUid) == Err(NotOwner)
            && var s2 := Commit(s1, id, DisconnectOutcome(s1, id, Some(a), validUid));
               && IsAvailableToRegister(s2[id])
               && var s3 := Commit(s2, id, RegisterOutcome(s2, id, Some(b), validUid));
                  s3[id] == rows[id].(owner := Some(b))
  {
    var s1 := Commit(rows, id, RegisterOutcome(rows, id, Some(a), validUid));
    assert s1 == rows[id := rows[id].(owner := Some(a))];
    assert FullClean(s1, id, s1[id], validUid);
    var s2 := Commit(s1, id, DisconnectOutcome(s1, id, Some(a), validUid));
    assert s2 == rows[id := rows[id].(owner := None)];
    assert FullClean(s2, id, s2[id], validUid);
  }

  /** The service of one user (`NFCTagService(user)`), working on table `db`. */
  class NFCTagService {
    const user: Option<UserId>
    const db: TagStore

    constructor (user: Option<UserId>, db: TagStore)
      ensures this.user == user && this.db == db
    {
      this.user := user;
      this.db := db;
    }

    /** `create_tag(uid)`; `uuid` is the value `uuid.uuid4()` draws for the new row. */
    method CreateTag(uid: Uid, uuid: Uuid) returns (r: Result<TagId, ServiceError>)
      requires db.Valid()
      modifies db
      ensures db.Valid()
      ensures old(db.nextId) !in old(db.rows)
      ensures match CreateOutcome(old(db.rows), old(db.nextId), db.model, db.validUid, user, uid, uuid)
              case Ok(t) =>
                r == Ok(old(db.nextId)) && db.rows == old(db.rows)[old(db.nextId) := t]
                && db.nextId == old(db.nextId) + 1
              case Err(e) =>
                r == Err(e) && db.rows == old(db.rows) && db.nextId == old(db.nextId)
    {
      var id := db.nextId;
      var tag := NewTag(db.model, uuid, uid, user);
      if !FullClean(db.rows, id, tag, db.validUid) {
        return Err(Invalid);
      }
      db.rows := db.rows[id := tag];
      db.nextId := id + 1;
      r := Ok(id);
    }

    /** `register_user(tag)` on the row just read as `id`. */
    method RegisterUser(id: TagId) returns (r: Result<Tag, ServiceError>)
      requires db.Valid() && id in db.rows
      modifies db
      ensures db.Valid() && db.nextId == old(db.nextId)
      ensures r == RegisterOutcome(old(db.rows), id, user, db.validUid)
      ensures db.rows == Commit(old(db.rows), id, r)
    {
      var tag := db.rows[id];
      if !IsAvailableToRegister(tag) {
        return Err(NotAvailable);
      }
      tag := tag.(owner := user);
      if !FullClean(db.rows, id, tag, db.validUid) {
        return Err(Invalid);
      }
      db.rows := db.rows[id := tag];
      r := Ok(tag);
    }

    /** `disconnect_tag(tag)` on the row just read as `id`. */
    method DisconnectTag(id: TagId) returns (r: Result<Tag, ServiceError>)
      requires db.Valid() && id in db.rows
      modifies db
      ensures db.Valid() && db.nextId == old(db.nextId)
      ensures r == DisconnectOutcome(old(db.rows), id, user, db.validUid)
      ensures db.rows == Commit(old(db.rows), id, r)
    {
      var tag := db.rows[id];
      if tag.owner != user {
        return Err(NotOwner);
      }
      tag := tag.(owner := None);
      if !FullClean(db.rows, id, tag, db.validUid) {
        return Err(Invalid);
      }
      db.rows := db.rows[id := tag];
      r := Ok(tag);
    }

    /** `deactivate_tag(tag)` on the row just read as `id`. */
    method DeactivateTag(id: TagId) returns (r: Result<Tag, ServiceError>)
      requires db.Valid() && id in db.rows
      modifies db
      ensures db.Valid() && db.nextId == old(db.nextId)
      ensures r == DeactivateOutcome(old(db.rows), id, db.validUid)
      ensures db.rows == Commit(old(db.rows), id, r)
    {
      var tag := db.rows[id].(active := false);
      if !FullClean(db.rows, id, tag, db.validUid) {
        return Err(Invalid);
      }
      db.rows := db.rows[id := tag];
      r := Ok(tag);
    }
  }
}
