/**
 * The read side: which tags a caller may see, the caller's query set, and
 * the lookup of a scanned tag by its uid. A caller is `None` when the
 * request is anonymous (`is_authenticated` is false).
 */
module Selectors {
  import opened Values
  import opened Tags

  /** `get_nfctags_visible_for(user)`: ids of the active tags the user owns; nobody's for an anonymous caller. */
  function VisibleFor(rows: map<TagId, Tag>, user: Option<UserId>): (ids: set<TagId>)
    ensures user.None? ==> ids == {}
    ensures forall id :: id in ids <==> id in rows && user.Some? && rows[id].owner == user && rows[id].active
  {
    if user.None? then {} else set id | id in rows && rows[id].owner == user && rows[id].active
  }

  /** `get_nfctags_for(fetched_by)`: the rows whose id is visible to the caller. */
  function TagsFor(rows: map<TagId, Tag>, fetchedBy: Option<UserId>): (qs: map<TagId, Tag>)
    ensures qs.Keys == VisibleFor(rows, fetchedBy)
    ensures forall id :: id in qs ==> id in rows && qs[id] == rows[id]
    ensures forall id :: id in qs ==> qs[id].owner == fetchedBy && qs[id].active
  {
    map id | id in VisibleFor(rows, fetchedBy) :: rows[id]
  }

  /** Two different callers never see the same tag, and nobody sees an inactive one. */
  lemma VisibilityIsolation(rows: map<TagId, Tag>, u: Option<UserId>, v: Option<UserId>)
    requires u != v
    ensures VisibleFor(rows, u) !! VisibleFor(rows, v)
    ensures forall id :: id in VisibleFor(rows, u) ==> rows[id].active
  {
  }

  /** What a single-object `get()` finds among a set of candidate rows. */
  datatype Lookup = Missing | Found(id: TagId) | Multiple

  /** `get()` over the candidate ids: `DoesNotExist`, the one row, or `MultipleObjectsReturned`. */
  ghost function GetOne(ids: set<TagId>): (r: Lookup)
    ensures r.Missing? <==> ids == {}
    ensures r.Found? <==> |ids| == 1
    ensures r.Found? ==> ids == {r.id}
  {
    if ids == {} then Missing
    else
      var id :| id in ids;
      if ids == {id} then Found(id)
      else
        assert |ids - {id}| > 0;
        Multiple
  }

  /** The rows of a query set whose uid is `uid`. */
  function WithUid(qs: map<TagId, Tag>, uid: Uid): set<TagId>
  {
    set id | id in qs && qs[id].uid == uid
  }

  /** The rows of a query set whose uuid is `uuid`. */
  function WithUuid(qs: map<TagId, Tag>, uuid: Uuid): set<TagId>
  {
    set id | id in qs && qs[id].uuid == uuid
  }

  /** In a table with unique uids, `get(uid=...)` never finds more than one row. */
  lemma UniqueUidLookup(rows: map<TagId, Tag>, uid: Uid)
    requires UniqueUids(rows)
    ensures !GetOne(WithUid(rows, uid)).Multiple?
  {
    var ids := WithUid(rows, uid);
    if ids != {} {
      var i :| i in ids;
      assert ids == {i};
    }
  }

  /** In a query set with unique uuids, `get(uuid=...)` never finds more than one row. */
  lemma UniqueUuidLookup(qs: map<TagId, Tag>, uuid: Uuid)
    requires UniqueUuids(qs)
    ensures !GetOne(WithUuid(qs, uuid)).Multiple?
  {
    var ids := WithUuid(qs, uuid);
    if ids != {} {
      var i :| i in ids;
      assert ids == {i};
    }
  }

  /** Why `get_nfctag_by_scan` can raise instead of answering. */
  datatype ScanError = MirrorRejected | MultipleTags

  /**
   * `parse_ascii_mirror`: splits a scan into (uid, counter), or raises. Its
   * definition is not part of this model; a parser is passed in.
   */
  type MirrorParser = string -> Option<(Uid, nat)>

  /**
   * `get_nfctag_by_scan(ascii_mirror, user)`: the tag whose uid is the parsed
   * uid, whoever owns it and whether or not it is active; `None` when there
   * is none. The user and the counter are not used.
   */
  ghost function ByScan(rows: map<TagId, Tag>, parse: MirrorParser, mirror: string, user: Option<UserId>)
    : (r: Result<Option<TagId>, ScanError>)
    ensures parse(mirror).None? <==> r == Err(MirrorRejected)
    ensures r.Ok? && r.value.Some? ==> r.value.value in rows && rows[r.value.value].uid == parse(mirror).value.0
    ensures r.Ok? && r.value.None? ==> forall id :: id in rows ==> rows[id].uid != parse(mirror).value.0
  {
    match parse(mirror)
    case None => Err(MirrorRejected)
    case Some((uid, _)) =>
      match GetOne(WithUid(rows, uid))
      case Missing =>
        assert forall id :: id in rows && rows[id].uid == uid ==> id in WithUid(rows, uid);
        Ok(None)
      case Found(id) => Ok(Some(id))
      case Multiple => Err(MultipleTags)
  }

  /**
   * The scan lookup depends on the parsed uid alone: neither the caller nor
   * the parsed counter changes what it returns.
   */
  lemma ScanIgnoresUserAndCounter(rows: map<TagId, Tag>, parse: MirrorParser, m1: string, m2: string,
                                  u1: Option<UserId>, u2: Option<UserId>)
    requires parse(m1).Some? && parse(m2).Some? && parse(m1).value.0 == parse(m2).value.0
    ensures ByScan(rows, parse, m1, u1) == ByScan(rows, parse, m2, u2)
  {
  }

  /** In a valid table a parsed scan never raises: it finds the one tag with that uid or none. */
  lemma ScanFindsTagByUid(rows: map<TagId, Tag>, parse: MirrorParser, mirror: string, user: Option<UserId>, id: TagId)
    requires UniqueUids(rows) && parse(mirror).Some?
    ensures ByScan(rows, parse, mirror, user).Ok?
    ensures id in rows && rows[id].uid == parse(mirror).value.0 ==> ByScan(rows, parse, mirror, user) == Ok(Some(id))
  {
    UniqueUidLookup(rows, parse(mirror).value.0);
  }
}
