/**
 * The NFC tag record (`AbstractNFCTag` and its attachment variants), its
 * availability test, its ordering by chip UID, what `full_clean()` checks
 * before a save, and the table that stores the records.
 */
module Tags {
  import opened Values

  /** Primary key of a row in the tag table. */
  type TagId = nat

  /** Primary key of a `ContentType` row (the kind of an attached entity). */
  type ContentTypeId = nat

  /** A UUID, as its 128-bit value; the database orders UUIDs by this value. */
  type Uuid = n: nat | n < 0x1_0000_0000_0000_0000_0000_0000_0000_0000

  /** The chip UID as stored in the `uid` column. */
  type Uid = string

  /** `max_length` of the `uid` column. */
  const UidMaxLength: nat := 32

  /**
   * The attachment columns. An integer-keyed model (`AbstractIntegerNFCTag`)
   * has an integer `object_id`, a UUID-keyed model (`AbstractUUIDNFCTag`) a
   * UUID one; both columns are nullable.
   */
  datatype Link =
    | IntegerLink(contentType: Option<ContentTypeId>, integerObjectId: Option<int>)
    | UuidLink(contentType: Option<ContentTypeId>, uuidObjectId: Option<Uuid>)
  {
    predicate HasObjectId()
    {
      if IntegerLink? then integerObjectId.Some? else uuidObjectId.Some?
    }
  }

  /**
   * The `label` attribute. The concrete tag model is configurable; the shown
   * models have no `label`, which the API tests with `hasattr`.
   */
  datatype LabelField = NoLabelAttribute | Label(text: string)

  /** The shape of the configured concrete tag model. */
  datatype TagModel = TagModel(uuidKeyed: bool, hasLabel: bool)

  /** `NFCTag`, the concrete model shipped with the app: integer-keyed, no label. */
  const DefaultModel := TagModel(false, false)

  datatype Tag = Tag(
    uuid: Uuid,
    uid: Uid,
    owner: Option<UserId>,
    active: bool,
    link: Link,
    labelAttr: LabelField)

  /** Every row of the shipped `NFCTag` table is integer-keyed and has no label. */
  lemma DefaultModelShape(t: Tag)
    requires HasShape(t, DefaultModel)
    ensures t.link.IntegerLink? && t.labelAttr == NoLabelAttribute
  {
  }

  /** A row has the columns of model `m`: one attachment variant, and a label iff `m` has one. */
  predicate HasShape(t: Tag, m: TagModel)
  {
    && (t.link.UuidLink? <==> m.uuidKeyed)
    && (t.labelAttr.Label? <==> m.hasLabel)
  }

  /**
   * A record of model `m` built from `uuid`, `uid` and `owner`, every other
   * column at its default: active, unattached, empty label.
   */
  function NewTag(m: TagModel, uuid: Uuid, uid: Uid, owner: Option<UserId>): (t: Tag)
    ensures t.uuid == uuid && t.uid == uid && t.owner == owner
    ensures t.active && HasShape(t, m)
    ensures t.link.contentType.None? && !t.link.HasObjectId()
  {
    Tag(uuid, uid, owner, true,
        if m.uuidKeyed then UuidLink(None, None) else IntegerLink(None, None),
        if m.hasLabel then Label("") else NoLabelAttribute)
  }

  /** `is_available_to_register`. */
  predicate IsAvailableToRegister(t: Tag)
  {
    t.active && t.owner.None?
  }

  /** A freshly built record is available exactly when it is built without an owner. */
  lemma NewTagAvailability(m: TagModel, uuid: Uuid, uid: Uid, owner: Option<UserId>)
    ensures IsAvailableToRegister(NewTag(m, uuid, uid, owner)) <==> owner.None?
  {
  }

  // ---------------------------------------------------------------------
  // Ordering by uid
  // ---------------------------------------------------------------------

  /** Python's `a < b` on strings: lexicographic by code point. */
  predicate StrLess(a: string, b: string)
  {
    if a == [] then b != []
    else if b == [] then false
    else if a[0] != b[0] then a[0] < b[0]
    else StrLess(a[1..], b[1..])
  }

  lemma {:induction false} StrLessIrreflexive(a: string)
    ensures !StrLess(a, a)
  {
    if a != [] {
      StrLessIrreflexive(a[1..]);
    }
  }

  lemma {:induction false} StrLessTransitive(a: string, b: string, c: string)
    requires StrLess(a, b) && StrLess(b, c)
    ensures StrLess(a, c)
  {
    if a != [] && b != [] && c != [] && a[0] == b[0] && b[0] == c[0] {
      StrLessTransitive(a[1..], b[1..], c[1..]);
    }
  }

  lemma {:induction false} StrLessTrichotomy(a: string, b: string)
    ensures a == b || StrLess(a, b) || StrLess(b, a)
    ensures !(StrLess(a, b) && StrLess(b, a))
  {
    if a != [] && b != [] && a[0] == b[0] {
      StrLessTrichotomy(a[1..], b[1..]);
      if a[1..] == b[1..] {
        assert a == [a[0]] + a[1..] && b == [b[0]] + b[1..];
      }
    }
  }

  /** `__lt__`: compares the uids only. */
  predicate Lt(a: Tag, b: Tag)
  {
    StrLess(a.uid, b.uid)
  }

  /** `__gt__`: `a.uid > b.uid`, that is `b.uid < a.uid`. */
  predicate Gt(a: Tag, b: Tag)
  {
    StrLess(b.uid, a.uid)
  }

  /**
   * Two tags compare exactly as their uids do: `<` and `>` are mirror images,
   * never both hold, and neither holds only when the uids are equal.
   */
  lemma TagOrderIsUidOrder(a: Tag, b: Tag)
    ensures Lt(a, b) <==> Gt(b, a)
    ensures !(Lt(a, b) && Gt(a, b))
    ensures !Lt(a, b) && !Gt(a, b) <==> a.uid == b.uid
  {
    StrLessTrichotomy(a.uid, b.uid);
    if a.uid == b.uid {
      StrLessIrreflexive(a.uid);
    }
  }

  /** `Meta.ordering = ['uid']`: a listing in which each uid is below the next. */
  predicate InDefaultOrder(s: seq<Tag>)
  {
    forall i :: 0 <= i < |s| - 1 ==> StrLess(s[i].uid, s[i + 1].uid)
  }

  /** A listing in the default order never shows the same uid twice, and is ordered pairwise. */
  lemma {:induction false} DefaultOrderIsStrict(s: seq<Tag>)
    requires InDefaultOrder(s)
    ensures forall i, j :: 0 <= i < j < |s| ==> StrLess(s[i].uid, s[j].uid)
    ensures forall i, j :: 0 <= i < j < |s| ==> s[i].uid != s[j].uid
  {
    if |s| > 1 {
      DefaultOrderIsStrict(s[1..]);
      forall j | 1 < j < |s|
        ensures StrLess(s[0].uid, s[j].uid)
      {
        assert s[1..][0] == s[1] && s[1..][j - 1] == s[j];
        StrLessTransitive(s[0].uid, s[1].uid, s[j].uid);
      }
      forall i, j | 0 <= i < j < |s|
        ensures StrLess(s[i].uid, s[j].uid) && s[i].uid != s[j].uid
      {
        if i > 0 {
          assert s[1..][i - 1] == s[i] && s[1..][j - 1] == s[j];
        }
        StrLessTrichotomy(s[i].uid, s[j].uid);
        if s[i].uid == s[j].uid {
          StrLessIrreflexive(s[i].uid);
        }
      }
    }
  }

  // ---------------------------------------------------------------------
  // The table
  // ---------------------------------------------------------------------

  /** The `unique=True` constraint on `uid`. */
  ghost predicate UniqueUids(rows: map<TagId, Tag>)
  {
    forall i, j :: i in rows && j in rows && rows[i].uid == rows[j].uid ==> i == j
  }

  /** The `unique=True` constraint on `uuid`. */
  ghost predicate UniqueUuids(rows: map<TagId, Tag>)
  {
    forall i, j :: i in rows && j in rows && rows[i].uuid == rows[j].uuid ==> i == j
  }

  /**
   * What the tag table always satisfies: the unique columns are unique,
   * every primary key was handed out before `nextId`, and every row has
   * the columns of the configured model.
   */
  ghost predicate TableInvariant(rows: map<TagId, Tag>, nextId: TagId, m: TagModel)
  {
    && UniqueUids(rows)
    && UniqueUuids(rows)
    && (forall id :: id in rows ==> id < nextId && HasShape(rows[id], m))
  }

  /** No row other than `id` uses the uid or the uuid of `t`. */
  predicate UniqueAgainst(rows: map<TagId, Tag>, id: TagId, t: Tag)
  {
    forall j :: j in rows && j != id ==> rows[j].uid != t.uid && rows[j].uuid != t.uuid
  }

  /**
   * `full_clean()` on record `t` about to be saved as row `id`. The uid
   * column is not editable, so Django skips its blank check, and field
   * validators never run on an empty value: an empty uid passes, any other
   * uid must be at most 32 characters and accepted by the uid validator.
   * Then `validate_unique` must find no other row with the same uid or uuid.
   */
  predicate FullClean(rows: map<TagId, Tag>, id: TagId, t: Tag, validUid: Uid -> bool)
  {
    && (t.uid == [] || (|t.uid| <= UidMaxLength && validUid(t.uid)))
    && UniqueAgainst(rows, id, t)
  }

  /** Saving a cleaned record with the model's shape keeps the table invariant. */
  lemma SaveKeepsInvariant(rows: map<TagId, Tag>, nextId: TagId, m: TagModel, id: TagId, t: Tag, validUid: Uid -> bool)
    requires TableInvariant(rows, nextId, m)
    requires id < nextId && HasShape(t, m)
    requires FullClean(rows, id, t, validUid)
    ensures TableInvariant(rows[id := t], nextId, m)
  {
  }

  /**
   * The `on_delete=SET_NULL` rule of the `user` column: deleting user `u`
   * clears the owner of every tag `u` owned and deletes no tag.
   */
  function OnUserDeleted(rows: map<TagId, Tag>, u: UserId): (rows': map<TagId, Tag>)
    ensures rows'.Keys == rows.Keys
    ensures forall id :: id in rows' ==> rows'[id].owner != Some(u)
    ensures forall id :: id in rows && rows[id].owner == Some(u) ==> rows'[id] == rows[id].(owner := None)
    ensures forall id :: id in rows && rows[id].owner != Some(u) ==> rows'[id] == rows[id]
  {
    map id | id in rows :: if rows[id].owner == Some(u) then rows[id].(owner := None) else rows[id]
  }

  /** Clearing an owner changes neither uid nor uuid, so the table invariant survives a user deletion. */
  lemma OnUserDeletedKeepsInvariant(rows: map<TagId, Tag>, nextId: TagId, m: TagModel, u: UserId)
    requires TableInvariant(rows, nextId, m)
    ensures TableInvariant(OnUserDeleted(rows, u), nextId, m)
  {
    var rows' := OnUserDeleted(rows, u);
    assert forall id :: id in rows ==> rows'[id].uid == rows[id].uid && rows'[id].uuid == rows[id].uuid;
  }

  /**
   * The table of the configured concrete tag model (`NFCTag.objects`).
   * `validUid` is the uid field's validator, whose definition is not part
   * of this model.
   */
  class TagStore {
    const model: TagModel
    const validUid: Uid -> bool
    var rows: map<TagId, Tag>
    var nextId: TagId

    ghost predicate Valid()
      reads this
    {
      TableInvariant(rows, nextId, model)
    }

    constructor (model: TagModel, validUid: Uid -> bool)
      ensures Valid()
      ensures this.model == model && this.validUid == validUid
      ensures rows == map[] && nextId == 1
    {
      this.model := model;
      this.validUid := validUid;
      rows := map[];
      nextId := 1;
    }

    /** `tag.delete()`: removes the row and nothing else. */
    method Delete(id: TagId)
      requires Valid()
      modifies this
      ensures Valid()
      ensures rows == old(rows) - {id} && nextId == old(nextId)
    {
      rows := rows - {id};
    }
  }
}
