/**
 * The query-set filters `available`, `assigned`, `linked` and `unlinked`,
 * and the manager that hands them out. A query set is a map from primary
 * key to row; each filter keeps the rows it selects, unchanged.
 */
module Managers {
  import opened Values
  import opened Tags

  /** The rows a filter keeps are rows of its input, unchanged. */
  ghost predicate SubQuerySet(r: map<TagId, Tag>, qs: map<TagId, Tag>)
  {
    forall id :: id in r ==> id in qs && r[id] == qs[id]
  }

  /** An attachment with both `content_type` and `object_id` set. */
  predicate IsLinked(t: Tag)
  {
    t.link.contentType.Some? && t.link.HasObjectId()
  }

  /** An attachment with both `content_type` and `object_id` null. */
  predicate IsUnlinked(t: Tag)
  {
    t.link.contentType.None? && !t.link.HasObjectId()
  }

  /** `available()`: the tags that can be registered, i.e. `is_available_to_register`. */
  function Available(qs: map<TagId, Tag>): (r: map<TagId, Tag>)
    ensures SubQuerySet(r, qs)
    ensures r.Keys == set id | id in qs && IsAvailableToRegister(qs[id])
  {
    map id | id in qs && qs[id].active && qs[id].owner.None? :: qs[id]
  }

  /** `assigned()`: the active tags that have an owner. */
  function Assigned(qs: map<TagId, Tag>): (r: map<TagId, Tag>)
    ensures SubQuerySet(r, qs)
    ensures forall id :: id in r <==> id in qs && qs[id].active && qs[id].owner.Some?
  {
    map id | id in qs && qs[id].active && qs[id].owner.Some? :: qs[id]
  }

  /** `linked()`: the active tags attached to an entity. */
  function Linked(qs: map<TagId, Tag>): (r: map<TagId, Tag>)
    ensures SubQuerySet(r, qs)
    ensures forall id :: id in r <==> id in qs && qs[id].active && IsLinked(qs[id])
  {
    map id | id in qs && qs[id].active && qs[id].link.contentType.Some? && qs[id].link.HasObjectId() :: qs[id]
  }

  /** `unlinked()`: the active tags attached to nothing. */
  function Unlinked(qs: map<TagId, Tag>): (r: map<TagId, Tag>)
    ensures SubQuerySet(r, qs)
    ensures forall id :: id in r <==> id in qs && qs[id].active && IsUnlinked(qs[id])
  {
    map id | id in qs && qs[id].active && qs[id].link.contentType.None? && !qs[id].link.HasObjectId() :: qs[id]
  }

  /** `available` and `assigned` split the active tags: disjoint, and together all of them. */
  lemma AvailableAssignedPartition(qs: map<TagId, Tag>)
    ensures Available(qs).Keys !! Assigned(qs).Keys
    ensures Available(qs).Keys + Assigned(qs).Keys == set id | id in qs && qs[id].active
  {
  }

  /**
   * `linked` and `unlinked` are disjoint, and a tag with only one of the two
   * attachment columns set is in neither.
   */
  lemma LinkedUnlinkedDisjoint(qs: map<TagId, Tag>, id: TagId)
    requires id in qs
    ensures id !in Linked(qs) || id !in Unlinked(qs)
    ensures qs[id].link.contentType.Some? != qs[id].link.HasObjectId() ==>
              id !in Linked(qs) && id !in Unlinked(qs)
  {
  }

  /** No inactive tag is selected by any of the four filters. */
  lemma FiltersExcludeInactive(qs: map<TagId, Tag>, id: TagId)
    requires id in qs && !qs[id].active
    ensures id !in Available(qs) && id !in Assigned(qs)
    ensures id !in Linked(qs) && id !in Unlinked(qs)
  {
  }

  /** The four filters of `NFCTagQuerySet`. */
  datatype Filter = AvailableFilter | AssignedFilter | LinkedFilter | UnlinkedFilter

  function ApplyFilter(f: Filter, qs: map<TagId, Tag>): map<TagId, Tag>
  {
    match f
    case AvailableFilter => Available(qs)
    case AssignedFilter => Assigned(qs)
    case LinkedFilter => Linked(qs)
    case UnlinkedFilter => Unlinked(qs)
  }

  /** `NFCTagManager.get_queryset()`: a query set over the whole table. */
  function GetQuerySet(rows: map<TagId, Tag>): map<TagId, Tag>
  {
    rows
  }

  /** Whether filter `f` selects row `t`, read off the filter's own condition. */
  predicate Matches(f: Filter, t: Tag)
  {
    match f
    case AvailableFilter => IsAvailableToRegister(t)
    case AssignedFilter => t.active && t.owner.Some?
    case LinkedFilter => t.active && IsLinked(t)
    case UnlinkedFilter => t.active && IsUnlinked(t)
  }

  /**
   * The manager methods: each one applies its query-set filter to the
   * whole table, so a manager call selects exactly the rows of the table
   * that the filter's condition accepts, unchanged, and all of them active.
   */
  function ManagerFilter(f: Filter, rows: map<TagId, Tag>): (r: map<TagId, Tag>)
    ensures forall id :: id in r <==> id in rows && Matches(f, rows[id])
    ensures forall id :: id in r ==> r[id] == rows[id] && r[id].active
  {
    ApplyFilter(f, GetQuerySet(rows))
  }
}
