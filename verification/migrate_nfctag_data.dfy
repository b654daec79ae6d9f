/**
 * The `migrate_nfctag_data` management command: copies every row of the
 * shipped tag table into the table of the configured tag model with
 * `get_or_create(uid=..., defaults={uuid, user})`, counting the rows it
 * created and the uids that were already there, all inside one transaction.
 */
module Migration {
  import opened Values
  import opened Tags

  /** The target table and the two counters while the copy runs. */
  datatype MState = MState(rows: map<TagId, Tag>, nextId: TagId, created: nat, existing: nat)

  /** The command's counters `nfctags_created` and `nfctags_existing`. */
  datatype Counters = Counters(created: nat, existing: nat)

  /** Some row of the table has this uid. */
  predicate UidPresent(rows: map<TagId, Tag>, uid: Uid)
  {
    exists id :: id in rows && rows[id].uid == uid
  }

  /** Some row of the table has this uuid. */
  predicate UuidPresent(rows: map<TagId, Tag>, uuid: Uuid)
  {
    exists id :: id in rows && rows[id].uuid == uuid
  }

  /** The rows of the shipped table: `uid` and `uuid` are unique there too. */
  predicate DistinctSource(s: seq<Tag>)
  {
    forall i, j :: 0 <= i < j < |s| ==> s[i].uid != s[j].uid && s[i].uuid != s[j].uuid
  }

  /** The row `get_or_create` inserts for source tag `t`: its uid, uuid and owner, all else default. */
  function Copy(m: TagModel, t: Tag): Tag
  {
    NewTag(m, t.uuid, t.uid, t.owner)
  }

  /**
   * One iteration of the loop. A row with the uid exists: it is left alone
   * and `existing` goes up. Otherwise the copy is inserted under the next
   * key and `created` goes up, unless its uuid is taken, in which case the
   * insert raises `IntegrityError`, the retried `get` finds no row with the
   * uid, and the error (`Err`, carrying the uid) escapes.
   */
  function Step(m: TagModel, st: MState, t: Tag): (r: Result<MState, Uid>)
    requires TableInvariant(st.rows, st.nextId, m)
    ensures r.Ok? ==> TableInvariant(r.value.rows, r.value.nextId, m)
  {
    if UidPresent(st.rows, t.uid) then Ok(st.(existing := st.existing + 1))
    else if UuidPresent(st.rows, t.uuid) then Err(t.uid)
    else Ok(MState(st.rows[st.nextId := Copy(m, t)], st.nextId + 1, st.created + 1, st.existing))
  }

  /** The loop over the source rows `s`, in order, stopping at the first error. */
  function Migrate(m: TagModel, st: MState, s: seq<Tag>): (r: Result<MState, Uid>)
    requires TableInvariant(st.rows, st.nextId, m)
    ensures r.Ok? ==> TableInvariant(r.value.rows, r.value.nextId, m)
    decreases |s|
  {
    if s == [] then Ok(st)
    else
      match Step(m, st, s[0])
      case Err(e) => Err(e)
      case Ok(st') => Migrate(m, st', s[1..])
  }

  /**
   * Every source row is counted exactly once, and every created row used up
   * one primary key.
   */
  lemma {:induction false} MigrateCounts(m: TagModel, st: MState, s: seq<Tag>)
    requires TableInvariant(st.rows, st.nextId, m)
    ensures var r := Migrate(m, st, s);
      r.Ok? ==>
        && r.value.created + r.value.existing == st.created + st.existing + |s|
        && r.value.created >= st.created && r.value.existing >= st.existing
        && r.value.nextId == st.nextId + (r.value.created - st.created)
    decreases |s|
  {
    if s != [] {
      var step := Step(m, st, s[0]);
      if step.Ok? {
        MigrateCounts(m, step.value, s[1..]);
      }
    }
  }

  /**
   * One successful step keeps every old row and adds at most the copy of
   * `t`, under the key that was next.
   */
  lemma StepGrows(m: TagModel, st: MState, t: Tag)
    requires TableInvariant(st.rows, st.nextId, m)
    requires Step(m, st, t).Ok?
    ensures var st' := Step(m, st, t).value;
      && st.nextId <= st'.nextId
      && (forall id :: id in st.rows ==> id in st'.rows && st'.rows[id] == st.rows[id])
      && (forall id :: id in st'.rows && id !in st.rows ==>
            id == st.nextId && !UidPresent(st.rows, t.uid) && st'.rows[id] == Copy(m, t))
  {
  }

  /**
   * Rows already in the target are never changed or removed, and every
   * other row afterwards is a copy, under a fresh key, of a source row whose
   * uid was not in the target.
   */
  lemma {:induction false} MigrateKeepsRows(m: TagModel, st: MState, s: seq<Tag>)
    requires TableInvariant(st.rows, st.nextId, m)
    ensures var r := Migrate(m, st, s);
      r.Ok? ==>
        && (forall id :: id in st.rows ==> id in r.value.rows && r.value.rows[id] == st.rows[id])
        && (forall id :: id in r.value.rows && id !in st.rows ==>
              && st.nextId <= id
              && exists k :: 0 <= k < |s| && !UidPresent(st.rows, s[k].uid) && r.value.rows[id] == Copy(m, s[k]))
    decreases |s|
  {
    if s != [] && Step(m, st, s[0]).Ok? {
      var st' := Step(m, st, s[0]).value;
      StepGrows(m, st, s[0]);
      MigrateKeepsRows(m, st', s[1..]);
      var r := Migrate(m, st', s[1..]);
      assert r == Migrate(m, st, s);
      if r.Ok? {
        forall id | id in r.value.rows && id !in st.rows
          ensures st.nextId <= id
          ensures exists k :: 0 <= k < |s| && !UidPresent(st.rows, s[k].uid) && r.value.rows[id] == Copy(m, s[k])
        {
          if id in st'.rows {
            assert r.value.rows[id] == Copy(m, s[0]);
          } else {
            var k :| 0 <= k < |s[1..]| && !UidPresent(st'.rows, s[1..][k].uid) && r.value.rows[id] == Copy(m, s[1..][k]);
            assert s[1..][k] == s[k + 1];
            forall j | j in st.rows
              ensures st.rows[j].uid != s[k + 1].uid
            {
              assert j in st'.rows;
            }
          }
        }
      }
    }
  }

  /**
   * After a successful run every source uid is in the target, and a source
   * row whose uid was absent has been copied with its uid, uuid and owner.
   */
  lemma {:induction false} MigrateCopiesSource(m: TagModel, st: MState, s: seq<Tag>)
    requires TableInvariant(st.rows, st.nextId, m)
    requires DistinctSource(s)
    ensures var r := Migrate(m, st, s);
      r.Ok? ==>
        forall k :: 0 <= k < |s| ==>
          && UidPresent(r.value.rows, s[k].uid)
          && (!UidPresent(st.rows, s[k].uid) ==> exists id :: id in r.value.rows && r.value.rows[id] == Copy(m, s[k]))
    decreases |s|
  {
    if s != [] {
      var step := Step(m, st, s[0]);
      if step.Ok? {
        var st' := step.value;
        assert DistinctSource(s[1..]) by {
          forall i, j | 0 <= i < j < |s[1..]|
            ensures s[1..][i].uid != s[1..][j].uid && s[1..][i].uuid != s[1..][j].uuid
          {
            assert s[1..][i] == s[i + 1] && s[1..][j] == s[j + 1];
          }
        }
        MigrateCopiesSource(m, st', s[1..]);
        MigrateKeepsRows(m, st', s[1..]);
        var r := Migrate(m, st', s[1..]);
        if r.Ok? {
          forall k | 0 <= k < |s|
            ensures UidPresent(r.value.rows, s[k].uid)
            ensures !UidPresent(st.rows, s[k].uid) ==> exists id :: id in r.value.rows && r.value.rows[id] == Copy(m, s[k])
          {
            if k == 0 {
              if UidPresent(st.rows, s[0].uid) {
                var id :| id in st.rows && st.rows[id].uid == s[0].uid;
                assert id in r.value.rows && r.value.rows[id].uid == s[0].uid;
              } else {
                assert st.nextId in r.value.rows && r.value.rows[st.nextId] == Copy(m, s[0]);
              }
            } else {
              assert s[1..][k - 1] == s[k];
              if !UidPresent(st.rows, s[k].uid) {
                assert s[k].uid != s[0].uid;
                forall id | id in st'.rows
                  ensures st'.rows[id].uid != s[k].uid
                {
                  if id in st.rows {
                    assert st.rows[id].uid != s[k].uid;
                  }
                }
              }
            }
          }
        }
      }
    }
  }

  /** How many source rows have a uid that is already in the table. */
  function PresentCount(rows: map<TagId, Tag>, s: seq<Tag>): (n: nat)
    ensures n <= |s|
  {
    if s == [] then 0
    else (if UidPresent(rows, s[0].uid) then 1 else 0) + PresentCount(rows, s[1..])
  }

  /** Two tables that agree on which source uids they hold give the same count. */
  lemma {:induction false} PresentCountAgrees(rows: map<TagId, Tag>, rows': map<TagId, Tag>, s: seq<Tag>)
    requires forall k :: 0 <= k < |s| ==> (UidPresent(rows, s[k].uid) <==> UidPresent(rows', s[k].uid))
    ensures PresentCount(rows, s) == PresentCount(rows', s)
  {
    if s != [] {
      assert UidPresent(rows, s[0].uid) <==> UidPresent(rows', s[0].uid);
      forall k | 0 <= k < |s[1..]|
        ensures UidPresent(rows, s[1..][k].uid) <==> UidPresent(rows', s[1..][k].uid)
      {
        assert s[1..][k] == s[k + 1];
      }
      PresentCountAgrees(rows, rows', s[1..]);
    }
  }

  /**
   * `existing` counts exactly the source rows whose uid was already in the
   * target before the command ran; `created` counts the others.
   */
  lemma {:induction false} MigrateExistingCount(m: TagModel, st: MState, s: seq<Tag>)
    requires TableInvariant(st.rows, st.nextId, m)
    requires DistinctSource(s)
    ensures var r := Migrate(m, st, s);
      r.Ok? ==>
        && r.value.existing == st.existing + PresentCount(st.rows, s)
        && r.value.created == st.created + (|s| - PresentCount(st.rows, s))
    decreases |s|
  {
    MigrateCounts(m, st, s);
    if s != [] {
      var step := Step(m, st, s[0]);
      if step.Ok? {
        var st' := step.value;
        assert DistinctSource(s[1..]) by {
          forall i, j | 0 <= i < j < |s[1..]|
            ensures s[1..][i].uid != s[1..][j].uid && s[1..][i].uuid != s[1..][j].uuid
          {
            assert s[1..][i] == s[i + 1] && s[1..][j] == s[j + 1];
          }
        }
        MigrateExistingCount(m, st', s[1..]);
        forall k | 0 <= k < |s[1..]|
          ensures UidPresent(st.rows, s[1..][k].uid) <==> UidPresent(st'.rows, s[1..][k].uid)
        {
          assert s[1..][k] == s[k + 1];
          assert s[k + 1].uid != s[0].uid;
          if UidPresent(st'.rows, s[k + 1].uid) {
            var id :| id in st'.rows && st'.rows[id].uid == s[k + 1].uid;
            assert id in st.rows;
          }
          if UidPresent(st.rows, s[k + 1].uid) {
            var id :| id in st.rows && st.rows[id].uid == s[k + 1].uid;
            assert id in st'.rows && st'.rows[id].uid == s[k + 1].uid;
          }
        }
        PresentCountAgrees(st.rows, st'.rows, s[1..]);
      }
    }
  }

  /**
   * The command fails only on a uuid clash: some source row whose uid is
   * not in the target carries a uuid that the target, or an earlier source
   * row, already uses; the error names that row's uid.
   */
  lemma {:induction false} MigrateFailsOnlyOnUuidClash(m: TagModel, st: MState, s: seq<Tag>)
    requires TableInvariant(st.rows, st.nextId, m)
    ensures var r := Migrate(m, st, s);
      r.Err? ==>
        exists k :: 0 <= k < |s| && s[k].uid == r.error && !UidPresent(st.rows, s[k].uid) &&
          (UuidPresent(st.rows, s[k].uuid) || exists j :: 0 <= j < k && s[j].uuid == s[k].uuid)
    decreases |s|
  {
    if s != [] {
      var step := Step(m, st, s[0]);
      if step.Err? {
        assert 0 < |s| && s[0].uid == Migrate(m, st, s).error;
      } else {
        var st' := step.value;
        StepGrows(m, st, s[0]);
        MigrateFailsOnlyOnUuidClash(m, st', s[1..]);
        var r := Migrate(m, st', s[1..]);
        assert r == Migrate(m, st, s);
        if r.Err? {
          var k :| 0 <= k < |s[1..]| && s[1..][k].uid == r.error && !UidPresent(st'.rows, s[1..][k].uid) &&
            (UuidPresent(st'.rows, s[1..][k].uuid) || exists j :: 0 <= j < k && s[1..][j].uuid == s[1..][k].uuid);
          assert s[1..][k] == s[k + 1];
          if !UuidPresent(st'.rows, s[k + 1].uuid) {
            var j :| 0 <= j < k && s[1..][j].uuid == s[1..][k].uuid;
            assert s[1..][j] == s[j + 1];
          }
          ClashShiftsBack(m, st, st', s, k);
        }
      }
    }
  }

  /** The inductive step of the lemma above: a clash found after the first row is a clash in the whole run. */
  lemma ClashShiftsBack(m: TagModel, st: MState, st': MState, s: seq<Tag>, k: nat)
    requires TableInvariant(st.rows, st.nextId, m)
    requires s != [] && Step(m, st, s[0]) == Ok(st')
    requires k < |s| - 1 && !UidPresent(st'.rows, s[k + 1].uid)
    requires UuidPresent(st'.rows, s[k + 1].uuid) || exists j :: 1 <= j < k + 1 && s[j].uuid == s[k + 1].uuid
    ensures !UidPresent(st.rows, s[k + 1].uid)
    ensures UuidPresent(st.rows, s[k + 1].uuid) || exists j :: 0 <= j < k + 1 && s[j].uuid == s[k + 1].uuid
  {
    StepGrows(m, st, s[0]);
    forall id | id in st.rows
      ensures st.rows[id].uid != s[k + 1].uid
    {
      assert id in st'.rows;
    }
    if !UuidPresent(st.rows, s[k + 1].uuid) {
      if UuidPresent(st'.rows, s[k + 1].uuid) {
        var id :| id in st'.rows && st'.rows[id].uuid == s[k + 1].uuid;
        assert s[0].uuid == s[k + 1].uuid;
      } else {
        var j :| 1 <= j < k + 1 && s[j].uuid == s[k + 1].uuid;
      }
    }
  }

  /**
   * Conversely, when every source row whose uid is missing from the target
   * has a uuid the target does not use, the command succeeds.
   */
  lemma {:induction false} MigrateSucceedsWithoutClash(m: TagModel, st: MState, s: seq<Tag>)
    requires TableInvariant(st.rows, st.nextId, m)
    requires DistinctSource(s)
    requires forall k :: 0 <= k < |s| ==> UidPresent(st.rows, s[k].uid) || !UuidPresent(st.rows, s[k].uuid)
    ensures Migrate(m, st, s).Ok?
    decreases |s|
  {
    if s != [] {
      var step := Step(m, st, s[0]);
      assert step.Ok?;
      var st' := step.value;
      assert DistinctSource(s[1..]) by {
        forall i, j | 0 <= i < j < |s[1..]|
          ensures s[1..][i].uid != s[1..][j].uid && s[1..][i].uuid != s[1..][j].uuid
        {
          assert s[1..][i] == s[i + 1] && s[1..][j] == s[j + 1];
        }
      }
      forall k | 0 <= k < |s[1..]|
        ensures UidPresent(st'.rows, s[1..][k].uid) || !UuidPresent(st'.rows, s[1..][k].uuid)
      {
        assert s[1..][k] == s[k + 1];
        if UidPresent(st.rows, s[k + 1].uid) {
          var id :| id in st.rows && st.rows[id].uid == s[k + 1].uid;
          assert id in st'.rows && st'.rows[id].uid == s[k + 1].uid;
        } else {
          forall id | id in st'.rows
            ensures st'.rows[id].uuid != s[k + 1].uuid
          {
            if id in st.rows {
              assert st.rows[id].uuid != s[k + 1].uuid;
            } else {
              assert st'.rows[id] == Copy(m, s[0]);
            }
          }
        }
      }
      MigrateSucceedsWithoutClash(m, st', s[1..]);
    }
  }

  /** When every source uid is already in the target, nothing is written and everything counts as existing. */
  lemma {:induction false} MigrateAllPresent(m: TagModel, st: MState, s: seq<Tag>)
    requires TableInvariant(st.rows, st.nextId, m)
    requires forall k :: 0 <= k < |s| ==> UidPresent(st.rows, s[k].uid)
    ensures Migrate(m, st, s) == Ok(st.(existing := st.existing + |s|))
    decreases |s|
  {
    if s != [] {
      assert UidPresent(st.rows, s[0].uid);
      forall k | 0 <= k < |s[1..]|
        ensures UidPresent(st.rows, s[1..][k].uid)
      {
        assert s[1..][k] == s[k + 1];
      }
      MigrateAllPresent(m, st.(existing := st.existing + 1), s[1..]);
    }
  }

  /** Running the command a second time creates nothing and reports every source row as existing. */
  lemma MigrateRerun(m: TagModel, rows: map<TagId, Tag>, nextId: TagId, s: seq<Tag>)
    requires TableInvariant(rows, nextId, m)
    requires DistinctSource(s)
    requires Migrate(m, MState(rows, nextId, 0, 0), s).Ok?
    ensures var first := Migrate(m, MState(rows, nextId, 0, 0), s).value;
      Migrate(m, MState(first.rows, first.nextId, 0, 0), s) == Ok(MState(first.rows, first.nextId, 0, |s|))
  {
    var first := Migrate(m, MState(rows, nextId, 0, 0), s).value;
    MigrateCopiesSource(m, MState(rows, nextId, 0, 0), s);
    MigrateAllPresent(m, MState(first.rows, first.nextId, 0, 0), s);
  }

  /**
   * `Command.handle`: both counters start at 0, the source rows are taken
   * in the order given, and the transaction either commits every insert or,
   * when an insert raises, none.
   */
  method Handle(db: TagStore, source: seq<Tag>) returns (r: Result<Counters, Uid>)
    requires db.Valid()
    modifies db
    ensures db.Valid()
    ensures var spec := Migrate(db.model, MState(old(db.rows), old(db.nextId), 0, 0), source);
      && (spec.Err? ==> r == Err(spec.error) && db.rows == old(db.rows) && db.nextId == old(db.nextId))
      && (spec.Ok? ==> r == Ok(Counters(spec.value.created, spec.value.existing))
                       && db.rows == spec.value.rows && db.nextId == spec.value.nextId)
  {
    var created: nat := 0;
    var existing: nat := 0;
    var savedRows, savedNext := db.rows, db.nextId;
    ghost var spec := Migrate(db.model, MState(db.rows, db.nextId, 0, 0), source);
    var i := 0;
    while i < |source|
      invariant 0 <= i <= |source|
      invariant db.Valid()
      invariant savedRows == old(db.rows) && savedNext == old(db.nextId)
      invariant spec == Migrate(db.model, MState(db.rows, db.nextId, created, existing), source[i..])
    {
      var nfc := source[i];
      ghost var st := MState(db.rows, db.nextId, created, existing);
      assert source[i..][0] == nfc && source[i..][1..] == source[i + 1..];
      ghost var step := Step(db.model, st, nfc);
      assert spec == if step.Err? then Err(step.error) else Migrate(db.model, step.value, source[i + 1..]);
      var found := exists id :: id in db.rows && db.rows[id].uid == nfc.uid;
      if found {
        existing := existing + 1;
        assert step == Ok(MState(db.rows, db.nextId, created, existing));
      } else {
        var clash := exists id :: id in db.rows && db.rows[id].uuid == nfc.uuid;
        if clash {
          assert step == Err(nfc.uid);
          db.rows, db.nextId := savedRows, savedNext;
          return Err(nfc.uid);
        }
        db.rows := db.rows[db.nextId := Copy(db.model, nfc)];
        db.nextId := db.nextId + 1;
        created := created + 1;
        assert step == Ok(MState(db.rows, db.nextId, created, existing));
      }
      i := i + 1;
    }
    return Ok(Counters(created, existing));
  }
}
