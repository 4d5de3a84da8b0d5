/**
 * The audit interceptor: on every save and delete of a model not on the exclusion list,
 * append an audit record holding who did it and what changed. Field values are taken as
 * already turned into text by `model_to_dict` and the JSON encoder; `NoValue` is Python's
 * `None`, which is also what a missing key reads as. The source compares the values
 * before any such conversion, so a string against an equal stored `Decimal` is a change
 * there and not here.
 */
module Audit {
  import opened Common
  import Access

  datatype FieldValue = NoValue | Text(s: string)

  /** A model instance's fields, by name. */
  type FieldMap = map<string, FieldValue>

  /** `str(v)`. */
  function Render(v: FieldValue): string {
    match v
    case NoValue => "None"
    case Text(s) => s
  }

  /** `d.get(key)`. */
  function Get(d: FieldMap, key: string): FieldValue {
    if key in d then d[key] else NoValue
  }

  /** One entry of the changes map: `{'old': ..., 'new': ...}`; `None` stands for JSON null. */
  datatype ChangeEntry = ChangeEntry(oldText: Option<string>, newText: string)

  /** What a record carries: per-field changes (create, update) or a field snapshot (delete). */
  datatype Changes = FieldChanges(entries: map<string, ChangeEntry>) | Snapshot(fields: FieldMap)

  datatype Action = Create | Update | Delete

  datatype AuditRecord = AuditRecord(
    user: Option<nat>,
    action: Action,
    model: string,
    objectId: Option<nat>,
    changes: Changes)

  /** `EXCLUDED_MODELS`: saving these never takes a snapshot nor writes a record. */
  const ExcludedModels: seq<string> := ["AuditLog", "Session"]

  predicate Excluded(model: string) {
    model in ExcludedModels
  }

  /** The user stored on a record: the current user's id, if there is one and it is authenticated. */
  function RecordedUser(current: Option<Access.User>): (r: Option<nat>)
    ensures r.Some? <==> current.Some? && current.value.isAuthenticated
    ensures r.Some? ==> r.value == current.value.id
  {
    if current.Some? && current.value.isAuthenticated then Some(current.value.id) else None
  }

  // ----- The diff -----

  /** The update entry for one field: its old and new value as text. */
  function Entry(before: FieldMap, after: FieldMap, key: string): ChangeEntry
    requires key in after
  {
    ChangeEntry(Some(Render(Get(before, key))), Render(after[key]))
  }

  /** The changes among the keys in `keys`: a key of the new state whose value differs from `old.get(key)`. */
  function DiffOn(before: FieldMap, after: FieldMap, keys: set<string>): map<string, ChangeEntry> {
    map k | k in keys && k in after && after[k] != Get(before, k) :: Entry(before, after, k)
  }

  /** The changes of an update: `DiffOn` over every key of the new state. */
  function Diff(before: FieldMap, after: FieldMap): map<string, ChangeEntry> {
    DiffOn(before, after, after.Keys)
  }

  /** The changes of a create: every field, from null to its value. */
  function CreateChanges(after: FieldMap): (r: map<string, ChangeEntry>)
    ensures r.Keys == after.Keys
    ensures forall k :: k in r ==> r[k] == ChangeEntry(None, Render(after[k]))
  {
    map k | k in after :: ChangeEntry(None, Render(after[k]))
  }

  /**
   * A key is reported exactly when it is a key of the new state whose value differs from
   * the old one (a missing old key reads as `None`), with both values as text; keys only
   * the old state has are not reported.
   */
  lemma DiffExact(before: FieldMap, after: FieldMap, k: string)
    ensures k in Diff(before, after) <==> k in after && after[k] != Get(before, k)
    ensures k in Diff(before, after) ==>
      Diff(before, after)[k] == ChangeEntry(Some(Render(Get(before, k))), Render(after[k]))
    ensures k !in after ==> k !in Diff(before, after)
  {
  }

  /** The diff is empty exactly when the new state agrees with the old one on each of its keys. */
  lemma DiffEmpty(before: FieldMap, after: FieldMap)
    ensures Diff(before, after) == map[] <==> forall k :: k in after ==> after[k] == Get(before, k)
  {
    if Diff(before, after) == map[] {
      forall k | k in after
        ensures after[k] == Get(before, k)
      {
        assert k !in Diff(before, after);
      }
    } else {
      var k := Pick(Diff(before, after).Keys);
    }
  }

  /** A new state that agrees with the old one on each of its own keys reports no change. */
  lemma DiffOfSameState(before: FieldMap, after: FieldMap)
    requires forall k :: k in after ==> k in before && before[k] == after[k]
    ensures Diff(before, after) == map[]
    ensures Diff(after, after) == map[]
  {
    DiffEmpty(before, after);
    DiffEmpty(after, after);
  }

  /**
   * For a key of the new state that renders differently from its old value, its entry
   * holds the new value; a key missing from the changes kept its value from the old state.
   */
  lemma DiffRecoversNew(before: FieldMap, after: FieldMap, k: string)
    requires k in after
    ensures k in Diff(before, after) ==> Diff(before, after)[k].newText == Render(after[k])
    ensures k !in Diff(before, after) ==> after[k] == Get(before, k)
  {
  }

  /** Adding one more key to `DiffOn` adds at most that key's entry. */
  lemma DiffOnStep(before: FieldMap, after: FieldMap, keys: set<string>, k: string)
    requires k in after && k !in keys
    ensures DiffOn(before, after, keys + {k})
      == if after[k] != Get(before, k) then DiffOn(before, after, keys)[k := Entry(before, after, k)]
         else DiffOn(before, after, keys)
  {
  }

  /** The loop of `audit_log_post_save` over `new_state.items()`. */
  method ComputeChanges(before: FieldMap, after: FieldMap) returns (changes: map<string, ChangeEntry>)
    ensures changes == Diff(before, after)
  {
    changes := map[];
    var todo := after.Keys;
    ghost var done: set<string> := {};
    while todo != {}
      invariant todo + done == after.Keys && todo !! done
      invariant changes == DiffOn(before, after, done)
      decreases todo
    {
      ghost var some := Pick(todo);
      var key :| key in todo;
      var oldValue := Get(before, key);
      DiffOnStep(before, after, done, key);
      if after[key] != oldValue {
        changes := changes[key := ChangeEntry(Some(Render(oldValue)), Render(after[key]))];
      }
      todo := todo - {key};
      done := done + {key};
    }
  }

  // ----- The record a signal writes -----

  /**
   * The record `audit_log_post_save` writes, if any. `snapshot` is the instance's
   * `_old_state`, `None` when it has none.
   */
  function SaveRecord(model: string, pk: Option<nat>, after: FieldMap, snapshot: Option<FieldMap>,
                      created: bool, current: Option<Access.User>): Option<AuditRecord>
  {
    if Excluded(model) then None
    else if created then
      Some(AuditRecord(RecordedUser(current), Create, model, pk, FieldChanges(CreateChanges(after))))
    else if snapshot.None? then
      Some(AuditRecord(RecordedUser(current), Update, model, pk, FieldChanges(map[])))
    else
      var changes := Diff(snapshot.value, after);
      if changes == map[] then None
      else Some(AuditRecord(RecordedUser(current), Update, model, pk, FieldChanges(changes)))
  }

  /** The record `audit_log_post_delete` writes, if any: the fields as they were. */
  function DeleteRecord(model: string, pk: Option<nat>, fields: FieldMap, current: Option<Access.User>)
    : Option<AuditRecord>
  {
    if Excluded(model) then None
    else Some(AuditRecord(RecordedUser(current), Delete, model, pk, Snapshot(fields)))
  }

  /** The cases of a save: excluded models and unchanged updates write nothing. */
  lemma SaveRecordCases(model: string, pk: Option<nat>, after: FieldMap, snapshot: Option<FieldMap>,
                        created: bool, current: Option<Access.User>)
    ensures var r := SaveRecord(model, pk, after, snapshot, created, current);
      && (Excluded(model) ==> r.None?)
      && (r.Some? ==> r.value.model == model && r.value.objectId == pk && r.value.user == RecordedUser(current))
      && (!Excluded(model) && created ==>
            r.Some? && r.value.action == Create && r.value.changes == FieldChanges(CreateChanges(after)))
      && (!Excluded(model) && !created && snapshot.Some? ==>
            (r.None? <==> forall k :: k in after ==> after[k] == Get(snapshot.value, k))
            && (r.Some? ==> r.value.action == Update && r.value.changes == FieldChanges(Diff(snapshot.value, after))))
  {
    if snapshot.Some? {
      DiffEmpty(snapshot.value, after);
    }
  }

  /** Each delete of a model not excluded writes exactly one record, holding the old fields. */
  lemma DeleteRecordCases(model: string, pk: Option<nat>, fields: FieldMap, current: Option<Access.User>)
    ensures DeleteRecord(model, pk, fields, current).Some? <==> !Excluded(model)
    ensures DeleteRecord(model, pk, fields, current).Some? ==>
      DeleteRecord(model, pk, fields, current).value
        == AuditRecord(RecordedUser(current), Delete, model, pk, Snapshot(fields))
  {
  }

  // ----- The signals on mutable state -----

  /** A model instance being saved or deleted: its fields and the `_old_state` attribute. */
  class Instance {
    var model: string
    var pk: Option<nat>
    var fields: FieldMap
    var oldState: Option<FieldMap>

    constructor (model: string, pk: Option<nat>, fields: FieldMap)
      ensures this.model == model && this.pk == pk && this.fields == fields && oldState.None?
    {
      this.model, this.pk, this.fields := model, pk, fields;
      oldState := None;
    }

    /**
     * `audit_log_pre_save`: snapshot the stored row of `stored` (the model's table, by
     * primary key) when the instance has a non-zero key and the row exists, else `{}`.
     */
    method PreSave(stored: map<nat, FieldMap>)
      modifies this
      ensures model == old(model) && pk == old(pk) && fields == old(fields)
      ensures Excluded(model) ==> oldState == old(oldState)
      ensures !Excluded(model) ==> oldState == Some(PreSaveSnapshot(pk, stored))
    {
      if model in ExcludedModels {
        return;
      }
      if pk.Some? && pk.value != 0 {
        if pk.value in stored {
          oldState := Some(stored[pk.value]);
        } else {
          oldState := Some(map[]);
        }
      } else {
        oldState := Some(map[]);
      }
    }
  }

  /** The snapshot `audit_log_pre_save` takes. */
  function PreSaveSnapshot(pk: Option<nat>, stored: map<nat, FieldMap>): (r: FieldMap)
    ensures pk.Some? && pk.value != 0 && pk.value in stored ==> r == stored[pk.value]
    ensures !(pk.Some? && pk.value != 0 && pk.value in stored) ==> r == map[]
  {
    if pk.Some? && pk.value != 0 && pk.value in stored then stored[pk.value] else map[]
  }

  /** The audit log table, in insertion order. */
  class AuditTrail {
    var records: seq<AuditRecord>

    constructor ()
      ensures records == []
    {
      records := [];
    }

    /** `audit_log_post_save`. */
    method PostSave(inst: Instance, created: bool, current: Option<Access.User>)
      modifies this
      ensures var r := SaveRecord(inst.model, inst.pk, inst.fields, inst.oldState, created, current);
        records == old(records) + (if r.Some? then [r.value] else [])
    {
      if inst.model in ExcludedModels {
        return;
      }
      var user := RecordedUser(current);
      var changes: map<string, ChangeEntry> := map[];
      var action := if created then Create else Update;
      if action == Update && inst.oldState.Some? {
        changes := ComputeChanges(inst.oldState.value, inst.fields);
        if changes == map[] {
          return;
        }
      } else if action == Create {
        changes := map k | k in inst.fields :: ChangeEntry(None, Render(inst.fields[k]));
      }
      records := records + [AuditRecord(user, action, inst.model, inst.pk, FieldChanges(changes))];
    }

    /** `audit_log_post_delete`. */
    method PostDelete(inst: Instance, current: Option<Access.User>)
      modifies this
      ensures var r := DeleteRecord(inst.model, inst.pk, inst.fields, current);
        records == old(records) + (if r.Some? then [r.value] else [])
    {
      if inst.model in ExcludedModels {
        return;
      }
      records := records + [AuditRecord(RecordedUser(current), Delete, inst.model, inst.pk, Snapshot(inst.fields))];
    }
  }

  /**
   * Saving an instance twice with no field changed between the two saves writes a record
   * for the first save at most: the snapshot the second save takes is the row the first
   * save stored.
   */
  lemma ResaveIsSilent(model: string, pk: nat, fields: FieldMap, stored: map<nat, FieldMap>,
                       current: Option<Access.User>)
    requires pk != 0
    ensures SaveRecord(model, Some(pk), fields, Some(PreSaveSnapshot(Some(pk), stored[pk := fields])), false, current)
      == None
  {
    DiffOfSameState(fields, fields);
  }
}
