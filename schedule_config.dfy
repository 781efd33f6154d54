/** The agenda configuration page: an editable copy of the stored appointment
    types, a flag for unsaved changes, save and reset. */
module ScheduleConfig {
  import opened Wrappers
  import opened Text
  import opened Storage
  import opened ConfigService

  /** `prev.map(t => t.id === id ? { ...t, duration: newDuration } : t)`. */
  function UpdateDuration(types: seq<TypeConfig>, id: string, newDuration: int): (r: seq<TypeConfig>)
    ensures |r| == |types|
    ensures forall i :: 0 <= i < |r| && types[i].id != id ==> r[i] == types[i]
    ensures forall i :: 0 <= i < |r| && types[i].id == id ==>
      r[i].duration == newDuration && r[i] == types[i].(duration := r[i].duration)
  {
    seq(|types|, i requires 0 <= i < |types| =>
      if types[i].id == id then types[i].(duration := newDuration) else types[i])
  }

  /** Applying the same change twice is applying it once. */
  lemma UpdateDurationIdempotent(types: seq<TypeConfig>, id: string, newDuration: int)
    ensures UpdateDuration(UpdateDuration(types, id, newDuration), id, newDuration)
      == UpdateDuration(types, id, newDuration)
  {
    var once := UpdateDuration(types, id, newDuration);
    var twice := UpdateDuration(once, id, newDuration);
    forall i | 0 <= i < |types|
      ensures twice[i] == once[i]
    {
      assert once[i].id == types[i].id;
    }
  }

  /** Changes to two different ids do not interfere: their order does not matter. */
  lemma UpdateDurationCommutes(types: seq<TypeConfig>, a: string, da: int, b: string, db: int)
    requires a != b
    ensures UpdateDuration(UpdateDuration(types, a, da), b, db)
      == UpdateDuration(UpdateDuration(types, b, db), a, da)
  {
    var ab := UpdateDuration(UpdateDuration(types, a, da), b, db);
    var ba := UpdateDuration(UpdateDuration(types, b, db), a, da);
    forall i | 0 <= i < |types|
      ensures ab[i] == ba[i]
    {
      assert UpdateDuration(types, a, da)[i].id == types[i].id;
      assert UpdateDuration(types, b, db)[i].id == types[i].id;
    }
  }

  /** `parseInt(e.target.value) || 0`: `NaN` (and 0) become 0. */
  function DurationFromInput(s: string): (d: int)
    ensures ParseInt(s).None? ==> d == 0
    ensures ParseInt(s).Some? ==> d == ParseInt(s).value
  {
    match ParseInt(s)
    case Some(v) => if v != 0 then v else 0
    case None => 0
  }

  /** The decimal text of a duration, as the number field holds it, is stored as that duration. */
  lemma DurationOfDecimal(n: int)
    ensures DurationFromInput(IntString(n)) == n
  {
    ParseIntOfDecimal("", n, "");
    assert "" + IntString(n) + "" == IntString(n);
    assert ParseInt(IntString(n)) == Some(n);
  }

  /** The page's state, over the browser's store. */
  class ScheduleConfigPage {
    var types: seq<TypeConfig>
    var hasChanges: bool
    const store: LocalStorage

    constructor (store: LocalStorage)
      ensures this.store == store && types == [] && !hasChanges
    {
      this.store := store;
      types := [];
      hasChanges := false;
    }

    /** `disabled={!hasChanges}` of the save button. */
    predicate SaveDisabled()
      reads this
    {
      !hasChanges
    }

    /** The mount effect: the stored types, or the defaults. */
    method Load()
      modifies this`types
      ensures types == TypesFromStored(store.GetItem(StorageKey))
    {
      types := GetAppointmentTypes(store);
    }

    /** `handleDurationChange`. */
    method HandleDurationChange(id: string, newDuration: int)
      modifies this`types, this`hasChanges
      ensures types == UpdateDuration(old(types), id, newDuration)
      ensures hasChanges && !SaveDisabled()
    {
      types := UpdateDuration(types, id, newDuration);
      hasChanges := true;
    }

    /** The number input's `onChange`. */
    method HandleDurationInput(id: string, input: string)
      modifies this`types, this`hasChanges
      ensures types == UpdateDuration(old(types), id, DurationFromInput(input))
      ensures hasChanges
    {
      HandleDurationChange(id, DurationFromInput(input));
    }

    /** `handleSave`: the list is stored, reads back as itself, and the flag drops. */
    method HandleSave()
      modifies store, this`hasChanges
      ensures store.items == old(store.items)[StorageKey := Stringify(types)]
      ensures TypesFromStored(store.GetItem(StorageKey)) == types
      ensures !hasChanges && SaveDisabled()
    {
      SaveAppointmentTypes(store, types);
      hasChanges := false;
    }

    /** `handleReset`: once confirmed, the key goes and the defaults come back. */
    method HandleReset(confirmed: bool)
      modifies store, this`types, this`hasChanges
      ensures confirmed ==>
        store.items == old(store.items) - {StorageKey} && types == DefaultTypes && !hasChanges
      ensures !confirmed ==>
        store.items == old(store.items) && types == old(types) && hasChanges == old(hasChanges)
    {
      if confirmed {
        store.RemoveItem(StorageKey);
        types := GetAppointmentTypes(store);
        hasChanges := false;
      }
    }
  }
}
