/**
 * The "applications" array of the registry's QSettings store: numbered
 * records (slots) plus a size entry. A write merges each application's
 * configuration into its slot key by key, so keys the application no longer
 * has, and slots beyond the new size, stay behind.
 */

module SettingsStore {
  import opened QMaps
  import opened Variants
  import opened AppsModel

  type Slots = map<int, Config>

  /** The record at index i; an index never written reads as an empty group. */
  function SlotAt(slots: Slots, i: int): (c: Config)
    ensures i !in slots ==> c == map[]
  {
    if i in slots then slots[i] else map[]
  }

  /** The store after writing the first n applications of reg, in key order. */
  function WrittenSlots(slots: Slots, reg: Registry, n: int): Slots
    requires 0 <= n <= |reg|
    decreases n
  {
    if n == 0 then slots
    else WrittenSlots(slots, reg, n - 1)[n - 1 := SlotAt(slots, n - 1) + reg[n - 1].1.config]
  }

  /**
   * What a write leaves: each of the first n slots merged with its
   * application's configuration, every other slot as it was, no new slot
   * beyond them.
   */
  lemma {:induction false} WrittenSlotsAt(slots: Slots, reg: Registry, n: int)
    requires 0 <= n <= |reg|
    ensures forall i :: 0 <= i < n ==>
              i in WrittenSlots(slots, reg, n) && WrittenSlots(slots, reg, n)[i] == SlotAt(slots, i) + reg[i].1.config
    ensures forall i :: i in slots && !(0 <= i < n) ==>
              i in WrittenSlots(slots, reg, n) && WrittenSlots(slots, reg, n)[i] == slots[i]
    ensures forall i :: i in WrittenSlots(slots, reg, n) ==> i in slots || 0 <= i < n
    decreases n
  {
    if n > 0 {
      WrittenSlotsAt(slots, reg, n - 1);
    }
  }

  /** The store holds, at index i below its size, every setting of the i-th application. */
  ghost predicate Reflects(slots: Slots, size: int, reg: Registry)
  {
    && size == |reg|
    && forall i :: 0 <= i < |reg| ==>
         && i in slots
         && forall k :: k in reg[i].1.config ==> k in slots[i] && slots[i][k] == reg[i].1.config[k]
  }

  /** The "name" values of the first size records, as the first pass of readApplications reads them. */
  function StoredNames(slots: Slots, size: nat): (names: seq<string>)
    ensures |names| == size
    ensures forall i :: 0 <= i < size ==> names[i] == RecordName(SlotAt(slots, i))
  {
    seq(size, i requires 0 <= i < size => RecordName(SlotAt(slots, i)))
  }

  /** The first size records, as the second pass of readApplications reads them. */
  function StoredRecords(slots: Slots, size: nat): (records: seq<Config>)
    ensures |records| == size
    ensures forall i :: 0 <= i < size ==> records[i] == SlotAt(slots, i)
  {
    seq(size, i requires 0 <= i < size => SlotAt(slots, i))
  }

  /**
   * A write merges rather than replaces: a "user" the i-th record still holds
   * from an earlier occupant survives when the i-th application has none,
   * and step 2 of the next read copies it into that application's
   * configuration.
   */
  lemma StaleUserCarried(slots: Slots, reg: Registry, i: int)
    requires 0 <= i < |reg| && i in slots
    requires "user" in slots[i] && "user" !in reg[i].1.config
    ensures i in WrittenSlots(slots, reg, |reg|)
    ensures "user" in WrittenSlots(slots, reg, |reg|)[i] && WrittenSlots(slots, reg, |reg|)[i]["user"] == slots[i]["user"]
    ensures "user" in RecordProps(WrittenSlots(slots, reg, |reg|)[i])
  {
    WrittenSlotsAt(slots, reg, |reg|);
  }

  /** A full write leaves a store that reflects the registry. */
  lemma WrittenReflects(slots: Slots, reg: Registry)
    ensures Reflects(WrittenSlots(slots, reg, |reg|), |reg|, reg)
  {
    WrittenSlotsAt(slots, reg, |reg|);
  }

  /**
   * Reading names back from a store that reflects a well-formed registry
   * yields the registry's names in key order: whatever a write leaves behind,
   * the first pass of readApplications sees exactly the registered names.
   */
  lemma ReflectsNames(uuid: string -> string, slots: Slots, size: nat, reg: Registry)
    requires WellFormed(uuid, reg) && Reflects(slots, size, reg)
    ensures StoredNames(slots, size) == Keys(reg)
  {
    forall i | 0 <= i < size ensures StoredNames(slots, size)[i] == Keys(reg)[i] {
      var config := reg[i].1.config;
      assert EntryOk(uuid, reg[i].0, reg[i].1);
      assert "name" in config;
      assert SlotAt(slots, i)["name"] == config["name"];
    }
  }
}
