/**
 The `channels` table (storage/database.py) and the statements `ChannelStore`
 (storage/repositories.py) runs on it. Rows are keyed by secret; a device slot belongs to at
 most one row. Rows are never deleted, so ids are handed out as 1, 2, 3, ...
 */
module ChannelTable {
  import opened Bytes

  datatype Secret = Secret(key: Bytes)

  datatype Row = Row(id: nat, name: string, slot: Option<nat>, firstSeen: int, lastSeen: int)

  /** UNIQUE(secret) is the map's own key discipline. */
  type Table = map<Secret, Row>

  ghost predicate UniqueSlots(t: Table) {
    forall a, b :: a in t && b in t && t[a].slot.Some? && t[a].slot == t[b].slot ==> a == b
  }

  ghost predicate UniqueIds(t: Table) {
    && (forall a :: a in t ==> 1 <= t[a].id <= |t|)
    && (forall a, b :: a in t && b in t && t[a].id == t[b].id ==> a == b)
  }

  ghost predicate Valid(t: Table) {
    UniqueSlots(t) && UniqueIds(t)
  }

  /** The table says that `slot` holds `secret`. */
  predicate Holds(t: Table, slot: nat, secret: Secret) {
    secret in t && t[secret].slot == Some(slot)
  }

  /** What an UPDATE leaves behind, or the constraint it broke. */
  datatype Sql = Ok(table: Table) | UniqueViolation

  // ---------------------------------------------------------------- the statements

  /** INSERT ... ON CONFLICT(secret) DO UPDATE SET name, last_seen. */
  function Upsert(t: Table, now: int, name: string, secret: Secret): Table {
    if secret in t then t[secret := t[secret].(name := name, lastSeen := now)]
    else t[secret := Row(|t| + 1, name, None, now, now)]
  }

  /** UPDATE channels SET slot = NULL WHERE slot = ? AND id != ? */
  function EvictOthers(t: Table, slot: nat, id: nat): Table {
    map s | s in t :: if t[s].slot == Some(slot) && t[s].id != id then t[s].(slot := None) else t[s]
  }

  function Place(t: Table, slot: nat, id: nat): Table {
    map s | s in t :: if t[s].id == id then t[s].(slot := Some(slot)) else t[s]
  }

  /** UPDATE channels SET slot = ? WHERE id = ?, which UNIQUE(slot) may refuse. */
  function SetSlot(t: Table, slot: nat, id: nat): Sql {
    if (exists s :: s in t && t[s].slot == Some(slot) && t[s].id != id) && (exists s :: s in t && t[s].id == id)
    then UniqueViolation
    else Ok(Place(t, slot, id))
  }

  /** UPDATE channels SET slot = NULL WHERE slot = ? */
  function ClearSlot(t: Table, slot: nat): Table {
    map s | s in t :: if t[s].slot == Some(slot) then t[s].(slot := None) else t[s]
  }

  /** UPDATE channels SET slot = NULL WHERE slot >= ? */
  function ClearSlotsFrom(t: Table, first: nat): Table {
    map s | s in t :: if t[s].slot.Some? && t[s].slot.value >= first then t[s].(slot := None) else t[s]
  }

  /** `assign_slot`: three statements. */
  function AssignSlot(t: Table, now: int, slot: nat, name: string, secret: Secret): Sql {
    var t1 := Upsert(t, now, name, secret);
    SetSlot(EvictOthers(t1, slot, t1[secret].id), slot, t1[secret].id)
  }

  // ---------------------------------------------------------------- what they mean

  lemma UpsertKeepsRows(t: Table, now: int, name: string, secret: Secret)
    ensures var t' := Upsert(t, now, name, secret);
      && t'.Keys == t.Keys + {secret}
      && (forall s :: s in t ==> t'[s].id == t[s].id && t'[s].slot == t[s].slot)
      && (secret !in t ==> |t'| == |t| + 1 && t'[secret].id == |t| + 1 && t'[secret].slot == None)
      && (secret in t ==> |t'| == |t|)
  {
    var t' := Upsert(t, now, name, secret);
    assert t'.Keys == t.Keys + {secret};
    assert secret in t ==> t'.Keys == t.Keys;
    assert |t'.Keys| == |t'| && |t.Keys| == |t|;
  }

  lemma UpsertKeepsValid(t: Table, now: int, name: string, secret: Secret)
    requires Valid(t)
    ensures Valid(Upsert(t, now, name, secret))
    ensures forall k: nat, s :: Holds(Upsert(t, now, name, secret), k, s) <==> Holds(t, k, s)
  {
    var t' := Upsert(t, now, name, secret);
    UpsertKeepsRows(t, now, name, secret);
    ExtensionKeepsUniqueIds(t, t', secret);
    assert UniqueSlots(t') by {
      forall a, b | a in t' && b in t' && t'[a].slot.Some? && t'[a].slot == t'[b].slot
        ensures a == b
      {
        assert a in t && b in t;
      }
    }
  }

  lemma ExtensionKeepsUniqueIds(t: Table, t': Table, secret: Secret)
    requires UniqueIds(t) && t'.Keys == t.Keys + {secret}
    requires forall s :: s in t ==> t'[s].id == t[s].id
    requires if secret in t then |t'| == |t| else |t'| == |t| + 1 && t'[secret].id == |t| + 1
    ensures UniqueIds(t')
  {
    forall a | a in t'
      ensures 1 <= t'[a].id <= |t'|
    {
      assert a in t || a == secret;
    }
    forall a, b | a in t' && b in t' && t'[a].id == t'[b].id
      ensures a == b
    {
      assert a in t ==> t[a].id <= |t|;
      assert b in t ==> t[b].id <= |t|;
      assert a in t || a == secret;
      assert b in t || b == secret;
    }
  }

  /** Same rows, same ids; only slots may differ. */
  ghost predicate SameButSlots(t: Table, t': Table) {
    t'.Keys == t.Keys && forall s :: s in t ==> t'[s] == t[s].(slot := t'[s].slot)
  }

  /** Taking rows off their slots cannot make two rows share one. */
  lemma FewerPlacesKeepsUniqueSlots(t: Table, t': Table)
    requires UniqueSlots(t) && SameButSlots(t, t')
    requires forall s :: s in t && t'[s].slot.Some? ==> t'[s].slot == t[s].slot
    ensures UniqueSlots(t')
  {
  }

  lemma SlotsOnlyKeepsIds(t: Table, t': Table)
    requires UniqueIds(t) && SameButSlots(t, t')
    ensures UniqueIds(t')
  {
    assert |t'.Keys| == |t.Keys|;
    assert forall s :: s in t' ==> t'[s].id == t[s].id;
  }

  lemma SameIdSameRow(t: Table, a: Secret, b: Secret)
    requires UniqueIds(t) && a in t && b in t && t[a].id == t[b].id
    ensures a == b
  {
  }

  lemma EvictKeepsValid(t: Table, slot: nat, secret: Secret)
    requires Valid(t) && secret in t
    ensures var t' := EvictOthers(t, slot, t[secret].id);
      && Valid(t') && SameButSlots(t, t')
      && forall s, k: nat :: Holds(t', k, s) <==> Holds(t, k, s) && (k == slot ==> s == secret)
  {
    hide UniqueSlots, UniqueIds;
    var t' := EvictOthers(t, slot, t[secret].id);
    SlotsOnlyKeepsIds(t, t');
    FewerPlacesKeepsUniqueSlots(t, t');
    forall s, k: nat
      ensures Holds(t', k, s) <==> Holds(t, k, s) && (k == slot ==> s == secret)
    {
      if s in t && t[s].id == t[secret].id {
        SameIdSameRow(t, s, secret);
      }
    }
  }

  /** With the slot's other occupants gone, UNIQUE(slot) does not stop the last statement. */
  lemma SetSlotSucceeds(t: Table, slot: nat, secret: Secret)
    requires Valid(t) && secret in t
    requires forall s :: Holds(t, slot, s) ==> s == secret
    ensures var r := SetSlot(t, slot, t[secret].id);
      && r.Ok? && Valid(r.table) && SameButSlots(t, r.table)
      && forall s, k: nat :: Holds(r.table, k, s) <==> if s == secret then k == slot else Holds(t, k, s)
  {
    hide UniqueIds;
    var id := t[secret].id;
    assert forall s :: s in t && t[s].slot == Some(slot) ==> Holds(t, slot, s);
    var t' := SetSlot(t, slot, id).table;
    forall s | s in t && t[s].id == id
      ensures s == secret
    {
      SameIdSameRow(t, s, secret);
    }
    SlotsOnlyKeepsIds(t, t');
    assert forall s, k: nat :: Holds(t', k, s) <==> if s == secret then k == slot else Holds(t, k, s);
    forall a, b | a in t' && b in t' && t'[a].slot.Some? && t'[a].slot == t'[b].slot
      ensures a == b
    {
      assert Holds(t', t'[a].slot.value, a) && Holds(t', t'[a].slot.value, b);
    }
  }

  /** The UPDATE is refused exactly when its result would have two rows in one slot. */
  lemma SetSlotFailsExactlyWhen(t: Table, slot: nat, id: nat)
    requires Valid(t)
    ensures SetSlot(t, slot, id) == UniqueViolation <==> !UniqueSlots(Place(t, slot, id))
  {
    var p := Place(t, slot, id);
    if a, b :| a in t && t[a].slot == Some(slot) && t[a].id != id && b in t && t[b].id == id {
      assert p[a].slot == p[b].slot == Some(slot);
    } else if b :| b in t && t[b].id == id {
      forall x, y | x in p && y in p && p[x].slot.Some? && p[x].slot == p[y].slot
        ensures x == y
      {
        assert t[x].id == id ==> p[x].slot == Some(slot);
        assert t[y].id == id ==> p[y].slot == Some(slot);
      }
    } else {
      assert p == t;
    }
  }

  lemma ClearKeepsValid(t: Table, slot: nat)
    requires Valid(t)
    ensures var t' := ClearSlot(t, slot);
      && Valid(t') && SameButSlots(t, t')
      && forall s, k: nat :: Holds(t', k, s) <==> Holds(t, k, s) && k != slot
  {
    hide UniqueSlots, UniqueIds;
    SlotsOnlyKeepsIds(t, ClearSlot(t, slot));
    FewerPlacesKeepsUniqueSlots(t, ClearSlot(t, slot));
  }

  lemma ClearFromKeepsValid(t: Table, first: nat)
    requires Valid(t)
    ensures var t' := ClearSlotsFrom(t, first);
      && Valid(t') && SameButSlots(t, t')
      && forall s, k: nat :: Holds(t', k, s) <==> Holds(t, k, s) && k < first
  {
    hide UniqueSlots, UniqueIds;
    SlotsOnlyKeepsIds(t, ClearSlotsFrom(t, first));
    FewerPlacesKeepsUniqueSlots(t, ClearSlotsFrom(t, first));
  }

  /** What every statement keeps of a row: its id and when it was first seen. */
  ghost predicate KeepsIdentity(t: Table, t': Table) {
    forall s :: s in t ==> s in t' && t'[s].id == t[s].id && t'[s].firstSeen == t[s].firstSeen
  }

  /** What else `t'` keeps of every row of `t` but one. */
  ghost predicate KeepsOtherNames(t: Table, t': Table, secret: Secret) {
    forall s :: s in t && s != secret ==> s in t' && t'[s].name == t[s].name && t'[s].lastSeen == t[s].lastSeen
  }

  /** The table when `assign_slot` is done: never stopped by a constraint. */
  function Assigned(t: Table, now: int, slot: nat, name: string, secret: Secret): Table {
    var t1 := Upsert(t, now, name, secret);
    Place(EvictOthers(t1, slot, t1[secret].id), slot, t1[secret].id)
  }

  /**
   `assign_slot` never breaks a constraint. It moves the secret's row to the slot, evicts the
   slot's other occupant, and leaves every other row where it was.
   */
  lemma AssignSlotPlaces(t: Table, now: int, slot: nat, name: string, secret: Secret)
    requires Valid(t)
    ensures AssignSlot(t, now, slot, name, secret) == Ok(Assigned(t, now, slot, name, secret))
    ensures Valid(Assigned(t, now, slot, name, secret))
    ensures forall k: nat, s :: Holds(Assigned(t, now, slot, name, secret), k, s) <==>
              if s == secret then k == slot else Holds(t, k, s) && k != slot
  {
    var t1 := Upsert(t, now, name, secret);
    UpsertKeepsRows(t, now, name, secret);
    UpsertKeepsValid(t, now, name, secret);
    var t2 := EvictOthers(t1, slot, t1[secret].id);
    EvictKeepsValid(t1, slot, secret);
    assert t2[secret].id == t1[secret].id;
    SetSlotSucceeds(t2, slot, secret);
  }

  /** `assign_slot` loses no row and changes no id; only the assigned row gets a name and a time. */
  lemma AssignSlotRows(t: Table, now: int, slot: nat, name: string, secret: Secret)
    requires Valid(t)
    ensures var t' := Assigned(t, now, slot, name, secret);
      && t'.Keys == t.Keys + {secret}
      && t'[secret].name == name && t'[secret].lastSeen == now
      && (secret !in t ==> t'[secret].id == |t| + 1 && t'[secret].firstSeen == now)
      && KeepsIdentity(t, t') && KeepsOtherNames(t, t', secret)
  {
    hide Valid, KeepsIdentity, KeepsOtherNames, EvictOthers, Place;
    UpsertKeepsRows(t, now, name, secret);
    UpsertKeepsNames(t, now, name, secret);
    var t1 := Upsert(t, now, name, secret);
    MovingKeepsRest(t1, slot, secret);
    KeepsIsTransitive(t, t1, Assigned(t, now, slot, name, secret), secret);
  }

  lemma MovingKeepsRest(t: Table, slot: nat, secret: Secret)
    requires secret in t
    ensures var t' := Place(EvictOthers(t, slot, t[secret].id), slot, t[secret].id);
      && t'.Keys == t.Keys
      && t'[secret].name == t[secret].name && t'[secret].lastSeen == t[secret].lastSeen
      && t'[secret].id == t[secret].id && t'[secret].firstSeen == t[secret].firstSeen
      && KeepsIdentity(t, t') && KeepsOtherNames(t, t', secret)
  {
  }

  lemma KeepsIsTransitive(t: Table, t1: Table, t2: Table, secret: Secret)
    requires KeepsIdentity(t, t1) && KeepsOtherNames(t, t1, secret)
    requires KeepsIdentity(t1, t2) && KeepsOtherNames(t1, t2, secret)
    ensures KeepsIdentity(t, t2) && KeepsOtherNames(t, t2, secret)
  {
  }

  lemma UpsertKeepsNames(t: Table, now: int, name: string, secret: Secret)
    ensures var t' := Upsert(t, now, name, secret);
      && t'[secret].name == name && t'[secret].lastSeen == now
      && (secret !in t ==> t'[secret].id == |t| + 1 && t'[secret].firstSeen == now)
      && KeepsIdentity(t, t') && KeepsOtherNames(t, t', secret)
  {
  }

  // ---------------------------------------------------------------- the store

  class ChannelStore {
    var rows: Table

    constructor ()
      ensures rows == map[]
    {
      rows := map[];
    }

    method UpsertRow(now: int, name: string, secret: Secret) returns (id: nat)
      modifies this
      ensures rows == Upsert(old(rows), now, name, secret)
      ensures id == rows[secret].id
    {
      if secret in rows {
        rows := rows[secret := rows[secret].(name := name, lastSeen := now)];
      } else {
        rows := rows[secret := Row(|rows| + 1, name, None, now, now)];
      }
      return rows[secret].id;
    }

    method Assign(now: int, slot: nat, name: string, secret: Secret) returns (id: nat)
      requires Valid(rows)
      modifies this
      ensures rows == Assigned(old(rows), now, slot, name, secret)
      ensures Valid(rows) && secret in rows && id == rows[secret].id
    {
      AssignSlotPlaces(rows, now, slot, name, secret);
      AssignSlotRows(rows, now, slot, name, secret);
      id := UpsertRow(now, name, secret);
      rows := EvictOthers(rows, slot, id);
      var r := SetSlot(rows, slot, id);
      rows := r.table;
    }

    method Clear(slot: nat)
      requires Valid(rows)
      modifies this
      ensures rows == ClearSlot(old(rows), slot) && Valid(rows)
    {
      ClearKeepsValid(rows, slot);
      rows := ClearSlot(rows, slot);
    }

    method ClearFrom(first: nat)
      requires Valid(rows)
      modifies this
      ensures rows == ClearSlotsFrom(old(rows), first) && Valid(rows)
    {
      ClearFromKeepsValid(rows, first);
      rows := ClearSlotsFrom(rows, first);
    }
  }
}
