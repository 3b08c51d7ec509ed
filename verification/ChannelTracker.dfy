/**
 `ChannelTracker.refresh` and `_read_slot` (channels.py) against a node that does not change
 meanwhile: what a full refresh makes of any table.
 */
module ChannelTracker {
  import opened Bytes
  import opened ChannelTable

  /** The node's answer to `get_channel`. */
  datatype Reply = ErrorReply | ChannelInfo(name: string, secret: Secret)

  /** `_read_slot` treats an error, or an empty name with an all-zero secret, as a free slot. */
  predicate Vacant(r: Reply) {
    r.ErrorReply? || (r.name == "" && forall i :: 0 <= i < |r.secret.key| ==> r.secret.key[i] == 0)
  }

  /** The secret a slot of the node holds, if any; slots it does not have answer an error. */
  function SecretAt(node: seq<Reply>, slot: nat): Option<Secret> {
    if slot < |node| && !Vacant(node[slot]) then Some(node[slot].secret) else None
  }

  /** The table writes of `_read_slot`. */
  function WriteSlot(t: Table, now: int, slot: nat, r: Reply): Table {
    if Vacant(r) then ClearSlot(t, slot) else Assigned(t, now, slot, r.name, r.secret)
  }

  /** The slot loop of `refresh`, up to slot `n`. */
  function ReadSlots(t: Table, now: int, node: seq<Reply>, n: nat): Table
    requires n <= |node|
  {
    if n == 0 then t else WriteSlot(ReadSlots(t, now, node, n - 1), now, n - 1, node[n - 1])
  }

  function Refreshed(t: Table, now: int, node: seq<Reply>): Table {
    ClearSlotsFrom(ReadSlots(t, now, node, |node|), |node|)
  }

  /** The answer names a channel with this secret: it has a name, or a byte of the secret is not zero. */
  ghost predicate Shows(r: Reply, s: Secret) {
    && r.ChannelInfo? && r.secret == s
    && (r.name != "" || exists i :: 0 <= i < |s.key| && s.key[i] != 0)
  }

  class Tracker {
    const store: ChannelStore

    constructor (store: ChannelStore)
      ensures this.store == store
    {
      this.store := store;
    }

    method ReadSlot(slot: nat, now: int, reply: Reply)
      requires Valid(store.rows)
      modifies store
      ensures store.rows == WriteSlot(old(store.rows), now, slot, reply) && Valid(store.rows)
      ensures forall s :: Holds(store.rows, slot, s) <==> Shows(reply, s)
      ensures forall s, k: nat :: k != slot && !Shows(reply, s) ==>
                (Holds(store.rows, k, s) <==> Holds(old(store.rows), k, s))
    {
      ReadShows(store.rows, now, slot, reply);
      if Vacant(reply) {
        store.Clear(slot);
      } else {
        var _ := store.Assign(now, slot, reply.name, reply.secret);
      }
    }

    /** `answer` is the device query's: the node's slots, or an error, on which `refresh` raises. */
    method Refresh(now: int, answer: Option<seq<Reply>>) returns (ok: bool)
      requires Valid(store.rows)
      modifies store
      ensures Valid(store.rows) && (ok <==> answer.Some?)
      ensures store.rows == if ok then Refreshed(old(store.rows), now, answer.value) else old(store.rows)
      ensures ok ==> forall k: nat, s :: Holds(store.rows, k, s) <==> LastShown(answer.value, k, s)
    {
      if answer.None? {
        return false;
      }
      var node := answer.value;
      RefreshShows(store.rows, now, node);
      var maxChannels := |node|;
      for slot := 0 to maxChannels
        invariant store.rows == ReadSlots(old(store.rows), now, node, slot) && Valid(store.rows)
      {
        ReadSlot(slot, now, node[slot]);
      }
      store.ClearFrom(maxChannels);
      return true;
    }
  }

  // ---------------------------------------------------------------- one slot

  lemma WriteSlotValid(t: Table, now: int, slot: nat, r: Reply)
    requires Valid(t)
    ensures Valid(WriteSlot(t, now, slot, r))
  {
    if Vacant(r) {
      ClearKeepsValid(t, slot);
    } else {
      AssignSlotPlaces(t, now, slot, r.name, r.secret);
    }
  }

  /** Where one row stands after `_read_slot`. */
  lemma WriteSlotPlaces(t: Table, now: int, slot: nat, r: Reply, k: nat, s: Secret)
    requires Valid(t)
    ensures Holds(WriteSlot(t, now, slot, r), k, s) <==>
              if !Vacant(r) && s == r.secret then k == slot else Holds(t, k, s) && k != slot
  {
    hide Valid;
    if Vacant(r) {
      ClearKeepsValid(t, slot);
    } else {
      AssignSlotPlaces(t, now, slot, r.name, r.secret);
    }
  }

  /** In the answer's own terms: the slot ends up with the channel that the answer names, or with none. */
  lemma ReadShows(t: Table, now: int, slot: nat, r: Reply)
    requires Valid(t)
    ensures forall s :: Holds(WriteSlot(t, now, slot, r), slot, s) <==> Shows(r, s)
    ensures forall s, k: nat :: k != slot && !Shows(r, s) ==>
              (Holds(WriteSlot(t, now, slot, r), k, s) <==> Holds(t, k, s))
  {
    hide WriteSlot, Valid, Holds;
    forall s, k: nat
      ensures Holds(WriteSlot(t, now, slot, r), slot, s) <==> Shows(r, s)
      ensures k != slot && !Shows(r, s) ==> (Holds(WriteSlot(t, now, slot, r), k, s) <==> Holds(t, k, s))
    {
      WriteSlotPlaces(t, now, slot, r, slot, s);
      WriteSlotPlaces(t, now, slot, r, k, s);
    }
  }

  // ---------------------------------------------------------------- a full refresh

  /** Slot `k` is the greatest whose answer names this secret. */
  ghost predicate LastShown(node: seq<Reply>, k: nat, s: Secret) {
    k < |node| && Shows(node[k], s) && forall j :: k < j < |node| ==> !Shows(node[j], s)
  }

  /** In the answers' own terms: after a refresh each secret is at the greatest slot that names it, or nowhere. */
  lemma RefreshShows(t: Table, now: int, node: seq<Reply>)
    requires Valid(t)
    ensures forall k: nat, s :: Holds(Refreshed(t, now, node), k, s) <==> LastShown(node, k, s)
  {
    RefreshPlaces(t, now, node);
    hide Refreshed, Holds;
    forall k: nat, s
      ensures LastSlot(node, |node|, s) == Some(k) <==> LastShown(node, k, s)
    {
      LastSlotIsGreatest(node, |node|, s);
      ShownIsHeld(node, s);
    }
  }

  lemma ShownIsHeld(node: seq<Reply>, s: Secret)
    ensures forall k: nat :: SecretAt(node, k) == Some(s) <==> k < |node| && Shows(node[k], s)
  {
  }

  /** The greatest slot below `n` that holds `s`. */
  function LastSlot(node: seq<Reply>, n: nat, s: Secret): Option<nat>
    requires n <= |node|
  {
    if n == 0 then None
    else if SecretAt(node, n - 1) == Some(s) then Some(n - 1)
    else LastSlot(node, n - 1, s)
  }

  lemma {:induction false} LastSlotIsGreatest(node: seq<Reply>, n: nat, s: Secret)
    requires n <= |node|
    ensures LastSlot(node, n, s) == None <==> forall i: nat :: i < n ==> SecretAt(node, i) != Some(s)
    ensures LastSlot(node, n, s).Some? ==>
      var i := LastSlot(node, n, s).value;
      i < n && SecretAt(node, i) == Some(s) && forall j: nat :: i < j < n ==> SecretAt(node, j) != Some(s)
  {
    if n > 0 {
      LastSlotIsGreatest(node, n - 1, s);
    }
  }

  lemma {:induction false} ReadSlotsValid(t: Table, now: int, node: seq<Reply>, n: nat)
    requires Valid(t) && n <= |node|
    ensures Valid(ReadSlots(t, now, node, n))
  {
    hide WriteSlot, Valid;
    if n > 0 {
      ReadSlotsValid(t, now, node, n - 1);
      WriteSlotValid(ReadSlots(t, now, node, n - 1), now, n - 1, node[n - 1]);
    }
  }

  /** After reading the slots below `n`: read secrets are at their last slot, unread slots untouched. */
  lemma {:induction false} ReadSlotsPlace(t: Table, now: int, node: seq<Reply>, n: nat, k: nat, s: Secret)
    requires Valid(t) && n <= |node|
    ensures Holds(ReadSlots(t, now, node, n), k, s) <==>
              if LastSlot(node, n, s).Some? then LastSlot(node, n, s) == Some(k) else Holds(t, k, s) && k >= n
  {
    hide WriteSlot, Valid, Vacant, Holds;
    if n > 0 {
      ReadSlotsValid(t, now, node, n - 1);
      ReadSlotsPlace(t, now, node, n - 1, k, s);
      LastSlotIsGreatest(node, n - 1, s);
      WriteSlotPlaces(ReadSlots(t, now, node, n - 1), now, n - 1, node[n - 1], k, s);
    }
  }

  /**
   From any table, a full refresh puts every secret the node holds at the greatest slot holding it
   and takes every other row off the device: where rows end up depends on the node alone.
   */
  lemma RefreshPlaces(t: Table, now: int, node: seq<Reply>)
    requires Valid(t)
    ensures Valid(Refreshed(t, now, node))
    ensures forall k: nat, s :: Holds(Refreshed(t, now, node), k, s) <==> LastSlot(node, |node|, s) == Some(k)
  {
    ReadSlotsValid(t, now, node, |node|);
    ClearFromKeepsValid(ReadSlots(t, now, node, |node|), |node|);
    forall k: nat, s
      ensures Holds(Refreshed(t, now, node), k, s) <==> LastSlot(node, |node|, s) == Some(k)
    {
      ReadSlotsPlace(t, now, node, |node|, k, s);
      LastSlotIsGreatest(node, |node|, s);
    }
  }

  /** The secrets in the slots below `n`. */
  ghost function SecretsBelow(node: seq<Reply>, n: nat): set<Secret>
    requires n <= |node|
  {
    if n == 0 then {}
    else SecretsBelow(node, n - 1) + if Vacant(node[n - 1]) then {} else {node[n - 1].secret}
  }

  /** What a refresh does to the row of `s`, besides its slot. */
  ghost predicate RowAfter(t: Table, t': Table, now: int, node: seq<Reply>, n: nat, s: Secret)
    requires n <= |node|
  {
    match LastSlot(node, n, s)
    case Some(i) => s in t' && t'[s].lastSeen == now && NameAt(node, i) == Some(t'[s].name)
    case None => s in t ==> s in t' && t'[s].name == t[s].name && t'[s].lastSeen == t[s].lastSeen
  }

  function NameAt(node: seq<Reply>, slot: nat): Option<string> {
    if slot < |node| && node[slot].ChannelInfo? then Some(node[slot].name) else None
  }

  lemma {:induction false} ReadSlotsKeys(t: Table, now: int, node: seq<Reply>, n: nat)
    requires Valid(t) && n <= |node|
    ensures ReadSlots(t, now, node, n).Keys == t.Keys + SecretsBelow(node, n)
    ensures KeepsIdentity(t, ReadSlots(t, now, node, n))
  {
    hide WriteSlot, Valid, Vacant;
    if n > 0 {
      ReadSlotsKeys(t, now, node, n - 1);
      ReadSlotsValid(t, now, node, n - 1);
      WriteSlotKeys(ReadSlots(t, now, node, n - 1), now, n - 1, node[n - 1]);
    }
  }

  lemma {:induction false} ReadSlotsRow(t: Table, now: int, node: seq<Reply>, n: nat, s: Secret)
    requires Valid(t) && n <= |node|
    ensures RowAfter(t, ReadSlots(t, now, node, n), now, node, n, s)
  {
    hide WriteSlot, Valid, Vacant;
    if n > 0 {
      ReadSlotsRow(t, now, node, n - 1, s);
      ReadSlotsValid(t, now, node, n - 1);
      WriteSlotRow(ReadSlots(t, now, node, n - 1), now, n - 1, node[n - 1], s);
      VacantIsNoSecret(node, n - 1);
    }
  }

  lemma VacantIsNoSecret(node: seq<Reply>, slot: nat)
    requires slot < |node|
    ensures SecretAt(node, slot) == if Vacant(node[slot]) then None else Some(node[slot].secret)
    ensures !Vacant(node[slot]) ==> NameAt(node, slot) == Some(node[slot].name)
  {
  }

  lemma WriteSlotKeys(t: Table, now: int, slot: nat, r: Reply)
    requires Valid(t)
    ensures WriteSlot(t, now, slot, r).Keys == t.Keys + (if Vacant(r) then {} else {r.secret})
    ensures KeepsIdentity(t, WriteSlot(t, now, slot, r))
  {
    hide Valid;
    if !Vacant(r) {
      AssignSlotRows(t, now, slot, r.name, r.secret);
    }
  }

  lemma WriteSlotRow(t: Table, now: int, slot: nat, r: Reply, s: Secret)
    requires Valid(t)
    ensures var t' := WriteSlot(t, now, slot, r);
      if !Vacant(r) && s == r.secret then s in t' && t'[s].name == r.name && t'[s].lastSeen == now
      else s in t ==> s in t' && t'[s].name == t[s].name && t'[s].lastSeen == t[s].lastSeen
  {
    hide Valid;
    if !Vacant(r) {
      AssignSlotRows(t, now, slot, r.name, r.secret);
    }
  }

  /**
   A full refresh adds rows for the node's secrets and removes none; no id or first-seen time
   changes; a secret on the node gets the name of its greatest slot, any other row keeps its own.
   */
  lemma RefreshRows(t: Table, now: int, node: seq<Reply>)
    requires Valid(t)
    ensures Refreshed(t, now, node).Keys == t.Keys + SecretsBelow(node, |node|)
    ensures KeepsIdentity(t, Refreshed(t, now, node))
    ensures forall s :: RowAfter(t, Refreshed(t, now, node), now, node, |node|, s)
  {
    ReadSlotsKeys(t, now, node, |node|);
    forall s
      ensures RowAfter(t, Refreshed(t, now, node), now, node, |node|, s)
    {
      ReadSlotsRow(t, now, node, |node|, s);
    }
  }

  // ---------------------------------------------------------------- agreement with the node

  ghost predicate AgreesAt(t: Table, node: seq<Reply>, slot: nat) {
    forall s :: Holds(t, slot, s) <==> SecretAt(node, slot) == Some(s)
  }

  /** No secret sits in two slots of the node. */
  ghost predicate NoDuplicates(node: seq<Reply>) {
    forall i: nat, j: nat :: i < j && SecretAt(node, i).Some? ==> SecretAt(node, i) != SecretAt(node, j)
  }

  /** A refreshed table shows the node's slots exactly when the node holds no secret twice. */
  lemma RefreshAgreesExactlyWhen(t: Table, now: int, node: seq<Reply>)
    requires Valid(t)
    ensures (forall k: nat :: AgreesAt(Refreshed(t, now, node), node, k)) <==> NoDuplicates(node)
  {
    RefreshPlaces(t, now, node);
    var t' := Refreshed(t, now, node);
    forall s {
      LastSlotIsGreatest(node, |node|, s);
    }
    if NoDuplicates(node) {
      forall k: nat, s | SecretAt(node, k) == Some(s)
        ensures LastSlot(node, |node|, s) == Some(k)
      {
        var i := LastSlot(node, |node|, s).value;
        assert i == k || i < k || k < i;
      }
    }
    if forall k: nat :: AgreesAt(t', node, k) {
      forall i: nat, j: nat | i < j && SecretAt(node, i).Some?
        ensures SecretAt(node, i) != SecretAt(node, j)
      {
        assert AgreesAt(t', node, i) && AgreesAt(t', node, j);
        assert Holds(t', i, SecretAt(node, i).value);
      }
    }
  }
}
