/**
 * The nested table both instance managers keep in `running_processes`:
 * instance id -> command index -> process handle. Handles are opaque tokens.
 */
module ProcessTable {

  type Id = string

  /** An opaque token standing for one `QProcess` object. */
  type Handle = nat

  type Table = map<Id, map<nat, Handle>>

  /** The cleanup in the finish handler never leaves an instance with an empty inner map. */
  predicate NoEmptyInner(t: Table) {
    forall id | id in t :: t[id] != map[]
  }

  predicate HasSlot(t: Table, id: Id, i: nat) {
    id in t && i in t[id]
  }

  /** Every handle stored anywhere in the table. */
  function Handles(t: Table): set<Handle> {
    set id, i | id in t && i in t[id] :: t[id][i]
  }

  /** The handles stored under the instances `ids`. */
  function HandlesOf(t: Table, ids: set<Id>): (hs: set<Handle>)
    ensures hs <= Handles(t)
  {
    set id, i | id in t && id in ids && i in t[id] :: t[id][i]
  }

  /** Taking one more instance adds exactly its handles. */
  lemma HandlesOfAdd(t: Table, ids: set<Id>, id: Id)
    requires id in t
    ensures HandlesOf(t, ids + {id}) == HandlesOf(t, ids) + t[id].Values
  {
    forall h | h in t[id].Values
      ensures h in HandlesOf(t, ids + {id})
    {
      var i :| i in t[id] && t[id][i] == h;
      assert t[id][i] in HandlesOf(t, ids + {id});
    }
  }

  /** All the instances together hold all the handles. */
  lemma HandlesOfAll(t: Table)
    ensures HandlesOf(t, t.Keys) == Handles(t)
  {
  }

  /** The finish handler's update: delete slot `i` of `id`, and `id` itself once its map is empty. */
  function RemoveSlot(t: Table, id: Id, i: nat): (r: Table)
    requires NoEmptyInner(t)
    ensures NoEmptyInner(r)
    ensures forall id': Id, i': nat :: HasSlot(r, id', i') <==> HasSlot(t, id', i') && (id', i') != (id, i)
    ensures forall id': Id, i': nat | HasSlot(r, id', i') :: HasSlot(t, id', i') && r[id'][i'] == t[id'][i']
    ensures id in r <==> id in t && t[id].Keys != {i}
    ensures forall id' | id' in t && id' != id :: id' in r && r[id'] == t[id']
    ensures r.Keys <= t.Keys
  {
    if HasSlot(t, id, i) then
      var inner := t[id] - {i};
      if inner == map[] then
        assert forall j | j in t[id] :: j == i || j in inner;
        t - {id}
      else
        assert t[id].Keys != {i} by {
          var j :| j in inner;
        }
        t[id := inner]
    else
      assert id in t ==> t[id].Keys != {i};
      t
  }

  /** The slots `0 .. n - 1` of a fresh start, holding the consecutive handles from `base`. */
  function FreshSlots(n: nat, base: Handle): (m: map<nat, Handle>)
    ensures forall i: nat :: i in m <==> i < n
  {
    if n == 0 then map[] else FreshSlots(n - 1, base)[n - 1 := base + n - 1]
  }

  /** Slot `i` of a fresh start holds handle `base + i`. (Stated for one slot at a time, so
      that it does not feed on the handle-to-slot map, which maps `base + i` back to `i`.) */
  lemma {:induction false} FreshSlotsAt(n: nat, base: Handle, i: nat)
    requires i < n
    ensures FreshSlots(n, base)[i] == base + i
  {
    if i < n - 1 {
      FreshSlotsAt(n - 1, base, i);
    }
  }

  function HandleRange(base: Handle, n: nat): (hs: set<Handle>)
    ensures forall h :: h in hs <==> base <= h < base + n
  {
    if n == 0 then {} else HandleRange(base, n - 1) + {base + n - 1}
  }
}
