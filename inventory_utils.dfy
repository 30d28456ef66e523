/**
 * Id-keyed scans and updates of an inventory. An inventory is an array of slots,
 * each empty or holding a stack; a slot holds an item with a given id when its
 * stack parses to exactly that id.
 */
module InventoryUtils {
  import opened HostWorld
  import opened ItemProviders
  import opened ItemUtils

  /** An inventory slot: empty (null) or a stack. */
  type Slot = Option<ItemStack>

  /** The slot holds a stack whose id is exactly `itemId`. */
  predicate Matches(host: Host, slot: Slot, itemId: string)
  {
    slot.Some? && ParseStack(host, slot.value) == itemId
  }

  /** The slot holds a stack of exactly `amount` items whose id is exactly `itemId`. */
  predicate MatchesWithAmount(host: Host, slot: Slot, itemId: string, amount: int)
  {
    Matches(host, slot, itemId) && slot.value.amount == amount
  }

  /** What a slot contributes to the count of `itemId`. */
  function Weight(host: Host, slot: Slot, itemId: string): int
  {
    if Matches(host, slot, itemId) then slot.value.amount else 0
  }

  /** Every stack holds a non-negative amount. */
  predicate NonNegativeAmounts(contents: seq<Slot>)
  {
    forall i :: 0 <= i < |contents| && contents[i].Some? ==> contents[i].value.amount >= 0
  }

  /** Every stack holds at least one item. */
  predicate PositiveAmounts(contents: seq<Slot>)
  {
    forall i :: 0 <= i < |contents| && contents[i].Some? ==> contents[i].value.amount >= 1
  }

  /** The total amount over the slots whose stack parses to `itemId`. */
  function CountItems(host: Host, contents: seq<Slot>, itemId: string): int
    decreases |contents|
  {
    if contents == [] then 0
    else Weight(host, contents[0], itemId) + CountItems(host, contents[1..], itemId)
  }

  /** The inventory holds at least `amount` items with this id. */
  predicate ContainsAtLeast(host: Host, contents: seq<Slot>, itemId: string, amount: int)
  {
    CountItems(host, contents, itemId) >= amount
  }

  /** The inventory holds at least one item with this id. */
  predicate Contains(host: Host, contents: seq<Slot>, itemId: string)
  {
    ContainsAtLeast(host, contents, itemId, 1)
  }

  /** The id of a stack does not depend on how many items it holds. */
  lemma ParseStackIgnoresAmount(host: Host, stack: ItemStack, amount: int)
    ensures ParseStack(host, stack.(amount := amount)) == ParseStack(host, stack)
  {
    var other := stack.(amount := amount);
    forall q: ItemProvider
      ensures ParseStackId(host, q, other) == ParseStackId(host, q, stack)
    {
    }
    var p, p' := GetStackProvider(host, stack), GetStackProvider(host, other);
    assert Ordinal(p) == Ordinal(p');
    assert p == p';
  }

  lemma {:induction false} CountNonNegative(host: Host, contents: seq<Slot>, itemId: string)
    requires NonNegativeAmounts(contents)
    ensures CountItems(host, contents, itemId) >= 0
  {
    if contents != [] {
      CountNonNegative(host, contents[1..], itemId);
    }
  }

  /**
   * With every stack holding at least one item, the inventory contains an id
   * exactly when some slot holds a stack with that id.
   */
  lemma {:induction false} ContainsIffMatchingSlot(host: Host, contents: seq<Slot>, itemId: string)
    requires PositiveAmounts(contents)
    ensures Contains(host, contents, itemId) <==>
              exists i :: 0 <= i < |contents| && Matches(host, contents[i], itemId)
  {
    if contents != [] {
      ContainsIffMatchingSlot(host, contents[1..], itemId);
      CountNonNegative(host, contents[1..], itemId);
      if exists i :: 0 <= i < |contents[1..]| && Matches(host, contents[1..][i], itemId) {
        var i :| 0 <= i < |contents[1..]| && Matches(host, contents[1..][i], itemId);
        assert Matches(host, contents[i + 1], itemId);
      }
      if exists i :: 0 <= i < |contents| && Matches(host, contents[i], itemId) {
        var i :| 0 <= i < |contents| && Matches(host, contents[i], itemId);
        if i > 0 {
          assert Matches(host, contents[1..][i - 1], itemId);
        }
      }
    }
  }

  /** Replacing one slot changes the count by exactly what the old and new slot contribute. */
  lemma {:induction false} CountItemsUpdate(host: Host, contents: seq<Slot>, itemId: string, i: nat, slot: Slot)
    requires i < |contents|
    ensures CountItems(host, contents[i := slot], itemId) ==
              CountItems(host, contents, itemId) - Weight(host, contents[i], itemId) + Weight(host, slot, itemId)
  {
    if i > 0 {
      assert contents[i := slot][1..] == contents[1..][i - 1 := slot];
      CountItemsUpdate(host, contents[1..], itemId, i - 1, slot);
    } else {
      assert contents[i := slot][1..] == contents[1..];
    }
  }

  /**
   * The id of an add request: nothing when the id does not parse (the inventory is
   * then left untouched and an empty leftover map returned); otherwise the parsed
   * item with its amount set to the requested one, which goes to the host's own
   * `addItem`.
   */
  function AddItemRequest(host: Host, itemId: string, amount: int): (r: Option<ItemStack>)
    ensures r.None? <==> Parse(host, itemId).None?
    ensures r.Some? ==>
              Exists(host, itemId) && r.value.amount == amount && r.value.item == Parse(host, itemId).value.item
  {
    match Parse(host, itemId)
    case None => None
    case Some(stack) => Some(stack.(amount := amount))
  }

  /**
   * What removal does to one slot while `remaining` items are still to remove: a
   * matching stack no larger than that is emptied, a larger one is reduced, and
   * any other slot is kept; paired with how many items are still to remove after it.
   */
  function TakeFrom(host: Host, slot: Slot, itemId: string, remaining: int): (r: (Slot, int))
    requires remaining > 0
    ensures !Matches(host, slot, itemId) ==> r.0 == slot
    ensures Matches(host, slot, itemId) && slot.value.amount <= remaining ==> r.0 == None
    ensures Matches(host, slot, itemId) && slot.value.amount > remaining ==>
              r.0 == Some(slot.value.(amount := slot.value.amount - remaining))
    ensures Weight(host, slot, itemId) <= remaining ==> r.1 == remaining - Weight(host, slot, itemId)
    ensures Weight(host, slot, itemId) > remaining ==> r.1 == 0
  {
    if Matches(host, slot, itemId) then
      var stack := slot.value;
      if stack.amount <= remaining then (None, remaining - stack.amount)
      else (Some(stack.(amount := stack.amount - remaining)), 0)
    else (slot, remaining)
  }

  /**
   * The slots after removing `remaining` items with this id, walking the slots in
   * order and taking from each in turn until nothing is left to remove.
   */
  function Removed(host: Host, contents: seq<Slot>, itemId: string, remaining: int): (r: seq<Slot>)
    ensures |r| == |contents|
    decreases |contents|
  {
    if contents == [] || remaining <= 0 then contents
    else
      var (slot, rest) := TakeFrom(host, contents[0], itemId, remaining);
      [slot] + Removed(host, contents[1..], itemId, rest)
  }

  /**
   * One step of the walk behind `Removed`, taken at slot `i` of the contents and
   * appended to the slots already walked.
   */
  lemma RemovedStep(host: Host, contents: seq<Slot>, itemId: string, i: nat, remaining: int, walked: seq<Slot>)
    requires i < |contents| && remaining > 0
    ensures walked + Removed(host, contents[i..], itemId, remaining) ==
              (walked + [TakeFrom(host, contents[i], itemId, remaining).0]) +
              Removed(host, contents[i + 1..], itemId, TakeFrom(host, contents[i], itemId, remaining).1)
  {
    assert contents[i..][0] == contents[i] && contents[i..][1..] == contents[i + 1..];
  }

  /** `removeItem(inventory, itemId, amount)`; the source always returns an empty map, shortfall or not. */
  method RemoveItem(host: Host, inv: array<Slot>, itemId: string, amount: int) returns (leftover: map<int, ItemStack>)
    modifies inv
    ensures inv[..] == Removed(host, old(inv[..]), itemId, amount)
    ensures leftover == map[]
  {
    ghost var contents := inv[..];
    var remaining := amount;
    var i := 0;
    assert contents[i..] == contents;
    while i < inv.Length && remaining > 0
      invariant 0 <= i <= inv.Length
      invariant forall k :: i <= k < inv.Length ==> inv[k] == contents[k]
      invariant Removed(host, contents, itemId, amount) == inv[..i] + Removed(host, contents[i..], itemId, remaining)
    {
      ghost var walked := inv[..i];
      RemovedStep(host, contents, itemId, i, remaining, walked);
      var (slot, rest) := TakeFrom(host, inv[i], itemId, remaining);
      inv[i] := slot;
      remaining := rest;
      assert inv[..i + 1] == walked + [slot];
      i := i + 1;
    }
    if i < inv.Length {
      assert inv[i..] == contents[i..];
    }
    assert inv[..] == inv[..i] + inv[i..];
    leftover := map[];
  }

  /**
   * A slot the removal changes holds the id, and less than `amount` of the id
   * sits in the slots before it. What is still to remove when the walk reaches it
   * is `amount` less that count: the slot is emptied when it holds no more than
   * that, and otherwise is reduced by exactly that.
   */
  lemma {:induction false} RemovedChangedSlot(host: Host, contents: seq<Slot>, itemId: string, amount: int)
    ensures forall j :: 0 <= j < |contents| && Removed(host, contents, itemId, amount)[j] != contents[j] ==>
              && amount > 0
              && Matches(host, contents[j], itemId)
              && CountItems(host, contents[..j], itemId) < amount
              && Removed(host, contents, itemId, amount)[j] ==
                   (var left := amount - CountItems(host, contents[..j], itemId);
                    if contents[j].value.amount <= left then None
                    else Some(contents[j].value.(amount := contents[j].value.amount - left)))
  {
    if contents != [] && amount > 0 {
      var (slot, rest) := TakeFrom(host, contents[0], itemId, amount);
      var tail := Removed(host, contents[1..], itemId, rest);
      var r := Removed(host, contents, itemId, amount);
      assert r == [slot] + tail;
      RemovedChangedSlot(host, contents[1..], itemId, rest);
      forall j | 1 <= j < |contents| && r[j] != contents[j]
        ensures CountItems(host, contents[..j], itemId) == Weight(host, contents[0], itemId) + CountItems(host, contents[1..][..j - 1], itemId)
        ensures r[j] == tail[j - 1] && contents[j] == contents[1..][j - 1]
      {
        assert contents[..j][1..] == contents[1..][..j - 1];
      }
    }
  }

  /** The walk goes from the lowest slot up: before a changed slot, every slot holding the id has been emptied. */
  lemma {:induction false} RemovedEmptiesEarlierSlots(host: Host, contents: seq<Slot>, itemId: string, amount: int)
    ensures forall i, j ::
              0 <= i < j < |contents| && Removed(host, contents, itemId, amount)[j] != contents[j] &&
              Matches(host, contents[i], itemId)
              ==> Removed(host, contents, itemId, amount)[i] == None
  {
    if contents != [] && amount > 0 {
      var (slot, rest) := TakeFrom(host, contents[0], itemId, amount);
      var tail := Removed(host, contents[1..], itemId, rest);
      var r := Removed(host, contents, itemId, amount);
      assert r == [slot] + tail;
      RemovedEmptiesEarlierSlots(host, contents[1..], itemId, rest);
      RemovedKeepsOtherSlots(host, contents[1..], itemId, rest);
      forall i, j | 0 <= i < j < |contents| && r[j] != contents[j] && Matches(host, contents[i], itemId)
        ensures r[i] == None
      {
        assert r[j] == tail[j - 1] && contents[j] == contents[1..][j - 1];
        if i > 0 {
          assert r[i] == tail[i - 1] && contents[i] == contents[1..][i - 1];
        }
      }
    }
  }

  /** Once a stack has been reduced rather than emptied, the walk stops: no later slot changes. */
  lemma {:induction false} RemovedStopsAfterReducing(host: Host, contents: seq<Slot>, itemId: string, amount: int)
    ensures forall i, j ::
              0 <= j < i < |contents| && Removed(host, contents, itemId, amount)[j] != contents[j] &&
              Removed(host, contents, itemId, amount)[j].Some?
              ==> Removed(host, contents, itemId, amount)[i] == contents[i]
  {
    if contents != [] && amount > 0 {
      var (slot, rest) := TakeFrom(host, contents[0], itemId, amount);
      var tail := Removed(host, contents[1..], itemId, rest);
      var r := Removed(host, contents, itemId, amount);
      assert r == [slot] + tail;
      RemovedStopsAfterReducing(host, contents[1..], itemId, rest);
      RemovedKeepsOtherSlots(host, contents[1..], itemId, rest);
      forall i, j | 0 <= j < i < |contents| && r[j] != contents[j] && r[j].Some?
        ensures r[i] == contents[i]
      {
        assert r[i] == tail[i - 1] && contents[i] == contents[1..][i - 1];
        if j > 0 {
          assert r[j] == tail[j - 1] && contents[j] == contents[1..][j - 1];
        }
      }
    }
  }

  /** Removal never touches a slot that does not hold the id, and a non-positive amount touches nothing. */
  lemma {:induction false} RemovedKeepsOtherSlots(host: Host, contents: seq<Slot>, itemId: string, amount: int)
    ensures amount <= 0 ==> Removed(host, contents, itemId, amount) == contents
    ensures forall i :: 0 <= i < |contents| && !Matches(host, contents[i], itemId) ==>
              Removed(host, contents, itemId, amount)[i] == contents[i]
  {
    if contents != [] && amount > 0 {
      var (slot, rest) := TakeFrom(host, contents[0], itemId, amount);
      var r := Removed(host, contents, itemId, amount);
      RemovedKeepsOtherSlots(host, contents[1..], itemId, rest);
      assert r == [slot] + Removed(host, contents[1..], itemId, rest);
      forall i | 1 <= i < |contents| && !Matches(host, contents[i], itemId)
        ensures r[i] == contents[i]
      {
        assert r[i] == Removed(host, contents[1..], itemId, rest)[i - 1];
        assert contents[1..][i - 1] == contents[i];
      }
    }
  }

  /**
   * Removing `amount` items (with no negative stacks) leaves `max(0, count - amount)`
   * of them; a non-positive amount removes nothing.
   */
  lemma {:induction false} RemovedCount(host: Host, contents: seq<Slot>, itemId: string, amount: int)
    requires NonNegativeAmounts(contents)
    ensures CountItems(host, Removed(host, contents, itemId, amount), itemId) ==
              if amount <= 0 then CountItems(host, contents, itemId)
              else if CountItems(host, contents, itemId) >= amount then CountItems(host, contents, itemId) - amount
              else 0
  {
    if contents != [] && amount > 0 {
      var r := Removed(host, contents, itemId, amount);
      CountNonNegative(host, contents[1..], itemId);
      if Matches(host, contents[0], itemId) {
        var stack := contents[0].value;
        if stack.amount <= amount {
          RemovedCount(host, contents[1..], itemId, amount - stack.amount);
          assert r[1..] == Removed(host, contents[1..], itemId, amount - stack.amount);
        } else {
          ParseStackIgnoresAmount(host, stack, stack.amount - amount);
          assert r[1..] == Removed(host, contents[1..], itemId, 0) == contents[1..];
        }
      } else {
        RemovedCount(host, contents[1..], itemId, amount);
        assert r[1..] == Removed(host, contents[1..], itemId, amount);
      }
    }
  }

  /** Reducing or emptying a slot that holds `itemId` leaves what it contributes to any other id. */
  lemma ChangedSlotKeepsOtherWeight(host: Host, slot: Slot, itemId: string, amount: int, otherId: string)
    requires Matches(host, slot, itemId) && otherId != itemId
    ensures Weight(host, None, otherId) == 0 == Weight(host, slot, otherId)
    ensures Weight(host, Some(slot.value.(amount := amount)), otherId) == 0
  {
    ParseStackIgnoresAmount(host, slot.value, amount);
  }

  /** Removing items with one id leaves the count of every other id as it was. */
  lemma {:induction false} RemovedKeepsOtherCounts(host: Host, contents: seq<Slot>, itemId: string, amount: int, otherId: string)
    requires otherId != itemId
    ensures CountItems(host, Removed(host, contents, itemId, amount), otherId) == CountItems(host, contents, otherId)
  {
    if contents != [] && amount > 0 {
      var r := Removed(host, contents, itemId, amount);
      if Matches(host, contents[0], itemId) {
        var stack := contents[0].value;
        ChangedSlotKeepsOtherWeight(host, contents[0], itemId, stack.amount - amount, otherId);
        if stack.amount <= amount {
          RemovedKeepsOtherCounts(host, contents[1..], itemId, amount - stack.amount, otherId);
          assert r == [None] + Removed(host, contents[1..], itemId, amount - stack.amount);
        } else {
          assert r == [Some(stack.(amount := stack.amount - amount))] + Removed(host, contents[1..], itemId, 0);
          assert Removed(host, contents[1..], itemId, 0) == contents[1..];
        }
      } else {
        RemovedKeepsOtherCounts(host, contents[1..], itemId, amount, otherId);
        assert r == [contents[0]] + Removed(host, contents[1..], itemId, amount);
      }
    }
  }

  /** The slots after `clear(itemId)`: every slot holding that id emptied, every other slot kept. */
  function Cleared(host: Host, contents: seq<Slot>, itemId: string): (r: seq<Slot>)
    ensures |r| == |contents|
    ensures forall i :: 0 <= i < |contents| ==>
              r[i] == if Matches(host, contents[i], itemId) then None else contents[i]
    decreases |contents|
  {
    if contents == [] then []
    else [if Matches(host, contents[0], itemId) then None else contents[0]] + Cleared(host, contents[1..], itemId)
  }

  /** `clear(inventory, itemId)`: empties, slot by slot, each slot holding that id. */
  method Clear(host: Host, inv: array<Slot>, itemId: string)
    modifies inv
    ensures inv[..] == Cleared(host, old(inv[..]), itemId)
  {
    ghost var contents := inv[..];
    var i := 0;
    while i < inv.Length
      invariant 0 <= i <= inv.Length
      invariant forall k :: 0 <= k < i ==> inv[k] == if Matches(host, contents[k], itemId) then None else contents[k]
      invariant forall k :: i <= k < inv.Length ==> inv[k] == contents[k]
    {
      var item := inv[i];
      if item.Some? && ParseStack(host, item.value) == itemId {
        inv[i] := None;
      }
      i := i + 1;
    }
  }

  /** After clearing an id none of it is left, and every other id keeps its count. */
  lemma {:induction false} ClearedCounts(host: Host, contents: seq<Slot>, itemId: string, otherId: string)
    ensures CountItems(host, Cleared(host, contents, itemId), itemId) == 0
    ensures otherId != itemId ==>
              CountItems(host, Cleared(host, contents, itemId), otherId) == CountItems(host, contents, otherId)
  {
    if contents != [] {
      var r := Cleared(host, contents, itemId);
      assert r[1..] == Cleared(host, contents[1..], itemId);
      ClearedCounts(host, contents[1..], itemId, otherId);
    }
  }

  /**
   * Removing at least as many items as there are (all stacks non-empty) is the
   * same as clearing the id.
   */
  lemma {:induction false} RemoveAllIsClear(host: Host, contents: seq<Slot>, itemId: string, amount: int)
    requires PositiveAmounts(contents)
    requires amount >= CountItems(host, contents, itemId)
    ensures Removed(host, contents, itemId, amount) == Cleared(host, contents, itemId)
  {
    if contents != [] {
      CountNonNegative(host, contents[1..], itemId);
      var c := Cleared(host, contents, itemId);
      assert c == [c[0]] + Cleared(host, contents[1..], itemId);
      if amount > 0 {
        var (slot, rest) := TakeFrom(host, contents[0], itemId, amount);
        RemoveAllIsClear(host, contents[1..], itemId, rest);
        assert Removed(host, contents, itemId, amount) == [slot] + Removed(host, contents[1..], itemId, rest);
      } else {
        ContainsIffMatchingSlot(host, contents, itemId);
        assert forall i :: 0 <= i < |contents| ==> !Matches(host, contents[i], itemId);
      }
    }
  }

  /**
   * `first(inventory, itemId, amount)`: the lowest slot holding a stack with that
   * id and exactly that amount, or -1 when there is none.
   */
  method First(host: Host, inv: array<Slot>, itemId: string, amount: int) returns (r: int)
    ensures -1 <= r < inv.Length
    ensures r >= 0 ==> MatchesWithAmount(host, inv[r], itemId, amount)
    ensures forall j :: 0 <= j < inv.Length && (r == -1 || j < r) ==> !MatchesWithAmount(host, inv[j], itemId, amount)
  {
    var i := 0;
    while i < inv.Length
      invariant 0 <= i <= inv.Length
      invariant forall j :: 0 <= j < i ==> !MatchesWithAmount(host, inv[j], itemId, amount)
    {
      var item := inv[i];
      if item.Some? && ParseStack(host, item.value) == itemId && item.value.amount == amount {
        return i;
      }
      i := i + 1;
    }
    return -1;
  }

  /** `all(inventory, itemId)`: every slot holding that id, mapped to its stack. */
  method All(host: Host, inv: array<Slot>, itemId: string) returns (slots: map<int, ItemStack>)
    ensures forall i :: i in slots <==> 0 <= i < inv.Length && Matches(host, inv[i], itemId)
    ensures forall i :: i in slots ==> 0 <= i < inv.Length && inv[i] == Some(slots[i])
  {
    slots := map[];
    var i := 0;
    while i < inv.Length
      invariant 0 <= i <= inv.Length
      invariant forall k :: k in slots <==> 0 <= k < i && Matches(host, inv[k], itemId)
      invariant forall k :: k in slots ==> 0 <= k < inv.Length && inv[k] == Some(slots[k])
    {
      var item := inv[i];
      if item.Some? && ParseStack(host, item.value) == itemId {
        slots := slots[i := item.value];
      }
      i := i + 1;
    }
  }

  /** A slot counts as empty when it is null or holds air. */
  predicate IsEmptySlot(slot: Slot)
  {
    slot.None? || slot.value.item.material == AIR
  }

  /** `getEmptySlots`: the number of empty slots. */
  function EmptySlots(contents: seq<Slot>): (n: nat)
    ensures n <= |contents|
    ensures n == 0 <==> forall i :: 0 <= i < |contents| ==> !IsEmptySlot(contents[i])
    decreases |contents|
  {
    if contents == [] then 0
    else (if IsEmptySlot(contents[0]) then 1 else 0) + EmptySlots(contents[1..])
  }

  /** `getOccupiedSlots`: the size of the inventory less its empty slots. */
  function OccupiedSlots(contents: seq<Slot>): (n: int)
    ensures 0 <= n <= |contents|
  {
    |contents| - EmptySlots(contents)
  }

  /**
   * The indices, in increasing order, of the slots from `lo` on that hold a stack
   * satisfying `test`.
   */
  function FindSlotsFrom(contents: seq<Slot>, test: ItemStack -> bool, lo: nat): (r: seq<int>)
    requires lo <= |contents|
    ensures forall k :: 0 <= k < |r| ==> lo <= r[k] < |contents|
    ensures forall i :: i in r <==> lo <= i < |contents| && contents[i].Some? && test(contents[i].value)
    ensures forall a, b :: 0 <= a < b < |r| ==> r[a] < r[b]
    decreases |contents| - lo
  {
    if lo == |contents| then []
    else if contents[lo].Some? && test(contents[lo].value) then [lo] + FindSlotsFrom(contents, test, lo + 1)
    else FindSlotsFrom(contents, test, lo + 1)
  }

  /** `findSlots(inventory, predicate)`: the indices, in increasing order, of the non-null slots whose stack passes. */
  function FindSlots(contents: seq<Slot>, test: ItemStack -> bool): (r: seq<int>)
    ensures forall i :: i in r <==> 0 <= i < |contents| && contents[i].Some? && test(contents[i].value)
    ensures forall a, b :: 0 <= a < b < |r| ==> 0 <= r[a] < r[b] < |contents|
  {
    FindSlotsFrom(contents, test, 0)
  }

  lemma {:induction false} FindSlotsFromCountsStacks(contents: seq<Slot>, lo: nat)
    requires lo <= |contents|
    ensures |FindSlotsFrom(contents, (s: ItemStack) => s.item.material != AIR, lo)| ==
              (|contents| - lo) - EmptySlots(contents[lo..])
    decreases |contents| - lo
  {
    if lo < |contents| {
      assert contents[lo..][1..] == contents[lo + 1..];
      FindSlotsFromCountsStacks(contents, lo + 1);
    }
  }

  /** The occupied slots are exactly the slots `findSlots` reports as holding a non-air stack. */
  lemma OccupiedSlotsAreNonAirStacks(contents: seq<Slot>)
    ensures OccupiedSlots(contents) == |FindSlots(contents, (s: ItemStack) => s.item.material != AIR)|
  {
    FindSlotsFromCountsStacks(contents, 0);
    assert contents[0..] == contents;
  }

  /** `swap(inventory, slot1, slot2)`: exchanges two slots and touches no other. */
  method Swap(inv: array<Slot>, slot1: int, slot2: int)
    requires 0 <= slot1 < inv.Length && 0 <= slot2 < inv.Length
    modifies inv
    ensures inv[..] == old(inv[..])[slot1 := old(inv[slot2])][slot2 := old(inv[slot1])]
    ensures inv[slot1] == old(inv[slot2]) && inv[slot2] == old(inv[slot1])
    ensures forall k :: 0 <= k < inv.Length && k != slot1 && k != slot2 ==> inv[k] == old(inv[k])
  {
    var item1 := inv[slot1];
    var item2 := inv[slot2];
    inv[slot1] := item2;
    inv[slot2] := item1;
  }

  /** Swapping two slots leaves the count of every id as it was. */
  lemma SwapPreservesCounts(host: Host, contents: seq<Slot>, slot1: nat, slot2: nat, itemId: string)
    requires slot1 < |contents| && slot2 < |contents|
    ensures CountItems(host, contents[slot1 := contents[slot2]][slot2 := contents[slot1]], itemId) ==
              CountItems(host, contents, itemId)
  {
    var once := contents[slot1 := contents[slot2]];
    CountItemsUpdate(host, contents, itemId, slot1, contents[slot2]);
    CountItemsUpdate(host, once, itemId, slot2, contents[slot1]);
  }
}
