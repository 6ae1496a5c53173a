/** The player's inventory and the HUD arithmetic around it: adding and
    removing items with the blink animation, the per-frame animation update,
    clearing, and the health and ammo gauges. */
module Inventory {
  import opened Words
  import opened Wrappers
  import Common

  const NUM_INVENTORY_SLOTS: nat := 6
  const BLINK_TIME: byte := 10
  const MAX_AMMO: word := 32

  /** plInventory and hudInventoryBlinkTimeLeft: seven slots each, the items
      listed up to the first 0. The last slot only ever holds the 0 that
      ends a full list. */
  datatype Inv = Inv(items: seq<word>, blink: seq<byte>)

  predicate Valid(v: Inv)
  {
    |v.items| == NUM_INVENTORY_SLOTS + 1 && |v.blink| == NUM_INVENTORY_SLOTS + 1 &&
    v.items[NUM_INVENTORY_SLOTS] == 0
  }

  /** The index of the first 0 at or after `from`. */
  function EndFrom(items: seq<word>, from: nat): (e: nat)
    requires from < |items| && items[|items| - 1] == 0
    ensures from <= e < |items| && items[e] == 0
    ensures forall k :: from <= k < e ==> items[k] != 0
    decreases |items| - from
  {
    if items[from] == 0 then from else EndFrom(items, from + 1)
  }

  /** The number of items held. */
  function Count(v: Inv): (n: nat)
    requires Valid(v)
    ensures n <= NUM_INVENTORY_SLOTS
  {
    EndFrom(v.items, 0)
  }

  /** The list of items held, in slot order. */
  function Items(v: Inv): seq<word>
    requires Valid(v)
  {
    v.items[..Count(v)]
  }

  lemma EndFromUnique(items: seq<word>, from: nat, e: nat)
    requires from < |items| && items[|items| - 1] == 0
    requires from <= e < |items| && items[e] == 0 && forall k :: from <= k < e ==> items[k] != 0
    ensures EndFrom(items, from) == e
  {
  }

  // ---------------------------------------------------------------------
  // AddInventoryItem
  // ---------------------------------------------------------------------

  /** AddInventoryItem(item): the item goes into the first free slot, the
      slot after it is cleared (in case a removed item was still blinking
      there) and the new slot's blink timer is reset. With all six slots
      taken the free slot is the seventh, and clearing the one after it
      writes past the end of plInventory: the model returns None there. */
  method AddInventoryItem(v: Inv, item: word) returns (r: Option<Inv>)
    requires Valid(v)
    ensures r.None? <==> Count(v) == NUM_INVENTORY_SLOTS
    ensures r.Some? ==> Valid(r.value)
    ensures r.Some? ==> r.value.items == v.items[Count(v) := item][Count(v) + 1 := 0]
    ensures r.Some? ==> r.value.blink == v.blink[Count(v) := 0]
    ensures r.Some? && item != 0 ==> Items(r.value) == Items(v) + [item]
  {
    var i := 0;
    while v.items[i] != 0
      invariant 0 <= i <= Count(v)
      decreases Count(v) - i
      invariant forall k :: 0 <= k < i ==> v.items[k] != 0
    {
      i := i + 1;
    }
    assert i == Count(v);
    if i + 1 >= |v.items| {
      return None;
    }
    var v' := Inv(v.items[i := item][i + 1 := 0], v.blink[i := 0]);
    if item != 0 {
      EndFromUnique(v'.items, 0, i + 1);
      assert Items(v') == v'.items[..i + 1];
    }
    r := Some(v');
  }

  // ---------------------------------------------------------------------
  // RemoveFromInventory
  // ---------------------------------------------------------------------

  /** The search loop: the first slot holding `item` or the end marker. */
  function SearchFrom(items: seq<word>, item: word, from: nat): (i: nat)
    requires from < |items| && items[|items| - 1] == 0
    ensures from <= i < |items| && (items[i] == item || items[i] == 0)
    ensures forall k :: from <= k < i ==> items[k] != item && items[k] != 0
    decreases |items| - from
  {
    if items[from] == item || items[from] == 0 then from else SearchFrom(items, item, from + 1)
  }

  /** The loop that closes the gap at slot j: later items and timers move
      one slot down until the end marker, whose slot is then cleared. */
  function CloseGap(items: seq<word>, blink: seq<byte>, j: nat): (r: (seq<word>, seq<byte>))
    requires |items| == |blink| && j + 1 < |items| && items[|items| - 1] == 0
    ensures |r.0| == |items| && |r.1| == |blink| && r.0[|items| - 1] == 0
    decreases |items| - j
  {
    if items[j + 1] == 0 then (items[j := 0], blink[j := 0])
    else CloseGap(items[j := items[j + 1]], blink[j := blink[j + 1]], j + 1)
  }

  /** Closing the gap at j deletes slot j: slots below j stay, slots from j
      up to the end marker take the next slot's item and timer, and the old
      last item's slot becomes the new end marker with a cleared timer. */
  lemma {:induction false} CloseGapSpec(items: seq<word>, blink: seq<byte>, j: nat)
    requires |items| == |blink| && j + 1 < |items| && items[|items| - 1] == 0
    ensures var e := EndFrom(items, j + 1);
      var r := CloseGap(items, blink, j);
      (forall k :: 0 <= k < j ==> r.0[k] == items[k] && r.1[k] == blink[k]) &&
      (forall k :: j <= k < e - 1 ==> r.0[k] == items[k + 1] && r.1[k] == blink[k + 1]) &&
      r.0[e - 1] == 0 && r.1[e - 1] == 0 &&
      (forall k :: e <= k < |items| ==> r.0[k] == items[k] && r.1[k] == blink[k])
    decreases |items| - j
  {
    if items[j + 1] != 0 {
      var items' := items[j := items[j + 1]];
      var blink' := blink[j := blink[j + 1]];
      CloseGapSpec(items', blink', j + 1);
      assert EndFrom(items', j + 2) == EndFrom(items, j + 1) by {
        EndFromUnique(items', j + 2, EndFrom(items, j + 1));
      }
    }
  }

  /** RemoveFromInventory(item): the result and the new inventory. */
  function RemoveFromInventory(v: Inv, item: word): (r: (Inv, bool))
    requires Valid(v)
    ensures Valid(r.0)
  {
    var i := SearchFrom(v.items, item, 0);
    if v.items[i] != item then (v, false)
    else if v.blink[i] == 0 then (v.(blink := v.blink[i := BLINK_TIME]), true)
    else if i + 1 < |v.items| then
      var blink := if v.blink[i] == 1 then v.blink[i := 0] else v.blink;
      var r := CloseGap(v.items[i := 0], blink, i);
      (Inv(r.0, r.1), true)
    else (v, true)
  }

  /** An item that is not held: false, and nothing changes. */
  lemma RemoveAbsent(v: Inv, item: word)
    requires Valid(v) && item != 0 && item !in Items(v)
    ensures RemoveFromInventory(v, item) == (v, false)
  {
  }

  /** The first removal of a held item only starts its blink timer. */
  lemma RemoveStartsBlinking(v: Inv, item: word, i: nat)
    requires Valid(v) && item != 0
    requires i < Count(v) && v.items[i] == item && item !in v.items[..i]
    requires v.blink[i] == 0
    ensures RemoveFromInventory(v, item) == (v.(blink := v.blink[i := BLINK_TIME]), true)
  {
    assert SearchFrom(v.items, item, 0) == i;
  }

  /** A held item whose timer is running is deleted: its first occurrence
      leaves the list and the later items and their timers move down one
      slot in order. */
  lemma RemoveDeletes(v: Inv, item: word, i: nat)
    requires Valid(v) && item != 0
    requires i < Count(v) && v.items[i] == item && item !in v.items[..i]
    requires v.blink[i] != 0
    ensures var r := RemoveFromInventory(v, item);
      r.1 && Items(r.0) == Items(v)[..i] + Items(v)[i + 1..] &&
      Count(r.0) == Count(v) - 1 &&
      (forall k :: i <= k < Count(v) - 1 ==> r.0.blink[k] == v.blink[k + 1]) &&
      r.0.blink[Count(v) - 1] == 0
  {
    assert SearchFrom(v.items, item, 0) == i;
    var n := Count(v);
    var blink := if v.blink[i] == 1 then v.blink[i := 0] else v.blink;
    var items0 := v.items[i := 0];
    EndFromUnique(items0, i + 1, n);
    CloseGapSpec(items0, blink, i);
    var r := CloseGap(items0, blink, i);
    assert RemoveFromInventory(v, item) == (Inv(r.0, r.1), true);
    ClosedGapItems(v, i, n, r.0);
  }

  /** The list left once the gap at i is closed: the n - 1 items before
      and after slot i, in order, ended by a 0 at slot n - 1. */
  lemma ClosedGapItems(v: Inv, i: nat, n: nat, items: seq<word>)
    requires Valid(v) && n == Count(v) && i < n && |items| == |v.items| && items[|items| - 1] == 0
    requires forall k :: 0 <= k < i ==> items[k] == v.items[k]
    requires forall k :: i <= k < n - 1 ==> items[k] == v.items[k + 1]
    requires items[n - 1] == 0
    ensures EndFrom(items, 0) == n - 1
    ensures items[..n - 1] == Items(v)[..i] + Items(v)[i + 1..]
  {
    EndFromUnique(items, 0, n - 1);
    assert items[..n - 1] == Items(v)[..i] + Items(v)[i + 1..];
  }

  // ---------------------------------------------------------------------
  // HUD_UpdateInventoryAnimation and ClearInventory
  // ---------------------------------------------------------------------

  /** The animation loop from slot i on: running timers above 1 count down;
      a timer at 1 removes (the first occurrence of) that slot's item, and
      the loop moves on to the next slot either way. */
  function UpdateAnimationFrom(v: Inv, i: nat): (v': Inv)
    requires Valid(v) && i <= NUM_INVENTORY_SLOTS
    ensures Valid(v')
    decreases NUM_INVENTORY_SLOTS - i
  {
    if v.items[i] == 0 then v
    else
      var v1 := AnimateSlot(v, i);
      if i + 1 <= NUM_INVENTORY_SLOTS then UpdateAnimationFrom(v1, i + 1) else v1
  }

  /** One pass of the animation loop's body at slot i. */
  function AnimateSlot(v: Inv, i: nat): (v': Inv)
    requires Valid(v) && i <= NUM_INVENTORY_SLOTS
    ensures Valid(v')
  {
    if v.blink[i] > 1 then v.(blink := v.blink[i := v.blink[i] - 1])
    else if v.blink[i] == 1 then RemoveFromInventory(v, v.items[i]).0
    else v
  }

  function UpdateInventoryAnimation(v: Inv): (v': Inv)
    requires Valid(v)
    ensures Valid(v')
  {
    UpdateAnimationFrom(v, 0)
  }

  /** With no timer at 1, the update only counts down the running timers
      of the held items: the items stay as they are. */
  lemma {:induction false} AnimationCountsDown(v: Inv, i: nat, n: nat)
    requires Valid(v) && n == Count(v) && i <= n
    requires forall k :: i <= k < n ==> v.blink[k] != 1
    ensures UpdateAnimationFrom(v, i).items == v.items
    ensures forall k :: 0 <= k < |v.blink| ==>
      UpdateAnimationFrom(v, i).blink[k] == if i <= k < n && v.blink[k] > 1 then v.blink[k] - 1 else v.blink[k]
    decreases n - i
  {
    if i < n {
      var v1 := AnimateSlot(v, i);
      assert v1.items == v.items;
      AnimationCountsDown(v1, i + 1, n);
    }
  }

  /** A timer reaching 1 at slot i deletes that slot's item, provided the
      same item is not also held in an earlier slot (RemoveFromInventory
      acts on the first occurrence). */
  lemma AnimateSlotRemovesExpired(v: Inv, i: nat)
    requires Valid(v) && i < Count(v) && v.blink[i] == 1
    requires v.items[i] !in v.items[..i]
    ensures Items(AnimateSlot(v, i)) == Items(v)[..i] + Items(v)[i + 1..]
    ensures Count(AnimateSlot(v, i)) == Count(v) - 1
  {
    RemoveDeletes(v, v.items[i], i);
  }

  /** ClearInventory: only slot 0 is cleared, which empties the list. */
  function ClearInventory(v: Inv): (v': Inv)
    requires Valid(v)
    ensures Valid(v') && Count(v') == 0 && Items(v') == []
    ensures v'.blink == v.blink && v'.items[1..] == v.items[1..]
  {
    v.(items := v.items[0 := 0])
  }

  // ---------------------------------------------------------------------
  // Health and ammo gauges
  // ---------------------------------------------------------------------

  /** HUD_DrawHealth: slice i of 8 is drawn filled iff health - 1 > i, in
      16-bit unsigned arithmetic. */
  predicate HealthSliceFilled(health: word, i: nat)
  {
    Wrap16(health - 1) > i
  }

  /** For a health between 1 and 9 exactly health - 1 slices are filled, the
      lowest first; a health of 0 wraps round and fills all eight. */
  lemma HealthGauge(health: word, i: nat)
    requires i < 8
    ensures 1 <= health <= 9 ==> (HealthSliceFilled(health, i) <==> i < health - 1)
    ensures health == 0 ==> HealthSliceFilled(health, i)
  {
  }

  /** HUD_DrawAmmo: the ammo is clamped to MAX_AMMO, rounded up to even, and
      the icon is taken 4 * ammo bytes left of XY_TO_OFFSET(16, 23). */
  function AmmoIconOffset(ammo: word): (offset: word)
  {
    var clamped := if ammo > MAX_AMMO then MAX_AMMO else ammo;
    var even := if clamped % 2 == 1 then clamped + 1 else clamped;
    Wrap16(Common.XyToOffset(16, 23) - even * 4)
  }

  /** The icon offset moves one 8-pixel icon per two rounds, from
      XY_TO_OFFSET(16, 23) when empty to 16 icons further left when full,
      and every ammo count above the maximum shows the full icon. */
  lemma AmmoGauge(ammo: word)
    ensures ammo <= MAX_AMMO ==> AmmoIconOffset(ammo) == 7488 - 8 * ((ammo + 1) / 2)
    ensures ammo >= MAX_AMMO ==> AmmoIconOffset(ammo) == 7488 - 128
    ensures AmmoIconOffset(ammo) % 8 == 0
  {
  }
}
