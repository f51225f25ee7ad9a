/** The friend manager: the friend list, the items, the two id counters, and
    the operations that keep the items in step with the friends, fill in
    percentages and work out what everybody owes. */
module Friends {
  import opened Wrappers
  import opened Sums
  import opened Allocation
  import opened Items

  /** A friend on the bill. */
  datatype Friend = Friend(id: int, name: string)

  class FriendManager {
    var friends: map<int, Friend>
    var items: map<int, Item>
    /** `Friend.nextId`: the id the next friend receives. */
    var nextFriendId: int
    /** `Item.nextId`: the id the next item receives. */
    var nextItemId: int
    /** Every friend id handed out so far, including those of removed friends. */
    ghost var issuedFriendIds: set<int>
    /** Every item id handed out so far, including those of removed items. */
    ghost var issuedItemIds: set<int>

    /** Ids are filed under themselves, every id in use was issued, every
        issued id lies below its counter, and every item has an entry for
        exactly the listed friends. */
    ghost predicate Valid()
      reads this, items.Values
    {
      && (forall i :: i in items ==> items[i].id == i)
      && (forall f :: f in friends ==> friends[f].id == f)
      && 1 <= nextFriendId && 1 <= nextItemId
      && friends.Keys <= issuedFriendIds
      && items.Keys <= issuedItemIds
      && (forall f :: f in issuedFriendIds ==> 1 <= f < nextFriendId)
      && (forall i :: i in issuedItemIds ==> 1 <= i < nextItemId)
      && (forall i :: i in items ==> items[i].participants.Keys == friends.Keys)
    }

    /** What the allocation arithmetic reads of the items. */
    function Ledger(): (l: map<int, ItemView>)
      reads this, items.Values
      ensures l.Keys == items.Keys
      ensures forall i :: i in items ==> l[i] == ItemView(items[i].amount, items[i].participants)
    {
      map i | i in items :: ItemView(items[i].amount, items[i].participants)
    }

    /** A new manager starts both counters at 1 and lists one friend. */
    constructor ()
      ensures Valid()
      ensures friends == map[1 := Friend(1, "Friend 1")] && items == map[]
      ensures nextFriendId == 2 && nextItemId == 1
    {
      friends := map[];
      items := map[];
      nextFriendId := 1;
      nextItemId := 1;
      issuedFriendIds := {};
      issuedItemIds := {};
      new;
      AddFriend("Friend 1");
    }

    /** Brings every item's entries in step with the friend list. */
    method UpdateItemFriends()
      requires forall i :: i in items ==> items[i].id == i
      modifies items.Values`participants
      ensures forall i :: i in items ==> items[i].participants == Synced(old(items[i].participants), friends.Keys)
    {
      var todo := items.Keys;
      while todo != {}
        invariant todo <= items.Keys
        invariant forall i :: i in todo ==> items[i].participants == old(items[i].participants)
        invariant forall i :: i in items && i !in todo ==>
                    items[i].participants == Synced(old(items[i].participants), friends.Keys)
        decreases todo
      {
        var i := MinKey(todo);
        items[i].SyncWith(friends.Keys);
        todo := todo - {i};
      }
    }

    /** The re-sync at the end of every redraw leaves items that are already in
        step with the friend list as they are. */
    method Resync()
      requires Valid()
      modifies items.Values`participants
      ensures Valid()
      ensures Ledger() == SyncAll(old(Ledger()), friends.Keys) == old(Ledger())
      ensures forall i :: i in items ==> items[i].participants == old(items[i].participants)
    {
      ghost var before := Ledger();
      UpdateItemFriends();
      ghost var synced := SyncAll(before, friends.Keys);
      assert Ledger().Keys == synced.Keys;
      assert forall i :: i in items ==> Ledger()[i] == synced[i];
      assert InStep(before, friends.Keys);
      SyncAllInStep(before, friends.Keys);
    }

    /** Lists a new friend under the next friend id, which is greater than
        every id issued before, and gives that friend an unset, checked entry
        on every item. */
    method AddFriend(name: string)
      requires Valid()
      modifies this`friends, this`nextFriendId, this`issuedFriendIds, items.Values`participants
      ensures Valid()
      ensures forall f :: f in old(issuedFriendIds) ==> f < old(nextFriendId)
      ensures friends == old(friends)[old(nextFriendId) := Friend(old(nextFriendId), name)]
      ensures nextFriendId == old(nextFriendId) + 1
      ensures issuedFriendIds == old(issuedFriendIds) + {old(nextFriendId)}
      ensures forall i :: i in items ==>
                items[i].participants == old(items[i].participants)[old(nextFriendId) := Share(None, true)]
    {
      var friend := Friend(nextFriendId, name);
      nextFriendId := nextFriendId + 1;
      issuedFriendIds := issuedFriendIds + {friend.id};
      friends := friends[friend.id := friend];
      UpdateItemFriends();
      forall i | i in items
        ensures items[i].participants == old(items[i].participants)[friend.id := Share(None, true)]
      {
        SyncedAfterAdd(old(items[i].participants), old(friends.Keys), friend.id);
      }
    }

    /** Takes friend `id` off the list and deletes that friend's entry on every item. */
    method RemoveFriend(id: int)
      requires Valid()
      modifies this`friends, items.Values`participants
      ensures Valid()
      ensures friends == old(friends) - {id}
      ensures forall i :: i in items ==> items[i].participants == old(items[i].participants) - {id}
    {
      friends := friends - {id};
      UpdateItemFriends();
      forall i | i in items
        ensures items[i].participants == old(items[i].participants) - {id}
      {
        SyncedAfterRemove(old(items[i].participants), old(friends.Keys), id);
      }
    }

    /** Renames friend `id` to the answer of the name prompt, unless there is
        no such friend or the prompt was cancelled (`None`) or left empty. */
    method EditName(id: int, answer: Option<string>)
      requires Valid()
      modifies this`friends
      ensures Valid()
      ensures id in old(friends) && answer.Some? && answer.value != "" ==>
                friends == old(friends)[id := Friend(id, answer.value)]
      ensures !(id in old(friends) && answer.Some? && answer.value != "") ==> friends == old(friends)
    {
      if id in friends {
        if answer.Some? && answer.value != "" {
          friends := friends[id := friends[id].(name := answer.value)];
        }
      }
    }

    /** Files a new item under the next item id, which is greater than every
        id issued before; the item gets an unset, checked entry per friend,
        and every other item is kept. */
    method AddItem(name: string := "", amount: Option<real> := None)
      requires Valid()
      modifies this`items, this`nextItemId, this`issuedItemIds
      ensures Valid()
      ensures forall i :: i in old(issuedItemIds) ==> i < old(nextItemId)
      ensures items.Keys == old(items).Keys + {old(nextItemId)}
      ensures forall i :: i in old(items) ==> items[i] == old(items)[i]
      ensures nextItemId == old(nextItemId) + 1
      ensures issuedItemIds == old(issuedItemIds) + {old(nextItemId)}
      ensures fresh(items[old(nextItemId)])
      ensures items[old(nextItemId)].name == name && items[old(nextItemId)].amount == amount
      ensures items[old(nextItemId)].isUnitPercentage
      ensures items[old(nextItemId)].participants == map f | f in friends :: Share(None, true)
    {
      var item := new Item(nextItemId, name, amount);
      item.SyncWith(friends.Keys);
      nextItemId := nextItemId + 1;
      issuedItemIds := issuedItemIds + {item.id};
      items := items[item.id := item];
      ghost var entries := map f | f in friends :: Share(None, true);
      assert item.participants.Keys == entries.Keys;
    }

    /** Drops item `id` and keeps every other item. */
    method RemoveItem(id: int)
      requires Valid()
      modifies this`items
      ensures Valid()
      ensures items == old(items) - {id}
    {
      items := items - {id};
    }

    /** Flips the unit flag of item `itemId`. */
    method SwitchUnit(itemId: int)
      requires Valid() && itemId in items
      modifies {items[itemId]}`isUnitPercentage
      ensures Valid()
      ensures items[itemId].isUnitPercentage == !old(items[itemId].isUnitPercentage)
    {
      items[itemId].SetUnitType();
    }

    /** Gives every checked entry of item `itemId` whose percentage is unset
        what is left of 100% divided by the number of ALL unset entries;
        every other entry and every other item is left as it is. */
    method AutoDistribute(itemId: int)
      requires Valid() && itemId in items
      modifies {items[itemId]}`participants
      ensures Valid()
      ensures items[itemId].participants == Distributed(old(items[itemId].participants))
    {
      var item := items[itemId];
      ghost var ps := item.participants;
      var remainPercentage := 100.0 - item.TotalPercentage();
      var countNaN := CountUnset(item.participants);
      var todo := item.participants.Keys;
      while todo != {}
        invariant todo <= ps.Keys
        invariant item.participants.Keys == ps.Keys
        invariant forall k :: k in todo ==> item.participants[k] == ps[k]
        invariant forall k :: k in ps && k !in todo ==> item.participants[k] == Distributed(ps)[k]
        decreases todo
      {
        var id := MinKey(todo);
        if item.ParticipantChecked(id) == Some(true) && item.ParticipantPercentage(id) == Some(None) {
          assert id in UnsetKeys(ps);
          item.SetParticipant(id as real, Some(remainPercentage / countNaN as real));
        }
        todo := todo - {id};
      }
      ghost var distributed := Distributed(ps);
      assert item.participants.Keys == distributed.Keys;
    }

    /** calculate: the grand total, each friend's raw share, whether some
        charged item's percentages miss 100, and what showResult makes of
        them. When nothing warns, every item is in step with the friends,
        unchecked entries carry 0% and the items do not add up to 0, what the
        friends owe adds up to the grand total. */
    method Calculate(entered: Option<real>) returns (total: real, results: map<int, real>, warning: bool, owed: map<int, real>)
      requires forall i :: i in items ==> items[i].participants.Keys <= friends.Keys
      ensures total == GrandTotal(entered, Ledger())
      ensures results == RawShares(friends.Keys, Ledger())
      ensures warning == NeedsWarning(Ledger())
      ensures owed == OwedAmounts(friends.Keys, total, results)
      ensures InStep(Ledger(), friends.Keys) && UncheckedAtZero(Ledger()) && SubTotal(Ledger()) != 0.0 && !warning
              ==> Sum(owed, Value) == total
    {
      var ledger := Ledger();
      total := GrandTotal(entered, ledger);
      results, warning := ChargeItems(friends.Keys, ledger);
      assert Ledger() == ledger;
      owed := ShowResult(total, results);
      assert Ledger() == ledger;
      if InStep(ledger, friends.Keys) && UncheckedAtZero(ledger) && SubTotal(ledger) != 0.0 && !warning {
        BillAddsUp(friends.Keys, entered, ledger);
      }
    }

    /** showResult: what each listed friend owes, the grand total in
        proportion to their raw share. Where the shares do not add up to 0
        this is exactly the number the page displays. */
    method ShowResult(total: real, results: map<int, real>) returns (owed: map<int, real>)
      ensures owed == OwedAmounts(friends.Keys, total, results)
      ensures Sum(results, Value) != 0.0 ==>
                forall f :: f in owed && f in results ==>
                  ShownAsWritten(total, results[f], Sum(results, Value)) == Amount(owed[f])
    {
      var resultTotal := Sum(results, Value);
      owed := map[];
      var todo := friends.Keys;
      while todo != {}
        invariant todo <= friends.Keys
        invariant owed.Keys == friends.Keys - todo
        invariant forall f :: f in owed ==> owed[f] == OwedAmounts(friends.Keys, total, results)[f]
        decreases todo
      {
        var fid := MinKey(todo);
        var totalAmountOwed := if fid in results && resultTotal != 0.0 then total * results[fid] / resultTotal else 0.0;
        owed := owed[fid := totalAmountOwed];
        todo := todo - {fid};
      }
      ghost var expected := OwedAmounts(friends.Keys, total, results);
      assert owed.Keys == expected.Keys;
      assert forall f :: f in owed ==> owed[f] == expected[f];
    }
  }

  /** The loop of calculate over the items: starting from 0 for every
      friend, each charged item adds its shares, and an item whose amount is
      set and non-zero but whose percentages miss 100 sets the warning. */
  method ChargeItems(friendIds: set<int>, ledger: map<int, ItemView>) returns (results: map<int, real>, warning: bool)
    requires forall i :: i in ledger ==> ledger[i].participants.Keys <= friendIds
    ensures results == RawShares(friendIds, ledger)
    ensures warning == NeedsWarning(ledger)
  {
    results := map f | f in friendIds :: 0.0;
    warning := false;
    RawSharesNone(ledger);
    var todo := ledger.Keys;
    ghost var done: set<int> := {};
    while todo != {}
      invariant todo <= ledger.Keys && done == ledger.Keys - todo
      invariant results.Keys == friendIds
      invariant forall f :: f in results ==> results[f] == Sum(Restrict(ledger, done), ShareTerm(f))
      invariant warning == NeedsWarning(Restrict(ledger, done))
      decreases todo
    {
      var iid := MinKey(todo);
      var item := ledger[iid];
      RawSharesStep(ledger, done, iid);
      WarningStep(ledger, done, iid);
      ghost var before := results;
      var totalPercentage := TotalPercentage(item.participants);
      if item.amount.Some? && item.amount.value != 0.0 && totalPercentage != 100.0 {
        warning := true;
      } else if item.amount.Some? && item.amount.value != 0.0 {
        results := ChargeItem(results, item);
      }
      assert forall f :: f in results ==> results[f] == before[f] + ItemShare(item, f);
      todo := todo - {iid};
      done := done + {iid};
    }
    assert Restrict(ledger, done) == ledger;
    ghost var expected := RawShares(friendIds, ledger);
    assert results.Keys == expected.Keys;
  }

  /** The inner loop of calculate for one charged item: every checked entry
      adds the amount times its percentage (0 if unset) over 100 to that
      friend's raw share. */
  method ChargeItem(results: map<int, real>, item: ItemView) returns (updated: map<int, real>)
    requires Contributes(item)
    requires item.participants.Keys <= results.Keys
    ensures updated.Keys == results.Keys
    ensures forall f :: f in results ==> updated[f] == results[f] + ItemShare(item, f)
  {
    updated := results;
    var todo := item.participants.Keys;
    while todo != {}
      invariant todo <= item.participants.Keys
      invariant updated.Keys == results.Keys
      invariant forall f :: f in results ==>
                  updated[f] == results[f] + (if f in todo then 0.0 else ItemShare(item, f))
      decreases todo
    {
      var fid := MinKey(todo);
      if item.participants[fid].checked {
        var percentage := item.participants[fid].percentage.GetOr(0.0);
        updated := updated[fid := item.amount.value * percentage / 100.0 + updated[fid]];
      }
      todo := todo - {fid};
    }
  }
}
