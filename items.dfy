/** A bill item: its name, amount, unit flag and the entries of the friends
    who share it, updated in place. */
module Items {
  import opened Wrappers
  import opened Sums
  import opened Allocation

  class Item {
    const id: int
    var name: string
    /** `None` while the amount field does not parse to a number. */
    var amount: Option<real>
    /** Entry per friend id. */
    var participants: map<int, Share>
    var isUnitPercentage: bool

    /** A new item has no entries and is measured in percent. */
    constructor (id: int, name: string, amount: Option<real>)
      ensures this.id == id && this.name == name && this.amount == amount
      ensures participants == map[] && isUnitPercentage
    {
      this.id := id;
      this.name := name;
      this.amount := amount;
      participants := map[];
      isUnitPercentage := true;
    }

    /** Stores the entry of `friendId`, unless `friendId` is not an integer.
        A missing percentage is stored as unset; `checked` is true unless given. */
    method SetParticipant(friendId: real, percentage: Option<real>, checked: bool := true)
      modifies this`participants
      ensures IsInteger(friendId) ==> participants == old(participants)[friendId.Floor := Share(percentage, checked)]
      ensures !IsInteger(friendId) ==> participants == old(participants)
    {
      if !IsInteger(friendId) {
        return;
      }
      participants := participants[friendId.Floor := Share(percentage, checked)];
    }

    /** Deletes the entry of `friendId`, unless `friendId` is not an integer. */
    method RemoveParticipant(friendId: real)
      modifies this`participants
      ensures IsInteger(friendId) ==> participants == old(participants) - {friendId.Floor}
      ensures !IsInteger(friendId) ==> participants == old(participants)
    {
      if !IsInteger(friendId) {
        return;
      }
      participants := participants - {friendId.Floor};
    }

    /** The percentage of `friendId`'s entry, `None` when there is no entry
        (JavaScript's `undefined`); the inner `None` is an unset percentage. */
    function ParticipantPercentage(friendId: int): (r: Option<Option<real>>)
      reads this
      ensures r.Some? <==> friendId in participants
      ensures r.Some? ==> r.value == participants[friendId].percentage
    {
      if friendId in participants then Some(participants[friendId].percentage) else None
    }

    /** The `checked` flag of `friendId`'s entry, `None` when there is no entry. */
    function ParticipantChecked(friendId: int): (r: Option<bool>)
      reads this
      ensures r.Some? <==> friendId in participants
      ensures r.Some? ==> r.value == participants[friendId].checked
    {
      if friendId in participants then Some(participants[friendId].checked) else None
    }

    /** The sum of the set percentages (see `Allocation.TotalPercentage`). */
    function TotalPercentage(): (t: real)
      reads this
    {
      Allocation.TotalPercentage(participants)
    }

    /** Flips between percentages and the other unit. */
    method SetUnitType()
      modifies this`isUnitPercentage
      ensures isUnitPercentage == !old(isUnitPercentage)
    {
      isUnitPercentage := !isUnitPercentage;
    }

    function UnitType(): (percent: bool)
      reads this
    {
      isUnitPercentage
    }

    /** Brings the entries in step with the friend list: entries of friends no
        longer listed are removed, listed friends without an entry get an
        unset, checked one, and every other entry is kept. */
    method SyncWith(friendIds: set<int>)
      modifies this`participants
      ensures participants == Synced(old(participants), friendIds)
    {
      DropStale(friendIds);
      AddMissing(friendIds);
      SyncedIgnoresStale(old(participants), friendIds);
    }

    /** Removes the entries of friends not in `friendIds`. */
    method DropStale(friendIds: set<int>)
      modifies this`participants
      ensures participants == Restrict(old(participants), friendIds)
    {
      var stale := participants.Keys - friendIds;
      while stale != {}
        invariant stale * friendIds == {}
        invariant participants.Keys == old(participants).Keys * friendIds + stale
        invariant forall k :: k in participants ==> participants[k] == old(participants)[k]
        decreases stale
      {
        var k := MinKey(stale);
        IntegralId(k);
        RemoveParticipant(k as real);
        stale := stale - {k};
      }
      ghost var kept := Restrict(old(participants), friendIds);
      assert participants.Keys == kept.Keys;
      assert forall k :: k in participants ==> participants[k] == kept[k];
    }

    /** Gives every friend in `friendIds` without an entry an unset, checked one. */
    method AddMissing(friendIds: set<int>)
      requires participants.Keys <= friendIds
      modifies this`participants
      ensures participants == Synced(old(participants), friendIds)
    {
      var added := friendIds - participants.Keys;
      while added != {}
        invariant added <= friendIds
        invariant participants.Keys == friendIds - added
        invariant forall k :: k in added ==> k !in old(participants)
        invariant forall k :: k in participants ==> participants[k] == Synced(old(participants), friendIds)[k]
        decreases added
      {
        var k := MinKey(added);
        IntegralId(k);
        SetParticipant(k as real, None, true);
        added := added - {k};
      }
      ghost var synced := Synced(old(participants), friendIds);
      assert participants.Keys == synced.Keys;
      assert forall k :: k in participants ==> participants[k] == synced[k];
    }
  }

  /** A friend id passed on as a number passes the integer guard unchanged. */
  lemma IntegralId(k: int)
    ensures IsInteger(k as real) && (k as real).Floor == k
  {
  }

  /** Setting the unit type twice restores it. */
  method SetUnitTypeTwice(item: Item)
    modifies item
    ensures item.isUnitPercentage == old(item.isUnitPercentage)
    ensures item.participants == old(item.participants) && item.amount == old(item.amount)
  {
    item.SetUnitType();
    item.SetUnitType();
  }
}
