# Shareceipt bill splitting, modelled in Dafny

Shareceipt is a browser page for splitting a receipt among friends. The user
keeps a list of friends and a list of items. Each item has an amount and, for
every friend, an entry made of a percentage and a "checked" flag. From these the
page works out what each friend owes. This project models the page's
bookkeeping and arithmetic in `script.js`, without the page itself.

The model has five modules:

- `Wrappers` (`wrappers.dfy`): the `Option` type. `None` stands for JavaScript's
  `NaN`: an amount or percentage that is unset or does not parse.
- `Sums` (`sums.dfy`): finite sums over integer-keyed maps. They stand for the
  `Array.from(map.values()).reduce(...)` folds, with lemmas that the order of
  the sum does not matter.
- `Allocation` (`allocation.dfy`): the arithmetic as functions on values, with
  the lemmas about it:
  - the total percentage of an item;
  - the remainder that `autoDistribute` hands out;
  - how an item's entries are brought in step with the friend list;
  - the grand total and each friend's raw share (`calculate`);
  - the amounts owed after scaling (`showResult`).
- `Items` (`items.dfy`): `class Item`. Its methods update the entry map in
  place, as `setParticipant` and `removeParticipant` do.
- `Friends` (`friends.dfy`): `class FriendManager`. It holds the friends, the
  items and the two id counters, and updates them in place.

Two conservation results tie the model together:

- The friends' raw shares add up to the subtotal
  (`Allocation.RawSharesAddUp`). This holds under three conditions: no item
  raises the "do not sum to 100%" warning, every item has an entry for exactly
  the listed friends, and every unchecked entry carries 0%. Without the last
  one it fails: an item of 100 with friend 1 checked at 50% and friend 2
  unchecked at 50% raises no warning but charges only 50.
- What the friends are shown to owe then adds up to the grand total
  (`Allocation.BillAddsUp`). This needs the same three conditions and also a
  subtotal that is not 0. When every amount is unset, everyone owes 0 whatever
  total was entered. `Friends.FriendManager.Calculate` states this for the
  manager's current state.

## Model

| member | source | states |
|---|---|---|
| `Items.Item.constructor` | script.js:32-38 | a new item keeps the given name and amount, has no entries, and is measured in percent |
| `Items.Item.SetParticipant` | script.js:40-46 | for an integral friend id, the map afterwards is the old map with exactly that entry replaced by (percentage, checked); for any other id the map is unchanged |
| `Items.Item.RemoveParticipant` | script.js:48-52 | for an integral friend id, exactly that entry is deleted; for any other id the map is unchanged |
| `Items.Item.ParticipantPercentage` | script.js:54-58 | there is a result exactly when the friend has an entry, and it is the entry's percentage (possibly unset) |
| `Items.Item.ParticipantChecked` | script.js:66-70 | there is a result exactly when the friend has an entry, and it is the entry's checked flag |
| `Items.Item.SetUnitType` | script.js:72-74 | the unit flag is negated |
| `Items.SetUnitTypeTwice` | script.js:72-78 | two flips restore the unit flag and leave the entries and the amount alone |
| `Items.Item.SyncWith` | script.js:144-185 | the item's entries become `Synced(old entries, friend ids)`: entries of unlisted friends are removed, new friends get an unset, checked entry, and the rest are kept |
| `Items.Item.DropStale` | script.js:144-152 | the removal walk leaves exactly the old entries whose friend is still listed |
| `Items.Item.AddMissing` | script.js:154-185 | the add walk gives each listed friend without an entry an unset, checked one |
| `Allocation.TotalPercentageSkipsUnset` | script.js:60-64 | the total percentage is the sum over the entries with a set percentage alone, so an item whose every entry is unset totals 0 |
| `Allocation.TotalPercentageAfterSet` | script.js:60-64 | storing an entry moves the total percentage by the new set percentage minus the old one; unset counts as 0 |
| `Allocation.TotalPercentageAfterRemove` | script.js:60-64 | deleting an entry takes exactly its set percentage (0 if unset) off the total |
| `Allocation.TotalPercentageIgnoresChecked` | script.js:60-64 | changing only an entry's checked flag leaves the total percentage unchanged |
| `Allocation.UnsetKeys` | script.js:365-367 | the friends whose percentage is unset, checked or not; `countNaN` is its size |
| `Allocation.CountUnset` | script.js:365-367 | `countNaN` is 0 exactly when every entry has a set percentage |
| `Allocation.CheckedUnsetKeys` | script.js:369-372 | the friends autoDistribute fills: those that are checked and unset |
| `Allocation.Distributed` | script.js:362-373 | the same keys; set or unchecked entries are kept; each checked unset entry gets (100 - total) / countNaN, and countNaN > 0 whenever such an entry exists |
| `Allocation.FillTotal` | script.js:369-373 | giving n unset entries the value v raises the total percentage by n * v |
| `Allocation.DistributedTotal` | script.js:362-373 | after autoDistribute the total percentage has grown by one remainder share per checked unset entry |
| `Allocation.DistributedFillsHundred` | script.js:362-373 | when every unset entry is checked and there is at least one, the percentages add up to exactly 100 afterwards |
| `Allocation.Synced` | script.js:144-185 | the synced entries have exactly the listed friends as keys, keep existing entries, and give new friends (unset, checked) |
| `Allocation.SyncAll` | script.js:135-186 | every item of the ledger is synced, and its amount is kept |
| `Allocation.SyncedAfterRemove` | script.js:103-106 | syncing an item in step with the friends after one friend is removed deletes exactly that friend's entry |
| `Allocation.SyncedAfterAdd` | script.js:97-101 | syncing after a new friend is added adds exactly an unset, checked entry for that friend |
| `Allocation.SyncedIgnoresStale` | script.js:144-165 | removing the unlisted entries first does not change the result of syncing |
| `Allocation.SyncedKeepsAll` | script.js:144-165 | syncing an item with exactly the friends it already has entries for returns it unchanged |
| `Allocation.SyncAllInStep` | script.js:135-186 | a ledger whose items all have entries for exactly the listed friends is left as it is by syncing |
| `Allocation.GrandTotal` | script.js:314-319 | the entered total when it is set and non-zero, otherwise the sum of the set item amounts |
| `Allocation.SubTotal` | script.js:315-319 | the sum over the items with a set amount alone: unset amounts are skipped, and a ledger of unset amounts totals 0 |
| `Allocation.SubTotalAfterAdd` | script.js:315-319 | a new item raises the subtotal by its amount (0 if unset) |
| `Allocation.SubTotalAfterRemove` | script.js:315-319 | removing an item lowers the subtotal by its amount (0 if unset), and removing a missing id changes nothing |
| `Allocation.Contributes` | script.js:332 | an item whose amount is unset or 0 is never charged |
| `Allocation.Warns` | script.js:327-331 | an item warns exactly when its amount is non-zero and it is not charged, so a non-zero item is either charged or warned about, never both |
| `Allocation.NeedsWarning` | script.js:326-331 | the ledger raises no warning exactly when every item with a non-zero amount is charged |
| `Allocation.ItemShare` | script.js:326-340 | an item that does not contribute (amount unset or 0, or percentages not 100) charges nobody; an unchecked or absent friend pays nothing; otherwise a friend pays amount * percentage / 100, with unset as 0 |
| `Allocation.RawShares` | script.js:321-341 | the results map has exactly the friends as keys |
| `Allocation.CheckedShare` | script.js:334-337 | a checked friend of a charged item pays the amount / 100 times their percentage |
| `Allocation.EntryPays` | script.js:333-339 | every participant of a charged item pays the rate times their percentage when unchecked entries carry 0% |
| `Allocation.PaidTotal` | script.js:333-339 | what the entries of a charged item pay is the rate times the item's total percentage |
| `Allocation.ItemSharesAddUp` | script.js:326-340 | the shares of an item that raises no warning and whose unchecked entries carry 0% add up to its amount (0 if unset or 0), summed over any map keyed by exactly its entries |
| `Allocation.RawSharesStep` | script.js:326-340 | taking one more item into account adds its share to every friend's running total |
| `Allocation.WarningStep` | script.js:327-331 | taking one more item into account warns exactly when an earlier item did or this one does |
| `Allocation.RawSharesNone` | script.js:321-325 | before any item, every running total is 0 and nothing warns |
| `Allocation.RawSharesAddUp` | script.js:321-341 | with no warning, every item in step with the friends and unchecked entries at 0%, the raw shares add up to the subtotal |
| `Allocation.Owed` | script.js:353 | with a share sum of 0 the amount is 0; otherwise the amount is to the grand total as the share is to the sum |
| `Allocation.OwedAmounts` | script.js:352-356 | one amount per listed friend; a friend without a raw share owes 0; total * share / sum otherwise, and 0 when the sum is 0 |
| `Allocation.OwedEntry` | script.js:352-353 | each listed friend owes their share scaled by total / sum |
| `Allocation.OwedTerms` | script.js:352-353 | every owed amount is the corresponding share scaled by total / sum |
| `Allocation.ScaledValues` | script.js:348-353 | scaling every raw share scales their sum |
| `Allocation.ScaledTotal` | script.js:348-353 | scaling the raw shares by total / sum makes them add up to the total |
| `Allocation.OwedAddsUp` | script.js:347-356 | when the raw shares do not add up to 0, the owed amounts add up to the grand total |
| `Allocation.OwedZeroWhenNoShares` | script.js:353-356 | when the raw shares add up to 0, every friend owes 0 |
| `Allocation.BillAddsUp` | script.js:313-356 | with no warning, every item in step, unchecked entries at 0% and a non-zero subtotal, what the friends owe adds up to the grand total |
| `Allocation.ShownAsWritten` | script.js:353-356 | the display divides by a zero sum: infinite exactly when the sum is 0 and total * share is not; otherwise it shows the corrected owed amount |
| `Allocation.OnePayer` | script.js:326-340 | an item whose whole 100% is on one of two friends charges its amount to that friend and 0 to the other |
| `Allocation.CancellingItems` | script.js:326-340 | both items of the cancelling bill are charged, each to one friend only |
| `Allocation.CancellingShares` | script.js:321-341 | the raw shares of the cancelling bill are 100 and -100 |
| `Allocation.InfinityShownWhenSharesCancel` | script.js:347-356 | on the cancelling bill with an entered total of 50, the shares add up to 0 and friend 1 is shown "Infinity", while the corrected amount is 0 |
| `Friends.FriendManager.constructor` | script.js:83-95 | a new manager lists one friend "Friend 1" with id 1, has no items, and keeps the manager invariant |
| `Friends.FriendManager.UpdateItemFriends` | script.js:135-186 | every item's entries become `Synced(old entries, friend ids)` |
| `Friends.FriendManager.Resync` | script.js:135-186 | under the manager invariant, the ledger after re-syncing is `SyncAll` of the old ledger, and that is the old ledger itself: no entry and no amount changes |
| `Friends.FriendManager.AddFriend` | script.js:97-101 | the friend is filed under the next friend id, which is greater than every id issued before (including ids of removed friends); the counter moves up by one; every item gains an unset, checked entry for the new friend |
| `Friends.FriendManager.RemoveFriend` | script.js:103-106 | exactly that friend is removed, and so is that friend's entry on every item |
| `Friends.FriendManager.EditName` | script.js:392-402 | the friend is renamed exactly when the friend exists and the answer is neither cancelled nor empty; otherwise nothing changes |
| `Friends.FriendManager.AddItem` | script.js:190-194 | the item is filed under the next item id, greater than every id issued before; the counter moves up by one; the new item has the given name and amount and an unset, checked entry per friend; the other items are kept |
| `Friends.FriendManager.RemoveItem` | script.js:196-199 | exactly that item is removed |
| `Friends.FriendManager.SwitchUnit` | script.js:377-380 | the item's unit flag is negated |
| `Friends.FriendManager.AutoDistribute` | script.js:362-375 | the item's entries become `Distributed(old entries)` and the manager invariant is kept |
| `Friends.FriendManager.Calculate` | script.js:313-345 | the grand total, the raw shares, the warning and the amounts owed are exactly `GrandTotal`, `RawShares`, `NeedsWarning` and `OwedAmounts` of the current items; under the conditions of `BillAddsUp` what is owed adds up to the grand total |
| `Friends.ChargeItems` | script.js:321-341 | the loop over the items yields exactly `RawShares` and `NeedsWarning` of the ledger |
| `Friends.ChargeItem` | script.js:333-339 | the loop over one charged item adds exactly that item's share to every friend's running total |
| `Friends.FriendManager.ShowResult` | script.js:347-360 | the owed amounts are exactly `OwedAmounts`; where the shares do not add up to 0, they are exactly what the page displays |

## Left out

- The page is not modelled: jQuery, DOM templating, event binding, `console.log`, and the `toFixed(2)` rounding of displayed amounts. `ShowResult` returns the amounts; it does not display them.
- Random friend colours (`generateRandomRgb`, `rgbString`) are not modelled, because they use `Math.random` and are purely cosmetic.
- Reading the entered total and the amounts from input fields, and `parseFloat`, are not modelled. The parsed value is a parameter of type `Option<real>`, with `None` for `NaN`.
- The `prompt` in `editName` is not modelled. Its answer is the parameter `answer`: `None` when cancelled.
- Floating point is modelled as exact `real` arithmetic, so rounding is not captured. The only IEEE-754 effect kept is the `Infinity` shown for a division by a zero sum (`ShownAsWritten`).
- `Map` insertion order is not modelled. Loops visit keys in ascending order. Every computed value is a sum, so order does not change any result. Ids are handed out in increasing order anyway.
- The static counters `Friend.nextId` and `Item.nextId` are fields of the single `FriendManager`. `Item`'s constructor takes its id from there.
- `editName`'s in-place change of `friend.name` is not modelled as such. `Friend` is a value, and renaming replaces its entry in `friends`; the map holds the only reference.
- The redraws (`updateFriendList`, `updateItemsList`) that follow `editName`, `switchUnit`, `removeItem` and `autoDistribute` all end in `updateItemFriends`. While the manager invariant holds, that re-sync changes no entry (`Resync`), so those operations do not repeat it.
  - `AddItem` syncs only the new item (`SyncWith`), for the same reason.
  - `AddFriend` and `RemoveFriend` do call `UpdateItemFriends`.
- The re-set pass of `updateItemFriends` (script.js:167-185) is not modelled as a walk of its own. For every entry it calls `setParticipant` with the entry's own percentage and checked flag, or with an unset, checked entry if none exists. Existing entries are therefore rewritten unchanged, and the model takes the pass to be part of `Synced` and `AddMissing` rather than a separate step.
- The `calculate()` that ends `updateItemFriends` is not repeated inside it, because it only changes the display. `Calculate` models it separately.
- Finding item and friend ids by splitting element id strings is not modelled. The loops use the manager's maps directly.
- Items.Item.UnitType: `getUnitType` is a plain field read with no contract of its own. The unit flag is only toggled; `calculate` never reads it.
- Items.Item.TotalPercentage: `getTotalPercentage` has no contract of its own; it is `Allocation.TotalPercentage` of the entries. Its properties are the three `TotalPercentage…` lemmas.
- These event handlers are not modelled: the amount input handler (script.js:285-289), and the checkbox, focus and percentage handlers that call `setParticipant` (script.js:276-308). What they store is covered by `SetParticipant`. `UncheckedAtZero` is the 0% that the checkbox handler writes for an unchecked entry; it is a hypothesis of `BillAddsUp`, not a proved invariant.
- Friends.FriendManager.AutoDistribute: requires the item id to be present. The source fails with a `TypeError` on a missing id, and that failure is not modelled.
- Friends.FriendManager.SwitchUnit: requires the item id to be present, for the same reason.
- Friends.FriendManager.Calculate: requires every item's entry keys to be among the friends. The source would add a `NaN` result for a stale entry, and that path is not modelled. The manager invariant `Valid` implies this requirement.

## Findings

| source | as written | input that shows it | evidently intended | confidence | as-written member | corrected member |
|---|---|---|---|---|---|---|
| script.js:348-356 | each friend owes `totalAmount * results.get(fid) / resultTotal`, and only `NaN` is shown as 0; when the raw shares cancel to 0 but a share is non-zero, the page shows `$Infinity` or `$-Infinity` | friends 1 and 2; an item of amount 100 put 100% on friend 1, an item of amount -100 put 100% on friend 2, an entered total of 50: the raw shares are 100 and -100, their sum is 0, and friend 1 is shown "Infinity" | an amount of 0 for every friend when the shares add up to 0, as the `isNaN` guard does for the all-zero case | not executed | `Allocation.ShownAsWritten`, `Allocation.InfinityShownWhenSharesCancel` | `Allocation.OwedAmounts`, `Allocation.OwedZeroWhenNoShares` |
