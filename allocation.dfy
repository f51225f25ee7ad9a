/** The bill splitter's allocation arithmetic, on values.

    An item holds an amount and, per friend id, a `Share`: a percentage
    (unset until entered) and a `checked` flag. The functions here are what
    `Item.getTotalPercentage`, `FriendManager.autoDistribute`,
    `FriendManager.calculate` and `FriendManager.showResult` compute; the
    classes in `Items` and `Friends` hold the state they read. */
module Allocation {
  import opened Wrappers
  import opened Sums

  /** One friend's entry on one item. `percentage` is `None` while unset. */
  datatype Share = Share(percentage: Option<real>, checked: bool)

  /** What the arithmetic reads of one item: its amount (`None` while unset)
      and its entries by friend id. */
  datatype ItemView = ItemView(amount: Option<real>, participants: map<int, Share>)

  /** JavaScript's `Number.isInteger` on a finite number. */
  predicate IsInteger(x: real) {
    x.Floor as real == x
  }

  // ---------------------------------------------------------------------
  // getTotalPercentage

  /** What an entry adds to the total percentage: its percentage if set, else 0. */
  function PercentageTerm(friendId: int, s: Share): (p: real) {
    s.percentage.GetOr(0.0)
  }

  /** The sum of the set percentages of all entries, checked or not
      (`TotalPercentageSkipsUnset` shows that unset entries are skipped). */
  function TotalPercentage(ps: map<int, Share>): (t: real) {
    Sum(ps, PercentageTerm)
  }

  /** The unset entries (NaN) are skipped: the total is the sum over the set
      percentages alone, and an item whose every entry is unset totals 0. */
  lemma TotalPercentageSkipsUnset(ps: map<int, Share>)
    ensures TotalPercentage(ps) == Sum(Restrict(ps, ps.Keys - UnsetKeys(ps)), PercentageTerm)
    ensures UnsetKeys(ps) == ps.Keys ==> TotalPercentage(ps) == 0.0
  {
    var entered := ps.Keys - UnsetKeys(ps);
    SumSkipsZeros(ps, PercentageTerm, entered);
    if UnsetKeys(ps) == ps.Keys {
      assert Restrict(ps, entered) == map[];
    }
  }

  /** Storing an entry moves the total by the difference of the two set
      percentages; an unset percentage counts as 0. */
  lemma TotalPercentageAfterSet(ps: map<int, Share>, k: int, s: Share)
    ensures TotalPercentage(ps[k := s])
         == TotalPercentage(ps) - (if k in ps then PercentageTerm(k, ps[k]) else 0.0) + PercentageTerm(k, s)
  {
    if k in ps {
      SumUpdate(ps, PercentageTerm, k, s);
    } else {
      SumInsert(ps, PercentageTerm, k, s);
    }
  }

  /** Deleting an entry removes exactly its set percentage from the total. */
  lemma TotalPercentageAfterRemove(ps: map<int, Share>, k: int)
    ensures TotalPercentage(ps - {k})
         == TotalPercentage(ps) - (if k in ps then PercentageTerm(k, ps[k]) else 0.0)
  {
    if k in ps {
      SumRemove(ps, PercentageTerm, k);
    } else {
      assert ps - {k} == ps;
    }
  }

  /** The `checked` flag never enters the total. */
  lemma TotalPercentageIgnoresChecked(ps: map<int, Share>, k: int, checked: bool)
    requires k in ps
    ensures TotalPercentage(ps[k := ps[k].(checked := checked)]) == TotalPercentage(ps)
  {
    TotalPercentageAfterSet(ps, k, ps[k].(checked := checked));
  }

  // ---------------------------------------------------------------------
  // autoDistribute

  /** The ids whose percentage is unset, checked or not. */
  function UnsetKeys(ps: map<int, Share>): (u: set<int>)
    ensures u <= ps.Keys
    ensures forall k :: k in ps ==> (k in u <==> ps[k].percentage.None?)
  {
    set k | k in ps && ps[k].percentage.None?
  }

  /** `countNaN`: the number of entries whose percentage is unset. It is 0
      exactly when every entry has a percentage. */
  function CountUnset(ps: map<int, Share>): (n: nat)
    ensures n == 0 <==> forall k :: k in ps ==> ps[k].percentage.Some?
  {
    var u := UnsetKeys(ps);
    assert (forall k :: k in ps ==> ps[k].percentage.Some?) ==> u == {};
    |u|
  }

  /** The ids that autoDistribute fills: checked and unset. */
  function CheckedUnsetKeys(ps: map<int, Share>): (u: set<int>)
    ensures u <= UnsetKeys(ps)
    ensures forall k :: k in ps ==> (k in u <==> ps[k].checked && ps[k].percentage.None?)
  {
    set k | k in ps && ps[k].checked && ps[k].percentage.None?
  }

  /** What is left of 100%, split evenly over ALL unset entries. */
  function RemainderShare(ps: map<int, Share>): (r: real)
    requires CountUnset(ps) > 0
  {
    (100.0 - TotalPercentage(ps)) / CountUnset(ps) as real
  }

  /** The entries after autoDistribute: every checked entry whose percentage is
      unset receives `RemainderShare`; every other entry is kept. With no unset
      entry at all nothing is filled, so the division never happens. */
  function Distributed(ps: map<int, Share>): (r: map<int, Share>)
    ensures r.Keys == ps.Keys
    ensures forall k :: k in ps && (ps[k].percentage.Some? || !ps[k].checked) ==> r[k] == ps[k]
    ensures forall k :: k in ps && ps[k].percentage.None? && ps[k].checked ==>
              CountUnset(ps) > 0 && r[k] == Share(Some(RemainderShare(ps)), true)
  {
    if CountUnset(ps) == 0 then ps
    else
      var each := RemainderShare(ps);
      map k | k in ps :: if ps[k].checked && ps[k].percentage.None? then Share(Some(each), true) else ps[k]
  }

  /** `ps` with the entries in `fill` set to the percentage `v`, checked. */
  function Fill(ps: map<int, Share>, fill: set<int>, v: real): (r: map<int, Share>)
    ensures r.Keys == ps.Keys
  {
    map k | k in ps :: if k in fill then Share(Some(v), true) else ps[k]
  }

  /** The step `t + (n-1)v + v == t + nv` of `FillTotal`, kept apart so that
      the solver meets the product `n * v` on its own. */
  lemma CountStep(n: nat, v: real, t: real, t': real)
    requires n > 0
    requires t' == t + (n - 1) as real * v + v
    ensures t' == t + n as real * v
  {
  }

  /** Filling `n` unset entries with `v` adds `n * v` to the total. */
  lemma {:induction false} FillTotal(ps: map<int, Share>, fill: set<int>, v: real)
    requires fill <= UnsetKeys(ps)
    ensures TotalPercentage(Fill(ps, fill, v)) == TotalPercentage(ps) + |fill| as real * v
    decreases |fill|
  {
    if fill == {} {
      assert Fill(ps, fill, v) == ps;
    } else {
      var u := MinKey(fill);
      var rest := fill - {u};
      FillTotal(ps, rest, v);
      var prev := Fill(ps, rest, v);
      assert Fill(ps, fill, v) == prev[u := Share(Some(v), true)];
      assert prev[u] == ps[u];
      SumUpdate(prev, PercentageTerm, u, Share(Some(v), true));
      assert |fill| == |rest| + 1;
      CountStep(|fill|, v, TotalPercentage(ps), TotalPercentage(Fill(ps, fill, v)));
    }
  }

  /** After autoDistribute the total has grown by one remainder share per
      checked unset entry. */
  lemma DistributedTotal(ps: map<int, Share>)
    requires CountUnset(ps) > 0
    ensures TotalPercentage(Distributed(ps))
         == TotalPercentage(ps) + |CheckedUnsetKeys(ps)| as real * RemainderShare(ps)
  {
    assert Distributed(ps) == Fill(ps, CheckedUnsetKeys(ps), RemainderShare(ps));
    FillTotal(ps, CheckedUnsetKeys(ps), RemainderShare(ps));
  }

  /** `t + n * ((100 - t) / n) == 100`: the division of `DistributedFillsHundred`
      cancelled on its own. */
  lemma CancelCount(n: nat, t: real, r: real)
    requires n > 0 && r == (100.0 - t) / n as real
    ensures t + n as real * r == 100.0
  {
  }

  /** When every unset entry is checked and there is at least one, the
      percentages add up to exactly 100 after autoDistribute. */
  lemma DistributedFillsHundred(ps: map<int, Share>)
    requires CountUnset(ps) > 0
    requires forall k :: k in ps && ps[k].percentage.None? ==> ps[k].checked
    ensures TotalPercentage(Distributed(ps)) == 100.0
  {
    forall k
      ensures k in CheckedUnsetKeys(ps) <==> k in UnsetKeys(ps)
    {
      if k in ps {
      }
    }
    assert CheckedUnsetKeys(ps) == UnsetKeys(ps);
    DistributedTotal(ps);
    CancelCount(CountUnset(ps), TotalPercentage(ps), RemainderShare(ps));
  }

  // ---------------------------------------------------------------------
  // Keeping items in step with the friend list (updateItemFriends)

  /** The entries of an item once the friend list is `friendIds`: entries of
      removed friends are dropped, new friends get an unset, checked entry, and
      every other entry is kept. */
  function Synced(ps: map<int, Share>, friendIds: set<int>): (r: map<int, Share>)
    ensures r.Keys == friendIds
    ensures forall k :: k in friendIds && k in ps ==> r[k] == ps[k]
    ensures forall k :: k in friendIds && k !in ps ==> r[k] == Share(None, true)
  {
    map k | k in friendIds :: if k in ps then ps[k] else Share(None, true)
  }

  /** `Synced` applied to every item of a ledger; amounts are kept. */
  function SyncAll(ledger: map<int, ItemView>, friendIds: set<int>): (r: map<int, ItemView>)
    ensures r.Keys == ledger.Keys
    ensures forall i :: i in r ==> r[i].amount == ledger[i].amount
    ensures forall i :: i in r ==> r[i].participants == Synced(ledger[i].participants, friendIds)
  {
    map i | i in ledger :: ledger[i].(participants := Synced(ledger[i].participants, friendIds))
  }

  /** Syncing after a friend is removed deletes that friend's entry and nothing else. */
  lemma SyncedAfterRemove(ps: map<int, Share>, friendIds: set<int>, gone: int)
    requires ps.Keys == friendIds
    ensures Synced(ps, friendIds - {gone}) == ps - {gone}
  {
  }

  /** Syncing after a friend is added gives exactly that friend an unset, checked entry. */
  lemma SyncedAfterAdd(ps: map<int, Share>, friendIds: set<int>, added: int)
    requires ps.Keys == friendIds && added !in friendIds
    ensures Synced(ps, friendIds + {added}) == ps[added := Share(None, true)]
  {
  }

  /** Dropping the entries of unlisted friends first does not change the result of syncing. */
  lemma SyncedIgnoresStale(ps: map<int, Share>, friendIds: set<int>)
    ensures Synced(Restrict(ps, friendIds), friendIds) == Synced(ps, friendIds)
  {
  }

  /** Syncing with the friends an item already has entries for changes nothing. */
  lemma SyncedKeepsAll(ps: map<int, Share>)
    ensures Synced(ps, ps.Keys) == ps
  {
  }

  /** Every item has an entry for exactly the friends in `friendIds`. */
  predicate InStep(ledger: map<int, ItemView>, friendIds: set<int>) {
    forall i :: i in ledger ==> ledger[i].participants.Keys == friendIds
  }

  /** An item already in step with the friend list is left as it is. */
  lemma SyncAllInStep(ledger: map<int, ItemView>, friendIds: set<int>)
    requires InStep(ledger, friendIds)
    ensures SyncAll(ledger, friendIds) == ledger
  {
    forall i | i in ledger
      ensures SyncAll(ledger, friendIds)[i] == ledger[i]
    {
      assert Synced(ledger[i].participants, friendIds) == ledger[i].participants;
    }
  }

  // ---------------------------------------------------------------------
  // calculate: the grand total

  /** What an item adds to the subtotal: its amount if set, else 0. */
  function AmountTerm(itemId: int, it: ItemView): (a: real) {
    it.amount.GetOr(0.0)
  }

  /** The sum of the item amounts: the unset ones (NaN) are skipped, so a
      ledger of unset amounts totals 0. */
  function SubTotal(ledger: map<int, ItemView>): (t: real)
    ensures t == Sum(Restrict(ledger, set i | i in ledger && ledger[i].amount.Some?), AmountTerm)
    ensures (forall i :: i in ledger ==> ledger[i].amount.None?) ==> t == 0.0
  {
    var amounted := set i | i in ledger && ledger[i].amount.Some?;
    SumSkipsZeros(ledger, AmountTerm, amounted);
    Sum(ledger, AmountTerm)
  }

  /** The total the bill is scaled to: the entered total when it parses to a
      non-zero number, otherwise the subtotal of the items. */
  function GrandTotal(entered: Option<real>, ledger: map<int, ItemView>): (total: real)
    ensures entered.Some? && entered.value != 0.0 ==> total == entered.value
    ensures entered.None? || entered.value == 0.0 ==> total == SubTotal(ledger)
  {
    if entered.Some? && entered.value != 0.0 then entered.value else SubTotal(ledger)
  }

  /** A new item adds its amount (0 if unset) to the subtotal. */
  lemma SubTotalAfterAdd(ledger: map<int, ItemView>, id: int, it: ItemView)
    requires id !in ledger
    ensures SubTotal(ledger[id := it]) == SubTotal(ledger) + it.amount.GetOr(0.0)
  {
    SumInsert(ledger, AmountTerm, id, it);
  }

  /** Removing an item takes its amount (0 if unset) off the subtotal. */
  lemma SubTotalAfterRemove(ledger: map<int, ItemView>, id: int)
    ensures SubTotal(ledger - {id})
         == SubTotal(ledger) - (if id in ledger then ledger[id].amount.GetOr(0.0) else 0.0)
  {
    if id in ledger {
      SumRemove(ledger, AmountTerm, id);
    } else {
      assert ledger - {id} == ledger;
    }
  }

  // ---------------------------------------------------------------------
  // calculate: each friend's raw share

  /** An item is charged when its amount is set and non-zero and its
      percentages add up to exactly 100. An item with an unset or zero
      amount is never charged. */
  predicate Contributes(it: ItemView)
    ensures it.amount.GetOr(0.0) == 0.0 ==> !Contributes(it)
  {
    it.amount.Some? && it.amount.value != 0.0 && TotalPercentage(it.participants) == 100.0
  }

  /** An item raises the "do not sum to 100%" warning when its amount is set
      and non-zero but its percentages do not add up to 100. An item with a
      non-zero amount is thus either charged or warned about, never both. */
  predicate Warns(it: ItemView)
    ensures Warns(it) <==> it.amount.GetOr(0.0) != 0.0 && !Contributes(it)
  {
    it.amount.Some? && it.amount.value != 0.0 && TotalPercentage(it.participants) != 100.0
  }

  /** Whether any item of the ledger raises the warning. Without the warning,
      every item with a non-zero amount is charged. */
  predicate NeedsWarning(ledger: map<int, ItemView>)
    ensures !NeedsWarning(ledger) <==>
              forall i :: i in ledger && ledger[i].amount.GetOr(0.0) != 0.0 ==> Contributes(ledger[i])
  {
    exists i :: i in ledger && Warns(ledger[i])
  }

  /** What friend `f` is charged for item `it` before scaling. */
  function ItemShare(it: ItemView, f: int): (r: real)
    ensures !Contributes(it) ==> r == 0.0
    ensures f !in it.participants || !it.participants[f].checked ==> r == 0.0
    ensures Contributes(it) && f in it.participants && it.participants[f].checked ==>
              r == it.amount.value * PercentageTerm(f, it.participants[f]) / 100.0
  {
    if Contributes(it) && f in it.participants && it.participants[f].checked
    then it.amount.value * PercentageTerm(f, it.participants[f]) / 100.0
    else 0.0
  }

  /** Friend `f`'s share of an item, as a term of a sum over the ledger. */
  function ShareTerm(f: int): (int, ItemView) -> real {
    (i: int, it: ItemView) => ItemShare(it, f)
  }

  /** The `results` map of calculate: for each friend, the sum of that
      friend's shares over all items. */
  function RawShares(friendIds: set<int>, ledger: map<int, ItemView>): (r: map<int, real>)
    ensures r.Keys == friendIds
  {
    map f | f in friendIds :: Sum(ledger, ShareTerm(f))
  }

  /** Friend `f`'s share of a fixed item, as a term of a sum over friends. */
  function FriendTerm<V>(it: ItemView): (int, V) -> real {
    (f: int, v: V) => ItemShare(it, f)
  }

  /** Friend `f`'s share of an item, as a term once the entry `s` is known. */
  function EntryTerm(it: ItemView): (int, Share) -> real {
    (f: int, s: Share) => ItemShare(it, f)
  }

  /** The fraction of an item's amount that one percentage point stands for. */
  function Rate(it: ItemView): (r: real)
    requires it.amount.Some?
  {
    it.amount.value / 100.0
  }

  /** A checked friend of a charged item pays the amount times their percentage. */
  lemma CheckedShare(it: ItemView, f: int)
    requires Contributes(it) && f in it.participants && it.participants[f].checked
    ensures ItemShare(it, f) == Rate(it) * PercentageTerm(f, it.participants[f])
  {
    var a, p := it.amount.value, PercentageTerm(f, it.participants[f]);
    assert ItemShare(it, f) == a * p / 100.0;
    assert a * p / 100.0 == (a / 100.0) * p;
  }

  /** What the friends of a charged item pay adds up to the rate times the
      percentage carried by checked entries (all of it, when unchecked entries
      carry 0%). */
  lemma PaidTotal(it: ItemView)
    requires Contributes(it)
    requires forall f :: f in it.participants && !it.participants[f].checked ==>
               PercentageTerm(f, it.participants[f]) == 0.0
    ensures Sum(it.participants, EntryTerm(it)) == Rate(it) * Sum(it.participants, PercentageTerm)
  {
    EntriesPay(it);
    SumScale(it.participants, PercentageTerm, EntryTerm(it), Rate(it));
  }

  /** Every entry of a charged item pays the rate times its percentage. */
  lemma EntriesPay(it: ItemView)
    requires Contributes(it)
    requires forall f :: f in it.participants && !it.participants[f].checked ==>
               PercentageTerm(f, it.participants[f]) == 0.0
    ensures forall f :: f in it.participants ==>
              EntryTerm(it)(f, it.participants[f]) == Rate(it) * PercentageTerm(f, it.participants[f])
  {
    forall f | f in it.participants
      ensures EntryTerm(it)(f, it.participants[f]) == Rate(it) * PercentageTerm(f, it.participants[f])
    {
      EntryPays(it, f);
    }
  }

  /** One entry of a charged item pays the rate times its percentage, given
      that an unchecked entry carries 0%. */
  lemma EntryPays(it: ItemView, f: int)
    requires Contributes(it) && f in it.participants
    requires !it.participants[f].checked ==> PercentageTerm(f, it.participants[f]) == 0.0
    ensures EntryTerm(it)(f, it.participants[f]) == Rate(it) * PercentageTerm(f, it.participants[f])
  {
    assert EntryTerm(it)(f, it.participants[f]) == ItemShare(it, f);
    if it.participants[f].checked {
      CheckedShare(it, f);
    } else {
      assert ItemShare(it, f) == 0.0;
      assert Rate(it) * 0.0 == 0.0;
    }
  }

  /** `(a / 100) * 100 == a`: the last step of `ItemSharesAddUp`, kept apart
      from the sums. */
  lemma PercentOfHundred(a: real, c: real, t: real, s: real)
    requires c == a / 100.0 && t == 100.0 && s == c * t
    ensures s == a
  {
  }

  /** The shares of one item add up to its amount when the item raises no
      warning and every unchecked entry carries 0%: no money is lost. */
  lemma ItemSharesAddUp<V>(it: ItemView, friends: map<int, V>)
    requires friends.Keys == it.participants.Keys
    requires !Warns(it)
    requires forall f :: f in it.participants && !it.participants[f].checked ==>
               PercentageTerm(f, it.participants[f]) == 0.0
    ensures Sum(friends, FriendTerm<V>(it)) == it.amount.GetOr(0.0)
  {
    var ps := it.participants;
    SumCongruent(friends, FriendTerm<V>(it), ps, EntryTerm(it));
    if Contributes(it) {
      PaidTotal(it);
      assert Rate(it) == it.amount.value / 100.0;
      assert Sum(ps, PercentageTerm) == 100.0;
      PercentOfHundred(it.amount.value, Rate(it), Sum(ps, PercentageTerm), Sum(ps, EntryTerm(it)));
    } else {
      assert it.amount.GetOr(0.0) == 0.0;
      SumZero(ps, EntryTerm(it));
    }
  }

  /** Taking one more item into account adds that item's share to every
      friend's running total: the step of calculate's loop over the items. */
  lemma RawSharesStep(ledger: map<int, ItemView>, done: set<int>, i: int)
    requires i in ledger && i !in done
    ensures forall f :: Sum(Restrict(ledger, done + {i}), ShareTerm(f))
                     == Sum(Restrict(ledger, done), ShareTerm(f)) + ItemShare(ledger[i], f)
  {
    var before := Restrict(ledger, done);
    assert Restrict(ledger, done + {i}) == before[i := ledger[i]];
    forall f
      ensures Sum(before[i := ledger[i]], ShareTerm(f)) == Sum(before, ShareTerm(f)) + ItemShare(ledger[i], f)
    {
      SumInsert(before, ShareTerm(f), i, ledger[i]);
    }
  }

  /** Taking one more item into account raises the warning exactly when that
      item warns or an earlier one did. */
  lemma WarningStep(ledger: map<int, ItemView>, done: set<int>, i: int)
    requires i in ledger
    ensures NeedsWarning(Restrict(ledger, done + {i}))
        <==> NeedsWarning(Restrict(ledger, done)) || Warns(ledger[i])
  {
    var before, after := Restrict(ledger, done), Restrict(ledger, done + {i});
    if Warns(ledger[i]) {
      assert i in after && Warns(after[i]);
    }
    if NeedsWarning(before) {
      var j :| j in before && Warns(before[j]);
      assert j in after && Warns(after[j]);
    }
    if NeedsWarning(after) {
      var j :| j in after && Warns(after[j]);
      if j != i {
        assert j in before && Warns(before[j]);
      }
    }
  }

  /** With no item taken into account, nobody has a raw share and nothing warns. */
  lemma RawSharesNone(ledger: map<int, ItemView>)
    ensures forall f :: Sum(Restrict(ledger, {}), ShareTerm(f)) == 0.0
    ensures !NeedsWarning(Restrict(ledger, {}))
  {
    assert Restrict(ledger, {}) == map[];
  }

  /** Every unchecked entry carries 0%, as the page sets it when the box of
      an entry is cleared. */
  predicate UncheckedAtZero(ledger: map<int, ItemView>) {
    forall i, f :: i in ledger && f in ledger[i].participants && !ledger[i].participants[f].checked ==>
      PercentageTerm(f, ledger[i].participants[f]) == 0.0
  }

  /** The grid of raw shares: friend `f`'s share of item `i`. */
  function ShareGrid(ledger: map<int, ItemView>): (int, int) -> real {
    (f: int, i: int) => if i in ledger then ItemShare(ledger[i], f) else 0.0
  }

  /** When no item raises the warning, every item has an entry for exactly the
      friends, and every unchecked entry carries 0%, the raw shares add up to
      the subtotal. */
  lemma RawSharesAddUp(friendIds: set<int>, ledger: map<int, ItemView>)
    requires InStep(ledger, friendIds)
    requires !NeedsWarning(ledger)
    requires UncheckedAtZero(ledger)
    ensures Sum(RawShares(friendIds, ledger), Value) == SubTotal(ledger)
  {
    var shares := RawShares(friendIds, ledger);
    var grid := ShareGrid(ledger);
    forall f | f in shares
      ensures Value(f, shares[f]) == RowSums<real, ItemView>(ledger, grid)(f, shares[f])
    {
      SumCongruent(ledger, ShareTerm(f), ledger, Row<ItemView>(grid, f));
    }
    SumCongruent(shares, Value, shares, RowSums<real, ItemView>(ledger, grid));
    SumSwap(shares, ledger, grid);
    forall i | i in ledger
      ensures ColumnSums<real, ItemView>(shares, grid)(i, ledger[i]) == AmountTerm(i, ledger[i])
    {
      assert !Warns(ledger[i]);
      SumCongruent(shares, Column<real>(grid, i), shares, FriendTerm<real>(ledger[i]));
      ItemSharesAddUp(ledger[i], shares);
    }
    SumCongruent(ledger, ColumnSums<real, ItemView>(shares, grid), ledger, AmountTerm);
  }

  // ---------------------------------------------------------------------
  // showResult

  /** What a friend with raw share `share` owes when the raw shares add up to
      `shareSum`: the grand total in proportion to the share, and 0 when the
      shares add up to 0. */
  function Owed(total: real, share: real, shareSum: real): (o: real)
    ensures shareSum == 0.0 ==> o == 0.0
    ensures shareSum != 0.0 ==> o * shareSum == total * share
  {
    if shareSum == 0.0 then 0.0 else total * share / shareSum
  }

  /** The amount owed by each friend. A friend without a raw share is shown
      as owing 0 (the division yields NaN). */
  function OwedAmounts(friendIds: set<int>, total: real, shares: map<int, real>): (owed: map<int, real>)
    ensures owed.Keys == friendIds
    ensures forall f :: f in friendIds && f !in shares ==> owed[f] == 0.0
  {
    var shareSum := Sum(shares, Value);
    map f | f in friendIds :: if f in shares then Owed(total, shares[f], shareSum) else 0.0
  }

  /** The term `c * v` of an entry. */
  function Scaled(c: real): (int, real) -> real {
    (k: int, v: real) => c * v
  }

  /** `total * share / shareSum == (total / shareSum) * share`, kept apart
      from the sums of `OwedEntry`. */
  lemma OwedArithmetic(total: real, share: real, shareSum: real, c: real)
    requires shareSum != 0.0 && c == total / shareSum
    ensures Owed(total, share, shareSum) == c * share
  {
  }

  /** `(total / shareSum) * shareSum == total`, kept apart from the sums of
      `ScaledTotal`. */
  lemma ScaledBack(total: real, shareSum: real, c: real, s: real)
    requires shareSum != 0.0 && c == total / shareSum && s == c * shareSum
    ensures s == total
  {
  }

  /** When the raw shares do not add up to 0, the amounts owed add up to the
      grand total. */
  lemma OwedAddsUp(friendIds: set<int>, total: real, shares: map<int, real>)
    requires shares.Keys == friendIds
    requires Sum(shares, Value) != 0.0
    ensures Sum(OwedAmounts(friendIds, total, shares), Value) == total
  {
    var owed := OwedAmounts(friendIds, total, shares);
    var c := total / Sum(shares, Value);
    OwedTerms(friendIds, total, shares);
    SumCongruent(owed, Value, shares, Scaled(c));
    ScaledTotal(shares, total, c);
  }

  /** Scaling the shares by `total / shareSum` makes them add up to `total`. */
  lemma ScaledTotal(shares: map<int, real>, total: real, c: real)
    requires Sum(shares, Value) != 0.0 && c == total / Sum(shares, Value)
    ensures Sum(shares, Scaled(c)) == total
  {
    ScaledValues(shares, c);
    ScaledBack(total, Sum(shares, Value), c, Sum(shares, Scaled(c)));
  }

  /** Each amount owed is the share scaled by `total / shareSum`. */
  lemma OwedTerms(friendIds: set<int>, total: real, shares: map<int, real>)
    requires shares.Keys == friendIds
    requires Sum(shares, Value) != 0.0
    ensures var owed := OwedAmounts(friendIds, total, shares);
            forall f :: f in owed ==> Value(f, owed[f]) == Scaled(total / Sum(shares, Value))(f, shares[f])
  {
    forall f | f in friendIds
      ensures Value(f, OwedAmounts(friendIds, total, shares)[f]) == Scaled(total / Sum(shares, Value))(f, shares[f])
    {
      OwedEntry(friendIds, total, shares, f);
    }
  }

  /** Friend `f` owes their share scaled by `total / shareSum`. */
  lemma OwedEntry(friendIds: set<int>, total: real, shares: map<int, real>, f: int)
    requires shares.Keys == friendIds && f in friendIds
    requires Sum(shares, Value) != 0.0
    ensures Value(f, OwedAmounts(friendIds, total, shares)[f]) == Scaled(total / Sum(shares, Value))(f, shares[f])
  {
    var shareSum := Sum(shares, Value);
    var c := total / shareSum;
    assert OwedAmounts(friendIds, total, shares)[f] == Owed(total, shares[f], shareSum);
    OwedArithmetic(total, shares[f], shareSum, c);
  }

  /** Scaling every value scales the sum. */
  lemma ScaledValues(shares: map<int, real>, c: real)
    ensures Sum(shares, Scaled(c)) == c * Sum(shares, Value)
  {
    forall k | k in shares
      ensures Scaled(c)(k, shares[k]) == c * Value(k, shares[k])
    {
    }
    SumScale(shares, Value, Scaled(c), c);
  }

  /** When the raw shares add up to 0, every friend is shown as owing 0. */
  lemma OwedZeroWhenNoShares(friendIds: set<int>, total: real, shares: map<int, real>)
    requires Sum(shares, Value) == 0.0
    ensures forall f :: f in friendIds ==> OwedAmounts(friendIds, total, shares)[f] == 0.0
  {
  }

  /** The whole bill: when no item raises the warning, every item has an entry
      for exactly the friends, unchecked entries carry 0%, and the item amounts
      do not add up to 0, what the friends are shown to owe adds up to the
      grand total. */
  lemma BillAddsUp(friendIds: set<int>, entered: Option<real>, ledger: map<int, ItemView>)
    requires InStep(ledger, friendIds)
    requires !NeedsWarning(ledger)
    requires UncheckedAtZero(ledger)
    requires SubTotal(ledger) != 0.0
    ensures Sum(OwedAmounts(friendIds, GrandTotal(entered, ledger), RawShares(friendIds, ledger)), Value)
         == GrandTotal(entered, ledger)
  {
    RawSharesAddUp(friendIds, ledger);
    OwedAddsUp(friendIds, GrandTotal(entered, ledger), RawShares(friendIds, ledger));
  }

  // ---------------------------------------------------------------------
  // showResult as written: the display of a division by a zero sum

  /** What showResult displays for one friend: a number, or "Infinity" /
      "-Infinity" for a non-zero amount divided by a zero sum. */
  datatype Shown = Amount(value: real) | Infinite(negative: bool)

  /** The display of `total * share / shareSum` as showResult computes it in
      floating point: a zero sum gives NaN (shown as 0) when the numerator is
      0, and an infinity of the numerator's sign otherwise. */
  function ShownAsWritten(total: real, share: real, shareSum: real): (d: Shown)
    ensures d.Infinite? <==> shareSum == 0.0 && total * share != 0.0
    ensures d.Amount? ==> d.value == Owed(total, share, shareSum)
  {
    if shareSum != 0.0 then Amount(total * share / shareSum)
    else if total * share == 0.0 then Amount(0.0)
    else Infinite(total * share < 0.0)
  }

  /** A bill whose raw shares cancel out: a charge of 100 paid by friend 1 and
      a refund of 100 (amount -100) taken by friend 2. */
  function CancellingLedger(): map<int, ItemView> {
    map[1 := ItemView(Some(100.0), map[1 := Share(Some(100.0), true), 2 := Share(Some(0.0), true)]),
        2 := ItemView(Some(-100.0), map[1 := Share(Some(0.0), true), 2 := Share(Some(100.0), true)])]
  }

  /** An item of amount `a` whose whole 100% is on friend `payer` of the two
      friends 1 and 2 is charged `a` to that friend and 0 to the other. */
  lemma OnePayer(a: real, payer: int)
    requires a != 0.0 && (payer == 1 || payer == 2)
    ensures var it := ItemView(Some(a), map[1 := Share(Some(if payer == 1 then 100.0 else 0.0), true),
                                            2 := Share(Some(if payer == 2 then 100.0 else 0.0), true)]);
            && Contributes(it)
            && ItemShare(it, payer) == a && ItemShare(it, 3 - payer) == 0.0
  {
    var s1 := Share(Some(if payer == 1 then 100.0 else 0.0), true);
    var s2 := Share(Some(if payer == 2 then 100.0 else 0.0), true);
    var it := ItemView(Some(a), map[1 := s1, 2 := s2]);
    SumPair(PercentageTerm, 1, s1, 2, s2);
    assert TotalPercentage(it.participants) == 100.0;
    assert PercentageTerm(payer, it.participants[payer]) == 100.0;
    assert PercentageTerm(3 - payer, it.participants[3 - payer]) == 0.0;
  }

  /** Both items of the cancelling bill are charged, and each is charged to
      one friend only. */
  lemma CancellingItems()
    ensures var ledger := CancellingLedger();
            && Contributes(ledger[1]) && Contributes(ledger[2])
            && ItemShare(ledger[1], 1) == 100.0 && ItemShare(ledger[1], 2) == 0.0
            && ItemShare(ledger[2], 1) == 0.0 && ItemShare(ledger[2], 2) == -100.0
  {
    OnePayer(100.0, 1);
    OnePayer(-100.0, 2);
  }

  /** The raw shares of the cancelling bill are 100 and -100. */
  lemma CancellingShares()
    ensures RawShares({1, 2}, CancellingLedger()) == map[1 := 100.0, 2 := -100.0]
  {
    var ledger := CancellingLedger();
    CancellingItems();
    SumPair(ShareTerm(1), 1, ledger[1], 2, ledger[2]);
    SumPair(ShareTerm(2), 1, ledger[1], 2, ledger[2]);
    assert ledger == map[1 := ledger[1], 2 := ledger[2]];
  }

  /** With an entered total of 50 on the cancelling bill, the raw shares are
      100 and -100 and add up to 0, so friend 1 is displayed as owing
      "Infinity", while the corrected `OwedAmounts` shows 0. */
  lemma InfinityShownWhenSharesCancel()
    ensures var ledger := CancellingLedger();
            var shares := RawShares({1, 2}, ledger);
            var total := GrandTotal(Some(50.0), ledger);
            && Sum(shares, Value) == 0.0
            && ShownAsWritten(total, shares[1], Sum(shares, Value)) == Infinite(false)
            && OwedAmounts({1, 2}, total, shares)[1] == 0.0
  {
    CancellingShares();
    SumPair(Value, 1, 100.0, 2, -100.0);
  }
}
