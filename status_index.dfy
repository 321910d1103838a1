/** The swap-remove status index of the refund contract.

    Three families of storage entries make up the index:
      - RefundsByStatus(status, position) -> refund id   (`slots`)
      - RefundStatusCount(status) -> count               (`counts`, absent means 0)
      - RefundStatusIndex(refund id) -> position         (`pos`, one map for all statuses)
    `Add` and `Remove` give the effect of the contract's two private
    helpers on these entries; the lemmas state what they do to the list of
    ids of each status, and that they keep the index consistent with the
    refunds' stored statuses. */
module StatusIndex {
  import opened RefundTypes

  datatype Index = Index(
    slots: map<(RefundStatus, nat), nat>,
    counts: map<RefundStatus, nat>,
    pos: map<nat, nat>)

  /** The stored count of a status, 0 when it was never written. */
  function Count(ix: Index, s: RefundStatus): nat
  {
    if s in ix.counts then ix.counts[s] else 0
  }

  function Slot(ix: Index, s: RefundStatus, i: int): nat
  {
    if i >= 0 && (s, i) in ix.slots then ix.slots[(s, i)] else 0
  }

  /** The ids filed under status `s`, in slot order 0 .. count-1. */
  function List(ix: Index, s: RefundStatus): seq<nat>
  {
    seq(Count(ix, s), i => Slot(ix, s, i))
  }

  function TotalCount(ix: Index): nat
  {
    Count(ix, Requested) + Count(ix, Approved) + Count(ix, Rejected) + Count(ix, Processed)
  }

  /** `add_to_status_index`: the id goes to slot `count`, the count grows by
      one and the reverse entry records the slot. */
  function Add(ix: Index, s: RefundStatus, id: nat): Index
  {
    var count := Count(ix, s);
    Index(ix.slots[(s, count) := id], ix.counts[s := count + 1], ix.pos[id := count])
  }

  /** `remove_from_status_index`: fails with InvalidStatus, writing nothing,
      when the count is 0, when the id has no reverse entry, or when the last
      slot is empty although it has to be moved; otherwise the last id moves
      into the removed id's slot, the last slot and the id's reverse entry
      are deleted, and the count drops by one. */
  function Remove(ix: Index, s: RefundStatus, id: nat): Result<Index>
  {
    var count := Count(ix, s);
    if count == 0 then Err(InvalidStatus)
    else if id !in ix.pos then Err(InvalidStatus)
    else
      var index := ix.pos[id];
      var last := count - 1;
      if index != last && (s, last) !in ix.slots then Err(InvalidStatus)
      else
        var moved :=
          if index != last then
            var lastId := ix.slots[(s, last)];
            Index(ix.slots[(s, index) := lastId], ix.counts, ix.pos[lastId := index])
          else ix;
        Ok(Index(moved.slots - {(s, last)}, moved.counts[s := last], moved.pos - {id}))
  }

  /** Swap-remove on a list: the last element takes the place of element
      `k`, and the list loses its last position. */
  function SwapRemove(l: seq<nat>, k: nat): seq<nat>
    requires k < |l|
  {
    l[k := l[|l| - 1]][..|l| - 1]
  }

  function Elems(l: seq<nat>): set<nat>
  {
    set x | x in l
  }

  ghost predicate Distinct(l: seq<nat>)
  {
    forall i, j :: 0 <= i < j < |l| ==> l[i] != l[j]
  }

  /** The slots of each status are exactly positions 0 .. count-1. */
  ghost predicate Dense(ix: Index)
  {
    && (forall s, i :: (s, i) in ix.slots ==> i < Count(ix, s))
    && (forall s, i :: 0 <= i < Count(ix, s) ==> (s, i) in ix.slots)
  }

  /** Every slot holds a refund of that slot's status, whose reverse entry
      is that slot. */
  ghost predicate SlotsAgree(ix: Index, st: map<nat, RefundStatus>)
  {
    forall s, i :: (s, i) in ix.slots ==>
      var x := ix.slots[(s, i)];
      x in st && st[x] == s && x in ix.pos && ix.pos[x] == i
  }

  /** Every refund, and nothing else, has a reverse entry, and sits in the
      slot it names under the refund's own status. */
  ghost predicate PosAgree(ix: Index, st: map<nat, RefundStatus>)
  {
    && ix.pos.Keys == st.Keys
    && (forall id :: id in st ==>
          (st[id], ix.pos[id]) in ix.slots && ix.slots[(st[id], ix.pos[id])] == id)
  }

  /** The index agrees with `st`, the status of every stored refund. */
  ghost predicate Inv(ix: Index, st: map<nat, RefundStatus>)
  {
    Dense(ix) && SlotsAgree(ix, st) && PosAgree(ix, st)
  }

  /** The empty index agrees with an empty ledger. */
  lemma EmptyInv()
    ensures Inv(Index(map[], map[], map[]), map[])
    ensures forall s :: List(Index(map[], map[], map[]), s) == []
    ensures TotalCount(Index(map[], map[], map[])) == 0
  {
  }

  /** Each stored refund's id appears exactly once in the whole index: in
      the list of its current status, at the position its reverse entry
      records, and in no list of another status. */
  lemma Placement(ix: Index, st: map<nat, RefundStatus>, s: RefundStatus, id: nat)
    requires Inv(ix, st)
    ensures id in List(ix, s) <==> id in st && st[id] == s
    ensures id in st ==> ix.pos[id] < Count(ix, st[id]) && List(ix, st[id])[ix.pos[id]] == id
    ensures Distinct(List(ix, s))
  {
    var l := List(ix, s);
    if id in l {
      var i :| 0 <= i < |l| && l[i] == id;
      assert (s, i) in ix.slots;
    }
    if id in st {
      assert (st[id], ix.pos[id]) in ix.slots;
      assert List(ix, st[id])[ix.pos[id]] == id;
    }
    forall i, j | 0 <= i < j < |l|
      ensures l[i] != l[j]
    {
      assert (s, i) in ix.slots && (s, j) in ix.slots;
    }
  }

  /** The stored count of a status is the number of refunds in that status. */
  lemma CountIsCardinality(ix: Index, st: map<nat, RefundStatus>, s: RefundStatus)
    requires Inv(ix, st)
    ensures Count(ix, s) == |set id | id in st && st[id] == s|
  {
    var l := List(ix, s);
    Placement(ix, st, s, 0);
    var members := set id | id in st && st[id] == s;
    forall id
      ensures id in members <==> id in l
    {
      Placement(ix, st, s, id);
    }
    assert members == Elems(l);
    DistinctCard(l);
  }

  lemma {:induction false} DistinctCard(l: seq<nat>)
    requires Distinct(l)
    ensures |Elems(l)| == |l|
  {
    if l != [] {
      var rest := l[1..];
      assert Distinct(rest);
      DistinctCard(rest);
      assert l[0] !in rest by {
        forall j | 0 <= j < |rest|
          ensures rest[j] != l[0]
        {
          assert rest[j] == l[j + 1];
        }
      }
      var tail := Elems(rest);
      assert Elems(l) == tail + {l[0]};
      assert l[0] !in tail;
      assert |tail + {l[0]}| == |tail| + 1;
    } else {
      assert Elems(l) == {};
    }
  }

  lemma AddDense(ix: Index, s: RefundStatus, id: nat)
    requires Dense(ix)
    ensures Dense(Add(ix, s, id))
  {
  }

  lemma AddSlotsAgree(ix: Index, st: map<nat, RefundStatus>, s: RefundStatus, id: nat)
    requires Dense(ix) && SlotsAgree(ix, st) && id !in st
    ensures SlotsAgree(Add(ix, s, id), st[id := s])
  {
    var ix' := Add(ix, s, id);
    var st' := st[id := s];
    var count := Count(ix, s);
    forall t, i | (t, i) in ix'.slots
      ensures var x := ix'.slots[(t, i)]; x in st' && st'[x] == t && x in ix'.pos && ix'.pos[x] == i
    {
      if (t, i) != (s, count) {
        assert (t, i) in ix.slots;
      }
    }
  }

  lemma AddPosAgree(ix: Index, st: map<nat, RefundStatus>, s: RefundStatus, id: nat)
    requires Dense(ix) && PosAgree(ix, st) && id !in st
    ensures PosAgree(Add(ix, s, id), st[id := s])
  {
    var ix' := Add(ix, s, id);
    var st' := st[id := s];
    forall x | x in st'
      ensures (st'[x], ix'.pos[x]) in ix'.slots && ix'.slots[(st'[x], ix'.pos[x])] == x
    {
      if x != id {
        assert (st[x], ix.pos[x]) in ix.slots;
      }
    }
  }

  lemma AddLists(ix: Index, s: RefundStatus, id: nat)
    ensures List(Add(ix, s, id), s) == List(ix, s) + [id]
    ensures forall t :: t != s ==> List(Add(ix, s, id), t) == List(ix, t)
    ensures TotalCount(Add(ix, s, id)) == TotalCount(ix) + 1
  {
    assert List(Add(ix, s, id), s) == List(ix, s) + [id];
  }

  /** Adding a new id files it at the end of its status's list and keeps
      the index consistent; the other lists stay as they were. */
  lemma AddKeepsInv(ix: Index, st: map<nat, RefundStatus>, s: RefundStatus, id: nat)
    requires Inv(ix, st)
    requires id !in st
    ensures Inv(Add(ix, s, id), st[id := s])
    ensures Add(ix, s, id).pos[id] == Count(ix, s)
    ensures List(Add(ix, s, id), s) == List(ix, s) + [id]
    ensures forall t :: t != s ==> List(Add(ix, s, id), t) == List(ix, t)
    ensures TotalCount(Add(ix, s, id)) == TotalCount(ix) + 1
  {
    AddDense(ix, s, id);
    AddSlotsAgree(ix, st, s, id);
    AddPosAgree(ix, st, s, id);
    AddLists(ix, s, id);
  }

  /** The state a successful removal of `id`, at slot `k` of a status
      whose last slot is `last`, leaves behind. */
  function SwapOut(ix: Index, s: RefundStatus, id: nat, k: nat, last: nat): Index
    requires (s, last) in ix.slots
  {
    var lastId := ix.slots[(s, last)];
    Index(ix.slots[(s, k) := lastId] - {(s, last)}, ix.counts[s := last], ix.pos[lastId := k] - {id})
  }

  lemma RemoveIsSwapOut(ix: Index, st: map<nat, RefundStatus>, s: RefundStatus, id: nat)
    requires Inv(ix, st)
    requires id in st && st[id] == s
    ensures ix.pos[id] < Count(ix, s)
    ensures (s, Count(ix, s) - 1) in ix.slots
    ensures Remove(ix, s, id) == Ok(SwapOut(ix, s, id, ix.pos[id], Count(ix, s) - 1))
  {
    var k := ix.pos[id];
    assert (s, k) in ix.slots;
    var last := Count(ix, s) - 1;
    assert (s, last) in ix.slots;
    if k == last {
      assert ix.slots[(s, k) := ix.slots[(s, last)]] == ix.slots;
      assert ix.pos[ix.slots[(s, last)] := k] == ix.pos;
    }
  }

  lemma SwapOutDense(ix: Index, s: RefundStatus, id: nat, k: nat, last: nat)
    requires Dense(ix) && Count(ix, s) == last + 1 && k <= last
    ensures (s, last) in ix.slots
    ensures Dense(SwapOut(ix, s, id, k, last))
  {
    var ix' := SwapOut(ix, s, id, k, last);
    forall t, i | (t, i) in ix'.slots
      ensures i < Count(ix', t)
    {
      if t == s && i != k {
        assert (t, i) in ix.slots;
      }
    }
  }

  lemma SwapOutSlotsAgree(ix: Index, st: map<nat, RefundStatus>, s: RefundStatus, id: nat, k: nat, last: nat)
    requires Dense(ix) && SlotsAgree(ix, st) && PosAgree(ix, st)
    requires Count(ix, s) == last + 1 && id in st && st[id] == s && ix.pos[id] == k
    ensures (s, last) in ix.slots
    ensures SlotsAgree(SwapOut(ix, s, id, k, last), st - {id})
  {
    var ix' := SwapOut(ix, s, id, k, last);
    var st' := st - {id};
    assert (s, k) in ix.slots;
    var lastId := ix.slots[(s, last)];
    forall t, i | (t, i) in ix'.slots
      ensures var x := ix'.slots[(t, i)]; x in st' && st'[x] == t && x in ix'.pos && ix'.pos[x] == i
    {
      if (t, i) != (s, k) {
        assert (t, i) in ix.slots;
        var x := ix.slots[(t, i)];
        assert x == id ==> (t, i) == (s, k);
        assert x == lastId ==> (t, i) == (s, last);
      }
    }
  }

  lemma SwapOutPosAgree(ix: Index, st: map<nat, RefundStatus>, s: RefundStatus, id: nat, k: nat, last: nat)
    requires Dense(ix) && SlotsAgree(ix, st) && PosAgree(ix, st)
    requires Count(ix, s) == last + 1 && id in st && st[id] == s && ix.pos[id] == k
    ensures (s, last) in ix.slots
    ensures PosAgree(SwapOut(ix, s, id, k, last), st - {id})
  {
    var ix' := SwapOut(ix, s, id, k, last);
    var st' := st - {id};
    assert (s, k) in ix.slots;
    var lastId := ix.slots[(s, last)];
    forall x | x in st'
      ensures (st'[x], ix'.pos[x]) in ix'.slots && ix'.slots[(st'[x], ix'.pos[x])] == x
    {
      assert (st[x], ix.pos[x]) in ix.slots;
      if x != lastId {
        assert (st[x], ix.pos[x]) != (s, last);
        assert (st[x], ix.pos[x]) != (s, k);
      }
    }
  }

  lemma SwapOutLists(ix: Index, s: RefundStatus, id: nat, k: nat, last: nat)
    requires Dense(ix) && Count(ix, s) == last + 1 && k <= last
    ensures (s, last) in ix.slots
    ensures List(SwapOut(ix, s, id, k, last), s) == SwapRemove(List(ix, s), k)
    ensures forall t :: t != s ==> List(SwapOut(ix, s, id, k, last), t) == List(ix, t)
    ensures TotalCount(SwapOut(ix, s, id, k, last)) == TotalCount(ix) - 1
  {
    assert List(SwapOut(ix, s, id, k, last), s) == SwapRemove(List(ix, s), k);
  }

  /** Removing a refund from the list of its own status succeeds, keeps the
      index consistent, moves only the former last id (into the removed
      id's slot, updating its reverse entry), and leaves the other lists as
      they were. */
  lemma RemoveKeepsInv(ix: Index, st: map<nat, RefundStatus>, s: RefundStatus, id: nat)
    requires Inv(ix, st)
    requires id in st && st[id] == s
    ensures ix.pos[id] < Count(ix, s)
    ensures Remove(ix, s, id).Ok?
    ensures Inv(Remove(ix, s, id).value, st - {id})
    ensures List(Remove(ix, s, id).value, s) == SwapRemove(List(ix, s), ix.pos[id])
    ensures forall t :: t != s ==> List(Remove(ix, s, id).value, t) == List(ix, t)
    ensures TotalCount(Remove(ix, s, id).value) == TotalCount(ix) - 1
    ensures var lastId := List(ix, s)[Count(ix, s) - 1];
      Remove(ix, s, id).value.pos == ix.pos[lastId := ix.pos[id]] - {id}
  {
    RemoveIsSwapOut(ix, st, s, id);
    var k, last := ix.pos[id], Count(ix, s) - 1;
    SwapOutDense(ix, s, id, k, last);
    SwapOutSlotsAgree(ix, st, s, id, k, last);
    SwapOutPosAgree(ix, st, s, id, k, last);
    SwapOutLists(ix, s, id, k, last);
  }

  /** The index half of a status transition: remove from `from`, then add
      to `to`; the index stays consistent with the new statuses. */
  lemma MoveKeepsInv(ix: Index, st: map<nat, RefundStatus>, id: nat, from: RefundStatus, to: RefundStatus)
    requires Inv(ix, st)
    requires id in st && st[id] == from
    ensures Remove(ix, from, id).Ok?
    ensures Inv(Add(Remove(ix, from, id).value, to, id), st[id := to])
    ensures TotalCount(Add(Remove(ix, from, id).value, to, id)) == TotalCount(ix)
  {
    RemoveKeepsInv(ix, st, from, id);
    var mid := Remove(ix, from, id).value;
    var st' := st - {id};
    AddKeepsInv(mid, st', to, id);
    ReinsertInv(Add(mid, to, id), st, id, to);
  }

  lemma ReinsertInv(ix: Index, st: map<nat, RefundStatus>, id: nat, to: RefundStatus)
    requires Inv(ix, (st - {id})[id := to])
    ensures Inv(ix, st[id := to])
  {
    assert (st - {id})[id := to] == st[id := to];
  }

  /** What a transition does to the lists: the id leaves `from` by
      swap-removal and is appended to `to`; every other list is unchanged,
      and so is the total count. */
  lemma MoveLists(ix: Index, st: map<nat, RefundStatus>, id: nat, from: RefundStatus, to: RefundStatus)
    requires Inv(ix, st)
    requires id in st && st[id] == from && from != to
    ensures ix.pos[id] < Count(ix, from)
    ensures Remove(ix, from, id).Ok?
    ensures var ix' := Add(Remove(ix, from, id).value, to, id);
      && List(ix', from) == SwapRemove(List(ix, from), ix.pos[id])
      && List(ix', to) == List(ix, to) + [id]
      && (forall t :: t != from && t != to ==> List(ix', t) == List(ix, t))
      && TotalCount(ix') == TotalCount(ix)
  {
    RemoveKeepsInv(ix, st, from, id);
    AddLists(Remove(ix, from, id).value, to, id);
  }

  /** Under the invariant, removal fails exactly when the status has no
      entries or the id has no reverse entry; the third failure of the
      source (an empty last slot) cannot happen. */
  lemma RemoveErrors(ix: Index, st: map<nat, RefundStatus>, s: RefundStatus, id: nat)
    requires Inv(ix, st)
    ensures Remove(ix, s, id).Err? <==> Count(ix, s) == 0 || id !in ix.pos
    ensures Remove(ix, s, id).Err? ==> Remove(ix, s, id).error == InvalidStatus
  {
    if Count(ix, s) > 0 {
      assert (s, Count(ix, s) - 1) in ix.slots;
    }
  }

  /** Under the invariant, removing a filed refund from its own status
      always succeeds. */
  lemma RemoveSucceeds(ix: Index, st: map<nat, RefundStatus>, s: RefundStatus, id: nat)
    requires Inv(ix, st)
    requires id in st && st[id] == s
    ensures Remove(ix, s, id).Ok?
  {
    RemoveErrors(ix, st, s, id);
    assert (s, ix.pos[id]) in ix.slots;
  }

  /** Under the invariant, each position below a status's count holds a
      stored refund of that status. */
  lemma SlotFilled(ix: Index, st: map<nat, RefundStatus>, s: RefundStatus, i: nat)
    requires Inv(ix, st) && i < Count(ix, s)
    ensures (s, i) in ix.slots && ix.slots[(s, i)] == List(ix, s)[i]
    ensures List(ix, s)[i] in st && st[List(ix, s)[i]] == s
  {
  }

  /** Swap-removal takes out exactly element `k`: the other elements stay,
      and only the former last element changes position, into slot `k`. */
  lemma {:induction false} SwapRemoveContents(l: seq<nat>, k: nat)
    requires k < |l|
    ensures |SwapRemove(l, k)| == |l| - 1
    ensures multiset(SwapRemove(l, k)) == multiset(l) - multiset{l[k]}
    ensures forall i :: 0 <= i < |l| - 1 && i != k ==> SwapRemove(l, k)[i] == l[i]
    ensures k < |l| - 1 ==> SwapRemove(l, k)[k] == l[|l| - 1]
  {
    var last := |l| - 1;
    var u := l[k := l[last]];
    UpdateMultiset(l, k, l[last]);
    assert u == SwapRemove(l, k) + [l[last]];
    assert multiset(u) == multiset(SwapRemove(l, k)) + multiset{l[last]};
    MultisetCancel(multiset(SwapRemove(l, k)), multiset(l) - multiset{l[k]}, l[last]);
  }

  lemma MultisetCancel(m: multiset<nat>, n: multiset<nat>, x: nat)
    requires m + multiset{x} == n + multiset{x}
    ensures m == n
  {
    assert forall y :: m[y] == (m + multiset{x})[y] - multiset{x}[y];
    assert forall y :: n[y] == (n + multiset{x})[y] - multiset{x}[y];
  }

  lemma UpdateMultiset(l: seq<nat>, k: nat, v: nat)
    requires k < |l|
    ensures multiset(l[k := v]) == multiset(l) - multiset{l[k]} + multiset{v}
  {
    assert l == l[..k] + [l[k]] + l[k + 1..];
    assert l[k := v] == l[..k] + [v] + l[k + 1..];
  }

  /** On a list without duplicates, swap-removal leaves the elements minus
      the removed one, still without duplicates. */
  lemma SwapRemoveDistinct(l: seq<nat>, k: nat)
    requires k < |l| && Distinct(l)
    ensures Distinct(SwapRemove(l, k))
    ensures forall x :: x in SwapRemove(l, k) <==> x in l && x != l[k]
  {
    SwapRemoveContents(l, k);
    var r := SwapRemove(l, k);
    forall x
      ensures x in r <==> x in l && x != l[k]
    {
      assert x in r <==> multiset(r)[x] > 0;
      assert x in l <==> multiset(l)[x] > 0;
      if x == l[k] {
        assert multiset(l)[x] == 1 by {
          DistinctCount(l, k);
        }
      }
    }
  }

  lemma {:induction false} DistinctCount(l: seq<nat>, k: nat)
    requires k < |l| && Distinct(l)
    ensures multiset(l)[l[k]] == 1
  {
    if k == 0 {
      assert l == [l[0]] + l[1..];
      assert l[0] !in l[1..];
    } else {
      assert l == [l[0]] + l[1..];
      assert l[1..][k - 1] == l[k];
      DistinctCount(l[1..], k - 1);
    }
  }
}
