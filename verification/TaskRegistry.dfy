/** Lists of task identifiers: what `TaskManager` keeps in `task_order_` and hands out in pages. */
module TaskRegistry {
  import opened Common

  /** The identifiers of `order` that are in `alive`, in order. */
  function Keep(order: seq<string>, alive: set<string>): seq<string> {
    if order == [] then []
    else
      var id := order[|order| - 1];
      Keep(order[..|order| - 1], alive) + if id in alive then [id] else []
  }

  predicate Distinct(order: seq<string>) {
    forall i, j :: 0 <= i < j < |order| ==> order[i] != order[j]
  }

  /** `order` lists each identifier of `keys` exactly once. */
  ghost predicate ListsOnce(order: seq<string>, keys: set<string>) {
    Distinct(order) && forall id :: id in order <==> id in keys
  }

  lemma KeepAppend(order: seq<string>, id: string, alive: set<string>)
    ensures Keep(order + [id], alive) == Keep(order, alive) + if id in alive then [id] else []
  {
    assert (order + [id])[..|order|] == order;
  }

  function EraseAt(order: seq<string>, i: nat): (r: seq<string>)
    requires i < |order|
    ensures |r| == |order| - 1
  {
    order[..i] + order[i + 1..]
  }

  /** `now` with `i` entries passed, when `k` entries of `order` have been dealt with. */
  predicate PassedOver(now: seq<string>, i: nat, order: seq<string>, k: nat, alive: set<string>) {
    && k <= |order|
    && i == |Keep(order[..k], alive)|
    && now == Keep(order[..k], alive) + order[k..]
  }

  /** One more entry: passed over when it stays, erased when not. */
  lemma PassOne(now: seq<string>, i: nat, order: seq<string>, k: nat, alive: set<string>)
    requires PassedOver(now, i, order, k, alive) && i < |now|
    ensures k < |order| && now[i] == order[k]
    ensures if order[k] in alive then PassedOver(now, i + 1, order, k + 1, alive)
            else PassedOver(EraseAt(now, i), i, order, k + 1, alive)
  {
    assert order[..k + 1] == order[..k] + [order[k]];
    KeepAppend(order[..k], order[k], alive);
  }

  /** The stale ones of the first `k` entries. */
  function StaleAmong(stale: set<string>, order: seq<string>, k: nat): (r: set<string>)
    requires k <= |order|
    ensures r <= stale
  {
    stale * Members(order[..k])
  }

  /** What is left when one more entry has been dealt with. */
  lemma EraseOne<V>(before: map<string, V>, stale: set<string>, order: seq<string>, k: nat)
    requires k < |order|
    ensures var gone, more, id := StaleAmong(stale, order, k), StaleAmong(stale, order, k + 1), order[k];
            if id in stale && id in before - gone then
              before - more == (before - gone) - {id} && |more| == |gone| + 1
            else
              before - more == before - gone && (id in before || id !in stale ==> |more| == |gone|)
  {
    assert order[..k + 1] == order[..k] + [order[k]];
    MembersAppend(order[..k], order[k]);
    var gone, id := StaleAmong(stale, order, k), order[k];
    if id in stale {
      assert StaleAmong(stale, order, k + 1) == gone + {id};
    } else {
      assert StaleAmong(stale, order, k + 1) == gone;
    }
  }

  /** A list, a map and a count in the middle of the clean-up: `k` entries of `order` have been dealt with,
      `i` of them stay. */
  ghost predicate CleanedUpTo<V>(now: seq<string>, left: map<string, V>, removed: nat, i: nat, order: seq<string>,
                                 before: map<string, V>, stale: set<string>, k: nat)
  {
    && k <= |order| && PassedOver(now, i, order, k, before.Keys - stale)
    && left == before - StaleAmong(stale, order, k) && removed == |StaleAmong(stale, order, k)|
  }

  lemma CleanedNothing<V>(order: seq<string>, before: map<string, V>, stale: set<string>)
    ensures CleanedUpTo(order, before, 0, 0, order, before, stale, 0)
  {
    assert order[..0] == [] && order[0..] == order;
    assert StaleAmong(stale, order, 0) == {} && before - {} == before;
  }

  /** The next entry, as long as there is one: without a task, stale, or neither. */
  lemma CleanNext<V>(now: seq<string>, left: map<string, V>, removed: nat, i: nat, order: seq<string>,
                     before: map<string, V>, stale: set<string>, k: nat)
    requires CleanedUpTo(now, left, removed, i, order, before, stale, k) && i < |now| && stale <= before.Keys
    ensures k < |order| && (now[i] in left ==> now[i] in before && left[now[i]] == before[now[i]])
    ensures now[i] !in left ==> CleanedUpTo(EraseAt(now, i), left, removed, i, order, before, stale, k + 1)
    ensures now[i] in left && now[i] in stale ==>
              CleanedUpTo(EraseAt(now, i), left - {now[i]}, removed + 1, i, order, before, stale, k + 1)
    ensures now[i] in left && now[i] !in stale ==> CleanedUpTo(now, left, removed, i + 1, order, before, stale, k + 1)
  {
    hide PassedOver, StaleAmong, EraseAt;
    PassOne(now, i, order, k, before.Keys - stale);
    EraseOne(before, stale, order, k);
  }

  lemma CleanedAll<V>(now: seq<string>, left: map<string, V>, removed: nat, i: nat, order: seq<string>,
                      before: map<string, V>, stale: set<string>, k: nat)
    requires CleanedUpTo(now, left, removed, i, order, before, stale, k) && i >= |now| && stale <= before.Keys
    ensures now == Keep(order, before.Keys - stale)
    ensures left == before - stale * Members(order) && removed == |stale * Members(order)|
    ensures ListsOnce(order, before.Keys) ==> left == before - stale && ListsOnce(now, left.Keys)
  {
    assert k == |order| && order[..k] == order && order[k..] == [];
    if ListsOnce(order, before.Keys) {
      KeepListsOnce(order, before.Keys, stale);
      assert stale * Members(order) == stale;
      assert left.Keys == before.Keys - stale;
    }
    hide Keep, ListsOnce;
  }

  lemma {:induction false} KeepMembers(order: seq<string>, alive: set<string>)
    ensures forall id :: id in Keep(order, alive) <==> id in order && id in alive
    ensures Distinct(order) ==> Distinct(Keep(order, alive))
    decreases |order|
  {
    if order != [] {
      var front, last := order[..|order| - 1], order[|order| - 1];
      assert order == front + [last];
      KeepMembers(front, alive);
      if Distinct(order) {
        assert last !in front;
      }
    }
  }

  lemma {:induction false} KeepAll(order: seq<string>, alive: set<string>)
    requires forall id :: id in order ==> id in alive
    ensures Keep(order, alive) == order
    decreases |order|
  {
    if order != [] {
      var front, last := order[..|order| - 1], order[|order| - 1];
      assert order == front + [last];
      assert last in order;
      KeepAll(front, alive);
    }
  }

  /** Two entries of what is kept stand in the same order in the list. */
  lemma {:induction false} KeepInOrder(order: seq<string>, alive: set<string>, i: nat, j: nat)
    requires i < j < |Keep(order, alive)|
    ensures exists m, n ::
              0 <= m < n < |order| && order[m] == Keep(order, alive)[i] && order[n] == Keep(order, alive)[j]
    decreases |order|
  {
    var front, last := order[..|order| - 1], order[|order| - 1];
    var kept := Keep(front, alive);
    if j < |kept| {
      KeepInOrder(front, alive, i, j);
      var m, n :| 0 <= m < n < |front| && front[m] == kept[i] && front[n] == kept[j];
      assert order[m] == front[m] && order[n] == front[n];
    } else {
      KeepMembers(front, alive);
      assert kept[i] in front;
      var m :| 0 <= m < |front| && front[m] == kept[i];
      assert order[m] == front[m] && order[|order| - 1] == last;
    }
  }

  /** Keeping part of a list that lists each key once still lists each remaining key once. */
  lemma KeepListsOnce(order: seq<string>, keys: set<string>, gone: set<string>)
    requires ListsOnce(order, keys)
    ensures ListsOnce(Keep(order, keys - gone), keys - gone)
  {
    KeepMembers(order, keys - gone);
  }

  // ---------------------------------------------------------------- newest first, in pages

  function NewestFirst(order: seq<string>): seq<string> {
    seq(|order|, i requires 0 <= i < |order| => order[|order| - 1 - i])
  }

  function DropUpTo(s: seq<string>, n: nat): seq<string> {
    if n <= |s| then s[n..] else []
  }

  function TakeUpTo(s: seq<string>, n: nat): seq<string> {
    if n <= |s| then s[..n] else s
  }

  /** `listAllTasks`: skip `offset` entries, drop unknown identifiers, stop at `limit` (0: no limit). */
  function Page(order: seq<string>, keys: set<string>, limit: nat, offset: nat): seq<string> {
    var ids := Keep(DropUpTo(NewestFirst(order), offset), keys);
    if limit == 0 then ids else TakeUpTo(ids, limit)
  }

  /** The first `n` pages of `limit` entries, one after another. */
  function Pages(order: seq<string>, keys: set<string>, limit: nat, n: nat): seq<string>
    decreases n
  {
    if n == 0 then [] else Pages(order, keys, limit, n - 1) + Page(order, keys, limit, (n - 1) * limit)
  }

  lemma PageOfKnown(order: seq<string>, keys: set<string>, limit: nat, offset: nat)
    requires ListsOnce(order, keys) && limit > 0
    ensures Page(order, keys, limit, offset) == TakeUpTo(DropUpTo(NewestFirst(order), offset), limit)
  {
    forall id | id in DropUpTo(NewestFirst(order), offset)
      ensures id in keys
    {
      assert id in order;
    }
    KeepAll(DropUpTo(NewestFirst(order), offset), keys);
  }

  /** A page by its entries: from the newest task, `offset` entries on, at most `limit` of them, or all the
      others when the limit is zero. */
  lemma PageIs(order: seq<string>, keys: set<string>, limit: nat, offset: nat)
    requires ListsOnce(order, keys)
    ensures var page, n := Page(order, keys, limit, offset), |order|;
            && |page| == (if offset >= n then 0 else if limit == 0 || n - offset < limit then n - offset else limit)
            && forall i :: 0 <= i < |page| ==> page[i] == order[n - 1 - offset - i]
  {
    hide Keep, NewestFirst, DropUpTo;
    var newest := DropUpTo(NewestFirst(order), offset);
    NewestFrom(order, offset);
    assert forall i :: 0 <= i < |newest| ==> newest[i] in order;
    assert forall id :: id in newest ==> id in keys;
    hide ListsOnce;
    KeepAll(newest, keys);
  }

  lemma NewestFrom(order: seq<string>, offset: nat)
    ensures var newest, n := DropUpTo(NewestFirst(order), offset), |order|;
            && |newest| == (if offset >= n then 0 else n - offset)
            && forall i :: 0 <= i < |newest| ==> newest[i] == order[n - 1 - offset - i]
  {
  }

  /** Where the listing stops: what follows a full page does not matter. */
  lemma KeepPrefix(order: seq<string>, n: nat, alive: set<string>)
    requires n <= |order|
    ensures |Keep(order[..n], alive)| <= |Keep(order, alive)|
    ensures Keep(order, alive)[..|Keep(order[..n], alive)|] == Keep(order[..n], alive)
    decreases |order|
  {
    if n < |order| {
      var front := order[..|order| - 1];
      assert front[..n] == order[..n];
      KeepPrefix(front, n, alive);
    } else {
      assert order[..n] == order;
    }
  }

  /** What the listing has collected after `it` entries, without a limit. */
  function Listed(order: seq<string>, keys: set<string>, offset: nat, it: nat): seq<string>
    requires it <= |order|
  {
    Keep(DropUpTo(NewestFirst(order)[..it], offset), keys)
  }

  lemma ListedOneMore(order: seq<string>, keys: set<string>, offset: nat, it: nat)
    requires it < |order|
    ensures var id := order[|order| - 1 - it];
            Listed(order, keys, offset, it + 1) ==
            Listed(order, keys, offset, it) + if offset <= it && id in keys then [id] else []
  {
    var seen, id := NewestFirst(order)[..it], order[|order| - 1 - it];
    assert NewestFirst(order)[..it + 1] == seen + [id];
    hide NewestFirst, Keep, DropUpTo;
    DropPush(seen, id, offset);
    if offset <= it {
      KeepAppend(DropUpTo(seen, offset), id, keys);
    }
  }

  lemma DropPush(s: seq<string>, id: string, offset: nat)
    ensures DropUpTo(s + [id], offset) == if offset <= |s| then DropUpTo(s, offset) + [id] else []
    ensures offset > |s| ==> DropUpTo(s, offset) == []
  {
  }

  /** The listing may stop at the end or at a full page: in both cases it has the page. */
  lemma ListedIsPage(order: seq<string>, keys: set<string>, limit: nat, offset: nat, it: nat)
    requires it <= |order|
    ensures Listed(order, keys, offset, 0) == []
    ensures it == |order| && (limit == 0 || |Listed(order, keys, offset, it)| < limit) ==>
              Listed(order, keys, offset, it) == Page(order, keys, limit, offset)
    ensures limit > 0 && |Listed(order, keys, offset, it)| == limit ==>
              Listed(order, keys, offset, it) == Page(order, keys, limit, offset)
  {
    var newest := NewestFirst(order);
    if it == |order| {
      assert newest[..it] == newest;
    }
    if limit > 0 && |Listed(order, keys, offset, it)| == limit {
      assert offset <= it;
      assert newest[..it][offset..] == newest[offset..][..it - offset];
      KeepPrefix(DropUpTo(newest, offset), it - offset, keys);
    }
  }

  /** Consecutive pages put together are the list from its newest entry on, with no gap and no repeat. */
  lemma {:induction false} PagesConcatenate(order: seq<string>, keys: set<string>, limit: nat, n: nat)
    requires ListsOnce(order, keys) && limit > 0
    ensures Pages(order, keys, limit, n) == TakeUpTo(NewestFirst(order), n * limit)
    decreases n
  {
    hide Page, NewestFirst, ListsOnce, DropUpTo;
    if n == 0 {
      assert TakeUpTo(NewestFirst(order), 0) == [];
    } else {
      PagesConcatenate(order, keys, limit, n - 1);
      PagesExtend(order, keys, limit, n, (n - 1) * limit);
      assert n * limit == (n - 1) * limit + limit;
    }
  }

  lemma PagesExtend(order: seq<string>, keys: set<string>, limit: nat, n: nat, done: nat)
    requires ListsOnce(order, keys) && limit > 0 && n > 0 && done == (n - 1) * limit
    requires Pages(order, keys, limit, n - 1) == TakeUpTo(NewestFirst(order), done)
    ensures Pages(order, keys, limit, n) == TakeUpTo(NewestFirst(order), done + limit)
  {
    hide Page, NewestFirst, ListsOnce, DropUpTo, TakeUpTo;
    PageOfKnown(order, keys, limit, done);
    TakeMore(NewestFirst(order), done, limit);
  }

  lemma TakeMore(all: seq<string>, done: nat, limit: nat)
    ensures TakeUpTo(all, done) + TakeUpTo(DropUpTo(all, done), limit) == TakeUpTo(all, done + limit)
  {
  }

  /** Enough pages give every task, newest first, each once. */
  lemma PagesAreComplete(order: seq<string>, keys: set<string>, limit: nat, n: nat)
    requires ListsOnce(order, keys) && limit > 0 && n * limit >= |order|
    ensures Pages(order, keys, limit, n) == NewestFirst(order)
    ensures ListsOnce(Pages(order, keys, limit, n), keys)
  {
    PagesConcatenate(order, keys, limit, n);
    NewestListsOnce(order, keys);
    hide Pages, ListsOnce;
  }

  lemma NewestListsOnce(order: seq<string>, keys: set<string>)
    requires ListsOnce(order, keys)
    ensures ListsOnce(NewestFirst(order), keys) && |NewestFirst(order)| == |order|
  {
    var newest, n := NewestFirst(order), |order|;
    assert forall i :: 0 <= i < n ==> newest[i] == order[n - 1 - i];
    assert forall i :: 0 <= i < n ==> order[i] == newest[n - 1 - i];
    hide NewestFirst;
  }
}
