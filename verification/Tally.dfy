/** Counting what several unfinished activities still hold, as one multiset. */
module Tally {

  ghost predicate NoRepeats(s: seq<nat>) {
    forall i, j | 0 <= i < j < |s| :: s[i] != s[j]
  }

  ghost predicate AtMostOnce(bag: multiset<nat>) {
    forall x :: bag[x] <= 1
  }

  lemma {:induction false} NoRepeatsIsAtMostOnce(s: seq<nat>)
    ensures NoRepeats(s) <==> AtMostOnce(multiset(s))
  {
    if s != [] {
      var front, last := s[..|s| - 1], s[|s| - 1];
      NoRepeatsIsAtMostOnce(front);
      assert s == front + [last];
      if NoRepeats(s) {
        assert last !in front;
      } else if NoRepeats(front) {
        assert last in front;
        assert multiset(s)[last] >= 2;
      } else {
        var x :| multiset(front)[x] > 1;
        assert multiset(s)[x] > 1;
      }
    }
  }

  lemma AddDistinct(before: multiset<nat>, ids: seq<nat>)
    requires AtMostOnce(multiset(ids))
    ensures AtMostOnce(before + multiset(ids)) <==> AtMostOnce(before) && forall id | id in ids :: before[id] == 0
  {
    var after := before + multiset(ids);
    if AtMostOnce(after) {
      forall id ensures before[id] <= 1 && (id in ids ==> before[id] == 0) {
        assert after[id] <= 1;
      }
    } else if AtMostOnce(before) {
      var id :| after[id] > 1;
      assert multiset(ids)[id] <= 1 && before[id] <= 1;
    }
  }

  /** Everything the items hold. */
  ghost function Bag<T(!new)>(items: seq<T>, holds: T -> multiset<nat>): multiset<nat> {
    if items == [] then multiset{} else Bag(items[..|items| - 1], holds) + holds(items[|items| - 1])
  }

  lemma BagAppend<T(!new)>(items: seq<T>, holds: T -> multiset<nat>, x: T)
    ensures Bag(items + [x], holds) == Bag(items, holds) + holds(x)
  {
    assert (items + [x])[..|items|] == items;
  }

  lemma {:induction false} BagUpdate<T(!new)>(items: seq<T>, holds: T -> multiset<nat>, k: nat, x: T)
    requires k < |items|
    ensures Bag(items[k := x], holds) + holds(items[k]) == Bag(items, holds) + holds(x)
  {
    var after, last := items[k := x], |items| - 1;
    if k < last {
      BagUpdate(items[..last], holds, k, x);
      assert after[..last] == items[..last][k := x];
      assert |after| == |items| && after[last] == items[last] && items[..last][k] == items[k];
      var rest := holds(items[last]);
      assert Bag(after, holds) + holds(items[k]) == (Bag(after[..last], holds) + holds(items[k])) + rest;
      assert Bag(items, holds) + holds(x) == (Bag(items[..last], holds) + holds(x)) + rest;
    } else {
      assert after[..last] == items[..last];
    }
  }

  lemma AddToBoth(done: multiset<nat>, less: multiset<nat>, more: multiset<nat>)
    requires less <= more
    ensures done + less <= done + more
  {
  }

  /** Taking one thing out of an item and recording it loses nothing. */
  lemma MoveOne<T(!new)>(done: seq<nat>, items: seq<T>, holds: T -> multiset<nat>, k: nat, x: nat, next: T)
    requires k < |items| && holds(items[k]) == multiset{x} + holds(next)
    ensures multiset(done + [x]) + Bag(items[k := next], holds) == multiset(done) + Bag(items, holds)
  {
    BagUpdate(items, holds, k, next);
    assert multiset(done + [x]) == multiset(done) + multiset{x};
    Balance(multiset(done), Bag(items, holds), Bag(items[k := next], holds), holds(next), x);
  }

  lemma Balance(done: multiset<nat>, before: multiset<nat>, after: multiset<nat>, rest: multiset<nat>, x: nat)
    requires after + (multiset{x} + rest) == before + rest
    ensures (done + multiset{x}) + after == done + before
  {
    forall y
      ensures (done + multiset{x} + after)[y] == (done + before)[y]
    {
      assert (after + (multiset{x} + rest))[y] == (before + rest)[y];
    }
  }

  lemma {:induction false} InBag<T(!new)>(items: seq<T>, holds: T -> multiset<nat>, x: nat)
    ensures x in Bag(items, holds) <==> exists k :: 0 <= k < |items| && x in holds(items[k])
  {
    if items != [] {
      var last := |items| - 1;
      InBag(items[..last], holds, x);
      if x in Bag(items[..last], holds) {
        var k :| 0 <= k < last && x in holds(items[..last][k]);
        assert x in holds(items[k]);
      }
      if k :| 0 <= k < |items| && x in holds(items[k]) {
        if k < last {
          assert x in holds(items[..last][k]);
        }
      }
    }
  }

  /** Taking on one more thing keeps everything single exactly when no item holds it yet. */
  lemma OneMoreIsSingle<T(!new)>(done: seq<nat>, items: seq<T>, holds: T -> multiset<nat>, x: nat)
    requires x !in done
    ensures AtMostOnce(multiset(done) + Bag(items, holds) + multiset{x})
       <==> AtMostOnce(multiset(done) + Bag(items, holds)) && forall k | 0 <= k < |items| :: x !in holds(items[k])
  {
    var before := multiset(done) + Bag(items, holds);
    InBag(items, holds, x);
    NoRepeatsIsAtMostOnce([x]);
    AddDistinct(before, [x]);
    hide Bag, AtMostOnce;
    assert multiset([x]) == multiset{x};
    assert before[x] == Bag(items, holds)[x];
    assert x in [x];
  }

  lemma NothingLeft<T(!new)>(done: seq<nat>, items: seq<T>, holds: T -> multiset<nat>)
    ensures AtMostOnce(multiset(done) + Bag(items, holds)) ==> NoRepeats(done)
    ensures (forall k | 0 <= k < |items| :: holds(items[k]) == multiset{})
            ==> (AtMostOnce(multiset(done) + Bag(items, holds)) <==> NoRepeats(done))
  {
    NoRepeatsIsAtMostOnce(done);
    var all := multiset(done) + Bag(items, holds);
    if AtMostOnce(all) {
      forall x ensures multiset(done)[x] <= 1 {
        assert all[x] <= 1;
      }
    }
    if forall k | 0 <= k < |items| :: holds(items[k]) == multiset{} {
      forall x ensures all[x] == multiset(done)[x] {
        InBag(items, holds, x);
      }
    }
  }
}
