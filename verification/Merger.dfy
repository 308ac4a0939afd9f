/** The merging iterator: several sorted children read as one sorted sequence, in both
    directions. */
module Merger {
  import opened Keys
  import Cursors

  datatype Slot = Slot(child: nat, index: nat)

  /** How the children interleave in their sorted union: `rank[c][j]` is the place in it
      of the j-th entry of child c, and `slot` is the inverse of `rank`. */
  datatype Order = Order(merged: seq<Entry>, rank: seq<seq<nat>>, slot: seq<Slot>)

  ghost predicate Increasing(r: seq<nat>) {
    forall i, j :: 0 <= i < j < |r| ==> r[i] < r[j]
  }

  ghost predicate Interleaves(children: seq<seq<Entry>>, o: Order) {
    && Sorted(o.merged)
    && |o.rank| == |children| && |o.slot| == |o.merged|
    && (forall c :: 0 <= c < |children| ==> |o.rank[c]| == |children[c]| && Increasing(o.rank[c]))
    && (forall c, j :: 0 <= c < |children| && 0 <= j < |o.rank[c]| ==>
          && o.rank[c][j] < |o.merged|
          && o.merged[o.rank[c][j]] == children[c][j]
          && o.slot[o.rank[c][j]] == Slot(c, j))
    && (forall m :: 0 <= m < |o.slot| ==>
          && o.slot[m].child < |children| && o.slot[m].index < |children[o.slot[m].child]|
          && o.rank[o.slot[m].child][o.slot[m].index] == m)
  }

  /** A child whose entries have ranks `r` stands on its first entry at or after place `lo`. */
  ghost predicate FirstFrom(r: seq<nat>, p: int, lo: int) {
    forall j :: 0 <= j < |r| ==> (r[j] < lo <==> p == -1 || j < p)
  }

  /** ... or on its last entry before place `hi`. */
  ghost predicate LastBelow(r: seq<nat>, p: int, hi: int) {
    forall j :: 0 <= j < |r| ==> (r[j] < hi <==> j <= p)
  }

  class MergingIterator {
    const children: seq<seq<Entry>>
    const pos: array<int>
    var current: int
    var forward: bool

    ghost const order: Order
    ghost var at: int  // the position of the refined cursor over `order.merged`

    ghost predicate From(lo: int)
      requires pos.Length == |order.rank|
      reads pos
    {
      forall c :: 0 <= c < |order.rank| ==> FirstFrom(order.rank[c], pos[c], lo)
    }

    ghost predicate Below(hi: int)
      requires pos.Length == |order.rank|
      reads pos
    {
      forall c :: 0 <= c < |order.rank| ==> LastBelow(order.rank[c], pos[c], hi)
    }

    ghost predicate Shape()
      reads pos
    {
      && pos.Length == |children| == |order.rank|
      && Interleaves(children, order)
      && forall c :: 0 <= c < pos.Length ==> -1 <= pos[c] < |children[c]|
    }

    ghost predicate Invariant()
      reads this, pos
    {
      && Shape() && -1 <= at < |order.merged|
      && if at == -1 then current == -1 else
           && 0 <= current < pos.Length && pos[current] >= 0
           && order.rank[current][pos[current]] == at
           && if forward then From(at) else Below(at + 1)
    }

    lemma UnionIsSorted()
      requires Invariant()
      ensures Sorted(order.merged)
    {
    }

    lemma Bounds()
      requires Invariant()
      ensures -1 <= at < |order.merged| && (Valid() <==> at != -1)
    {
    }

    constructor (children: seq<seq<Entry>>, ghost order: Order)
      requires Interleaves(children, order)
      ensures Invariant() && at == -1
      ensures this.children == children && this.order == order && fresh(pos)
    {
      this.children, this.order := children, order;
      pos := new int[|children|](_ => -1);
      current, forward, at := -1, true, -1;
    }

    predicate Valid()
      reads this
    {
      current != -1
    }

    function CurrentEntry(): (e: Entry)
      requires Invariant() && Valid()
      reads this, pos
      ensures at != -1 && e == order.merged[at]
    {
      children[current][pos[current]]
    }

    lemma KeyOrderIsRankOrder(c: nat, i: nat, d: nat, j: nat)
      requires Shape() && c < |children| && i < |children[c]| && d < |children| && j < |children[d]|
      ensures Less(children[c][i].key, children[d][j].key) <==> order.rank[c][i] < order.rank[d][j]
      ensures children[c][i].key == children[d][j].key <==> order.rank[c][i] == order.rank[d][j]
    {
      var x, y := order.rank[c][i], order.rank[d][j];
      assert order.merged[x] == children[c][i] && order.merged[y] == children[d][j];
      if x < y {
        assert Precedes(order.merged[x].key, order.merged[y].key);
      } else if y < x {
        assert Precedes(order.merged[y].key, order.merged[x].key);
      }
    }

    method FindSmallest(ghost lo: nat)
      requires Shape() && lo <= |order.merged| && From(lo)
      modifies this`current
      ensures lo == |order.merged| ==> current == -1
      ensures lo < |order.merged| ==>
        0 <= current < pos.Length && pos[current] >= 0 && order.rank[current][pos[current]] == lo
    {
      var smallest := -1;
      for i := 0 to pos.Length
        invariant -1 <= smallest < i
        invariant smallest == -1 ==> forall k :: 0 <= k < i ==> pos[k] == -1
        invariant smallest >= 0 ==> pos[smallest] >= 0
        invariant smallest >= 0 ==>
          forall k :: 0 <= k < i && pos[k] >= 0 ==> order.rank[smallest][pos[smallest]] <= order.rank[k][pos[k]]
      {
        if pos[i] >= 0 {
          if smallest == -1 {
            smallest := i;
          } else {
            KeyOrderIsRankOrder(i, pos[i], smallest, pos[smallest]);
            if Compare(children[i][pos[i]].key, children[smallest][pos[smallest]].key) < 0 {
              smallest := i;
            }
          }
        }
      }
      assert smallest >= 0 ==> FirstFrom(order.rank[smallest], pos[smallest], lo);
      if lo < |order.merged| {
        ghost var c := order.slot[lo].child;
        assert FirstFrom(order.rank[c], pos[c], lo);
        assert pos[c] >= 0 && order.rank[c][pos[c]] <= lo;
      }
      current := smallest;
    }

    method FindLargest(ghost hi: nat)
      requires Shape() && hi <= |order.merged| && Below(hi)
      modifies this`current
      ensures hi == 0 ==> current == -1
      ensures hi > 0 ==> 0 <= current < pos.Length && pos[current] >= 0 && order.rank[current][pos[current]] == hi - 1
    {
      var largest := -1;
      for i := pos.Length downto 0
        invariant largest == -1 || i <= largest < pos.Length
        invariant largest == -1 ==> forall k :: i <= k < pos.Length ==> pos[k] == -1
        invariant largest >= 0 ==> pos[largest] >= 0
        invariant largest >= 0 ==>
          forall k :: i <= k < pos.Length && pos[k] >= 0 ==> order.rank[k][pos[k]] <= order.rank[largest][pos[largest]]
      {
        if pos[i] >= 0 {
          if largest == -1 {
            largest := i;
          } else {
            KeyOrderIsRankOrder(largest, pos[largest], i, pos[i]);
            if Compare(children[i][pos[i]].key, children[largest][pos[largest]].key) > 0 {
              largest := i;
            }
          }
        }
      }
      assert largest >= 0 ==> LastBelow(order.rank[largest], pos[largest], hi);
      if hi > 0 {
        ghost var c := order.slot[hi - 1].child;
        assert LastBelow(order.rank[c], pos[c], hi);
        assert order.slot[hi - 1].index <= pos[c] && hi - 1 <= order.rank[c][pos[c]];
      }
      current := largest;
    }

    method SeekToFirst()
      requires Invariant()
      modifies this, pos
      ensures Invariant() && at == Cursors.First(|order.merged|)
    {
      for i := 0 to pos.Length
        invariant Shape()
        invariant forall c :: 0 <= c < i ==> FirstFrom(order.rank[c], pos[c], 0)
      {
        pos[i] := Cursors.First(|children[i]|);
      }
      FindSmallest(0);
      forward, at := true, Cursors.First(|order.merged|);
    }

    method SeekToLast()
      requires Invariant()
      modifies this, pos
      ensures Invariant() && at == Cursors.Last(|order.merged|)
    {
      for i := 0 to pos.Length
        invariant Shape()
        invariant forall c :: 0 <= c < i ==> LastBelow(order.rank[c], pos[c], |order.merged|)
      {
        pos[i] := Cursors.Last(|children[i]|);
      }
      FindLargest(|order.merged|);
      forward, at := false, Cursors.Last(|order.merged|);
    }

    lemma SeekSplits(c: nat, j: nat, target: InternalKey)
      requires Shape() && c < |children| && j < |children[c]|
      ensures j < LowerBound(children[c], target) <==> order.rank[c][j] < LowerBound(order.merged, target)
    {
      var i, m := LowerBound(children[c], target), LowerBound(order.merged, target);
      var x := order.rank[c][j];
      assert order.merged[x] == children[c][j];
      if j < i {
        assert Less(order.merged[x].key, target);
        assert m < x ==> Precedes(order.merged[m].key, order.merged[x].key);
      } else {
        assert i < |children[c]| && order.merged[order.rank[c][i]] == children[c][i];
        assert order.rank[c][i] <= x;
      }
    }

    /** A child's own seek lands on its first entry at or after the union's seek position. */
    lemma SeekLands(c: nat, target: InternalKey)
      requires Shape() && c < |children|
      ensures FirstFrom(order.rank[c], Cursors.Seek(children[c], target), LowerBound(order.merged, target))
    {
      forall j | 0 <= j < |order.rank[c]|
        ensures order.rank[c][j] < LowerBound(order.merged, target) <==> j < LowerBound(children[c], target)
      {
        SeekSplits(c, j, target);
      }
    }

    method Seek(target: InternalKey)
      requires Invariant()
      modifies this, pos
      ensures Invariant() && at == Cursors.Seek(order.merged, target)
    {
      hide LowerBound;
      ghost var lo := LowerBound(order.merged, target);
      for i := 0 to pos.Length
        invariant Shape()
        invariant forall c :: 0 <= c < i ==> FirstFrom(order.rank[c], pos[c], lo)
      {
        SeekLands(i, target);
        pos[i] := Cursors.Seek(children[i], target);
      }
      FindSmallest(lo);
      forward, at := true, Cursors.Seek(order.merged, target);
    }

    lemma SeekToPlace(m: nat)
      requires Shape() && m < |order.merged|
      ensures LowerBound(order.merged, order.merged[m].key) == m
    {
      if m > 0 { assert Precedes(order.merged[m - 1].key, order.merged[m].key); }
      LowerBoundUnique(order.merged, order.merged[m].key, m);
    }

    /** Child i is moved to its first entry after key(); it holds no entry equal to it. */
    method PutAfterKey(i: nat)
      requires Shape() && i < pos.Length && 0 <= current < pos.Length && i != current
      requires pos[current] >= 0 && 0 <= at < |order.merged| && order.rank[current][pos[current]] == at
      modifies pos
      ensures Shape() && FirstFrom(order.rank[i], pos[i], at)
      ensures forall c :: 0 <= c < pos.Length && c != i ==> pos[c] == old(pos[c])
    {
      var key := children[current][pos[current]].key;
      SeekToPlace(at);
      SeekLands(i, key);
      pos[i] := Cursors.Seek(children[i], key);
      if pos[i] >= 0 {
        KeyOrderIsRankOrder(i, pos[i], current, pos[current]);
        if Compare(key, children[i][pos[i]].key) == 0 {
          assert false;  // keys are distinct: there is no equal key to step over
        }
      }
    }

    /** Child i is moved to its last entry before key(). */
    method PutBeforeKey(i: nat)
      requires Shape() && i < pos.Length && 0 <= current < pos.Length && i != current
      requires pos[current] >= 0 && 0 <= at < |order.merged| && order.rank[current][pos[current]] == at
      modifies pos
      ensures Shape() && LastBelow(order.rank[i], pos[i], at + 1)
      ensures forall c :: 0 <= c < pos.Length && c != i ==> pos[c] == old(pos[c])
    {
      var key := children[current][pos[current]].key;
      SeekToPlace(at);
      forall j | 0 <= j < |order.rank[i]|
        ensures order.rank[i][j] < at + 1 <==> j < LowerBound(children[i], key)
      {
        SeekSplits(i, j, key);
        KeyOrderIsRankOrder(i, j, current, pos[current]);
        assert order.rank[i][j] != order.rank[current][pos[current]];
      }
      pos[i] := Cursors.Seek(children[i], key);
      if pos[i] >= 0 {
        pos[i] := Cursors.Prev(pos[i]);
      } else {
        pos[i] := Cursors.Last(|children[i]|);
      }
    }

    /** Positions every other child after key(), so that the scan can go forward. */
    method TurnForward()
      requires Shape() && 0 <= at < |order.merged| && 0 <= current < pos.Length
      requires pos[current] >= 0 && order.rank[current][pos[current]] == at
      requires LastBelow(order.rank[current], pos[current], at + 1)
      modifies this`forward, pos
      ensures Shape() && forward && From(at) && pos[current] == old(pos[current])
    {
      for i := 0 to pos.Length
        invariant Shape() && pos[current] == old(pos[current])
        invariant forall c :: 0 <= c < i ==> FirstFrom(order.rank[c], pos[c], at)
      {
        if i != current {
          PutAfterKey(i);
        }
      }
      forward := true;
    }

    method TurnBackward()
      requires Shape() && 0 <= at < |order.merged| && 0 <= current < pos.Length
      requires pos[current] >= 0 && order.rank[current][pos[current]] == at
      requires FirstFrom(order.rank[current], pos[current], at)
      modifies this`forward, pos
      ensures Shape() && !forward && Below(at + 1) && pos[current] == old(pos[current])
    {
      var hi := at + 1;
      for i := 0 to pos.Length
        invariant Shape() && pos[current] == old(pos[current])
        invariant forall c :: 0 <= c < i ==> LastBelow(order.rank[c], pos[c], hi)
      {
        if i != current {
          PutBeforeKey(i);
        }
      }
      forward := false;
    }

    method StepCurrentForward()
      requires Shape() && 0 <= at < |order.merged| && 0 <= current < pos.Length && pos[current] >= 0
      requires order.rank[current][pos[current]] == at && From(at)
      modifies pos
      ensures Shape() && From(at + 1)
    {
      StepOverForward(children, order, pos[..], current, at);
      pos[current] := Cursors.Next(|children[current]|, pos[current]);
    }

    method StepCurrentBackward()
      requires Shape() && 0 <= at < |order.merged| && 0 <= current < pos.Length && pos[current] >= 0
      requires order.rank[current][pos[current]] == at && Below(at + 1)
      modifies pos
      ensures Shape() && Below(at)
    {
      StepOverBackward(children, order, pos[..], current, at);
      pos[current] := Cursors.Prev(pos[current]);
    }

    method Next()
      requires Invariant() && Valid()
      modifies this, pos
      ensures Invariant() && at == Cursors.Next(|order.merged|, old(at))
    {
      if !forward {
        TurnForward();
      }
      StepCurrentForward();
      FindSmallest(at + 1);
      at := Cursors.Next(|order.merged|, at);
    }

    method Prev()
      requires Invariant() && Valid()
      modifies this, pos
      ensures Invariant() && at == Cursors.Prev(old(at))
    {
      if forward {
        TurnBackward();
      }
      StepCurrentBackward();
      FindLargest(at);
      at := Cursors.Prev(at);
    }
  }

  // Only the current child holds the entry at place `at`, so stepping it alone is enough.

  lemma StepOverForward(children: seq<seq<Entry>>, o: Order, pos: seq<int>, current: nat, at: nat)
    requires Interleaves(children, o)
    requires |pos| == |children| && current < |children| && 0 <= pos[current] < |children[current]|
    requires o.rank[current][pos[current]] == at
    requires forall c :: 0 <= c < |o.rank| ==> FirstFrom(o.rank[c], pos[c], at)
    ensures forall c :: 0 <= c < |o.rank| && c != current ==> FirstFrom(o.rank[c], pos[c], at + 1)
    ensures FirstFrom(o.rank[current], Cursors.Next(|children[current]|, pos[current]), at + 1)
  {
    forall c | 0 <= c < |o.rank| && c != current ensures FirstFrom(o.rank[c], pos[c], at + 1) {
      assert forall j :: 0 <= j < |o.rank[c]| ==> o.slot[o.rank[c][j]] == Slot(c, j);
      assert FirstFrom(o.rank[c], pos[c], at);
    }
    assert FirstFrom(o.rank[current], pos[current], at) && Increasing(o.rank[current]);
  }

  lemma StepOverBackward(children: seq<seq<Entry>>, o: Order, pos: seq<int>, current: nat, at: nat)
    requires Interleaves(children, o)
    requires |pos| == |children| && current < |children| && 0 <= pos[current] < |children[current]|
    requires o.rank[current][pos[current]] == at
    requires forall c :: 0 <= c < |o.rank| ==> LastBelow(o.rank[c], pos[c], at + 1)
    ensures forall c :: 0 <= c < |o.rank| && c != current ==> LastBelow(o.rank[c], pos[c], at)
    ensures LastBelow(o.rank[current], Cursors.Prev(pos[current]), at)
  {
    forall c | 0 <= c < |o.rank| && c != current ensures LastBelow(o.rank[c], pos[c], at) {
      assert forall j :: 0 <= j < |o.rank[c]| ==> o.slot[o.rank[c][j]] == Slot(c, j);
      assert LastBelow(o.rank[c], pos[c], at + 1);
    }
    assert LastBelow(o.rank[current], pos[current], at + 1) && Increasing(o.rank[current]);
  }

  // ------------------------------------------------ every family of children interleaves

  ghost predicate NoRepeats(children: seq<seq<Entry>>) {
    forall c, i, d, j ::
      (0 <= c < |children| && 0 <= i < |children[c]| && 0 <= d < |children| && 0 <= j < |children[d]|
       && children[c][i] == children[d][j]) ==> c == d && i == j
  }

  ghost function AllOf(children: seq<seq<Entry>>): set<Entry> {
    set child, e | child in children && e in child :: e
  }

  lemma SortedListing(es: set<Entry>) returns (m: seq<Entry>)
    requires DistinctSequences(es)
    ensures Sorted(m) && (forall e :: e in m <==> e in es)
    decreases es
  {
    if es == {} {
      m := [];
    } else {
      var last := LastOf(es);
      var front := SortedListing(es - {last});
      m := front + [last];
    }
  }

  lemma LastOf(es: set<Entry>) returns (last: Entry)
    requires es != {} && DistinctSequences(es)
    ensures last in es && forall e :: e in es && e != last ==> Precedes(e.key, last.key)
    decreases es
  {
    var x :| x in es;
    if es == {x} {
      last := x;
    } else {
      var y := LastOf(es - {x});
      assert es - {x} != {};
      last := if Precedes(x.key, y.key) then y else x;
      assert x.key.user == y.key.user ==> x.key.sequence != y.key.sequence;
    }
  }

  ghost function IndexOf(m: seq<Entry>, e: Entry): (i: nat)
    requires e in m
    ensures i < |m| && m[i] == e
  {
    var i :| 0 <= i < |m| && m[i] == e;
    i
  }

  ghost function SlotOf(children: seq<seq<Entry>>, e: Entry): (s: Slot)
    requires e in AllOf(children)
    ensures s.child < |children| && s.index < |children[s.child]| && children[s.child][s.index] == e
  {
    var child :| child in children && e in child;
    var c: nat :| c < |children| && children[c] == child;
    var j: nat :| j < |child| && child[j] == e;
    Slot(c, j)
  }

  /** The sorted union of sorted children with distinct keys, and how they interleave. */
  lemma OrderExists(children: seq<seq<Entry>>) returns (o: Order)
    requires forall c :: 0 <= c < |children| ==> Sorted(children[c])
    requires NoRepeats(children) && DistinctSequences(AllOf(children))
    ensures Interleaves(children, o)
    ensures forall e :: e in o.merged <==> e in AllOf(children)
  {
    var m := SortedListing(AllOf(children));
    forall c, j | 0 <= c < |children| && 0 <= j < |children[c]| ensures children[c][j] in m {
      assert children[c] in children && children[c][j] in children[c];
    }
    var rank := seq(|children|, c requires 0 <= c < |children| =>
      seq(|children[c]|, j requires 0 <= j < |children[c]| => IndexOf(m, children[c][j])));
    var slot := seq(|m|, k requires 0 <= k < |m| => SlotOf(children, m[k]));
    o := Order(m, rank, slot);
    forall c | 0 <= c < |children| ensures Increasing(rank[c]) {
      forall i, j | 0 <= i < j < |rank[c]| ensures rank[c][i] < rank[c][j] {
        assert Precedes(children[c][i].key, children[c][j].key);
        assert m[rank[c][i]] == children[c][i] && m[rank[c][j]] == children[c][j];
      }
    }
    forall k | 0 <= k < |slot| ensures rank[slot[k].child][slot[k].index] == k {
      assert m[rank[slot[k].child][slot[k].index]] == m[k];
    }
  }
}
