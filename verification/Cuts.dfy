/** Where a compaction starts a new output file: when the open one is full, or when it has come
    to overlap too much of the level below the outputs. */
module Cuts {
  import opened Keys
  import opened Files
  import opened Inputs

  // --------------------------------------------------------------------- grandparents passed

  /** How many files lie wholly before a key, up to the first that does not. */
  function Passed(files: seq<File>, key: InternalKey): (r: nat)
    ensures r <= |files|
    ensures forall i :: 0 <= i < r ==> Less(files[i].largest, key)
    ensures r < |files| ==> !Less(files[r].largest, key)
  {
    if files == [] || !Less(files[0].largest, key) then 0 else 1 + Passed(files[1..], key)
  }

  lemma {:induction false} PassedGrows(files: seq<File>, a: InternalKey, b: InternalKey)
    requires !Less(b, a)
    ensures Passed(files, a) <= Passed(files, b)
  {
    if files != [] && Less(files[0].largest, a) {
      PassedGrows(files[1..], a, b);
    }
  }

  /** The size of the files that end at or after one key and before another. */
  ghost function Between(files: seq<File>, a: InternalKey, b: InternalKey): nat {
    var p, q := Passed(files, a), Passed(files, b);
    if p <= q then TotalFileSize(files[p..q]) else 0
  }

  lemma {:induction false} TotalSplits(files: seq<File>, p: nat, q: nat, r: nat)
    requires p <= q <= r <= |files|
    ensures TotalFileSize(files[p..r]) == TotalFileSize(files[p..q]) + TotalFileSize(files[q..r])
  {
    hide TotalFileSize;
    if q < r {
      TotalSplits(files, p, q, r - 1);
      OneFileMore(files, p, r - 1);
      OneFileMore(files, q, r - 1);
    } else {
      NoFiles(files, r);
    }
  }

  lemma OneFileMore(files: seq<File>, start: nat, index: nat)
    requires start <= index < |files|
    ensures TotalFileSize(files[start..index + 1]) == TotalFileSize(files[start..index]) + files[index].size
  {
    assert files[start..index + 1][..index - start] == files[start..index];
  }

  lemma BetweenAdds(files: seq<File>, a: InternalKey, b: InternalKey, c: InternalKey)
    requires !Less(b, a) && !Less(c, b)
    ensures Between(files, a, c) == Between(files, a, b) + Between(files, b, c)
  {
    PassedGrows(files, a, b);
    PassedGrows(files, b, c);
    TotalSplits(files, Passed(files, a), Passed(files, b), Passed(files, c));
  }

  // ------------------------------------------------------------------------- reasons to stop

  /** What decides about the outputs: the files two levels down, how much of them one output
      may overlap, the entries that come by, and when an output is full. */
  datatype Cutter = Cutter(grandparents: seq<File>, limit: nat, stream: seq<Entry>, isFull: seq<Entry> -> bool) {
    /** The size of the grandparents passed when entry n comes by, since the first entry or
        the last stop. */
    ghost function Overlapped(n: nat): nat
      requires n < |stream|
      decreases n, 0
    {
      if n == 0 then 0
      else
        (if Stops(n - 1) then 0 else Overlapped(n - 1))
        + Between(grandparents, stream[n - 1].key, stream[n].key)
    }

    ghost predicate Stops(n: nat)
      requires n < |stream|
      decreases n, 1
    {
      Overlapped(n) > limit
    }

    /** A stop after `a` and not after `b`. */
    ghost predicate StopsBetween(a: InternalKey, b: InternalKey) {
      exists m :: 0 <= m < |stream| && Stops(m) && Less(a, stream[m].key) && !Less(b, stream[m].key)
    }

    /** There is no reason to end an output before its last entry. */
    ghost predicate Uncut(o: seq<Entry>) {
      forall i :: 0 < i < |o| ==> !isFull(o[..i]) && !StopsBetween(o[i - 1].key, o[i].key)
    }

    /** There is one to go on in another output. */
    ghost predicate Reason(o: seq<Entry>, next: InternalKey) {
      o != [] && (isFull(o) || StopsBetween(o[|o| - 1].key, next))
    }

    /** Outputs end where there is a reason to and nowhere else. */
    ghost predicate WellCut(outputs: seq<File>) {
      && (forall f :: f in outputs ==> Uncut(f.entries))
      && forall k :: 0 < k < |outputs| ==>
           outputs[k].entries != [] && Reason(outputs[k - 1].entries, outputs[k].entries[0].key)
    }

    ghost predicate StoppedSince(key: InternalKey, n: nat)
      requires n <= |stream|
    {
      exists m :: 0 <= m < n && Stops(m) && Less(key, stream[m].key)
    }

    /** The outputs and the open one when n entries have come by. */
    ghost predicate Running(outputs: seq<File>, builder: seq<Entry>, n: nat) {
      && n <= |stream| && WellCut(outputs) && Uncut(builder)
      && (outputs != [] ==> outputs[|outputs| - 1].entries != [])
      && (builder != [] ==>
            var last := builder[|builder| - 1];
            last in stream[..n] && !isFull(builder) && !StoppedSince(last.key, n))
      && (outputs != [] ==>
            var o := outputs[|outputs| - 1].entries;
            if builder != [] then Reason(o, builder[0].key) else isFull(o) || StoppedSince(o[|o| - 1].key, n))
    }
  }

  /** What the compaction loop remembers of the files two levels down. */
  class GrandparentScan {
    const grandparents: seq<File>
    const limit: nat
    var index: nat
    var seenKey: bool
    var overlappedBytes: nat

    constructor (grandparents: seq<File>, limit: nat)
      ensures this.grandparents == grandparents && this.limit == limit
      ensures forall c :: At(c, 0)
    {
      this.grandparents, this.limit, index, seenKey, overlappedBytes := grandparents, limit, 0, false, 0;
    }

    /** The first n entries have come by. */
    ghost predicate At(c: Cutter, n: nat)
      reads this
    {
      && (n == 0 ==> index == 0 && !seenKey && overlappedBytes == 0)
      && (n > 0 ==>
            && n <= |c.stream| && seenKey && index == Passed(grandparents, c.stream[n - 1].key)
            && overlappedBytes == if c.Stops(n - 1) then 0 else c.Overlapped(n - 1))
    }

    /** Passes the grandparents that lie before the key. */
    method Advance(key: InternalKey)
      requires index <= Passed(grandparents, key)
      modifies `index, `overlappedBytes
      ensures old(index) <= index == Passed(grandparents, key)
      ensures overlappedBytes ==
        old(overlappedBytes) + if seenKey then TotalFileSize(grandparents[old(index)..index]) else 0
    {
      hide TotalFileSize;
      ghost var start := index;
      assert TotalFileSize(grandparents[start..index]) == 0 by { NoFiles(grandparents, start); }
      while index < |grandparents| && Compare(key, grandparents[index].largest) > 0
        invariant start <= index <= Passed(grandparents, key)
        invariant overlappedBytes ==
          old(overlappedBytes) + if seenKey then TotalFileSize(grandparents[start..index]) else 0
      {
        OneFileMore(grandparents, start, index);
        if seenKey {
          overlappedBytes := overlappedBytes + grandparents[index].size;
        }
        index := index + 1;
      }
    }

    method ShouldStopBefore(key: InternalKey, ghost c: Cutter, ghost n: nat) returns (stop: bool)
      requires c.grandparents == grandparents && c.limit == limit && At(c, n)
      requires Sorted(c.stream) && n < |c.stream| && c.stream[n].key == key
      modifies this
      ensures At(c, n + 1) && (stop <==> c.Stops(n))
    {
      StopsIs(c, n);
      hide c.Overlapped, c.Stops, Passed, Sorted, TotalFileSize;
      if n > 0 {
        PrecedesIsLess(c.stream[n - 1].key, key);
        PassedGrows(grandparents, c.stream[n - 1].key, key);
      }
      Advance(key);
      seenKey := true;
      stop := overlappedBytes > limit;
      if stop {
        overlappedBytes := 0;
      }
    }
  }

  lemma NoFiles(files: seq<File>, n: nat)
    requires n <= |files|
    ensures TotalFileSize(files[n..n]) == 0
  {
    assert files[n..n] == [];
  }

  lemma StopsIs(c: Cutter, n: nat)
    requires Sorted(c.stream) && n < |c.stream|
    ensures c.Stops(n) <==> c.Overlapped(n) > c.limit
    ensures n == 0 ==> c.Overlapped(n) == 0
    ensures n > 0 ==>
      && Precedes(c.stream[n - 1].key, c.stream[n].key)
      && c.Overlapped(n) == (if c.Stops(n - 1) then 0 else c.Overlapped(n - 1))
                            + Between(c.grandparents, c.stream[n - 1].key, c.stream[n].key)
  {
  }

  lemma PrecedesIsLess(a: InternalKey, b: InternalKey)
    requires Precedes(a, b)
    ensures Less(a, b) && !Less(b, a)
  {
  }

  // ------------------------------------------------------------------------ the loop's turns

  lemma StreamOrder(c: Cutter, i: nat, j: nat)
    requires Sorted(c.stream) && i < |c.stream| && j < |c.stream|
    ensures Less(c.stream[i].key, c.stream[j].key) <==> i < j
  {
    if i < j {
      PrecedesIsLess(c.stream[i].key, c.stream[j].key);
    } else if j < i {
      PrecedesIsLess(c.stream[j].key, c.stream[i].key);
    }
  }

  lemma OneOutputMore(c: Cutter, outputs: seq<File>, f: File)
    requires c.WellCut(outputs) && c.Uncut(f.entries) && f.entries != []
    requires outputs != [] ==> c.Reason(outputs[|outputs| - 1].entries, f.entries[0].key)
    ensures c.WellCut(outputs + [f])
  {
    hide c.Uncut, c.Reason;
  }

  /** The open output is finished before entry n. */
  lemma StoppedBefore(c: Cutter, outputs: seq<File>, f: File, n: nat)
    requires Sorted(c.stream) && n < |c.stream| && c.Stops(n)
    requires f.entries != [] && c.Running(outputs, f.entries, n)
    ensures c.Running(outputs + [f], [], n + 1)
  {
    hide c.Uncut, c.Reason, c.Stops, c.WellCut;
    OneOutputMore(c, outputs, f);
    var last := f.entries[|f.entries| - 1];
    var i :| 0 <= i < n && c.stream[..n][i] == last;
    StreamOrder(c, i, n);
    NothingUncut(c);
    assert c.StoppedSince(last.key, n + 1);
  }

  lemma NothingUncut(c: Cutter)
    ensures c.Uncut([])
  {
  }

  /** Entry n comes by without an end to the open output. */
  lemma NotStopped(c: Cutter, outputs: seq<File>, builder: seq<Entry>, n: nat)
    requires n < |c.stream| && c.Running(outputs, builder, n) && (builder == [] || !c.Stops(n))
    ensures c.Running(outputs, builder, n + 1)
  {
    hide c.Uncut, c.Reason, c.Stops, c.WellCut;
    if builder != [] {
      var last := builder[|builder| - 1];
      assert last in c.stream[..n + 1] by { assert c.stream[..n] <= c.stream[..n + 1]; }
    }
  }

  lemma UncutGrows(c: Cutter, builder: seq<Entry>, n: nat)
    requires Sorted(c.stream) && n < |c.stream| && c.Uncut(builder)
    requires builder != [] ==>
      var last := builder[|builder| - 1];
      !c.isFull(builder) && !c.StoppedSince(last.key, n + 1)
    ensures c.Uncut(builder + [c.stream[n]])
  {
    hide c.Stops;
    var e := c.stream[n];
    var longer := builder + [e];
    forall i | 0 < i < |longer| ensures !c.isFull(longer[..i]) && !c.StopsBetween(longer[i - 1].key, longer[i].key) {
      if i < |builder| {
        assert longer[..i] == builder[..i];
      } else {
        assert longer[..i] == builder;
        forall m | 0 <= m < |c.stream| && c.Stops(m) && Less(builder[i - 1].key, c.stream[m].key)
          ensures Less(e.key, c.stream[m].key)
        {
          StreamOrder(c, n, m);
        }
      }
    }
  }

  lemma ReasonAt(c: Cutter, o: seq<Entry>, n: nat)
    requires Sorted(c.stream) && n < |c.stream| && o != []
    requires c.isFull(o) || c.StoppedSince(o[|o| - 1].key, n + 1)
    ensures c.Reason(o, c.stream[n].key)
  {
    hide c.Stops;
    if c.StoppedSince(o[|o| - 1].key, n + 1) {
      var m :| 0 <= m < n + 1 && c.Stops(m) && Less(o[|o| - 1].key, c.stream[m].key);
      StreamOrder(c, n, m);
    }
  }

  /** It joins the open output, which may be full then. */
  lemma Joined(c: Cutter, outputs: seq<File>, builder: seq<Entry>, n: nat)
    requires Sorted(c.stream) && n < |c.stream| && c.Running(outputs, builder, n + 1)
    ensures var longer := builder + [c.stream[n]];
      && c.WellCut(outputs) && c.Uncut(longer)
      && (outputs != [] ==> c.Reason(outputs[|outputs| - 1].entries, longer[0].key))
      && (!c.isFull(longer) ==> c.Running(outputs, longer, n + 1))
  {
    UncutGrows(c, builder, n);
    hide c.Uncut, c.Stops, c.WellCut, c.Reason;
    if outputs != [] && builder == [] {
      ReasonAt(c, outputs[|outputs| - 1].entries, n);
    }
    forall m | 0 <= m < n + 1 ensures !Less(c.stream[n].key, c.stream[m].key) {
      StreamOrder(c, n, m);
    }
    assert c.stream[..n + 1][n] == c.stream[n];
  }

  lemma FullOutput(c: Cutter, outputs: seq<File>, builder: seq<Entry>, f: File, n: nat)
    requires Sorted(c.stream) && n < |c.stream| && c.Running(outputs, builder, n + 1)
    requires f.entries == builder + [c.stream[n]] && c.isFull(f.entries)
    ensures c.Running(outputs + [f], [], n + 1)
  {
    Joined(c, outputs, builder, n);
    hide c.Uncut, c.Stops, c.WellCut, c.Reason;
    OneOutputMore(c, outputs, f);
    NothingUncut(c);
  }

  // ------------------------------------------------------- what an output overlaps at most

  lemma {:induction false} Accumulates(c: Cutter, i: nat, j: nat)
    requires Sorted(c.stream) && i <= j < |c.stream| && forall m :: i < m <= j ==> !c.Stops(m)
    ensures i < j ==> Between(c.grandparents, c.stream[i].key, c.stream[j].key) <= c.Overlapped(j)
    ensures i == j ==> Between(c.grandparents, c.stream[i].key, c.stream[j].key) == 0
  {
    hide c.Overlapped, c.Stops, Between, Passed;
    if i < j {
      Accumulates(c, i, j - 1);
      StreamOrder(c, j - 1, i);
      StreamOrder(c, j, j - 1);
      BetweenAdds(c.grandparents, c.stream[i].key, c.stream[j - 1].key, c.stream[j].key);
      StopsIs(c, j);
    } else {
      NoneBetween(c.grandparents, c.stream[i].key);
    }
  }

  lemma NoneBetween(files: seq<File>, key: InternalKey)
    ensures Between(files, key, key) == 0
  {
    NoFiles(files, Passed(files, key));
  }

  /** A key after the first entry and not after the last comes between two neighbours. */
  lemma {:induction false} Neighbours(o: seq<Entry>, key: InternalKey) returns (i: nat)
    requires o != [] && Less(o[0].key, key) && !Less(o[|o| - 1].key, key)
    ensures 0 < i < |o| && Less(o[i - 1].key, key) && !Less(o[i].key, key)
  {
    i := |o| - 1;
    if !Less(o[i - 1].key, key) {
      i := Neighbours(o[..i], key);
    }
  }

  /** The grandparents that end within an output are not more than the limit. */
  lemma OutputOverlap(c: Cutter, o: seq<Entry>)
    requires Sorted(c.stream) && o != [] && c.Uncut(o) && o[0] in c.stream && o[|o| - 1] in c.stream
    requires !Less(o[|o| - 1].key, o[0].key)
    ensures Between(c.grandparents, o[0].key, o[|o| - 1].key) <= c.limit
  {
    var first, last := o[0].key, o[|o| - 1].key;
    var i :| 0 <= i < |c.stream| && c.stream[i] == o[0];
    var j :| 0 <= j < |c.stream| && c.stream[j] == o[|o| - 1];
    hide c.Overlapped, Between;
    StreamOrder(c, j, i);
    forall m | i < m <= j ensures !c.Stops(m) {
      StreamOrder(c, i, m);
      StreamOrder(c, j, m);
      var x := Neighbours(o, c.stream[m].key);
      assert !c.StopsBetween(o[x - 1].key, o[x].key);
    }
    Accumulates(c, i, j);
    StopsIs(c, j);
  }

  /** The files that end within the range of another one. */
  function EndingInside(files: seq<File>, f: File): seq<File> {
    if files == [] then [] else
      var front, last := EndingInside(files[..|files| - 1], f), files[|files| - 1];
      if !Less(last.largest, f.smallest) && Less(last.largest, f.largest) then front + [last] else front
  }

  lemma PassedExactly(files: seq<File>, key: InternalKey, i: nat)
    requires Ordered(files) && i < |files|
    ensures Less(files[i].largest, key) <==> i < Passed(files, key)
  {
    var p := Passed(files, key);
    if p < i {
      assert Less(files[p].largest, files[i].smallest) && !Less(files[i].largest, files[i].smallest);
    }
  }

  lemma {:induction false} InsidePrefix(files: seq<File>, f: File, p: nat, q: nat, n: nat)
    requires p <= q <= |files| && n <= |files|
    requires forall i :: 0 <= i < |files| ==>
      (Less(files[i].largest, f.smallest) <==> i < p) && (Less(files[i].largest, f.largest) <==> i < q)
    ensures EndingInside(files[..n], f) == if n <= p then [] else if n <= q then files[p..n] else files[p..q]
  {
    hide Less;
    if n > 0 {
      InsidePrefix(files, f, p, q, n - 1);
      assert files[..n][..n - 1] == files[..n - 1];
      if p < n <= q {
        assert files[p..n] == files[p..n - 1] + [files[n - 1]];
      }
    }
  }

  lemma InsideAll(files: seq<File>, f: File, p: nat, q: nat)
    requires p <= q <= |files|
    requires forall i :: 0 <= i < |files| ==>
      (Less(files[i].largest, f.smallest) <==> i < p) && (Less(files[i].largest, f.largest) <==> i < q)
    ensures EndingInside(files, f) == files[p..q]
  {
    hide Less, EndingInside;
    InsidePrefix(files, f, p, q, |files|);
    assert files[..|files|] == files;
  }

  lemma InsideIsBetween(files: seq<File>, f: File)
    requires Ordered(files)
    ensures TotalFileSize(EndingInside(files, f)) == Between(files, f.smallest, f.largest)
  {
    var p, q := Passed(files, f.smallest), Passed(files, f.largest);
    PassedGrows(files, f.smallest, f.largest);
    hide Less, EndingInside, Passed, Ordered, TotalFileSize;
    forall i | 0 <= i < |files|
      ensures Less(files[i].largest, f.smallest) <==> i < p
      ensures Less(files[i].largest, f.largest) <==> i < q
    {
      PassedExactly(files, f.smallest, i);
      PassedExactly(files, f.largest, i);
    }
    InsideAll(files, f, p, q);
  }

  /** It does not matter whether the files outside a range around the file are looked at. */
  lemma {:induction false} InsideOverlaps(files: seq<File>, f: File, b: Bound, e: Bound)
    requires WithinRange(f, b, e)
    ensures EndingInside(Overlapping(files, b, e), f) == EndingInside(files, f)
  {
    if files != [] {
      var front, last := files[..|files| - 1], files[|files| - 1];
      InsideOverlaps(front, f, b, e);
      var some := Overlapping(front, b, e);
      assert (some + [last])[..|some|] == some;
    }
  }

  /** An output overlaps no more of the files two levels down than the limit, not counting
      the one in which it ends. */
  ghost predicate BoundedOverlap(below: seq<File>, outputs: seq<File>, limit: nat) {
    forall f :: f in outputs ==> TotalFileSize(EndingInside(below, f)) <= limit
  }

  lemma OutputsOverlap(c: Cutter, below: seq<File>, b: Bound, e: Bound, outputs: seq<File>)
    requires Sorted(c.stream) && Ordered(c.grandparents) && c.grandparents == Overlapping(below, b, e)
    requires c.WellCut(outputs) && AllValid(outputs)
    requires forall f :: f in outputs ==> WithinRange(f, b, e)
    requires forall f, x :: f in outputs && x in f.entries ==> x in c.stream
    ensures BoundedOverlap(below, outputs, c.limit)
  {
    hide c.Uncut, Ordered, Sorted, Between, Overlapping, EndingInside;
    forall f | f in outputs ensures TotalFileSize(EndingInside(below, f)) <= c.limit {
      OutputOverlap(c, f.entries);
      InsideIsBetween(c.grandparents, f);
      InsideOverlaps(below, f, b, e);
    }
  }
}
