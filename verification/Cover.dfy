/** Files that leave no gap: every user key between the ends of two of them lies in the range
    of one. */
module Covers {
  import opened Keys
  import opened Files

  predicate Reaches(f: File, u: UserKey) {
    f.smallest.user <= u <= f.largest.user
  }

  ghost predicate Held(files: seq<File>, u: UserKey) {
    exists f :: f in files && Reaches(f, u)
  }

  ghost predicate StartBy(files: seq<File>, u: UserKey) {
    exists f :: f in files && f.smallest.user <= u
  }

  ghost predicate EndAfter(files: seq<File>, u: UserKey) {
    exists f :: f in files && u <= f.largest.user
  }

  ghost predicate GapFree(files: seq<File>) {
    forall u: UserKey :: StartBy(files, u) && EndAfter(files, u) ==> Held(files, u)
  }

  ghost predicate SameFiles(a: seq<File>, b: seq<File>) {
    forall f :: f in a <==> f in b
  }

  lemma GapFreeSame(a: seq<File>, b: seq<File>)
    requires SameFiles(a, b) && GapFree(a)
    ensures GapFree(b)
  {
    forall u: UserKey | StartBy(b, u) && EndAfter(b, u) ensures Held(b, u) {
      assert StartBy(a, u) && EndAfter(a, u);
    }
  }

  lemma OneIsGapFree(f: File)
    ensures GapFree([f])
  {
    forall u: UserKey | StartBy([f], u) && EndAfter([f], u) ensures Held([f], u) {
      assert f in [f];
    }
  }

  /** A file that touches what lies between the ends of the others. */
  lemma GapFreeWith(files: seq<File>, f: File)
    requires GapFree(files) && StartBy(files, f.largest.user) && EndAfter(files, f.smallest.user)
    ensures GapFree(files + [f])
  {
    var more := files + [f];
    forall u: UserKey | StartBy(more, u) && EndAfter(more, u) ensures Held(more, u) {
      if Reaches(f, u) {
        assert f in more;
      } else {
        if u > f.largest.user {
          assert StartBy(files, u);
          var g :| g in more && u <= g.largest.user;
          assert g in files && EndAfter(files, u);
        } else {
          assert EndAfter(files, u);
          var g :| g in more && g.smallest.user <= u;
          assert g in files && StartBy(files, u);
        }
        var h :| h in files && Reaches(h, u);
        assert h in more;
      }
    }
  }

  lemma {:induction false} GapFreeWithAll(files: seq<File>, more: seq<File>)
    requires GapFree(files)
    requires forall f :: f in more ==> StartBy(files, f.largest.user) && EndAfter(files, f.smallest.user)
    ensures GapFree(files + more)
    decreases |more|
  {
    hide GapFree, StartBy, EndAfter;
    if more == [] {
      assert files + more == files;
    } else {
      var n := |more| - 1;
      GapFreeWithAll(files, more[..n]);
      MoreReach(files, more[..n], more[n].largest.user, more[n].smallest.user);
      GapFreeWith(files + more[..n], more[n]);
      assert files + more[..n] + [more[n]] == files + more;
    }
  }

  lemma MoreReach(files: seq<File>, more: seq<File>, u: UserKey, v: UserKey)
    ensures StartBy(files, u) ==> StartBy(files + more, u)
    ensures EndAfter(files, v) ==> EndAfter(files + more, v)
  {
    if StartBy(files, u) {
      var f :| f in files && f.smallest.user <= u;
      assert f in files + more;
    }
    if EndAfter(files, v) {
      var f :| f in files && v <= f.largest.user;
      assert f in files + more;
    }
  }

  // ------------------------------------------------------- the closure of level zero

  /** The last end before u. */
  lemma {:induction false} LastEnd(files: seq<File>, u: UserKey) returns (last: File)
    requires exists f :: f in files && f.largest.user < u
    ensures last in files && last.largest.user < u
    ensures forall f :: f in files && f.largest.user < u ==> f.largest.user <= last.largest.user
  {
    var n := |files| - 1;
    assert files == files[..n] + [files[n]];
    if exists f :: f in files[..n] && f.largest.user < u {
      last := LastEnd(files[..n], u);
      if last.largest.user < files[n].largest.user < u {
        last := files[n];
      }
    } else {
      last := files[n];
    }
  }

  lemma {:induction false} FirstStart(files: seq<File>, u: UserKey) returns (first: File)
    requires exists f :: f in files && u < f.smallest.user
    ensures first in files && u < first.smallest.user
    ensures forall f :: f in files && u < f.smallest.user ==> first.smallest.user <= f.smallest.user
  {
    var n := |files| - 1;
    assert files == files[..n] + [files[n]];
    if exists f :: f in files[..n] && u < f.smallest.user {
      first := FirstStart(files[..n], u);
      if u < files[n].smallest.user < first.smallest.user {
        first := files[n];
      }
    } else {
      first := files[n];
    }
  }

  /** [begin, end] is where the base files reach from and to. */
  ghost predicate Ends(base: seq<File>, begin: UserKey, end: UserKey) {
    && StartBy(base, begin) && EndAfter(base, end)
    && forall f :: f in base ==> begin <= f.smallest.user && f.largest.user <= end
  }

  /** Had the closed range a gap behind the base, the range up to the gap would be closed. */
  lemma NoGapBehind(files: seq<File>, base: seq<File>, begin: UserKey, end: UserKey, b: Bound, e: Bound, u: UserKey)
    requires Ends(base, begin, end) && u > end
    requires Widens(b, e, Some(begin), Some(end)) && ClosedRange(files, b, e)
    requires LeastClosed(files, Some(begin), Some(end), b, e)
    requires EndAfter(base + Overlapping(files, b, e), u)
    ensures Held(base + Overlapping(files, b, e), u)
  {
    hide LeastClosed, ClosedRange, Overlapping;
    var all := base + Overlapping(files, b, e);
    if !Held(all, u) {
      ClosedIs(files, b, e);
      var g :| g in all && u <= g.largest.user;
      assert g in base || WithinRange(g, b, e);
      var x :| x in base && end <= x.largest.user;
      assert x in all && x.largest.user < u;
      var last := LastEnd(all, u);
      var e' := Some(last.largest.user);
      forall f | f in files && Overlaps(f, b, e') ensures WithinRange(f, b, e') {
        BeforeTheGap(files, base, b, e, last, u, f);
      }
      assert ClosedRange(files, b, e') by { ClosedIf(files, b, e'); }
      LeastIs(files, Some(begin), Some(end), b, e, b, e');
    }
  }

  lemma ClosedIf(files: seq<File>, b: Bound, e: Bound)
    requires forall f :: f in files && Overlaps(f, b, e) ==> WithinRange(f, b, e)
    ensures ClosedRange(files, b, e)
  {
  }

  lemma ClosedIs(files: seq<File>, b: Bound, e: Bound)
    requires ClosedRange(files, b, e)
    ensures forall f :: f in Overlapping(files, b, e) ==> WithinRange(f, b, e)
  {
  }

  lemma LeastIs(files: seq<File>, begin: Bound, end: Bound, b: Bound, e: Bound, b': Bound, e': Bound)
    requires LeastClosed(files, begin, end, b, e) && Widens(b', e', begin, end) && ClosedRange(files, b', e')
    ensures Widens(b', e', b, e)
  {
  }

  lemma BeforeTheGap(files: seq<File>, base: seq<File>, b: Bound, e: Bound, last: File, u: UserKey, f: File)
    requires var all := base + Overlapping(files, b, e);
      && !Held(all, u) && last in all && last.largest.user < u
      && forall g :: g in all && g.largest.user < u ==> g.largest.user <= last.largest.user
    requires ClosedRange(files, b, e) && f in files && Overlaps(f, b, Some(last.largest.user))
    requires e.Some? ==> last.largest.user <= e.value
    ensures WithinRange(f, b, Some(last.largest.user))
  {
    assert Overlaps(f, b, e);
    assert f in base + Overlapping(files, b, e) && !Reaches(f, u);
  }

  /** The same in front of the base. */
  lemma NoGapBefore(files: seq<File>, base: seq<File>, begin: UserKey, end: UserKey, b: Bound, e: Bound, u: UserKey)
    requires Ends(base, begin, end) && u < begin
    requires Widens(b, e, Some(begin), Some(end)) && ClosedRange(files, b, e)
    requires LeastClosed(files, Some(begin), Some(end), b, e)
    requires StartBy(base + Overlapping(files, b, e), u)
    ensures Held(base + Overlapping(files, b, e), u)
  {
    hide LeastClosed, ClosedRange, Overlapping;
    var all := base + Overlapping(files, b, e);
    if !Held(all, u) {
      ClosedIs(files, b, e);
      var g :| g in all && g.smallest.user <= u;
      assert g in base || WithinRange(g, b, e);
      var x :| x in base && x.smallest.user <= begin;
      assert x in all && u < x.smallest.user;
      var first := FirstStart(all, u);
      var b' := Some(first.smallest.user);
      forall f | f in files && Overlaps(f, b', e) ensures WithinRange(f, b', e) {
        AfterTheGap(files, base, b, e, first, u, f);
      }
      assert ClosedRange(files, b', e) by { ClosedIf(files, b', e); }
      LeastIs(files, Some(begin), Some(end), b, e, b', e);
    }
  }

  lemma AfterTheGap(files: seq<File>, base: seq<File>, b: Bound, e: Bound, first: File, u: UserKey, f: File)
    requires var all := base + Overlapping(files, b, e);
      && !Held(all, u) && first in all && u < first.smallest.user
      && forall g :: g in all && u < g.smallest.user ==> first.smallest.user <= g.smallest.user
    requires ClosedRange(files, b, e) && f in files && Overlaps(f, Some(first.smallest.user), e)
    requires b.Some? ==> b.value <= first.smallest.user
    ensures WithinRange(f, Some(first.smallest.user), e)
  {
    assert Overlaps(f, b, e);
    assert f in base + Overlapping(files, b, e) && !Reaches(f, u);
  }

  /** Closing the range of a choice without gaps brings no gap in. */
  lemma ClosureIsGapFree(files: seq<File>, base: seq<File>, begin: UserKey, end: UserKey, b: Bound, e: Bound)
    requires GapFree(base) && Ends(base, begin, end)
    requires Widens(b, e, Some(begin), Some(end)) && ClosedRange(files, b, e)
    requires LeastClosed(files, Some(begin), Some(end), b, e)
    ensures GapFree(base + Overlapping(files, b, e))
  {
    hide LeastClosed, ClosedRange, Overlapping, Widens;
    var all := base + Overlapping(files, b, e);
    forall u: UserKey | StartBy(all, u) && EndAfter(all, u) ensures Held(all, u) {
      if u > end {
        NoGapBehind(files, base, begin, end, b, e, u);
      } else if u < begin {
        NoGapBefore(files, base, begin, end, b, e, u);
      } else {
        HeldWithin(base, begin, end, u);
        var h :| h in base && Reaches(h, u);
        assert h in all;
      }
    }
  }

  lemma HeldWithin(base: seq<File>, begin: UserKey, end: UserKey, u: UserKey)
    requires GapFree(base) && Ends(base, begin, end) && begin <= u <= end
    ensures Held(base, u)
  {
    var f :| f in base && f.smallest.user <= begin;
    var g :| g in base && end <= g.largest.user;
    assert StartBy(base, u) && EndAfter(base, u);
  }

  /** Files that overlap the range of a choice without gaps bring no gap in. */
  lemma OverlappingIsGapFree(files: seq<File>, base: seq<File>, begin: UserKey, end: UserKey)
    requires GapFree(base) && Ends(base, begin, end)
    ensures GapFree(base + Overlapping(files, Some(begin), Some(end)))
  {
    hide GapFree;
    forall f | f in Overlapping(files, Some(begin), Some(end))
      ensures StartBy(base, f.largest.user) && EndAfter(base, f.smallest.user)
    {
      var g :| g in base && g.smallest.user <= begin;
      var h :| h in base && end <= h.largest.user;
      assert Overlaps(f, Some(begin), Some(end));
    }
    GapFreeWithAll(base, Overlapping(files, Some(begin), Some(end)));
  }
}
