/** Replacing compaction inputs by outputs keeps what holds of every version.  A trivial
    move is the case of one input whose output is itself. */
module Replacement {
  import opened Keys
  import opened Files
  import opened Inputs
  import opened Versions

  /** Inputs as an automatic or manual compaction of level L chooses them. */
  ghost predicate ChosenInputs(levels: Levels, L: nat, inputs0: seq<File>, inputs1: seq<File>) {
    && L + 1 < NUM_LEVELS && |inputs0| > 0
    && Subset(inputs0, levels[L])
    && UpperClosed(levels[L], inputs0)
    && LowerInputs(levels[L + 1], inputs0, inputs1)
  }

  /** The files of level l after the replacement. */
  ghost function NewMembers(before: Levels, L: nat, inputs0: seq<File>, inputs1: seq<File>, outputs: seq<File>,
                            l: nat): set<File>
    requires l < |before|
  {
    if l == L then AsSet(before[l]) - AsSet(inputs0)
    else if l == L + 1 then AsSet(before[l]) - AsSet(inputs1) + AsSet(outputs)
    else AsSet(before[l])
  }

  ghost predicate Replaced(before: Levels, after: Levels, L: nat, inputs0: seq<File>, inputs1: seq<File>,
                           outputs: seq<File>) {
    forall l :: 0 <= l < |before| ==> ListingOf(after[l], NewMembers(before, L, inputs0, inputs1, outputs, l))
  }

  /** Outputs hold only entries of the inputs, in disjoint files. */
  ghost predicate DrawnFrom(inputs0: seq<File>, inputs1: seq<File>, outputs: seq<File>) {
    && AllValid(outputs) && Ordered(outputs)
    && forall o, x :: o in outputs && x in o.entries ==> x in Contents(inputs0) || x in Contents(inputs1)
  }

  /** Output numbers are fresh, except that a moved file keeps its own. */
  ghost predicate OutputsNumbered(inputs0: seq<File>, outputs: seq<File>, nextFile: nat, nextFile': nat) {
    && nextFile <= nextFile'
    && (forall o :: o in outputs ==> (nextFile <= o.number < nextFile') || o in inputs0)
    && forall o, p :: o in outputs && p in outputs && o.number == p.number ==> o == p
  }

  lemma InReplaced(before: Levels, after: Levels, L: nat, inputs0: seq<File>, inputs1: seq<File>, outputs: seq<File>,
                   l: nat, x: File)
    requires Replaced(before, after, L, inputs0, inputs1, outputs) && l < |before|
    ensures x in after[l] <==>
              if l == L then x in before[l] && x !in inputs0
              else if l == L + 1 then (x in before[l] && x !in inputs1) || x in outputs
              else x in before[l]
  {
  }

  /** The levels of the inputs an output entry came from. */
  lemma OutputSource(levels: Levels, L: nat, inputs0: seq<File>, inputs1: seq<File>, outputs: seq<File>, o: File,
                     x: Entry)
    returns (l: nat, g: File)
    requires ChosenInputs(levels, L, inputs0, inputs1) && DrawnFrom(inputs0, inputs1, outputs)
    requires o in outputs && x in o.entries
    ensures (l == L && g in inputs0) || (l == L + 1 && g in inputs1)
    ensures l < |levels| && g in levels[l] && x in g.entries
  {
    if x in Contents(inputs0) {
      l := L;
      g :| g in inputs0 && x in g.entries;
    } else {
      l := L + 1;
      g :| g in inputs1 && x in g.entries;
      var s, r := RangeOf(inputs0);
      assert g in Overlapping(levels[L + 1], Some(s.user), Some(r.user));
    }
  }

  lemma UpperOverOutput(levels: Levels, L: nat, inputs0: seq<File>, inputs1: seq<File>, outputs: seq<File>,
                        l: nat, f: File, o: File)
    requires ChosenInputs(levels, L, inputs0, inputs1) && DrawnFrom(inputs0, inputs1, outputs) && AgeOrdered(levels)
    requires l <= L && f in levels[l] && f !in inputs0 && o in outputs
    ensures Newer(f.entries, o.entries)
  {
    hide LowerInputs, DrawnFrom, Less;
    forall x, y | x in f.entries && y in o.entries && x.key.user == y.key.user
      ensures x.key.sequence > y.key.sequence
    {
      var m, g := OutputSource(levels, L, inputs0, inputs1, outputs, o, y);
      assert Newer(f.entries, g.entries);
    }
  }

  lemma OutputOverLower(levels: Levels, L: nat, inputs0: seq<File>, inputs1: seq<File>, outputs: seq<File>,
                        m: nat, o: File, g: File)
    requires ChosenInputs(levels, L, inputs0, inputs1) && DrawnFrom(inputs0, inputs1, outputs) && AgeOrdered(levels)
    requires L + 1 < m < |levels| && g in levels[m] && o in outputs
    ensures Newer(o.entries, g.entries)
  {
    hide LowerInputs, DrawnFrom, UpperClosed, Less;
    forall x, y | x in o.entries && y in g.entries && x.key.user == y.key.user
      ensures x.key.sequence > y.key.sequence
    {
      var l, h := OutputSource(levels, L, inputs0, inputs1, outputs, o, x);
      assert Newer(h.entries, g.entries);
    }
  }

  lemma ReplacedAgeOrdered(before: Levels, after: Levels, L: nat, inputs0: seq<File>, inputs1: seq<File>,
                           outputs: seq<File>)
    requires ChosenInputs(before, L, inputs0, inputs1) && DrawnFrom(inputs0, inputs1, outputs)
    requires AgeOrdered(before) && Replaced(before, after, L, inputs0, inputs1, outputs)
    ensures AgeOrdered(after)
  {
    hide Replaced, Newer, DrawnFrom, UpperClosed, LowerInputs;
    forall l, m, x, y | 0 <= l < m < |after| && x in after[l] && y in after[m] ensures Newer(x.entries, y.entries) {
      InReplaced(before, after, L, inputs0, inputs1, outputs, l, x);
      InReplaced(before, after, L, inputs0, inputs1, outputs, m, y);
      if !(x in before[l]) {
        OutputOverLower(before, L, inputs0, inputs1, outputs, m, x, y);
      } else if !(y in before[m]) {
        if l < L && x in inputs0 {
          UpperOverInputs(before, L, inputs0, inputs1, outputs, l, x, y);
        } else {
          UpperOverOutput(before, L, inputs0, inputs1, outputs, l, x, y);
        }
      }
    }
  }

  lemma UpperOverInputs(levels: Levels, L: nat, inputs0: seq<File>, inputs1: seq<File>, outputs: seq<File>,
                        l: nat, f: File, o: File)
    requires ChosenInputs(levels, L, inputs0, inputs1) && DrawnFrom(inputs0, inputs1, outputs) && AgeOrdered(levels)
    requires l < L && f in levels[l] && o in outputs
    ensures Newer(f.entries, o.entries)
  {
    hide LowerInputs, DrawnFrom, UpperClosed, Less;
    forall x, y | x in f.entries && y in o.entries && x.key.user == y.key.user
      ensures x.key.sequence > y.key.sequence
    {
      var m, g := OutputSource(levels, L, inputs0, inputs1, outputs, o, y);
      assert Newer(f.entries, g.entries);
    }
  }

  // ---------------------------------------------------------- outputs among the lower files

  /** A lower file left out lies wholly before or wholly after every output. */
  lemma OutputsSeparate(levels: Levels, L: nat, inputs0: seq<File>, inputs1: seq<File>, outputs: seq<File>, g: File,
                        o: File)
    requires ChosenInputs(levels, L, inputs0, inputs1) && DrawnFrom(inputs0, inputs1, outputs)
    requires Ordered(levels[L + 1]) && AllValid(levels[L]) && AllValid(levels[L + 1])
    requires g in levels[L + 1] && g !in inputs1 && o in outputs
    ensures Separated(g, o)
  {
    var s, r := RangeOf(inputs0);
    assert !Overlaps(g, Some(s.user), Some(r.user));
    if g.smallest.user > r.user {
      forall x | x in o.entries ensures Less(x.key, g.smallest) {
        EntryBeforeLeftOut(levels, L, inputs0, inputs1, outputs, s, r, g, o, x);
      }
      assert o.entries[|o.entries| - 1] in o.entries;
    } else {
      forall x | x in o.entries ensures Less(g.largest, x.key) {
        EntryAfterLeftOut(levels, L, inputs0, inputs1, outputs, s, r, g, o, x);
      }
      assert o.entries[0] in o.entries;
    }
  }

  lemma EntryBeforeLeftOut(levels: Levels, L: nat, inputs0: seq<File>, inputs1: seq<File>, outputs: seq<File>,
                           s: InternalKey, r: InternalKey, g: File, o: File, x: Entry)
    requires ChosenInputs(levels, L, inputs0, inputs1) && DrawnFrom(inputs0, inputs1, outputs)
    requires Ordered(levels[L + 1]) && AllValid(levels[L]) && AllValid(levels[L + 1])
    requires g in levels[L + 1] && o in outputs && x in o.entries
    requires IsRange(inputs0, s, r) && g.smallest.user > r.user
    ensures Less(x.key, g.smallest)
  {
    hide UpperClosed, DrawnFrom, Ordered, Sorted;
    var l, h := OutputSource(levels, L, inputs0, inputs1, outputs, o, x);
    assert ValidFile(h) && !Less(h.largest, x.key);
    if l == L + 1 {
      assert Overlaps(h, Some(s.user), Some(r.user));
      OrderedSeparates(levels[L + 1], g, h);
      assert !Less(g.largest, g.smallest);
    }
  }

  lemma EntryAfterLeftOut(levels: Levels, L: nat, inputs0: seq<File>, inputs1: seq<File>, outputs: seq<File>,
                          s: InternalKey, r: InternalKey, g: File, o: File, x: Entry)
    requires ChosenInputs(levels, L, inputs0, inputs1) && DrawnFrom(inputs0, inputs1, outputs)
    requires Ordered(levels[L + 1]) && AllValid(levels[L]) && AllValid(levels[L + 1])
    requires g in levels[L + 1] && o in outputs && x in o.entries
    requires IsRange(inputs0, s, r) && g.largest.user < s.user
    ensures Less(g.largest, x.key)
  {
    hide UpperClosed, DrawnFrom, Ordered, Sorted;
    var l, h := OutputSource(levels, L, inputs0, inputs1, outputs, o, x);
    assert ValidFile(h) && !Less(x.key, h.smallest);
    if l == L + 1 {
      assert Overlaps(h, Some(s.user), Some(r.user));
      OrderedSeparates(levels[L + 1], g, h);
      assert !Less(g.largest, g.smallest);
    }
  }

  lemma ReplacedOrdered(before: Levels, after: Levels, L: nat, inputs0: seq<File>, inputs1: seq<File>,
                        outputs: seq<File>,
                        l: nat)
    requires ChosenInputs(before, L, inputs0, inputs1) && DrawnFrom(inputs0, inputs1, outputs)
    requires 1 <= l < |before| && Ordered(before[l]) && AllValid(before[L]) && AllValid(before[L + 1])
    requires Replaced(before, after, L, inputs0, inputs1, outputs)
    ensures Ordered(after[l])
  {
    hide ChosenInputs, Ordered, ListingOf, Separated, AllValid;
    var members := NewMembers(before, L, inputs0, inputs1, outputs, l);
    forall x, y | x in members && y in members && x != y ensures Separated(x, y) {
      if x in before[l] && y in before[l] {
        OrderedSeparates(before[l], x, y);
      } else if x in before[l] && x !in inputs1 {
        OutputsSeparate(before, L, inputs0, inputs1, outputs, x, y);
      } else if y in before[l] && y !in inputs1 {
        OutputsSeparate(before, L, inputs0, inputs1, outputs, y, x);
        SeparatedSym(x, y);
      } else {
        OrderedSeparates(outputs, x, y);
      }
    }
    ListingIsOrdered(after[l], members);
  }

  lemma SeparatedSym(x: File, y: File)
    ensures Separated(x, y) <==> Separated(y, x)
  {
  }

  // ------------------------------------------------------------------- the whole invariant

  lemma ReplacedNumbered(before: Levels, after: Levels, L: nat, inputs0: seq<File>, inputs1: seq<File>,
                         outputs: seq<File>,
                         nextFile: nat, nextFile': nat)
    requires Numbered(before, nextFile) && L + 1 < |before| && Subset(inputs0, before[L])
    requires OutputsNumbered(inputs0, outputs, nextFile, nextFile')
    requires Replaced(before, after, L, inputs0, inputs1, outputs)
    ensures Numbered(after, nextFile')
  {
    hide Replaced;
    forall l, x | 0 <= l < |after| && x in after[l] ensures x.number < nextFile' {
      InReplaced(before, after, L, inputs0, inputs1, outputs, l, x);
    }
    forall l, m, x, y | 0 <= l < |after| && 0 <= m < |after| && x in after[l] && y in after[m]
      ensures x.number != y.number || (l == m && x == y)
    {
      InReplaced(before, after, L, inputs0, inputs1, outputs, l, x);
      InReplaced(before, after, L, inputs0, inputs1, outputs, m, y);
    }
  }

  /** The entries of a version outside the inputs of a compaction. */
  ghost function Outside(levels: Levels, L: nat, inputs0: seq<File>, inputs1: seq<File>): set<Entry> {
    set l, f, e | 0 <= l < |levels| && f in levels[l] && !(l == L && f in inputs0) && !(l == L + 1 && f in inputs1)
                  && e in f.entries :: e
  }

  lemma EntriesSplit(levels: Levels, L: nat, inputs0: seq<File>, inputs1: seq<File>)
    requires ChosenInputs(levels, L, inputs0, inputs1)
    ensures VersionEntries(levels) == Outside(levels, L, inputs0, inputs1) + Contents(inputs0) + Contents(inputs1)
  {
    hide UpperClosed;
    var s, r := RangeOf(inputs0);
    forall e | e in VersionEntries(levels)
      ensures e in Outside(levels, L, inputs0, inputs1) + Contents(inputs0) + Contents(inputs1)
    {
      var l, f :| 0 <= l < |levels| && f in levels[l] && e in f.entries;
    }
    forall e | e in Contents(inputs1) ensures e in VersionEntries(levels) {
      var f :| f in inputs1 && e in f.entries;
      assert f in levels[L + 1];
    }
    forall e | e in Contents(inputs0) ensures e in VersionEntries(levels) {
      var f :| f in inputs0 && e in f.entries;
      assert f in levels[L];
    }
  }

  lemma ReplacedEntries(before: Levels, after: Levels, L: nat, inputs0: seq<File>, inputs1: seq<File>,
                        outputs: seq<File>)
    requires Replaced(before, after, L, inputs0, inputs1, outputs) && L + 1 < |before|
    ensures VersionEntries(after) == Outside(before, L, inputs0, inputs1) + Contents(outputs)
  {
    hide Replaced;
    forall e
      ensures e in VersionEntries(after) <==> e in Outside(before, L, inputs0, inputs1) || e in Contents(outputs)
    {
      if l, f :| 0 <= l < |after| && f in after[l] && e in f.entries {
        InReplaced(before, after, L, inputs0, inputs1, outputs, l, f);
      }
      if l, f :| 0 <= l < |before| && f in before[l] && !(l == L && f in inputs0) && !(l == L + 1 && f in inputs1)
                 && e in f.entries {
        InReplaced(before, after, L, inputs0, inputs1, outputs, l, f);
      }
      if f :| f in outputs && e in f.entries {
        InReplaced(before, after, L, inputs0, inputs1, outputs, L + 1, f);
      }
    }
  }

  lemma DistinctSubset(es: set<Entry>, fewer: set<Entry>)
    requires DistinctSequences(es) && fewer <= es
    ensures DistinctSequences(fewer)
  {
  }

  lemma ReplacedListings(before: Levels, after: Levels, L: nat, inputs0: seq<File>, inputs1: seq<File>,
                         outputs: seq<File>)
    requires Replaced(before, after, L, inputs0, inputs1, outputs) && AllValid(outputs)
    requires forall l :: 0 <= l < |before| ==> AllValid(before[l])
    ensures forall l :: 0 <= l < |after| ==> AllValid(after[l]) && ListingOf(after[l], AsSet(after[l]))
  {
    hide ValidFile;
    forall l | 0 <= l < |after| ensures AllValid(after[l]) && ListingOf(after[l], AsSet(after[l])) {
      var members := NewMembers(before, L, inputs0, inputs1, outputs, l);
      assert AsSet(after[l]) == members;
    }
  }

  /** Moves and compactions keep every property of a version. */
  lemma ReplacementKeepsVersion(before: Levels, after: Levels, L: nat, inputs0: seq<File>, inputs1: seq<File>,
                                outputs: seq<File>, nextFile: nat, nextFile': nat)
    requires ValidVersion(before, nextFile) && ChosenInputs(before, L, inputs0, inputs1)
    requires DrawnFrom(inputs0, inputs1, outputs) && OutputsNumbered(inputs0, outputs, nextFile, nextFile')
    requires Replaced(before, after, L, inputs0, inputs1, outputs)
    ensures ValidVersion(after, nextFile')
    ensures VersionEntries(after) == Outside(before, L, inputs0, inputs1) + Contents(outputs)
    ensures VersionEntries(after) <= VersionEntries(before)
  {
    ReplacedKeepsEntries(before, after, L, inputs0, inputs1, outputs);
    hide Replaced, ChosenInputs, ValidFile, Newer, Ordered, AgeOrdered, Numbered, ListingOf, DistinctSequences,
         OutputsNumbered, Contents, Outside, VersionEntries, AgeNumbered, AllValid, DrawnFrom;
    ReplacedAgeOrdered(before, after, L, inputs0, inputs1, outputs);
    assert L + 1 < |before| && Subset(inputs0, before[L]) by { ChosenFacts(before, L, inputs0, inputs1); }
    ReplacedNumbered(before, after, L, inputs0, inputs1, outputs, nextFile, nextFile');
    assert AllValid(outputs) by { DrawnFacts(inputs0, inputs1, outputs); }
    ReplacedListings(before, after, L, inputs0, inputs1, outputs);
    DistinctSubset(VersionEntries(before), VersionEntries(after));
    forall l | 1 <= l < |after| ensures Ordered(after[l]) {
      ReplacedOrdered(before, after, L, inputs0, inputs1, outputs, l);
    }
    ReplacedAgeNumbered(before, after, L, inputs0, inputs1, outputs);
  }

  lemma ReplacedAgeNumbered(before: Levels, after: Levels, L: nat, inputs0: seq<File>, inputs1: seq<File>,
                            outputs: seq<File>)
    requires AgeNumbered(before[0]) && Replaced(before, after, L, inputs0, inputs1, outputs)
    ensures AgeNumbered(after[0])
  {
    hide Replaced, Newer;
    forall x, y | x in after[0] && y in after[0] && x.number > y.number ensures Newer(x.entries, y.entries) {
      InReplaced(before, after, L, inputs0, inputs1, outputs, 0, x);
      InReplaced(before, after, L, inputs0, inputs1, outputs, 0, y);
    }
  }

  lemma DrawnFacts(inputs0: seq<File>, inputs1: seq<File>, outputs: seq<File>)
    requires DrawnFrom(inputs0, inputs1, outputs)
    ensures AllValid(outputs)
  {
  }

  lemma ChosenFacts(levels: Levels, L: nat, inputs0: seq<File>, inputs1: seq<File>)
    requires ChosenInputs(levels, L, inputs0, inputs1)
    ensures L + 1 < |levels| && Subset(inputs0, levels[L])
  {
  }

  lemma ReplacedKeepsEntries(before: Levels, after: Levels, L: nat, inputs0: seq<File>, inputs1: seq<File>,
                             outputs: seq<File>)
    requires ChosenInputs(before, L, inputs0, inputs1) && DrawnFrom(inputs0, inputs1, outputs)
    requires Replaced(before, after, L, inputs0, inputs1, outputs)
    ensures VersionEntries(after) == Outside(before, L, inputs0, inputs1) + Contents(outputs)
    ensures VersionEntries(after) <= VersionEntries(before)
  {
    hide Replaced, UpperClosed, LowerInputs, ValidFile, Ordered;
    EntriesSplit(before, L, inputs0, inputs1);
    ReplacedEntries(before, after, L, inputs0, inputs1, outputs);
  }
}
