/** Whole runs: the database is a map of last writes, and a live snapshot is frozen. */
module Runs {
  import opened Keys
  import opened Files
  import opened Inputs
  import opened Versions
  import opened Replacement
  import opened Database
  import opened Reads

  ghost predicate IsRun(states: seq<State>, steps: seq<Step>) {
    && |states| == |steps| + 1
    && forall i :: 0 <= i < |steps| ==> Next(states[i], states[i + 1], steps[i])
  }

  lemma NoStepsYet(s: State)
    ensures IsRun([s], [])
  {
  }

  lemma OneStepMore(states: seq<State>, steps: seq<Step>, step: Step, s: State)
    requires IsRun(states, steps) && Next(states[|steps|], s, step)
    ensures IsRun(states + [s], steps + [step])
  {
    hide Next;
    var longer, more := states + [s], steps + [step];
    forall i | 0 <= i < |more| ensures Next(longer[i], longer[i + 1], more[i]) {
      if i < |steps| {
        assert Next(states[i], states[i + 1], steps[i]);
      }
    }
  }

  lemma RunsJoin(states: seq<State>, steps: seq<Step>, states': seq<State>, steps': seq<Step>)
    requires IsRun(states, steps) && IsRun(states', steps') && states[|steps|] == states'[0]
    ensures IsRun(states + states'[1..], steps + steps')
    ensures (states + states'[1..])[|steps + steps'|] == states'[|steps'|]
  {
    hide Next;
    var longer, more := states + states'[1..], steps + steps';
    forall i | 0 <= i < |more| ensures Next(longer[i], longer[i + 1], more[i]) {
      if i < |steps| {
        assert Next(states[i], states[i + 1], steps[i]);
      } else {
        assert longer[i] == states'[i - |steps|];
        assert Next(states'[i - |steps|], states'[i - |steps| + 1], steps'[i - |steps|]);
      }
    }
  }

  /** The one thing a step must be asked for: a compaction uncovers nothing. */
  ghost predicate Safe(s: State, step: Step) {
    (step.Compact? && step.upper + 2 <= |s.levels|) ==>
      UncoversNothing(s, step.upper, step.inputs0, step.inputs1, step.merged)
  }

  ghost predicate SafeRun(states: seq<State>, steps: seq<Step>) {
    IsRun(states, steps) && forall i :: 0 <= i < |steps| ==> Safe(states[i], steps[i])
  }

  lemma SafeRunsJoin(states: seq<State>, steps: seq<Step>, states': seq<State>, steps': seq<Step>)
    requires SafeRun(states, steps) && SafeRun(states', steps') && states[|steps|] == states'[0]
    ensures SafeRun(states + states'[1..], steps + steps')
    ensures (states + states'[1..])[|steps + steps'|] == states'[|steps'|]
  {
    hide Next, Safe;
    RunsJoin(states, steps, states', steps');
    var longer, more := states + states'[1..], steps + steps';
    forall i | 0 <= i < |more| ensures Safe(longer[i], more[i]) {
      if i >= |steps| {
        assert Safe(states'[i - |steps|], steps'[i - |steps|]);
      }
    }
  }

  /** A compaction whose lower inputs are closed under boundary files is safe. */
  lemma BoundaryClosedIsSafe(s: State, s': State, step: Step)
    requires Inv(s) && Next(s, s', step)
    requires step.Compact? ==> step.upper + 1 < |s.levels| && BoundaryClosed(s.levels[step.upper + 1], step.inputs1)
    ensures Safe(s, step)
  {
    hide Inv, ChosenInputs, MergedInputs, UncoversNothing;
    if step.Compact? && step.upper + 2 <= |s.levels| {
      BoundaryClosedUncoversNothing(s, step.upper, step.inputs0, step.inputs1, step.merged);
    }
  }

  // -------------------------------------------------------------------------- one step

  /** A safe step changes no read at a sequence number already given out, except that a
      compaction speaks only for those the smallest snapshot allows. */
  lemma StepKeepsReads(s: State, s': State, step: Step, user: UserKey, q: nat)
    requires Inv(s) && Next(s, s', step) && Safe(s, step)
    requires q <= s.lastSequence && (step.Compact? ==> q >= SmallestSnapshot(s))
    ensures Read(Entries(s'), user, q) == Read(Entries(s), user, q)
  {
    hide Inv, WriteStep, FlushStep, MoveStep, CompactStep, Entries, UncoversNothing, Read;
    match step {
      case Write(u, kind, value) =>
        WriteKeepsInv(s, s', u, kind, value);
        LaterWriteIsUnseen(s, s', Entry(InternalKey(u, s.lastSequence + 1, kind), value), user, q);
      case SwitchMemTable => SwitchKeepsInv(s, s');
      case FlushNothing => FlushNothingKeepsInv(s, s');
      case Flush(level, f) => FlushKeepsInv(s, s', level, f);
      case Move(from, file) => MoveKeepsInv(s, s', from, file);
      case Compact(upper, inputs0, inputs1, merged, outputs) =>
        CompactionLevels(s, s', upper, inputs0, inputs1, merged, outputs);
        CompactionKeepsReadsExactly(s, s', upper, inputs0, inputs1, merged, outputs);
      case TakeSnapshot => SnapshotStepKeepsInv(s, s', step);
      case ReleaseSnapshot(i) => SnapshotStepKeepsInv(s, s', step);
    }
  }

  lemma CompactionLevels(s: State, s': State, L: nat, inputs0: seq<File>, inputs1: seq<File>, merged: seq<Entry>,
                         outputs: seq<File>)
    requires CompactStep(s, s', L, inputs0, inputs1, merged, outputs)
    ensures L + 2 <= |s.levels|
  {
  }

  lemma LaterWriteIsUnseen(s: State, s': State, e: Entry, user: UserKey, q: nat)
    requires Inv(s) && Inv(s') && Entries(s') == Entries(s) + {e}
    requires e.key.sequence == s.lastSequence + 1 && q <= s.lastSequence
    ensures Read(Entries(s'), user, q) == Read(Entries(s), user, q)
  {
    hide Inv, Entries;
    WrittenInv(s');
    SameReads(Entries(s'), Entries(s), user, q, Entries(s'));
  }

  lemma WriteIsRead(s: State, s': State, user: UserKey, kind: Kind, value: string, other: UserKey)
    requires Inv(s) && WriteStep(s, s', user, kind, value)
    ensures Read(Entries(s'), user, s'.lastSequence) == if kind.Value? then Some(value) else None
    ensures other != user ==> Read(Entries(s'), other, s'.lastSequence) == Read(Entries(s), other, s.lastSequence)
  {
    hide Inv, Entries, WriteStep;
    WriteKeepsInv(s, s', user, kind, value);
    WrittenInv(s);
    WrittenInv(s');
    WriteAdvances(s, s', user, kind, value);
    NewestWriteIsRead(Entries(s), Entry(InternalKey(user, s.lastSequence + 1, kind), value), s.lastSequence, other);
  }

  lemma WriteAdvances(s: State, s': State, user: UserKey, kind: Kind, value: string)
    requires WriteStep(s, s', user, kind, value)
    ensures s'.lastSequence == s.lastSequence + 1 < MAX_SEQUENCE
  {
  }

  lemma NewestWriteIsRead(es: set<Entry>, e: Entry, last: nat, other: UserKey)
    requires WrittenBy(es, last) && DistinctSequences(es) && DistinctSequences(es + {e}) && e.key.sequence == last + 1
    ensures Read(es + {e}, e.key.user, last + 1) == if e.key.kind.Value? then Some(e.value) else None
    ensures other != e.key.user ==> Read(es + {e}, other, last + 1) == Read(es, other, last)
  {
    hide Read, DistinctSequences;
    assert Newest(es + {e}, e.key.user, last + 1, e);
    ReadIs(es + {e}, e.key.user, last + 1, e);
    if other != e.key.user {
      SameReads(es + {e}, es, other, last + 1, es + {e});
      LaterBoundReadsSame(es, other, last);
    }
  }

  lemma WrittenInv(s: State)
    requires Inv(s)
    ensures WrittenBy(Entries(s), s.lastSequence) && DistinctSequences(Entries(s))
  {
  }

  lemma LaterBoundReadsSame(es: set<Entry>, user: UserKey, last: nat)
    requires WrittenBy(es, last) && DistinctSequences(es)
    ensures Read(es, user, last + 1) == Read(es, user, last)
  {
    if HasVisible(es, user, last) {
      var e := NewestExists(es, user, last);
      assert Newest(es, user, last + 1, e);
      ReadIs(es, user, last, e);
      ReadIs(es, user, last + 1, e);
    } else {
      assert !HasVisible(es, user, last + 1);
    }
  }

  // ------------------------------------------------------------------------- whole runs

  lemma {:induction false} RunKeepsInv(states: seq<State>, steps: seq<Step>, i: nat)
    requires IsRun(states, steps) && Inv(states[0]) && i < |states|
    ensures Inv(states[i])
  {
    hide Inv, Next;
    if i > 0 {
      RunKeepsInv(states, steps, i - 1);
      NextKeepsInv(states[i - 1], states[i], steps[i - 1]);
    }
  }

  /** What a map that records the writes of a run holds for `user`. */
  ghost function LastWrite(steps: seq<Step>, user: UserKey): Option<string> {
    if steps == [] then None else
      var step := steps[|steps| - 1];
      if step.Write? && step.user == user then (if step.kind.Value? then Some(step.value) else None)
      else LastWrite(steps[..|steps| - 1], user)
  }

  lemma SmallestIsPast(s: State)
    requires Inv(s)
    ensures SmallestSnapshot(s) <= s.lastSequence
    ensures forall i :: 0 <= i < |s.snapshots| ==> SmallestSnapshot(s) <= s.snapshots[i] <= s.lastSequence
  {
    hide ValidVersion, Newer, DistinctSequences, WrittenBy;
  }

  /** A step other than a write leaves the latest state alone; a write updates one key. */
  lemma StepUpdatesMap(s: State, s': State, step: Step, user: UserKey)
    requires Inv(s) && Next(s, s', step) && Safe(s, step)
    ensures Read(Entries(s'), user, s'.lastSequence) ==
              if step.Write? && step.user == user then (if step.kind.Value? then Some(step.value) else None)
              else Read(Entries(s), user, s.lastSequence)
  {
    hide Inv, Safe, Entries, Read, WriteStep;
    SmallestIsPast(s);
    if step.Write? {
      WriteIsRead(s, s', step.user, step.kind, step.value, user);
    } else {
      assert s'.lastSequence == s.lastSequence;
      StepKeepsReads(s, s', step, user, s.lastSequence);
    }
  }

  lemma InitReadsNothing(s: State, user: UserKey)
    requires Init(s)
    ensures Read(Entries(s), user, s.lastSequence) == None
  {
    hide ValidVersion, VersionEntries;
    EmptyVersion(s.levels, s.nextFile);
    assert Entries(s) == {};
    ReadNothing(Entries(s), user, s.lastSequence);
  }

  /** From an empty database, after any safe run of writes, flushes, moves, compactions and
      snapshots, a read of the present returns the last write of its key. */
  lemma {:induction false} LatestReadIsLastWrite(states: seq<State>, steps: seq<Step>, i: nat, user: UserKey)
    requires SafeRun(states, steps) && Init(states[0]) && i < |states|
    ensures Read(Entries(states[i]), user, states[i].lastSequence) == LastWrite(steps[..i], user)
  {
    hide Inv, Next, Safe, Entries, Read, Init;
    if i == 0 {
      InitReadsNothing(states[0], user);
    } else {
      LatestReadIsLastWrite(states, steps, i - 1, user);
      InitHasInv(states[0]);
      RunKeepsInv(states, steps, i - 1);
      StepUpdatesMap(states[i - 1], states[i], steps[i - 1], user);
      assert steps[..i][..i - 1] == steps[..i - 1];
    }
  }

  ghost predicate LiveThroughout(states: seq<State>, i: nat, j: nat, q: nat)
    requires i <= j < |states|
  {
    forall k :: i <= k <= j ==> q in states[k].snapshots
  }

  /** While a snapshot is live, no safe step changes what it reads. */
  lemma {:induction false} LiveSnapshotIsFrozen(states: seq<State>, steps: seq<Step>, i: nat, j: nat, q: nat,
                                                user: UserKey)
    requires SafeRun(states, steps) && Inv(states[0])
    requires i <= j < |states| && LiveThroughout(states, i, j, q)
    ensures Read(Entries(states[j]), user, q) == Read(Entries(states[i]), user, q)
    decreases j - i
  {
    hide Inv, Next, Safe, Entries, Read;
    if i < j {
      LiveSnapshotIsFrozen(states, steps, i, j - 1, q, user);
      RunKeepsInv(states, steps, j - 1);
      SmallestIsPast(states[j - 1]);
      assert q in states[j - 1].snapshots;
      StepKeepsReads(states[j - 1], states[j], steps[j - 1], user, q);
    }
  }

  /** A snapshot taken at step i reads, for as long as it is live, the last writes made
      before it was taken. */
  lemma SnapshotReadsItsMoment(states: seq<State>, steps: seq<Step>, i: nat, j: nat, user: UserKey)
    requires SafeRun(states, steps) && Init(states[0])
    requires i < j < |states| && steps[i].TakeSnapshot?
    requires LiveThroughout(states, i + 1, j, states[i].lastSequence)
    ensures Read(Entries(states[j]), user, states[i].lastSequence) == LastWrite(steps[..i], user)
  {
    InitHasInv(states[0]);
    RunKeepsInv(states, steps, i);
    assert Next(states[i], states[i + 1], steps[i]);
    hide Inv, Safe, Entries, Read, Init;
    LiveSnapshotIsFrozen(states, steps, i + 1, j, states[i].lastSequence, user);
    StepKeepsReads(states[i], states[i + 1], steps[i], user, states[i].lastSequence);
    LatestReadIsLastWrite(states, steps, i, user);
  }
}
