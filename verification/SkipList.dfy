/** The skip list of a memtable: one writer linking nodes step by step while readers
    search, every load and store an atomic step. */
module SkipLists {
  import opened Keys
  import Cursors
  import Database
  import Lookup

  const MAX_HEIGHT: nat := 12

  datatype Link = Unset | Null | To(node: nat)

  /** Nodes are numbered; node 0 is the head, whose entry is never looked at. */
  datatype List = List(entries: seq<Entry>, next: seq<seq<Link>>, maxHeight: nat)

  /** Where the one writer stands in an insertion: about to raise the list's height, to
      create its node, to copy the successor at level i, or to publish the node there. */
  datatype Writer =
    | Idle
    | Raising(entry: Entry, prev: seq<nat>)
    | Creating(entry: Entry, prev: seq<nat>)
    | Copying(node: nat, prev: seq<nat>, i: nat)
    | Publishing(node: nat, prev: seq<nat>, i: nat)

  /** `chains[l]` are the nodes linked at level l, head first. */
  datatype State = State(list: List, writer: Writer, chains: seq<seq<nat>>)

  // ----------------------------------------------------------------------- the writer

  /** `node` stands at place `at` of the chain, the last one before the new entry. */
  ghost predicate SplitsAt(list: List, chain: seq<nat>, e: Entry, node: nat, at: nat) {
    && at < |chain| && chain[at] == node
    && (forall k :: 1 <= k <= at && chain[k] < |list.entries| ==> Less(list.entries[chain[k]].key, e.key))
    && (forall k :: at < k < |chain| && chain[k] < |list.entries| ==> Less(e.key, list.entries[chain[k]].key))
  }

  ghost predicate LastBefore(list: List, chain: seq<nat>, e: Entry, node: nat) {
    exists at :: SplitsAt(list, chain, e, node, at)
  }

  /** Where the new node is to be linked, from level `from` up. */
  ghost predicate PrevsFit(list: List, chains: seq<seq<nat>>, e: Entry, prev: seq<nat>, from: nat) {
    && 1 <= |prev| <= MAX_HEIGHT && |chains| == MAX_HEIGHT
    && forall l :: from <= l < |prev| ==> LastBefore(list, chains[l], e, prev[l])
  }

  function WithLink(list: List, node: nat, level: nat, link: Link): List
    requires node < |list.next| && level < |list.next[node]|
  {
    list.(next := list.next[node := list.next[node][level := link]])
  }

  function AfterLevel(node: nat, prev: seq<nat>, i: nat): Writer {
    if i + 1 < |prev| then Copying(node, prev, i + 1) else Idle
  }

  ghost predicate Begins(s: State, s': State, e: Entry, prev: seq<nat>) {
    && s.writer.Idle? && PrevsFit(s.list, s.chains, e, prev, 0)
    && s' == s.(writer := if |prev| > s.list.maxHeight then Raising(e, prev) else Creating(e, prev))
  }

  ghost predicate Raises(s: State, s': State) {
    && s.writer.Raising?
    && s' == s.(list := s.list.(maxHeight := |s.writer.prev|), writer := Creating(s.writer.entry, s.writer.prev))
  }

  ghost predicate Creates(s: State, s': State) {
    && s.writer.Creating?
    && s' == s.(list := s.list.(entries := s.list.entries + [s.writer.entry],
                                next := s.list.next + [seq(|s.writer.prev|, _ => Unset)]),
                writer := Copying(|s.list.next|, s.writer.prev, 0))
  }

  ghost predicate Copies(s: State, s': State) {
    && s.writer.Copying?
    && var x, prev, i := s.writer.node, s.writer.prev, s.writer.i;
       && x < |s.list.next| && i < |prev| && i < |s.list.next[x]|
       && prev[i] < |s.list.next| && i < |s.list.next[prev[i]]|
       && s' == s.(list := WithLink(s.list, x, i, s.list.next[prev[i]][i]), writer := Publishing(x, prev, i))
  }

  /** The store that makes the node part of level i. */
  ghost predicate Publishes(s: State, s': State, at: nat) {
    && s.writer.Publishing?
    && var x, prev, i := s.writer.node, s.writer.prev, s.writer.i;
       && i < |prev| && prev[i] < |s.list.next| && i < |s.list.next[prev[i]]|
       && i < |s.chains| && at < |s.chains[i]| && s.chains[i][at] == prev[i]
       && s' == State(WithLink(s.list, prev[i], i, To(x)), AfterLevel(x, prev, i),
                      s.chains[i := s.chains[i][..at + 1] + [x] + s.chains[i][at + 1..]])
  }

  ghost predicate WriterStep(s: State, s': State) {
    || (exists e, prev :: Begins(s, s', e, prev))
    || Raises(s, s') || Creates(s, s') || Copies(s, s')
    || exists at :: Publishes(s, s', at)
  }

  // ---------------------------------------------------------------------- the invariant

  /** Level l is a list through `chain`, sorted, ending in a null link. */
  ghost predicate Linked(list: List, chain: seq<nat>, l: nat) {
    && |chain| > 0 && chain[0] == 0
    && (forall k :: 0 <= k < |chain| ==> chain[k] < |list.next| && l < |list.next[chain[k]]|)
    && (forall k :: 0 <= k < |chain| ==>
          list.next[chain[k]][l] == if k + 1 < |chain| then To(chain[k + 1]) else Null)
  }

  ghost predicate InOrder(list: List, chain: seq<nat>) {
    && (forall k :: 1 <= k < |chain| ==> 0 < chain[k] < |list.entries|)
    && forall i, j :: 1 <= i < j < |chain| ==> Less(list.entries[chain[i]].key, list.entries[chain[j]].key)
  }

  /** Every node of a level is in the levels below. */
  ghost predicate Nested(chains: seq<seq<nat>>) {
    forall l, m, n :: 0 <= l < m < |chains| && n in chains[m] ==> n in chains[l]
  }

  /** The new node is linked below level i and nowhere else yet. */
  ghost predicate Pending(s: State, x: nat, prev: seq<nat>, i: nat) {
    && 0 < x < |s.list.entries| == |s.list.next| && x + 1 == |s.list.next|
    && i < |prev| <= s.list.maxHeight && |s.list.next[x]| == |prev|
    && PrevsFit(s.list, s.chains, s.list.entries[x], prev, i)
    && (forall l :: i <= l < MAX_HEIGHT ==> x !in s.chains[l])
    && (forall l :: 0 <= l < i ==> x in s.chains[l])
  }

  ghost predicate WriterFits(s: State) {
    match s.writer
    case Idle => true
    case Raising(e, prev) => PrevsFit(s.list, s.chains, e, prev, 0) && |prev| > s.list.maxHeight
    case Creating(e, prev) => PrevsFit(s.list, s.chains, e, prev, 0) && |prev| <= s.list.maxHeight
    case Copying(x, prev, i) => Pending(s, x, prev, i)
    case Publishing(x, prev, i) =>
      && Pending(s, x, prev, i)
      && prev[i] < x && i < |s.list.next[prev[i]]| && s.list.next[x][i] == s.list.next[prev[i]][i]
  }

  ghost predicate Inv(s: State) {
    && |s.list.entries| == |s.list.next| && |s.chains| == MAX_HEIGHT && 1 <= s.list.maxHeight <= MAX_HEIGHT
    && (forall l :: 0 <= l < MAX_HEIGHT ==> Linked(s.list, s.chains[l], l) && InOrder(s.list, s.chains[l]))
    && (forall l :: s.list.maxHeight <= l < MAX_HEIGHT ==> s.chains[l] == [0])
    && Nested(s.chains)
    && WriterFits(s)
  }

  /** What the list holds: the entries linked at level zero. */
  ghost function Contents(s: State): seq<Entry>
    requires Inv(s)
  {
    seq(|s.chains[0]| - 1, k requires 0 <= k < |s.chains[0]| - 1 => s.list.entries[s.chains[0][k + 1]])
  }

  // ----------------------------------------------------------- every store keeps it

  lemma RaiseKeepsInv(s: State, s': State)
    requires Inv(s) && Raises(s, s')
    ensures Inv(s') && Contents(s') == Contents(s)
  {
    hide InOrder, Linked, Nested, LastBefore;
    forall l | 0 <= l < MAX_HEIGHT ensures Linked(s'.list, s'.chains[l], l) && InOrder(s'.list, s'.chains[l]) {
      SameLinks(s.list, s'.list, s.chains[l], l);
    }
    forall l | 0 <= l < |s.writer.prev| ensures LastBefore(s'.list, s.chains[l], s.writer.entry, s.writer.prev[l]) {
      ChainInRange(s, l);
      SameSplit(s.list, s'.list, s.chains[l], s.writer.entry, s.writer.prev[l]);
    }
  }

  /** A chain stays a list when the links and entries of its nodes stay. */
  lemma SameLinks(list: List, list': List, chain: seq<nat>, l: nat)
    requires Linked(list, chain, l) && InOrder(list, chain)
    requires |list.next| <= |list'.next| && |list.entries| <= |list'.entries|
    requires forall n :: n in chain && n < |list.next| && l < |list.next[n]| ==>
      l < |list'.next[n]| && list'.next[n][l] == list.next[n][l]
    requires forall n :: 0 <= n < |list.entries| ==> list'.entries[n] == list.entries[n]
    ensures Linked(list', chain, l) && InOrder(list', chain)
  {
  }

  lemma SameSplit(list: List, list': List, chain: seq<nat>, e: Entry, node: nat)
    requires LastBefore(list, chain, e, node) && forall k :: 0 <= k < |chain| ==> chain[k] < |list.entries|
    requires |list.entries| <= |list'.entries|
    requires forall n :: 0 <= n < |list.entries| ==> list'.entries[n] == list.entries[n]
    ensures LastBefore(list', chain, e, node)
  {
    var at: nat :| SplitsAt(list, chain, e, node, at);
    assert SplitsAt(list', chain, e, node, at);
  }

  lemma BeginKeepsInv(s: State, s': State, e: Entry, prev: seq<nat>)
    requires Inv(s) && Begins(s, s', e, prev)
    ensures Inv(s') && Contents(s') == Contents(s)
  {
  }

  lemma ChainInRange(s: State, l: nat)
    requires Inv(s) && l < MAX_HEIGHT
    ensures forall k :: 0 <= k < |s.chains[l]| ==> s.chains[l][k] < |s.list.entries|
  {
  }

  lemma CreateKeepsInv(s: State, s': State)
    requires Inv(s) && Creates(s, s')
    ensures Inv(s') && Contents(s') == Contents(s)
  {
    var e, prev := s.writer.entry, s.writer.prev;
    assert Linked(s.list, s.chains[0], 0) && |s.list.entries| > 0;
    forall l | 0 <= l < MAX_HEIGHT ensures |s.list.entries| !in s.chains[l] {
      ChainInRange(s, l);
    }
    hide InOrder, Linked, Nested, LastBefore;
    forall l | 0 <= l < MAX_HEIGHT ensures Linked(s'.list, s'.chains[l], l) && InOrder(s'.list, s'.chains[l]) {
      SameLinks(s.list, s'.list, s.chains[l], l);
    }
    forall l | 0 <= l < |prev| ensures LastBefore(s'.list, s.chains[l], e, prev[l]) {
      ChainInRange(s, l);
      SameSplit(s.list, s'.list, s.chains[l], e, prev[l]);
    }
  }

  lemma CopyKeepsInv(s: State, s': State)
    requires Inv(s) && Copies(s, s')
    ensures Inv(s') && Contents(s') == Contents(s)
  {
    var x, prev, i := s.writer.node, s.writer.prev, s.writer.i;
    hide InOrder, Linked, Nested, LastBefore;
    forall l | 0 <= l < MAX_HEIGHT ensures Linked(s'.list, s'.chains[l], l) && InOrder(s'.list, s'.chains[l]) {
      SameLinks(s.list, s'.list, s.chains[l], l);
    }
    forall l | i <= l < |prev| ensures LastBefore(s'.list, s.chains[l], s.list.entries[x], prev[l]) {
      ChainInRange(s, l);
      SameSplit(s.list, s'.list, s.chains[l], s.list.entries[x], prev[l]);
    }
    PrevIsOlder(s, x, prev, i);
  }

  lemma PrevIsOlder(s: State, x: nat, prev: seq<nat>, i: nat)
    requires Inv(s) && Pending(s, x, prev, i)
    ensures prev[i] < x && prev[i] in s.chains[i]
  {
    assert LastBefore(s.list, s.chains[i], s.list.entries[x], prev[i]);
    var at: nat :| SplitsAt(s.list, s.chains[i], s.list.entries[x], prev[i], at);
    ChainInRange(s, i);
    assert s.chains[i][at] in s.chains[i];
  }

  lemma PublishedChain(list: List, chain: seq<nat>, i: nat, x: nat, at: nat)
    requires Linked(list, chain, i) && InOrder(list, chain) && |list.entries| == |list.next|
    requires 0 < x < |list.entries| && x !in chain && i < |list.next[x]|
    requires at < |chain| && SplitsAt(list, chain, list.entries[x], chain[at], at)
    requires list.next[x][i] == list.next[chain[at]][i]
    ensures Linked(WithLink(list, chain[at], i, To(x)), chain[..at + 1] + [x] + chain[at + 1..], i)
  {
    var list', chain' := WithLink(list, chain[at], i, To(x)), chain[..at + 1] + [x] + chain[at + 1..];
    NodesDiffer(list, chain);
    ChainInserted(chain, x, at);
    forall k | 0 <= k < |chain'|
      ensures chain'[k] < |list'.next| && i < |list'.next[chain'[k]]|
      ensures list'.next[chain'[k]][i] == if k + 1 < |chain'| then To(chain'[k + 1]) else Null
    {
      if k < at {
        assert chain'[k] != chain[at] && list'.next[chain'[k]] == list.next[chain[k]];
      } else if k == at {
        assert list'.next[chain[at]][i] == To(x);
      } else {
        assert chain'[k] != chain[at] && list'.next[chain'[k]] == list.next[chain'[k]];
      }
    }
    assert Linked(list', chain', i);
  }

  lemma PublishedInOrder(list: List, chain: seq<nat>, x: nat, at: nat)
    requires InOrder(list, chain) && 0 < x < |list.entries| && at < |chain|
    requires SplitsAt(list, chain, list.entries[x], chain[at], at)
    ensures InOrder(list, chain[..at + 1] + [x] + chain[at + 1..])
  {
    ChainInserted(chain, x, at);
  }

  lemma ChainInserted(chain: seq<nat>, x: nat, at: nat)
    requires at < |chain|
    ensures var chain' := chain[..at + 1] + [x] + chain[at + 1..];
      && |chain'| == |chain| + 1
      && forall k :: 0 <= k < |chain'| ==>
           chain'[k] == if k <= at then chain[k] else if k == at + 1 then x else chain[k - 1]
  {
  }

  lemma NodesDiffer(list: List, chain: seq<nat>)
    requires InOrder(list, chain) && |chain| > 0 && chain[0] == 0
    ensures forall j, k :: 0 <= j < k < |chain| ==> chain[j] != chain[k]
  {
    forall j, k | 0 <= j < k < |chain| ensures chain[j] != chain[k] {
      assert j >= 1 ==> Less(list.entries[chain[j]].key, list.entries[chain[k]].key);
    }
  }

  lemma PublishedLevels(s: State, s': State, at: nat)
    requires Inv(s) && Publishes(s, s', at)
    requires SplitsAt(s.list, s.chains[s.writer.i], s.list.entries[s.writer.node], s.writer.prev[s.writer.i], at)
    ensures forall l :: 0 <= l < MAX_HEIGHT ==> Linked(s'.list, s'.chains[l], l) && InOrder(s'.list, s'.chains[l])
  {
    var x, prev, i := s.writer.node, s.writer.prev, s.writer.i;
    PublishedChain(s.list, s.chains[i], i, x, at);
    PublishedInOrder(s.list, s.chains[i], x, at);
    hide InOrder, Linked, Nested, LastBefore;
    forall l | 0 <= l < MAX_HEIGHT ensures Linked(s'.list, s'.chains[l], l) && InOrder(s'.list, s'.chains[l]) {
      if l == i {
        SameOrder(s.list, s'.list, s'.chains[i]);
      } else {
        SameLinks(s.list, s'.list, s.chains[l], l);
      }
    }
  }

  lemma SameOrder(list: List, list': List, chain: seq<nat>)
    requires InOrder(list, chain) && list'.entries == list.entries
    ensures InOrder(list', chain)
  {
  }

  lemma PublishedNested(chains: seq<seq<nat>>, i: nat, x: nat, at: nat)
    requires Nested(chains) && i < |chains| && at < |chains[i]|
    requires (forall l :: 0 <= l < i ==> x in chains[l])
    ensures Nested(chains[i := chains[i][..at + 1] + [x] + chains[i][at + 1..]])
    ensures forall n :: n in chains[i][..at + 1] + [x] + chains[i][at + 1..] <==> n in chains[i] || n == x
  {
    var chain := chains[i][..at + 1] + [x] + chains[i][at + 1..];
    assert chains[i] == chains[i][..at + 1] + chains[i][at + 1..];
    assert forall n :: n in chain <==> n in chains[i] || n == x;
  }

  /** The split a writer found stays right: only its own node is added meanwhile. */
  lemma SplitIsUnique(list: List, chain: seq<nat>, e: Entry, node: nat, at: nat, at': nat)
    requires Linked(list, chain, 0) || (|chain| > 0 && chain[0] == 0)
    requires InOrder(list, chain) && SplitsAt(list, chain, e, node, at) && at' < |chain| && chain[at'] == node
    ensures at' == at
  {
    NodesDiffer(list, chain);
  }

  lemma PublishKeepsInv(s: State, s': State, at: nat)
    requires Inv(s) && Publishes(s, s', at)
    ensures Inv(s')
  {
    var x, prev, i := s.writer.node, s.writer.prev, s.writer.i;
    var e := s.list.entries[x];
    PublishSplits(s, s', at);
    PublishedLevels(s, s', at);
    PublishedNested(s.chains, i, x, at);
    hide InOrder, Linked, Nested, LastBefore, SplitsAt;
    forall l | i < l < |prev| ensures LastBefore(s'.list, s'.chains[l], e, prev[l]) {
      ChainInRange(s, l);
      SameSplit(s.list, s'.list, s.chains[l], e, prev[l]);
    }
  }

  lemma PublishSplits(s: State, s': State, at: nat)
    requires Inv(s) && Publishes(s, s', at)
    ensures SplitsAt(s.list, s.chains[s.writer.i], s.list.entries[s.writer.node], s.writer.prev[s.writer.i], at)
  {
    var x, prev, i := s.writer.node, s.writer.prev, s.writer.i;
    assert LastBefore(s.list, s.chains[i], s.list.entries[x], prev[i]);
    var at': nat :| SplitsAt(s.list, s.chains[i], s.list.entries[x], prev[i], at');
    SplitIsUnique(s.list, s.chains[i], s.list.entries[x], prev[i], at', at);
  }

  /** The store at level zero is the insertion; those above it change no contents. */
  lemma PublishInserts(s: State, s': State, at: nat)
    requires Inv(s) && Inv(s') && Publishes(s, s', at)
    ensures Contents(s') == if s.writer.i == 0 then Database.InsertSorted(Contents(s), s.list.entries[s.writer.node])
                            else Contents(s)
  {
    var x, i := s.writer.node, s.writer.i;
    if i == 0 {
      PublishSplits(s, s', at);
      InsertedContents(s, x, at);
      ChainInserted(s.chains[0], x, at);
    }
  }

  /** The contents with one more node linked where the split is. */
  lemma InsertedContents(s: State, x: nat, at: nat)
    requires Inv(s) && x < |s.list.entries| && at < |s.chains[0]|
    requires SplitsAt(s.list, s.chains[0], s.list.entries[x], s.chains[0][at], at)
    ensures var chain' := s.chains[0][..at + 1] + [x] + s.chains[0][at + 1..];
      && (forall k :: 0 <= k < |chain'| ==> chain'[k] < |s.list.entries|)
      && seq(|chain'| - 1, k requires 0 <= k < |chain'| - 1 => s.list.entries[chain'[k + 1]])
         == Database.InsertSorted(Contents(s), s.list.entries[x])
  {
    var run, e := Contents(s), s.list.entries[x];
    ChainInserted(s.chains[0], x, at);
    ChainInRange(s, 0);
    forall k | 0 <= k < |run| ensures Less(run[k].key, e.key) <==> k < at {
      assert run[k] == s.list.entries[s.chains[0][k + 1]];
    }
    BoundIs(run, e.key, at);
  }

  lemma BoundIs(run: seq<Entry>, key: InternalKey, at: nat)
    requires at <= |run| && forall k :: 0 <= k < |run| ==> (Less(run[k].key, key) <==> k < at)
    ensures LowerBound(run, key) == at
  {
    var r := LowerBound(run, key);
    assert at < |run| ==> !Less(run[at].key, key);
    assert !(at < r) && !(r < at);
  }

  // ------------------------------------------------------------------------- the readers

  datatype Search = AtOrAfter(target: InternalKey) | Before(target: InternalKey) | End

  predicate Follows(search: Search, key: InternalKey) {
    match search
    case AtOrAfter(target) => Less(key, target)
    case Before(target) => Less(key, target)
    case End => true
  }

  /** A search under way stands on node x of a level; finished, it has node x and the last
      link loaded from it. */
  datatype Reader = Searching(search: Search, x: nat, level: nat) | Finished(search: Search, x: nat, link: Link)

  /** A search stands on the head, or on a node of its level that it was right to step to. */
  ghost predicate ReaderFits(s: State, r: Reader) {
    r.Searching? ==>
      && |s.chains| == MAX_HEIGHT && r.level < MAX_HEIGHT && r.x in s.chains[r.level]
      && (r.x == 0 || (r.x < |s.list.entries| && Follows(r.search, s.list.entries[r.x].key)))
  }

  predicate CanLoad(list: List, r: Reader) {
    && r.Searching? && r.x < |list.next| && r.level < |list.next[r.x]|
    && list.next[r.x][r.level] != Unset
    && (list.next[r.x][r.level].To? ==> list.next[r.x][r.level].node < |list.entries|)
  }

  /** One load, and what the search makes of it. */
  function Load(list: List, r: Reader): Reader
    requires CanLoad(list, r)
  {
    var link := list.next[r.x][r.level];
    if link.To? && Follows(r.search, list.entries[link.node].key) then Searching(r.search, link.node, r.level)
    else if r.level == 0 then Finished(r.search, r.x, link)
    else Searching(r.search, r.x, r.level - 1)
  }

  function Start(list: List, search: Search): Reader {
    Searching(search, 0, if list.maxHeight > 0 then list.maxHeight - 1 else 0)
  }

  /** The place in the contents that a search is for. */
  ghost function Place(run: seq<Entry>, search: Search): (k: nat)
    ensures k <= |run|
  {
    match search
    case AtOrAfter(target) => LowerBound(run, target)
    case Before(target) => LowerBound(run, target)
    case End => |run|
  }

  /** The node before that place, and a link to the node at it. */
  ghost predicate Answers(s: State, r: Reader)
    requires Inv(s)
  {
    && r.Finished?
    && var k := Place(Contents(s), r.search);
       && r.x == s.chains[0][k]
       && r.link == if k < |Contents(s)| then To(s.chains[0][k + 1]) else Null
  }

  /** A reader never loads a link that has not been set, and stays on linked nodes. */
  lemma LoadFits(s: State, r: Reader)
    requires Inv(s) && ReaderFits(s, r) && r.Searching?
    ensures CanLoad(s.list, r) && ReaderFits(s, Load(s.list, r))
  {
    var chain := s.chains[r.level];
    assert Linked(s.list, chain, r.level) && InOrder(s.list, chain);
    var k :| 0 <= k < |chain| && chain[k] == r.x;
    NextInChain(s, r.level, k);
    if r.level > 0 {
      assert r.x in s.chains[r.level - 1];
    }
  }

  /** The last load of a search decides: it answers for the contents at that moment. */
  lemma LastLoadAnswers(s: State, r: Reader)
    requires Inv(s) && ReaderFits(s, r) && r.Searching? && CanLoad(s.list, r) && Load(s.list, r).Finished?
    ensures Answers(s, Load(s.list, r))
  {
    var chain, run := s.chains[0], Contents(s);
    assert Linked(s.list, chain, 0) && InOrder(s.list, chain);
    var k :| 0 <= k < |chain| && chain[k] == r.x;
    assert k > 0 ==> run[k - 1] == s.list.entries[r.x];
    forall j | 0 <= j < |run| ensures Follows(r.search, run[j].key) <==> j < k {
      assert j < k - 1 ==> Less(s.list.entries[chain[j + 1]].key, s.list.entries[chain[k]].key);
      assert k < j ==> Less(s.list.entries[chain[k + 1]].key, s.list.entries[chain[j + 1]].key);
    }
    if !r.search.End? {
      BoundIs(run, r.search.target, k);
    }
  }

  // ------------------------------------------------------------------- all interleavings

  datatype Config = Config(state: State, reader: Reader)

  /** The writer stores, or a reader loads, or a reader begins a new search. */
  ghost predicate Interleaved(c: Config, c': Config) {
    || (WriterStep(c.state, c'.state) && c'.reader == c.reader)
    || (CanLoad(c.state.list, c.reader) && c'.state == c.state && c'.reader == Load(c.state.list, c.reader))
    || (c'.state == c.state && exists search :: c'.reader == Start(c.state.list, search))
  }

  ghost predicate Fits(c: Config) {
    Inv(c.state) && ReaderFits(c.state, c.reader)
  }

  /** No store takes a node off a level or changes an entry. */
  ghost predicate Grows(s: State, s': State) {
    && |s.chains| == |s'.chains| == MAX_HEIGHT
    && (forall l, n :: 0 <= l < MAX_HEIGHT && n in s.chains[l] ==> n in s'.chains[l])
    && |s.list.entries| <= |s'.list.entries|
    && forall n :: 0 <= n < |s.list.entries| ==> s'.list.entries[n] == s.list.entries[n]
  }

  lemma PublishGrows(s: State, s': State, at: nat)
    requires Inv(s) && Publishes(s, s', at)
    ensures Grows(s, s')
  {
    var x, i := s.writer.node, s.writer.i;
    PublishedNested(s.chains, i, x, at);
  }

  lemma StoreKeepsInv(s: State, s': State)
    requires Inv(s) && WriterStep(s, s')
    ensures Inv(s') && Grows(s, s')
    ensures Contents(s') == Contents(s)
      || (s.writer.Publishing? && s.writer.i == 0 && s.writer.node < |s.list.entries|
          && Contents(s') == Database.InsertSorted(Contents(s), s.list.entries[s.writer.node]))
  {
    hide Inv;
    if e, prev :| Begins(s, s', e, prev) {
      BeginKeepsInv(s, s', e, prev);
      InvShape(s);
    } else if Raises(s, s') {
      RaiseKeepsInv(s, s');
      InvShape(s);
    } else if Creates(s, s') {
      CreateKeepsInv(s, s');
      InvShape(s);
    } else if Copies(s, s') {
      CopyKeepsInv(s, s');
      InvShape(s);
    } else {
      var at: nat :| Publishes(s, s', at);
      PublishKeepsInv(s, s', at);
      PublishGrows(s, s', at);
      PublishInserts(s, s', at);
      InvShape(s);
    }
  }

  lemma InvShape(s: State)
    requires Inv(s)
    ensures |s.chains| == MAX_HEIGHT && 0 in s.chains[0] && 1 <= s.list.maxHeight <= MAX_HEIGHT
    ensures forall l :: 0 <= l < MAX_HEIGHT ==> 0 in s.chains[l]
    ensures s.writer.Publishing? ==> s.writer.node < |s.list.entries|
  {
    forall l | 0 <= l < MAX_HEIGHT ensures 0 in s.chains[l] {
      assert s.chains[l][0] == 0;
    }
  }

  lemma StepFits(c: Config, c': Config)
    requires Fits(c) && Interleaved(c, c')
    ensures Fits(c')
  {
    hide Inv, WriterStep, CanLoad;
    InvShape(c.state);
    if WriterStep(c.state, c'.state) && c'.reader == c.reader {
      StoreKeepsInv(c.state, c'.state);
    } else if CanLoad(c.state.list, c.reader) && c'.state == c.state && c'.reader == Load(c.state.list, c.reader) {
      LoadingReader(c.state.list, c.reader);
      LoadFits(c.state, c.reader);
    }
  }

  lemma LoadingReader(list: List, r: Reader)
    requires CanLoad(list, r)
    ensures r.Searching?
  {
  }

  ghost predicate Interleaving(configs: seq<Config>) {
    && |configs| > 0 && Fits(configs[0])
    && forall i :: 0 <= i && i + 1 < |configs| ==> Interleaved(configs[i], configs[i + 1])
  }

  lemma {:induction false} AlwaysFits(configs: seq<Config>, i: nat)
    requires Interleaving(configs) && i < |configs|
    ensures Fits(configs[i])
  {
    hide Fits, Interleaved;
    if i > 0 {
      AlwaysFits(configs, i - 1);
      StepFits(configs[i - 1], configs[i - 1 + 1]);
    }
  }

  /** However loads and stores interleave, a finished search answers for the contents at its
      last load, and an unfinished one can always load. */
  lemma SearchesLinearise(configs: seq<Config>, i: nat)
    requires Interleaving(configs) && i + 1 < |configs| && configs[i].reader.Searching?
    ensures Inv(configs[i].state) && CanLoad(configs[i].state.list, configs[i].reader)
    ensures configs[i + 1].reader.Finished? ==>
      configs[i + 1].state == configs[i].state && Answers(configs[i].state, configs[i + 1].reader)
  {
    AlwaysFits(configs, i);
    LoadFits(configs[i].state, configs[i].reader);
    assert Interleaved(configs[i], configs[i + 1]);
    hide Inv, WriterStep, Answers;
    if configs[i + 1].reader.Finished? {
      LastLoadAnswers(configs[i].state, configs[i].reader);
    }
  }

  lemma StepGrows(c: Config, c': Config, e: Entry)
    requires Fits(c) && Interleaved(c, c')
    ensures Inv(c'.state) && (e in Contents(c.state) ==> e in Contents(c'.state))
  {
    StepFits(c, c');
    hide Inv, Contents, WriterStep, CanLoad, Database.InsertSorted;
    if WriterStep(c.state, c'.state) {
      StoreKeepsInv(c.state, c'.state);
      if c.state.writer.Publishing? && c.state.writer.node < |c.state.list.entries| {
        InsertSortedKeeps(Contents(c.state), c.state.list.entries[c.state.writer.node], e);
      }
    }
  }

  /** Stores only ever add to the contents. */
  lemma {:induction false} ContentsGrow(configs: seq<Config>, i: nat, j: nat, e: Entry)
    requires Interleaving(configs) && i <= j < |configs|
    ensures Inv(configs[i].state) && Inv(configs[j].state)
    ensures e in Contents(configs[i].state) ==> e in Contents(configs[j].state)
    decreases j - i
  {
    AlwaysFits(configs, i);
    AlwaysFits(configs, j);
    hide Inv, ReaderFits, Interleaved, Contents;
    if i < j {
      var k := j - 1;
      ContentsGrow(configs, i, k, e);
      AlwaysFits(configs, k);
      assert Interleaved(configs[k], configs[k + 1]);
      StepGrows(configs[k], configs[j], e);
    }
  }

  lemma InsertSortedKeeps(run: seq<Entry>, added: Entry, e: Entry)
    ensures e in run ==> e in Database.InsertSorted(run, added)
  {
    var i := LowerBound(run, added.key);
    assert run == run[..i] + run[i..];
  }

  // ------------------------------------------------------ iterators on a list that grows

  /** An iterator is at no node, at a node, or in the middle of a search. */
  datatype Position = Off | On(node: nat) | Looking(reader: Reader)

  function Follow(link: Link): Position {
    if link.To? then On(link.node) else Off
  }

  /** Where a search that has ended leaves the iterator. */
  function Landed(r: Reader): Position
    requires r.Finished?
  {
    match r.search
    case AtOrAfter(_) => Follow(r.link)
    case Before(_) => if r.x == 0 then Off else On(r.x)
    case End => if r.x == 0 then Off else On(r.x)
  }

  /** The steps of an iterator: Next and SeekToFirst are one load, the others searches. */
  ghost predicate Moves(list: List, p: Position, p': Position) {
    || (p.On? && LoadsLink(list, p.node, p'))
    || LoadsLink(list, 0, p')
    || (exists search :: p' == Looking(Start(list, search)))
    || (p.Looking? && CanLoad(list, p.reader)
        && p' == if Load(list, p.reader).Finished? then Landed(Load(list, p.reader)) else Looking(Load(list, p.reader)))
  }

  ghost predicate LoadsLink(list: List, node: nat, p': Position) {
    node < |list.next| && |list.next[node]| > 0 && list.next[node][0] != Unset && p' == Follow(list.next[node][0])
  }

  /** The search for the entry before the one the iterator is at. */
  function PrevSearch(list: List, node: nat): Search
    requires node < |list.entries|
  {
    Before(list.entries[node].key)
  }

  datatype Walk = Walk(state: State, position: Position)

  ghost predicate PositionFits(s: State, p: Position)
    requires Inv(s)
  {
    match p
    case Off => true
    case On(n) => exists k: nat :: At(s, n, k)
    case Looking(r) => r.Searching? && ReaderFits(s, r)
  }

  ghost predicate WalkFits(w: Walk) {
    Inv(w.state) && PositionFits(w.state, w.position)
  }

  ghost predicate WalkStep(w: Walk, w': Walk) {
    || (WriterStep(w.state, w'.state) && w'.position == w.position)
    || (w'.state == w.state && Moves(w.state.list, w.position, w'.position))
  }

  /** The position of a plain cursor at place k of the contents. */
  ghost function PlacedAt(s: State, k: int): Position
    requires Inv(s)
  {
    if 0 <= k < |Contents(s)| then On(s.chains[0][k + 1]) else Off
  }

  /** Where a plain cursor goes. */
  ghost function Target(run: seq<Entry>, search: Search): int {
    match search
    case AtOrAfter(target) => LowerBound(run, target)
    case Before(target) => LowerBound(run, target) - 1
    case End => |run| - 1
  }

  lemma LinkLeadsOn(s: State, k: int, p': Position)
    requires Inv(s) && -1 <= k < |Contents(s)| && LoadsLink(s.list, s.chains[0][k + 1], p')
    ensures p' == PlacedAt(s, k + 1)
  {
    NextInChain(s, 0, k + 1);
    HeadComesFirst(s);
  }

  lemma SearchLands(s: State, r: Reader)
    requires Inv(s) && ReaderFits(s, r) && r.Searching? && CanLoad(s.list, r) && Load(s.list, r).Finished?
    ensures Landed(Load(s.list, r)) == PlacedAt(s, Target(Contents(s), r.search))
  {
    LastLoadAnswers(s, r);
    HeadComesFirst(s);
    hide Linked, InOrder, Nested, WriterFits;
  }

  lemma PlacedFits(s: State, k: int)
    requires Inv(s)
    ensures PositionFits(s, PlacedAt(s, k))
  {
    if 0 <= k < |Contents(s)| {
      assert At(s, s.chains[0][k + 1], k);
    }
  }

  lemma PlacesGrow(s: State, s': State, n: nat)
    requires Inv(s) && Inv(s') && Grows(s, s') && exists k: nat :: At(s, n, k)
    ensures exists k: nat :: At(s', n, k)
  {
    var k: nat :| At(s, n, k);
    HeadComesFirst(s);
    HeadComesFirst(s');
    assert n in s'.chains[0];
    var j :| 0 <= j < |s'.chains[0]| && s'.chains[0][j] == n;
    assert At(s', n, j - 1);
  }

  lemma WalkStepFits(w: Walk, w': Walk)
    requires WalkFits(w) && WalkStep(w, w')
    ensures WalkFits(w')
  {
    hide Inv, WriterStep, CanLoad, At, Contents;
    InvShape(w.state);
    if WriterStep(w.state, w'.state) && w'.position == w.position {
      StoreKeepsInv(w.state, w'.state);
      if w.position.On? {
        PlacesGrow(w.state, w'.state, w.position.node);
      }
    } else {
      MoveFits(w.state, w.position, w'.position);
    }
  }

  lemma MoveFits(s: State, p: Position, p': Position)
    requires Inv(s) && PositionFits(s, p) && Moves(s.list, p, p')
    ensures PositionFits(s, p')
  {
    InvShape(s);
    HeadComesFirst(s);
    hide Linked, InOrder, Nested, WriterFits, CanLoad, LoadsLink;
    if p.On? && LoadsLink(s.list, p.node, p') {
      var k: nat :| At(s, p.node, k);
      LinkLeadsOn(s, k, p');
      PlacedFits(s, k + 1);
    } else if LoadsLink(s.list, 0, p') {
      LinkLeadsOn(s, -1, p');
      PlacedFits(s, 0);
    } else if search :| p' == Looking(Start(s.list, search)) {
    } else {
      LoadFits(s, p.reader);
      if Load(s.list, p.reader).Finished? {
        SearchLands(s, p.reader);
        PlacedFits(s, Target(Contents(s), p.reader.search));
      }
    }
  }

  ghost predicate Walking(ws: seq<Walk>) {
    |ws| > 0 && WalkFits(ws[0]) && forall i :: 0 <= i && i + 1 < |ws| ==> WalkStep(ws[i], ws[i + 1])
  }

  lemma {:induction false} WalksFit(ws: seq<Walk>, i: nat)
    requires Walking(ws) && i < |ws|
    ensures WalkFits(ws[i])
  {
    hide WalkFits, WalkStep;
    if i > 0 {
      WalksFit(ws, i - 1);
      WalkStepFits(ws[i - 1], ws[i - 1 + 1]);
    }
  }

  /** However an iterator's steps and a writer's stores interleave: Next goes to the entry after
      the present one, and a search to the entry it is for, in the contents at their last load. */
  lemma IteratorsLinearise(ws: seq<Walk>, i: nat)
    requires Walking(ws) && i + 1 < |ws| && ws[i + 1].state == ws[i].state
    ensures Inv(ws[i].state)
    ensures var s, p, p' := ws[i].state, ws[i].position, ws[i + 1].position;
      && (p.On? && LoadsLink(s.list, p.node, p') ==> exists k: nat :: At(s, p.node, k) && p' == PlacedAt(s, k + 1))
      && (p.Looking? && CanLoad(s.list, p.reader) && Load(s.list, p.reader).Finished? ==>
            Landed(Load(s.list, p.reader)) == PlacedAt(s, Target(Contents(s), p.reader.search)))
  {
    WalksFit(ws, i);
    var s, p, p' := ws[i].state, ws[i].position, ws[i + 1].position;
    hide Inv, CanLoad, LoadsLink, Landed, Target, PlacedAt;
    if p.On? && LoadsLink(s.list, p.node, p') {
      var k: nat :| At(s, p.node, k);
      LinkLeadsOn(s, k, p');
    }
    if p.Looking? && CanLoad(s.list, p.reader) && Load(s.list, p.reader).Finished? {
      SearchLands(s, p.reader);
    }
  }

  /** The search of Prev is for the entry before, wherever the iterator's entry is by then. */
  lemma PrevIsBefore(s: State, s': State, n: nat)
    requires Inv(s) && Inv(s') && Grows(s, s') && exists k: nat :: At(s, n, k)
    ensures n < |s.list.entries|
    ensures exists k: nat :: At(s', n, k) && Target(Contents(s'), PrevSearch(s.list, n)) == k - 1
  {
    HeadComesFirst(s);
    PlacesGrow(s, s', n);
    var k: nat :| At(s', n, k);
    PlaceFacts(s', k);
  }

  // ------------------------------------------------------------------ the list in memory

  ghost predicate Steps(trace: seq<State>) {
    |trace| > 0 && forall k :: 0 <= k && k + 1 < |trace| ==> WriterStep(trace[k], trace[k + 1])
  }

  lemma OneMoreStep(trace: seq<State>, s: State)
    requires Steps(trace) && WriterStep(trace[|trace| - 1], s)
    ensures Steps(trace + [s])
  {
    hide WriterStep;
  }

  class SkipList {
    var entries: seq<Entry>
    var next: seq<seq<Link>>
    var maxHeight: nat
    ghost var writer: Writer
    ghost var chains: seq<seq<nat>>

    ghost function Abs(): State
      reads this
    {
      State(List(entries, next, maxHeight), writer, chains)
    }

    constructor ()
      ensures Inv(Abs()) && writer == Idle && Contents(Abs()) == []
    {
      entries := [Entry(InternalKey(0.0, 0, Value), "")];
      next := [seq(MAX_HEIGHT, _ => Null)];
      maxHeight, writer := 1, Idle;
      chains := seq(MAX_HEIGHT, _ => [0]);
    }

    /** The search loop of every reader; run alone it is one search from start to end.
        The writer also wants the node it left each level from. */
    method Run(search: Search) returns (r: Reader, prev: seq<nat>)
      requires Inv(Abs())
      ensures Answers(Abs(), r) && r.search == search
      ensures |prev| == maxHeight
      ensures search.AtOrAfter? ==> forall l :: 0 <= l < maxHeight ==>
        LeavesFrom(Abs().list, chains[l], search.target, prev[l])
    {
      hide Inv, Answers, LeavesFrom, ReaderFits;
      ghost var s := Abs();
      InvShape(s);
      var x: nat, level: nat := 0, maxHeight - 1;
      prev := seq(maxHeight, _ => 0);
      ghost var at := HeadIsFirst(s, search, level);
      while true
        invariant 0 <= level < maxHeight && |prev| == maxHeight
        invariant ReaderFits(s, Searching(search, x, level))
        invariant 0 <= at < |chains[level]| && chains[level][at] == x
        invariant search.AtOrAfter? ==> forall l :: level < l < maxHeight ==>
          LeavesFrom(s.list, chains[l], search.target, prev[l])
        decreases level, |chains[level]| - at
      {
        LoadFits(s, Searching(search, x, level));
        NextInChain(s, level, at);
        var link := next[x][level];
        if link.To? && Follows(search, entries[link.node].key) {
          x, at := link.node, at + 1;
        } else {
          if search.AtOrAfter? {
            LevelIsLeft(s, search.target, x, level, at);
          }
          prev := prev[level := x];
          if level == 0 {
            LastLoadAnswers(s, Searching(search, x, level));
            return Finished(search, x, link), prev;
          }
          level := level - 1;
          at := PlaceInChain(s, search, x, level);
        }
      }
    }

    method FindGreaterOrEqual(key: InternalKey) returns (node: Link, prev: seq<nat>)
      requires Inv(Abs())
      ensures var k := LowerBound(Contents(Abs()), key);
        if k < |Contents(Abs())|
        then node == To(chains[0][k + 1]) && node.node < |entries| && entries[node.node] == Contents(Abs())[k]
        else node == Null
      ensures |prev| == maxHeight && forall l :: 0 <= l < maxHeight ==> LeavesFrom(Abs().list, chains[l], key, prev[l])
    {
      hide LeavesFrom, Linked, Nested, WriterFits;
      var r, p := Run(AtOrAfter(key));
      HeadComesFirst(Abs());
      node, prev := r.link, p;
    }

    method FindLessThan(key: InternalKey) returns (node: nat)
      requires Inv(Abs())
      ensures node == chains[0][LowerBound(Contents(Abs()), key)] && node < |entries|
      ensures node != 0 <==> LowerBound(Contents(Abs()), key) > 0
      ensures node != 0 ==> entries[node] == Contents(Abs())[LowerBound(Contents(Abs()), key) - 1]
    {
      hide LeavesFrom, Linked, Nested, WriterFits;
      var r, _ := Run(Before(key));
      HeadComesFirst(Abs());
      node := r.x;
    }

    method FindLast() returns (node: nat)
      requires Inv(Abs())
      ensures node == chains[0][|Contents(Abs())|] && node < |entries| && (node == 0 <==> Contents(Abs()) == [])
      ensures node != 0 ==> entries[node] == Contents(Abs())[|Contents(Abs())| - 1]
    {
      hide LeavesFrom, Linked, Nested, WriterFits;
      var r, _ := Run(End);
      HeadComesFirst(Abs());
      node := r.x;
    }

    method Contains(key: InternalKey) returns (found: bool)
      requires Inv(Abs())
      ensures found <==> exists e :: e in Contents(Abs()) && e.key == key
    {
      hide Inv, Contents, LeavesFrom;
      var node, _ := FindGreaterOrEqual(key);
      found := node.To? && Compare(key, entries[node.node].key) == 0;
      ContentsInOrder(Abs());
      OnlyAtLowerBound(Contents(Abs()), key);
    }

    /** Where a node of the given height is to be linked. */
    method FindPrevs(e: Entry, height: nat) returns (prev: seq<nat>)
      requires Inv(Abs()) && 1 <= height <= MAX_HEIGHT
      requires forall x :: x in Contents(Abs()) ==> x.key != e.key
      ensures |prev| == height && PrevsFit(Abs().list, chains, e, prev, 0)
    {
      hide Inv, Contents, LeavesFrom, LastBefore, PrevsFit;
      var _, p := FindGreaterOrEqual(e.key);
      if height > maxHeight {
        prev := p + seq(height - maxHeight, _ => 0);
      } else {
        prev := p[..height];
      }
      NodesBefore(Abs(), e, prev);
    }

    /** Links the new node at every level, from the lowest up. */
    method LinkNode(x: nat, prev: seq<nat>, ghost begun: seq<State>) returns (ghost trace: seq<State>)
      requires Inv(Abs()) && writer == Copying(x, prev, 0) && |prev| > 0 && x < |entries|
      requires Steps(begun) && begun[|begun| - 1] == Abs()
      modifies `next, `writer, `chains
      ensures Inv(Abs()) && writer == Idle && Contents(Abs()) == Database.InsertSorted(old(Contents(Abs())), entries[x])
      ensures Steps(trace) && trace[0] == begun[0] && trace[|trace| - 1] == Abs()
    {
      hide Inv, Contents, WriterStep, Database.InsertSorted;
      trace := begun;
      ghost var before := Contents(Abs());
      for i := 0 to |prev|
        invariant Inv(Abs()) && Steps(trace) && trace[0] == begun[0] && trace[|trace| - 1] == Abs()
        invariant writer == if i < |prev| then Copying(x, prev, i) else Idle
        invariant Contents(Abs()) == if i == 0 then before else Database.InsertSorted(before, entries[x])
      {
        ghost var s := Abs();
        CopyShape(s);
        next := next[x := next[x][i := next[prev[i]][i]]];
        writer := Publishing(x, prev, i);
        trace := Copied(trace, s, Abs());
        s := Abs();
        ghost var at := PublishShape(s);
        next := next[prev[i] := next[prev[i]][i := To(x)]];
        writer, chains := AfterLevel(x, prev, i), chains[i := chains[i][..at + 1] + [x] + chains[i][at + 1..]];
        trace := Published(trace, s, Abs(), at);
      }
    }

    /** Inserts an entry; every store on the way is one step of the writer. */
    method Insert(e: Entry, height: nat) returns (ghost trace: seq<State>)
      requires Inv(Abs()) && writer == Idle && 1 <= height <= MAX_HEIGHT
      requires forall x :: x in Contents(Abs()) ==> x.key != e.key
      modifies this
      ensures Inv(Abs()) && writer == Idle && Contents(Abs()) == Database.InsertSorted(old(Contents(Abs())), e)
      ensures Steps(trace) && trace[0] == old(Abs()) && trace[|trace| - 1] == Abs()
    {
      hide Inv, Contents, WriterStep, PrevsFit, Database.InsertSorted;
      trace := [Abs()];
      var prev := FindPrevs(e, height);
      ghost var s := Abs();
      writer := if height > maxHeight then Raising(e, prev) else Creating(e, prev);
      trace := Began(trace, s, Abs(), e, prev);
      if height > maxHeight {
        s := Abs();
        maxHeight, writer := height, Creating(e, prev);
        trace := Raised(trace, s, Abs());
      }
      s := Abs();
      var x := |next|;
      NodesCount(s);
      entries, next, writer := entries + [e], next + [seq(height, _ => Unset)], Copying(x, prev, 0);
      trace := Created(trace, s, Abs());
      trace := LinkNode(x, prev, trace);
    }
  }

  // What each store of an insertion does to the state, and that it is a step.

  lemma Began(trace: seq<State>, s: State, s': State, e: Entry, prev: seq<nat>) returns (longer: seq<State>)
    requires Steps(trace) && trace[|trace| - 1] == s && Inv(s) && s.writer.Idle?
    requires PrevsFit(s.list, s.chains, e, prev, 0)
    requires s' == s.(writer := if |prev| > s.list.maxHeight then Raising(e, prev) else Creating(e, prev))
    ensures Inv(s') && Contents(s') == Contents(s)
    ensures Steps(longer) && longer[0] == trace[0] && longer[|longer| - 1] == s'
  {
    assert Begins(s, s', e, prev);
    BeginKeepsInv(s, s', e, prev);
    OneMoreStep(trace, s');
    longer := trace + [s'];
  }

  lemma Raised(trace: seq<State>, s: State, s': State) returns (longer: seq<State>)
    requires Steps(trace) && trace[|trace| - 1] == s && Inv(s) && Raises(s, s')
    ensures Inv(s') && Contents(s') == Contents(s)
    ensures Steps(longer) && longer[0] == trace[0] && longer[|longer| - 1] == s'
  {
    RaiseKeepsInv(s, s');
    OneMoreStep(trace, s');
    longer := trace + [s'];
  }

  lemma Created(trace: seq<State>, s: State, s': State) returns (longer: seq<State>)
    requires Steps(trace) && trace[|trace| - 1] == s && Inv(s) && Creates(s, s')
    ensures Inv(s') && Contents(s') == Contents(s)
    ensures Steps(longer) && longer[0] == trace[0] && longer[|longer| - 1] == s'
  {
    CreateKeepsInv(s, s');
    OneMoreStep(trace, s');
    longer := trace + [s'];
  }

  lemma Copied(trace: seq<State>, s: State, s': State) returns (longer: seq<State>)
    requires Steps(trace) && trace[|trace| - 1] == s && Inv(s) && Copies(s, s')
    ensures Inv(s') && Contents(s') == Contents(s)
    ensures Steps(longer) && longer[0] == trace[0] && longer[|longer| - 1] == s'
  {
    CopyKeepsInv(s, s');
    OneMoreStep(trace, s');
    longer := trace + [s'];
  }

  lemma Published(trace: seq<State>, s: State, s': State, at: nat) returns (longer: seq<State>)
    requires Steps(trace) && trace[|trace| - 1] == s && Inv(s) && Publishes(s, s', at)
    ensures Inv(s') && s.writer.node < |s.list.entries|
    ensures Contents(s') == if s.writer.i == 0 then Database.InsertSorted(Contents(s), s.list.entries[s.writer.node])
                            else Contents(s)
    ensures Steps(longer) && longer[0] == trace[0] && longer[|longer| - 1] == s'
  {
    InvShape(s);
    PublishKeepsInv(s, s', at);
    PublishInserts(s, s', at);
    OneMoreStep(trace, s');
    longer := trace + [s'];
  }

  lemma NodesCount(s: State)
    requires Inv(s)
    ensures |s.list.entries| == |s.list.next|
  {
  }

  lemma CopyShape(s: State)
    requires Inv(s) && s.writer.Copying?
    ensures var x, prev, i := s.writer.node, s.writer.prev, s.writer.i;
      && x < |s.list.next| && i < |prev| && i < |s.list.next[x]| && prev[i] < |s.list.next|
      && i < |s.list.next[prev[i]]|
  {
    var x, prev, i := s.writer.node, s.writer.prev, s.writer.i;
    PrevIsOlder(s, x, prev, i);
    assert Linked(s.list, s.chains[i], i);
    var k :| 0 <= k < |s.chains[i]| && s.chains[i][k] == prev[i];
  }

  lemma PublishShape(s: State) returns (at: nat)
    requires Inv(s) && s.writer.Publishing?
    ensures var x, prev, i := s.writer.node, s.writer.prev, s.writer.i;
      && x < |s.list.next| && i < |prev| && prev[i] < |s.list.next| && i < |s.list.next[prev[i]]|
      && i < |s.chains| && at < |s.chains[i]| && s.chains[i][at] == prev[i]
  {
    var x, prev, i := s.writer.node, s.writer.prev, s.writer.i;
    PrevIsOlder(s, x, prev, i);
    at :| at < |s.chains[i]| && s.chains[i][at] == prev[i];
  }

  lemma ContentsInOrder(s: State)
    requires Inv(s)
    ensures forall i, j :: 0 <= i < j < |Contents(s)| ==> Less(Contents(s)[i].key, Contents(s)[j].key)
  {
    assert InOrder(s.list, s.chains[0]);
  }

  lemma OnlyAtLowerBound(run: seq<Entry>, key: InternalKey)
    requires forall i, j :: 0 <= i < j < |run| ==> Less(run[i].key, run[j].key)
    ensures (exists e :: e in run && e.key == key) <==>
      LowerBound(run, key) < |run| && run[LowerBound(run, key)].key == key
  {
    var k := LowerBound(run, key);
    if e :| e in run && e.key == key {
      var i :| 0 <= i < |run| && run[i] == e;
      assert k <= i;
    } else {
      assert k < |run| ==> run[k] in run;
    }
  }

  /** The nodes a search left the levels from, when its key is in none of them. */
  lemma NodesBefore(s: State, e: Entry, prev: seq<nat>)
    requires Inv(s) && 1 <= |prev| <= MAX_HEIGHT && forall x :: x in Contents(s) ==> x.key != e.key
    requires forall l :: 0 <= l < |prev| && l < s.list.maxHeight ==> LeavesFrom(s.list, s.chains[l], e.key, prev[l])
    requires forall l :: s.list.maxHeight <= l < |prev| ==> prev[l] == 0
    ensures PrevsFit(s.list, s.chains, e, prev, 0)
  {
    forall l | 0 <= l < |prev| ensures LastBefore(s.list, s.chains[l], e, prev[l]) {
      var chain := s.chains[l];
      if l < s.list.maxHeight {
        LeftIsLastBefore(s, e, prev[l], l);
      } else {
        assert SplitsAt(s.list, chain, e, 0, 0);
      }
    }
  }

  lemma LeftIsLastBefore(s: State, e: Entry, node: nat, l: nat)
    requires Inv(s) && l < MAX_HEIGHT && forall x :: x in Contents(s) ==> x.key != e.key
    requires LeavesFrom(s.list, s.chains[l], e.key, node)
    ensures LastBefore(s.list, s.chains[l], e, node)
  {
    var chain := s.chains[l];
    var at: nat :| at < |chain| && chain[at] == node
      && (forall k :: 1 <= k <= at && chain[k] < |s.list.entries| ==> Less(s.list.entries[chain[k]].key, e.key))
      && (forall k :: at < k < |chain| && chain[k] < |s.list.entries| ==> !Less(s.list.entries[chain[k]].key, e.key));
    forall k | at < k < |chain| && chain[k] < |s.list.entries| ensures Less(e.key, s.list.entries[chain[k]].key) {
      LinkedIsContent(s, l, k);
    }
    assert SplitsAt(s.list, chain, e, node, at);
  }

  lemma LinkedIsContent(s: State, l: nat, k: nat)
    requires Inv(s) && l < MAX_HEIGHT && 1 <= k < |s.chains[l]|
    ensures s.chains[l][k] < |s.list.entries| && s.list.entries[s.chains[l][k]] in Contents(s)
  {
    var n := s.chains[l][k];
    assert InOrder(s.list, s.chains[l]) && Linked(s.list, s.chains[0], 0);
    assert n in s.chains[l] && n in s.chains[0];
    var j :| 0 <= j < |s.chains[0]| && s.chains[0][j] == n;
    assert Contents(s)[j - 1] == s.list.entries[n];
  }

  /** The last node of a level with a key before the target. */
  ghost predicate LeavesFrom(list: List, chain: seq<nat>, target: InternalKey, node: nat) {
    exists at :: 0 <= at < |chain| && chain[at] == node
      && (forall k :: 1 <= k <= at && chain[k] < |list.entries| ==> Less(list.entries[chain[k]].key, target))
      && (forall k :: at < k < |chain| && chain[k] < |list.entries| ==> !Less(list.entries[chain[k]].key, target))
  }

  lemma HeadIsFirst(s: State, search: Search, level: nat) returns (at: nat)
    requires Inv(s) && level < MAX_HEIGHT
    ensures at == 0 && |s.chains[level]| > 0 && s.chains[level][0] == 0 && ReaderFits(s, Searching(search, 0, level))
  {
    assert s.chains[level][0] == 0;
    at := 0;
  }

  lemma NextInChain(s: State, level: nat, at: nat)
    requires Inv(s) && level < MAX_HEIGHT && at < |s.chains[level]|
    ensures s.chains[level][at] < |s.list.next| && level < |s.list.next[s.chains[level][at]]|
    ensures s.list.next[s.chains[level][at]][level]
         == if at + 1 < |s.chains[level]| then To(s.chains[level][at + 1]) else Null
  {
  }

  lemma PlaceInChain(s: State, search: Search, x: nat, level: nat) returns (at: nat)
    requires Inv(s) && ReaderFits(s, Searching(search, x, level + 1))
    ensures ReaderFits(s, Searching(search, x, level)) && level < |s.chains|
    ensures at < |s.chains[level]| && s.chains[level][at] == x
  {
    assert x in s.chains[level];
    at :| at < |s.chains[level]| && s.chains[level][at] == x;
  }

  lemma LevelIsLeft(s: State, target: InternalKey, x: nat, level: nat, at: nat)
    requires Inv(s) && ReaderFits(s, Searching(AtOrAfter(target), x, level))
    requires at < |s.chains[level]| && s.chains[level][at] == x
    requires at + 1 < |s.chains[level]| && s.chains[level][at + 1] < |s.list.entries| ==>
      !Less(s.list.entries[s.chains[level][at + 1]].key, target)
    ensures LeavesFrom(s.list, s.chains[level], target, x)
  {
    var chain := s.chains[level];
    assert InOrder(s.list, chain) && Linked(s.list, chain, level);
    forall k | 1 <= k <= at ensures Less(s.list.entries[chain[k]].key, target) {
      assert k < at ==> Less(s.list.entries[chain[k]].key, s.list.entries[chain[at]].key);
    }
    forall k | at < k < |chain| ensures !Less(s.list.entries[chain[k]].key, target) {
      assert at + 1 < k ==> Less(s.list.entries[chain[at + 1]].key, s.list.entries[chain[k]].key);
    }
  }

  lemma HeadComesFirst(s: State)
    requires Inv(s)
    ensures |s.list.entries| > 0
    ensures |s.chains[0]| > 0 && s.chains[0][0] == 0
    ensures forall k :: 1 <= k < |s.chains[0]| ==> 0 < s.chains[0][k] < |s.list.entries|
  {
    assert Linked(s.list, s.chains[0], 0) && InOrder(s.list, s.chains[0]);
  }

  // ------------------------------------------------------------ iterator and memtable

  /** Node n is at place k of the contents. */
  ghost predicate At(s: State, n: nat, k: nat)
    requires Inv(s)
  {
    k < |Contents(s)| && n == s.chains[0][k + 1]
  }

  lemma PlaceFacts(s: State, k: nat)
    requires Inv(s) && k < |Contents(s)|
    ensures var n := s.chains[0][k + 1];
      && 0 < n < |s.list.entries| && n < |s.list.next| && |s.list.next[n]| > 0 && s.list.entries[n] == Contents(s)[k]
      && s.list.next[n][0] == if k + 1 < |Contents(s)| then To(s.chains[0][k + 2]) else Null
    ensures LowerBound(Contents(s), Contents(s)[k].key) == k
  {
    NextInChain(s, 0, k + 1);
    HeadComesFirst(s);
    ContentsInOrder(s);
    var run := Contents(s);
    forall j | 0 <= j < |run| ensures Less(run[j].key, run[k].key) <==> j < k {
    }
    BoundIs(run, run[k].key, k);
  }

  /** The list's own iterator: a plain cursor over the contents. */
  class Iterator {
    const list: SkipList
    var node: nat  // 0 when not valid
    ghost var at: int

    ghost predicate Valid()
      reads this, list
    {
      && Inv(list.Abs())
      && if at == -1 then node == 0 else 0 <= at && At(list.Abs(), node, at)
    }

    constructor (list: SkipList)
      requires Inv(list.Abs())
      ensures Valid() && at == -1 && this.list == list
    {
      this.list, node, at := list, 0, -1;
    }

    method SeekToFirst()
      requires Valid()
      modifies this
      ensures Valid() && at == Cursors.First(|Contents(list.Abs())|)
    {
      hide Linked, InOrder, Nested, WriterFits;
      HeadComesFirst(list.Abs());
      NextInChain(list.Abs(), 0, 0);
      var link := list.next[0][0];
      node := if link.To? then link.node else 0;
      at := Cursors.First(|Contents(list.Abs())|);
    }

    method SeekToLast()
      requires Valid()
      modifies this
      ensures Valid() && at == Cursors.Last(|Contents(list.Abs())|)
    {
      hide Linked, InOrder, Nested, WriterFits;
      HeadComesFirst(list.Abs());
      node := list.FindLast();
      at := Cursors.Last(|Contents(list.Abs())|);
    }

    method Seek(target: InternalKey)
      requires Valid()
      modifies this
      ensures Valid() && at == Cursors.Seek(Contents(list.Abs()), target)
    {
      hide Linked, InOrder, Nested, WriterFits;
      var link, _ := list.FindGreaterOrEqual(target);
      node := if link.To? then link.node else 0;
      at := Cursors.Seek(Contents(list.Abs()), target);
    }

    method Next()
      requires Valid() && at != -1
      modifies this
      ensures Valid() && at == Cursors.Next(|Contents(list.Abs())|, old(at))
    {
      hide Linked, InOrder, Nested, WriterFits;
      PlaceFacts(list.Abs(), at);
      var link := list.next[node][0];
      node := if link.To? then link.node else 0;
      at := Cursors.Next(|Contents(list.Abs())|, at);
    }

    /** There are no back links: the node before is searched for. */
    method Prev()
      requires Valid() && at != -1
      modifies this
      ensures Valid() && at == Cursors.Prev(old(at))
    {
      hide Linked, InOrder, Nested, WriterFits;
      PlaceFacts(list.Abs(), at);
      HeadComesFirst(list.Abs());
      node := list.FindLessThan(list.entries[node].key);
      at := Cursors.Prev(at);
    }
  }

  class MemTable {
    const table: SkipList

    constructor ()
      ensures fresh(table) && Inv(table.Abs()) && table.writer == Idle && Contents(table.Abs()) == []
    {
      table := new SkipList();
    }

    method Add(sequence: Sequence, kind: Kind, user: UserKey, value: string, height: nat)
      requires Inv(table.Abs()) && table.writer == Idle && 1 <= height <= MAX_HEIGHT
      requires forall x :: x in Contents(table.Abs()) ==> x.key != InternalKey(user, sequence, kind)
      modifies table
      ensures Inv(table.Abs()) && table.writer == Idle
      ensures Contents(table.Abs())
           == Database.InsertSorted(old(Contents(table.Abs())), Entry(InternalKey(user, sequence, kind), value))
    {
      var _ := table.Insert(Entry(InternalKey(user, sequence, kind), value), height);
    }

    /** Seeks to the lookup key and looks at the one entry found. */
    method Get(user: UserKey, sequence: Sequence) returns (r: Lookup.Saver)
      requires Inv(table.Abs())
      ensures r == Lookup.FindInRun(Contents(table.Abs()), user, sequence)
    {
      hide Inv, Contents, LeavesFrom;
      var node, _ := table.FindGreaterOrEqual(LookupKey(user, sequence));
      if node.To? && table.entries[node.node].key.user == user {
        var e := table.entries[node.node];
        match e.key.kind {
          case Value => return Lookup.Found(e.value);
          case Deletion => return Lookup.Deleted;
        }
      }
      return Lookup.NotFound;
    }
  }
}
