/** One shard of the cache: a hash table, two circular lists and reference counts that
    always agree. */
module LruCaches {
  import opened Keys
  import opened HandleTables

  /** The two list heads; entries have higher addresses. */
  const LRU: Handle := 0
  const IN_USE: Handle := 1

  datatype CacheEntry = CacheEntry(tag: Tag, value: string, charge: nat, inCache: bool, refs: nat)

  // ------------------------------------------------------------------------ circular lists

  type Links = map<Handle, Handle>

  /** The i-th node going round from the head through s and back. */
  function Node(head: Handle, s: seq<Handle>, i: nat): Handle
    requires i <= |s| + 1
  {
    if i == 0 || i == |s| + 1 then head else s[i - 1]
  }

  predicate Joined(next: Links, prev: Links, a: Handle, b: Handle) {
    a in next && next[a] == b && b in prev && prev[b] == a
  }

  predicate JoinedAt(next: Links, prev: Links, head: Handle, s: seq<Handle>, i: nat)
    requires i <= |s|
  {
    Joined(next, prev, Node(head, s, i), Node(head, s, i + 1))
  }

  ghost predicate Ring(next: Links, prev: Links, head: Handle, s: seq<Handle>) {
    forall i :: 0 <= i <= |s| ==> JoinedAt(next, prev, head, s, i)
  }

  ghost predicate Distinct(s: seq<Handle>) {
    forall i, j :: 0 <= i < j < |s| ==> s[i] != s[j]
  }

  /** Two lists over the same links, with no node in common. */
  ghost predicate Lists(next: Links, prev: Links, lru: seq<Handle>, inUse: seq<Handle>) {
    && Ring(next, prev, LRU, lru) && Ring(next, prev, IN_USE, inUse)
    && Distinct(lru) && Distinct(inUse)
    && (forall e :: e in lru ==> e > IN_USE && e !in inUse)
    && (forall e :: e in inUse ==> e > IN_USE)
  }

  function Without(s: seq<Handle>, e: Handle): seq<Handle> {
    if s == [] then [] else if s[0] == e then s[1..] else [s[0]] + Without(s[1..], e)
  }

  lemma {:induction false} WithoutAt(s: seq<Handle>, k: nat)
    requires Distinct(s) && k < |s|
    ensures Without(s, s[k]) == s[..k] + s[k + 1..]
  {
    if k > 0 {
      assert s[0] != s[k];
      WithoutAt(s[1..], k - 1);
    }
  }

  lemma {:induction false} WithoutAbsent(s: seq<Handle>, e: Handle)
    requires e !in s
    ensures Without(s, e) == s
  {
    if s != [] {
      WithoutAbsent(s[1..], e);
    }
  }

  lemma WithoutMembers(s: seq<Handle>, e: Handle)
    requires Distinct(s)
    ensures Distinct(Without(s, e)) && forall x :: x in Without(s, e) <==> x in s && x != e
  {
    if e in s {
      var k :| 0 <= k < |s| && s[k] == e;
      WithoutAt(s, k);
      var less := s[..k] + s[k + 1..];
      forall x | x in s && x != e ensures x in less {
        var i :| 0 <= i < |s| && s[i] == x;
        assert less[if i < k then i else i - 1] == x;
      }
    } else {
      WithoutAbsent(s, e);
    }
  }

  lemma NodesDiffer(head: Handle, s: seq<Handle>, i: nat, j: nat)
    requires Distinct(s) && head !in s && i < j <= |s|
    ensures Node(head, s, i) != Node(head, s, j)
  {
  }

  lemma NodeWithout(head: Handle, s: seq<Handle>, k: nat, i: nat)
    requires k < |s| && i <= |s|
    ensures Node(head, s[..k] + s[k + 1..], i) == Node(head, s, if i <= k then i else i + 1)
  {
  }

  /** Unlinking one node. */
  lemma RingWithout(next: Links, prev: Links, head: Handle, s: seq<Handle>, k: nat)
    requires Ring(next, prev, head, s) && Distinct(s) && head !in s && k < |s|
    ensures s[k] in next && s[k] in prev
    ensures Ring(next[prev[s[k]] := next[s[k]]], prev[next[s[k]] := prev[s[k]]], head, s[..k] + s[k + 1..])
  {
    var less := s[..k] + s[k + 1..];
    assert JoinedAt(next, prev, head, s, k) && JoinedAt(next, prev, head, s, k + 1) && Node(head, s, k + 1) == s[k];
    var next', prev' := next[prev[s[k]] := next[s[k]]], prev[next[s[k]] := prev[s[k]]];
    forall i | 0 <= i <= |less| ensures JoinedAt(next', prev', head, less, i) {
      NodeWithout(head, s, k, i);
      NodeWithout(head, s, k, i + 1);
      var j := if i <= k then i else i + 1;
      assert JoinedAt(next, prev, head, s, j);
      if j < k {
        NodesDiffer(head, s, j, k);
        LaterNodesDiffer(head, s, j + 1, k + 2);
      } else if j > k {
        NodesDiffer(head, s, k, j);
        LaterNodesDiffer(head, s, k + 2, j + 1);
      }
    }
  }

  lemma LaterNodesDiffer(head: Handle, s: seq<Handle>, i: nat, j: nat)
    requires Distinct(s) && head !in s && 1 <= i && j <= |s| + 1
    ensures i < j ==> Node(head, s, i) != Node(head, s, j)
  {
  }

  lemma NodeAppended(head: Handle, s: seq<Handle>, e: Handle, i: nat)
    requires i <= |s| + 2
    ensures Node(head, s + [e], i) == if i <= |s| then Node(head, s, i) else if i == |s| + 1 then e else head
  {
  }

  /** Linking a node in just before the head. */
  lemma RingAppended(next: Links, prev: Links, head: Handle, s: seq<Handle>, e: Handle)
    requires Ring(next, prev, head, s) && Distinct(s) && head !in s && e !in s && e != head
    ensures head in prev
    ensures Ring(next[e := head][prev[head] := e], prev[e := prev[head]][head := e], head, s + [e])
  {
    assert JoinedAt(next, prev, head, s, |s|);
    var next', prev' := next[e := head][prev[head] := e], prev[e := prev[head]][head := e];
    var more := s + [e];
    forall i | 0 <= i <= |more| ensures JoinedAt(next', prev', head, more, i) {
      NodeAppended(head, s, e, i);
      NodeAppended(head, s, e, i + 1);
      if i < |s| {
        assert JoinedAt(next, prev, head, s, i);
        NodesDiffer(head, s, i, |s|);
        LaterNodesDiffer(head, s, i + 1, |s| + 1);
      }
    }
  }

  /** A ring none of whose nodes is written stays. */
  lemma RingStays(next: Links, prev: Links, next': Links, prev': Links, head: Handle, s: seq<Handle>)
    requires Ring(next, prev, head, s)
    requires forall n :: n == head || n in s ==> n in next && n in prev ==>
      n in next' && n in prev' && next'[n] == next[n] && prev'[n] == prev[n]
    ensures Ring(next', prev', head, s)
  {
    forall i | 0 <= i <= |s| ensures JoinedAt(next', prev', head, s, i) {
      assert JoinedAt(next, prev, head, s, i);
      NodeMember(head, s, i);
      NodeMember(head, s, i + 1);
      NodeInMemory(next, prev, head, s, i);
      NodeInMemory(next, prev, head, s, i + 1);
    }
  }

  lemma NodeMember(head: Handle, s: seq<Handle>, i: nat)
    requires i <= |s| + 1
    ensures Node(head, s, i) == head || Node(head, s, i) in s
  {
  }

  lemma NodeInMemory(next: Links, prev: Links, head: Handle, s: seq<Handle>, i: nat)
    requires Ring(next, prev, head, s) && i <= |s| + 1
    ensures Node(head, s, i) in next && Node(head, s, i) in prev
  {
    assert JoinedAt(next, prev, head, s, if i == |s| + 1 then 0 else i);
    assert JoinedAt(next, prev, head, s, if i == 0 then |s| else i - 1);
  }

  // ------------------------------------------------------------------------- both lists

  /** Unlinking e from one list leaves the other. */
  lemma RemovedFrom(next: Links, prev: Links, head: Handle, s: seq<Handle>, other: Handle, t: seq<Handle>, e: Handle)
    requires Ring(next, prev, head, s) && Ring(next, prev, other, t) && Distinct(s) && head !in s && e in s
    requires other != head && other !in s && head !in t && forall x :: x in s ==> x !in t
    ensures e in next && e in prev && next[e] != e
    ensures Ring(next[prev[e] := next[e]], prev[next[e] := prev[e]], head, Without(s, e))
    ensures Ring(next[prev[e] := next[e]], prev[next[e] := prev[e]], other, t)
    ensures Without(t, e) == t && Distinct(Without(s, e)) && forall x :: x in Without(s, e) <==> x in s && x != e
  {
    hide Ring, Distinct, JoinedAt;
    var k :| 0 <= k < |s| && s[k] == e;
    WithoutAt(s, k);
    WithoutMembers(s, e);
    WithoutAbsent(t, e);
    RingWithout(next, prev, head, s, k);
    Neighbours(next, prev, head, s, k);
    RingStays(next, prev, next[prev[e] := next[e]], prev[next[e] := prev[e]], other, t);
  }

  lemma RemoveKeepsLists(next: Links, prev: Links, lru: seq<Handle>, inUse: seq<Handle>, e: Handle)
    requires Lists(next, prev, lru, inUse) && (e in lru || e in inUse)
    ensures e in next && e in prev && next[e] != e
    ensures Lists(next[prev[e] := next[e]], prev[next[e] := prev[e]], Without(lru, e), Without(inUse, e))
  {
    if e in lru {
      RemovedFrom(next, prev, LRU, lru, IN_USE, inUse, e);
    } else {
      RemovedFrom(next, prev, IN_USE, inUse, LRU, lru, e);
    }
    hide Ring, Distinct;
    ListsOf(next[prev[e] := next[e]], prev[next[e] := prev[e]], Without(lru, e), Without(inUse, e));
  }

  lemma ListsOf(next: Links, prev: Links, lru: seq<Handle>, inUse: seq<Handle>)
    requires Ring(next, prev, LRU, lru) && Ring(next, prev, IN_USE, inUse) && Distinct(lru) && Distinct(inUse)
    requires forall e :: e in lru ==> e > IN_USE && e !in inUse
    requires forall e :: e in inUse ==> e > IN_USE
    ensures Lists(next, prev, lru, inUse)
  {
  }

  /** The nodes next to a node of a ring are in it too. */
  lemma Neighbours(next: Links, prev: Links, head: Handle, s: seq<Handle>, k: nat)
    requires Ring(next, prev, head, s) && k < |s| && Distinct(s) && head !in s
    ensures s[k] in next && s[k] in prev && next[s[k]] != s[k]
    ensures (next[s[k]] == head || next[s[k]] in s) && (prev[s[k]] == head || prev[s[k]] in s)
  {
    assert JoinedAt(next, prev, head, s, k) && JoinedAt(next, prev, head, s, k + 1) && Node(head, s, k + 1) == s[k];
    NodeMember(head, s, k);
    NodeMember(head, s, k + 2);
    LaterNodesDiffer(head, s, k + 1, k + 2);
  }

  lemma AppendKeepsLists(next: Links, prev: Links, lru: seq<Handle>, inUse: seq<Handle>, head: Handle, e: Handle)
    requires Lists(next, prev, lru, inUse) && e !in lru && e !in inUse && e > IN_USE && (head == LRU || head == IN_USE)
    ensures head in prev && prev[head] != e
    ensures Lists(next[e := head][prev[head] := e], prev[e := prev[head]][head := e],
                  if head == LRU then lru + [e] else lru, if head == LRU then inUse else inUse + [e])
  {
    var s, other, t := if head == LRU then lru else inUse, IN_USE - head, if head == LRU then inUse else lru;
    assert forall x :: x in s ==> x != head && x != other && x !in t;
    assert forall x :: x in t ==> x != head && x != other && x !in s;
    AppendedDistinct(s, e);
    LastNode(next, prev, head, s);
    hide Lists, Ring, Distinct, JoinedAt;
    RingAppended(next, prev, head, s, e);
    RingStays(next, prev, next[e := head][prev[head] := e], prev[e := prev[head]][head := e], other, t);
    ListsOf(next[e := head][prev[head] := e], prev[e := prev[head]][head := e],
            if head == LRU then lru + [e] else lru, if head == LRU then inUse else inUse + [e]);
  }

  lemma AppendedDistinct(s: seq<Handle>, e: Handle)
    requires Distinct(s) && e !in s
    ensures Distinct(s + [e])
  {
  }

  lemma LastNode(next: Links, prev: Links, head: Handle, s: seq<Handle>)
    requires Ring(next, prev, head, s)
    ensures head in prev && head in next && (prev[head] == head || prev[head] in s)
    ensures next[head] == if s == [] then head else s[0]
  {
    assert JoinedAt(next, prev, head, s, |s|) && JoinedAt(next, prev, head, s, 0);
    NodeMember(head, s, |s|);
  }

  // --------------------------------------------------------------------- what must agree

  type Entries = map<Handle, CacheEntry>

  function Sum(entries: Entries, s: seq<Handle>): nat
    requires forall e :: e in s ==> e in entries
  {
    if s == [] then 0 else entries[s[0]].charge + Sum(entries, s[1..])
  }

  lemma {:induction false} SumAppended(entries: Entries, s: seq<Handle>, e: Handle)
    requires (forall x :: x in s ==> x in entries) && e in entries
    ensures Sum(entries, s + [e]) == Sum(entries, s) + entries[e].charge
  {
    if s != [] {
      SumAppended(entries, s[1..], e);
      assert (s + [e])[1..] == s[1..] + [e];
    }
  }

  lemma {:induction false} SumWithout(entries: Entries, s: seq<Handle>, e: Handle)
    requires forall x :: x in s ==> x in entries
    ensures forall x :: x in Without(s, e) ==> x in s
    ensures e in s ==> Sum(entries, s) == Sum(entries, Without(s, e)) + entries[e].charge
    ensures e !in s ==> Without(s, e) == s
  {
    if s != [] && s[0] != e {
      SumWithout(entries, s[1..], e);
      assert ([s[0]] + Without(s[1..], e))[1..] == Without(s[1..], e);
    }
  }

  lemma {:induction false} SumSame(entries: Entries, entries': Entries, s: seq<Handle>)
    requires forall x :: x in s ==> x in entries && x in entries' && entries'[x].charge == entries[x].charge
    ensures Sum(entries', s) == Sum(entries, s)
  {
    if s != [] {
      SumSame(entries, entries', s[1..]);
    }
  }

  /** References are those of clients, the cache's own, and one more while `extra` is being
      dropped. */
  ghost predicate Counted(entries: Entries, clients: map<Handle, nat>, extra: Option<Handle>) {
    && entries.Keys == clients.Keys
    && forall e :: e in entries ==>
         && entries[e].refs == clients[e] + (if entries[e].inCache then 1 else 0) + (if extra == Some(e) then 1 else 0)
         && entries[e].refs > 0
  }

  /** The reference count chooses the list of a cached entry. */
  ghost predicate Listed(entries: Entries, lru: seq<Handle>, inUse: seq<Handle>) {
    && (forall e :: e in lru ==> e in entries && entries[e].inCache && entries[e].refs == 1)
    && (forall e :: e in inUse ==> e in entries && entries[e].inCache && entries[e].refs >= 2)
    && forall e :: e in entries && entries[e].inCache ==> e in lru || e in inUse
  }

  /** The table holds exactly the cached entries, except that `missing` has left it. */
  ghost predicate Tabled(entries: Entries, contents: map<Tag, Handle>, missing: Option<Handle>) {
    && (forall t :: t in contents ==>
          && contents[t] in entries && entries[contents[t]].inCache && entries[contents[t]].tag == t
          && missing != Some(contents[t]))
    && forall e :: e in entries && entries[e].inCache && missing != Some(e) ==>
         entries[e].tag in contents && contents[entries[e].tag] == e
  }

  /** Addresses are used once: freed entries are gone for good. */
  ghost predicate Allocated(entries: Entries, deleted: seq<Handle>, nextFree: Handle) {
    && nextFree > IN_USE && Distinct(deleted)
    && (forall e :: e in entries ==> IN_USE < e < nextFree && e !in deleted)
    && forall e :: e in deleted ==> e < nextFree
  }

  class LRUCache {
    const capacity: nat
    const table: HandleTable
    var usage: nat
    var next: Links
    var prev: Links
    var entries: Entries
    var nextFree: Handle
    var deleted: seq<Handle>  // entries handed to their deleters
    ghost var lru: seq<Handle>
    ghost var inUse: seq<Handle>
    ghost var clients: map<Handle, nat>

    ghost predicate ValidBut(extra: Option<Handle>, missing: Option<Handle>)
      reads this, table
    {
      && table.Valid() && Lists(next, prev, lru, inUse)
      && Counted(entries, clients, extra) && Listed(entries, lru, inUse)
      && usage == Sum(entries, lru) + Sum(entries, inUse)
      && Tabled(entries, table.contents, missing) && Allocated(entries, deleted, nextFree)
    }

    ghost predicate Valid()
      reads this, table
    {
      ValidBut(None, None)
    }

    constructor (capacity: nat)
      ensures Valid() && fresh(table) && this.capacity == capacity
      ensures table.contents == map[] && entries == map[] && deleted == []
    {
      this.capacity := capacity;
      table := new HandleTable();
      usage, entries, nextFree, deleted := 0, map[], 2, [];
      next, prev := map[LRU := LRU, IN_USE := IN_USE], map[LRU := LRU, IN_USE := IN_USE];
      lru, inUse, clients := [], [], map[];
    }

    method LRU_Remove(e: Handle)
      requires Lists(next, prev, lru, inUse) && (e in lru || e in inUse)
      modifies `next, `prev, `lru, `inUse
      ensures Lists(next, prev, lru, inUse) && lru == Without(old(lru), e) && inUse == Without(old(inUse), e)
    {
      RemoveKeepsLists(next, prev, lru, inUse, e);
      InMemory(e);
      prev := prev[next[e] := prev[e]];
      next := next[prev[e] := next[e]];
      lru, inUse := Without(lru, e), Without(inUse, e);
    }

    lemma InMemory(e: Handle)
      requires Lists(next, prev, lru, inUse) && (e in lru || e in inUse)
      ensures e in next && e in prev && next[e] != e
    {
      RemoveKeepsLists(next, prev, lru, inUse, e);
    }

    method LRU_Append(head: Handle, e: Handle)
      requires Lists(next, prev, lru, inUse) && e !in lru && e !in inUse && e > IN_USE
      requires (head == LRU || head == IN_USE)
      modifies `next, `prev, `lru, `inUse
      ensures Lists(next, prev, lru, inUse)
      ensures lru == (if head == LRU then old(lru) + [e] else old(lru))
      ensures inUse == if head == LRU then old(inUse) else old(inUse) + [e]
    {
      AppendKeepsLists(next, prev, lru, inUse, head, e);
      hide Lists;
      next := next[e := head];
      prev := prev[e := prev[head]];
      next := next[prev[e] := e];
      prev := prev[next[e] := e];
      lru, inUse := if head == LRU then lru + [e] else lru, if head == LRU then inUse else inUse + [e];
    }

    /** A client's reference: the first one takes a cached entry off the LRU list. */
    method Ref(e: Handle)
      requires Valid() && e in entries && entries[e].inCache
      modifies this
      ensures Valid() && usage == old(usage) && deleted == old(deleted)
      ensures entries == old(entries)[e := old(entries)[e].(refs := old(entries)[e].refs + 1)]
      ensures clients == old(clients)[e := old(clients)[e] + 1]
      ensures lru == Without(old(lru), e)
    {
      hide Lists, Counted, Listed, Sum, Tabled, Allocated, HandleTable.Valid;
      RefAgrees(entries, clients, next, prev, lru, inUse, table.contents, deleted, nextFree, e);
      if entries[e].refs == 1 && entries[e].inCache {
        LRU_Remove(e);
        LRU_Append(IN_USE, e);
      }
      entries := entries[e := entries[e].(refs := entries[e].refs + 1)];
      clients := clients[e := clients[e] + 1];
    }

    /** Drops one reference; the last one frees the entry, the last client's puts it at the
        end of the LRU list. */
    method Unref(e: Handle, ghost missing: Option<Handle>)
      requires ValidBut(Some(e), missing) && e in entries && (missing == Some(e) ==> !entries[e].inCache)
      modifies this
      ensures ValidBut(None, missing) && usage == old(usage)
      ensures if old(entries)[e].refs == 1
        then entries == old(entries) - {e} && clients == old(clients) - {e} && deleted == old(deleted) + [e]
             && lru == old(lru) && inUse == old(inUse)
        else entries == old(entries)[e := old(entries)[e].(refs := old(entries)[e].refs - 1)] && clients == old(clients)
             && deleted == old(deleted)
             && lru == (if old(entries)[e].inCache && old(entries)[e].refs == 2 then old(lru) + [e] else old(lru))
    {
      hide Lists, Counted, Listed, Sum, Tabled, Allocated, HandleTable.Valid;
      RefsPositive(entries, clients, Some(e), e);
      EntryAddress(entries, deleted, nextFree, e);
      var refs := entries[e].refs - 1;
      if refs == 0 {
        UnrefFrees(entries, clients, lru, inUse, table.contents, missing, deleted, nextFree, e);
        deleted := deleted + [e];
        entries := entries - {e};
        clients := clients - {e};
      } else {
        NotListedUnlessShared(entries, clients, e);
        if entries[e].inCache && refs == 1 {
          UnrefMoves(entries, clients, next, prev, lru, inUse, table.contents, missing, deleted, nextFree, e);
          entries := entries[e := entries[e].(refs := refs)];
          LRU_Remove(e);
          LRU_Append(LRU, e);
        } else {
          UnrefStays(entries, clients, lru, inUse, table.contents, missing, deleted, nextFree, e);
          entries := entries[e := entries[e].(refs := refs)];
        }
      }
    }

    /** Finishes taking out of the cache an entry that has left the hash table. */
    method FinishErase(e: Handle)
      requires ValidBut(None, Some(e)) && e in entries && entries[e].inCache
      modifies this
      ensures Valid() && usage + old(entries)[e].charge == old(usage) && lru == Without(old(lru), e)
      ensures Left(old(entries), old(clients), old(deleted), entries, clients, deleted, e)
    {
      hide Lists, Counted, Listed, Sum, Tabled, Allocated, HandleTable.Valid;
      ErasedAgrees(entries, clients, next, prev, lru, inUse, table.contents, deleted, nextFree, e);
      LRU_Remove(e);
      usage := usage - entries[e].charge;
      entries := entries[e := entries[e].(inCache := false)];
      Unref(e, None);
    }

    /** What the table gave up leaves the cache, if it gave up anything. */
    method EraseReplaced(replaced: Option<Handle>)
      requires ValidBut(None, replaced)
      requires replaced.Some? ==>
        replaced.value in entries && replaced.value in clients && entries[replaced.value].inCache
      modifies this
      ensures Valid() && entries == EntriesAfter(old(entries), old(clients), replaced)
      ensures clients == old(clients) - (set x | x in FreedBy(old(clients), replaced))
      ensures lru == LruAfter(old(lru), replaced) && deleted == old(deleted) + FreedBy(old(clients), replaced)
    {
      hide Lists, Counted, Listed, Sum, Tabled, Allocated, HandleTable.Valid;
      if replaced.Some? {
        FinishErase(replaced.value);
      }
    }

    method Lookup(tag: Tag) returns (h: Option<Handle>)
      requires Valid()
      modifies this
      ensures Valid() && table.contents == old(table.contents) && deleted == old(deleted) && usage == old(usage)
      ensures h == if tag in table.contents then Some(table.contents[tag]) else None
      ensures entries.Keys == old(entries.Keys)
      ensures h.Some? ==> h.value in old(entries) && old(entries)[h.value].tag == tag && h.value in old(clients)
                          && entries == old(entries)[h.value := old(entries)[h.value].(
                                          refs := old(entries)[h.value].refs + 1)]
                          && clients == old(clients)[h.value := old(clients)[h.value] + 1]
                          && h.value !in lru && lru == Without(old(lru), h.value)
      ensures h.None? ==> entries == old(entries) && clients == old(clients) && lru == old(lru)
    {
      hide Lists, Counted, Listed, Tabled, Allocated, HandleTable.Valid;
      h := table.Lookup(tag);
      if h.Some? {
        hide Sum;
        LookupAgrees(entries, clients, next, prev, lru, inUse, table.contents, tag);
        RecountKeepsKeys(entries, h.value, entries[h.value].refs + 1);
        Ref(h.value);
      }
    }

    method Release(h: Handle)
      requires Valid() && h in clients && clients[h] > 0
      modifies this
      ensures Valid() && table.contents == old(table.contents) && usage == old(usage)
      ensures h in old(entries)
      ensures (forall e :: e in old(entries) && e != h ==> e in entries && entries[e] == old(entries)[e])
      // The entry goes with the last reference to it, and only then.
      ensures if old(clients)[h] == 1 && !old(entries)[h].inCache
              then h !in entries && deleted == old(deleted) + [h]
              else h in entries && h in clients && clients[h] == old(clients)[h] - 1 && deleted == old(deleted)
      // Its last client leaves a cached entry behind as the one used most recently.
      ensures lru == if old(clients)[h] == 1 && old(entries)[h].inCache then old(lru) + [h] else old(lru)
    {
      hide Lists, Listed, Sum, Tabled, Allocated, HandleTable.Valid;
      clients := clients[h := clients[h] - 1];
      Unref(h, None);
    }

    method Erase(tag: Tag)
      requires Valid()
      modifies this, table
      ensures Valid() && table.contents == old(table.contents) - {tag}
      ensures tag in old(table.contents) ==>
        && old(table.contents)[tag] in old(entries)
        && Left(old(entries), old(clients), old(deleted), entries, clients, deleted, old(table.contents)[tag])
        && usage + old(entries)[old(table.contents)[tag]].charge == old(usage)
        && lru == Without(old(lru), old(table.contents)[tag])
      ensures tag !in old(table.contents) ==>
        && entries == old(entries) && clients == old(clients) && deleted == old(deleted)
        && usage == old(usage) && lru == old(lru)
    {
      hide Lists, Counted, Listed, Sum, Allocated, HandleTable.Valid;
      ghost var contents := table.contents;
      var e := table.Remove(tag);
      if e.Some? {
        LeavesTable(entries, contents, tag);
        FinishErase(e.value);
      } else {
        assert contents - {tag} == contents;
      }
    }

    /** Frees the entry that was used longest ago. */
    method EvictOldest()
      requires Valid() && lru != []
      modifies this, table
      ensures Valid() && lru == old(lru)[1..] && deleted == old(deleted) + [old(lru)[0]]
      ensures old(lru)[0] in old(entries) && entries == old(entries) - {old(lru)[0]}
      ensures clients == old(clients) - {old(lru)[0]} && usage + old(entries)[old(lru)[0]].charge == old(usage)
      ensures table.contents == old(table.contents) - {old(entries)[old(lru)[0]].tag}
    {
      hide Lists, Counted, Sum, Allocated, HandleTable.Valid;
      LruHead(next, prev, lru, inUse);
      var oldest := next[LRU];
      OldestIsFree(entries, clients, lru, inUse, table.contents, oldest);
      Erase(entries[oldest].tag);
    }

    /** Makes an entry with one client and, unless caching is off, puts it in the cache in
        place of any other entry with its tag; then evicts until the cache fits again. */
    method Insert(tag: Tag, value: string, charge: nat) returns (e: Handle)
      requires Valid()
      modifies this, table
      ensures Valid() && e !in old(entries) && e !in old(deleted)
      ensures Inserted(entries, clients, table.contents, e,
                       CacheEntry(tag, value, charge, capacity > 0, if capacity > 0 then 2 else 1))
      ensures OthersFrom(old(table.contents), table.contents, tag)
      ensures usage <= capacity || lru == []
      ensures ClientsKept(old(clients), clients) && old(deleted) <= deleted
      // Nothing is freed but the replaced entry and what had to go, in the order of last use.
      ensures old(Replaceable(entries, clients, table.contents))
      ensures var replaced := Replaced(capacity, old(table.contents), tag);
        Evicted(EntriesAfter(old(entries)[e := CacheEntry(tag, value, charge, capacity > 0,
                                                          if capacity > 0 then 2 else 1)],
                             old(clients), replaced),
                LruAfter(old(lru), replaced), old(deleted) + FreedBy(old(clients), replaced), capacity,
                entries, lru, deleted, usage)
    {
      hide Lists, Counted, Listed, Sum, Tabled, Allocated, HandleTable.Valid, Inserted, OthersFrom, ClientsKept,
           Evicted;
      TabledAreReplaceable(entries, clients, table.contents);
      e := AddEntry(tag, value, charge);
      AddedKeeps(old(entries), old(clients), old(table.contents), capacity, e,
                 CacheEntry(tag, value, charge, capacity > 0, if capacity > 0 then 2 else 1), table.contents);
      ghost var entry := CacheEntry(tag, value, charge, capacity > 0, if capacity > 0 then 2 else 1);
      ghost var entries0, lru0, deleted0 := entries, lru, deleted;
      NothingEvicted(entries, lru, deleted, capacity, usage);
      LruHead(next, prev, lru, inUse);
      while usage > capacity && next[LRU] != LRU
        invariant Valid() && LRU in next && (next[LRU] != LRU <==> lru != [])
        invariant Inserted(entries, clients, table.contents, e, entry)
        invariant OthersFrom(old(table.contents), table.contents, tag)
        invariant ClientsKept(old(clients), clients) && old(deleted) <= deleted
        invariant Evicted(entries0, lru0, deleted0, capacity, entries, lru, deleted, usage)
        decreases |lru|
      {
        OldestIsFree(entries, clients, lru, inUse, table.contents, lru[0]);
        EvictionKeeps(entries, clients, old(clients), old(table.contents), table.contents, lru[0], e, entry);
        OneMoreEvicted(entries0, lru0, deleted0, capacity, entries, lru, deleted, usage);
        EvictOldest();
        LruHead(next, prev, lru, inUse);
      }
    }

    method AddEntry(tag: Tag, value: string, charge: nat) returns (e: Handle)
      requires Valid()
      modifies this, table
      ensures Valid() && e !in old(entries) && e !in old(deleted) && e !in old(clients)
      ensures old(Replaceable(entries, clients, table.contents))
      ensures table.contents == if capacity > 0 then old(table.contents)[tag := e] else old(table.contents)
      ensures var replaced := Replaced(capacity, old(table.contents), tag);
        && entries == EntriesAfter(old(entries)[e := CacheEntry(tag, value, charge, capacity > 0,
                                                                if capacity > 0 then 2 else 1)],
                                   old(clients), replaced)
        && clients == old(clients)[e := 1] - (set x | x in FreedBy(old(clients), replaced))
        && lru == LruAfter(old(lru), replaced) && deleted == old(deleted) + FreedBy(old(clients), replaced)
    {
      hide Lists, Counted, Listed, Sum, Tabled, Allocated, HandleTable.Valid;
      TabledAreReplaceable(entries, clients, table.contents);
      e := nextFree;
      NewEntryAgrees(entries, clients, next, prev, lru, inUse, table.contents, deleted, nextFree, tag, value, charge);
      nextFree := nextFree + 1;
      clients := clients[e := 1];
      if capacity > 0 {
        entries := entries[e := CacheEntry(tag, value, charge, true, 2)];
        LRU_Append(IN_USE, e);
        usage := usage + charge;
        var replaced := table.Insert(e, tag);
        EraseReplaced(replaced);
      } else {
        entries := entries[e := CacheEntry(tag, value, charge, false, 1)];
      }
    }

    method Prune()
      requires Valid()
      modifies this, table
      ensures Valid() && lru == [] && deleted == old(deleted) + old(lru)
      ensures entries == old(entries) - (set e | e in old(lru))
    {
      hide Lists, Counted, Listed, Sum, Tabled, Allocated, HandleTable.Valid;
      ghost var gone: seq<Handle> := [];
      assert entries - (set e | e in gone) == entries;
      LruHead(next, prev, lru, inUse);
      while next[LRU] != LRU
        invariant Valid() && LRU in next && (next[LRU] != LRU <==> lru != [])
        invariant old(lru) == gone + lru && deleted == old(deleted) + gone
        invariant entries == old(entries) - (set e | e in gone)
        decreases |lru|
      {
        ghost var oldest := lru[0];
        EvictOldest();
        LruHead(next, prev, lru, inUse);
        gone := gone + [oldest];
      }
    }
  }

  /** Everything but the links agrees on these values. */
  ghost predicate Agree(entries: Entries, clients: map<Handle, nat>, lru: seq<Handle>, inUse: seq<Handle>,
                        contents: map<Tag, Handle>, deleted: seq<Handle>, nextFree: Handle,
                        extra: Option<Handle>, missing: Option<Handle>) {
    && Counted(entries, clients, extra) && Listed(entries, lru, inUse)
    && Tabled(entries, contents, missing) && Allocated(entries, deleted, nextFree)
  }

  /** Entry e changes its list. */
  lemma MovedLists(entries: Entries, next: Links, prev: Links, lru: seq<Handle>, inUse: seq<Handle>, e: Handle)
    requires Lists(next, prev, lru, inUse) && Listed(entries, lru, inUse) && e in entries
    ensures e > IN_USE || (e !in lru && e !in inUse)
    ensures e in lru ==>
      && e !in inUse && Without(inUse, e) == inUse && e !in Without(lru, e)
      && (forall x :: x in Without(lru, e) <==> x in lru && x != e)
      && Sum(entries, Without(lru, e)) + Sum(entries, inUse + [e]) == Sum(entries, lru) + Sum(entries, inUse)
    ensures e in inUse ==>
      && e !in lru && Without(lru, e) == lru && e !in Without(inUse, e)
      && (forall x :: x in Without(inUse, e) <==> x in inUse && x != e)
      && Sum(entries, lru + [e]) + Sum(entries, Without(inUse, e)) == Sum(entries, lru) + Sum(entries, inUse)
  {
    ListFacts(next, prev, lru, inUse);
    WithoutMembers(lru, e);
    WithoutMembers(inUse, e);
    SumWithout(entries, lru, e);
    SumWithout(entries, inUse, e);
    SumAppended(entries, lru, e);
    SumAppended(entries, inUse, e);
  }

  /** Changing only the reference count of e, and its list accordingly. */
  lemma RecountedListed(entries: Entries, lru: seq<Handle>, inUse: seq<Handle>, e: Handle, refs: nat,
                        lru': seq<Handle>, inUse': seq<Handle>)
    requires Listed(entries, lru, inUse) && e in entries && refs > 0
    requires forall x :: x != e ==> (x in lru' <==> x in lru) && (x in inUse' <==> x in inUse)
    requires (e in lru' <==> entries[e].inCache && refs == 1) && (e in inUse' <==> entries[e].inCache && refs >= 2)
    ensures Listed(entries[e := entries[e].(refs := refs)], lru', inUse')
  {
  }

  lemma RecountedSum(entries: Entries, e: Handle, refs: nat, s: seq<Handle>)
    requires e in entries && forall x :: x in s ==> x in entries
    ensures Sum(entries[e := entries[e].(refs := refs)], s) == Sum(entries, s)
  {
    SumSame(entries, entries[e := entries[e].(refs := refs)], s);
  }

  lemma CountedUp(entries: Entries, clients: map<Handle, nat>, e: Handle)
    requires Counted(entries, clients, None) && e in entries
    ensures e in clients
    ensures Counted(entries[e := entries[e].(refs := entries[e].refs + 1)], clients[e := clients[e] + 1], None)
  {
  }

  lemma CountedDown(entries: Entries, clients: map<Handle, nat>, e: Handle)
    requires Counted(entries, clients, Some(e)) && e in entries && entries[e].refs > 1
    ensures Counted(entries[e := entries[e].(refs := entries[e].refs - 1)], clients, None)
  {
  }

  lemma RefAgrees(entries: Entries, clients: map<Handle, nat>, next: Links, prev: Links, lru: seq<Handle>,
                  inUse: seq<Handle>,
                  contents: map<Tag, Handle>, deleted: seq<Handle>, nextFree: Handle, e: Handle)
    requires Lists(next, prev, lru, inUse) && e in entries && entries[e].inCache
    requires Counted(entries, clients, None) && Listed(entries, lru, inUse)
    requires Tabled(entries, contents, None) && Allocated(entries, deleted, nextFree)
    ensures e in clients && e > IN_USE
    ensures var entries' := entries[e := entries[e].(refs := entries[e].refs + 1)];
      var clients' := clients[e := clients[e] + 1];
      var lru', inUse' := Without(lru, e), if entries[e].refs == 1 then inUse + [e] else inUse;
      && Agree(entries', clients', lru', inUse', contents, deleted, nextFree, None, None)
      && Sum(entries', lru') + Sum(entries', inUse') == Sum(entries, lru) + Sum(entries, inUse)
    ensures entries[e].refs == 1 ==> e in lru && e !in Without(lru, e) && e !in inUse && Without(inUse, e) == inUse
    ensures entries[e].refs != 1 ==> Without(lru, e) == lru
  {
    CountedUp(entries, clients, e);
    InOneList(entries, lru, inUse, e);
    ListMembers(entries, lru, inUse);
    RefsPositive(entries, clients, None, e);
    MovedLists(entries, next, prev, lru, inUse, e);
    EntryAddress(entries, deleted, nextFree, e);
    hide Lists, Distinct, Counted, Listed, Tabled, Allocated, Sum;
    var entries' := entries[e := entries[e].(refs := entries[e].refs + 1)];
    var inUse' := if entries[e].refs == 1 then inUse + [e] else inUse;
    RecountedListed(entries, lru, inUse, e, entries[e].refs + 1, Without(lru, e), inUse');
    SameTabled(entries, entries', contents, None);
    SameAllocated(entries, entries', deleted, nextFree);
    RecountedSum(entries, e, entries[e].refs + 1, Without(lru, e));
    RecountedSum(entries, e, entries[e].refs + 1, inUse');
  }

  lemma ListMembers(entries: Entries, lru: seq<Handle>, inUse: seq<Handle>)
    requires Listed(entries, lru, inUse)
    ensures (forall e :: e in lru ==> e in entries) && forall e :: e in inUse ==> e in entries
  {
  }

  lemma RefsPositive(entries: Entries, clients: map<Handle, nat>, extra: Option<Handle>, e: Handle)
    requires Counted(entries, clients, extra) && e in entries
    ensures entries[e].refs > 0 && e in clients
  {
  }

  lemma EntryAddress(entries: Entries, deleted: seq<Handle>, nextFree: Handle, e: Handle)
    requires Allocated(entries, deleted, nextFree) && e in entries
    ensures e > IN_USE
  {
  }

  lemma UnrefFrees(entries: Entries, clients: map<Handle, nat>, lru: seq<Handle>, inUse: seq<Handle>,
                   contents: map<Tag, Handle>, missing: Option<Handle>, deleted: seq<Handle>, nextFree: Handle,
                   e: Handle)
    requires e in entries && entries[e].refs == 1
    requires Agree(entries, clients, lru, inUse, contents, deleted, nextFree, Some(e), missing)
    ensures Agree(entries - {e}, clients - {e}, lru, inUse, contents, deleted + [e], nextFree, None, missing)
    ensures (forall x :: x in lru ==> x in entries && x in entries - {e})
         && (forall x :: x in inUse ==> x in entries && x in entries - {e})
         && Sum(entries - {e}, lru) + Sum(entries - {e}, inUse) == Sum(entries, lru) + Sum(entries, inUse)
  {
    NotListedWhenLast(entries, clients, e);
    InOneList(entries, lru, inUse, e);
    ListMembers(entries, lru, inUse);
    FreedAgrees(entries, lru, inUse, contents, missing, deleted, nextFree, e);
    FreedCounted(entries, clients, e);
  }

  /** The last client's reference goes. */
  lemma UnrefMoves(entries: Entries, clients: map<Handle, nat>, next: Links, prev: Links, lru: seq<Handle>,
                   inUse: seq<Handle>, contents: map<Tag, Handle>, missing: Option<Handle>, deleted: seq<Handle>,
                   nextFree: Handle, e: Handle)
    requires Lists(next, prev, lru, inUse) && e in entries && entries[e].refs == 2 && entries[e].inCache
    requires Agree(entries, clients, lru, inUse, contents, deleted, nextFree, Some(e), missing)
    ensures var entries' := entries[e := entries[e].(refs := 1)];
      Agree(entries', clients, lru + [e], Without(inUse, e), contents, deleted, nextFree, None, missing)
    ensures (forall x :: x in lru ==> x in entries) && forall x :: x in inUse ==> x in entries
    ensures (forall x :: x in Without(inUse, e) ==> x in entries)
    ensures Sum(entries[e := entries[e].(refs := 1)], lru + [e])
            + Sum(entries[e := entries[e].(refs := 1)], Without(inUse, e))
         == Sum(entries, lru) + Sum(entries, inUse)
    ensures e in inUse && e !in Without(inUse, e) && e !in lru && Without(lru, e) == lru
  {
    CountedDown(entries, clients, e);
    InOneList(entries, lru, inUse, e);
    ListMembers(entries, lru, inUse);
    MovedLists(entries, next, prev, lru, inUse, e);
    hide Lists, Distinct, Counted, Listed, Tabled, Allocated, Sum;
    Recounted(entries, lru, inUse, contents, missing, deleted, nextFree, e, 1, lru + [e], Without(inUse, e));
  }

  lemma UnrefStays(entries: Entries, clients: map<Handle, nat>, lru: seq<Handle>, inUse: seq<Handle>,
                   contents: map<Tag, Handle>, missing: Option<Handle>, deleted: seq<Handle>, nextFree: Handle,
                   e: Handle)
    requires e in entries && entries[e].refs > (if entries[e].inCache then 2 else 1)
    requires Agree(entries, clients, lru, inUse, contents, deleted, nextFree, Some(e), missing)
    ensures var entries' := entries[e := entries[e].(refs := entries[e].refs - 1)];
      Agree(entries', clients, lru, inUse, contents, deleted, nextFree, None, missing)
    ensures (forall x :: x in lru ==> x in entries) && forall x :: x in inUse ==> x in entries
    ensures Sum(entries[e := entries[e].(refs := entries[e].refs - 1)], lru)
          + Sum(entries[e := entries[e].(refs := entries[e].refs - 1)], inUse)
          == Sum(entries, lru) + Sum(entries, inUse)
  {
    CountedDown(entries, clients, e);
    InOneList(entries, lru, inUse, e);
    ListMembers(entries, lru, inUse);
    hide Counted, Listed, Tabled, Allocated, Sum;
    Recounted(entries, lru, inUse, contents, missing, deleted, nextFree, e, entries[e].refs - 1, lru, inUse);
  }

  /** A new reference count for e, with e in the list that it chooses. */
  lemma Recounted(entries: Entries, lru: seq<Handle>, inUse: seq<Handle>, contents: map<Tag, Handle>,
                  missing: Option<Handle>,
                  deleted: seq<Handle>, nextFree: Handle, e: Handle, refs: nat, lru': seq<Handle>, inUse': seq<Handle>)
    requires e in entries && refs > 0 && Listed(entries, lru, inUse)
    requires Tabled(entries, contents, missing) && Allocated(entries, deleted, nextFree)
    requires (forall x :: x in lru' ==> x in entries) && forall x :: x in inUse' ==> x in entries
    requires forall x :: x != e ==> (x in lru' <==> x in lru) && (x in inUse' <==> x in inUse)
    requires (e in lru' <==> entries[e].inCache && refs == 1) && (e in inUse' <==> entries[e].inCache && refs >= 2)
    ensures var entries' := entries[e := entries[e].(refs := refs)];
      && Listed(entries', lru', inUse') && Tabled(entries', contents, missing) && Allocated(entries', deleted, nextFree)
      && Sum(entries', lru') == Sum(entries, lru') && Sum(entries', inUse') == Sum(entries, inUse')
  {
    hide Tabled, Allocated, Sum;
    var entries' := entries[e := entries[e].(refs := refs)];
    SameTabled(entries, entries', contents, missing);
    SameAllocated(entries, entries', deleted, nextFree);
    RecountedSum(entries, e, refs, lru');
    RecountedSum(entries, e, refs, inUse');
    RecountedListed(entries, lru, inUse, e, refs, lru', inUse');
  }

  lemma NotListedUnlessShared(entries: Entries, clients: map<Handle, nat>, e: Handle)
    requires Counted(entries, clients, Some(e)) && e in entries
    ensures entries[e].inCache ==> entries[e].refs >= 2
  {
  }

  /** The last reference to go is not the cache's while the entry is cached. */
  lemma NotListedWhenLast(entries: Entries, clients: map<Handle, nat>, e: Handle)
    requires Counted(entries, clients, Some(e)) && e in entries && entries[e].refs == 1
    ensures !entries[e].inCache
  {
  }

  lemma FreedCounted(entries: Entries, clients: map<Handle, nat>, e: Handle)
    requires Counted(entries, clients, Some(e)) && e in entries
    ensures Counted(entries - {e}, clients - {e}, None)
  {
    assert (entries - {e}).Keys == entries.Keys - {e} && (clients - {e}).Keys == clients.Keys - {e};
  }

  lemma ListFacts(next: Links, prev: Links, lru: seq<Handle>, inUse: seq<Handle>)
    requires Lists(next, prev, lru, inUse)
    ensures Distinct(lru) && Distinct(inUse) && forall e :: e in lru ==> e > IN_USE && e !in inUse
    ensures forall e :: e in Without(lru, 0) + Without(inUse, 0) ==> e > IN_USE
  {
    WithoutMembers(lru, 0);
    WithoutMembers(inUse, 0);
  }

  lemma InOneList(entries: Entries, lru: seq<Handle>, inUse: seq<Handle>, e: Handle)
    requires Listed(entries, lru, inUse) && e in entries
    ensures entries[e].inCache && entries[e].refs == 1 ==> e in lru && e !in inUse
    ensures entries[e].inCache && entries[e].refs >= 2 ==> e in inUse && e !in lru
    ensures !entries[e].inCache ==> e !in lru && e !in inUse
  {
  }

  /** Reference counts do not matter to the table or the allocator. */
  lemma SameTabled(entries: Entries, entries': Entries, contents: map<Tag, Handle>, missing: Option<Handle>)
    requires Tabled(entries, contents, missing) && entries'.Keys == entries.Keys
    requires forall e :: e in entries ==> entries'[e].inCache == entries[e].inCache && entries'[e].tag == entries[e].tag
    ensures Tabled(entries', contents, missing)
  {
    assert forall e :: e in entries' <==> e in entries'.Keys;
    assert forall e :: e in entries <==> e in entries.Keys;
  }

  lemma SameAllocated(entries: Entries, entries': Entries, deleted: seq<Handle>, nextFree: Handle)
    requires Allocated(entries, deleted, nextFree) && entries'.Keys <= entries.Keys
    ensures Allocated(entries', deleted, nextFree)
  {
    assert forall e :: e in entries' <==> e in entries'.Keys;
  }

  /** Freeing an entry that is in no list. */
  lemma FreedAgrees(entries: Entries, lru: seq<Handle>, inUse: seq<Handle>, contents: map<Tag, Handle>,
                    missing: Option<Handle>, deleted: seq<Handle>, nextFree: Handle, e: Handle)
    requires e in entries && !entries[e].inCache && e !in lru && e !in inUse
    requires Listed(entries, lru, inUse) && Tabled(entries, contents, missing) && Allocated(entries, deleted, nextFree)
    ensures Listed(entries - {e}, lru, inUse) && Tabled(entries - {e}, contents, missing)
    ensures Allocated(entries - {e}, deleted + [e], nextFree)
    ensures Sum(entries - {e}, lru) == Sum(entries, lru) && Sum(entries - {e}, inUse) == Sum(entries, inUse)
  {
    SumSame(entries, entries - {e}, lru);
    SumSame(entries, entries - {e}, inUse);
  }

  // ------------------------------------------------------------------- leaving the cache

  /** What becomes of entry e when the cache gives up its reference: it is freed unless a
      client still holds it, and nothing else changes. */
  ghost predicate Left(entries: Entries, clients: map<Handle, nat>, deleted: seq<Handle>,
                       entries': Entries, clients': map<Handle, nat>, deleted': seq<Handle>, e: Handle) {
    && e in entries && e in clients
    && if clients[e] == 0
       then entries' == entries - {e} && clients' == clients - {e} && deleted' == deleted + [e]
       else entries' == entries[e := entries[e].(inCache := false, refs := clients[e])] && clients' == clients
            && deleted' == deleted
  }

  lemma ErasedAgrees(entries: Entries, clients: map<Handle, nat>, next: Links, prev: Links, lru: seq<Handle>,
                     inUse: seq<Handle>, contents: map<Tag, Handle>, deleted: seq<Handle>, nextFree: Handle, e: Handle)
    requires Lists(next, prev, lru, inUse) && e in entries && entries[e].inCache
    requires Agree(entries, clients, lru, inUse, contents, deleted, nextFree, None, Some(e))
    ensures e in lru || e in inUse
    ensures e in clients && entries[e].refs == clients[e] + 1
    ensures (forall x :: x in lru ==> x in entries) && forall x :: x in inUse ==> x in entries
    ensures (forall x :: x in Without(lru, e) ==> x in entries) && forall x :: x in Without(inUse, e) ==> x in entries
    ensures var entries' := entries[e := entries[e].(inCache := false)];
      && Agree(entries', clients, Without(lru, e), Without(inUse, e), contents, deleted, nextFree, Some(e), None)
      && Sum(entries', Without(lru, e)) + Sum(entries', Without(inUse, e)) + entries[e].charge
         == Sum(entries, lru) + Sum(entries, inUse)
  {
    ListFacts(next, prev, lru, inUse);
    InOneList(entries, lru, inUse, e);
    ListMembers(entries, lru, inUse);
    RefsPositive(entries, clients, None, e);
    ErasedCounted(entries, clients, e);
    WithoutMembers(lru, e);
    WithoutMembers(inUse, e);
    SumWithout(entries, lru, e);
    SumWithout(entries, inUse, e);
    ErasedListed(entries, lru, inUse, e, Without(lru, e), Without(inUse, e));
    ErasedTabled(entries, contents, e);
    hide Lists, Distinct, Counted, Listed, Tabled, Allocated, Sum;
    var entries' := entries[e := entries[e].(inCache := false)];
    SumSame(entries, entries', Without(lru, e));
    SumSame(entries, entries', Without(inUse, e));
    SameAllocated(entries, entries', deleted, nextFree);
  }

  lemma ErasedCounted(entries: Entries, clients: map<Handle, nat>, e: Handle)
    requires Counted(entries, clients, None) && e in entries && entries[e].inCache
    ensures e in clients && entries[e].refs == clients[e] + 1
    ensures Counted(entries[e := entries[e].(inCache := false)], clients, Some(e))
  {
  }

  lemma ErasedListed(entries: Entries, lru: seq<Handle>, inUse: seq<Handle>, e: Handle, lru': seq<Handle>,
                     inUse': seq<Handle>)
    requires Listed(entries, lru, inUse) && e in entries
    requires forall x :: (x in lru' <==> x in lru && x != e) && (x in inUse' <==> x in inUse && x != e)
    ensures Listed(entries[e := entries[e].(inCache := false)], lru', inUse')
  {
  }

  lemma ErasedTabled(entries: Entries, contents: map<Tag, Handle>, e: Handle)
    requires Tabled(entries, contents, Some(e)) && e in entries
    ensures Tabled(entries[e := entries[e].(inCache := false)], contents, None)
  {
  }

  lemma RecountKeepsKeys(entries: Entries, e: Handle, refs: nat)
    requires e in entries
    ensures entries[e := entries[e].(refs := refs)].Keys == entries.Keys
  {
  }

  lemma LookupAgrees(entries: Entries, clients: map<Handle, nat>, next: Links, prev: Links, lru: seq<Handle>,
                     inUse: seq<Handle>, contents: map<Tag, Handle>, tag: Tag)
    requires Lists(next, prev, lru, inUse) && Tabled(entries, contents, None) && tag in contents
    requires Counted(entries, clients, None)
    ensures contents[tag] in clients
    ensures contents[tag] in entries && entries[contents[tag]].inCache && entries[contents[tag]].tag == tag
    ensures contents[tag] !in Without(lru, contents[tag])
  {
    ListFacts(next, prev, lru, inUse);
    WithoutMembers(lru, contents[tag]);
  }

  lemma LeavesTable(entries: Entries, contents: map<Tag, Handle>, tag: Tag)
    requires Tabled(entries, contents, None) && tag in contents
    ensures contents[tag] in entries && entries[contents[tag]].inCache
    ensures Tabled(entries, contents - {tag}, Some(contents[tag]))
  {
  }

  lemma LruHead(next: Links, prev: Links, lru: seq<Handle>, inUse: seq<Handle>)
    requires Lists(next, prev, lru, inUse)
    ensures LRU in next && (next[LRU] != LRU <==> lru != []) && (lru != [] ==> next[LRU] == lru[0])
  {
    LastNode(next, prev, LRU, lru);
    assert lru != [] ==> lru[0] in lru;
  }

  lemma OldestIsFree(entries: Entries, clients: map<Handle, nat>, lru: seq<Handle>, inUse: seq<Handle>,
                     contents: map<Tag, Handle>, oldest: Handle)
    requires Counted(entries, clients, None) && Listed(entries, lru, inUse) && Tabled(entries, contents, None)
    requires lru != [] && oldest == lru[0]
    ensures oldest in entries && entries[oldest].tag in contents && contents[entries[oldest].tag] == oldest
    ensures oldest in clients && clients[oldest] == 0
    ensures Without(lru, oldest) == lru[1..]
  {
    assert lru[0] in lru;
  }

  /** The new entry has one client, and is what its tag finds if it is cached. */
  ghost predicate Inserted(entries: Entries, clients: map<Handle, nat>, contents: map<Tag, Handle>, e: Handle,
                           entry: CacheEntry) {
    && e in entries && e in clients && clients[e] == 1 && entries[e] == entry
    && (entry.inCache ==> entry.tag in contents && contents[entry.tag] == e)
  }

  /** Other tags find what they found before, or have been evicted. */
  ghost predicate OthersFrom(before: map<Tag, Handle>, after: map<Tag, Handle>, tag: Tag) {
    forall t :: t != tag && t in after ==> t in before && after[t] == before[t]
  }

  /** The entry that a new one with this tag takes the place of. */
  ghost function Replaced(capacity: nat, contents: map<Tag, Handle>, tag: Tag): Option<Handle> {
    if capacity > 0 && tag in contents then Some(contents[tag]) else None
  }

  ghost predicate Replaceable(entries: Entries, clients: map<Handle, nat>, contents: map<Tag, Handle>) {
    forall t :: t in contents ==> contents[t] in entries && contents[t] in clients
  }

  lemma TabledAreReplaceable(entries: Entries, clients: map<Handle, nat>, contents: map<Tag, Handle>)
    requires Counted(entries, clients, None) && Tabled(entries, contents, None)
    ensures Replaceable(entries, clients, contents)
  {
  }

  ghost function EntriesAfter(entries: Entries, clients: map<Handle, nat>, replaced: Option<Handle>): Entries
    requires replaced.Some? ==> replaced.value in entries && replaced.value in clients
  {
    if replaced.None? then entries
    else if clients[replaced.value] == 0 then entries - {replaced.value}
    else entries[replaced.value := entries[replaced.value].(inCache := false, refs := clients[replaced.value])]
  }

  ghost function LruAfter(lru: seq<Handle>, replaced: Option<Handle>): seq<Handle> {
    if replaced.None? then lru else Without(lru, replaced.value)
  }

  ghost function FreedBy(clients: map<Handle, nat>, replaced: Option<Handle>): seq<Handle>
    requires replaced.Some? ==> replaced.value in clients
  {
    if replaced.Some? && clients[replaced.value] == 0 then [replaced.value] else []
  }

  lemma AddedKeeps(entries: Entries, clients: map<Handle, nat>, contents: map<Tag, Handle>, capacity: nat,
                   e: Handle, entry: CacheEntry, contents': map<Tag, Handle>)
    requires Replaceable(entries, clients, contents) && e !in entries && e !in clients
    requires entry.inCache == (capacity > 0)
    requires contents' == if capacity > 0 then contents[entry.tag := e] else contents
    ensures var replaced := Replaced(capacity, contents, entry.tag);
      var clients' := clients[e := 1] - (set x | x in FreedBy(clients, replaced));
      && Inserted(EntriesAfter(entries[e := entry], clients, replaced), clients', contents', e, entry)
      && OthersFrom(contents, contents', entry.tag) && ClientsKept(clients, clients')
  {
  }

  /** The front of the LRU list has been freed, in order, and no more of it than was needed:
      with the last of those entries the cache was over its capacity. */
  ghost predicate Evicted(entries: Entries, lru: seq<Handle>, deleted: seq<Handle>, capacity: nat,
                          entries': Entries, lru': seq<Handle>, deleted': seq<Handle>, usage': nat) {
    && |lru'| <= |lru|
    && var n := |lru| - |lru'|;
    && lru' == lru[n..] && deleted' == deleted + lru[..n] && entries' == entries - (set e | e in lru[..n])
    && (n > 0 ==> lru[n - 1] in entries && usage' + entries[lru[n - 1]].charge > capacity)
  }

  lemma NothingEvicted(entries: Entries, lru: seq<Handle>, deleted: seq<Handle>, capacity: nat, usage: nat)
    ensures Evicted(entries, lru, deleted, capacity, entries, lru, deleted, usage)
  {
    assert entries - (set e | e in lru[..0]) == entries;
  }

  lemma OneMoreEvicted(entries0: Entries, lru0: seq<Handle>, deleted0: seq<Handle>, capacity: nat,
                       entries: Entries, lru: seq<Handle>, deleted: seq<Handle>, usage: nat)
    requires Evicted(entries0, lru0, deleted0, capacity, entries, lru, deleted, usage)
    requires lru != [] && lru[0] in entries && usage > capacity
    ensures forall usage': nat | usage' + entries[lru[0]].charge == usage ::
      Evicted(entries0, lru0, deleted0, capacity, entries - {lru[0]}, lru[1..], deleted + [lru[0]], usage')
  {
    var n := |lru0| - |lru|;
    var gone := lru0[..n + 1];
    assert gone == lru0[..n] + [lru[0]];
    assert entries - {lru[0]} == entries0 - (set e | e in gone);
  }

  lemma EvictionKeeps(entries: Entries, clients: map<Handle, nat>, clients0: map<Handle, nat>, contents0: map<Tag,
                      Handle>,
                      contents: map<Tag, Handle>, oldest: Handle, e: Handle, entry: CacheEntry)
    requires oldest in entries && oldest in clients && clients[oldest] == 0
    requires entries[oldest].tag in contents && contents[entries[oldest].tag] == oldest
    requires Inserted(entries, clients, contents, e, entry) && OthersFrom(contents0, contents, entry.tag)
    requires ClientsKept(clients0, clients)
    ensures Inserted(entries - {oldest}, clients - {oldest}, contents - {entries[oldest].tag}, e, entry)
    ensures OthersFrom(contents0, contents - {entries[oldest].tag}, entry.tag)
    ensures ClientsKept(clients0, clients - {oldest})
  {
  }

  /** Entries that clients hold stay, with as many clients. */
  ghost predicate ClientsKept(before: map<Handle, nat>, after: map<Handle, nat>) {
    forall e :: e in before && before[e] > 0 ==> e in after && after[e] == before[e]
  }

  lemma NewEntryAgrees(entries: Entries, clients: map<Handle, nat>, next: Links, prev: Links, lru: seq<Handle>,
                       inUse: seq<Handle>, contents: map<Tag, Handle>, deleted: seq<Handle>, e: Handle,
                       tag: Tag, value: string, charge: nat)
    requires Lists(next, prev, lru, inUse)
    requires Agree(entries, clients, lru, inUse, contents, deleted, e, None, None)
    ensures e !in entries && e !in clients && e !in deleted && e !in lru && e !in inUse && e > IN_USE
    ensures forall t :: t in contents ==> contents[t] != e
    ensures (forall x :: x in lru ==> x in entries) && forall x :: x in inUse ==> x in entries
    ensures tag in contents ==> contents[tag] in entries && entries[contents[tag]].inCache
    ensures var entries' := entries[e := CacheEntry(tag, value, charge, true, 2)];
      && Agree(entries', clients[e := 1], lru, inUse + [e], contents[tag := e], deleted, e + 1, None,
               if tag in contents then Some(contents[tag]) else None)
      && Sum(entries', lru) + Sum(entries', inUse + [e]) == Sum(entries, lru) + Sum(entries, inUse) + charge
    ensures var entries' := entries[e := CacheEntry(tag, value, charge, false, 1)];
      && Agree(entries', clients[e := 1], lru, inUse, contents, deleted, e + 1, None, None)
      && Sum(entries', lru) + Sum(entries', inUse) == Sum(entries, lru) + Sum(entries, inUse)
  {
    NewAddress(entries, clients, deleted, e);
    ListMembers(entries, lru, inUse);
    TableMembers(entries, contents);
    var cached := entries[e := CacheEntry(tag, value, charge, true, 2)];
    var loose := entries[e := CacheEntry(tag, value, charge, false, 1)];
    NewCounted(entries, clients, e, CacheEntry(tag, value, charge, true, 2));
    NewCounted(entries, clients, e, CacheEntry(tag, value, charge, false, 1));
    NewListed(entries, lru, inUse, e, CacheEntry(tag, value, charge, true, 2));
    NewListed(entries, lru, inUse, e, CacheEntry(tag, value, charge, false, 1));
    NewTabled(entries, contents, e, CacheEntry(tag, value, charge, true, 2));
    NewTabled(entries, contents, e, CacheEntry(tag, value, charge, false, 1));
    NewAllocated(entries, deleted, e, cached);
    NewAllocated(entries, deleted, e, loose);
    hide Lists, Distinct, Counted, Listed, Tabled, Allocated, Sum;
    SumSame(entries, cached, lru);
    SumSame(entries, cached, inUse);
    SumAppended(cached, inUse, e);
    SumSame(entries, loose, lru);
    SumSame(entries, loose, inUse);
  }

  lemma NewAddress(entries: Entries, clients: map<Handle, nat>, deleted: seq<Handle>, e: Handle)
    requires Allocated(entries, deleted, e) && Counted(entries, clients, None)
    ensures e !in entries && e !in clients && e !in deleted && e > IN_USE
  {
    assert e !in entries.Keys;
  }

  lemma TableMembers(entries: Entries, contents: map<Tag, Handle>)
    requires Tabled(entries, contents, None)
    ensures forall t :: t in contents ==> contents[t] in entries && entries[contents[t]].inCache
  {
  }

  lemma NewCounted(entries: Entries, clients: map<Handle, nat>, e: Handle, x: CacheEntry)
    requires Counted(entries, clients, None) && e !in entries && x.refs == if x.inCache then 2 else 1
    ensures Counted(entries[e := x], clients[e := 1], None)
  {
  }

  lemma NewListed(entries: Entries, lru: seq<Handle>, inUse: seq<Handle>, e: Handle, x: CacheEntry)
    requires Listed(entries, lru, inUse) && e !in entries && x.refs == if x.inCache then 2 else 1
    ensures Listed(entries[e := x], lru, if x.inCache then inUse + [e] else inUse)
  {
  }

  lemma NewTabled(entries: Entries, contents: map<Tag, Handle>, e: Handle, x: CacheEntry)
    requires Tabled(entries, contents, None) && e !in entries
    ensures x.inCache ==>
      Tabled(entries[e := x], contents[x.tag := e], if x.tag in contents then Some(contents[x.tag]) else None)
    ensures !x.inCache ==> Tabled(entries[e := x], contents, None)
  {
  }

  lemma NewAllocated(entries: Entries, deleted: seq<Handle>, e: Handle, entries': Entries)
    requires Allocated(entries, deleted, e) && entries'.Keys == entries.Keys + {e}
    ensures Allocated(entries', deleted, e + 1)
  {
    assert forall x :: x in entries' <==> x in entries'.Keys;
  }
}
