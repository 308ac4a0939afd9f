/** The default comparator over byte strings: its order, its shortened separators, and how
    it embeds in the linear order of user keys. */
module Bytewise {
  import opened Keys
  import opened Coding

  /** Lexicographic order of bytes, a proper prefix first. */
  predicate Before(a: Bytes, b: Bytes) {
    b != [] && (a == [] || a[0] < b[0] || (a[0] == b[0] && Before(a[1..], b[1..])))
  }

  lemma {:induction false} BeforeIsTotal(a: Bytes, b: Bytes)
    ensures Before(a, b) || Before(b, a) || a == b
    ensures !(Before(a, b) && Before(b, a)) && (a == b ==> !Before(a, b))
  {
    if a != [] && b != [] && a[0] == b[0] {
      BeforeIsTotal(a[1..], b[1..]);
      assert a == [a[0]] + a[1..] && b == [b[0]] + b[1..];
    }
  }

  /** The rank of a byte string, between zero and one. */
  function Rank(s: Bytes): (r: UserKey)
    ensures 0.0 <= r < 1.0 && (s != [] ==> r > 0.0)
  {
    if s == [] then 0.0 else (s[0] as real + 1.0 + Rank(s[1..])) / 257.0
  }

  lemma {:induction false} RankKeepsOrder(a: Bytes, b: Bytes)
    ensures Before(a, b) <==> Rank(a) < Rank(b)
    ensures a == b <==> Rank(a) == Rank(b)
  {
    if a != [] && b != [] {
      RankKeepsOrder(a[1..], b[1..]);
      assert a == [a[0]] + a[1..] && b == [b[0]] + b[1..];
    }
  }

  lemma {:induction false} CommonPrefix(a: Bytes, b: Bytes, n: nat)
    requires n <= |a| && n <= |b| && a[..n] == b[..n]
    ensures Before(a, b) <==> Before(a[n..], b[n..])
  {
    if n > 0 {
      assert a[0] == a[..n][0] && b[0] == b[..n][0];
      assert a[1..][..n - 1] == a[..n][1..] && b[1..][..n - 1] == b[..n][1..];
      CommonPrefix(a[1..], b[1..], n - 1);
      assert a[1..][n - 1..] == a[n..] && b[1..][n - 1..] == b[n..];
    } else {
      assert a[0..] == a && b[0..] == b;
    }
  }

  /** memcmp over the common length, then the lengths. */
  method Compare(a: Bytes, b: Bytes) returns (r: int)
    ensures (r < 0 <==> Before(a, b)) && (r > 0 <==> Before(b, a)) && (r == 0 <==> a == b)
  {
    var i := 0;
    while i < |a| && i < |b| && a[i] == b[i]
      invariant i <= |a| && i <= |b| && a[..i] == b[..i]
    {
      i := i + 1;
    }
    CommonPrefix(a, b, i);
    CommonPrefix(b, a, i);
    BeforeIsTotal(a, b);
    assert a == a[..i] + a[i..] && b == b[..i] + b[i..];
    if i < |a| && i < |b| {
      return if a[i] < b[i] then -1 else 1;
    }
    return |a| - |b|;
  }

  /** A string at or after `start`, before `limit` and no longer than `start`. */
  ghost predicate Shortened(start: Bytes, limit: Bytes, r: Bytes) {
    r == start || (Before(start, r) && Before(r, limit) && |r| <= |start|)
  }

  lemma RaisedByte(start: Bytes, i: nat)
    requires i < |start| && start[i] < 255
    ensures Before(start, start[..i] + [start[i] + 1])
  {
    var r := start[..i] + [start[i] + 1];
    assert r[..i] == start[..i] && r[i..] == [start[i] + 1];
    CommonPrefix(start, r, i);
  }

  /** At d, where they first differ, there is a byte between those of start and limit. */
  predicate Room(start: Bytes, limit: Bytes, d: nat) {
    && d < |start| && d < |limit| && start[..d] == limit[..d]
    && var low: nat, high: nat := start[d], limit[d];
       low + 1 < high
  }

  function Raised(s: Bytes, d: nat): Bytes
    requires d < |s|
  {
    s[..d] + [if s[d] < 255 then s[d] + 1 else 0]
  }

  /** Nothing shorter than the separator lies strictly between the two. */
  lemma NothingShorter(start: Bytes, limit: Bytes, d: nat, x: Bytes)
    requires Room(start, limit, d) && Before(start, x) && Before(x, limit)
    ensures |x| > d
  {
    if |x| <= d {
      PrefixOrNot(start, limit, d, x);
    }
  }

  lemma {:induction false} PrefixOrNot(start: Bytes, limit: Bytes, d: nat, x: Bytes)
    requires d <= |start| && d <= |limit| && start[..d] == limit[..d] && |x| <= d
    ensures !(Before(start, x) && Before(x, limit))
  {
    if x != [] {
      assert start[0] == start[..d][0] && limit[0] == limit[..d][0];
      assert start[1..][..d - 1] == start[..d][1..] && limit[1..][..d - 1] == limit[..d][1..];
      PrefixOrNot(start[1..], limit[1..], d - 1, x[1..]);
    }
  }

  lemma CommonByte(a: Bytes, b: Bytes, n: nat, k: nat)
    requires k < n && n <= |a| && n <= |b| && a[..n] == b[..n]
    ensures a[k] == b[k]
  {
    assert a[..n][k] == b[..n][k];
  }

  lemma RaisedLies(start: Bytes, limit: Bytes, d: nat)
    requires Room(start, limit, d)
    ensures Before(start, Raised(start, d)) && Before(Raised(start, d), limit) && Raised(start, d) != start
  {
    var r := Raised(start, d);
    RaisedByte(start, d);
    assert r[d] != start[d];
    assert r[..d] == limit[..d] && r[d..] == [start[d] + 1];
    CommonPrefix(r, limit, d);
  }

  method FindShortestSeparator(start: Bytes, limit: Bytes) returns (r: Bytes)
    ensures Shortened(start, limit, r)
    ensures forall d: nat :: Room(start, limit, d) ==> r == Raised(start, d) != start
    ensures r != start ==> exists d: nat :: Room(start, limit, d)
  {
    r := start;
    var minLength := if |start| < |limit| then |start| else |limit|;
    var diff := 0;
    while diff < minLength && start[diff] == limit[diff]
      invariant diff <= minLength && start[..diff] == limit[..diff]
    {
      diff := diff + 1;
    }
    if diff >= minLength {
      // one is a prefix of the other
    } else if start[diff] < 255 && start[diff] + 1 < limit[diff] {
      r := start[..diff] + [start[diff] + 1];
      assert Room(start, limit, diff);
      RaisedLies(start, limit, diff);
    }
    forall d: nat | Room(start, limit, d) ensures d == diff {
      if d < diff {
        CommonByte(start, limit, diff, d);
      } else if diff < d {
        CommonByte(start, limit, d, diff);
      }
    }
  }

  predicate FirstToRaise(key: Bytes, i: nat) {
    i < |key| && key[i] != 255 && forall k :: 0 <= k < i ==> key[k] == 255
  }

  method FindShortSuccessor(key: Bytes) returns (r: Bytes)
    ensures (r == key || Before(key, r)) && |r| <= |key|
    ensures r == key <==> forall i :: 0 <= i < |key| ==> key[i] == 255
    ensures r == key || exists i: nat :: FirstToRaise(key, i)
    ensures forall i: nat :: FirstToRaise(key, i) ==> r == Raised(key, i) && Before(key, r)
  {
    for i := 0 to |key|
      invariant forall k :: 0 <= k < i ==> key[k] == 255
    {
      if key[i] != 255 {
        RaisedByte(key, i);
        assert FirstToRaise(key, i);
        r := key[..i] + [key[i] + 1];
        assert r[i] != key[i];
        return;
      }
    }
    return key;
  }

  /** Bytes as the strings of the engine model. */
  function Text(b: Bytes): string {
    if b == [] then "" else [b[0] as char] + Text(b[1..])
  }

  // ------------------------------------------------------------------------ internal keys

  datatype ByteKey = ByteKey(user: Bytes, sequence: Sequence, kind: Kind)

  datatype ByteEntry = ByteEntry(key: ByteKey, value: string)

  function KeyRank(k: ByteKey): InternalKey {
    InternalKey(Rank(k.user), k.sequence, k.kind)
  }

  /** The internal comparator: user keys by the byte order, then decreasing tag. */
  predicate KeyBefore(a: ByteKey, b: ByteKey) {
    Before(a.user, b.user)
    || (a.user == b.user && Tag(InternalKey(0.0, a.sequence, a.kind)) > Tag(InternalKey(0.0, b.sequence, b.kind)))
  }

  lemma KeyRankKeepsOrder(a: ByteKey, b: ByteKey)
    ensures KeyBefore(a, b) <==> Less(KeyRank(a), KeyRank(b))
    ensures a == b <==> KeyRank(a) == KeyRank(b)
  {
    RankKeepsOrder(a.user, b.user);
  }

  /** The key with a user key raised and cut at d, in front of all others of that user key. */
  function RaisedKey(key: ByteKey, d: nat): ByteKey
    requires d < |key.user|
  {
    ByteKey(Raised(key.user, d), MAX_SEQUENCE, Value)
  }

  /** The user key is raised and cut where there is room, if that makes it shorter. */
  ghost predicate IsSeparator(start: ByteKey, limit: ByteKey, r: ByteKey) {
    if exists d: nat :: Room(start.user, limit.user, d) && d + 1 < |start.user| then
      forall d: nat :: Room(start.user, limit.user, d) && d + 1 < |start.user| ==> r == RaisedKey(start, d)
    else r == start
  }

  /** An index key between the last key of a block and the first key of the next one. */
  method FindShortestKeySeparator(start: ByteKey, limit: ByteKey) returns (r: ByteKey)
    ensures IsSeparator(start, limit, r)
  {
    var tmp := FindShortestSeparator(start.user, limit.user);
    var c := Compare(start.user, tmp);
    if |tmp| < |start.user| && c < 0 {
      BeforeIsTotal(start.user, tmp);
      return ByteKey(tmp, MAX_SEQUENCE, Value);
    }
    return start;
  }

  /** It has a new user key only if that lies strictly between theirs. */
  lemma SeparatorLies(start: ByteKey, limit: ByteKey, r: ByteKey)
    requires IsSeparator(start, limit, r)
    ensures r == start || (Before(start.user, r.user) && Before(r.user, limit.user) && |r.user| < |start.user|
                           && r.sequence == MAX_SEQUENCE && r.kind.Value?)
  {
    if d: nat :| Room(start.user, limit.user, d) && d + 1 < |start.user| {
      RaisedLies(start.user, limit.user, d);
    }
  }

  ghost predicate IsSuccessor(key: ByteKey, r: ByteKey) {
    if exists i: nat :: FirstToRaise(key.user, i) && i + 1 < |key.user| then
      forall i: nat :: FirstToRaise(key.user, i) && i + 1 < |key.user| ==> r == RaisedKey(key, i)
    else r == key
  }

  method FindShortKeySuccessor(key: ByteKey) returns (r: ByteKey)
    ensures IsSuccessor(key, r)
  {
    var tmp := FindShortSuccessor(key.user);
    var c := Compare(key.user, tmp);
    if |tmp| < |key.user| && c < 0 {
      BeforeIsTotal(key.user, tmp);
      return ByteKey(tmp, MAX_SEQUENCE, Value);
    }
    return key;
  }

  lemma SuccessorLies(key: ByteKey, r: ByteKey)
    requires IsSuccessor(key, r)
    ensures r == key || (Before(key.user, r.user) && |r.user| < |key.user|
                         && r.sequence == MAX_SEQUENCE && r.kind.Value?)
  {
    if i: nat :| FirstToRaise(key.user, i) && i + 1 < |key.user| {
      RaisedByte(key.user, i);
    }
  }
}
