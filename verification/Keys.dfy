/** Internal keys, their order, and the newest visible entry of a user key.

    The engine only ever compares user keys, so a user key is modelled by its rank in
    a countable linear order, a real number.  Module `Bytewise` proves that byte
    strings under the default comparator embed in this order. */
module Keys {

  type UserKey = real

  /** The largest sequence number: eight bits of the 64-bit tag hold the kind. */
  const MAX_SEQUENCE: nat := 0xff_ffff_ffff_ffff

  type Sequence = n: nat | n <= MAX_SEQUENCE

  datatype Kind = Deletion | Value

  datatype InternalKey = InternalKey(user: UserKey, sequence: Sequence, kind: Kind)

  datatype Entry = Entry(key: InternalKey, value: string)

  datatype Option<+T> = None | Some(value: T)

  /** Sequence and kind packed into one number, as stored behind the user key. */
  function Tag(k: InternalKey): nat {
    256 * k.sequence + (if k.kind.Value? then 1 else 0)
  }

  /** The internal order: increasing user key, then decreasing tag. */
  predicate Less(a: InternalKey, b: InternalKey) {
    a.user < b.user || (a.user == b.user && Tag(a) > Tag(b))
  }

  function Compare(a: InternalKey, b: InternalKey): (r: int)
    ensures r < 0 <==> Less(a, b)
    ensures r > 0 <==> Less(b, a)
    ensures r == 0 <==> a == b
  {
    if a.user < b.user then -1
    else if a.user > b.user then 1
    else if Tag(a) > Tag(b) then -1
    else if Tag(a) < Tag(b) then 1
    else 0
  }

  /** The key a lookup of `user` at `sequence` seeks to: before every visible entry. */
  function LookupKey(user: UserKey, sequence: Sequence): InternalKey {
    InternalKey(user, sequence, Value)
  }

  /** Exactly the entries at or after the lookup key are visible at its sequence. */
  lemma LookupKeySplits(k: InternalKey, user: UserKey, sequence: Sequence)
    requires k.user == user
    ensures Less(k, LookupKey(user, sequence)) <==> k.sequence > sequence
  {
  }

  /** Strict order between stored entries.  Every write has its own sequence number,
      so two entries of one user key never share a sequence number. */
  predicate Precedes(a: InternalKey, b: InternalKey) {
    a.user < b.user || (a.user == b.user && a.sequence > b.sequence)
  }

  ghost predicate Sorted(s: seq<Entry>) {
    forall i, j :: 0 <= i < j < |s| ==> Precedes(s[i].key, s[j].key)
  }

  ghost function SetOf(s: seq<Entry>): set<Entry> {
    set e | e in s
  }

  /** The position a seek to `k` lands on: the first entry that is not less. */
  function LowerBound(s: seq<Entry>, k: InternalKey): (r: nat)
    ensures r <= |s|
    ensures forall i :: 0 <= i < r ==> Less(s[i].key, k)
    ensures r < |s| ==> !Less(s[r].key, k)
  {
    if s == [] || !Less(s[0].key, k) then 0 else 1 + LowerBound(s[1..], k)
  }

  lemma LowerBoundUnique(s: seq<Entry>, k: InternalKey, i: nat)
    requires Sorted(s) && i <= |s|
    requires i > 0 ==> Less(s[i - 1].key, k)
    requires i < |s| ==> !Less(s[i].key, k)
    ensures LowerBound(s, k) == i
  {
  }

  /** `e` is the newest entry of `user` in `es` that a reader at `sequence` may see. */
  ghost predicate Newest(es: set<Entry>, user: UserKey, sequence: nat, e: Entry) {
    && e in es && e.key.user == user && e.key.sequence <= sequence
    && forall x :: x in es && x.key.user == user && x.key.sequence <= sequence
           ==> x.key.sequence <= e.key.sequence
  }

  ghost predicate HasVisible(es: set<Entry>, user: UserKey, sequence: nat) {
    exists e :: e in es && e.key.user == user && e.key.sequence <= sequence
  }

  /** No two entries of one user key share a sequence number. */
  ghost predicate DistinctSequences(es: set<Entry>) {
    forall a, b :: a in es && b in es && a.key.user == b.key.user && a.key.sequence == b.key.sequence
      ==> a == b
  }

  lemma NewestExists(es: set<Entry>, user: UserKey, sequence: nat) returns (e: Entry)
    requires HasVisible(es, user, sequence)
    ensures Newest(es, user, sequence, e)
    decreases es
  {
    var x :| x in es && x.key.user == user && x.key.sequence <= sequence;
    var rest := es - {x};
    if HasVisible(rest, user, sequence) {
      var y := NewestExists(rest, user, sequence);
      e := if x.key.sequence > y.key.sequence then x else y;
    } else {
      e := x;
    }
  }

  /** What a read of `user` at `sequence` must return: the value of the newest visible
      entry, or nothing when there is none or it is a deletion. */
  ghost function Read(es: set<Entry>, user: UserKey, sequence: nat): Option<string> {
    if e: Entry :| Newest(es, user, sequence, e) then
      (if e.key.kind.Value? then Some(e.value) else None)
    else None
  }

  lemma ReadIs(es: set<Entry>, user: UserKey, sequence: nat, e: Entry)
    requires DistinctSequences(es) && Newest(es, user, sequence, e)
    ensures Read(es, user, sequence) == if e.key.kind.Value? then Some(e.value) else None
  {
    var x :| Newest(es, user, sequence, x)
      && Read(es, user, sequence) == if x.key.kind.Value? then Some(x.value) else None;
    assert Newest(es, user, sequence, x);
    assert x == e;
  }

  lemma ReadNothing(es: set<Entry>, user: UserKey, sequence: nat)
    requires !HasVisible(es, user, sequence)
    ensures Read(es, user, sequence) == None
  {
  }
}
