/** A plain bidirectional cursor over a sorted sequence: what every iterator refines. */
module Cursors {
  import opened Keys

  // A cursor position is an index, or -1 when the cursor is not valid.

  function First(n: nat): int { if n > 0 then 0 else -1 }

  function Last(n: nat): int { n - 1 }

  function Next(n: nat, p: int): int { if p + 1 < n then p + 1 else -1 }

  function Prev(p: int): int { p - 1 }

  function Seek(s: seq<Entry>, k: InternalKey): int {
    var i := LowerBound(s, k);
    if i < |s| then i else -1
  }
}
