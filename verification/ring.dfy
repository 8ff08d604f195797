/** The rotation ring: the circular list of bank names that picks which bank's
    accounts the next account backup flushes. Only its use by the cache is
    modelled: `add` appends a name, `next` moves the cursor one step and wraps
    from the last name to the first, `getCurrent` reads the name at the
    cursor, and `Length` counts the names. */
module Rotation {

  /** Cursor position after one `next` on a ring of `len` names. */
  function Advance(c: nat, len: nat): (r: nat)
    requires c < len
    ensures r < len
    ensures c + 1 < len ==> r == c + 1
    ensures c + 1 == len ==> r == 0
  {
    if c + 1 == len then 0 else c + 1
  }

  /** Cursor position after `k` calls of `next`, starting from `c`. */
  function AdvanceN(c: nat, len: nat, k: nat): (r: nat)
    requires c < len
    ensures r < len
  {
    if k == 0 then c else Advance(AdvanceN(c, len, k - 1), len)
  }

  /** Within one turn, `k` steps from `c` land on `c + k`, wrapped once. */
  lemma {:induction false} AdvanceNWithinTurn(c: nat, len: nat, k: nat)
    requires c < len && k <= len
    ensures AdvanceN(c, len, k) == if c + k < len then c + k else c + k - len
  {
    if k > 0 {
      AdvanceNWithinTurn(c, len, k - 1);
    }
  }

  /** The positions the cursor takes over `len` successive calls of `next`
      from `c`: element `k` is where it stands after `k + 1` calls. */
  function Turn(c: nat, len: nat): (r: seq<nat>)
    requires c < len
    ensures |r| == len
    ensures forall k :: 0 <= k < len ==> r[k] == AdvanceN(c, len, k + 1)
  {
    seq(len, k requires 0 <= k < len => AdvanceN(c, len, k + 1))
  }

  /** One full turn of `len` steps visits every position exactly once, in
      ring order, and brings the cursor back to where it started. */
  lemma FullTurn(c: nat, len: nat)
    requires c < len
    ensures AdvanceN(c, len, len) == c
    ensures forall p :: 0 <= p < len ==> p in Turn(c, len)
    ensures forall k1, k2 :: 0 <= k1 < k2 < len ==> Turn(c, len)[k1] != Turn(c, len)[k2]
  {
    var turn := Turn(c, len);
    AdvanceNWithinTurn(c, len, len);
    forall p | 0 <= p < len
      ensures p in turn
    {
      var k := if p > c then p - c else p - c + len;
      AdvanceNWithinTurn(c, len, k);
      assert turn[k - 1] == p;
    }
    forall k1, k2 | 0 <= k1 < k2 < len
      ensures turn[k1] != turn[k2]
    {
      AdvanceNWithinTurn(c, len, k1 + 1);
      AdvanceNWithinTurn(c, len, k2 + 1);
    }
  }

  /** `circularLinkedList`: names in insertion order and the cursor. */
  class Ring {
    var names: seq<string>
    var cursor: nat

    /** The cursor is on a name whenever there is one. */
    ghost predicate Valid()
      reads this
    {
      if names == [] then cursor == 0 else cursor < |names|
    }

    /** `newCircularLinkedList()`: no names yet. */
    constructor ()
      ensures Valid() && names == [] && cursor == 0
    {
      names, cursor := [], 0;
    }

    /** `add`: append at the tail; the cursor stays on the same name. */
    method Add(name: string)
      requires Valid()
      modifies this
      ensures Valid()
      ensures names == old(names) + [name]
      ensures cursor == old(cursor)
    {
      names := names + [name];
    }

    /** `next`: move the cursor one step, from the last name to the first. */
    method Next()
      requires Valid() && names != []
      modifies this
      ensures Valid()
      ensures names == old(names)
      ensures cursor == Advance(old(cursor), |names|)
    {
      if cursor + 1 == |names| {
        cursor := 0;
      } else {
        cursor := cursor + 1;
      }
    }

    /** `getCurrent`: the name under the cursor. */
    function Current(): (name: string)
      reads this
      requires Valid() && names != []
      ensures name in names
    {
      names[cursor]
    }

    /** `Length`: how many names were added. */
    function Length(): (n: nat)
      reads this
      ensures n == 0 <==> names == []
    {
      |names|
    }
  }
}
