/** The circular stack the scan keeps its window in. The Go code links
    `div = 2r+1` blurStack nodes into a cycle; here the nodes are the slots
    of an array and `next` is the index one further, wrapping to 0. */
module Ring {
  import opened Words

  datatype Option<T> = None | Some(value: T)

  /** The slot `stack.next` leads to. */
  function Next(i: nat, div: nat): (j: nat)
    requires i < div
    ensures j < div
    ensures j == (i + 1) % div
  {
    if i + 1 == div then 0 else i + 1
  }

  /** The slot reached from `i` by following `next` `k` times. */
  function Advance(i: nat, k: nat, div: nat): (j: nat)
    requires i < div
    ensures j < div
    decreases k
  {
    if k == 0 then i else Advance(Next(i, div), k - 1, div)
  }

  /** The slot `k < div` places after `i`, counted round the ring. */
  function Slot(i: nat, k: nat, div: nat): (j: nat)
    requires i < div && k < div
    ensures j < div
  {
    if i + k < div then i + k else i + k - div
  }

  /** Following `next` fewer than `div` times from a slot lands on another
      slot, `k` places round; following it `div` times comes back: the
      ring has exactly `div` slots and closes on itself. */
  lemma {:induction false} AdvanceIsSlot(i: nat, k: nat, div: nat)
    requires i < div && k <= div
    ensures k < div ==> Advance(i, k, div) == Slot(i, k, div)
    ensures 0 < k < div ==> Advance(i, k, div) != i
    ensures k == div ==> Advance(i, k, div) == i
    decreases k
  {
    if k > 0 {
      AdvanceIsSlot(Next(i, div), k - 1, div);
    }
  }

  /** One more step round the ring is one more `next`. */
  lemma {:induction false} AdvanceStep(i: nat, k: nat, div: nat)
    requires i < div
    ensures Advance(i, k + 1, div) == Next(Advance(i, k, div), div)
    decreases k
  {
    if k > 0 {
      AdvanceStep(Next(i, div), k - 1, div);
    }
  }

  /** Moving the start of the ring one slot on renumbers every slot. */
  lemma SlotNext(i: nat, k: nat, div: nat)
    requires i < div && k < div
    ensures k + 1 < div ==> Slot(Next(i, div), k, div) == Slot(i, k + 1, div) != i
    ensures k + 1 == div ==> Slot(Next(i, div), k, div) == i
  {
  }

  /** Builds the ring of `div = 2r+1` nodes, and marks `stackEnd`, the node
      `r+1` links from the start, while creating node `r+1`; for radius 0
      there is no node 1, so no node is marked. */
  method NewRing(radius: nat) returns (stack: array<uint32>, stackEnd: Option<nat>)
    ensures fresh(stack) && stack.Length == 2 * radius + 1
    ensures radius >= 1 ==> stackEnd == Some(radius + 1)
    ensures radius >= 1 ==> Advance(0, radius + 1, stack.Length) == radius + 1
    ensures radius == 0 ==> stackEnd == None
  {
    var div := 2 * radius + 1;
    stack := new uint32[div];
    stackEnd := None;
    for i := 1 to div
      invariant stackEnd == if radius + 1 < i then Some(radius + 1) else None
    {
      if i == radius + 1 {
        stackEnd := Some(i);
      }
    }
    if radius >= 1 {
      AdvanceIsSlot(0, radius + 1, div);
    }
  }
}
