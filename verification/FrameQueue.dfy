/** The in-memory frame queue of transports/c/src/carrier.c: a FIFO in an array that is
    compacted in place and doubled when full. */
module FrameQueue {
  import opened Bytes

  /** A heap copy of one frame. */
  class Block {
    const data: seq<byte>

    constructor (data: seq<byte>)
      ensures this.data == data
    {
      this.data := data;
    }
  }

  const FIRST_CAPACITY := 8

  class Queue {
    var items: array<Block?>
    var head: nat
    var count: nat

    // Every copy ever queued, and those that have left, both in order; each copy that left was
    // either handed to a caller or freed.
    ghost var pushed: seq<Block?>
    ghost var left: seq<Block?>
    ghost var handed: set<Block?>
    ghost var freed: set<Block?>

    ghost predicate Valid()
      reads this, items
    {
      && head + count <= items.Length
      && pushed == left + Contents()
      && null !in pushed
      && (forall i, j :: 0 <= i < j < |pushed| ==> pushed[i] != pushed[j])
      && (set b | b in left) == handed + freed
      && handed !! freed
    }

    /** The queued copies, oldest first. */
    ghost function Contents(): seq<Block?>
      requires head + count <= items.Length
      reads this, items
    {
      items[head..head + count]
    }

    constructor ()
      ensures Valid() && Contents() == [] && pushed == [] && fresh(items)
    {
      items := new Block?[0];
      head, count := 0, 0;
      pushed, left, handed, freed := [], [], {}, {};
    }

    /** `canGrow` and `canCopy` say whether `realloc` and `malloc` succeed. */
    method Push(data: seq<byte>, canGrow: bool, canCopy: bool) returns (ok: bool)
      requires Valid()
      modifies this, items
      ensures Valid() && (items == old(items) || fresh(items))
      ensures ok <==> canCopy && (canGrow || old(head + count < items.Length || head > 0))
      ensures !ok ==> Contents() == old(Contents()) && pushed == old(pushed)
      ensures ok ==> exists b: Block :: fresh(b) && b.data == data
                                        && Contents() == old(Contents()) + [b] && pushed == old(pushed) + [b]
      ensures left == old(left) && handed == old(handed) && freed == old(freed)
    {
      if head + count == items.Length {
        if head > 0 {
          Compact();
        } else {
          if !canGrow {
            return false;
          }
          Grow();
        }
      }
      if !canCopy {
        return false;
      }
      var copy := new Block(data);
      Append(copy);
      ok := true;
    }

    /** Stores a fresh copy behind the last entry; there is room for it. */
    method Append(copy: Block)
      requires Valid() && head + count < items.Length && copy !in pushed
      modifies this`count, this`pushed, items
      ensures Valid() && Contents() == old(Contents()) + [copy] && pushed == old(pushed) + [copy]
    {
      items[head + count] := copy;
      count := count + 1;
      pushed := pushed + [copy];
      assert Contents() == old(Contents()) + [copy];
    }

    /** The `memmove` that brings the live entries to the front. */
    method Compact()
      requires Valid() && head > 0
      modifies this`head, items
      ensures Valid() && head == 0 && Contents() == old(Contents())
    {
      forall i | 0 <= i < count {
        items[i] := items[head + i];
      }
      head := 0;
    }

    /** The `realloc` to twice the capacity, or to the first one. */
    method Grow()
      requires Valid() && head == 0
      modifies this`items
      ensures Valid() && fresh(items) && Contents() == old(Contents())
      ensures items.Length == if old(items.Length) == 0 then FIRST_CAPACITY else 2 * old(items.Length)
    {
      var cap := if items.Length == 0 then FIRST_CAPACITY else 2 * items.Length;
      var p := new Block?[cap];
      forall i | 0 <= i < items.Length {
        p[i] := items[i];
      }
      items := p;
    }

    method Pop() returns (out: Block?)
      requires Valid()
      modifies this
      ensures Valid() && items == old(items) && pushed == old(pushed) && freed == old(freed)
      ensures old(Contents()) == [] ==> out == null && Contents() == [] && handed == old(handed)
      ensures old(Contents()) != [] ==>
                && out != null && out == old(Contents())[0] && Contents() == old(Contents())[1..]
                && handed == old(handed) + {out}
    {
      if count == 0 {
        return null;
      }
      out := items[head];
      ghost var was := Contents();
      assert out == pushed[|left|];
      StillQueued(pushed, left, |left|);
      head := head + 1;
      count := count - 1;
      assert was == [out] + Contents();
      left := left + [out];
      handed := handed + {out};
    }

    /** A copy is freed once at most, and never after it was handed out. */
    method Free(b: Block?)
      requires b != null && b !in handed && b !in freed
      modifies this`freed
      ensures freed == old(freed) + {b}
    {
      freed := freed + {b};
    }

    /** Frees what is still queued; everything pushed has then been handed out or freed. */
    method Dispose()
      requires Valid()
      modifies this
      ensures Valid() && Contents() == [] && pushed == old(pushed) && handed == old(handed)
      ensures freed == old(freed) + (set b | b in old(Contents()))
      ensures (set b | b in pushed) == handed + freed
      ensures handed !! freed
    {
      ghost var was := Contents();
      for i := 0 to count
        invariant items == old(items) && head == old(head) && count == old(count)
        invariant (set b | b in left) >= handed
        invariant pushed == old(pushed) && left == old(left) && handed == old(handed)
        invariant freed == old(freed) + (set b | b in was[..i])
        invariant handed !! freed
      {
        assert items[head + i] == was[i] == pushed[|left| + i];
        StillQueued(pushed, left, |left| + i);
        assert items[head + i] !in handed && items[head + i] !in old(freed);
        forall j | 0 <= j < i ensures was[j] != was[i] {
          assert was[j] == pushed[|left| + j];
        }
        Free(items[head + i]);
      }
      assert was[..count] == was;
      left := left + was;
      items := new Block?[0];
      head, count := 0, 0;
      assert left + Contents() == left;
    }
  }

  /** A copy further back in the queue has not left it. */
  lemma StillQueued(pushed: seq<Block?>, left: seq<Block?>, k: nat)
    requires |left| <= k < |pushed| && left <= pushed
    requires forall i, j :: 0 <= i < j < |pushed| ==> pushed[i] != pushed[j]
    ensures pushed[k] !in left
  {
    forall i | 0 <= i < |left| ensures left[i] != pushed[k] {
      assert left[i] == pushed[i];
    }
  }
}
