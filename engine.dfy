/**
 * Two pieces of `VkEngine`'s bookkeeping (src/renderer/vk_engine.h): the deletion queue,
 * which runs its callbacks last-pushed-first when flushed, and the choice of the frame
 * slot among the `FRAME_OVERLAP` in-flight frames.
 */
module Engine {

  /** A pushed cleanup callback, known by an id; running it appends the id to a trace. */
  type DeletorId = nat

  /** `s` back to front. */
  function Reverse<T>(s: seq<T>): (r: seq<T>)
    ensures |r| == |s|
  {
    if |s| == 0 then [] else [s[|s| - 1]] + Reverse(s[..|s| - 1])
  }

  /** Element `i` of the reversal is element `|s| - 1 - i` of the original. */
  lemma {:induction false} ReverseAt<T>(s: seq<T>, i: nat)
    requires i < |s|
    ensures Reverse(s)[i] == s[|s| - 1 - i]
  {
    if i > 0 {
      ReverseAt(s[..|s| - 1], i - 1);
    }
  }

  /** Reversing keeps every element, as often as it occurs. */
  lemma {:induction false} ReverseMultiset<T>(s: seq<T>)
    ensures multiset(Reverse(s)) == multiset(s)
  {
    if |s| > 0 {
      var n := |s| - 1;
      ReverseMultiset(s[..n]);
      assert s == s[..n] + [s[n]];
    }
  }

  /** Whatever was pushed last runs first, before all that was pushed earlier. */
  lemma {:induction false} ReversePushed<T>(s: seq<T>, x: T)
    ensures Reverse(s + [x]) == [x] + Reverse(s)
  {
    assert (s + [x])[..|s|] == s;
  }

  class DeletionQueue {
    /** `deletors`, oldest first. */
    var deletors: seq<DeletorId>
    /** The callbacks run so far, in the order they ran. */
    var invoked: seq<DeletorId>

    constructor ()
      ensures deletors == [] && invoked == []
    {
      deletors, invoked := [], [];
    }

    /** `push_function`: at the back; nothing runs. */
    method PushFunction(f: DeletorId)
      modifies this
      ensures deletors == old(deletors) + [f]
      ensures invoked == old(invoked)
    {
      deletors := deletors + [f];
    }

    /** `flush`: run every callback from the back of the queue to the front, then empty it. */
    method Flush()
      modifies this
      ensures invoked == old(invoked) + Reverse(old(deletors))
      ensures deletors == []
    {
      var i := |deletors|;
      while i > 0
        invariant 0 <= i <= |deletors|
        invariant deletors == old(deletors)
        invariant invoked == old(invoked) + Reverse(deletors[i..])
      {
        i := i - 1;
        assert deletors[i..] == deletors[i..i + 1] + deletors[i + 1..];
        assert Reverse(deletors[i..]) == Reverse(deletors[i + 1..]) + [deletors[i]] by {
          ReverseAppend(deletors[i..i + 1], deletors[i + 1..]);
        }
        invoked := invoked + [deletors[i]];
      }
      deletors := [];
    }
  }

  /** Reversing a concatenation reverses the parts and swaps them. */
  lemma {:induction false} ReverseAppend<T>(a: seq<T>, b: seq<T>)
    ensures Reverse(a + b) == Reverse(b) + Reverse(a)
    decreases |b|
  {
    if |b| == 0 {
      assert a + b == a;
    } else {
      var n := |b| - 1;
      assert (a + b)[..|a + b| - 1] == a + b[..n];
      ReverseAppend(a, b[..n]);
    }
  }

  /**
   * Of two callbacks in one `flush`, the one pushed later runs earlier: the callback
   * pushed `k`-th runs `(|pushed| - 1 - k)`-th.
   */
  lemma FlushLastFirst(pushed: seq<DeletorId>, i: nat, j: nat)
    requires i < j < |pushed|
    ensures exists a, b :: 0 <= a < b < |pushed| && Reverse(pushed)[a] == pushed[j] && Reverse(pushed)[b] == pushed[i]
  {
    var n := |pushed|;
    var a, b := n - 1 - j, n - 1 - i;
    ReverseAt(pushed, a);
    ReverseAt(pushed, b);
    assert 0 <= a < b < n && Reverse(pushed)[a] == pushed[j] && Reverse(pushed)[b] == pushed[i];
  }

  // ---------------------------------------------------------------------------
  // Frame slots
  // ---------------------------------------------------------------------------

  /** `FRAME_OVERLAP`. */
  const FRAME_OVERLAP: nat := 2

  const UINT64_LIMIT: int := 0x1_0000_0000_0000_0000

  /** `uint64_t`, the type of `_frame_number`. */
  type Uint64 = x: int | 0 <= x < UINT64_LIMIT

  /** The slot of `_frames` that `get_current_frame` returns. */
  function FrameIndex(frameNumber: Uint64): (i: nat)
    ensures i < FRAME_OVERLAP
    ensures i == 0 <==> frameNumber % 2 == 0
  {
    frameNumber % FRAME_OVERLAP
  }

  /**
   * Successive frame numbers, including the step where a `uint64_t` wraps around to 0,
   * use the two slots alternately: 2^64 is even, so the wrap keeps the alternation.
   */
  lemma FramesAlternate(frameNumber: Uint64)
    ensures FrameIndex((frameNumber + 1) % UINT64_LIMIT) != FrameIndex(frameNumber)
    ensures FrameIndex((frameNumber + 2) % UINT64_LIMIT) == FrameIndex(frameNumber)
  {
    if frameNumber + 1 == UINT64_LIMIT {
      assert (frameNumber + 1) % UINT64_LIMIT == 0;
      assert (frameNumber + 2) % UINT64_LIMIT == 1;
    } else if frameNumber + 2 == UINT64_LIMIT {
      assert (frameNumber + 2) % UINT64_LIMIT == 0;
    }
  }
}
