/**
 The samplers' ring buffers over whole slots, exactly as the code updates `buffer_base`, `buffer_next` and
 `buffer_size`, and the bounded sequence they refine.
 */
module RingBuffer {

  datatype Ring<T> = Ring(slots: seq<T>, base: nat, next: nat, size: nat)

  /** i % n for the indices that occur, which are below 2 * n (see WrapIsMod). */
  function Wrap(i: nat, n: nat): nat { if i < n then i else i - n }

  lemma WrapIsMod(i: nat, n: nat)
    requires 0 < n && i < 2 * n
    ensures i % n == Wrap(i, n)
  {
    if i >= n {
      assert i == 1 * n + (i - n);
      assert (i - n) % n == i - n;
    }
  }

  ghost predicate ValidRing<T>(r: Ring<T>) {
    var n := |r.slots|;
    n > 0 && r.base < n && r.next < n && r.size <= n && r.next == Wrap(r.base + r.size, n)
  }

  /** `size` slots from `base` on, going round. */
  ghost function SlotsFrom<T>(slots: seq<T>, base: nat, size: nat): (s: seq<T>)
    requires base < |slots|
    ensures |s| == size
    decreases size
  {
    if size == 0 then [] else [slots[base]] + SlotsFrom(slots, Wrap(base + 1, |slots|), size - 1)
  }

  /** The records stored, oldest first. */
  ghost function Stored<T>(r: Ring<T>): (s: seq<T>)
    requires r.base < |r.slots|
    ensures |s| == r.size
  {
    SlotsFrom(r.slots, r.base, r.size)
  }

  lemma {:induction false} SlotsFromAt<T>(slots: seq<T>, base: nat, size: nat, k: nat)
    requires base < |slots| && k < size <= |slots|
    ensures SlotsFrom(slots, base, size)[k] == slots[Wrap(base + k, |slots|)]
    decreases k
  {
    if k > 0 {
      SlotsFromAt(slots, Wrap(base + 1, |slots|), size - 1, k - 1);
    }
  }

  lemma StoredAt<T>(r: Ring<T>, k: nat)
    requires ValidRing(r) && k < r.size
    ensures Stored(r)[k] == r.slots[Wrap(r.base + k, |r.slots|)]
  {
    SlotsFromAt(r.slots, r.base, r.size, k);
  }

  /** Two rings, one index: enough to compare what they store. */
  lemma StoredIs<T>(r: Ring<T>, s: seq<T>)
    requires ValidRing(r) && |s| == r.size
    requires forall k :: 0 <= k < r.size ==> s[k] == r.slots[Wrap(r.base + k, |r.slots|)]
    ensures Stored(r) == s
  {
    forall k | 0 <= k < r.size
      ensures Stored(r)[k] == s[k]
    {
      StoredAt(r, k);
    }
  }

  /** The newest n elements of a sequence. */
  function Newest<T>(s: seq<T>, n: nat): seq<T> { if |s| <= n then s else s[|s| - n..] }

  // ---- the operations, as the code performs them ----

  /** Roll with drop-oldest: the slot at `next` is written whether or not the ring is full. */
  function RollDropOldest<T>(r: Ring<T>, x: T): Ring<T>
    requires r.next < |r.slots|
  {
    var n := |r.slots|;
    Ring(r.slots[r.next := x],
         if r.size < n then r.base else Wrap(r.base + 1, n),
         Wrap(r.next + 1, n),
         if r.size < n then r.size + 1 else r.size)
  }

  /** Roll with drop-newest: a full ring refuses the record. */
  function RollDropNewest<T>(r: Ring<T>, x: T): Ring<T>
    requires r.next < |r.slots|
  {
    var n := |r.slots|;
    if r.size < n then Ring(r.slots[r.next := x], r.base, Wrap(r.next + 1, n), r.size + 1) else r
  }

  /** The oldest record leaves. */
  function Pop<T>(r: Ring<T>): Ring<T>
    requires r.size > 0 && |r.slots| > 0
  {
    r.(base := Wrap(r.base + 1, |r.slots|), size := r.size - 1)
  }

  /** The xstat reset moves `base` to `next`. */
  function ResetToNext<T>(r: Ring<T>): Ring<T> { r.(size := 0, base := r.next) }

  /** The haswellstat clear moves `next` back to `base`. */
  function ClearToBase<T>(r: Ring<T>): Ring<T> { r.(size := 0, next := r.base) }

  // ---- refinement of the bounded sequence ----

  /** Roll appends and keeps the newest. */
  lemma RollDropOldestRefines<T>(r: Ring<T>, x: T)
    requires ValidRing(r)
    ensures ValidRing(RollDropOldest(r, x)) && Stored(RollDropOldest(r, x)) == Newest(Stored(r) + [x], |r.slots|)
  {
    var n, r' := |r.slots|, RollDropOldest(r, x);
    var s := Newest(Stored(r) + [x], n);
    var shift := if r.size < n then 0 else 1;
    forall k | 0 <= k < r'.size
      ensures s[k] == r'.slots[Wrap(r'.base + k, n)]
    {
      if k + shift < r.size {
        StoredAt(r, k + shift);
      }
    }
    StoredIs(r', s);
  }

  /** Roll changes only the slot at the old `next`, which is the one before the new `next`. */
  lemma RollTouchesOneSlot<T>(r: Ring<T>, x: T)
    requires ValidRing(r)
    ensures var n, r' := |r.slots|, RollDropOldest(r, x);
            |r'.slots| == n && r'.next < n && LastSlot(r') == x &&
            forall j :: 0 <= j < n && j != r.next ==> r'.slots[j] == r.slots[j]
  {
  }

  lemma RollDropNewestRefines<T>(r: Ring<T>, x: T)
    requires ValidRing(r)
    ensures var r' := RollDropNewest(r, x);
            ValidRing(r') && |r'.slots| == |r.slots| &&
            Stored(r') == if |Stored(r)| < |r.slots| then Stored(r) + [x] else Stored(r)
  {
    if r.size < |r.slots| {
      RollDropOldestRefines(r, x);
    }
  }

  lemma PopRefines<T>(r: Ring<T>)
    requires ValidRing(r) && r.size > 0
    ensures ValidRing(Pop(r)) && Stored(r)[0] == r.slots[r.base] && Stored(Pop(r)) == Stored(r)[1..]
  {
    assert Stored(r) == [r.slots[r.base]] + Stored(Pop(r));
  }

  lemma ResetRefines<T>(r: Ring<T>)
    requires ValidRing(r)
    ensures ValidRing(ResetToNext(r)) && Stored(ResetToNext(r)) == []
    ensures ValidRing(ClearToBase(r)) && Stored(ClearToBase(r)) == []
  {
  }

  /** k records leave, oldest first. */
  function PopMany<T>(r: Ring<T>, k: nat): (r': Ring<T>)
    requires k <= r.size && |r.slots| > 0
    ensures r'.slots == r.slots && r'.next == r.next && r'.size == r.size - k
    ensures r.base < |r.slots| ==> r'.base < |r.slots|
  {
    if k == 0 then r else Pop(PopMany(r, k - 1))
  }

  /** Draining takes a prefix of the stored records, each found at `base` when its turn comes. */
  lemma {:induction false} PopManyRefines<T>(r: Ring<T>, k: nat)
    requires ValidRing(r) && k <= r.size
    ensures ValidRing(PopMany(r, k)) && Stored(PopMany(r, k)) == Stored(r)[k..]
    ensures k < r.size ==> PopMany(r, k).base < |r.slots| && r.slots[PopMany(r, k).base] == Stored(r)[k]
  {
    if k > 0 {
      PopManyRefines(r, k - 1);
      PopRefines(PopMany(r, k - 1));
      assert Stored(r)[k - 1..][1..] == Stored(r)[k..];
    }
    if k < r.size {
      PopRefines(PopMany(r, k));
    }
  }

  // ---- the ring against everything ever published ----

  /** The slot before `next`: where `last` looks. */
  function LastSlot<T>(r: Ring<T>): T
    requires 0 < |r.slots| && r.next < |r.slots|
  {
    r.slots[Wrap(|r.slots| + r.next - 1, |r.slots|)]
  }

  /** The stored records are what was published after the first `gone` records, and the slot before `next` holds
      the very last one, stored or not. */
  ghost predicate Tracks<T>(r: Ring<T>, published: seq<T>, gone: nat) {
    ValidRing(r) && gone + r.size == |published| && Stored(r) == published[gone..] &&
    (published != [] ==> LastSlot(r) == published[|published| - 1])
  }

  lemma NewestOfSuffix<T>(p: seq<T>, gone: nat, x: T, n: nat)
    requires gone <= |p| && |p| - gone <= n && n > 0
    ensures Newest(p[gone..] + [x], n) == (p + [x])[if |p| - gone < n then gone else gone + 1..]
  {
    var q := p + [x];
    assert q[gone..] == p[gone..] + [x];
    assert q[gone..][1..] == q[gone + 1..];
  }

  lemma RollTracks<T>(r: Ring<T>, published: seq<T>, gone: nat, x: T)
    requires Tracks(r, published, gone)
    ensures Tracks(RollDropOldest(r, x), published + [x], if r.size < |r.slots| then gone else gone + 1)
  {
    RollDropOldestRefines(r, x);
    NewestOfSuffix(published, gone, x, |r.slots|);
    RollTouchesOneSlot(r, x);
  }

  /** Taking the oldest record leaves what `last` shows alone. */
  lemma PopTracks<T>(r: Ring<T>, published: seq<T>, gone: nat)
    requires Tracks(r, published, gone) && r.size > 0
    ensures Stored(r)[0] == published[gone] && Tracks(Pop(r), published, gone + 1)
  {
    PopRefines(r);
    assert published[gone..][1..] == published[gone + 1..];
  }

  /** So does a reset. */
  lemma ResetTracks<T>(r: Ring<T>, published: seq<T>, gone: nat)
    requires Tracks(r, published, gone)
    ensures Tracks(ResetToNext(r), published, |published|)
  {
  }
}
