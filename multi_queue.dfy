// A set of FIFO queues split into buckets that share one flat item list
// (com.unity.transport/Runtime/Utilities.cs, struct NativeMultiQueue<T>).
// Bucket b owns the slots [b * maxItems, (b + 1) * maxItems) of the item
// list; headTail holds, for every bucket, its head and tail index.

module MultiQueue {

  /**
   * Flat position of slot k of bucket b when every bucket has m slots,
   * that is b * m + k, written as repeated addition.
   */
  function Slot(m: int, b: int, k: int): int
    decreases b
  {
    if b <= 0 then k else Slot(m, b - 1, k) + m
  }

  lemma {:induction false} SlotIsProduct(m: int, b: nat, k: int)
    ensures Slot(m, b, k) == b * m + k
  {
    if b > 0 {
      SlotIsProduct(m, b - 1, k);
    }
  }

  /** Slots of a lower bucket lie below every slot of a higher one. */
  lemma {:induction false} SlotBelow(m: int, b: int, k: int, c: int, j: int)
    requires 0 <= k < m && 0 <= j && 0 <= b < c
    ensures Slot(m, b, k) < Slot(m, c, j)
  {
    if c == b + 1 {
      SlotShift(m, b, k, j);
    } else {
      SlotBelow(m, b, k, c - 1, j);
    }
  }

  lemma {:induction false} SlotShift(m: int, b: int, k: int, j: int)
    requires 0 <= b && 0 <= k < m && 0 <= j
    ensures Slot(m, b, k) < Slot(m, b + 1, j)
  {
    if b > 0 {
      SlotShift(m, b - 1, k, j);
    }
  }

  /** With m2 >= m1 slots per bucket, slot k of bucket b does not move down. */
  lemma {:induction false} SlotGrows(m1: int, m2: int, b: int, k: int)
    requires m1 <= m2
    ensures Slot(m1, b, k) <= Slot(m2, b, k)
  {
    if b > 0 {
      SlotGrows(m1, m2, b - 1, k);
    }
  }

  /** Within one bucket, slots keep the order of their indices. */
  lemma {:induction false} SlotStrict(m: int, b: int, j: int, k: int)
    requires j < k
    ensures Slot(m, b, j) < Slot(m, b, k)
  {
    if b > 0 {
      SlotStrict(m, b - 1, j, k);
    }
  }

  lemma SlotNonNegativeStep(m: int, b: int, k: int)
    requires 0 <= k
    ensures Slot(m, b, 0) <= Slot(m, b, k)
  {
    if k > 0 {
      SlotStrict(m, b, 0, k);
    }
  }

  lemma {:induction false} SlotNonNegative(m: int, b: int, k: int)
    requires 0 <= m && 0 <= k
    ensures 0 <= Slot(m, b, k)
  {
    if b > 0 {
      SlotNonNegative(m, b - 1, k);
    }
  }

  /** Every slot of the first n buckets lies inside a list of n * m items. */
  lemma SlotInside(m: int, n: int, b: int, k: int)
    requires 0 <= b < n && 0 <= k < m
    ensures 0 <= Slot(m, b, k) < Slot(m, n, 0)
  {
    SlotBelow(m, b, k, n, 0);
    SlotNonNegative(m, b, k);
  }

  /** More buckets need a longer item list. */
  lemma SlotMoreBuckets(m: int, n1: int, n2: int)
    requires 0 <= m && 0 <= n1 <= n2
    ensures Slot(m, n1, 0) <= Slot(m, n2, 0)
  {
    if n1 < n2 {
      if m == 0 {
        SlotZero(n1);
        SlotZero(n2);
      } else {
        SlotBelow(m, n1, 0, n2, 0);
      }
    }
  }

  lemma {:induction false} SlotZero(n: int)
    ensures Slot(0, n, 0) == 0
  {
    if n > 0 {
      SlotZero(n - 1);
    }
  }

  /** Item x sits at slot h of bucket b in the flat list q. */
  ghost predicate SlotHolds<T>(q: seq<T>, m: int, b: int, h: int, x: T)
  {
    0 <= Slot(m, b, h) < |q| && q[Slot(m, b, h)] == x
  }

  /**
   * Head/tail list ht fits the bucket contents cs: bucket c's items occupy
   * slots ht[2c] .. ht[2c + 1] - 1, all below cap.
   */
  ghost predicate Bounded<T>(ht: seq<int>, cs: seq<seq<T>>, cap: int)
  {
    && |ht| == 2 * |cs|
    && forall c :: 0 <= c < |cs| ==> 0 <= ht[2 * c] && ht[2 * c] + |cs[c]| == ht[2 * c + 1] <= cap
  }

  /** Buckets lo .. hi - 1 of cs sit in q, m slots per bucket, from their heads in ht on. */
  ghost predicate Placed<T>(q: seq<T>, m: int, ht: seq<int>, cs: seq<seq<T>>, lo: int, hi: int)
  {
    && |ht| == 2 * |cs|
    && forall c, k :: 0 <= lo <= c < hi <= |cs| && 0 <= k < |cs[c]| ==>
         SlotHolds(q, m, c, ht[2 * c] + k, cs[c][k])
  }

  lemma PlacedAt<T>(q: seq<T>, m: int, ht: seq<int>, cs: seq<seq<T>>, lo: int, hi: int, c: int, k: int)
    requires Placed(q, m, ht, cs, lo, hi) && 0 <= lo <= c < hi <= |cs| && 0 <= k < |cs[c]|
    ensures SlotHolds(q, m, c, ht[2 * c] + k, cs[c][k])
  {
  }

  lemma BoundedWeaken<T>(ht: seq<int>, cs: seq<seq<T>>, cap1: int, cap2: int)
    requires Bounded(ht, cs, cap1) && cap1 <= cap2
    ensures Bounded(ht, cs, cap2)
  {
  }

  /** Appending to the item list keeps every item where it was. */
  lemma ExtendKeeps<T>(q: seq<T>, q': seq<T>, m: int, ht: seq<int>, cs: seq<seq<T>>)
    requires Placed(q, m, ht, cs, 0, |cs|) && |q| <= |q'| && q'[..|q|] == q
    ensures Placed(q', m, ht, cs, 0, |cs|)
  {
    forall c, k | 0 <= c < |cs| && 0 <= k < |cs[c]|
      ensures SlotHolds(q', m, c, ht[2 * c] + k, cs[c][k])
    {
      PlacedAt(q, m, ht, cs, 0, |cs|, c, k);
      assert q'[..|q|][Slot(m, c, ht[2 * c] + k)] == q[Slot(m, c, ht[2 * c] + k)];
    }
  }

  /** Two different slots of buckets below n, each below m, are at different positions. */
  lemma SlotDistinct(m: int, n: int, b: int, x: int, c: int, y: int)
    requires 0 <= b < n && 0 <= c < n && 0 <= x < m && 0 <= y < m && (b != c || x != y)
    ensures Slot(m, b, x) != Slot(m, c, y)
  {
    if b < c {
      SlotBelow(m, b, x, c, y);
    } else if c < b {
      SlotBelow(m, c, y, b, x);
    } else if x < y {
      SlotStrict(m, b, x, y);
    } else {
      SlotStrict(m, b, y, x);
    }
  }

  /** Writing value at the tail of bucket and advancing its tail keeps the layout. */
  lemma StoreKeeps<T>(q: seq<T>, m: int, ht: seq<int>, cs: seq<seq<T>>, bucket: int, idx: int, value: T)
    requires m >= 1 && |q| == Slot(m, |cs|, 0) && Bounded(ht, cs, m) && Placed(q, m, ht, cs, 0, |cs|)
    requires 0 <= bucket < |cs| && idx == ht[2 * bucket + 1] < m
    ensures 0 <= Slot(m, bucket, idx) < |q|
    ensures Bounded(ht[2 * bucket + 1 := idx + 1], cs[bucket := cs[bucket] + [value]], m)
    ensures Placed(q[Slot(m, bucket, idx) := value], m, ht[2 * bucket + 1 := idx + 1],
                   cs[bucket := cs[bucket] + [value]], 0, |cs|)
  {
    SlotInside(m, |cs|, bucket, idx);
    var ht', cs' := ht[2 * bucket + 1 := idx + 1], cs[bucket := cs[bucket] + [value]];
    forall c | 0 <= c < |cs'|
      ensures 0 <= ht'[2 * c] && ht'[2 * c] + |cs'[c]| == ht'[2 * c + 1] <= m
    {
      assert ht'[2 * c] == ht[2 * c];
    }
    forall c, k | 0 <= c < |cs'| && 0 <= k < |cs'[c]|
      ensures SlotHolds(q[Slot(m, bucket, idx) := value], m, c, ht'[2 * c] + k, cs'[c][k])
    {
      StoreKeepsAt(q, m, ht, cs, bucket, idx, value, c, k);
    }
  }

  lemma StoreKeepsAt<T>(q: seq<T>, m: int, ht: seq<int>, cs: seq<seq<T>>, bucket: int, idx: int, value: T,
                        c: int, k: int)
    requires m >= 1 && |q| == Slot(m, |cs|, 0) && Bounded(ht, cs, m) && Placed(q, m, ht, cs, 0, |cs|)
    requires 0 <= bucket < |cs| && idx == ht[2 * bucket + 1] < m
    requires 0 <= c < |cs| && 0 <= k < |cs[bucket := cs[bucket] + [value]][c]|
    requires 0 <= Slot(m, bucket, idx) < |q|
    ensures SlotHolds(q[Slot(m, bucket, idx) := value], m, c, ht[2 * bucket + 1 := idx + 1][2 * c] + k,
                      cs[bucket := cs[bucket] + [value]][c][k])
  {
    assert ht[2 * bucket + 1 := idx + 1][2 * c] == ht[2 * c];
    if c != bucket || k < |cs[c]| {
      assert cs[bucket := cs[bucket] + [value]][c][k] == cs[c][k];
      PlacedAt(q, m, ht, cs, 0, |cs|, c, k);
      SlotDistinct(m, |cs|, c, ht[2 * c] + k, bucket, idx);
    }
  }

  /** Adding empty buckets, with zeroed heads and tails, keeps the layout. */
  lemma AddBucketsKeeps<T>(q: seq<T>, q': seq<T>, m: int, ht: seq<int>, ht': seq<int>, cs: seq<seq<T>>, n: int)
    requires m >= 1 && |q| == Slot(m, |cs|, 0) && Bounded(ht, cs, m) && Placed(q, m, ht, cs, 0, |cs|)
    requires n > |cs| && |q'| == Slot(m, n, 0) && |q| <= |q'| && q'[..|q|] == q
    requires |ht'| == 2 * n && ht'[..|ht|] == ht && forall p :: |ht| <= p < |ht'| ==> ht'[p] == 0
    ensures Bounded(ht', Grow(cs, n), m) && Placed(q', m, ht', Grow(cs, n), 0, n)
  {
    var cs' := Grow(cs, n);
    forall c | 0 <= c < n
      ensures 0 <= ht'[2 * c] && ht'[2 * c] + |cs'[c]| == ht'[2 * c + 1] <= m
    {
      if c < |cs| {
        assert ht'[..|ht|][2 * c] == ht[2 * c];
        assert ht'[..|ht|][2 * c + 1] == ht[2 * c + 1];
      }
    }
    ExtendKeeps(q, q', m, ht, cs);
    forall c, k | 0 <= c < n && 0 <= k < |cs'[c]|
      ensures SlotHolds(q', m, c, ht'[2 * c] + k, cs'[c][k])
    {
      assert ht'[..|ht|][2 * c] == ht[2 * c];
      PlacedAt(q', m, ht, cs, 0, |cs|, c, k);
    }
  }

  /** Resetting bucket's head and tail to 0 and emptying it keeps the layout. */
  lemma ClearKeeps<T>(q: seq<T>, m: int, ht: seq<int>, cs: seq<seq<T>>, bucket: int)
    requires m >= 1 && Bounded(ht, cs, m) && Placed(q, m, ht, cs, 0, |cs|) && 0 <= bucket < |cs|
    ensures Bounded(ht[2 * bucket := 0][2 * bucket + 1 := 0], cs[bucket := []], m)
    ensures Placed(q, m, ht[2 * bucket := 0][2 * bucket + 1 := 0], cs[bucket := []], 0, |cs|)
  {
    var ht', cs' := ht[2 * bucket := 0][2 * bucket + 1 := 0], cs[bucket := []];
    forall c | 0 <= c < |cs'|
      ensures 0 <= ht'[2 * c] && ht'[2 * c] + |cs'[c]| == ht'[2 * c + 1] <= m
    {
    }
    forall c, k | 0 <= c < |cs'| && 0 <= k < |cs'[c]|
      ensures SlotHolds(q, m, c, ht'[2 * c] + k, cs'[c][k])
    {
      PlacedAt(q, m, ht, cs, 0, |cs|, c, k);
    }
  }

  /** Advancing the head of a non-empty bucket past its oldest item keeps the layout. */
  lemma PopKeeps<T>(q: seq<T>, m: int, ht: seq<int>, cs: seq<seq<T>>, bucket: int)
    requires m >= 1 && Bounded(ht, cs, m) && Placed(q, m, ht, cs, 0, |cs|)
    requires 0 <= bucket < |cs| && cs[bucket] != []
    ensures Bounded(ht[2 * bucket := ht[2 * bucket] + 1], cs[bucket := cs[bucket][1..]], m)
    ensures Placed(q, m, ht[2 * bucket := ht[2 * bucket] + 1], cs[bucket := cs[bucket][1..]], 0, |cs|)
  {
    var ht', cs' := ht[2 * bucket := ht[2 * bucket] + 1], cs[bucket := cs[bucket][1..]];
    forall c | 0 <= c < |cs'|
      ensures 0 <= ht'[2 * c] && ht'[2 * c] + |cs'[c]| == ht'[2 * c + 1] <= m
    {
    }
    forall c, k | 0 <= c < |cs'| && 0 <= k < |cs'[c]|
      ensures SlotHolds(q, m, c, ht'[2 * c] + k, cs'[c][k])
    {
      if c == bucket {
        PlacedAt(q, m, ht, cs, 0, |cs|, c, k + 1);
      } else {
        PlacedAt(q, m, ht, cs, 0, |cs|, c, k);
      }
    }
  }

  /** Outside bucket b's new slots from slot i on, q still equals q0. */
  ghost predicate Untouched<T>(q: seq<T>, q0: seq<T>, m: int, b: int, i: int)
  {
    && |q| == |q0|
    && forall p :: 0 <= p < |q| && (p < Slot(m, b, i) || Slot(m, b + 1, 0) <= p) ==> q[p] == q0[p]
  }

  /** Items i + 1 .. t - 1 of a bucket that starts at h sit in their new slots. */
  ghost predicate Moved<T>(q: seq<T>, items: seq<T>, m: int, b: int, h: int, i: int, t: int)
  {
    && h - 1 <= i && t == h + |items|
    && forall j :: i < j < t ==> 0 <= Slot(m, b, j) < |q| && q[Slot(m, b, j)] == items[j - h]
  }

  /** One step of moving a bucket, last item first, to a layout with m >= oldMax slots per bucket. */
  lemma MoveStep<T>(q: seq<T>, q0: seq<T>, items: seq<T>, m: int, oldMax: int, n: int,
                    b: int, h: int, i: int, t: int)
    requires 1 <= oldMax <= m && 0 <= b < n && |q0| == Slot(m, n, 0)
    requires 0 <= h <= i < t <= oldMax && t == h + |items|
    requires SlotHolds(q0, oldMax, b, i, items[i - h])
    requires Untouched(q, q0, m, b, i + 1) && Moved(q, items, m, b, h, i, t)
    ensures 0 <= Slot(oldMax, b, i) <= Slot(m, b, i) < |q|
    ensures Untouched(q[Slot(m, b, i) := q[Slot(oldMax, b, i)]], q0, m, b, i)
    ensures Moved(q[Slot(m, b, i) := q[Slot(oldMax, b, i)]], items, m, b, h, i - 1, t)
  {
    SlotInside(m, n, b, i);
    SlotGrows(oldMax, m, b, i);
    SlotStrict(m, b, i, i + 1);
    SlotBelow(m, b, i, b + 1, 0);
    var q' := q[Slot(m, b, i) := q[Slot(oldMax, b, i)]];
    forall j | i - 1 < j < t
      ensures 0 <= Slot(m, b, j) < |q'| && q'[Slot(m, b, j)] == items[j - h]
    {
      if j > i {
        SlotStrict(m, b, i, j);
      }
    }
  }

  lemma MovedHolds<T>(q: seq<T>, items: seq<T>, m: int, b: int, h: int, t: int, k: int)
    requires Moved(q, items, m, b, h, h - 1, t) && 0 <= k < |items|
    ensures SlotHolds(q, m, b, h + k, items[k])
  {
    assert h - 1 < h + k < t;
  }

  /** Slots of a higher bucket are not touched while bucket b moves. */
  lemma AboveUnmoved<T>(q: seq<T>, q0: seq<T>, m: int, b: int, i: int, c: int, x: int)
    requires 1 <= m && 0 <= b < c && 0 <= x && Untouched(q, q0, m, b, i)
    ensures 0 <= Slot(m, c, x) < |q| ==> q[Slot(m, c, x)] == q0[Slot(m, c, x)]
  {
    if c == b + 1 {
      SlotNonNegativeStep(m, c, x);
    } else {
      SlotBelow(m, b + 1, 0, c, x);
    }
  }

  /** Old-layout slots of a lower bucket are not touched while bucket b moves. */
  lemma BelowUnmoved<T>(q: seq<T>, q0: seq<T>, oldMax: int, m: int, b: int, i: int, c: int, x: int)
    requires oldMax <= m && 0 <= c < b && 0 <= x < oldMax && 0 <= i && Untouched(q, q0, m, b, i)
    ensures 0 <= Slot(oldMax, c, x) < |q| ==> q[Slot(oldMax, c, x)] == q0[Slot(oldMax, c, x)]
  {
    SlotBelow(oldMax, c, x, b, 0);
    SlotGrows(oldMax, m, b, 0);
    SlotNonNegativeStep(m, b, i);
  }

  /** Once bucket b has moved, buckets b .. are in the new layout and 0 .. b - 1 still in the old one. */
  lemma MoveBucketDone<T>(q: seq<T>, q0: seq<T>, m: int, oldMax: int, ht: seq<int>, cs: seq<seq<T>>, b: int)
    requires 1 <= oldMax <= m && 0 <= b < |cs| && Bounded(ht, cs, oldMax)
    requires Untouched(q, q0, m, b, ht[2 * b]) && Moved(q, cs[b], m, b, ht[2 * b], ht[2 * b] - 1, ht[2 * b + 1])
    requires Placed(q0, m, ht, cs, b + 1, |cs|) && Placed(q0, oldMax, ht, cs, 0, b + 1)
    ensures Placed(q, m, ht, cs, b, |cs|) && Placed(q, oldMax, ht, cs, 0, b)
  {
    forall c, k | b <= c < |cs| && 0 <= k < |cs[c]|
      ensures SlotHolds(q, m, c, ht[2 * c] + k, cs[c][k])
    {
      if c > b {
        PlacedAt(q0, m, ht, cs, b + 1, |cs|, c, k);
        AboveUnmoved(q, q0, m, b, ht[2 * b], c, ht[2 * c] + k);
      } else {
        MovedHolds(q, cs[b], m, b, ht[2 * b], ht[2 * b + 1], k);
      }
    }
    forall c, k | 0 <= c < b && 0 <= k < |cs[c]|
      ensures SlotHolds(q, oldMax, c, ht[2 * c] + k, cs[c][k])
    {
      PlacedAt(q0, oldMax, ht, cs, 0, b + 1, c, k);
      BelowUnmoved(q, q0, oldMax, m, b, ht[2 * b], c, ht[2 * c] + k);
    }
  }

  /** The bucket list c grown to n buckets by appending empty buckets. */
  function Grow<T>(c: seq<seq<T>>, n: nat): (g: seq<seq<T>>)
    ensures |g| == if n <= |c| then |c| else n
    ensures forall b :: 0 <= b < |c| ==> g[b] == c[b]
    ensures forall b :: |c| <= b < |g| ==> g[b] == []
  {
    if n <= |c| then c else c + seq(n - |c|, _ => [])
  }

  class NativeMultiQueue<T(0)> {
    var queue: seq<T>
    var headTail: seq<int>
    var maxItems: int
    /** The items of every bucket, oldest first. */
    ghost var contents: seq<seq<T>>

    ghost predicate Valid()
      reads this
    {
      && maxItems >= 1
      && |queue| == Slot(maxItems, |contents|, 0)
      && Bounded(headTail, contents, maxItems)
      && Placed(queue, maxItems, headTail, contents, 0, |contents|)
    }

    /** A queue with no buckets yet and room for initialMessageCapacity items per bucket. */
    constructor (initialMessageCapacity: int)
      requires initialMessageCapacity >= 1
      ensures Valid() && contents == [] && maxItems == initialMessageCapacity
    {
      maxItems := initialMessageCapacity;
      queue := [];
      headTail := [];
      contents := [];
    }

    /**
     * Appends value to bucket, first growing the number of buckets to
     * bucket + 1 and, when the bucket is full, doubling the per-bucket
     * capacity and moving every bucket's items to their new slots.
     */
    method Enqueue(bucket: int, value: T)
      requires Valid() && bucket >= 0
      modifies this
      ensures Valid()
      ensures contents == Grow(old(contents), bucket + 1)[bucket := Grow(old(contents), bucket + 1)[bucket] + [value]]
    {
      if bucket >= |headTail| / 2 {
        AddBuckets(bucket + 1, value);
      }
      assert contents == Grow(old(contents), bucket + 1);
      var idx := headTail[bucket * 2 + 1];
      if idx >= maxItems {
        GrowCapacity(idx, value);
      }
      Store(bucket, idx, value);
    }

    /** Writes value into the tail slot idx of bucket and advances the tail. */
    method Store(bucket: int, idx: int, value: T)
      requires Valid() && 0 <= bucket < |contents| && idx == headTail[2 * bucket + 1] < maxItems
      modifies this`queue, this`headTail, this`contents
      ensures Valid()
      ensures contents == old(contents)[bucket := old(contents)[bucket] + [value]]
    {
      StoreKeeps(queue, maxItems, headTail, contents, bucket, idx, value);
      queue := queue[Slot(maxItems, bucket, idx) := value];
      headTail := headTail[bucket * 2 + 1 := idx + 1];
      contents := contents[bucket := contents[bucket] + [value]];
    }

    /**
     * Grows the number of buckets to n: the head/tail list is resized and its
     * new entries zeroed, and the item list is resized to n * maxItems.
     */
    method AddBuckets(n: int, filler: T)
      requires Valid() && n > |contents|
      modifies this`headTail, this`queue, this`contents
      ensures Valid() && maxItems == old(maxItems)
      ensures contents == Grow(old(contents), n)
    {
      var oldSize := |headTail|;
      var junk: int :| true;
      headTail := headTail + seq(n * 2 - oldSize, _ => junk);
      while oldSize < |headTail|
        modifies this`headTail
        invariant |old(headTail)| <= oldSize <= |headTail| == n * 2
        invariant headTail[..|old(headTail)|] == old(headTail)
        invariant forall p :: |old(headTail)| <= p < oldSize ==> headTail[p] == 0
      {
        headTail := headTail[oldSize := 0];
        oldSize := oldSize + 1;
      }
      var newLength := (|headTail| / 2) * maxItems;
      SlotIsProduct(maxItems, n, 0);
      SlotMoreBuckets(maxItems, |contents|, n);
      queue := queue + seq(newLength - |queue|, _ => filler);
      AddBucketsKeeps(old(queue), queue, maxItems, old(headTail), headTail, contents, n);
      contents := Grow(contents, n);
    }

    /**
     * Doubles the per-bucket capacity until index idx fits, then moves every
     * bucket's items to their slots in the wider layout.
     */
    method GrowCapacity(idx: int, filler: T)
      requires Valid() && idx >= maxItems
      modifies this`maxItems, this`queue
      ensures Valid() && headTail == old(headTail) && contents == old(contents)
      ensures idx < maxItems
    {
      var oldMax := maxItems;
      while idx >= maxItems
        modifies this`maxItems
        invariant maxItems >= oldMax
        decreases idx - maxItems
      {
        maxItems := maxItems * 2;
      }
      var maxBuckets := |headTail| / 2;
      var newLength := maxBuckets * maxItems;
      SlotIsProduct(maxItems, maxBuckets, 0);
      SlotGrows(oldMax, maxItems, maxBuckets, 0);
      queue := queue + seq(newLength - |queue|, _ => filler);
      ExtendKeeps(old(queue), queue, oldMax, headTail, contents);
      MoveBuckets(oldMax);
    }

    /**
     * Moves the items of every bucket from the slots of an oldMax-per-bucket
     * layout to the slots of the current maxItems-per-bucket layout, last
     * bucket first and last item first, so that no item is overwritten
     * before it is moved.
     */
    method MoveBuckets(oldMax: int)
      requires 1 <= oldMax <= maxItems && |queue| == Slot(maxItems, |contents|, 0)
      requires Bounded(headTail, contents, oldMax) && Placed(queue, oldMax, headTail, contents, 0, |contents|)
      modifies this`queue
      ensures Valid()
    {
      var b := |headTail| / 2 - 1;
      while b >= 0
        invariant -1 <= b < |contents|
        invariant |queue| == Slot(maxItems, |contents|, 0)
        invariant Placed(queue, maxItems, headTail, contents, b + 1, |contents|)
        invariant Placed(queue, oldMax, headTail, contents, 0, b + 1)
      {
        MoveBucket(oldMax, b);
        b := b - 1;
      }
      BoundedWeaken(headTail, contents, oldMax, maxItems);
    }

    /** MoveBuckets' inner loop: moves the items of bucket b, last first, to the new layout. */
    method MoveBucket(oldMax: int, b: int)
      requires 1 <= oldMax <= maxItems && |queue| == Slot(maxItems, |contents|, 0) && 0 <= b < |contents|
      requires Bounded(headTail, contents, oldMax)
      requires Placed(queue, maxItems, headTail, contents, b + 1, |contents|)
      requires Placed(queue, oldMax, headTail, contents, 0, b + 1)
      modifies this`queue
      ensures |queue| == old(|queue|)
      ensures Placed(queue, maxItems, headTail, contents, b, |contents|)
      ensures Placed(queue, oldMax, headTail, contents, 0, b)
    {
      var m := maxItems;
      var h := headTail[b * 2];
      var t := headTail[b * 2 + 1];
      ghost var q0, items := queue, contents[b];
      var q := queue;
      var i := t - 1;
      while i >= h
        invariant h - 1 <= i < t
        invariant Untouched(q, q0, m, b, i + 1) && Moved(q, items, m, b, h, i, t)
      {
        PlacedAt(q0, oldMax, headTail, contents, 0, b + 1, b, i - h);
        MoveStep(q, q0, items, m, oldMax, |contents|, b, h, i, t);
        q := q[Slot(m, b, i) := q[Slot(oldMax, b, i)]];
        i := i - 1;
      }
      MoveBucketDone(q, q0, m, oldMax, headTail, contents, b);
      queue := q;
    }

    /**
     * Removes the oldest item of bucket. Fails on a bucket that does not
     * exist or is empty; an emptied bucket has its head and tail reset to 0.
     */
    method Dequeue(bucket: int) returns (ok: bool, value: T)
      requires Valid()
      modifies this`headTail, this`contents
      ensures Valid()
      ensures ok <==> 0 <= bucket < |old(contents)| && old(contents)[bucket] != []
      ensures ok ==> value == old(contents)[bucket][0]
      ensures contents == if ok then old(contents)[bucket := old(contents)[bucket][1..]] else old(contents)
    {
      value := *;
      if bucket < 0 || bucket >= |headTail| / 2 {
        return false, value;
      }
      var idx := headTail[bucket * 2];
      var after := headTail[bucket * 2 + 1];
      if idx >= after {
        ClearKeeps(queue, maxItems, headTail, contents, bucket);
        headTail := headTail[bucket * 2 := 0][bucket * 2 + 1 := 0];
        contents := contents[bucket := []];
        return false, value;
      }
      PlacedAt(queue, maxItems, headTail, contents, 0, |contents|, bucket, 0);
      value := queue[Slot(maxItems, bucket, idx)];
      if idx + 1 == after {
        ClearKeeps(queue, maxItems, headTail, contents, bucket);
        headTail := headTail[bucket * 2 := 0][bucket * 2 + 1 := 0];
      } else {
        PopKeeps(queue, maxItems, headTail, contents, bucket);
        headTail := headTail[bucket * 2 := idx + 1];
      }
      contents := contents[bucket := contents[bucket][1..]];
      ok := true;
    }

    /** Looks at the oldest item of bucket without removing it; fails as Dequeue does. */
    method Peek(bucket: int) returns (ok: bool, value: T)
      requires Valid()
      ensures ok <==> 0 <= bucket < |contents| && contents[bucket] != []
      ensures ok ==> value == contents[bucket][0]
    {
      value := *;
      if bucket < 0 || bucket >= |headTail| / 2 {
        return false, value;
      }
      var idx := headTail[bucket * 2];
      if idx >= headTail[bucket * 2 + 1] {
        return false, value;
      }
      PlacedAt(queue, maxItems, headTail, contents, 0, |contents|, bucket, 0);
      value := queue[Slot(maxItems, bucket, idx)];
      ok := true;
    }

    /** Empties bucket; a bucket that does not exist is left alone. */
    method Clear(bucket: int)
      requires Valid()
      modifies this`headTail, this`contents
      ensures Valid()
      ensures contents == if 0 <= bucket < |old(contents)| then old(contents)[bucket := []] else old(contents)
    {
      if bucket < 0 || bucket >= |headTail| / 2 {
        return;
      }
      ClearKeeps(queue, maxItems, headTail, contents, bucket);
      headTail := headTail[bucket * 2 := 0];
      headTail := headTail[bucket * 2 + 1 := 0];
      contents := contents[bucket := []];
    }
  }
}
