/**
 * The batch splitter of `postData`: the largest per-event-type datapoint
 * count, the number of chunk steps, and the chunk each step builds from the
 * sorted timestamps of every event type.
 */
module Batches {
  import opened Collections

  /** `step_size`: a chunk holds at most this many timestamps per event type. */
  const StepSize: nat := 100

  /**
   * `lenght_post` after the loop over the event types, taken over the event
   * types in `order`: -1 when there are none, otherwise the largest
   * datapoint count.
   */
  function MaxCountOf<V>(order: seq<EventType>, entries: map<EventType, map<int, V>>): (n: int)
    requires forall e :: e in order ==> e in entries
    ensures n >= -1
    ensures n == -1 <==> order == []
    decreases |order|
  {
    if order == [] then -1
    else
      var last := order[|order| - 1];
      var front := order[..|order| - 1];
      assert forall e :: e in front ==> e in order;
      var m := MaxCountOf(front, entries);
      if |entries[last]| > m then |entries[last]| else m
  }

  /** The count is the largest datapoint count of the event types in `order`: it bounds them all and one reaches it. */
  lemma {:induction false} MaxCountOfIsMax<V>(order: seq<EventType>, entries: map<EventType, map<int, V>>)
    requires forall e :: e in order ==> e in entries
    ensures forall e :: e in order ==> |entries[e]| <= MaxCountOf(order, entries)
    ensures order != [] ==> exists e :: e in order && |entries[e]| == MaxCountOf(order, entries)
    decreases |order|
  {
    if order != [] {
      var last := order[|order| - 1];
      var front := order[..|order| - 1];
      assert forall e :: e in order ==> e in front || e == last;
      assert forall e :: e in front ==> e in order;
      MaxCountOfIsMax(front, entries);
      var m := MaxCountOf(front, entries);
      assert last in order;
      if |entries[last]| <= m {
        var w :| w in front && |entries[w]| == m;
        assert w in order;
      }
    }
  }

  function MaxCount<V>(dp: Dict<map<int, V>>): (n: int)
    requires dp.Valid()
  {
    MaxCountOf(dp.order, dp.entries)
  }

  /** The number of steps of `range(0, n, StepSize)`. */
  function ChunkCount(n: int): (c: nat)
    ensures n <= 0 ==> c == 0
    ensures n > 0 ==> StepSize * (c - 1) < n <= StepSize * c
  {
    if n <= 0 then 0 else (n + StepSize - 1) / StepSize
  }

  /** Step `StepSize * i` is one of the steps of `range(0, n, StepSize)` exactly when `i < ChunkCount(n)`. */
  lemma ChunkCountSteps(n: int, i: nat)
    ensures i < ChunkCount(n) <==> StepSize * i < n
  {
    var c := ChunkCount(n);
    if i < c {
      assert StepSize * i <= StepSize * (c - 1);
    } else {
      assert StepSize * c <= StepSize * i;
    }
  }

  /** Python's slice `ks[step:step+StepSize]`, which stops early at the end of `ks`. */
  function Window(ks: seq<int>, step: nat): (w: seq<int>)
    ensures |w| == if step >= |ks| then 0 else Min(StepSize, |ks| - step)
    ensures forall q :: 0 <= q < |w| ==> w[q] == ks[step + q]
  {
    ks[Min(step, |ks|)..Min(step + StepSize, |ks|)]
  }

  /**
   * The dictionary the loop `for point in pointsconsider` builds: each
   * timestamp of `w`, in order, added with its datapoint. It holds exactly
   * the timestamps of `w`, each with its datapoint, and no more entries
   * than `w` has elements.
   */
  function PointsOf<V>(points: map<int, V>, w: seq<int>): (c: map<int, V>)
    requires forall t :: t in w ==> t in points
    ensures forall t :: t in c <==> t in w
    ensures forall t :: t in c ==> c[t] == points[t]
    ensures |c| <= |w|
    decreases |w|
  {
    if w == [] then map[]
    else
      var front := w[..|w| - 1];
      var last := w[|w| - 1];
      assert forall t :: t in w <==> t in front || t == last;
      PointsOf(points, front)[last := points[last]]
  }

  /** Adding the timestamp at position `j` to the dictionary of the first `j`. */
  lemma PointsOfSnoc<V>(points: map<int, V>, w: seq<int>, j: nat)
    requires forall t :: t in w ==> t in points
    requires j < |w|
    ensures forall t :: t in w[..j] ==> t in points
    ensures forall t :: t in w[..j + 1] ==> t in points
    ensures PointsOf(points, w[..j + 1]) == PointsOf(points, w[..j])[w[j] := points[w[j]]]
  {
    assert w[..j + 1][..j] == w[..j];
  }

  /**
   * What one event type contributes to the chunk at `step`: the timestamps
   * at positions `step` to `step + StepSize - 1` of its sorted key list, each
   * with its own datapoint.
   */
  function ChunkOf<V>(points: map<int, V>, step: nat): (c: map<int, V>)
    ensures forall t :: t in c <==> t in Window(SortedKeys(points.Keys), step)
    ensures forall t :: t in c ==> t in points && c[t] == points[t]
  {
    var ks := SortedKeys(points.Keys);
    var w := Window(ks, step);
    assert forall t :: t in w ==> t in ks;
    PointsOf(points, w)
  }

  /** The chunk dictionary of one step: every event type, in the same order, mapped to its part of the chunk. */
  function Chunk<V>(dp: Dict<map<int, V>>, step: nat): (c: Dict<map<int, V>>)
    requires dp.Valid()
    ensures c.Valid() && c.order == dp.order
    ensures forall e :: e in c.entries ==> c.entries[e].Keys <= dp.entries[e].Keys
  {
    Dict(dp.order, map e | e in dp.entries :: ChunkOf(dp.entries[e], step))
  }

  /** The parts of the chunk at `step` of the event types `events`, as the chunk loop has built them so far. */
  ghost function ChunkEntries<V>(entries: map<EventType, map<int, V>>, events: seq<EventType>, step: nat): map<EventType, map<int, V>>
    requires forall e :: e in events ==> e in entries
  {
    map e | e in events :: ChunkOf(entries[e], step)
  }

  /** Visiting one more event type adds its part of the chunk. */
  lemma ChunkEntriesSnoc<V>(entries: map<EventType, map<int, V>>, events: seq<EventType>, e: EventType, step: nat)
    requires forall x :: x in events ==> x in entries
    requires e in entries
    ensures forall x :: x in events + [e] ==> x in entries
    ensures ChunkEntries(entries, events + [e], step) == ChunkEntries(entries, events, step)[e := ChunkOf(entries[e], step)]
  {
    var longer := ChunkEntries(entries, events + [e], step);
    var updated := ChunkEntries(entries, events, step)[e := ChunkOf(entries[e], step)];
    assert forall x :: x in events + [e] <==> x in events || x == e;
    assert longer.Keys == updated.Keys;
  }

  /** Once every event type of the dictionary is visited, the parts built are the chunk. */
  lemma ChunkEntriesComplete<V>(dp: Dict<map<int, V>>, step: nat)
    requires dp.Valid()
    ensures forall x :: x in dp.order ==> x in dp.entries
    ensures ChunkEntries(dp.entries, dp.order, step) == Chunk(dp, step).entries
  {
    ValidKeys(dp);
  }

  /** The chunk that holds timestamp `t`: its position in the sorted key list divided by `StepSize`. */
  function ChunkNumber<V>(points: map<int, V>, t: int): nat
    requires t in points
  {
    IndexOf(SortedKeys(points.Keys), t) / StepSize
  }

  /** No event type contributes more than `StepSize` timestamps to a chunk. */
  lemma ChunkAtMostStepSize<V>(points: map<int, V>, step: nat)
    ensures |ChunkOf(points, step)| <= StepSize
  {
  }

  /** Position `p` lies in the step that starts at `StepSize * i` exactly when `p / StepSize == i`. */
  lemma StepOfPosition(p: nat, i: nat)
    ensures p / StepSize == i <==> StepSize * i <= p < StepSize * i + StepSize
  {
  }

  /** In a strictly increasing list, the window at `step` holds exactly the elements at positions `step` to `step + StepSize - 1`. */
  lemma WindowPositions(ks: seq<int>, step: nat, t: int)
    requires forall i, j :: 0 <= i < j < |ks| ==> ks[i] < ks[j]
    ensures t in Window(ks, step) <==> t in ks && step <= IndexOf(ks, t) < step + StepSize
  {
    var w := Window(ks, step);
    if t in w {
      var q :| 0 <= q < |w| && w[q] == t;
      assert step < |ks| && q < |ks| - step;
      SortedPositionUnique(ks, step + q, t);
    }
    if t in ks && step <= IndexOf(ks, t) < step + StepSize {
      var p := IndexOf(ks, t);
      assert w[p - step] == t;
    }
  }

  lemma InChunkHasNumber<V>(points: map<int, V>, i: nat, t: int)
    requires t in ChunkOf(points, StepSize * i)
    ensures t in points && ChunkNumber(points, t) == i
  {
    var ks := SortedKeys(points.Keys);
    var step := StepSize * i;
    assert t in Window(ks, step);
    WindowPositions(ks, step, t);
    StepOfPosition(IndexOf(ks, t), i);
  }

  lemma NumberedIsInChunk<V>(points: map<int, V>, i: nat, t: int)
    requires t in points && ChunkNumber(points, t) == i
    ensures t in ChunkOf(points, StepSize * i)
  {
    var ks := SortedKeys(points.Keys);
    var step := StepSize * i;
    StepOfPosition(IndexOf(ks, t), i);
    WindowPositions(ks, step, t);
    assert t in Window(ks, step);
  }

  /**
   * Timestamp `t` is in chunk `i` exactly when it is a key of the event
   * type and `i` is its chunk number: every timestamp lands in exactly one
   * chunk, and a chunk holds nothing else.
   */
  lemma ChunkMembership<V>(points: map<int, V>, i: nat, t: int)
    ensures t in ChunkOf(points, StepSize * i) <==> t in points && ChunkNumber(points, t) == i
  {
    if t in ChunkOf(points, StepSize * i) {
      InChunkHasNumber(points, i, t);
    }
    if t in points && ChunkNumber(points, t) == i {
      NumberedIsInChunk(points, i, t);
    }
  }

  /** A chunk number is one of the `ChunkCount(n)` steps when `n` is at least the event type's datapoint count. */
  lemma ChunkNumberInRange<V>(points: map<int, V>, t: int, n: int)
    requires t in points
    requires |points| <= n
    ensures ChunkNumber(points, t) < ChunkCount(n)
  {
    var ks := SortedKeys(points.Keys);
    var p := IndexOf(ks, t);
    assert |ks| == |points.Keys| == |points|;
    ChunkCountSteps(n, ChunkNumber(points, t));
  }

  /** Chunks are consecutive runs of the sorted key list: every timestamp of chunk `i` is below every timestamp of a later chunk `j`. */
  lemma ChunksOrdered<V>(points: map<int, V>, i: nat, j: nat, a: int, b: int)
    requires i < j
    requires a in ChunkOf(points, StepSize * i)
    requires b in ChunkOf(points, StepSize * j)
    ensures a < b
  {
    ChunkMembership(points, i, a);
    ChunkMembership(points, j, b);
    var ks := SortedKeys(points.Keys);
    var pa, pb := IndexOf(ks, a), IndexOf(ks, b);
    assert pa < pb;
    assert ks[pa] < ks[pb];
  }
}
