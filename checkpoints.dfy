/**
 * The checkpoint rule of `postData`: after a chunk, every event type with at
 * least one datapoint gets `max(old value or 0, largest timestamp + 1)`;
 * every other entry is left as it was.
 */
module Checkpoints {
  import opened Collections

  /** The per-event-type next start times (`time_starts`). */
  type Checkpoint = map<EventType, int>

  /** The stored value, or the 0 that lines 115-116 insert for an absent event type. */
  function StartOrZero(ts: Checkpoint, e: EventType): int
  {
    if e in ts then ts[e] else 0
  }

  /** `max(keys) + 1` over the whole collection of one event type. */
  function NextStart<V>(points: map<int, V>): (next: int)
    requires |points| > 0
    ensures forall t :: t in points ==> t < next
    ensures next - 1 in points
  {
    MaxKey(points.Keys) + 1
  }

  predicate HasPoints<V>(entries: map<EventType, map<int, V>>, e: EventType)
  {
    e in entries && |entries[e]| > 0
  }

  /** The checkpoint after one pass of the update loop over `entries`. */
  function Advanced<V>(ts: Checkpoint, entries: map<EventType, map<int, V>>): (r: Checkpoint)
    ensures forall e :: e in r <==> e in ts || HasPoints(entries, e)
  {
    var filled := set e | e in entries.Keys && |entries[e]| > 0;
    map e | e in ts.Keys + filled :: AdvancedAt(ts, entries, e)
  }

  /**
   * The update never decreases an entry, it ends above every timestamp of an
   * event type that has datapoints, with either the old value or the new
   * start, and entries of event types without datapoints are untouched.
   */
  lemma AdvancedBounds<V>(ts: Checkpoint, entries: map<EventType, map<int, V>>)
    ensures forall e :: e in ts ==> e in Advanced(ts, entries) && Advanced(ts, entries)[e] >= ts[e]
    ensures forall e :: HasPoints(entries, e) ==>
      && e in Advanced(ts, entries)
      && Advanced(ts, entries)[e] >= StartOrZero(ts, e)
      && Advanced(ts, entries)[e] >= NextStart(entries[e])
      && (Advanced(ts, entries)[e] == StartOrZero(ts, e) || Advanced(ts, entries)[e] == NextStart(entries[e]))
    ensures forall e :: !HasPoints(entries, e) ==>
      && (e in Advanced(ts, entries) <==> e in ts)
      && (e in ts ==> Advanced(ts, entries)[e] == ts[e])
  {
  }

  /** The value lines 114-119 leave for event type `e`. */
  function AdvancedAt<V>(ts: Checkpoint, entries: map<EventType, map<int, V>>, e: EventType): (r: int)
    requires e in ts || HasPoints(entries, e)
    ensures e in ts ==> r >= ts[e]
    ensures HasPoints(entries, e) ==> r >= StartOrZero(ts, e) && forall t :: t in entries[e] ==> t < r
    ensures !HasPoints(entries, e) ==> r == ts[e]
  {
    if HasPoints(entries, e) then Max(StartOrZero(ts, e), NextStart(entries[e])) else ts[e]
  }

  /**
   * Repeating the update with the same collection changes nothing: since the
   * new start is computed from the whole collection, the updates after a
   * collection's first chunk leave the checkpoint as the first left it.
   */
  lemma AdvancedIdempotent<V>(ts: Checkpoint, entries: map<EventType, map<int, V>>)
    ensures Advanced(Advanced(ts, entries), entries) == Advanced(ts, entries)
  {
    var once := Advanced(ts, entries);
    var twice := Advanced(once, entries);
    forall e
      ensures (e in twice <==> e in once) && (e in once ==> twice[e] == once[e])
    {
      AdvancedEntry(ts, entries, e);
      AdvancedEntry(once, entries, e);
    }
    assert twice.Keys == once.Keys;
    assert twice == once;
  }

  /** Event type `e` has an entry after the update exactly when it had one or has datapoints, and the entry is `AdvancedAt`. */
  lemma AdvancedEntry<V>(ts: Checkpoint, entries: map<EventType, map<int, V>>, e: EventType)
    ensures e in Advanced(ts, entries) <==> e in ts || HasPoints(entries, e)
    ensures e in Advanced(ts, entries) ==> Advanced(ts, entries)[e] == AdvancedAt(ts, entries, e)
  {
  }
}
