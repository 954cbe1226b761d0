/**
 * Keys, sorted key lists and Python dictionaries keyed by event type, as the
 * uploader uses them.
 */
module Collections {

  /** The name of a category of measurement, such as "packet-loss-rate". */
  type EventType = string

  predicate Distinct<T(==)>(s: seq<T>)
  {
    forall i, j :: 0 <= i < j < |s| ==> s[i] != s[j]
  }

  function Min(a: int, b: int): int { if a <= b then a else b }

  function Max(a: int, b: int): int { if a >= b then a else b }

  /**
   * A Python dictionary keyed by event type: `order` is the order in which
   * iterating over its keys visits them, `entries` holds the values.
   */
  datatype Dict<V> = Dict(order: seq<EventType>, entries: map<EventType, V>)
  {
    ghost predicate Valid()
    {
      Distinct(order) && (set e | e in order) == entries.Keys
    }
  }

  /** The iteration order of a valid dictionary lists exactly its keys. */
  lemma ValidKeys<V>(d: Dict<V>)
    requires d.Valid()
    ensures forall e :: e in d.order <==> e in d.entries
  {
    forall e
      ensures e in d.order <==> e in d.entries
    {
      assert e in d.order <==> e in (set x | x in d.order);
    }
  }

  lemma AppendAssociates<T>(a: seq<T>, b: seq<T>, c: seq<T>)
    ensures (a + b) + c == a + (b + c)
  {
  }

  /** A set is empty or has an element. */
  lemma EmptyOrElement(s: set<int>)
    ensures s == {} || exists x :: x in s
  {
    if forall x :: x !in s {
      assert s == {};
    }
  }

  lemma {:induction false} MinExists(s: set<int>)
    requires |s| > 0
    ensures exists m :: m in s && forall t :: t in s ==> m <= t
    decreases |s|
  {
    EmptyOrElement(s);
    var x :| x in s;
    var rest := s - {x};
    if rest == {} {
      forall t | t in s
        ensures x <= t
      {
        assert t !in rest;
      }
    } else {
      MinExists(rest);
      var m :| m in rest && forall t :: t in rest ==> m <= t;
      var best := Min(m, x);
      forall t | t in s
        ensures best <= t
      {
        if t != x {
          assert t in rest;
        }
      }
      assert best in s;
    }
  }

  /** The smallest key of a non-empty set. */
  function MinOf(s: set<int>): (m: int)
    requires |s| > 0
    ensures m in s && forall t :: t in s ==> m <= t
  {
    MinExists(s);
    var m :| m in s && forall t :: t in s ==> m <= t;
    m
  }

  /** Python's `sorted(keys)` on a set of integer keys: ascending, each key once. */
  function SortedKeys(s: set<int>): (r: seq<int>)
    ensures |r| == |s|
    ensures forall t :: t in r <==> t in s
    ensures forall i, j :: 0 <= i < j < |r| ==> r[i] < r[j]
    decreases |s|
  {
    if |s| == 0 then []
    else
      var m := MinOf(s);
      var rest := SortedKeys(s - {m});
      assert forall t :: t in rest ==> m < t;
      [m] + rest
  }

  /** The position of `t` in `s`. */
  function IndexOf(s: seq<int>, t: int): (p: nat)
    requires t in s
    ensures p < |s| && s[p] == t
  {
    if s[0] == t then 0 else 1 + IndexOf(s[1..], t)
  }

  /** In a strictly increasing list a key sits at exactly one position. */
  lemma SortedPositionUnique(s: seq<int>, p: nat, t: int)
    requires forall i, j :: 0 <= i < j < |s| ==> s[i] < s[j]
    requires p < |s| && s[p] == t
    ensures IndexOf(s, t) == p
  {
    var q := IndexOf(s, t);
    assert s[q] == s[p];
  }

  lemma {:induction false} MaxExists(s: set<int>)
    requires |s| > 0
    ensures exists m :: m in s && forall t :: t in s ==> t <= m
    decreases |s|
  {
    EmptyOrElement(s);
    var x :| x in s;
    var rest := s - {x};
    if rest == {} {
      forall t | t in s
        ensures t <= x
      {
        assert t !in rest;
      }
    } else {
      MaxExists(rest);
      var m :| m in rest && forall t :: t in rest ==> t <= m;
      var best := Max(m, x);
      forall t | t in s
        ensures t <= best
      {
        if t != x {
          assert t in rest;
        }
      }
      assert best in s;
    }
  }

  /** Python's `max(keys)` on a non-empty set of integer keys. */
  function MaxKey(s: set<int>): (m: int)
    requires |s| > 0
    ensures m in s && forall t :: t in s ==> t <= m
  {
    MaxExists(s);
    var m :| m in s && forall t :: t in s ==> t <= m;
    m
  }
}
