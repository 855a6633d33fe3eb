/** core/entry.js: the shared, ordered entity registry `entryArray`, its two
    queries, and the splice that object.js's handleRemoval performs on it.
    Distances are compared squared: Math.sqrt is monotone, so every
    comparison of the source keeps its outcome (see SquaredOrder). */
module Entry {
  import opened Wrappers
  import opened Objects

  function DistanceSq(e: Entity, x: real, y: real): real
    reads e
  {
    (x - e.x) * (x - e.x) + (y - e.y) * (y - e.y)
  }

  /** For non-negative distances, comparing them and comparing their
      squares agree. */
  lemma SquaredOrder(d1: real, d2: real)
    requires 0.0 <= d1 && 0.0 <= d2
    ensures d1 < d2 <==> d1 * d1 < d2 * d2
  {
    var gap, sum := d2 - d1, d2 + d1;
    assert d2 * d2 - d1 * d1 == gap * sum;
    if d1 < d2 {
      assert 0.0 < gap && 0.0 < sum;
      assert 0.0 < gap * sum;
    } else {
      assert 0.0 <= -gap && 0.0 <= sum;
      assert 0.0 <= -gap * sum;
    }
  }

  /** `distance < radius` (object.js:99) on the squared distance. */
  predicate WithinRadius(distSq: real, radius: real)
  {
    0.0 <= radius && distSq < radius * radius
  }

  lemma WithinRadiusOfDistance(d: real, radius: real)
    requires 0.0 <= d
    ensures WithinRadius(d * d, radius) <==> d < radius
  {
    if 0.0 <= radius {
      SquaredOrder(d, radius);
    }
  }

  /** The reduce accumulator {entry, distance}; NotFound is the initial
      {entry: null, distance: Infinity}. */
  datatype Nearest = NotFound | Found(entry: Entity, distSq: real)

  /** One step of the reduce over the entries of `kind` (entry.js:39-45);
      entries of other types are the ones `filter` dropped. */
  function NearestStep(n: Nearest, e: Entity, kind: Kind, x: real, y: real): Nearest
    reads e
  {
    if e.kind != kind then n
    else
      var d := DistanceSq(e, x, y);
      if n.NotFound? || d < n.distSq then Found(e, d) else n
  }

  /** findNearestEntry over a registry `es`, as a left fold. */
  function NearestIn(es: seq<Entity>, kind: Kind, x: real, y: real): Nearest
    reads es
    decreases |es|
  {
    if |es| == 0 then NotFound
    else NearestStep(NearestIn(es[..|es| - 1], kind, x, y), es[|es| - 1], kind, x, y)
  }

  /** No entry of the type: the sentinel {entry: null, distance: Infinity}. */
  lemma {:induction false} NearestNotFound(es: seq<Entity>, kind: Kind, x: real, y: real)
    ensures NearestIn(es, kind, x, y).NotFound? <==> forall i :: 0 <= i < |es| ==> es[i].kind != kind
    decreases |es|
  {
    if |es| > 0 {
      var init := es[..|es| - 1];
      NearestNotFound(init, kind, x, y);
      assert forall i :: 0 <= i < |init| ==> init[i] == es[i];
    }
  }

  /** The entry found has the type, a minimal distance among the entries of
      the type, that distance, and no earlier entry of the type is as close:
      ties go to the first in registry order. */
  lemma {:induction false} NearestFound(es: seq<Entity>, kind: Kind, x: real, y: real)
    requires NearestIn(es, kind, x, y).Found?
    ensures var n := NearestIn(es, kind, x, y);
      exists k :: 0 <= k < |es| && es[k] == n.entry && es[k].kind == kind &&
        n.distSq == DistanceSq(es[k], x, y) &&
        forall i :: 0 <= i < k && es[i].kind == kind ==> DistanceSq(es[i], x, y) > n.distSq
    ensures var n := NearestIn(es, kind, x, y);
      forall i :: 0 <= i < |es| && es[i].kind == kind ==> n.distSq <= DistanceSq(es[i], x, y)
    decreases |es|
  {
    var last := es[|es| - 1];
    var init := es[..|es| - 1];
    var m := NearestIn(init, kind, x, y);
    var n := NearestIn(es, kind, x, y);
    assert forall i :: 0 <= i < |init| ==> init[i] == es[i];
    if m.NotFound? {
      NearestNotFound(init, kind, x, y);
      assert n == Found(last, DistanceSq(last, x, y));
      assert es[|es| - 1] == n.entry;
    } else {
      NearestFound(init, kind, x, y);
      var k :| 0 <= k < |init| && init[k] == m.entry && init[k].kind == kind &&
        m.distSq == DistanceSq(init[k], x, y) &&
        forall i :: 0 <= i < k && init[i].kind == kind ==> DistanceSq(init[i], x, y) > m.distSq;
      if n == m {
        assert es[k] == n.entry;
      } else {
        assert es[|es| - 1] == n.entry;
      }
    }
  }

  /** The strict bounding-box test of entryIntersects (entry.js:17-18). An
      entity without a width or height never contains a point, since
      `x + undefined` is NaN. */
  predicate Contains(e: Entity, x: real, y: real)
    reads e
  {
    e.width.Some? && e.height.Some? &&
    e.x < x && e.x + e.width.value > x &&
    e.y < y && e.y + e.height.value > y
  }

  /** entryIntersects over a registry `es`: the first entry of the type
      whose box contains the point, or None for the `{}` of a miss. */
  function FirstHit(es: seq<Entity>, kind: Kind, x: real, y: real): Option<Entity>
    reads es
    decreases |es|
  {
    if |es| == 0 then None
    else if es[0].kind == kind && Contains(es[0], x, y) then Some(es[0])
    else FirstHit(es[1..], kind, x, y)
  }

  lemma {:induction false} FirstHitSpec(es: seq<Entity>, kind: Kind, x: real, y: real)
    ensures FirstHit(es, kind, x, y).None? <==>
      forall i :: 0 <= i < |es| ==> !(es[i].kind == kind && Contains(es[i], x, y))
    ensures FirstHit(es, kind, x, y).Some? ==>
      exists k :: 0 <= k < |es| && es[k] == FirstHit(es, kind, x, y).value &&
        es[k].kind == kind && Contains(es[k], x, y) &&
        forall i :: 0 <= i < k ==> !(es[i].kind == kind && Contains(es[i], x, y))
    decreases |es|
  {
    if |es| > 0 && !(es[0].kind == kind && Contains(es[0], x, y)) {
      var rest := es[1..];
      FirstHitSpec(rest, kind, x, y);
      assert forall i :: 0 <= i < |rest| ==> rest[i] == es[i + 1];
      if FirstHit(rest, kind, x, y).Some? {
        var k :| 0 <= k < |rest| && rest[k] == FirstHit(rest, kind, x, y).value &&
          rest[k].kind == kind && Contains(rest[k], x, y) &&
          forall i :: 0 <= i < k ==> !(rest[i].kind == kind && Contains(rest[i], x, y));
        assert es[k + 1] == rest[k];
      } else {
        forall i | 0 <= i < |es| ensures !(es[i].kind == kind && Contains(es[i], x, y)) {
          if i > 0 { assert es[i] == rest[i - 1]; }
        }
      }
    }
  }

  /** A hit lies strictly inside the hit entity's box, so a point on any of
      its four edges never hits it: the tests at entry.js:17-18 are strict. */
  lemma BorderNeverHits(es: seq<Entity>, kind: Kind, x: real, y: real)
    ensures FirstHit(es, kind, x, y).Some? ==>
      var e := FirstHit(es, kind, x, y).value;
      e.kind == kind && e.width.Some? && e.height.Some? &&
      e.x < x < e.x + e.width.value && e.y < y < e.y + e.height.value
    ensures FirstHit(es, kind, x, y).Some? ==>
      var e := FirstHit(es, kind, x, y).value;
      e.x != x && e.x + e.width.value != x && e.y != y && e.y + e.height.value != y
  {
    FirstHitSpec(es, kind, x, y);
  }

  /** entryArray.indexOf(v): the first position of v, or -1. */
  function IndexOf<T(==)>(s: seq<T>, v: T): (i: int)
    ensures -1 <= i < |s|
    ensures 0 <= i ==> s[i] == v && forall k :: 0 <= k < i ==> s[k] != v
    ensures i == -1 <==> v !in s
    decreases |s|
  {
    if |s| == 0 then -1
    else if s[0] == v then 0
    else
      var rest := IndexOf(s[1..], v);
      if rest == -1 then -1 else rest + 1
  }

  /** entryArray.splice(start, 1): a negative start counts from the end. */
  function SpliceOne<T>(s: seq<T>, start: int): seq<T>
  {
    var k := if start >= 0 then start else if |s| + start < 0 then 0 else |s| + start;
    if k < |s| then s[..k] + s[k + 1..] else s
  }

  predicate Distinct<T(==)>(s: seq<T>)
  {
    forall i, j :: 0 <= i < j < |s| ==> s[i] != s[j]
  }

  /** What handleRemoval leaves (object.js:69). */
  function AfterRemoval<T(==)>(s: seq<T>, v: T): seq<T>
  {
    SpliceOne(s, IndexOf(s, v))
  }

  /** For a member: the registry without its first occurrence, the others
      in their order, one copy fewer. */
  lemma RemovalOfMember<T>(s: seq<T>, v: T)
    requires v in s
    ensures AfterRemoval(s, v) == s[..IndexOf(s, v)] + s[IndexOf(s, v) + 1..]
    ensures multiset(AfterRemoval(s, v)) == multiset(s) - multiset{v}
  {
    var i := IndexOf(s, v);
    assert AfterRemoval(s, v) == SpliceOne(s, i);
    DropOne(s, i);
  }

  /** Dropping position i loses exactly one copy of s[i]. */
  lemma DropOne<T>(s: seq<T>, i: int)
    requires 0 <= i < |s|
    ensures SpliceOne(s, i) == s[..i] + s[i + 1..]
    ensures multiset(s[..i] + s[i + 1..]) == multiset(s) - multiset{s[i]}
  {
    var front, back := s[..i], s[i + 1..];
    assert s == front + ([s[i]] + back);
    assert multiset(s) == multiset(front) + multiset([s[i]] + back);
  }

  /** For an absent entity indexOf gives -1, and splice(-1, 1) removes the
      last entry. */
  lemma RemovalOfAbsent<T>(s: seq<T>, v: T)
    requires v !in s
    ensures |s| > 0 ==> AfterRemoval(s, v) == s[..|s| - 1]
    ensures s == [] ==> AfterRemoval(s, v) == []
  {
  }

  /** Removal keeps a registry free of duplicates and removes the entity
      entirely, so a second removal cannot find it. */
  lemma RemovalKeepsDistinct<T>(s: seq<T>, v: T)
    requires Distinct(s)
    ensures Distinct(AfterRemoval(s, v)) && v !in AfterRemoval(s, v)
  {
    var i := IndexOf(s, v);
    var r := AfterRemoval(s, v);
    var k := if i >= 0 then i else |s| - 1;
    if |s| > 0 {
      assert r == s[..k] + s[k + 1..];
      assert forall j :: 0 <= j < |r| ==> r[j] == if j < k then s[j] else s[j + 1];
    }
  }

  /** entryArray.filter((entry) => entry.type === type).length */
  function CountOf(es: seq<Entity>, kind: Kind): (n: nat)
    ensures n == 0 <==> forall i :: 0 <= i < |es| ==> es[i].kind != kind
    ensures n <= |es|
    decreases |es|
  {
    if |es| == 0 then 0
    else CountOf(es[..|es| - 1], kind) + (if es[|es| - 1].kind == kind then 1 else 0)
  }

  /** Pushing one entity adds one to the count of its own type only. */
  lemma CountOfPush(es: seq<Entity>, e: Entity, kind: Kind)
    ensures CountOf(es + [e], kind) == CountOf(es, kind) + (if e.kind == kind then 1 else 0)
  {
    assert (es + [e])[..|es|] == es;
  }

  /** Every coin in the registry is worth a non-negative amount. */
  ghost predicate CoinsNonNegative(es: seq<Entity>)
    reads es
  {
    forall i :: 0 <= i < |es| && es[i].kind == Money ==> es[i].quality >= 0.0
  }

  /** The registry: the module array entryArray. */
  class Registry {
    var entries: seq<Entity>

    /** No entity appears twice. */
    ghost predicate Valid()
      reads this
    {
      Distinct(entries)
    }

    constructor ()
      ensures entries == [] && Valid()
    {
      entries := [];
    }

    /** findNearestEntry(type, x, y): the nearest registered entity of the
        type, or {entry: null} when there is none. It only reads the
        registry. */
    function FindNearestEntry(kind: Kind, x: real, y: real): (n: Nearest)
      reads this, entries
      ensures n.NotFound? <==> forall i :: 0 <= i < |entries| ==> entries[i].kind != kind
      ensures n.Found? ==>
        n.entry in entries && n.entry.kind == kind && n.distSq == DistanceSq(n.entry, x, y) &&
        forall i :: 0 <= i < |entries| && entries[i].kind == kind ==> n.distSq <= DistanceSq(entries[i], x, y)
    {
      NearestNotFound(entries, kind, x, y);
      if NearestIn(entries, kind, x, y).Found? then
        NearestFound(entries, kind, x, y);
        NearestIn(entries, kind, x, y)
      else NearestIn(entries, kind, x, y)
    }

    /** entryIntersects(type, x, y): a registered entity of the type whose
        box strictly contains the point, or the `{}` of a miss when there is
        none. It only reads the registry. */
    function EntryIntersects(kind: Kind, x: real, y: real): (h: Option<Entity>)
      reads this, entries
      ensures h.None? <==> forall i :: 0 <= i < |entries| ==> !(entries[i].kind == kind && Contains(entries[i], x, y))
      ensures h.Some? ==> h.value in entries && h.value.kind == kind && Contains(h.value, x, y)
    {
      FirstHitSpec(entries, kind, x, y);
      FirstHit(entries, kind, x, y)
    }

    /** entryArray.filter((entry) => entry.type === type).length: 0 exactly
        when no entry has the type. */
    function CountOfType(kind: Kind): (c: nat)
      reads this
      ensures c == 0 <==> forall i :: 0 <= i < |entries| ==> entries[i].kind != kind
      ensures c <= |entries|
    {
      CountOf(entries, kind)
    }

    /** entryArray.push(e) */
    method Push(e: Entity)
      modifies this
      ensures entries == old(entries) + [e]
      ensures old(Valid()) && e !in old(entries) ==> Valid()
    {
      entries := entries + [e];
    }

    /** handleRemoval(): splice out entryArray.indexOf(this) and return the
        entity's quality. */
    method HandleRemoval(e: Entity) returns (quality: real)
      modifies this
      ensures entries == AfterRemoval(old(entries), e)
      ensures quality == e.quality
      ensures old(Valid()) ==> Valid() && e !in entries
    {
      ghost var before := entries;
      entries := SpliceOne(entries, IndexOf(entries, e));
      quality := e.quality;
      if Distinct(before) {
        RemovalKeepsDistinct(before, e);
      }
    }
  }
}
