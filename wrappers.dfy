/** The conventional optional value. */
module Wrappers {
  datatype Option<+T> = None | Some(value: T)

  /** The zero- or one-element sequence holding the value of `o`. */
  function ToSeq<T>(o: Option<T>): (s: seq<T>)
    ensures |s| <= 1
    ensures o.Some? <==> |s| == 1
    ensures o.Some? ==> s[0] == o.value
  {
    match o
    case None => []
    case Some(v) => [v]
  }

  /** The values of `found[i..]` that are present, in order. */
  function Compact<T>(found: seq<Option<T>>, i: nat): (r: seq<T>)
    requires i <= |found|
    ensures |r| <= |found| - i
    decreases |found| - i
  {
    if i == |found| then [] else ToSeq(found[i]) + Compact(found, i + 1)
  }

  /** One step of a left-to-right compaction: with `done` the compaction up to `i`, `done + ToSeq(found[i])` is the one up to `i + 1`. */
  lemma CompactStep<T>(found: seq<Option<T>>, i: nat, done: seq<T>)
    requires i < |found| && done + Compact(found, i) == Compact(found, 0)
    ensures (done + ToSeq(found[i])) + Compact(found, i + 1) == Compact(found, 0)
  {
    var head, tail := ToSeq(found[i]), Compact(found, i + 1);
    assert Compact(found, i) == head + tail;
    ConcatAssoc(done, head, tail);
  }

  lemma ConcatAssoc<T>(a: seq<T>, b: seq<T>, c: seq<T>)
    ensures (a + b) + c == a + (b + c)
  {
  }

  /** Nothing is present from `i` on, so the compaction is empty. */
  lemma {:induction false} CompactNone<T>(found: seq<Option<T>>, i: nat)
    requires i <= |found| && forall j :: i <= j < |found| ==> found[j].None?
    ensures Compact(found, i) == []
    decreases |found| - i
  {
    if i < |found| {
      CompactNone(found, i + 1);
    }
  }

  /** The indices `j >= i` at which `found` holds a value, in increasing order. */
  function Present<T>(found: seq<Option<T>>, i: nat): (r: seq<nat>)
    requires i <= |found|
    ensures forall k :: 0 <= k < |r| ==> i <= r[k] < |found| && found[r[k]].Some?
    ensures forall k :: 0 <= k < |r| - 1 ==> r[k] < r[k + 1]
    ensures forall j :: i <= j < |found| && found[j].Some? ==> j in r
    decreases |found| - i
  {
    if i == |found| then []
    else if found[i].Some? then [i] + Present(found, i + 1)
    else Present(found, i + 1)
  }

  /** The values `found` holds at the indices `idx`. */
  function Gather<T>(found: seq<Option<T>>, idx: seq<nat>): (r: seq<T>)
    requires forall k :: 0 <= k < |idx| ==> idx[k] < |found| && found[idx[k]].Some?
    ensures |r| == |idx|
    ensures forall k :: 0 <= k < |idx| ==> r[k] == found[idx[k]].value
  {
    seq(|idx|, k requires 0 <= k < |idx| => found[idx[k]].value)
  }

  /** Compacting keeps exactly the present values, at increasing indices. */
  lemma {:induction false} CompactIsGather<T>(found: seq<Option<T>>, i: nat)
    requires i <= |found|
    ensures Compact(found, i) == Gather(found, Present(found, i))
    decreases |found| - i
  {
    if i < |found| {
      CompactIsGather(found, i + 1);
      if found[i].Some? {
        GatherCons(found, i, Present(found, i + 1));
      }
    }
  }

  lemma GatherCons<T>(found: seq<Option<T>>, i: nat, rest: seq<nat>)
    requires i < |found| && found[i].Some?
    requires forall k :: 0 <= k < |rest| ==> rest[k] < |found| && found[rest[k]].Some?
    ensures Gather(found, [i] + rest) == [found[i].value] + Gather(found, rest)
  {
    var g := Gather(found, [i] + rest);
    forall k | 1 <= k < |g| ensures g[k] == Gather(found, rest)[k - 1] {
      assert ([i] + rest)[k] == rest[k - 1];
    }
  }
}
