/** The linked structures of fs/buffer.c: the circular free list and the hash
    chains, with buffer numbers for pointers and NULL = -1. */
module BufferLists {
  import opened Sequences

  predicate InRange(s: seq<int>, n: int) { forall i :: 0 <= i < |s| ==> 0 <= s[i] < n }

  function Succ(i: int, n: int): int { if i + 1 < n then i + 1 else 0 }

  /** next and prev link the elements of ring in a circle that starts at head. */
  ghost predicate Ring(next: seq<int>, prev: seq<int>, head: int, ring: seq<int>) {
    && |next| == |prev| && |ring| >= 1 && InRange(ring, |next|) && Distinct(ring) && head == ring[0]
    && (forall i :: 0 <= i < |ring| ==> next[ring[i]] == ring[Succ(i, |ring|)])
    && (forall i :: 0 <= i < |ring| ==> prev[ring[Succ(i, |ring|)]] == ring[i])
  }

  /** next and prev link the elements of c in a row from head to NULL. */
  ghost predicate Chain(next: seq<int>, prev: seq<int>, head: int, c: seq<int>) {
    && |next| == |prev| && InRange(c, |next|) && Distinct(c)
    && head == At(c, 0)
    && (forall i :: 0 <= i < |c| ==> next[c[i]] == At(c, i + 1))
    && (forall i :: 0 <= i < |c| ==> prev[c[i]] == At(c, i - 1))
  }

  lemma DropFacts(s: seq<int>, k: int, n: int)
    requires 0 <= k < |s| && InRange(s, n) && Distinct(s)
    ensures InRange(Drop(s, k), n) && Distinct(Drop(s, k)) && |Drop(s, k)| == |s| - 1
    ensures forall i :: 0 <= i < |s| - 1 ==> Drop(s, k)[i] == s[if i < k then i else i + 1] != s[k]
  { }

  lemma RingPrev(next: seq<int>, prev: seq<int>, head: int, ring: seq<int>, k: int)
    requires Ring(next, prev, head, ring) && 0 <= k < |ring|
    ensures prev[ring[k]] == ring[if k == 0 then |ring| - 1 else k - 1]
  {
    var j := if k == 0 then |ring| - 1 else k - 1;
    assert Succ(j, |ring|) == k;
  }

  lemma SamePlace(s: seq<int>, i: int, j: int)
    requires Distinct(s) && 0 <= i < |s| && 0 <= j < |s| && s[i] == s[j]
    ensures i == j
  { }

  /** Unlinking element k of the circle. */
  lemma RingRemove(next: seq<int>, prev: seq<int>, head: int, ring: seq<int>, k: int)
    requires Ring(next, prev, head, ring) && 0 <= k < |ring| && |ring| >= 2
    ensures var b := ring[k];
      && 0 <= next[b] < |next| && 0 <= prev[b] < |prev|
      && Ring(next[prev[b] := next[b]], prev[next[b] := prev[b]], if head == b then next[b] else head, Drop(ring, k))
  {
    var b := ring[k];
    var n := |ring|;
    RingPrev(next, prev, head, ring, k);
    DropFacts(ring, k, |next|);
    var r := Drop(ring, k);
    var p := if k == 0 then n - 1 else k - 1;
    var next1 := next[prev[b] := next[b]];
    var prev1 := prev[next[b] := prev[b]];
    forall i | 0 <= i < n - 1 ensures next1[r[i]] == r[Succ(i, n - 1)] && prev1[r[Succ(i, n - 1)]] == r[i] {
      var j := if i < k then i else i + 1;
      assert r[i] == ring[j];
      var i' := Succ(i, n - 1);
      var j' := if i' < k then i' else i' + 1;
      assert r[i'] == ring[j'];
      if Succ(j, n) == k {
        assert j == p && j' == Succ(k, n);
      } else {
        assert j' == Succ(j, n) && ring[j] != ring[p];
      }
    }
  }

  /** Linking b in just before the head: at the end of the list. */
  lemma RingAppend(next: seq<int>, prev: seq<int>, head: int, ring: seq<int>, b: int)
    requires Ring(next, prev, head, ring) && 0 <= b < |next| && b !in ring
    ensures 0 <= prev[head] < |next|
    ensures Ring(next[b := head][prev[head] := b], prev[b := prev[head]][head := b], head, ring + [b])
  {
    RingPrev(next, prev, head, ring, 0);
    var n := |ring|;
    var r := ring + [b];
    var next1 := next[b := head][prev[head] := b];
    var prev1 := prev[b := prev[head]][head := b];
    forall i | 0 <= i < n + 1 ensures next1[r[i]] == r[Succ(i, n + 1)] && prev1[r[Succ(i, n + 1)]] == r[i] {
      if i < n - 1 {
        assert r[i] == ring[i] && r[i + 1] == ring[i + 1] && Succ(i, n) == i + 1;
        assert ring[i] != ring[n - 1] && ring[i + 1] != ring[0];
      }
    }
  }

  /** Unlinking element k of a chain. */
  lemma ChainRemove(next: seq<int>, prev: seq<int>, head: int, c: seq<int>, k: int)
    requires Chain(next, prev, head, c) && 0 <= k < |c|
    ensures var b := c[k];
      && (next[b] != NULL ==> 0 <= next[b] < |prev|) && (prev[b] != NULL ==> 0 <= prev[b] < |next|)
      && Chain(if prev[b] != NULL then next[prev[b] := next[b]] else next,
               if next[b] != NULL then prev[next[b] := prev[b]] else prev,
               if head == b then next[b] else head, Drop(c, k))
  {
    var b := c[k];
    assert next[b] == At(c, k + 1) && prev[b] == At(c, k - 1);
    DropFacts(c, k, |next|);
    var r := Drop(c, k);
    var next1 := if prev[b] != NULL then next[prev[b] := next[b]] else next;
    var prev1 := if next[b] != NULL then prev[next[b] := prev[b]] else prev;
    forall i | 0 <= i < |r| ensures next1[r[i]] == At(r, i + 1) && prev1[r[i]] == At(r, i - 1) {
      RemovedAt(next, prev, head, c, k, i);
    }
    HeadRemoved(c, k, |next|);
  }

  lemma HeadRemoved(c: seq<int>, k: int, n: int)
    requires 0 <= k < |c| && Distinct(c) && InRange(c, n)
    ensures At(Drop(c, k), 0) == if At(c, 0) == c[k] then At(c, k + 1) else At(c, 0)
  { }

  lemma RemovedAt(next: seq<int>, prev: seq<int>, head: int, c: seq<int>, k: int, i: int)
    requires Chain(next, prev, head, c) && 0 <= k < |c| && 0 <= i < |c| - 1
    ensures var b := c[k];
      && (next[b] != NULL ==> 0 <= next[b] < |prev|) && (prev[b] != NULL ==> 0 <= prev[b] < |next|)
      && 0 <= Drop(c, k)[i] < |next|
      && (if prev[b] != NULL then next[prev[b] := next[b]] else next)[Drop(c, k)[i]] == At(Drop(c, k), i + 1)
      && (if next[b] != NULL then prev[next[b] := prev[b]] else prev)[Drop(c, k)[i]] == At(Drop(c, k), i - 1)
  {
    var b := c[k];
    var j := if i < k then i else i + 1;
    assert next[b] == At(c, k + 1) && prev[b] == At(c, k - 1);
    assert next[c[j]] == At(c, j + 1) && prev[c[j]] == At(c, j - 1);
    assert 0 <= c[j] < |next| && (k > 0 ==> 0 <= c[k - 1] < |next|) && (k + 1 < |c| ==> 0 <= c[k + 1] < |next|);
    Elsewhere(c, |next|, j, k);
    hide Chain, Distinct, InRange;
    DropAt(c, k, i);
    assert Drop(c, k)[i] == c[j];
  }

  /** Different places hold different buffers. */
  lemma Elsewhere(c: seq<int>, n: int, j: int, k: int)
    requires InRange(c, n) && Distinct(c) && 0 <= j < |c| && 0 <= k < |c|
    ensures j + 1 != k ==> c[j] != At(c, k - 1)
    ensures j - 1 != k ==> c[j] != At(c, k + 1)
    ensures c[j] != NULL
  { }

  lemma DropAt(c: seq<int>, k: int, i: int)
    requires 0 <= k < |c| && -1 <= i < |c| - 1
    ensures var r := Drop(c, k); var j := if i < k then i else i + 1;
      && At(r, i) == At(c, j)
      && At(r, i + 1) == (if j + 1 == k then At(c, k + 1) else At(c, j + 1))
      && (i >= 0 ==> At(r, i - 1) == (if j - 1 == k then At(c, k - 1) else At(c, j - 1)))
  { }

  /** Linking b in at the front (the old head's back pointer only if there is one). */
  lemma ChainPush(next: seq<int>, prev: seq<int>, head: int, c: seq<int>, b: int)
    requires Chain(next, prev, head, c) && 0 <= b < |next| && b !in c
    ensures Chain(next[b := head], if head != NULL then prev[b := NULL][head := b] else prev[b := NULL], b, [b] + c)
  {
    var r := [b] + c;
    var next1 := next[b := head];
    var prev1 := if head != NULL then prev[b := NULL][head := b] else prev[b := NULL];
    forall i | 1 <= i < |r| ensures r[i] != b { assert r[i] == c[i - 1] && c[i - 1] in c; }
    forall i | 0 <= i < |r| ensures next1[r[i]] == At(r, i + 1) && prev1[r[i]] == At(r, i - 1) {
      PushedAt(next, prev, head, c, b, i);
    }
    PushDistinct(c, b, |next|);
  }

  lemma PushDistinct(c: seq<int>, b: int, n: int)
    requires InRange(c, n) && Distinct(c) && 0 <= b < n && b !in c
    ensures InRange([b] + c, n) && Distinct([b] + c)
  {
    forall i | 1 <= i < |c| + 1 ensures ([b] + c)[i] == c[i - 1] != b { assert c[i - 1] in c; }
  }

  lemma PushedAt(next: seq<int>, prev: seq<int>, head: int, c: seq<int>, b: int, i: int)
    requires Chain(next, prev, head, c) && 0 <= b < |next| && b !in c && 0 <= i < |c| + 1
    ensures var r := [b] + c;
      && 0 <= r[i] < |next| && (head != NULL ==> 0 <= head < |prev|)
      && next[b := head][r[i]] == At(r, i + 1)
      && (if head != NULL then prev[b := NULL][head := b] else prev[b := NULL])[r[i]] == At(r, i - 1)
  {
    if i > 0 {
      assert c[i - 1] in c;
      assert next[c[i - 1]] == At(c, i) && prev[c[i - 1]] == At(c, i - 2);
      Elsewhere(c, |next|, i - 1, 0);
      assert i > 1 ==> c[i - 1] != c[0];
      hide Chain, Distinct, InRange;
    }
  }

  /** Links of other buffers do not matter. */
  lemma ChainFrame(next: seq<int>, prev: seq<int>, next1: seq<int>, prev1: seq<int>, head: int, c: seq<int>)
    requires Chain(next, prev, head, c) && |next1| == |next| && |prev1| == |prev|
    requires forall i :: 0 <= i < |c| ==> next1[c[i]] == next[c[i]] && prev1[c[i]] == prev[c[i]]
    ensures Chain(next1, prev1, head, c)
  { }
}
