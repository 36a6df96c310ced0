/** The doubly linked list of the buffer cache (kernel/bio.c): buffers `0` to `n - 1`
    and the list head `n`, linked through `next` and `prev`. */
module BioList {
  import opened Counting

  /** Every buffer once. */
  ghost predicate Permutation(order: seq<nat>, n: nat) {
    |order| == n && NoRepeat(order) && forall i :: 0 <= i < |order| ==> order[i] < n
  }

  /** The sequence `c` of nodes is linked both ways. */
  ghost predicate Linked(next: seq<nat>, prev: seq<nat>, c: seq<nat>) {
    && (forall i :: 0 <= i < |c| ==> c[i] < |next| && c[i] < |prev|)
    && (forall i :: 0 <= i < |c| - 1 ==> next[c[i]] == c[i + 1])
    && (forall i :: 1 <= i < |c| ==> prev[c[i]] == c[i - 1])
  }

  /** From the head through the buffers in `order` back to the head. */
  ghost predicate Circle(next: seq<nat>, prev: seq<nat>, order: seq<nat>, n: nat) {
    && |next| == |prev| == n + 1
    && (forall i :: 0 <= i < |order| ==> order[i] < n)
    && NoRepeat(order)
    && Linked(next, prev, [n] + order + [n])
  }

  /** A node, its neighbours on the circle. */
  lemma Neighbours(next: seq<nat>, prev: seq<nat>, order: seq<nat>, n: nat, i: nat)
    requires Circle(next, prev, order, n) && i < |order|
    ensures |next| == |prev| == n + 1
    ensures next[order[i]] == if i + 1 < |order| then order[i + 1] else n
    ensures prev[order[i]] == if i > 0 then order[i - 1] else n
  {
    var c := [n] + order + [n];
    assert c[i + 1] == order[i];
    assert c[i + 2] == if i + 1 < |order| then order[i + 1] else n;
    assert c[i] == if i > 0 then order[i - 1] else n;
  }

  lemma Ends(next: seq<nat>, prev: seq<nat>, order: seq<nat>, n: nat)
    requires Circle(next, prev, order, n)
    ensures |next| == |prev| == n + 1
    ensures next[n] == if order == [] then n else order[0]
    ensures prev[n] == if order == [] then n else order[|order| - 1]
  {
    var c := [n] + order + [n];
    assert c[0] == n && c[|c| - 1] == n;
    assert next[c[0]] == c[1];
    assert prev[c[|c| - 1]] == c[|c| - 2];
  }

  /** Taking a buffer out. */
  lemma Unlink(next: seq<nat>, prev: seq<nat>, order: seq<nat>, n: nat, i: nat)
    requires Circle(next, prev, order, n) && i < |order|
    ensures var b := order[i];
      && next[b] <= n && prev[b] <= n
      && Circle(next[prev[b] := next[b]], prev[next[b] := prev[b]], Without(order, i), n)
  {
    Neighbours(next, prev, order, n, i);
    var b := order[i];
    var c := [n] + order + [n];
    assert c[i] == prev[b] && c[i + 1] == b && c[i + 2] == next[b];
    assert forall k :: 0 <= k < |c| - 1 && k != i ==> c[k] != c[i];
    assert forall k :: 1 <= k < |c| && k != i + 2 ==> c[k] != c[i + 2];
    assert [n] + Without(order, i) + [n] == c[..i + 1] + c[i + 2..];
    UnlinkAt(next, prev, c, i);
    hide Linked;
  }

  lemma UnlinkAt(next: seq<nat>, prev: seq<nat>, c: seq<nat>, i: nat)
    requires Linked(next, prev, c) && i + 2 < |c|
    requires forall k :: 0 <= k < |c| - 1 && k != i ==> c[k] != c[i]
    requires forall k :: 1 <= k < |c| && k != i + 2 ==> c[k] != c[i + 2]
    ensures Linked(next[c[i] := c[i + 2]], prev[c[i + 2] := c[i]], c[..i + 1] + c[i + 2..])
  {
    var d := c[..i + 1] + c[i + 2..];
    assert forall k :: 0 <= k < |d| ==> d[k] == if k <= i then c[k] else c[k + 1];
    var nx, pv := next[c[i] := c[i + 2]], prev[c[i + 2] := c[i]];
    forall k | 0 <= k < |d| - 1 ensures nx[d[k]] == d[k + 1] {
      if k < i { assert next[c[k]] == c[k + 1]; } else if k > i { assert next[c[k + 1]] == c[k + 2]; }
    }
    forall k | 1 <= k < |d| ensures pv[d[k]] == d[k - 1] {
      if k <= i { assert prev[c[k]] == c[k - 1]; } else if k > i + 1 { assert prev[c[k + 1]] == c[k]; }
    }
  }

  /** Putting a buffer in at the front. */
  lemma LinkFront(next: seq<nat>, prev: seq<nat>, order: seq<nat>, n: nat, b: nat)
    requires Circle(next, prev, order, n) && b < n && b !in order
    ensures next[n] <= n
    ensures Circle(next[b := next[n]][n := b], prev[b := n][next[n] := b], [b] + order, n)
  {
    Ends(next, prev, order, n);
    var c := [n] + order + [n];
    var d := [n] + ([b] + order) + [n];
    var nx, pv := next[b := next[n]][n := b], prev[b := n][next[n] := b];
    assert c[1] == next[n];
    assert forall k :: 2 <= k < |d| ==> d[k] == c[k - 1];
    assert d[0] == n && d[1] == b;
    forall k | 0 <= k < |d| - 1 ensures nx[d[k]] == d[k + 1] {
      if k >= 2 { assert d[k] == order[k - 2] && next[c[k - 1]] == c[k]; }
    }
    forall k | 1 <= k < |d| ensures pv[d[k]] == d[k - 1] {
      if k >= 3 {
        assert prev[c[k - 1]] == c[k - 2];
        FrontPrev(order, n, k);
        if k - 2 < |order| { assert d[k] == order[k - 2]; }
      }
    }
  }

  lemma FrontPrev(order: seq<nat>, n: nat, k: nat)
    requires NoRepeat(order) && (forall i :: 0 <= i < |order| ==> order[i] < n)
    requires 3 <= k < |order| + 3
    ensures var c := [n] + order + [n]; c[k - 1] != c[1]
  {
  }
}
