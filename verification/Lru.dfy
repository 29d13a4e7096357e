/** The doubly linked list of buffers (bio.c) as index links, and its order as a sequence.

    `ring` lists the members in order, most recently used first, after the list head `ring[0]`. */
module Lru {
  import opened Sets

  function After(i: nat, n: nat): nat {
    if i + 1 < n then i + 1 else 0
  }

  ghost predicate LinkAt(next: seq<nat>, prev: seq<nat>, ring: seq<nat>, i: nat)
    requires i < |ring|
  {
    var a, b := ring[i], ring[After(i, |ring|)];
    a < |next| && b < |prev| && next[a] == b && prev[b] == a
  }

  ghost predicate Links(next: seq<nat>, prev: seq<nat>, ring: seq<nat>) {
    forall i :: 0 <= i < |ring| ==> LinkAt(next, prev, ring, i)
  }

  ghost predicate InRange(s: seq<nat>, n: nat) {
    forall i :: 0 <= i < |s| ==> s[i] < n
  }

  /** The list of all buffers 0..n with head n. */
  ghost predicate RingOk(next: seq<nat>, prev: seq<nat>, ring: seq<nat>, n: nat) {
    && |next| == |prev| == |ring| == n + 1 && ring[0] == n
    && NoRepeats(ring) && InRange(ring, n + 1) && Links(next, prev, ring)
  }

  function Remove(ring: seq<nat>, k: nat): seq<nat>
    requires k < |ring|
  {
    ring[..k] + ring[k + 1..]
  }

  function InsertFront(ring: seq<nat>, b: nat): seq<nat>
    requires |ring| > 0
  {
    [ring[0], b] + ring[1..]
  }

  /** The order after `brelse` of the member at position `k`. */
  function MoveFront(ring: seq<nat>, k: nat): seq<nat>
    requires 0 < k < |ring|
  {
    InsertFront(Remove(ring, k), ring[k])
  }

  lemma RemoveLinkAt(next: seq<nat>, prev: seq<nat>, ring: seq<nat>, k: nat, i: nat)
    requires 0 < k < |ring| && i + 1 < |ring| && NoRepeats(ring)
    requires LinkAt(next, prev, ring, k - 1) && LinkAt(next, prev, ring, k)
    requires LinkAt(next, prev, ring, if i < k then i else i + 1)
    ensures ring[After(k, |ring|)] < |prev| && ring[k - 1] < |next|
    ensures LinkAt(next[ring[k - 1] := ring[After(k, |ring|)]], prev[ring[After(k, |ring|)] := ring[k - 1]],
                   Remove(ring, k), i)
  {
  }

  lemma RemoveLinks(next: seq<nat>, prev: seq<nat>, ring: seq<nat>, k: nat)
    requires 0 < k < |ring| && NoRepeats(ring) && Links(next, prev, ring)
    ensures ring[After(k, |ring|)] < |prev| && ring[k - 1] < |next|
    ensures LinkAt(next, prev, ring, k) && LinkAt(next, prev, ring, k - 1)
    ensures Links(next[ring[k - 1] := ring[After(k, |ring|)]], prev[ring[After(k, |ring|)] := ring[k - 1]],
                  Remove(ring, k))
  {
    assert LinkAt(next, prev, ring, k) && LinkAt(next, prev, ring, k - 1);
    var r := Remove(ring, k);
    var next', prev' := next[ring[k - 1] := ring[After(k, |ring|)]], prev[ring[After(k, |ring|)] := ring[k - 1]];
    forall i | 0 <= i < |r| ensures LinkAt(next', prev', r, i) {
      assert LinkAt(next, prev, ring, if i < k then i else i + 1);
      RemoveLinkAt(next, prev, ring, k, i);
    }
  }

  lemma RemoveNoRepeats(ring: seq<nat>, k: nat)
    requires k < |ring| && NoRepeats(ring)
    ensures NoRepeats(Remove(ring, k)) && ring[k] !in Remove(ring, k)
  {
  }

  lemma InsertLinks(next: seq<nat>, prev: seq<nat>, ring: seq<nat>, b: nat)
    requires |ring| > 0 && NoRepeats(ring) && Links(next, prev, ring) && b !in ring && b < |next| == |prev|
    ensures var h, f := ring[0], ring[After(0, |ring|)];
            && h < |next| && f < |prev|
            && Links(next[b := f][h := b], prev[b := h][f := b], InsertFront(ring, b))
  {
    var h, f := ring[0], ring[After(0, |ring|)];
    assert LinkAt(next, prev, ring, 0);
    var r := InsertFront(ring, b);
    var next', prev' := next[b := f][h := b], prev[b := h][f := b];
    assert r[0] == h && r[1] == b;
    forall i | 0 <= i < |r| ensures LinkAt(next', prev', r, i) {
      if i >= 2 {
        assert LinkAt(next, prev, ring, i - 1);
        assert r[i] == ring[i - 1] && (i + 1 < |r| ==> r[i + 1] == ring[i]);
      } else if i == 1 {
        assert |ring| > 1 ==> r[2] == ring[1];
      }
    }
  }

  lemma InsertNoRepeats(ring: seq<nat>, b: nat)
    requires |ring| > 0 && NoRepeats(ring) && b !in ring
    ensures NoRepeats(InsertFront(ring, b))
  {
  }

  /** Every buffer is somewhere in a list that is as long as there are buffers. */
  lemma Present(ring: seq<nat>, n: nat, b: nat)
    requires NoRepeats(ring) && InRange(ring, n + 1) && |ring| == n + 1 && b <= n
    ensures b in ring
  {
    ElementsSize(ring);
    SubsetSize(Elements(ring), Range(n + 1));
    assert b in Range(n + 1);
  }
}
