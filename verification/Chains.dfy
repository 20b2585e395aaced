/**
 Singly linked lists threaded through a table of successor indices.  A block of
 the cache is named by its index in the block table, NULL is the null pointer.
 */
module Chains {
  const NULL: int := -1

  ghost function HeadOf(s: seq<int>): int { if s == [] then NULL else s[0] }

  ghost function NextOf(s: seq<int>, k: nat): int
    requires k < |s|
  { if k + 1 < |s| then s[k + 1] else NULL }

  ghost predicate Distinct(s: seq<int>) { forall i, j :: 0 <= i < j < |s| ==> s[i] != s[j] }

  /** The list that starts at `head` and follows `next` is exactly `s`. */
  ghost predicate Chain(head: int, next: seq<int>, s: seq<int>)
  {
    && head == HeadOf(s)
    && Distinct(s)
    && (forall k :: 0 <= k < |s| ==> 0 <= s[k] < |next|)
    && (forall k {:trigger next[s[k]]} :: 0 <= k < |s| ==> next[s[k]] == NextOf(s, k))
  }

  ghost function Without(s: seq<int>, k: nat): seq<int>
    requires k < |s|
  { s[..k] + s[k + 1..] }

  ghost function Position(s: seq<int>, x: int): (k: nat)
    requires x in s
    ensures k < |s| && s[k] == x && forall j :: 0 <= j < k ==> s[j] != x
  {
    if s[0] == x then 0 else 1 + Position(s[1..], x)
  }

  /** The list without its element `x`. */
  ghost function Drop(s: seq<int>, x: int): seq<int>
    requires x in s
  { Without(s, Position(s, x)) }

  /** A write outside the list leaves it alone. */
  lemma ChainFrame(head: int, next: seq<int>, s: seq<int>, x: int, v: int)
    requires Chain(head, next, s) && 0 <= x < |next| && x !in s
    ensures Chain(head, next[x := v], s)
  {}

  lemma ChainPush(head: int, next: seq<int>, s: seq<int>, x: int)
    requires Chain(head, next, s) && 0 <= x < |next| && x !in s
    ensures Chain(x, next[x := head], [x] + s)
  {}

  lemma ChainTail(head: int, next: seq<int>, s: seq<int>)
    requires Chain(head, next, s) && head != NULL
    ensures s != [] && Chain(next[head], next, s[1..]) && head !in s[1..]
  {
    var t := s[1..];
    forall k {:trigger next[t[k]]} | 0 <= k < |t| ensures next[t[k]] == NextOf(t, k) {
      assert next[s[k + 1]] == NextOf(s, k + 1);
    }
  }

  lemma ChainDropHead(head: int, next: seq<int>, s: seq<int>)
    requires Chain(head, next, s) && s != []
    ensures Chain(next[head], next, Without(s, 0))
  {}

  lemma ChainSplice(head: int, next: seq<int>, s: seq<int>, k: nat)
    requires Chain(head, next, s) && 0 < k < |s|
    ensures Chain(head, next[s[k - 1] := next[s[k]]], Without(s, k))
  {
    var t := Without(s, k);
    var n := next[s[k - 1] := next[s[k]]];
    WithoutMembers(s, k);
    assert t[k - 1] == s[k - 1] && next[s[k]] == NextOf(s, k);
    assert NextOf(t, k - 1) == NextOf(s, k);
    forall j | 0 <= j < |t| ensures 0 <= t[j] < |n| && n[t[j]] == NextOf(t, j) {
      if j >= k {
        assert t[j] == s[j + 1] && NextOf(t, j) == NextOf(s, j + 1);
      } else if j < k - 1 {
        assert t[j] == s[j] && NextOf(t, j) == s[j + 1];
      }
    }
  }

  lemma WithoutMembers(s: seq<int>, k: nat)
    requires k < |s| && Distinct(s)
    ensures Distinct(Without(s, k))
    ensures forall x :: x in Without(s, k) <==> x in s && x != s[k]
  {
    var t := Without(s, k);
    forall x | x in s && x != s[k] ensures x in t {
      var i :| 0 <= i < |s| && s[i] == x;
      assert t[if i < k then i else i - 1] == x;
    }
  }

  lemma ChainInsert(head: int, next: seq<int>, s: seq<int>, k: nat, x: int)
    requires Chain(head, next, s) && k < |s| && 0 <= x < |next| && x !in s
    ensures Chain(head, next[x := next[s[k]]][s[k] := x], s[..k + 1] + [x] + s[k + 1..])
  {
    var t, n := s[..k + 1] + [x] + s[k + 1..], next[x := next[s[k]]][s[k] := x];
    assert next[s[k]] == NextOf(s, k);
    forall j {:trigger n[t[j]]} | 0 <= j < |t| ensures n[t[j]] == NextOf(t, j) {
      if j < k {
        assert next[s[j]] == NextOf(s, j);
      } else if j > k + 1 {
        assert t[j] == s[j - 1] && next[s[j - 1]] == NextOf(s, j - 1);
      }
    }
  }

  /** The walk along a list to the link that leads to `b`: `where` is the element before it, NULL for the head. */
  method FindLink(head: int, next: seq<int>, b: int, ghost s: seq<int>) returns (where: int, cur: int)
    requires Chain(head, next, s) && b in s
    ensures cur == b && where == if Position(s, b) == 0 then NULL else s[Position(s, b) - 1]
  {
    ghost var k: nat := 0;
    where, cur := NULL, head;
    while cur != b && cur != NULL
      invariant k < |s| && cur == s[k] && k <= Position(s, b) && where == if k == 0 then NULL else s[k - 1]
      decreases |s| - k
    {
      where, cur := cur, next[cur];
      k := k + 1;
    }
  }
}
