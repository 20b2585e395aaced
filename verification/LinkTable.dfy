/**
 Who jumps to whom.  Every cache block has two outgoing jumps, `link[0]` and
 `link[1]`; the lists of callers of the two never mix, so one table per index
 describes `link[index].to/next/from` of all the blocks.
 */
module LinkTables {
  import opened Chains

  /** Target of a jump that leads to the default link block (`link_blocks[index]`). */
  const LINK_CODE: int := -2

  /** Block `b` jumps to the default link block or to a live block; its `from` list is
      acyclic and holds exactly the live blocks that jump to it. */
  ghost predicate BlockOk(to: seq<int>, next: seq<int>, from: seq<int>, callers: seq<seq<int>>, live: set<int>, b: int)
    requires |to| == |next| == |from| == |callers|
  {
    && 0 <= b < |to|
    && (to[b] == LINK_CODE || to[b] in live)
    && Chain(from[b], next, callers[b])
    && (forall c :: c in callers[b] <==> c in live && 0 <= c < |to| && to[c] == b)
  }

  ghost predicate LinksOk(to: seq<int>, next: seq<int>, from: seq<int>, callers: seq<seq<int>>, live: set<int>)
  {
    && |to| == |next| == |from| == |callers|
    && (forall b <- live :: 0 <= b < |to|)
    && (forall b :: 0 <= b < |to| ==> to[b] == LINK_CODE || 0 <= to[b] < |to|)
    && (forall b {:trigger BlockOk(to, next, from, callers, live, b)} :: b in live ==> BlockOk(to, next, from, callers, live, b))
  }

  class LinkTable {
    var to: seq<int>
    var next: seq<int>
    var from: seq<int>
    ghost var callers: seq<seq<int>>
    ghost var live: set<int>

    ghost predicate Valid()
      reads this
    {
      LinksOk(to, next, from, callers, live)
    }

    constructor (blocks: nat)
      ensures Valid() && live == {} && |to| == blocks
    {
      to, next, from := seq(blocks, _ => LINK_CODE), seq(blocks, _ => NULL), seq(blocks, _ => NULL);
      callers, live := seq(blocks, _ => []), {};
    }

    /** A freshly closed block jumps to the default link block and nobody jumps to it. */
    method Open(b: int)
      requires Valid() && 0 <= b < |to| && b !in live
      modifies this
      ensures Valid() && live == old(live) + {b} && to == old(to)[b := LINK_CODE]
    {
      to := to[b := LINK_CODE];
      from := from[b := NULL];
      next := next[b := NULL];
      OpenKeeps(old(to), old(next), old(from), callers, live, b);
      callers := callers[b := []];
      live := live + {b};
    }

    /** CacheBlock::LinkTo.  From a live block, which is on the default link block then, it keeps the lists exact; from a
        block that was cleared meanwhile it spoils them. */
    method LinkTo(b: int, target: int)
      requires Valid() && 0 <= b < |to| && target in live && (b in live ==> to[b] == LINK_CODE)
      modifies this
      ensures Valid() <==> b in live
      ensures live == old(live) && to == old(to)[b := target] && |next| == |from| == |to| == |callers|
      ensures 0 <= target < |to| && from == old(from)[target := b] && next == old(next)[b := old(from[target])]
      ensures callers == old(callers)[target := [b] + old(callers[target])]
    {
      assert BlockOk(to, next, from, callers, live, target);
      LinkToKeepsIff(to, next, from, callers, live, b, target);
      to := to[b := target];
      next := next[b := from[target]];
      from := from[target := b];
      callers := callers[target := [b] + callers[target]];
    }

    /** The loop over a caller list: each caller jumps to the default link block and is threaded on no list. */
    method ResetCallers(head: int, ghost s: seq<int>)
      requires Chain(head, next, s) && |to| == |next|
      modifies this`to, this`next
      ensures |to| == |next| == old(|to|)
      ensures forall c :: 0 <= c < |to| && c !in s ==> to[c] == old(to)[c] && next[c] == old(next)[c]
      ensures forall c <- s :: 0 <= c < |to| && to[c] == LINK_CODE
    {
      var caller := head;
      ghost var k: nat := 0;
      while caller != NULL
        invariant k <= |s| && caller == if k < |s| then s[k] else NULL
        invariant |to| == |next| == old(|to|)
        invariant forall j {:trigger next[s[j]]} :: k <= j < |s| ==> next[s[j]] == NextOf(s, j)
        invariant forall c :: 0 <= c < |to| && c !in s ==> to[c] == old(to)[c] && next[c] == old(next)[c]
        invariant forall j :: 0 <= j < k ==> to[s[j]] == LINK_CODE
        modifies this`to, this`next
        decreases |s| - k
      {
        var nextCaller := next[caller];
        next := next[caller := NULL];
        to := to[caller := LINK_CODE];
        caller := nextCaller;
        k := k + 1;
      }
    }

    /** The callers of `b` fall back on the default link block. */
    method DetachCallers(b: int)
      requires Valid() && b in live
      modifies this`to, this`next, this`from, this`callers
      ensures Valid() && callers[b] == [] && |to| == old(|to|)
      ensures forall c <- live :: to[c] == if old(to[c]) == b then LINK_CODE else old(to[c])
      ensures forall c :: 0 <= c < |to| && c !in live ==> to[c] == old(to[c])
    {
      assert BlockOk(to, next, from, callers, live, b);
      var caller := from[b];
      from := from[b := NULL];
      ResetCallers(caller, callers[b]);
      DetachKeeps(old(to), old(next), old(from), callers, live, b, to, next);
      callers := callers[b := []];
    }

    /** Take `b` out of the callers of the block it jumps to; the list walk always finds it. */
    method Unthread(b: int) returns (found: bool)
      requires Valid() && b in live && to[b] in live && to[b] != LINK_CODE && to[b] != b
      modifies this`next, this`from, this`callers
      ensures found && |callers| == |to|
      ensures forall c <- live :: c != to[b] ==> callers[c] == old(callers[c])
      ensures LinksOk(to[b := LINK_CODE], next, from, callers, live)
    {
      var t := to[b];
      assert BlockOk(to, next, from, callers, live, b);
      ghost var s := callers[t];
      assert BlockOk(to, next, from, callers, live, t);
      ghost var k := Position(s, b);
      var where, cur := FindLink(from[t], next, b, s);
      found := cur != NULL;
      if found {
        if where == NULL {
          ChainDropHead(from[t], next, s);
          from := from[t := next[cur]];
        } else {
          ChainSplice(from[t], next, s, k);
          next := next[where := next[cur]];
        }
      }
      assert from == old(from)[t := from[t]];
      UnthreadKeeps(to, old(next), old(from), callers, live, b, t, k, next, from[t]);
      callers := callers[t := Without(s, k)];
    }

    /** The link part of CacheBlock::Clear: afterwards no live block jumps to `b`.  The jumps of dead blocks, that of `b`
        included, are left as they are, but for a jump of `b` to itself. */
    method Retire(b: int) returns (found: bool)
      requires Valid() && b in live
      modifies this
      ensures Valid() && found && live == old(live) - {b} && |to| == old(|to|)
      ensures forall c <- old(live) :: to[c] == if old(to[c]) == b then LINK_CODE else old(to[c])
      ensures forall c :: 0 <= c < |to| && c !in old(live) ==> to[c] == old(to[c])
    {
      DetachCallers(b);
      found := true;
      assert BlockOk(to, next, from, callers, live, b);
      if to[b] != LINK_CODE {
        found := Unthread(b);
      }
      assert to[b] == LINK_CODE ==> to == to[b := LINK_CODE];
      RetireKeeps(to, next, from, callers, live, b);
      live := live - {b};
    }
  }

  lemma OpenKeeps(to: seq<int>, next: seq<int>, from: seq<int>, callers: seq<seq<int>>, live: set<int>, b: int)
    requires LinksOk(to, next, from, callers, live) && 0 <= b < |to| && b !in live
    ensures LinksOk(to[b := LINK_CODE], next[b := NULL], from[b := NULL], callers[b := []], live + {b})
  {
    forall c | c in live + {b}
      ensures BlockOk(to[b := LINK_CODE], next[b := NULL], from[b := NULL], callers[b := []], live + {b}, c)
    {
      if c == b {
        forall d | d in live ensures to[d] != b {
          assert BlockOk(to, next, from, callers, live, d);
        }
      } else {
        assert BlockOk(to, next, from, callers, live, c);
      }
    }
  }

  lemma LinkToKeeps(to: seq<int>, next: seq<int>, from: seq<int>, callers: seq<seq<int>>, live: set<int>, b: int, t: int)
    requires LinksOk(to, next, from, callers, live) && b in live && t in live
    requires 0 <= b < |to| && 0 <= t < |to| && to[b] == LINK_CODE
    ensures LinksOk(to[b := t], next[b := from[t]], from[t := b], callers[t := [b] + callers[t]], live)
  {
    assert BlockOk(to, next, from, callers, live, t);
    ChainPush(from[t], next, callers[t], b);
    forall c | c in live
      ensures BlockOk(to[b := t], next[b := from[t]], from[t := b], callers[t := [b] + callers[t]], live, c)
    {
      assert BlockOk(to, next, from, callers, live, c);
    }
  }

  lemma HeadIsLive(to: seq<int>, next: seq<int>, from: seq<int>, callers: seq<seq<int>>, live: set<int>, t: int)
    requires t in live && 0 <= t < |from| && from[t] != NULL
    ensures LinksOk(to, next, from, callers, live) ==> from[t] in live
  {
    if LinksOk(to, next, from, callers, live) {
      assert BlockOk(to, next, from, callers, live, t);
    }
  }

  /** There are caller lists that are exact. */
  ghost predicate Threaded(to: seq<int>, next: seq<int>, from: seq<int>, live: set<int>) {
    exists lists :: LinksOk(to, next, from, lists, live)
  }

  /** Where a dead block heads the list of a live one, no lists hold exactly the live callers. */
  lemma LinkFromDead(to: seq<int>, next: seq<int>, from: seq<int>, live: set<int>, b: int, t: int)
    requires t in live && b !in live && 0 <= t < |from| && from[t] == b != NULL
    ensures !Threaded(to, next, from, live)
  {
    forall lists ensures !LinksOk(to, next, from, lists, live) {
      HeadIsLive(to, next, from, lists, live, t);
    }
  }

  /** LinkTo keeps the lists exact if and only if its source is live. */
  lemma LinkToKeepsIff(to: seq<int>, next: seq<int>, from: seq<int>, callers: seq<seq<int>>, live: set<int>, b: int, t: int)
    requires LinksOk(to, next, from, callers, live) && t in live
    requires 0 <= b < |to| && 0 <= t < |to| && (b in live ==> to[b] == LINK_CODE)
    ensures Threaded(to[b := t], next[b := from[t]], from[t := b], live) <==> b in live
    ensures b in live ==> LinksOk(to[b := t], next[b := from[t]], from[t := b], callers[t := [b] + callers[t]], live)
  {
    if b in live {
      LinkToKeeps(to, next, from, callers, live, b, t);
    } else {
      LinkFromDead(to[b := t], next[b := from[t]], from[t := b], live, b, t);
    }
  }

  /** What follows when the dead block is closed as a new one: its `next` is reset, which cuts the list of the target off
      behind it, and all that jumped to the target before are left out of it although they still jump there. */
  lemma DeadLinkCuts(to: seq<int>, next: seq<int>, from: seq<int>, callers: seq<seq<int>>, live: set<int>, b: int, t: int)
    requires LinksOk(to, next, from, callers, live) && t in live && b !in live && 0 <= b < |to| && 0 <= t < |to|
    ensures var to', next', from' := to[b := t][b := LINK_CODE], next[b := from[t]][b := NULL], from[t := b][b := NULL];
            && Chain(from'[t], next', [b]) && to'[b] != t
            && (forall c <- callers[t] :: c in live && c != b && 0 <= c < |to| && to'[c] == t)
  {
    assert BlockOk(to, next, from, callers, live, t);
  }

  /** The block after `n` steps of the search loop of Clear. */
  ghost function Searched(next: seq<int>, head: int, n: nat): int {
    if n == 0 then head else
      var c := Searched(next, head, n - 1);
      if 0 <= c < |next| then next[c] else NULL
  }

  /** And when that new block is linked to the same target once more, it becomes its own successor: from then on the search
      for any other caller of the target, who still jumps there, goes round in a circle of one. */
  lemma {:induction false} DeadLinkCircles(to: seq<int>, next: seq<int>, from: seq<int>, callers: seq<seq<int>>, live: set<int>, b: int, t: int,
                                           n: nat)
    requires LinksOk(to, next, from, callers, live) && t in live && b !in live && 0 <= b < |to| && 0 <= t < |to|
    ensures var to1, next1, from1 := to[b := t][b := LINK_CODE], next[b := from[t]][b := NULL], from[t := b][b := NULL];
            var to2, next2, from2 := to1[b := t], next1[b := from1[t]], from1[t := b];
            && Searched(next2, from2[t], n) == b
            && (forall c <- callers[t] :: c in live && c != b && 0 <= c < |to| && to2[c] == t)
  {
    DeadLinkCuts(to, next, from, callers, live, b, t);
    hide LinksOk;
    if n > 0 {
      DeadLinkCircles(to, next, from, callers, live, b, t, n - 1);
    }
  }

  /** A block was cleared, then the block that it jumped to: its jump still leads there, into a dead block. */
  method JumpIntoDead(links: LinkTable, b: int)
    requires links.Valid() && b in links.live && 0 <= b < |links.to| && links.to[b] != LINK_CODE && links.to[b] != b
    modifies links
    ensures links.Valid() && 0 <= b < |links.to| && b !in links.live && links.to[b] == old(links.to[b]) && links.to[b] !in links.live
  {
    assert BlockOk(links.to, links.next, links.from, links.callers, links.live, b);
    var target := links.to[b];
    var found := links.Retire(b);
    found := links.Retire(target);
  }

  lemma DetachKeeps(to: seq<int>, next: seq<int>, from: seq<int>, callers: seq<seq<int>>, live: set<int>, b: int,
                    to': seq<int>, next': seq<int>)
    requires LinksOk(to, next, from, callers, live) && b in live && 0 <= b < |to| && |to'| == |next'| == |to|
    requires forall c :: 0 <= c < |to| && c !in callers[b] ==> to'[c] == to[c] && next'[c] == next[c]
    requires forall c <- callers[b] :: 0 <= c < |to| && to'[c] == LINK_CODE
    ensures LinksOk(to', next', from[b := NULL], callers[b := []], live)
  {
    assert BlockOk(to, next, from, callers, live, b);
    forall c | c in live
      ensures BlockOk(to', next', from[b := NULL], callers[b := []], live, c)
    {
      assert BlockOk(to, next, from, callers, live, c);
    }
  }

  lemma UnthreadKeeps(to: seq<int>, next: seq<int>, from: seq<int>, callers: seq<seq<int>>, live: set<int>, b: int,
                      t: int, k: nat, next': seq<int>, head: int)
    requires LinksOk(to, next, from, callers, live) && b in live && t in live && to[b] == t != b
    requires k < |callers[t]| && callers[t][k] == b && |next'| == |to|
    requires forall c :: 0 <= c < |to| && c !in callers[t] ==> next'[c] == next[c]
    requires Chain(head, next', Without(callers[t], k))
    ensures LinksOk(to[b := LINK_CODE], next', from[t := head], callers[t := Without(callers[t], k)], live)
  {
    var s := callers[t];
    assert BlockOk(to, next, from, callers, live, t);
    WithoutMembers(s, k);
    forall c | c in live
      ensures BlockOk(to[b := LINK_CODE], next', from[t := head], callers[t := Without(s, k)], live, c)
    {
      assert BlockOk(to, next, from, callers, live, c);
      if c != t {
        assert callers[t := Without(s, k)][c] == callers[c] && from[t := head][c] == from[c];
        assert forall d <- callers[c] :: d !in s && next'[d] == next[d];
      }
    }
  }

  lemma RetireKeeps(to: seq<int>, next: seq<int>, from: seq<int>, callers: seq<seq<int>>, live: set<int>, b: int)
    requires b in live && |to| == |next| && 0 <= b < |to|
    requires LinksOk(to[b := LINK_CODE], next, from, callers, live) && callers[b] == [] && (to[b] == LINK_CODE || 0 <= to[b] < |to|)
    ensures LinksOk(to, next, from, callers, live - {b})
  {
    assert forall c :: 0 <= c < |to| && c != b ==> to[c] == to[b := LINK_CODE][c];
    forall c | c in live - {b}
      ensures BlockOk(to, next, from, callers, live - {b}, c)
    {
      assert BlockOk(to[b := LINK_CODE], next, from, callers, live, c);
      assert BlockOk(to[b := LINK_CODE], next, from, callers, live, b);
    }
  }
}
