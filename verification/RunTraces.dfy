/**
 The way of control through the blocks of the code cache: which jumps were followed,
 and which of them were made on the way.
 */
module RunTraces {
  import opened Chains
  import opened LinkTables
  import opened CodePages

  /** A block is left through jump `ind` with CS:EIP at `offset` of page `p`. */
  datatype Exit = Exit(ind: nat, p: int, offset: nat)

  /** What the two jumps of each block lead to. */
  datatype Jumps = Jumps(zero: seq<int>, one: seq<int>) {
    ghost predicate Sized(n: nat) { |zero| == |one| == n }

    ghost function Of(ind: nat): seq<int> { if ind == 0 then zero else one }

    /** Jump `ind` of `b` leads to `t` now. */
    ghost function To(ind: nat, b: int, t: int): Jumps
      requires 0 <= b < |Of(ind)|
    { if ind == 0 then this.(zero := zero[b := t]) else this.(one := one[b := t]) }
  }

  ghost predicate StartsAt(handler: seq<int>, span: seq<Span>, b: int, page: int, offset: nat) {
    0 <= b < |handler| == |span| && handler[b] == page && span[b].start == offset
  }

  /** The pages, offsets and so on of blocks, and which of them can be entered. */
  datatype Places = Places(handler: seq<int>, span: seq<Span>, live: set<int>) {
    ghost predicate Begins(b: int, page: int, offset: nat) { b in live && StartsAt(handler, span, b, page, offset) }

    ghost predicate BeginsAt(page: int, offset: nat) { exists b {:trigger Begins(b, page, offset)} :: Begins(b, page, offset) }

    /** No two blocks begin at the same place. */
    ghost predicate Single() {
      forall b, c, page, offset {:trigger Begins(b, page, offset), Begins(c, page, offset)} ::
        Begins(b, page, offset) && Begins(c, page, offset) ==> b == c
    }

    /** But for `block`, whatever can be entered here could be entered there, and is as it was. */
    ghost predicate MoreThan(v: Places, block: int) {
      && |handler| == |span| == |v.handler| == |v.span|
      && (forall b <- live :: b != block ==> b in v.live && 0 <= b < |handler| && handler[b] == v.handler[b] && span[b] == v.span[b])
    }

    /** The same, without exception. */
    ghost predicate Within(v: Places) { MoreThan(v, NULL) && NULL !in live }

    ghost predicate Same(v: Places) { Within(v) && live == v.live }
  }

  lemma WithinSingle(v: Places, v': Places)
    requires v.Single() && v'.Within(v)
    ensures v'.Single()
  {
    forall b, c, page, offset {:trigger v'.Begins(b, page, offset), v'.Begins(c, page, offset)}
      | v'.Begins(b, page, offset) && v'.Begins(c, page, offset)
      ensures b == c
    {
      assert v.Begins(b, page, offset) && v.Begins(c, page, offset);
    }
  }

  /** A block that is made where none begins is the only one there. */
  lemma MoreSingle(v: Places, v': Places, block: int, page: int, offset: nat)
    requires v.Single() && v'.MoreThan(v, block) && !v.BeginsAt(page, offset) && v'.Begins(block, page, offset)
    ensures v'.Single()
  {
    forall b, c, p, o {:trigger v'.Begins(b, p, o), v'.Begins(c, p, o)} | v'.Begins(b, p, o) && v'.Begins(c, p, o) ensures b == c {
      assert b != block ==> v.Begins(b, p, o);
      assert c != block ==> v.Begins(c, p, o);
    }
  }

  lemma SameBegins(v: Places, v': Places, page: int, offset: nat)
    requires v'.Same(v) && v.BeginsAt(page, offset)
    ensures v'.BeginsAt(page, offset)
  {
    var b :| v.Begins(b, page, offset);
    assert v'.Begins(b, page, offset);
  }

  /** Exit `k` went through a jump that was not linked when the run began; `before` are the jumps at that time. */
  ghost predicate Unlinked(before: Jumps, exits: seq<Exit>, trace: seq<int>, k: int) {
    0 <= k < |trace| && k < |exits| && 0 <= trace[k] < |before.Of(exits[k].ind)| && before.Of(exits[k].ind)[trace[k]] == LINK_CODE
  }

  /** At exit `k` jump `ind` of `b` was linked to `t`, a block that begins where CS:EIP was. */
  ghost predicate MadeAt(handler: seq<int>, span: seq<Span>, exits: seq<Exit>, trace: seq<int>, ind: nat, b: int, t: int, k: int) {
    && 0 <= k < |trace| - 1 && k < |exits| && trace[k] == b && exits[k].ind == ind && trace[k + 1] == t
    && StartsAt(handler, span, t, exits[k].p, exits[k].offset)
  }

  /** Jump `ind` of block `b` is as before, or it was linked on the way. */
  ghost predicate JumpKept(before: Jumps, jumps: Jumps, handler: seq<int>, span: seq<Span>, exits: seq<Exit>, trace: seq<int>, ind: nat, b: int)
  {
    0 <= b < |before.Of(ind)| && b < |jumps.Of(ind)| &&
    (|| jumps.Of(ind)[b] == before.Of(ind)[b]
     || (before.Of(ind)[b] == LINK_CODE && exists k :: MadeAt(handler, span, exits, trace, ind, b, jumps.Of(ind)[b], k)))
  }

  /** Exit `k` led to the next block of the trace. */
  ghost predicate Hop(jumps: Jumps, exits: seq<Exit>, trace: seq<int>, k: int) {
    && 0 <= k < |trace| - 1 && k < |exits| && exits[k].ind < 2
    && 0 <= trace[k] < |jumps.Of(exits[k].ind)| && jumps.Of(exits[k].ind)[trace[k]] == trace[k + 1]
  }

  /** Each block of the trace was left by the jump of its exit to the next one.  A jump that was linked before led where it
      always did; the others were linked on the way, to blocks that begin at the page and offset of their exits. */
  ghost predicate Followed(n: nat, before: Jumps, jumps: Jumps, handler: seq<int>, span: seq<Span>, exits: seq<Exit>, trace: seq<int>) {
    && before.Sized(n) && jumps.Sized(n) && 1 <= |trace| <= |exits| + 1
    && (forall k {:trigger Hop(jumps, exits, trace, k)} :: 0 <= k < |trace| - 1 ==> Hop(jumps, exits, trace, k))
    && (forall ind: nat, b: int {:trigger JumpKept(before, jumps, handler, span, exits, trace, ind, b)} ::
          ind < 2 && 0 <= b < n ==> JumpKept(before, jumps, handler, span, exits, trace, ind, b))
  }

  /** From live blocks control gets to live blocks only. */
  ghost predicate Rising(live: set<int>, trace: seq<int>) {
    forall k {:trigger trace[k]} :: 0 <= k < |trace| - 1 && trace[k] in live ==> trace[k + 1] in live
  }

  /** No dead block was linked. */
  ghost predicate DeadKept(before: Jumps, exits: seq<Exit>, trace: seq<int>, live: set<int>, n: int) {
    forall k {:trigger trace[k]} :: 0 <= k < n && k < |trace| && trace[k] !in live ==> !Unlinked(before, exits, trace, k)
  }

  lemma {:induction false} AllLive(live: set<int>, trace: seq<int>, k: nat)
    requires Rising(live, trace) && k < |trace| && trace[0] in live
    ensures trace[k] in live
  {
    if k > 0 {
      AllLive(live, trace, k - 1);
      assert trace[k - 1] in live;
    }
  }

  lemma NothingFollowed(n: nat, jumps: Jumps, handler: seq<int>, span: seq<Span>, exits: seq<Exit>, entry: int)
    requires jumps.Sized(n)
    ensures Followed(n, jumps, jumps, handler, span, exits, [entry])
  {
  }

  /** One more exit, by a jump that leads to `target` or is linked to it. */
  lemma FollowedOn(n: nat, before: Jumps, jumps: Jumps, handler: seq<int>, span: seq<Span>, exits: seq<Exit>, trace: seq<int>,
                   e: Exit, b: int, target: int)
    requires Followed(n, before, jumps, handler, span, exits, trace) && |trace| <= |exits| && forall c <- trace :: 0 <= c < n
    requires e == exits[|trace| - 1] && b == trace[|trace| - 1] && e.ind < 2 && 0 <= target < n && 0 <= b < n
    requires jumps.Of(e.ind)[b] == target || (jumps.Of(e.ind)[b] == LINK_CODE && StartsAt(handler, span, target, e.p, e.offset))
    ensures Followed(n, before, jumps.To(e.ind, b, target), handler, span, exits, trace + [target])
  {
    var trace', jumps' := trace + [target], jumps.To(e.ind, b, target);
    forall k {:trigger Hop(jumps', exits, trace', k)} | 0 <= k < |trace'| - 1 ensures Hop(jumps', exits, trace', k) {
      if k < |trace| - 1 {
        assert trace[k] == trace'[k] && trace'[k + 1] == trace[k + 1] && trace[k + 1] in trace;
        assert Hop(jumps, exits, trace, k);
      }
    }
    forall ind: nat, c: int {:trigger JumpKept(before, jumps', handler, span, exits, trace', ind, c)} | ind < 2 && 0 <= c < n
      ensures JumpKept(before, jumps', handler, span, exits, trace', ind, c)
    {
      assert JumpKept(before, jumps, handler, span, exits, trace, ind, c);
      OneJump(before, jumps, handler, span, exits, trace, e, b, target, ind, c);
    }
  }

  lemma OneJump(before: Jumps, jumps: Jumps, handler: seq<int>, span: seq<Span>, exits: seq<Exit>, trace: seq<int>, e: Exit, b: int,
                target: int, ind: nat, c: int)
    requires JumpKept(before, jumps, handler, span, exits, trace, ind, c) && 1 <= |trace| <= |exits| && ind < 2
    requires e == exits[|trace| - 1] && b == trace[|trace| - 1] && e.ind < 2 && 0 <= b < |jumps.Of(e.ind)|
    requires jumps.Of(e.ind)[b] == target || (jumps.Of(e.ind)[b] == LINK_CODE && StartsAt(handler, span, target, e.p, e.offset))
    ensures JumpKept(before, jumps.To(e.ind, b, target), handler, span, exits, trace + [target], ind, c)
  {
    var trace', jumps' := trace + [target], jumps.To(e.ind, b, target);
    if jumps'.Of(ind)[c] != jumps.Of(ind)[c] {
      assert MadeAt(handler, span, exits, trace', ind, c, target, |trace| - 1);
    } else if jumps.Of(ind)[c] != before.Of(ind)[c] {
      var k :| MadeAt(handler, span, exits, trace, ind, c, jumps.Of(ind)[c], k);
      assert MadeAt(handler, span, exits, trace', ind, c, jumps'.Of(ind)[c], k);
    }
  }

  /** Only live blocks were linked on the way, so a jump of a dead one is what it was. */
  lemma DeadJump(n: nat, before: Jumps, jumps: Jumps, handler: seq<int>, span: seq<Span>, exits: seq<Exit>, trace: seq<int>,
                 live: set<int>, ind: nat, b: int)
    requires Followed(n, before, jumps, handler, span, exits, trace) && DeadKept(before, exits, trace, live, |trace| - 1)
    requires ind < 2 && 0 <= b < n && b !in live
    ensures jumps.Of(ind)[b] == before.Of(ind)[b]
  {
    assert JumpKept(before, jumps, handler, span, exits, trace, ind, b);
    if before.Of(ind)[b] == LINK_CODE {
      forall k ensures !MadeAt(handler, span, exits, trace, ind, b, jumps.Of(ind)[b], k) {
        assert 0 <= k < |trace| - 1 && trace[k] == b ==> !Unlinked(before, exits, trace, k);
      }
    }
  }
}
