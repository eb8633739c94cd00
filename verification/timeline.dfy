/** The order of the participant's main timeline, `buildMainTimelineForParticipant`
    (app.js:655-715), with each jsPsych trial reduced to a token. The part
    with logic is the interleaving of the attention checks among the identity
    blocks (app.js:686-708): the first queued check follows block 0, the next
    follows block `floor(n / 2)`, and whatever is still queued follows the last
    block; without blocks the checks simply follow each other. */
module Timeline {
  import opened Seqs

  /** The state of the `forEach` over the blocks: nodes pushed so far and
      the checks still queued. */
  datatype Progress<T> = Progress(out: seq<T>, queue: seq<T>)

  /** One iteration: push the block, then shift one check when the block is
      block 0 or block `floor(count / 2)` and a check is still queued. */
  function Step<T>(p: Progress<T>, block: seq<T>, index: nat, count: nat): Progress<T> {
    var out := p.out + block;
    if |p.queue| > 0 && index == 0 then Progress(out + [p.queue[0]], p.queue[1..])
    else if |p.queue| > 0 && index == count / 2 then Progress(out + [p.queue[0]], p.queue[1..])
    else Progress(out, p.queue)
  }

  /** The state after the first `k` iterations. */
  function Run<T>(blocks: seq<seq<T>>, checks: seq<T>, k: nat): Progress<T>
    requires k <= |blocks|
  {
    if k == 0 then Progress([], checks)
    else Step(Run(blocks, checks, k - 1), blocks[k - 1], k - 1, |blocks|)
  }

  /** app.js:686-708 as written: the loop, then the rest of the queue. */
  function Interleave<T>(blocks: seq<seq<T>>, checks: seq<T>): seq<T> {
    if |blocks| > 0 then
      var p := Run(blocks, checks, |blocks|);
      p.out + p.queue
    else checks
  }

  /** What follows block `i` of `count` in the closed form: check 0 after
      block 0, check 1 after block `floor(count / 2)` when that is not block 0. */
  function Slot<T>(i: nat, count: nat, checks: seq<T>): (r: seq<T>)
    ensures |r| <= 1
  {
    if i == 0 && |checks| >= 1 then [checks[0]]
    else if i > 0 && i == count / 2 && |checks| >= 2 then [checks[1]]
    else []
  }

  /** How many of `m` checks have been placed after the first `k` of `count`
      blocks. */
  function Placed(k: nat, count: nat, m: nat): (r: nat)
    ensures r <= m
  {
    var wanted := (if k >= 1 then 1 else 0) + (if count / 2 > 0 && k > count / 2 then 1 else 0);
    if wanted < m then wanted else m
  }

  /** The first `k` blocks, each followed by its slot. */
  function Spread<T>(blocks: seq<seq<T>>, checks: seq<T>, k: nat): seq<T>
    requires k <= |blocks|
  {
    if k == 0 then [] else Spread(blocks, checks, k - 1) + blocks[k - 1] + Slot(k - 1, |blocks|, checks)
  }

  /** The closed form of the interleaving. */
  function Reference<T>(blocks: seq<seq<T>>, checks: seq<T>): seq<T> {
    if |blocks| == 0 then checks
    else Spread(blocks, checks, |blocks|) + checks[Placed(|blocks|, |blocks|, |checks|)..]
  }

  /** After `k` iterations the loop has pushed the first `k` blocks with their
      slots and the queue holds exactly the checks not yet placed. */
  lemma {:induction false} RunIsSpread<T>(blocks: seq<seq<T>>, checks: seq<T>, k: nat)
    requires k <= |blocks|
    ensures Run(blocks, checks, k) == Progress(Spread(blocks, checks, k), checks[Placed(k, |blocks|, |checks|)..])
  {
    if k > 0 {
      RunIsSpread(blocks, checks, k - 1);
      var n, m, i := |blocks|, |checks|, k - 1;
      var q := checks[Placed(i, n, m)..];
      if i == 0 {
        assert q == checks;
      } else if i == n / 2 {
        if |q| > 0 {
          assert Placed(i, n, m) == 1;
          assert q[0] == checks[1];
          assert q[1..] == checks[2..];
        }
      }
    }
  }

  /** The loop and the closed form agree. */
  lemma InterleaveIsReference<T>(blocks: seq<seq<T>>, checks: seq<T>)
    ensures Interleave(blocks, checks) == Reference(blocks, checks)
  {
    if |blocks| > 0 {
      RunIsSpread(blocks, checks, |blocks|);
    }
  }

  /** The `forEach` written as a loop over the blocks. */
  method InterleaveLoop<T>(blocks: seq<seq<T>>, checks: seq<T>) returns (timeline: seq<T>)
    ensures timeline == Reference(blocks, checks)
  {
    if |blocks| == 0 {
      return checks;
    }
    timeline := [];
    var queue := checks;
    var index := 0;
    while index < |blocks|
      invariant index <= |blocks|
      invariant Run(blocks, checks, index) == Progress(timeline, queue)
    {
      timeline := timeline + blocks[index];
      if |queue| > 0 && index == 0 {
        timeline := timeline + [queue[0]];
        queue := queue[1..];
      } else if |queue| > 0 && index == |blocks| / 2 {
        timeline := timeline + [queue[0]];
        queue := queue[1..];
      }
      index := index + 1;
    }
    RunIsSpread(blocks, checks, |blocks|);
    timeline := timeline + queue;
  }

  ghost predicate AllMatch<T>(f: T -> bool, s: seq<T>) {
    forall i :: 0 <= i < |s| ==> f(s[i])
  }

  ghost predicate NoneMatch<T>(f: T -> bool, s: seq<T>) {
    forall i :: 0 <= i < |s| ==> !f(s[i])
  }

  /** `isCheck` holds of the checks and of no block node; `isBlock` holds of
      every block node and of no check. */
  ghost predicate Separated<T>(blocks: seq<seq<T>>, checks: seq<T>, isCheck: T -> bool, isBlock: T -> bool) {
    && AllMatch(isCheck, checks)
    && NoneMatch(isBlock, checks)
    && (forall j :: 0 <= j < |blocks| ==> AllMatch(isBlock, blocks[j]) && NoneMatch(isCheck, blocks[j]))
  }

  /** The slot of block `i` holds exactly the checks placed by that block. */
  lemma SlotIsNext<T>(i: nat, n: nat, checks: seq<T>)
    requires i < n
    ensures Placed(i, n, |checks|) <= Placed(i + 1, n, |checks|)
    ensures checks[..Placed(i, n, |checks|)] + Slot(i, n, checks) == checks[..Placed(i + 1, n, |checks|)]
  {
    var m := |checks|;
    if i == 0 {
      assert Placed(i, n, m) == 0;
      if m >= 1 {
        assert checks[..1] == [checks[0]];
      }
    } else if i == n / 2 && m >= 2 {
      assert Placed(i, n, m) == 1;
      assert checks[..2] == checks[..1] + [checks[1]];
    }
  }

  /** The slot of a block only holds checks. */
  lemma SlotOfChecks<T>(i: nat, n: nat, checks: seq<T>, isCheck: T -> bool, isBlock: T -> bool)
    requires AllMatch(isCheck, checks) && NoneMatch(isBlock, checks)
    ensures AllMatch(isCheck, Slot(i, n, checks)) && NoneMatch(isBlock, Slot(i, n, checks))
  {
  }

  /** One block and its slot appended to a spread: the checks seen grow by
      the slot. */
  lemma ChecksStep<T>(s: seq<T>, block: seq<T>, slot: seq<T>, isCheck: T -> bool)
    requires NoneMatch(isCheck, block) && AllMatch(isCheck, slot)
    ensures Filter(isCheck, s + block + slot) == Filter(isCheck, s) + slot
  {
    assert Filter(isCheck, s + block) == Filter(isCheck, s) by {
      FilterAppend(isCheck, s, block);
      FilterNone(isCheck, block);
    }
    assert Filter(isCheck, s + block + slot) == Filter(isCheck, s + block) + slot by {
      FilterAppend(isCheck, s + block, slot);
      FilterAll(isCheck, slot);
    }
  }

  /** One block and its slot appended to a spread: the block nodes seen grow
      by the block. */
  lemma BlocksStep<T>(s: seq<T>, block: seq<T>, slot: seq<T>, isBlock: T -> bool)
    requires AllMatch(isBlock, block) && NoneMatch(isBlock, slot)
    ensures Filter(isBlock, s + block + slot) == Filter(isBlock, s) + block
  {
    assert Filter(isBlock, s + block) == Filter(isBlock, s) + block by {
      FilterAppend(isBlock, s, block);
      FilterAll(isBlock, block);
    }
    assert Filter(isBlock, s + block + slot) == Filter(isBlock, s + block) by {
      FilterAppend(isBlock, s + block, slot);
      FilterNone(isBlock, slot);
    }
  }

  /** The checks placed by the first `k` blocks are the first `Placed` of
      them, in order. */
  lemma {:induction false} SpreadChecks<T>(blocks: seq<seq<T>>, checks: seq<T>, k: nat, isCheck: T -> bool, isBlock: T -> bool)
    requires k <= |blocks|
    requires Separated(blocks, checks, isCheck, isBlock)
    ensures Filter(isCheck, Spread(blocks, checks, k)) == checks[..Placed(k, |blocks|, |checks|)]
  {
    if k > 0 {
      SpreadChecks(blocks, checks, k - 1, isCheck, isBlock);
      SpreadChecksStep(blocks, checks, k, isCheck, isBlock);
    }
  }

  lemma SpreadChecksStep<T>(blocks: seq<seq<T>>, checks: seq<T>, k: nat, isCheck: T -> bool, isBlock: T -> bool)
    requires 0 < k <= |blocks|
    requires Separated(blocks, checks, isCheck, isBlock)
    requires Filter(isCheck, Spread(blocks, checks, k - 1)) == checks[..Placed(k - 1, |blocks|, |checks|)]
    ensures Filter(isCheck, Spread(blocks, checks, k)) == checks[..Placed(k, |blocks|, |checks|)]
  {
    var i := k - 1;
    var prev := Spread(blocks, checks, i);
    var slot := Slot(i, |blocks|, checks);
    assert Filter(isCheck, Spread(blocks, checks, k)) == Filter(isCheck, prev) + slot by {
      assert Spread(blocks, checks, k) == prev + blocks[i] + slot;
      assert NoneMatch(isCheck, blocks[i]);
      SlotOfChecks(i, |blocks|, checks, isCheck, isBlock);
      ChecksStep(prev, blocks[i], slot, isCheck);
    }
    SlotIsNext(i, |blocks|, checks);
  }

  /** The block nodes of the first `k` blocks keep their blocks' order. */
  lemma {:induction false} SpreadBlocks<T>(blocks: seq<seq<T>>, checks: seq<T>, k: nat, isCheck: T -> bool, isBlock: T -> bool)
    requires k <= |blocks|
    requires Separated(blocks, checks, isCheck, isBlock)
    ensures Filter(isBlock, Spread(blocks, checks, k)) == Flatten(blocks[..k])
  {
    if k > 0 {
      SpreadBlocks(blocks, checks, k - 1, isCheck, isBlock);
      SpreadBlocksStep(blocks, checks, k, isCheck, isBlock);
    }
  }

  lemma SpreadBlocksStep<T>(blocks: seq<seq<T>>, checks: seq<T>, k: nat, isCheck: T -> bool, isBlock: T -> bool)
    requires 0 < k <= |blocks|
    requires Separated(blocks, checks, isCheck, isBlock)
    requires Filter(isBlock, Spread(blocks, checks, k - 1)) == Flatten(blocks[..k - 1])
    ensures Filter(isBlock, Spread(blocks, checks, k)) == Flatten(blocks[..k])
  {
    var i := k - 1;
    assert Filter(isBlock, Spread(blocks, checks, k)) == Filter(isBlock, Spread(blocks, checks, i)) + blocks[i] by {
      SlotOfChecks(i, |blocks|, checks, isCheck, isBlock);
      BlocksStep(Spread(blocks, checks, i), blocks[i], Slot(i, |blocks|, checks), isBlock);
    }
    FlattenPrefix(blocks, k);
  }

  /** Every check appears exactly once and in its original order. */
  lemma InterleaveChecks<T>(blocks: seq<seq<T>>, checks: seq<T>, isCheck: T -> bool, isBlock: T -> bool)
    requires Separated(blocks, checks, isCheck, isBlock)
    ensures Filter(isCheck, Interleave(blocks, checks)) == checks
  {
    InterleaveIsReference(blocks, checks);
    if |blocks| == 0 {
      FilterAll(isCheck, checks);
    } else {
      var n := |blocks|;
      SpreadChecks(blocks, checks, n, isCheck, isBlock);
      RestChecks(Spread(blocks, checks, n), checks, Placed(n, n, |checks|), isCheck);
    }
  }

  /** The checks still queued after the loop complete the ones placed. */
  lemma RestChecks<T>(spread: seq<T>, checks: seq<T>, placed: nat, isCheck: T -> bool)
    requires placed <= |checks|
    requires AllMatch(isCheck, checks)
    requires Filter(isCheck, spread) == checks[..placed]
    ensures Filter(isCheck, spread + checks[placed..]) == checks
  {
    assert Filter(isCheck, spread + checks[placed..]) == Filter(isCheck, spread) + checks[placed..] by {
      FilterAppend(isCheck, spread, checks[placed..]);
      FilterAll(isCheck, checks[placed..]);
    }
    assert checks[..placed] + checks[placed..] == checks;
  }

  /** The identity blocks keep their nodes and their order. */
  lemma InterleaveBlocks<T>(blocks: seq<seq<T>>, checks: seq<T>, isCheck: T -> bool, isBlock: T -> bool)
    requires Separated(blocks, checks, isCheck, isBlock)
    ensures Filter(isBlock, Interleave(blocks, checks)) == Flatten(blocks)
  {
    InterleaveIsReference(blocks, checks);
    if |blocks| == 0 {
      FilterNone(isBlock, checks);
    } else {
      var n := |blocks|;
      var placed := Placed(n, n, |checks|);
      var spread := Spread(blocks, checks, n);
      assert Filter(isBlock, spread + checks[placed..]) == Filter(isBlock, spread) by {
        FilterAppend(isBlock, spread, checks[placed..]);
        FilterNone(isBlock, checks[placed..]);
      }
      SpreadBlocks(blocks, checks, n, isCheck, isBlock);
      assert blocks[..n] == blocks;
    }
  }

  ghost predicate IsPrefix<T>(p: seq<T>, s: seq<T>) {
    |p| <= |s| && s[..|p|] == p
  }

  /** The first check comes right after block 0. */
  lemma InterleaveFirstCheck<T>(blocks: seq<seq<T>>, checks: seq<T>)
    requires |blocks| >= 1 && |checks| >= 1
    ensures IsPrefix(blocks[0] + [checks[0]], Interleave(blocks, checks))
  {
    SpreadIsPrefix(blocks, checks, 1);
    assert Spread(blocks, checks, 1) == blocks[0] + [checks[0]] by {
      assert Spread(blocks, checks, 0) == [];
    }
  }

  /** The second check comes right after block `floor(n / 2)` when there are
      at least two blocks: what precedes it is the blocks before that one,
      each with its slot, and then that block. */
  lemma InterleaveSecondCheck<T>(blocks: seq<seq<T>>, checks: seq<T>)
    requires |blocks| >= 2 && |checks| >= 2
    ensures var h := |blocks| / 2;
      IsPrefix(Spread(blocks, checks, h) + blocks[h] + [checks[1]], Interleave(blocks, checks))
  {
    var h := |blocks| / 2;
    Half(|blocks|);
    SpreadIsPrefix(blocks, checks, h + 1);
    SecondSlot(blocks, checks, h);
  }

  lemma Half(n: nat)
    requires n >= 2
    ensures 1 <= n / 2 < n
  {
  }

  lemma SecondSlot<T>(blocks: seq<seq<T>>, checks: seq<T>, h: nat)
    requires h == |blocks| / 2 && 1 <= h < |blocks| && |checks| >= 2
    ensures Spread(blocks, checks, h + 1) == Spread(blocks, checks, h) + blocks[h] + [checks[1]]
  {
    assert Slot(h, |blocks|, checks) == [checks[1]];
  }

  /** Every spread of the first `k` blocks starts the interleaving. */
  lemma SpreadIsPrefix<T>(blocks: seq<seq<T>>, checks: seq<T>, k: nat)
    requires 0 < |blocks| && k <= |blocks|
    ensures IsPrefix(Spread(blocks, checks, k), Interleave(blocks, checks))
  {
    var n := |blocks|;
    var p := Spread(blocks, checks, k);
    var whole := Spread(blocks, checks, n);
    var rest := checks[Placed(n, n, |checks|)..];
    InterleaveIsReference(blocks, checks);
    SpreadPrefix(blocks, checks, k, n);
    assert (whole + rest)[..|p|] == whole[..|p|];
  }

  /** A shorter spread is a prefix of a longer one. */
  lemma {:induction false} SpreadPrefix<T>(blocks: seq<seq<T>>, checks: seq<T>, j: nat, k: nat)
    requires j <= k <= |blocks|
    ensures |Spread(blocks, checks, j)| <= |Spread(blocks, checks, k)|
    ensures Spread(blocks, checks, k)[..|Spread(blocks, checks, j)|] == Spread(blocks, checks, j)
    decreases k
  {
    if j < k {
      SpreadPrefix(blocks, checks, j, k - 1);
    }
  }

  /** With a single block both checks follow it; with none they are all
      there is. */
  lemma InterleaveFewBlocks<T>(b: seq<T>, c0: T, c1: T)
    ensures Interleave([b], [c0, c1]) == b + [c0, c1]
    ensures Interleave([], [c0, c1]) == [c0, c1]
  {
    InterleaveIsReference([b], [c0, c1]);
    assert Spread([b], [c0, c1], 1) == b + [c0];
  }

  /** With two blocks or more, two checks are both placed inside the block
      sequence: nothing is left for the end. */
  lemma InterleaveTwoChecksPlaced<T>(blocks: seq<seq<T>>, c0: T, c1: T)
    requires |blocks| >= 2
    ensures Interleave(blocks, [c0, c1]) == Spread(blocks, [c0, c1], |blocks|)
  {
    InterleaveIsReference(blocks, [c0, c1]);
  }

  /** The nodes of the main timeline. Each jsPsych trial, or group of trials
      built by one helper, is one token; `Identity(i)` stands for the nodes
      `createIdentityTimeline` builds for identity block `i`. */
  datatype Node =
    | Preload
    | TrainingBlock
    | ComprehensionCheck
    | Identity(index: nat)
    | InstructionalTrial
    | ObviousPairTrial
    | Demographics
    | Debrief
    | ExportPrompt

  predicate IsAttention(n: Node) {
    n.InstructionalTrial? || n.ObviousPairTrial?
  }

  predicate IsIdentity(n: Node) {
    n.Identity?
  }

  /** The attention trials in the order `buildAttentionConfig` lists them. */
  const AttentionTrials: seq<Node> := [InstructionalTrial, ObviousPairTrial]

  /** One token per identity block, in plan order. */
  function IdentityTokens(count: nat): (r: seq<Node>)
    ensures |r| == count
  {
    seq(count, i requires 0 <= i < count => Identity(i))
  }

  function IdentityBlocks(count: nat): (r: seq<seq<Node>>)
    ensures |r| == count
  {
    seq(count, i requires 0 <= i < count => [Identity(i)])
  }

  /** `buildMainTimelineForParticipant(plan)` for a plan with `blockCount`
      identity blocks. The configuration always carries both an instructional
      check and an obvious pair, so both attention trials are queued. */
  function MainTimeline(hasPreload: bool, blockCount: nat): seq<Node> {
    Opening(hasPreload) + Interleave(IdentityBlocks(blockCount), AttentionTrials) + Closing
  }

  /** What precedes the identity blocks: the preload node when there are
      images to preload, the training trials and the comprehension check. */
  function Opening(hasPreload: bool): seq<Node> {
    (if hasPreload then [Preload] else []) + [TrainingBlock, ComprehensionCheck]
  }

  /** What follows them: demographics, debrief and the export prompt. */
  const Closing: seq<Node> := [Demographics, Debrief, ExportPrompt]

  /** Neither end holds an attention trial or an identity block. */
  lemma EndsHoldNeither(hasPreload: bool)
    ensures NoneMatch(IsAttention, Opening(hasPreload)) && NoneMatch(IsIdentity, Opening(hasPreload))
    ensures NoneMatch(IsAttention, Closing) && NoneMatch(IsIdentity, Closing)
  {
  }

  lemma BlocksSeparated(blockCount: nat)
    ensures Separated(IdentityBlocks(blockCount), AttentionTrials, IsAttention, IsIdentity)
  {
    var blocks := IdentityBlocks(blockCount);
    forall j | 0 <= j < |blocks|
      ensures AllMatch(IsIdentity, blocks[j]) && NoneMatch(IsAttention, blocks[j])
    {
      assert blocks[j] == [Identity(j)];
    }
  }

  /** The interleaved part of the main timeline holds the two attention
      trials in order and the identity blocks in order. */
  lemma InterleavedParts(blockCount: nat)
    ensures Filter(IsAttention, Interleave(IdentityBlocks(blockCount), AttentionTrials)) == AttentionTrials
    ensures Filter(IsIdentity, Interleave(IdentityBlocks(blockCount), AttentionTrials)) == Flatten(IdentityBlocks(blockCount))
  {
    BlocksSeparated(blockCount);
    InterleaveChecks(IdentityBlocks(blockCount), AttentionTrials, IsAttention, IsIdentity);
    InterleaveBlocks(IdentityBlocks(blockCount), AttentionTrials, IsAttention, IsIdentity);
  }

  /** Filtering past a head and a tail that hold no match. */
  lemma FilterFramed<T>(f: T -> bool, head: seq<T>, mid: seq<T>, tail: seq<T>)
    requires NoneMatch(f, head) && NoneMatch(f, tail)
    ensures Filter(f, head + mid + tail) == Filter(f, mid)
  {
    assert Filter(f, head + mid) == Filter(f, mid) by {
      FilterAppend(f, head, mid);
      FilterNone(f, head);
    }
    assert Filter(f, head + mid + tail) == Filter(f, head + mid) by {
      FilterAppend(f, head + mid, tail);
      FilterNone(f, tail);
    }
  }

  /** The main timeline holds both attention trials once each, instructional
      first. */
  lemma MainTimelineAttention(hasPreload: bool, blockCount: nat)
    ensures Filter(IsAttention, MainTimeline(hasPreload, blockCount)) == AttentionTrials
  {
    InterleavedParts(blockCount);
    EndsHoldNeither(hasPreload);
    FilterFramed(IsAttention, Opening(hasPreload), Interleave(IdentityBlocks(blockCount), AttentionTrials), Closing);
  }

  /** The main timeline holds every identity block once, in plan order. */
  lemma MainTimelineIdentities(hasPreload: bool, blockCount: nat)
    ensures Filter(IsIdentity, MainTimeline(hasPreload, blockCount)) == IdentityTokens(blockCount)
  {
    InterleavedParts(blockCount);
    EndsHoldNeither(hasPreload);
    FilterFramed(IsIdentity, Opening(hasPreload), Interleave(IdentityBlocks(blockCount), AttentionTrials), Closing);
    FlattenSingletons(blockCount);
  }

  /** `[[Identity(0)], …, [Identity(n - 1)]]` flattens to the tokens in order. */
  lemma {:induction false} FlattenSingletons(n: nat)
    ensures Flatten(IdentityBlocks(n)) == IdentityTokens(n)
  {
    if n > 0 {
      FlattenSingletons(n - 1);
      assert IdentityBlocks(n)[..n - 1] == IdentityBlocks(n - 1);
      assert IdentityTokens(n) == IdentityTokens(n - 1) + [Identity(n - 1)];
    }
  }
}
