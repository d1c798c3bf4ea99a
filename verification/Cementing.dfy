/**
  Cementing: a depth-first search over the dependencies of a target block. The search keeps at most
  `maxBlocks` hashes on its stack and forgets the bottom one when it grows beyond that.
 */
module Cementing {
  import opened Types
  import opened Blocks
  import opened LedgerStore

  // ---------------------------------------------------------------------------------------------
  // The dependency cone of a block

  ghost predicate IsPath(cat: Catalog, p: seq<Hash>) {
    |p| > 0 && forall i | 0 <= i < |p| - 1 :: cat.Depends(p[i], p[i + 1])
  }

  /** `h` is `target` or one of the blocks it directly or indirectly depends on. */
  ghost predicate Reaches(cat: Catalog, target: Hash, h: Hash) {
    exists p :: IsPath(cat, p) && p[0] == target && p[|p| - 1] == h
  }

  lemma ReachesSelf(cat: Catalog, h: Hash)
    ensures Reaches(cat, h, h)
  {
    assert IsPath(cat, [h]);
  }

  lemma ReachesStep(cat: Catalog, target: Hash, h: Hash, d: Hash)
    requires Reaches(cat, target, h) && cat.Depends(h, d)
    ensures Reaches(cat, target, d)
  {
    var p :| IsPath(cat, p) && p[0] == target && p[|p| - 1] == h;
    assert IsPath(cat, p + [d]);
  }

  lemma {:induction false} PathKnown(cat: Catalog, t: Tables, p: seq<Hash>)
    requires KnownClosed(cat, t) && IsPath(cat, p) && Known(t, p[0])
    ensures Known(t, p[|p| - 1])
  {
    if |p| > 1 {
      assert cat.Depends(p[0], p[1]);
      PathKnown(cat, t, p[1..]);
    }
  }

  /** The whole cone of a known block is known. */
  lemma ReachesKnown(cat: Catalog, t: Tables, target: Hash, h: Hash)
    requires KnownClosed(cat, t) && Known(t, target) && Reaches(cat, target, h)
    ensures Known(t, h)
  {
    var p :| IsPath(cat, p) && p[0] == target && p[|p| - 1] == h;
    PathKnown(cat, t, p);
  }

  ghost function UnconfirmedCone(cat: Catalog, t: Tables, target: Hash): set<Hash> {
    set h | h in t.blocks && !Confirmed(cat, t, h) && Reaches(cat, target, h)
  }

  /** As long as the target is stored, the blocks of its cone are known, and those not confirmed are stored. */
  lemma ConeMember(cat: Catalog, t: Tables, target: Hash, h: Hash)
    requires Sound(cat, t) && target in t.blocks && Reaches(cat, target, h)
    ensures h in UnconfirmedCone(cat, t, target) <==> h !in ConfirmedSet(cat, t)
  {
    ReachesKnown(cat, t, target, h);
    assert h in t.pruned ==> Confirmed(cat, t, h);
  }

  /** Dependencies rank below the blocks of the cone that need them. This says nothing about the tables. */
  ghost predicate ConeRanked(cat: Catalog, rank: map<Hash, nat>, target: Hash) {
    forall h {:trigger Reaches(cat, target, h)} | Reaches(cat, target, h) ::
      h in rank && forall d {:trigger cat.Depends(h, d)} | cat.Depends(h, d) :: d in rank && rank[d] < rank[h]
  }

  lemma ConeIsRanked(cat: Catalog, t: Tables, rank: map<Hash, nat>, target: Hash)
    requires Consistent(cat, t, rank) && Known(t, target)
    ensures ConeRanked(cat, rank, target)
  {
    forall h | Reaches(cat, target, h)
      ensures h in rank && forall d | cat.Depends(h, d) :: d in rank && rank[d] < rank[h]
    {
      ReachesKnown(cat, t, target, h);
    }
  }

  // ---------------------------------------------------------------------------------------------
  // What the stack holds

  ghost predicate OnStack(cat: Catalog, t: Tables, target: Hash, h: Hash) {
    h in t.blocks && Reaches(cat, target, h)
  }

  ghost predicate StackOk(cat: Catalog, t: Tables, target: Hash, stack: seq<Hash>) {
    forall i {:trigger stack[i]} | 0 <= i < |stack| :: OnStack(cat, t, target, stack[i])
  }

  predicate UnconfirmedDependency(cat: Catalog, t: Tables, h: Hash, d: Hash) {
    cat.Depends(h, d) && !Confirmed(cat, t, d)
  }

  lemma DependencyOnStack(cat: Catalog, t: Tables, target: Hash, h: Hash, d: Hash)
    requires Sound(cat, t) && OnStack(cat, t, target, h) && UnconfirmedDependency(cat, t, h, d)
    ensures OnStack(cat, t, target, d) && !Confirmed(cat, t, h)
  {
    ReachesStep(cat, target, h, d);
    assert d in t.pruned ==> Confirmed(cat, t, d);
  }

  function Last(s: seq<Hash>): Hash
    requires s != []
  {
    s[|s| - 1]
  }

  /** The dependencies of the top that are not confirmed yet go on the stack, the linked block last. */
  method PushDependencies(cat: Catalog, t: Tables, ghost target: Hash, stack: seq<Hash>, maxBlocks: nat)
    returns (stack': seq<Hash>, ghost pushed: bool)
    requires Sound(cat, t) && stack != [] && StackOk(cat, t, target, stack)
    ensures stack' != [] && StackOk(cat, t, target, stack')
    ensures if pushed then UnconfirmedDependency(cat, t, Last(stack), Last(stack')) else stack' == stack
    ensures !pushed ==> forall d | cat.Depends(Last(stack), d) :: Confirmed(cat, t, d)
    ensures forall h | h in stack' :: h in stack || UnconfirmedDependency(cat, t, Last(stack), h)
    ensures |stack| + 2 <= maxBlocks ==> Extends(cat, t, stack, stack', 2)
    ensures |stack'| <= |stack| || |stack'| <= maxBlocks
  {
    var hash := Last(stack);
    var pair := t.blocks[hash].DependentBlocks(cat.constants);
    var dependents := [pair.0, pair.1];
    stack', pushed := stack, false;
    for i := 0 to 2
      invariant stack' != [] && StackOk(cat, t, target, stack')
      invariant if pushed then UnconfirmedDependency(cat, t, hash, Last(stack')) else stack' == stack
      invariant !pushed ==> forall j | 0 <= j < i :: dependents[j] == 0 || Confirmed(cat, t, dependents[j])
      invariant forall h | h in stack' :: h in stack || UnconfirmedDependency(cat, t, hash, h)
      invariant |stack| + 2 <= maxBlocks ==> Extends(cat, t, stack, stack', i)
      invariant |stack'| <= |stack| || |stack'| <= maxBlocks
    {
      var d := dependents[i];
      if d != 0 {
        assert cat.Depends(hash, d);
        ConfirmedReadsBack(cat, t, d);
        if !ConfirmedExistsOrPruned(t, d) {
          DependencyOnStack(cat, t, target, hash, d);
          stack', pushed := stack' + [d], true;
          if |stack'| > maxBlocks {
            stack' := stack'[1..];
          }
        }
      }
    }
    assert !pushed ==> forall d | cat.Depends(hash, d) :: d == dependents[0] || d == dependents[1];
  }

  /** Nothing was forgotten: `stack'` is `stack` with at most `n` unconfirmed dependencies of its top added. */
  ghost predicate Extends(cat: Catalog, t: Tables, stack: seq<Hash>, stack': seq<Hash>, n: nat)
    requires stack != []
  {
    && |stack| <= |stack'| <= |stack| + n
    && stack'[..|stack|] == stack
    && forall i | |stack| <= i < |stack'| :: UnconfirmedDependency(cat, t, Last(stack), stack'[i])
  }

  // ---------------------------------------------------------------------------------------------
  // What has been cemented so far

  function Elements(s: seq<Hash>): set<Hash> { set h | h in s }

  /** `h` may follow `before`: it is in the cone, newly cemented, and everything it needs came earlier. */
  ghost predicate InOrder(cat: Catalog, t0: Tables, target: Hash, before: seq<Hash>, h: Hash) {
    && Reaches(cat, target, h)
    && h !in ConfirmedSet(cat, t0)
    && h !in before
    && forall d {:trigger cat.Depends(h, d)} | cat.Depends(h, d) :: d in ConfirmedSet(cat, t0) || d in before
  }

  ghost predicate Progress(cat: Catalog, t0: Tables, t: Tables, target: Hash, result: seq<Hash>) {
    && ConfirmedSet(cat, t) == ConfirmedSet(cat, t0) + Elements(result)
    && (forall i | 0 <= i < |result| :: InOrder(cat, t0, target, result[..i], result[i]))
    && HeightTotal(t.heights) == HeightTotal(t0.heights) + |result|
    && t.pruned == t0.pruned
  }

  lemma ProgressStep(cat: Catalog, t0: Tables, t: Tables, target: Hash, result: seq<Hash>, h: Hash)
    requires Sound(cat, t) && Progress(cat, t0, t, target, result)
    requires h in t.blocks && !Confirmed(cat, t, h) && Reaches(cat, target, h)
    requires forall d | cat.Depends(h, d) :: Confirmed(cat, t, d)
    ensures Progress(cat, t0, CementIn(t, h), target, result + [h])
  {
    CementConfirms(cat, t, h);
    CementHeights(cat, t, h);
    var result' := result + [h];
    assert Elements(result') == Elements(result) + {h};
    assert InOrder(cat, t0, target, result, h) by {
      assert h !in ConfirmedSet(cat, t);
      forall d | cat.Depends(h, d)
        ensures d in ConfirmedSet(cat, t0) || d in result
      {
        assert d in ConfirmedSet(cat, t);
      }
    }
    forall i | 0 <= i < |result'|
      ensures InOrder(cat, t0, target, result'[..i], result'[i])
    {
      if i < |result| {
        assert result'[..i] == result[..i];
      } else {
        assert result'[..i] == result;
      }
    }
  }

  lemma ProgressRefresh(cat: Catalog, t0: Tables, t: Tables, t': Tables, target: Hash, result: seq<Hash>)
    requires Progress(cat, t0, t, target, result) && SameProgress(cat, t, t')
    ensures Progress(cat, t0, t', target, result)
  {
  }

  // ---------------------------------------------------------------------------------------------
  // The search never needs more than two stack entries per unconfirmed block of the cone

  /**
    `path` lists the stack positions of the blocks whose dependencies were pushed and are still
    being worked on. Everything above such a block was saved before it.
   */
  ghost predicate Tower(cat: Catalog, t: Tables, rank: map<Hash, nat>, stack: seq<Hash>, path: seq<nat>) {
    && |stack| <= 2 * |path| + 1
    && (forall i | 0 <= i < |path| :: path[i] <= 2 * i && Opened(cat, t, rank, stack, path[i]))
    && (forall i, j | 0 <= i < j < |path| :: path[i] < path[j])
  }

  ghost predicate Opened(cat: Catalog, t: Tables, rank: map<Hash, nat>, stack: seq<Hash>, p: nat) {
    && p < |stack| && stack[p] in rank && !Confirmed(cat, t, stack[p])
    && forall k | p < k < |stack| :: stack[k] in rank && rank[stack[k]] < rank[stack[p]]
  }

  function PathAfterPush(path: seq<nat>, top: nat): seq<nat> {
    if path != [] && path[|path| - 1] == top then path else path + [top]
  }

  function PathAfterPop(path: seq<nat>, top: nat): seq<nat> {
    if path != [] && path[|path| - 1] == top then path[..|path| - 1] else path
  }

  /** The top may be counted among the blocks being worked on. */
  lemma TowerTop(cat: Catalog, t: Tables, rank: map<Hash, nat>, stack: seq<Hash>, path: seq<nat>)
    requires stack != [] && Tower(cat, t, rank, stack, path)
    requires Last(stack) in rank && !Confirmed(cat, t, Last(stack))
    ensures var path' := PathAfterPush(path, |stack| - 1);
            && |stack| <= 2 * |path'| - 1 && Tower(cat, t, rank, stack, path')
            && path' != [] && path'[|path'| - 1] == |stack| - 1
  {
    hide Confirmed;
    var top, last := |stack| - 1, |path| - 1;
    assert Opened(cat, t, rank, stack, top);
    assert path != [] ==> Opened(cat, t, rank, stack, path[last]);
    hide Opened;
    if path == [] || path[last] != top {
      var path' := path + [top];
      forall i | 0 <= i < |path'|
        ensures path'[i] <= 2 * i && Opened(cat, t, rank, stack, path'[i])
      {
        if i < |path| { assert path'[i] == path[i]; }
      }
      forall i, j | 0 <= i < j < |path'|
        ensures path'[i] < path'[j]
      {
        assert path'[i] == path[i];
        if j < |path| { assert path'[j] == path[j]; } else { BelowTop(path, top, i); }
      }
    }
  }

  lemma BelowTop(path: seq<nat>, top: nat, i: nat)
    requires i < |path| && path[|path| - 1] < top
    requires forall i, j | 0 <= i < j < |path| :: path[i] < path[j]
    ensures path[i] < top
  {
  }

  lemma OpenedPush(cat: Catalog, t: Tables, rank: map<Hash, nat>, stack: seq<Hash>, stack': seq<Hash>, p: nat)
    requires stack != [] && Opened(cat, t, rank, stack, p) && Extends(cat, t, stack, stack', 2)
    requires Last(stack) in rank
    requires forall d | UnconfirmedDependency(cat, t, Last(stack), d) :: d in rank && rank[d] < rank[Last(stack)]
    ensures Opened(cat, t, rank, stack', p)
  {
    hide Confirmed;
    assert forall k | 0 <= k < |stack| :: stack'[k] == stack'[..|stack|][k] == stack[k];
    forall k | p < k < |stack'|
      ensures stack'[k] in rank && rank[stack'[k]] < rank[stack[p]]
    {
      if k >= |stack| {
        assert UnconfirmedDependency(cat, t, Last(stack), stack'[k]);
        assert p < |stack| - 1 ==> rank[stack[|stack| - 1]] < rank[stack[p]];
      }
    }
  }

  lemma TowerPush(cat: Catalog, t: Tables, rank: map<Hash, nat>, stack: seq<Hash>, path: seq<nat>, stack': seq<Hash>)
    requires stack != [] && Tower(cat, t, rank, stack, path) && Extends(cat, t, stack, stack', 2)
    requires Last(stack) in rank && !Confirmed(cat, t, Last(stack))
    requires forall d | UnconfirmedDependency(cat, t, Last(stack), d) :: d in rank && rank[d] < rank[Last(stack)]
    ensures Tower(cat, t, rank, stack', PathAfterPush(path, |stack| - 1))
  {
    hide Confirmed, Opened, PathAfterPush;
    TowerTop(cat, t, rank, stack, path);
    var path' := PathAfterPush(path, |stack| - 1);
    forall i | 0 <= i < |path'|
      ensures Opened(cat, t, rank, stack', path'[i])
    {
      OpenedPush(cat, t, rank, stack, stack', path'[i]);
    }
  }

  lemma OpenedPop(cat: Catalog, t: Tables, t': Tables, rank: map<Hash, nat>, stack: seq<Hash>, p: nat)
    requires stack != [] && p < |stack| - 1 && Opened(cat, t, rank, stack, p)
    requires forall h | h != Last(stack) && h in stack && !Confirmed(cat, t, h) :: !Confirmed(cat, t', h)
    ensures Opened(cat, t', rank, stack[..|stack| - 1], p)
  {
    hide Confirmed;
    assert stack[p] in stack && rank[stack[|stack| - 1]] < rank[stack[p]];
  }

  lemma PathPopped(path: seq<nat>, top: nat)
    requires path != [] ==> path[|path| - 1] <= top
    requires forall i, j | 0 <= i < j < |path| :: path[i] < path[j]
    ensures var path' := PathAfterPop(path, top);
            && path' <= path && |path'| >= |path| - 1 && (|path'| < |path| ==> path[|path'|] == top)
            && forall i | 0 <= i < |path'| :: path'[i] < top
  {
    forall i | 0 <= i < |PathAfterPop(path, top)|
      ensures path[i] < top
    {
      assert i < |path| - 1 ==> path[i] < path[|path| - 1];
    }
  }

  lemma TowerPop(cat: Catalog, t: Tables, t': Tables, rank: map<Hash, nat>, stack: seq<Hash>, path: seq<nat>)
    requires stack != [] && Tower(cat, t, rank, stack, path)
    requires forall h | h != Last(stack) && h in stack && !Confirmed(cat, t, h) :: !Confirmed(cat, t', h)
    ensures Tower(cat, t', rank, stack[..|stack| - 1], PathAfterPop(path, |stack| - 1))
  {
    hide Confirmed, PathAfterPop;
    var top, path' := |stack| - 1, PathAfterPop(path, |stack| - 1);
    if path != [] { assert Opened(cat, t, rank, stack, path[|path| - 1]); }
    hide Opened;
    PathPopped(path, top);
    forall i | 0 <= i < |path'|
      ensures path'[i] == path[i] && Opened(cat, t', rank, stack[..top], path'[i])
    {
      OpenedPop(cat, t, t', rank, stack, path[i]);
    }
  }

  /** A sequence along which the rank falls has no more entries than any set it is drawn from. */
  lemma {:induction false} FallingFits(rank: map<Hash, nat>, q: seq<Hash>, s: set<Hash>)
    requires forall i | 0 <= i < |q| :: q[i] in s && q[i] in rank
    requires forall i, j | 0 <= i < j < |q| :: rank[q[j]] < rank[q[i]]
    ensures |q| <= |s|
    decreases |q|
  {
    if q != [] {
      var rest := q[1..];
      assert forall i | 0 <= i < |rest| :: rest[i] == q[i + 1];
      FallingFits(rank, rest, s - {q[0]});
      assert |s - {q[0]}| == |s| - 1;
    }
  }

  /** The blocks being worked on, followed by `d`. */
  function WorkedOn(stack: seq<Hash>, path: seq<nat>, d: Hash): (q: seq<Hash>)
    requires forall i | 0 <= i < |path| :: path[i] < |stack|
    ensures |q| == |path| + 1 && q[|path|] == d
    ensures forall i | 0 <= i < |path| :: q[i] == stack[path[i]]
  {
    seq(|path|, i requires 0 <= i < |path| => stack[path[i]]) + [d]
  }

  /** The rank falls along the blocks being worked on. */
  lemma WorkedOnFalls(cat: Catalog, t: Tables, rank: map<Hash, nat>, stack: seq<Hash>, path: seq<nat>, d: Hash)
    requires stack != [] && path != [] && path[|path| - 1] == |stack| - 1 && Tower(cat, t, rank, stack, path)
    requires d in rank && Last(stack) in rank && rank[d] < rank[Last(stack)]
    ensures forall i | 0 <= i < |path| :: path[i] < |stack| && !Confirmed(cat, t, stack[path[i]])
    ensures var q := WorkedOn(stack, path, d);
            && (forall i | 0 <= i < |q| :: q[i] in rank)
            && forall i, j | 0 <= i < j < |q| :: rank[q[j]] < rank[q[i]]
  {
    hide Confirmed, WorkedOn;
    forall i | 0 <= i < |path|
      ensures path[i] < |stack| && stack[path[i]] in rank && !Confirmed(cat, t, stack[path[i]])
      ensures forall j | i < j < |path| :: path[i] < path[j] && rank[stack[path[j]]] < rank[stack[path[i]]]
    {
      assert Opened(cat, t, rank, stack, path[i]);
      forall j | i < j < |path|
        ensures path[i] < path[j] && rank[stack[path[j]]] < rank[stack[path[i]]]
      {
        assert Opened(cat, t, rank, stack, path[j]);
      }
    }
    assert stack[path[|path| - 1]] == Last(stack);
    hide Tower, Opened;
  }

  /** As long as the top still has an unconfirmed dependency there is room for two more entries. */
  lemma TowerRoom(cat: Catalog, t: Tables, target: Hash, rank: map<Hash, nat>, stack: seq<Hash>, path: seq<nat>, d: Hash)
    requires stack != [] && StackOk(cat, t, target, stack) && Tower(cat, t, rank, stack, path)
    requires OnStack(cat, t, target, d) && !Confirmed(cat, t, d) && !Confirmed(cat, t, Last(stack))
    requires d in rank && Last(stack) in rank && rank[d] < rank[Last(stack)]
    ensures |stack| + 2 <= 2 * |UnconfirmedCone(cat, t, target)| - 1
  {
    hide Confirmed, Reaches, WorkedOn, Tower, PathAfterPush;
    TowerTop(cat, t, rank, stack, path);
    var path' := PathAfterPush(path, |stack| - 1);
    WorkedOnFalls(cat, t, rank, stack, path', d);
    var q := WorkedOn(stack, path', d);
    forall i | 0 <= i < |q|
      ensures q[i] in UnconfirmedCone(cat, t, target)
    {
      if i < |path'| { assert OnStack(cat, t, target, stack[path'[i]]); }
    }
    FallingFits(rank, q, UnconfirmedCone(cat, t, target));
  }

  // ---------------------------------------------------------------------------------------------
  // The search itself

  /** What became of the block on top of the stack. */
  datatype Outcome = Deferred | AlreadyConfirmed | Cemented

  ghost predicate Visited(cat: Catalog, t: Tables, stack: seq<Hash>, maxBlocks: nat,
                          t': Tables, stack': seq<Hash>, outcome: Outcome)
    requires stack != []
  {
    var hash := Last(stack);
    match outcome
    case Deferred =>
      && t' == t && stack' != []
      && UnconfirmedDependency(cat, t, hash, Last(stack'))
      && (forall h | h in stack' :: h in stack || UnconfirmedDependency(cat, t, hash, h))
      && (|stack| + 2 <= maxBlocks ==> Extends(cat, t, stack, stack', 2))
      && (|stack'| <= |stack| || |stack'| <= maxBlocks)
    case AlreadyConfirmed =>
      t' == t && stack' == stack[..|stack| - 1] && Confirmed(cat, t, hash)
    case Cemented =>
      && hash in t.blocks && t' == CementIn(t, hash) && stack' == stack[..|stack| - 1]
      && !Confirmed(cat, t, hash)
      && forall d | cat.Depends(hash, d) :: Confirmed(cat, t, d)
  }

  /** One round of the search: the top is put off, dropped or cemented. */
  method Visit(cat: Catalog, t: Tables, ghost rank: map<Hash, nat>, ghost target: Hash, stack: seq<Hash>, maxBlocks: nat)
    returns (t': Tables, stack': seq<Hash>, outcome: Outcome)
    requires Consistent(cat, t, rank) && stack != [] && StackOk(cat, t, target, stack)
    ensures Consistent(cat, t', rank) && StackOk(cat, t', target, stack')
    ensures Visited(cat, t, stack, maxBlocks, t', stack', outcome)
  {
    var hash := Last(stack);
    ghost var pushed;
    t' := t;
    stack', pushed := PushDependencies(cat, t, target, stack, maxBlocks);
    if Last(stack') == hash {
      stack' := stack'[..|stack'| - 1];
      ConfirmedReadsBack(cat, t, hash);
      if !ConfirmedExistsOrPruned(t, hash) {
        CementKeepsConsistent(cat, t, rank, hash);
        t' := CementIn(t, hash);
        outcome := Cemented;
      } else {
        outcome := AlreadyConfirmed;
      }
    } else {
      outcome := Deferred;
    }
  }

  lemma CementKeepsConsistent(cat: Catalog, t: Tables, rank: map<Hash, nat>, h: Hash)
    requires Consistent(cat, t, rank) && h in t.blocks && !Confirmed(cat, t, h)
    requires forall d | cat.Depends(h, d) :: Confirmed(cat, t, d)
    ensures Consistent(cat, CementIn(t, h), rank)
  {
    CementKeepsShape(cat, t, h);
    CementKeepsSound(cat, t, h);
  }

  // The search ends: a round cements a block, or drops a confirmed one, or moves on to a block that
  // was saved earlier.

  ghost function Stage(cat: Catalog, t: Tables, stack: seq<Hash>): nat {
    if stack != [] && Confirmed(cat, t, Last(stack)) then 1 else 0
  }

  ghost function Distance(cat: Catalog, t: Tables, rank: map<Hash, nat>, stack: seq<Hash>): nat {
    if stack == [] then 0
    else if Confirmed(cat, t, Last(stack)) then |stack|
    else if Last(stack) in rank then rank[Last(stack)] else 0
  }

  lemma VisitAdvances(cat: Catalog, t: Tables, rank: map<Hash, nat>, target: Hash, stack: seq<Hash>, maxBlocks: nat,
                      t': Tables, stack': seq<Hash>, outcome: Outcome)
    requires Sound(cat, t) && ConeRanked(cat, rank, target)
    requires stack != [] && StackOk(cat, t, target, stack)
    requires Visited(cat, t, stack, maxBlocks, t', stack', outcome)
    ensures if outcome.Cemented? then |UnconfirmedCone(cat, t', target)| < |UnconfirmedCone(cat, t, target)|
            else
              && t' == t
              && Stage(cat, t', stack') <= Stage(cat, t, stack)
              && (Stage(cat, t', stack') == Stage(cat, t, stack) ==>
                    Distance(cat, t', rank, stack') < Distance(cat, t, rank, stack))
  {
    var hash := Last(stack);
    assert OnStack(cat, t, target, stack[|stack| - 1]);
    match outcome
    case Deferred =>
      DependencyOnStack(cat, t, target, hash, Last(stack'));
    case AlreadyConfirmed =>
    case Cemented =>
      CementConfirms(cat, t, hash);
      assert UnconfirmedCone(cat, t', target) == UnconfirmedCone(cat, t, target) - {hash};
  }

  /** No refresh at all. */
  ghost predicate Undisturbed(refreshes: nat -> Option<seq<WriterStep>>) {
    forall i :: refreshes(i).None?
  }

  /** Nothing gets lost when `maxBlocks` is at least twice the unconfirmed part of the cone, less one. */
  ghost predicate Roomy(cat: Catalog, t0: Tables, target: Hash, maxBlocks: nat) {
    2 * |UnconfirmedCone(cat, t0, target)| <= maxBlocks + 1
  }

  ghost predicate Anchored(cat: Catalog, t: Tables, rank: map<Hash, nat>, target: Hash, stack: seq<Hash>, path: seq<nat>) {
    && Tower(cat, t, rank, stack, path)
    && (Confirmed(cat, t, target) || (stack != [] && stack[0] == target))
  }

  lemma ConeShrinks(cat: Catalog, t0: Tables, t: Tables, target: Hash, result: seq<Hash>)
    requires Sound(cat, t0) && Sound(cat, t) && target in t0.blocks && target in t.blocks
    requires Progress(cat, t0, t, target, result)
    ensures |UnconfirmedCone(cat, t, target)| <= |UnconfirmedCone(cat, t0, target)|
  {
    forall h | h in UnconfirmedCone(cat, t, target)
      ensures h in UnconfirmedCone(cat, t0, target)
    {
      ConeMember(cat, t0, target, h);
      ConeMember(cat, t, target, h);
    }
    SubsetSize(UnconfirmedCone(cat, t, target), UnconfirmedCone(cat, t0, target));
  }

  lemma SubsetSize(a: set<Hash>, b: set<Hash>)
    requires a <= b
    ensures |a| <= |b|
  {
    assert b == a + (b - a);
  }

  /** With enough room the bottom of the stack stays in place until the target is confirmed. */
  lemma VisitAnchored(cat: Catalog, t0: Tables, t: Tables, rank: map<Hash, nat>, target: Hash, stack: seq<Hash>,
                      path: seq<nat>, maxBlocks: nat, t': Tables, stack': seq<Hash>, outcome: Outcome, result: seq<Hash>)
    returns (path': seq<nat>)
    requires Sound(cat, t0) && Sound(cat, t) && target in t0.blocks && target in t.blocks
    requires ConeRanked(cat, rank, target) && stack != [] && StackOk(cat, t, target, stack)
    requires Progress(cat, t0, t, target, result)
    requires Roomy(cat, t0, target, maxBlocks) && Anchored(cat, t, rank, target, stack, path)
    requires Visited(cat, t, stack, maxBlocks, t', stack', outcome)
    ensures Anchored(cat, t', rank, target, stack', path')
  {
    var hash := Last(stack);
    assert OnStack(cat, t, target, stack[|stack| - 1]);
    match outcome
    case Deferred =>
      DependencyOnStack(cat, t, target, hash, Last(stack'));
      assert Reaches(cat, target, hash) && Reaches(cat, target, Last(stack'));
      TowerRoom(cat, t, target, rank, stack, path, Last(stack'));
      ConeShrinks(cat, t0, t, target, result);
      TowerPush(cat, t, rank, stack, path, stack');
      path' := PathAfterPush(path, |stack| - 1);
      assert stack'[0] == stack'[..|stack|][0] == stack[0];
    case AlreadyConfirmed =>
      TowerPop(cat, t, t, rank, stack, path);
      path' := PathAfterPop(path, |stack| - 1);
    case Cemented =>
      CementConfirms(cat, t, hash);
      StackKnown(cat, t, target, stack);
      TowerPop(cat, t, t', rank, stack, path);
      path' := PathAfterPop(path, |stack| - 1);
      TargetStays(cat, t, t', target, hash);
  }

  lemma StackKnown(cat: Catalog, t: Tables, target: Hash, stack: seq<Hash>)
    requires StackOk(cat, t, target, stack)
    ensures forall h | h in stack :: Known(t, h)
  {
  }

  lemma TargetStays(cat: Catalog, t: Tables, t': Tables, target: Hash, h: Hash)
    requires Sound(cat, t) && h in t.blocks && t' == CementIn(t, h) && !Confirmed(cat, t, h)
    requires forall d | cat.Depends(h, d) :: Confirmed(cat, t, d)
    ensures Confirmed(cat, t, target) ==> Confirmed(cat, t', target)
    ensures Confirmed(cat, t', h)
  {
  }

  /** Before anything is cemented every block on the stack is unconfirmed, so the search cannot end empty-handed. */
  ghost predicate Eager(cat: Catalog, t: Tables, stack: seq<Hash>, result: seq<Hash>) {
    result == [] ==> stack != [] && forall h | h in stack :: !Confirmed(cat, t, h)
  }

  lemma VisitEager(cat: Catalog, t: Tables, stack: seq<Hash>, maxBlocks: nat,
                   t': Tables, stack': seq<Hash>, outcome: Outcome, result: seq<Hash>)
    requires stack != [] && Eager(cat, t, stack, result)
    requires Visited(cat, t, stack, maxBlocks, t', stack', outcome)
    ensures Eager(cat, t', stack', if outcome.Cemented? then result + [Last(stack)] else result)
  {
  }

  /** After a refresh the stack can still be read, provided the target was not rolled back. */
  lemma RefreshKeepsStack(cat: Catalog, t: Tables, t': Tables, target: Hash, stack: seq<Hash>)
    requires Sound(cat, t) && Sound(cat, t') && SameProgress(cat, t, t')
    requires StackOk(cat, t, target, stack) && target in t'.blocks
    ensures StackOk(cat, t', target, stack)
  {
    forall i | 0 <= i < |stack|
      ensures OnStack(cat, t', target, stack[i])
    {
      assert OnStack(cat, t, target, stack[i]);
      ReachesKnown(cat, t', target, stack[i]);
    }
  }

  lemma {:induction false} DistinctFits(cat: Catalog, t0: Tables, target: Hash, result: seq<Hash>)
    requires forall i | 0 <= i < |result| :: InOrder(cat, t0, target, result[..i], result[i])
    ensures |Elements(result)| == |result|
  {
    if result != [] {
      hide Reaches, ConfirmedSet;
      var front, h := result[..|result| - 1], result[|result| - 1];
      assert forall i | 0 <= i < |front| :: front[..i] == result[..i] && front[i] == result[i];
      DistinctFits(cat, t0, target, front);
      assert InOrder(cat, t0, target, result[..|result| - 1], result[|result| - 1]);
      assert Elements(result) == Elements(front) + {h};
    }
  }

  /** Having cemented as many blocks as the cone held, the search has cemented the target. */
  lemma ConeExhausted(cat: Catalog, t0: Tables, t: Tables, target: Hash, result: seq<Hash>)
    requires Sound(cat, t0) && target in t0.blocks && Progress(cat, t0, t, target, result)
    requires |result| >= |UnconfirmedCone(cat, t0, target)|
    ensures target in ConfirmedSet(cat, t)
  {
    DistinctFits(cat, t0, target, result);
    ReachesSelf(cat, target);
    ConeMember(cat, t0, target, target);
    ResultInCone(cat, t0, t, target, result);
    if target !in ConfirmedSet(cat, t) {
      SubsetSize(Elements(result), UnconfirmedCone(cat, t0, target) - {target});
    }
  }

  lemma ResultInCone(cat: Catalog, t0: Tables, t: Tables, target: Hash, result: seq<Hash>)
    requires Sound(cat, t0) && target in t0.blocks && Progress(cat, t0, t, target, result)
    ensures Elements(result) <= UnconfirmedCone(cat, t0, target)
  {
    forall h | h in Elements(result)
      ensures h in UnconfirmedCone(cat, t0, target)
    {
      var i :| 0 <= i < |result| && result[i] == h;
      assert InOrder(cat, t0, target, result[..i], result[i]);
      ConeMember(cat, t0, target, h);
    }
  }

  /** The block can be cemented at once. */
  ghost predicate Ready(cat: Catalog, t: Tables, h: Hash) {
    !Confirmed(cat, t, h) && forall d | cat.Depends(h, d) :: Confirmed(cat, t, d)
  }

  /**
    What holds in every round, as long as the target is not rolled back. `rank` orders all blocks known
    now, `rank0` those known at the start, which include the cone for good.
   */
  ghost predicate Searching(cat: Catalog, t0: Tables, t: Tables, rank0: map<Hash, nat>, rank: map<Hash, nat>, target: Hash,
                            stack: seq<Hash>, result: seq<Hash>, maxBlocks: nat, path: seq<nat>) {
    && Consistent(cat, t, rank) && target in t.blocks
    && Progress(cat, t0, t, target, result)
    && StackOk(cat, t, target, stack)
    && (!Confirmed(cat, t0, target) ==> Eager(cat, t, stack, result))
    && (Roomy(cat, t0, target, maxBlocks) ==> Anchored(cat, t, rank0, target, stack, path))
  }

  /** What the search starts from. */
  ghost predicate Started(cat: Catalog, t0: Tables, rank0: map<Hash, nat>, target: Hash) {
    Consistent(cat, t0, rank0) && target in t0.blocks && ConeRanked(cat, rank0, target)
  }

  /** How much is left to do; the first difference decides. */
  ghost predicate Advances(cat: Catalog, t: Tables, t': Tables, rank0: map<Hash, nat>, target: Hash,
                           stack: seq<Hash>, stack': seq<Hash>) {
    || |UnconfirmedCone(cat, t', target)| < |UnconfirmedCone(cat, t, target)|
    || (t' == t && (|| Stage(cat, t', stack') < Stage(cat, t, stack)
                    || (Stage(cat, t', stack') == Stage(cat, t, stack) &&
                        Distance(cat, t', rank0, stack') < Distance(cat, t, rank0, stack))))
  }

  /** One round of the search with its bookkeeping. */
  method Round(cat: Catalog, ghost t0: Tables, t: Tables, ghost rank0: map<Hash, nat>, ghost rank: map<Hash, nat>,
               ghost target: Hash, stack: seq<Hash>, result: seq<Hash>, maxBlocks: nat, ghost path: seq<nat>)
    returns (t': Tables, stack': seq<Hash>, result': seq<Hash>, ghost path': seq<nat>)
    requires Started(cat, t0, rank0, target)
    requires stack != [] && Searching(cat, t0, t, rank0, rank, target, stack, result, maxBlocks, path)
    ensures Searching(cat, t0, t', rank0, rank, target, stack', result', maxBlocks, path')
    ensures t'.blocks == t.blocks && t'.heads == t.heads
    ensures |result'| <= |result| + 1
    ensures |stack'| <= |stack| || |stack'| <= maxBlocks
    ensures |result'| > |result| <==> Ready(cat, t, Last(stack))
    ensures Advances(cat, t, t', rank0, target, stack, stack')
  {
    var outcome;
    t', stack', outcome := Visit(cat, t, rank, target, stack, maxBlocks);
    VisitAdvances(cat, t, rank0, target, stack, maxBlocks, t', stack', outcome);
    path' := path;
    if !Confirmed(cat, t0, target) {
      VisitEager(cat, t, stack, maxBlocks, t', stack', outcome, result);
    }
    if Roomy(cat, t0, target, maxBlocks) {
      path' := VisitAnchored(cat, t0, t, rank0, target, stack, path, maxBlocks, t', stack', outcome, result);
    }
    result' := result;
    if outcome.Cemented? {
      assert OnStack(cat, t, target, stack[|stack| - 1]);
      ProgressStep(cat, t0, t, target, result, Last(stack));
      result' := result + [Last(stack)];
    }
  }

  lemma SearchStarts(cat: Catalog, t0: Tables, rank0: map<Hash, nat>, target: Hash, maxBlocks: nat)
    requires Consistent(cat, t0, rank0) && target in t0.blocks
    ensures Started(cat, t0, rank0, target)
    ensures Searching(cat, t0, t0, rank0, rank0, target, [target], [], maxBlocks, [])
  {
    ReachesSelf(cat, target);
    ConeIsRanked(cat, t0, rank0, target);
  }

  /** What a refresh leaves as it is: the heights, and with the target still stored the whole search. */
  lemma RefreshKeepsSearch(cat: Catalog, t0: Tables, t: Tables, t': Tables, rank0: map<Hash, nat>, rank: map<Hash, nat>,
                           rank': map<Hash, nat>, target: Hash, stack: seq<Hash>, result: seq<Hash>, maxBlocks: nat,
                           path: seq<nat>)
    requires Searching(cat, t0, t, rank0, rank, target, stack, result, maxBlocks, path)
    requires Consistent(cat, t', rank') && SameProgress(cat, t, t')
    ensures Progress(cat, t0, t', target, result)
    ensures target in t'.blocks ==>
              && Searching(cat, t0, t', rank0, rank', target, stack, result, maxBlocks, path)
              && UnconfirmedCone(cat, t', target) == UnconfirmedCone(cat, t, target)
    ensures Stage(cat, t', stack) == Stage(cat, t, stack)
    ensures Distance(cat, t', rank0, stack) == Distance(cat, t, rank0, stack)
  {
    ProgressRefresh(cat, t0, t, t', target, result);
    SameHeights(cat, t, t', rank0, target, stack, result, path);
    if target in t'.blocks {
      RefreshKeepsStack(cat, t, t', target, stack);
      RefreshKeepsCone(cat, t, t', target);
    }
    hide Consistent, Progress, Confirmed, StackOk, Anchored, Eager;
  }

  lemma RefreshKeepsCone(cat: Catalog, t: Tables, t': Tables, target: Hash)
    requires Sound(cat, t) && Sound(cat, t') && SameProgress(cat, t, t') && target in t.blocks && target in t'.blocks
    ensures UnconfirmedCone(cat, t', target) == UnconfirmedCone(cat, t, target)
  {
    forall h | Reaches(cat, target, h)
      ensures h in UnconfirmedCone(cat, t', target) <==> h in UnconfirmedCone(cat, t, target)
    {
      ConeMember(cat, t, target, h);
      ConeMember(cat, t', target, h);
    }
  }

  /** Whether a block is confirmed depends on the heights alone. */
  lemma SameHeights(cat: Catalog, t: Tables, t': Tables, rank: map<Hash, nat>, target: Hash, stack: seq<Hash>,
                    result: seq<Hash>, path: seq<nat>)
    requires t'.heights == t.heights
    ensures Stage(cat, t', stack) == Stage(cat, t, stack) && Distance(cat, t', rank, stack) == Distance(cat, t, rank, stack)
    ensures Eager(cat, t', stack, result) == Eager(cat, t, stack, result)
    ensures Anchored(cat, t', rank, target, stack, path) == Anchored(cat, t, rank, target, stack, path)
  {
    assert forall h :: Confirmed(cat, t', h) == Confirmed(cat, t, h);
    hide Confirmed;
    assert forall p: nat :: Opened(cat, t', rank, stack, p) == Opened(cat, t, rank, stack, p);
  }

  /**
    Cements `target` as far as `maxBlocks` allows. `refreshes(i)` tells what other writers did when
    the transaction was refreshed at the end of round `i`, if it was. `gone` tells that they rolled
    the target back.
   */
  method Confirm(cat: Catalog, t0: Tables, ghost rank0: map<Hash, nat>, target: Hash, maxBlocks: nat,
                 refreshes: nat -> Option<seq<WriterStep>>)
    returns (t: Tables, result: seq<Hash>, gone: bool, ghost rank: map<Hash, nat>)
    requires Consistent(cat, t0, rank0) && target in t0.blocks
    // the ledger stays sound; exactly the returned blocks are newly confirmed, each after its dependencies
    ensures Consistent(cat, t, rank) && Progress(cat, t0, t, target, result)
    ensures |result| <= if maxBlocks == 0 then 1 else maxBlocks
    ensures gone <==> target !in t.blocks
    // unless it is rolled back, an unconfirmed target makes progress; a bound of 0 allows only a single look at it
    ensures !gone && !Confirmed(cat, t0, target) ==> (result != [] <==> maxBlocks > 0 || Ready(cat, t0, target))
    ensures !gone && 2 * |UnconfirmedCone(cat, t0, target)| <= maxBlocks + 1 ==> target in ConfirmedSet(cat, t)
    // without a refresh only confirmation heights change
    ensures Undisturbed(refreshes) ==> t.blocks == t0.blocks && t.heads == t0.heads && rank == rank0
  {
    t, result, gone, rank := t0, [], false, rank0;
    var stack := [target];
    var round := 0;
    ghost var path := [];
    SearchStarts(cat, t0, rank0, target, maxBlocks);
    hide Searching, Started, Consistent, Progress, SameProgress, Ready, Confirmed, ConfirmedSet, Roomy, UnconfirmedCone,
         Stage, Distance;
    while stack != []
      invariant Searching(cat, t0, t, rank0, rank, target, stack, result, maxBlocks, path)
      invariant result != [] ==> |result| < maxBlocks
      invariant |stack| <= 1 || |stack| <= maxBlocks
      invariant maxBlocks == 0 ==> t == t0 && stack == [target] && result == []
      invariant Undisturbed(refreshes) ==> t.blocks == t0.blocks && t.heads == t0.heads && rank == rank0
      decreases |UnconfirmedCone(cat, t, target)|, Stage(cat, t, stack), Distance(cat, t, rank0, stack)
    {
      t, stack, result, path := Round(cat, t0, t, rank0, rank, target, stack, result, maxBlocks, path);
      var refresh := refreshes(round);
      if refresh.Some? {
        ghost var before, rank' := t, rank;
        assert Consistent(cat, t, rank) by { SearchHolds(cat, t0, t, rank0, rank, target, stack, result, maxBlocks, path); }
        t, rank := Refresh(cat, t, rank, refresh.value);
        RefreshKeepsSearch(cat, t0, before, t, rank0, rank', rank, target, stack, result, maxBlocks, path);
        if target !in t.blocks {
          gone := true;
          return; // the target was rolled back
        }
      }
      round := round + 1;
      if |result| >= maxBlocks {
        break;
      }
    }
    SearchHolds(cat, t0, t, rank0, rank, target, stack, result, maxBlocks, path);
    SearchEnds(cat, t0, t, rank0, rank, target, stack, result, maxBlocks, path);
  }

  lemma SearchHolds(cat: Catalog, t0: Tables, t: Tables, rank0: map<Hash, nat>, rank: map<Hash, nat>, target: Hash,
                    stack: seq<Hash>, result: seq<Hash>, maxBlocks: nat, path: seq<nat>)
    requires Searching(cat, t0, t, rank0, rank, target, stack, result, maxBlocks, path)
    ensures Consistent(cat, t, rank) && Progress(cat, t0, t, target, result) && target in t.blocks
  {
  }

  /** The search ends with an empty stack or with as many blocks as allowed. */
  lemma SearchEnds(cat: Catalog, t0: Tables, t: Tables, rank0: map<Hash, nat>, rank: map<Hash, nat>, target: Hash,
                   stack: seq<Hash>, result: seq<Hash>, maxBlocks: nat, path: seq<nat>)
    requires Started(cat, t0, rank0, target)
    requires Searching(cat, t0, t, rank0, rank, target, stack, result, maxBlocks, path)
    requires stack == [] || |result| >= maxBlocks
    ensures stack == [] && !Confirmed(cat, t0, target) ==> result != []
    ensures 2 * |UnconfirmedCone(cat, t0, target)| <= maxBlocks + 1 ==> target in ConfirmedSet(cat, t)
  {
    if Roomy(cat, t0, target, maxBlocks) && |result| >= maxBlocks {
      ConeExhausted(cat, t0, t, target, result);
    }
  }

  // ---------------------------------------------------------------------------------------------
  // Dependencies in terms of the blocks' fields

  /** `h` names a block that saved block `b` receives from. */
  predicate Receives(b: SavedBlock, c: Constants, h: Hash) {
    h != 0 &&
    match b.block.body
    case LegacyReceive(_, source) => h == source
    case LegacyOpen(source, _, account) => h == source && account != c.genesisAccount
    case State(_, _, _, _, link) => h == link && !b.sideband.details.isSend && link !in c.epochLinks
    case _ => false
  }

  /** Whoever is confirmed has its sender and its predecessor confirmed. */
  lemma ConfirmedSenders(cat: Catalog, t: Tables, rank: map<Hash, nat>, h: Hash, d: Hash)
    requires Consistent(cat, t, rank) && h in ConfirmedSet(cat, t) && d != 0
    requires Receives(cat.blocks[h], cat.constants, d) ||
             (!cat.blocks[h].block.body.LegacyOpen? && d == cat.blocks[h].block.body.previous)
    ensures d in ConfirmedSet(cat, t)
  {
    DependencyFields(cat.blocks[h], cat.constants, d);
    assert cat.Depends(h, d);
  }

  /** Among the blocks returned by a search, a receive comes after its send unless that was confirmed before. */
  lemma SendersFirst(cat: Catalog, t0: Tables, t: Tables, target: Hash, result: seq<Hash>, i: nat, d: Hash)
    requires Progress(cat, t0, t, target, result) && i < |result| && result[i] in cat.blocks
    requires Receives(cat.blocks[result[i]], cat.constants, d)
    ensures d in ConfirmedSet(cat, t0) || d in result[..i]
  {
    DependencyFields(cat.blocks[result[i]], cat.constants, d);
    assert InOrder(cat, t0, target, result[..i], result[i]);
    assert cat.Depends(result[i], d);
  }

  /** A block that receives nothing needs its predecessor alone: then it can be cemented at once. */
  lemma SendsNeedPreviousOnly(cat: Catalog, t: Tables, rank: map<Hash, nat>, h: Hash)
    requires Consistent(cat, t, rank) && h in t.blocks && h !in ConfirmedSet(cat, t)
    requires forall d :: !Receives(cat.blocks[h], cat.constants, d)
    requires cat.blocks[h].block.body.LegacyOpen? || cat.blocks[h].block.body.previous == 0 ||
             cat.blocks[h].block.body.previous in ConfirmedSet(cat, t)
    ensures Ready(cat, t, h)
  {
    forall d | cat.Depends(h, d)
      ensures Confirmed(cat, t, d)
    {
      DependencyFields(cat.blocks[h], cat.constants, d);
      assert !Receives(cat.blocks[h], cat.constants, d);
    }
  }

  // ---------------------------------------------------------------------------------------------
  // Calling it until the target is confirmed

  lemma {:induction false} PathConfirmed(cat: Catalog, t: Tables, p: seq<Hash>)
    requires Sound(cat, t) && IsPath(cat, p) && p[0] in ConfirmedSet(cat, t)
    ensures p[|p| - 1] in ConfirmedSet(cat, t)
  {
    if |p| > 1 {
      assert cat.Depends(p[0], p[1]);
      PathConfirmed(cat, t, p[1..]);
    }
  }

  /** Once the target is confirmed, what was cemented on the way is exactly the unconfirmed part of its cone. */
  lemma CementsTheCone(cat: Catalog, t0: Tables, t: Tables, rank0: map<Hash, nat>, rank: map<Hash, nat>, target: Hash,
                       result: seq<Hash>)
    requires Consistent(cat, t0, rank0) && Consistent(cat, t, rank) && target in t0.blocks
    requires Progress(cat, t0, t, target, result) && target in ConfirmedSet(cat, t)
    ensures Elements(result) == UnconfirmedCone(cat, t0, target)
  {
    ResultInCone(cat, t0, t, target, result);
    forall h | h in UnconfirmedCone(cat, t0, target)
      ensures h in result
    {
      var p :| IsPath(cat, p) && p[0] == target && p[|p| - 1] == h;
      PathConfirmed(cat, t, p);
      assert h !in ConfirmedSet(cat, t0);
    }
  }

  lemma ProgressTrans(cat: Catalog, t0: Tables, t1: Tables, t2: Tables, target: Hash, r1: seq<Hash>, r2: seq<Hash>)
    requires Progress(cat, t0, t1, target, r1) && Progress(cat, t1, t2, target, r2)
    ensures Progress(cat, t0, t2, target, r1 + r2)
  {
    var r := r1 + r2;
    assert Elements(r) == Elements(r1) + Elements(r2);
    forall i | 0 <= i < |r|
      ensures InOrder(cat, t0, target, r[..i], r[i])
    {
      if i < |r1| {
        assert r[..i] == r1[..i];
      } else {
        var j := i - |r1|;
        assert r[..i] == r1 + r2[..j];
        assert InOrder(cat, t1, target, r2[..j], r2[j]);
      }
    }
  }

  /**
    Callers repeat the bounded search until the target is confirmed or rolled back. `refreshes(i, j)`
    tells what other writers did at the end of round `j` of call `i`; those of its last round act between
    two calls. Whatever the bound, this ends, and it cements exactly the unconfirmed blocks of the cone, in
    dependency order.
   */
  method ConfirmFully(cat: Catalog, t0: Tables, ghost rank0: map<Hash, nat>, target: Hash, maxBlocks: nat,
                      refreshes: (nat, nat) -> Option<seq<WriterStep>>)
    returns (t: Tables, result: seq<Hash>, gone: bool, ghost rank: map<Hash, nat>)
    requires Consistent(cat, t0, rank0) && target in t0.blocks && maxBlocks > 0
    ensures Consistent(cat, t, rank) && Progress(cat, t0, t, target, result)
    ensures gone <==> target !in t.blocks
    ensures !gone ==> target in ConfirmedSet(cat, t) && Elements(result) == UnconfirmedCone(cat, t0, target)
  {
    t, result, gone, rank := t0, [], false, rank0;
    var call := 0;
    hide Consistent, Progress, Confirmed, ConfirmedSet, ConfirmedExistsOrPruned, UnconfirmedCone, Roomy, Ready;
    NothingDone(cat, t0, target);
    while !gone && !ConfirmedExistsOrPruned(t, target)
      invariant Consistent(cat, t, rank) && Progress(cat, t0, t, target, result)
      invariant gone <==> target !in t.blocks
      decreases if gone then 0 else 1, |UnconfirmedCone(cat, t, target)|
    {
      TargetReadsBack(cat, t, rank, target);
      ghost var before, rank' := t, rank;
      var more;
      t, more, gone, rank := Confirm(cat, t, rank, target, maxBlocks, (j: nat) => refreshes(call, j));
      ProgressTrans(cat, t0, before, t, target, result, more);
      if !gone { ConeShrinksMore(cat, before, t, rank', rank, target, more); }
      result := result + more;
      call := call + 1;
    }
    if !gone {
      TargetReadsBack(cat, t, rank, target);
      CementsTheCone(cat, t0, t, rank0, rank, target, result);
    }
  }

  lemma NothingDone(cat: Catalog, t: Tables, target: Hash)
    ensures Progress(cat, t, t, target, [])
  {
  }

  lemma TargetReadsBack(cat: Catalog, t: Tables, rank: map<Hash, nat>, target: Hash)
    requires Consistent(cat, t, rank) && target in t.blocks
    ensures ConfirmedExistsOrPruned(t, target) <==> Confirmed(cat, t, target)
    ensures Confirmed(cat, t, target) <==> target in ConfirmedSet(cat, t)
  {
    ConfirmedReadsBack(cat, t, target);
  }

  lemma ConeShrinksMore(cat: Catalog, t: Tables, t': Tables, rank: map<Hash, nat>, rank': map<Hash, nat>, target: Hash,
                        result: seq<Hash>)
    requires Consistent(cat, t, rank) && Consistent(cat, t', rank') && target in t.blocks && target in t'.blocks
    requires Progress(cat, t, t', target, result) && result != []
    ensures |UnconfirmedCone(cat, t', target)| < |UnconfirmedCone(cat, t, target)|
  {
    hide Ranked, FrontiersStored, Sound, Reaches, Confirmed;
    var h := result[0];
    assert InOrder(cat, t, target, result[..0], h);
    assert h in Elements(result);
    ConeMember(cat, t, target, h);
    forall x | x in UnconfirmedCone(cat, t', target)
      ensures x in UnconfirmedCone(cat, t, target) && x != h
    {
      ConeMember(cat, t, target, x);
      ConeMember(cat, t', target, x);
    }
    SubsetSize(UnconfirmedCone(cat, t', target), UnconfirmedCone(cat, t, target) - {h});
  }
}
