/** Speculative decoding by verify rounds emits what plain greedy decoding emits. */
module LosslessDecoding {
  import opened VerifyTree

  /** Plain decoding: each token is the target's choice for everything before it. */
  ghost function Greedy(target: seq<int> -> int, context: seq<int>, n: nat): (tokens: seq<int>)
    ensures |tokens| == n
    decreases n
  {
    if n == 0 then [] else [target(context)] + Greedy(target, context + [target(context)], n - 1)
  }

  lemma {:induction false} GreedySplit(target: seq<int> -> int, context: seq<int>, m: nat, n: nat)
    ensures Greedy(target, context, m + n) ==
      Greedy(target, context, m) + Greedy(target, context + Greedy(target, context, m), n)
    decreases m
  {
    if m == 0 {
      assert context + [] == context;
    } else {
      var t := target(context);
      GreedySplit(target, context + [t], m - 1, n);
      var rest := Greedy(target, context + [t], m - 1);
      assert context + [t] + rest == context + ([t] + rest);
    }
  }

  /** The draft tokens on a path, the root's own token excepted. */
  ghost function DraftTokens(row: Row, path: seq<nat>): seq<int>
    requires path != [] && forall i :: 0 <= i < |path| ==> path[i] < |row.candidates|
  {
    var drafted := path[1..];
    seq(|drafted|, i requires 0 <= i < |drafted| => row.candidates[drafted[i]])
  }

  /** The target was evaluated at every node on the node's own context: the text so far and the
      draft tokens on the path from the root. */
  ghost predicate Faithful(row: Row, rank: seq<nat>, target: seq<int> -> int, context: seq<int>)
    requires row.Shaped() && row.Acyclic(rank)
  {
    forall path | row.IsPath(rank, path) && path[0] == 0 ::
      row.predict[path[|path| - 1]] == target(context + DraftTokens(row, path))
  }

  /** A tree: no node is reached from the root in two ways. */
  ghost predicate OnePathEach(row: Row, rank: seq<nat>)
    requires row.Shaped() && row.Acyclic(rank)
  {
    forall p, q | row.IsPath(rank, p) && row.IsPath(rank, q) && p[0] == 0 && q[0] == 0 ::
      p[|p| - 1] == q[|q| - 1] ==> p == q
  }

  ghost function PathTo(row: Row, rank: seq<nat>, node: nat): (path: seq<nat>)
    requires row.Shaped() && row.Acyclic(rank)
    ensures row.IsPath(rank, path) && path[0] == 0
    ensures row.Reachable(rank, node) ==> path[|path| - 1] == node
  {
    if row.Reachable(rank, node)
    then var path :| row.IsPath(rank, path) && path[0] == 0 && path[|path| - 1] == node; path
    else [0]
  }

  lemma OnlyPath(row: Row, rank: seq<nat>, path: seq<nat>)
    requires row.Shaped() && row.Acyclic(rank) && OnePathEach(row, rank)
    requires row.IsPath(rank, path) && path[0] == 0
    ensures PathTo(row, rank, path[|path| - 1]) == path
  {
    assert row.Reachable(rank, path[|path| - 1]);
  }

  /** Every target can be evaluated faithfully on every tree. */
  lemma FaithfulExists(row: Row, rank: seq<nat>, target: seq<int> -> int, context: seq<int>) returns (p: seq<int>)
    requires row.Shaped() && row.Acyclic(rank) && OnePathEach(row, rank)
    ensures |p| == row.Size() && Faithful(row.(predict := p), rank, target, context)
  {
    p := seq(row.Size(), node requires 0 <= node < row.Size() =>
      target(context + DraftTokens(row, PathTo(row, rank, node))));
    var evaluated := row.(predict := p);
    row.PathsIgnorePredictions(rank, p);
    hide Row.Acyclic, Row.Children, OnePathEach, PathTo;
    forall path | evaluated.IsPath(rank, path) && path[0] == 0
      ensures p[path[|path| - 1]] == target(context + DraftTokens(evaluated, path))
    {
      OnlyPath(row, rank, path);
      assert DraftTokens(evaluated, path) == DraftTokens(row, path);
    }
  }

  /** What a round emits: the prediction at every node of the walk, which is the accepted draft
      tokens and one token more. */
  ghost function Emitted(row: Row, walk: seq<nat>): seq<int>
    requires forall i :: 0 <= i < |walk| ==> walk[i] < |row.predict|
  {
    seq(|walk|, i requires 0 <= i < |walk| => row.predict[walk[i]])
  }

  lemma PathSnoc(row: Row, rank: seq<nat>, path: seq<nat>, child: nat)
    requires row.Shaped() && row.Acyclic(rank) && row.IsPath(rank, path)
    requires child in row.Children(rank, path[|path| - 1])
    ensures row.IsPath(rank, path + [child]) && (path + [child])[0] == path[0]
    ensures DraftTokens(row, path + [child]) == DraftTokens(row, path) + [row.candidates[child]]
  {
  }

  /** From any node on, the walk predicts what greedy decoding does from the node's context. */
  lemma {:induction false} WalkIsGreedy(row: Row, rank: seq<nat>, target: seq<int> -> int, context: seq<int>,
                                        path: seq<nat>)
    requires row.Shaped() && row.Acyclic(rank) && Faithful(row, rank, target, context)
    requires row.IsPath(rank, path) && path[0] == 0
    ensures var walk := row.Walk(rank, path[|path| - 1]);
      Emitted(row, walk) == Greedy(target, context + DraftTokens(row, path), |walk|)
    decreases rank[path[|path| - 1]]
  {
    var cur := path[|path| - 1];
    var here := context + DraftTokens(row, path);
    assert row.predict[cur] == target(here);
    var m := row.FirstMatch(row.Children(rank, cur), row.predict[cur]);
    if m == -1 {
      assert row.Walk(rank, cur) == [cur];
      assert Emitted(row, [cur]) == [row.predict[cur]];
    } else {
      PathSnoc(row, rank, path, m);
      WalkIsGreedy(row, rank, target, context, path + [m]);
      var rest := row.Walk(rank, m);
      assert row.Walk(rank, cur) == [cur] + rest;
      hide Row.Walk, Row.Children, Row.FirstMatch, Row.IsPath, Faithful;
      EmittedCons(row, cur, rest);
      assert context + DraftTokens(row, path + [m]) == here + [row.predict[cur]];
    }
  }

  lemma EmittedCons(row: Row, node: nat, rest: seq<nat>)
    requires node < |row.predict| && forall i :: 0 <= i < |rest| ==> rest[i] < |row.predict|
    ensures Emitted(row, [node] + rest) == [row.predict[node]] + Emitted(row, rest)
  {
  }

  /** On an accepted path, what is emitted before the end is what was drafted. */
  lemma AcceptedEmits(row: Row, rank: seq<nat>, path: seq<nat>)
    requires row.Shaped() && row.Acyclic(rank) && row.IsAccepted(rank, path)
    ensures Emitted(row, path)[..|path| - 1] == DraftTokens(row, path)
  {
    forall i | 0 <= i < |path| - 1
      ensures row.predict[path[i]] == row.candidates[path[i + 1]]
    {
      assert 0 < i + 1 < |path|;
    }
  }

  /** One verify round emits a non-empty run of greedy tokens, and all but the last are the
      accepted draft tokens. */
  lemma RoundIsGreedy(row: Row, rank: seq<nat>, target: seq<int> -> int, context: seq<int>)
    requires row.Shaped() && row.Acyclic(rank) && Faithful(row, rank, target, context)
    ensures var walk := row.Walk(rank, 0);
      && |walk| >= 1
      && Emitted(row, walk) == Greedy(target, context, |walk|)
      && Emitted(row, walk)[..|walk| - 1] == DraftTokens(row, walk)
  {
    var walk := row.Walk(rank, 0);
    assert row.IsPath(rank, [0]);
    assert context + DraftTokens(row, [0]) == context;
    hide Faithful, Greedy, Row.Walk;
    WalkIsGreedy(row, rank, target, context, [0]);
    row.WalkIsAccepted(rank, 0);
    AcceptedEmits(row, rank, walk);
  }

  /** A draft tree with a rank that shows it has no cycle. */
  datatype Draft = Draft(row: Row, rank: seq<nat>)

  /** Round after round: each tree is drafted, by whatever means, for the text emitted so far. */
  ghost predicate FaithfulRounds(target: seq<int> -> int, context: seq<int>, drafts: seq<Draft>)
    decreases |drafts|
  {
    drafts == [] ||
    (var d := drafts[0];
     && d.row.Shaped() && d.row.Acyclic(d.rank) && Faithful(d.row, d.rank, target, context)
     && FaithfulRounds(target, context + Emitted(d.row, d.row.Walk(d.rank, 0)), drafts[1..]))
  }

  ghost function EmittedRounds(target: seq<int> -> int, context: seq<int>, drafts: seq<Draft>): seq<int>
    requires FaithfulRounds(target, context, drafts)
    decreases |drafts|
  {
    if drafts == [] then []
    else
      var first := Emitted(drafts[0].row, drafts[0].row.Walk(drafts[0].rank, 0));
      first + EmittedRounds(target, context + first, drafts[1..])
  }

  /** Lossless decoding: over any number of rounds with any draft trees, the tokens emitted are those
      of plain greedy decoding, and every round contributes at least one. */
  lemma {:induction false} SpeculativeDecodingIsLossless(target: seq<int> -> int, context: seq<int>, drafts: seq<Draft>)
    requires FaithfulRounds(target, context, drafts)
    ensures var tokens := EmittedRounds(target, context, drafts);
      tokens == Greedy(target, context, |tokens|) && |tokens| >= |drafts|
    decreases |drafts|
  {
    if drafts != [] {
      var row, rank := drafts[0].row, drafts[0].rank;
      var first := Emitted(row, row.Walk(rank, 0));
      RoundIsGreedy(row, rank, target, context);
      SpeculativeDecodingIsLossless(target, context + first, drafts[1..]);
      GreedyJoins(target, context, first, EmittedRounds(target, context + first, drafts[1..]));
    }
  }

  lemma GreedyJoins(target: seq<int> -> int, context: seq<int>, a: seq<int>, b: seq<int>)
    requires a == Greedy(target, context, |a|) && b == Greedy(target, context + a, |b|)
    ensures a + b == Greedy(target, context, |a + b|)
  {
    GreedySplit(target, context, |a|, |b|);
  }

  /** The outputs of a verification batch, read as the engine reads them: the predictions in the
      accepted slots of a row continue the row's text greedily. */
  lemma BatchOutputsAreGreedy(rows: seq<Row>, ranks: seq<seq<nat>>, r: nat, predicts: seq<int>, accepted: seq<nat>,
                              target: seq<int> -> int, context: seq<int>)
    requires BatchOk(rows, ranks) && r < |rows| && Faithful(rows[r], ranks[r], target, context)
    requires accepted == SlotsOf(rows[r], WalkOf(rows, ranks, r)) && Filled(rows[r], WalkOf(rows, ranks, r), predicts)
    ensures forall i :: 0 <= i < |accepted| ==>
      accepted[i] < |predicts| && predicts[accepted[i]] == Greedy(target, context, |accepted|)[i]
  {
    RoundIsGreedy(rows[r], ranks[r], target, context);
    forall i | 0 <= i < |accepted|
      ensures accepted[i] < |predicts| && predicts[accepted[i]] == Greedy(target, context, |accepted|)[i]
    {
      assert Emitted(rows[r], WalkOf(rows, ranks, r))[i] == rows[r].predict[WalkOf(rows, ranks, r)[i]];
    }
  }

  /** One call of the verifier serves every row losslessly. */
  method VerifyRound(rows: seq<Row>, ghost ranks: seq<seq<nat>>, ghost target: seq<int> -> int,
                     ghost contexts: seq<seq<int>>)
    returns (emitted: seq<seq<int>>)
    requires rows != [] && BatchOk(rows, ranks) && SlotsDistinct(rows) && |contexts| == |rows|
    requires forall r :: 0 <= r < |rows| ==> Faithful(rows[r], ranks[r], target, contexts[r])
    ensures |emitted| == |rows|
    ensures forall r :: 0 <= r < |rows| ==>
      |emitted[r]| == |WalkOf(rows, ranks, r)| > 0 && emitted[r] == Greedy(target, contexts[r], |emitted[r]|)
  {
    hide Faithful, Greedy, SlotsDistinct, Filled, Row.Walk, Row.Acyclic, SlotsOf;
    var predicts, acceptIndex, acceptTokenNum := VerifyTreeGreedy(rows, ranks);
    ghost var out := predicts[..];
    emitted := [];
    for r := 0 to |rows|
      invariant |emitted| == r && predicts[..] == out
      invariant forall q :: 0 <= q < r ==>
        |emitted[q]| == |WalkOf(rows, ranks, q)| > 0 && emitted[q] == Greedy(target, contexts[q], |emitted[q]|)
    {
      BatchOutputsAreGreedy(rows, ranks, r, predicts[..], acceptIndex[r], target, contexts[r]);
      var tokens := seq(|acceptIndex[r]|, i requires 0 <= i < |acceptIndex[r]| && acceptIndex[r][i] < predicts.Length
                        reads predicts => predicts[acceptIndex[r][i]]);
      assert tokens == Greedy(target, contexts[r], |WalkOf(rows, ranks, r)|);
      emitted := emitted + [tokens];
    }
  }
}
