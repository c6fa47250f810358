/** The accept walk over a draft tree encoded by first children and next siblings. */
module VerifyTree {
  /** One row of a verification batch: a draft tree over `Size()` nodes, node 0 its root. A link of
      -1 leads nowhere; `index` is a node's slot in the flat output. */
  datatype Row = Row(candidates: seq<int>, index: seq<nat>, nextToken: seq<int>, nextSibling: seq<int>,
                     predict: seq<int>)
  {
    function Size(): nat {
      |candidates|
    }

    ghost predicate Shaped() {
      && 0 < Size() == |index| == |nextToken| == |nextSibling| == |predict|
      && (forall i :: 0 <= i < Size() ==> -1 <= nextToken[i] < Size())
      && (forall i :: 0 <= i < Size() ==> -1 <= nextSibling[i] < Size())
    }

    /** Links form no cycle: each one leads to a node of lower rank. */
    ghost predicate Acyclic(rank: seq<nat>)
      requires Shaped()
    {
      && |rank| == Size()
      && (forall i :: 0 <= i < Size() && nextToken[i] != -1 ==> rank[nextToken[i]] < rank[i])
      && (forall i :: 0 <= i < Size() && nextSibling[i] != -1 ==> rank[nextSibling[i]] < rank[i])
    }

    ghost function Height(rank: seq<nat>, link: int): nat
      requires Shaped() && Acyclic(rank) && -1 <= link < Size()
    {
      if link == -1 then 0 else rank[link] + 1
    }

    /** The nodes reached from `link` along sibling links. */
    ghost function Siblings(rank: seq<nat>, link: int): (nodes: seq<nat>)
      requires Shaped() && Acyclic(rank) && -1 <= link < Size()
      ensures forall i :: 0 <= i < |nodes| ==> nodes[i] < Size() && rank[nodes[i]] < Height(rank, link)
      decreases Height(rank, link)
    {
      if link == -1 then [] else [link] + Siblings(rank, nextSibling[link])
    }

    ghost function Children(rank: seq<nat>, node: nat): (nodes: seq<nat>)
      requires Shaped() && Acyclic(rank) && node < Size()
      ensures forall i :: 0 <= i < |nodes| ==> nodes[i] < Size() && rank[nodes[i]] < rank[node]
    {
      Siblings(rank, nextToken[node])
    }

    /** `nodes` start at `link` and follow the sibling links, up to the node that has none. */
    ghost predicate FollowsLinks(nodes: seq<nat>, link: int)
      requires Shaped() && forall i :: 0 <= i < |nodes| ==> nodes[i] < Size()
    {
      && (if nodes == [] then link == -1 else link == nodes[0])
      && (forall i :: 0 < i < |nodes| ==> nextSibling[nodes[i - 1]] == nodes[i])
      && (nodes != [] ==> nextSibling[nodes[|nodes| - 1]] == -1)
    }

    lemma {:induction false} SiblingsFollowLinks(rank: seq<nat>, link: int)
      requires Shaped() && Acyclic(rank) && -1 <= link < Size()
      ensures FollowsLinks(Siblings(rank, link), link)
      decreases Height(rank, link)
    {
      if link != -1 {
        SiblingsFollowLinks(rank, nextSibling[link]);
        assert Siblings(rank, link)[1..] == Siblings(rank, nextSibling[link]);
        forall i | 0 < i < |Siblings(rank, link)|
          ensures nextSibling[Siblings(rank, link)[i - 1]] == Siblings(rank, link)[i]
        {
          assert i > 1 ==> Siblings(rank, link)[i - 1] == Siblings(rank, nextSibling[link])[i - 2];
        }
      }
    }

    /** The children of a node are its first child and all next siblings, in order. */
    lemma ChildrenFollowLinks(rank: seq<nat>, node: nat)
      requires Shaped() && Acyclic(rank) && node < Size()
      ensures FollowsLinks(Children(rank, node), nextToken[node])
    {
      SiblingsFollowLinks(rank, nextToken[node]);
    }

    /** The first of `nodes` that carries token `token`, or -1. */
    ghost function FirstMatch(nodes: seq<nat>, token: int): (m: int)
      requires forall i :: 0 <= i < |nodes| ==> nodes[i] < |candidates|
      ensures m != -1 ==> 0 <= m < |candidates| && m in nodes && candidates[m] == token
      ensures m == -1 ==> forall i :: 0 <= i < |nodes| ==> candidates[nodes[i]] != token
    {
      if nodes == [] then -1
      else if candidates[nodes[0]] == token then nodes[0]
      else FirstMatch(nodes[1..], token)
    }

    /** The accepted nodes from `node` on: each the first child to carry what its parent predicts. */
    ghost function Walk(rank: seq<nat>, node: nat): (path: seq<nat>)
      requires Shaped() && Acyclic(rank) && node < Size()
      ensures path != [] && path[0] == node
      ensures forall i :: 0 <= i < |path| ==> path[i] < Size()
      decreases rank[node]
    {
      var m := FirstMatch(Children(rank, node), predict[node]);
      if m == -1 then [node] else [node] + Walk(rank, m)
    }

    /** A path down the tree. */
    ghost predicate IsPath(rank: seq<nat>, path: seq<nat>)
      requires Shaped() && Acyclic(rank)
    {
      && path != []
      && (forall i :: 0 <= i < |path| ==> path[i] < Size())
      && (forall i :: 0 < i < |path| ==> path[i] in Children(rank, path[i - 1]))
    }

    /** A path on which every node carries what its parent predicts. */
    ghost predicate IsAccepted(rank: seq<nat>, path: seq<nat>)
      requires Shaped() && Acyclic(rank)
    {
      IsPath(rank, path) && forall i :: 0 < i < |path| ==> candidates[path[i]] == predict[path[i - 1]]
    }

    ghost predicate DistinctAt(rank: seq<nat>, node: nat)
      requires Shaped() && Acyclic(rank) && node < Size()
    {
      forall a, b | a in Children(rank, node) && b in Children(rank, node) :: candidates[a] == candidates[b] ==> a == b
    }

    ghost predicate DistinctSiblings(rank: seq<nat>)
      requires Shaped() && Acyclic(rank)
    {
      forall node: nat | node < Size() :: DistinctAt(rank, node)
    }

    /** A node on some path from the root. */
    ghost predicate Reachable(rank: seq<nat>, node: nat)
      requires Shaped() && Acyclic(rank)
    {
      exists path :: IsPath(rank, path) && path[0] == 0 && path[|path| - 1] == node
    }

    /** At most one child of `node` carries what `node` predicts. */
    ghost predicate OneMatch(rank: seq<nat>, node: nat)
      requires Shaped() && Acyclic(rank) && node < Size()
    {
      forall a, b | a in Children(rank, node) && b in Children(rank, node) ::
        candidates[a] == predict[node] && candidates[b] == predict[node] ==> a == b
    }

    /** The walk from `node` meets no choice between matching children. */
    ghost predicate NoChoice(rank: seq<nat>, node: nat)
      requires Shaped() && Acyclic(rank) && node < Size()
    {
      forall i :: 0 <= i < |Walk(rank, node)| ==> OneMatch(rank, Walk(rank, node)[i])
    }

    /** Every accepted path from `node` is a prefix of the walk: none is deeper, and none turns off. */
    ghost predicate WalkCovers(rank: seq<nat>, node: nat)
      requires Shaped() && Acyclic(rank) && node < Size()
    {
      forall path | IsAccepted(rank, path) && path[0] == node :: path <= Walk(rank, node)
    }

    /** The walk is an accepted path, and no child of its end could extend it. */
    lemma {:induction false} WalkIsAccepted(rank: seq<nat>, node: nat)
      requires Shaped() && Acyclic(rank) && node < Size()
      ensures IsAccepted(rank, Walk(rank, node))
      ensures var path := Walk(rank, node);
        var end := path[|path| - 1];
        forall child :: child in Children(rank, end) ==> candidates[child] != predict[end]
      decreases rank[node]
    {
      var m := FirstMatch(Children(rank, node), predict[node]);
      if m != -1 {
        WalkIsAccepted(rank, m);
        var rest := Walk(rank, m);
        assert Walk(rank, node) == [node] + rest;
        AcceptedCons(rank, node, rest);
      }
    }

    lemma AcceptedCons(rank: seq<nat>, node: nat, rest: seq<nat>)
      requires Shaped() && Acyclic(rank) && node < Size() && IsAccepted(rank, rest)
      requires rest[0] in Children(rank, node) && candidates[rest[0]] == predict[node]
      ensures IsAccepted(rank, [node] + rest)
    {
      var path := [node] + rest;
      forall i | 0 < i < |path|
        ensures path[i] in Children(rank, path[i - 1]) && candidates[path[i]] == predict[path[i - 1]]
      {
        assert path[i] == rest[i - 1] && (i > 1 ==> path[i - 1] == rest[i - 2]);
      }
    }

    lemma AcceptedTail(rank: seq<nat>, path: seq<nat>)
      requires Shaped() && Acyclic(rank) && IsAccepted(rank, path) && |path| > 1
      ensures IsAccepted(rank, path[1..])
    {
      var rest := path[1..];
      assert forall i :: 0 < i < |rest| ==> rest[i] == path[i + 1] && rest[i - 1] == path[i];
    }

    lemma {:induction false} AcceptedIsPrefix(rank: seq<nat>, path: seq<nat>)
      requires Shaped() && Acyclic(rank) && IsAccepted(rank, path) && NoChoice(rank, path[0])
      ensures path <= Walk(rank, path[0])
      decreases |path|
    {
      if |path| > 1 {
        var node, rest := path[0], path[1..];
        assert rest[0] == path[1] && path[1] in Children(rank, node);
        AcceptedTail(rank, path);
        var m := FirstMatch(Children(rank, node), predict[node]);
        assert candidates[path[1]] == predict[path[0]];
        assert OneMatch(rank, Walk(rank, node)[0]);
        assert m == path[1];
        NoChoiceOnward(rank, node);
        AcceptedIsPrefix(rank, rest);
        assert path == [node] + rest;
      }
    }

    lemma NoChoiceOnward(rank: seq<nat>, node: nat)
      requires Shaped() && Acyclic(rank) && node < Size() && NoChoice(rank, node)
      ensures var m := FirstMatch(Children(rank, node), predict[node]);
        m != -1 ==> NoChoice(rank, m)
    {
      var m := FirstMatch(Children(rank, node), predict[node]);
      if m != -1 {
        forall i | 0 <= i < |Walk(rank, m)|
          ensures OneMatch(rank, Walk(rank, m)[i])
        {
          assert Walk(rank, node)[i + 1] == Walk(rank, m)[i];
        }
      }
    }

    /** A matching child extends the walk up to its parent to an accepted path. */
    lemma BranchIsAccepted(rank: seq<nat>, node: nat, i: nat, child: nat)
      requires Shaped() && Acyclic(rank) && node < Size() && i < |Walk(rank, node)|
      requires child in Children(rank, Walk(rank, node)[i]) && candidates[child] == predict[Walk(rank, node)[i]]
      ensures IsAccepted(rank, Walk(rank, node)[..i + 1] + [child])
    {
      WalkIsAccepted(rank, node);
      hide Row.Walk, Row.Children, Row.Acyclic;
      var walk, path := Walk(rank, node), Walk(rank, node)[..i + 1] + [child];
      forall j | 0 < j < |path|
        ensures path[j] in Children(rank, path[j - 1]) && candidates[path[j]] == predict[path[j - 1]]
      {
        assert path[j - 1] == walk[j - 1] && (j <= i ==> path[j] == walk[j]);
      }
    }

    /** The walk covers all accepted paths exactly when it never has a choice. */
    lemma WalkCoversIffNoChoice(rank: seq<nat>, node: nat)
      requires Shaped() && Acyclic(rank) && node < Size()
      ensures WalkCovers(rank, node) <==> NoChoice(rank, node)
    {
      var walk := Walk(rank, node);
      if NoChoice(rank, node) {
        forall path | IsAccepted(rank, path) && path[0] == node
          ensures path <= walk
        {
          AcceptedIsPrefix(rank, path);
        }
      }
      if WalkCovers(rank, node) {
        forall i, a, b |
          && 0 <= i < |walk| && a in Children(rank, walk[i]) && b in Children(rank, walk[i])
          && candidates[a] == predict[walk[i]] && candidates[b] == predict[walk[i]]
          ensures a == b
        {
          BranchIsAccepted(rank, node, i, a);
          BranchIsAccepted(rank, node, i, b);
          var left, right := walk[..i + 1] + [a], walk[..i + 1] + [b];
          assert left[0] == node && right[0] == node && left[i + 1] == a && right[i + 1] == b;
          assert left <= walk && right <= walk;
        }
      }
    }

    /** With distinct tokens among siblings, every accepted path is a prefix of the walk: the walk
        is the deepest one. */
    lemma WalkIsDeepest(rank: seq<nat>, path: seq<nat>)
      requires Shaped() && Acyclic(rank) && DistinctSiblings(rank) && IsAccepted(rank, path)
      ensures path <= Walk(rank, path[0])
    {
      forall i | 0 <= i < |Walk(rank, path[0])|
        ensures OneMatch(rank, Walk(rank, path[0])[i])
      {
        assert DistinctAt(rank, Walk(rank, path[0])[i]);
      }
      AcceptedIsPrefix(rank, path);
    }

    /** Whatever the target predicts. */

    lemma {:induction false} SiblingsIgnorePredictions(rank: seq<nat>, link: int, p: seq<int>)
      requires Shaped() && Acyclic(rank) && -1 <= link < Size() && |p| == Size()
      ensures this.(predict := p).Siblings(rank, link) == Siblings(rank, link)
      decreases Height(rank, link)
    {
      if link != -1 {
        SiblingsIgnorePredictions(rank, nextSibling[link], p);
      }
    }

    lemma PathsIgnorePredictions(rank: seq<nat>, p: seq<int>)
      requires Shaped() && Acyclic(rank) && |p| == Size()
      ensures forall node: nat | node < Size() :: this.(predict := p).Children(rank, node) == Children(rank, node)
      ensures forall path :: this.(predict := p).IsPath(rank, path) <==> IsPath(rank, path)
    {
      forall node: nat | node < Size()
        ensures this.(predict := p).Children(rank, node) == Children(rank, node)
      {
        SiblingsIgnorePredictions(rank, nextToken[node], p);
      }
    }

    /** Ranks fall along a path. */
    lemma {:induction false} PathDescends(rank: seq<nat>, path: seq<nat>, i: nat, j: nat)
      requires Shaped() && Acyclic(rank) && IsPath(rank, path) && i < j < |path|
      ensures rank[path[j]] < rank[path[i]]
    {
      assert path[j] in Children(rank, path[j - 1]);
      if i < j - 1 {
        PathDescends(rank, path, i, j - 1);
      }
    }

    /** Predictions that lead along `path`. */
    ghost predicate Leads(p: seq<int>, path: seq<nat>)
      requires |p| == Size() && forall i :: 0 <= i < |path| ==> path[i] < Size()
    {
      forall j :: 0 <= j < |path| - 1 ==> p[path[j]] == candidates[path[j + 1]]
    }

    lemma PredictionsFor(rank: seq<nat>, path: seq<nat>) returns (p: seq<int>)
      requires Shaped() && Acyclic(rank) && IsPath(rank, path)
      ensures |p| == Size() && Leads(p, path)
    {
      p := seq(Size(), _ => 0);
      for i := 0 to |path| - 1
        invariant |p| == Size() && forall j :: 0 <= j < i ==> p[path[j]] == candidates[path[j + 1]]
      {
        forall j | 0 <= j < i
          ensures path[j] != path[i]
        {
          PathDescends(rank, path, j, i);
        }
        p := p[path[i] := candidates[path[i + 1]]];
      }
    }

    /** The walk covers all accepted paths, whatever is predicted, exactly when siblings carry
        distinct tokens wherever a path from the root leads. */
    lemma AlwaysCoversIffDistinct(rank: seq<nat>)
      requires Shaped() && Acyclic(rank)
      ensures (forall p: seq<int> | |p| == Size() :: this.(predict := p).WalkCovers(rank, 0))
        <==> forall node: nat | node < Size() && Reachable(rank, node) :: DistinctAt(rank, node)
    {
      if forall node: nat | node < Size() && Reachable(rank, node) :: DistinctAt(rank, node) {
        forall p: seq<int> | |p| == Size()
          ensures this.(predict := p).WalkCovers(rank, 0)
        {
          DistinctCovers(rank, p);
        }
      }
      if forall p: seq<int> | |p| == Size() :: this.(predict := p).WalkCovers(rank, 0) {
        forall node: nat | node < Size() && Reachable(rank, node)
          ensures DistinctAt(rank, node)
        {
          CoversDistinguishes(rank, node);
        }
      }
    }

    lemma PrefixIsPath(rank: seq<nat>, path: seq<nat>, i: nat)
      requires Shaped() && Acyclic(rank) && IsPath(rank, path) && path[0] == 0 && i < |path|
      ensures Reachable(rank, path[i])
    {
      hide Row.Children, Row.Acyclic;
      var prefix := path[..i + 1];
      assert IsPath(rank, prefix) && prefix[0] == 0 && prefix[|prefix| - 1] == path[i];
    }

    lemma WalkStaysReachable(rank: seq<nat>, p: seq<int>, i: nat)
      requires Shaped() && Acyclic(rank) && |p| == Size() && i < |this.(predict := p).Walk(rank, 0)|
      ensures Reachable(rank, this.(predict := p).Walk(rank, 0)[i])
    {
      var row := this.(predict := p);
      PathsIgnorePredictions(rank, p);
      row.WalkIsAccepted(rank, 0);
      var walk := row.Walk(rank, 0);
      hide Row.Walk, Row.IsPath, Row.Acyclic, Row.Reachable, Row.Children;
      PrefixIsPath(rank, walk, i);
    }

    lemma DistinctCovers(rank: seq<nat>, p: seq<int>)
      requires Shaped() && Acyclic(rank) && |p| == Size()
      requires forall node: nat | node < Size() && Reachable(rank, node) :: DistinctAt(rank, node)
      ensures this.(predict := p).WalkCovers(rank, 0)
    {
      var row := this.(predict := p);
      var walk := row.Walk(rank, 0);
      PathsIgnorePredictions(rank, p);
      row.WalkCoversIffNoChoice(rank, 0);
      hide Row.Walk, Row.Children, Row.Siblings, Row.Acyclic, Row.WalkCovers, Row.Reachable;
      forall i | 0 <= i < |walk|
        ensures row.OneMatch(rank, walk[i])
      {
        WalkStaysReachable(rank, p, i);
        assert DistinctAt(rank, walk[i]);
      }
    }

    lemma LeadsIsAccepted(rank: seq<nat>, path: seq<nat>, p: seq<int>)
      requires Shaped() && Acyclic(rank) && IsPath(rank, path) && |p| == Size() && Leads(p, path)
      ensures this.(predict := p).IsAccepted(rank, path)
    {
      PathsIgnorePredictions(rank, p);
      hide Row.Children, Row.Acyclic, Row.IsPath;
      forall i | 0 < i < |path|
        ensures candidates[path[i]] == p[path[i - 1]]
      {
        var j := i - 1;
        assert p[path[j]] == candidates[path[j + 1]];
      }
    }

    /** Predictions that lead to one child lead to its twin. */
    lemma LeadsToTwin(path: seq<nat>, a: nat, b: nat, p: seq<int>)
      requires Shaped() && |p| == Size() && a < Size() && b < Size() && candidates[a] == candidates[b]
      requires (forall i :: 0 <= i < |path| ==> path[i] < Size()) && Leads(p, path + [a])
      ensures Leads(p, path + [b])
    {
      var left, right := path + [a], path + [b];
      forall j | 0 <= j < |right| - 1
        ensures p[right[j]] == candidates[right[j + 1]]
      {
        assert p[left[j]] == candidates[left[j + 1]];
      }
    }

    lemma CoversDistinguishes(rank: seq<nat>, node: nat)
      requires Shaped() && Acyclic(rank) && node < Size() && Reachable(rank, node)
      requires forall p: seq<int> | |p| == Size() :: this.(predict := p).WalkCovers(rank, 0)
      ensures DistinctAt(rank, node)
    {
      var path :| IsPath(rank, path) && path[0] == 0 && path[|path| - 1] == node;
      forall a, b | a in Children(rank, node) && b in Children(rank, node) && candidates[a] == candidates[b]
        ensures a == b
      {
        var left, right := path + [a], path + [b];
        ExtendPath(rank, path, a);
        ExtendPath(rank, path, b);
        var p := PredictionsFor(rank, left);
        LeadsToTwin(path, a, b, p);
        TwinsAgree(rank, path, a, b, p);
      }
    }

    lemma TwinsAgree(rank: seq<nat>, path: seq<nat>, a: nat, b: nat, p: seq<int>)
      requires Shaped() && Acyclic(rank) && |p| == Size() && path != [] && path[0] == 0
      requires IsPath(rank, path + [a]) && IsPath(rank, path + [b]) && Leads(p, path + [a]) && Leads(p, path + [b])
      requires this.(predict := p).WalkCovers(rank, 0)
      ensures a == b
    {
      var left, right := path + [a], path + [b];
      LeadsIsAccepted(rank, left, p);
      LeadsIsAccepted(rank, right, p);
      hide Row.Walk, Row.Children, Row.Acyclic, Row.IsAccepted, Row.IsPath, Row.Leads;
      assert left[0] == 0 && right[0] == 0 && left[|path|] == a && right[|path|] == b;
    }

    lemma ExtendPath(rank: seq<nat>, path: seq<nat>, child: nat)
      requires Shaped() && Acyclic(rank) && IsPath(rank, path) && child in Children(rank, path[|path| - 1])
      ensures IsPath(rank, path + [child])
    {
    }

    /** How deep the walk gets. */

    /** No accepted path from `node` is longer than the walk. */
    ghost predicate WalkIsLongest(rank: seq<nat>, node: nat)
      requires Shaped() && Acyclic(rank) && node < Size()
    {
      forall path | IsAccepted(rank, path) && path[0] == node :: |path| <= |Walk(rank, node)|
    }

    /** A child that repeats the token of an earlier sibling has no children. */
    ghost predicate RepeatsAreLeaves(rank: seq<nat>, node: nat)
      requires Shaped() && Acyclic(rank) && node < Size()
    {
      var nodes := Children(rank, node);
      forall i, j | 0 <= i < j < |nodes| && candidates[nodes[i]] == candidates[nodes[j]] ::
        Children(rank, nodes[j]) == []
    }

    /** A match that is not the first one comes later. */
    lemma {:induction false} OtherMatchIsLater(nodes: seq<nat>, token: int, x: nat)
      requires forall i :: 0 <= i < |nodes| ==> nodes[i] < |candidates|
      requires x in nodes && candidates[x] == token && FirstMatch(nodes, token) != x
      ensures exists i, j :: 0 <= i < j < |nodes| && nodes[i] == FirstMatch(nodes, token) && nodes[j] == x
    {
      if candidates[nodes[0]] == token {
        var j :| 0 <= j < |nodes| && nodes[j] == x;
      } else {
        OtherMatchIsLater(nodes[1..], token, x);
        var i, j :| 0 <= i < j < |nodes[1..]| && nodes[1..][i] == FirstMatch(nodes, token) && nodes[1..][j] == x;
        assert nodes[i + 1] == FirstMatch(nodes, token) && nodes[j + 1] == x;
      }
    }

    /** An earlier match keeps a later one from being the first. */
    lemma {:induction false} FirstMatchBefore(nodes: seq<nat>, i: nat, j: nat)
      requires forall k :: 0 <= k < |nodes| ==> nodes[k] < |candidates|
      requires forall k, l :: 0 <= k < l < |nodes| ==> nodes[k] != nodes[l]
      requires i < j < |nodes| && candidates[nodes[i]] == candidates[nodes[j]]
      ensures FirstMatch(nodes, candidates[nodes[j]]) != nodes[j]
    {
      if candidates[nodes[0]] != candidates[nodes[j]] {
        FirstMatchBefore(nodes[1..], i - 1, j - 1);
      }
    }

    lemma {:induction false} SiblingsDescend(rank: seq<nat>, link: int, i: nat, j: nat)
      requires Shaped() && Acyclic(rank) && -1 <= link < Size() && i < j < |Siblings(rank, link)|
      ensures rank[Siblings(rank, link)[j]] < rank[Siblings(rank, link)[i]]
      decreases Height(rank, link)
    {
      if i > 0 {
        SiblingsDescend(rank, nextSibling[link], i - 1, j - 1);
      }
    }

    /** Where repeats are leaves, turning off the walk gains nothing. */
    lemma {:induction false} LeavesSuffice(rank: seq<nat>, path: seq<nat>)
      requires Shaped() && Acyclic(rank) && IsAccepted(rank, path)
      requires forall i :: 0 <= i < |path| ==> RepeatsAreLeaves(rank, path[i])
      ensures |path| <= |Walk(rank, path[0])|
      decreases |path|
    {
      if |path| > 1 {
        var nodes, token := Children(rank, path[0]), predict[path[0]];
        var m := FirstMatch(nodes, token);
        assert path[1] in nodes && candidates[path[1]] == token;
        assert |path| > 2 ==> path[2] in Children(rank, path[1]);
        if m == path[1] {
          AcceptedTail(rank, path);
          LeavesSuffice(rank, path[1..]);
        } else {
          OtherMatchIsLater(nodes, token, path[1]);
          assert RepeatsAreLeaves(rank, path[0]);
        }
      }
    }

    lemma {:induction false} FirstMatchIgnoresPredictions(nodes: seq<nat>, token: int, p: seq<int>)
      requires forall i :: 0 <= i < |nodes| ==> nodes[i] < |candidates|
      ensures this.(predict := p).FirstMatch(nodes, token) == FirstMatch(nodes, token)
    {
      if nodes != [] {
        FirstMatchIgnoresPredictions(nodes[1..], token, p);
      }
    }

    /** Whatever is predicted the walk is the longest accepted path, exactly when at every node a path
        from the root leads to, a child that repeats an earlier sibling's token has no children. */
    lemma AlwaysLongestIffRepeatsAreLeaves(rank: seq<nat>)
      requires Shaped() && Acyclic(rank)
      ensures (forall p: seq<int> | |p| == Size() :: this.(predict := p).WalkIsLongest(rank, 0))
        <==> forall node: nat | node < Size() && Reachable(rank, node) :: RepeatsAreLeaves(rank, node)
    {
      if forall node: nat | node < Size() && Reachable(rank, node) :: RepeatsAreLeaves(rank, node) {
        forall p: seq<int> | |p| == Size()
          ensures this.(predict := p).WalkIsLongest(rank, 0)
        {
          LeavesMakeLongest(rank, p);
        }
      }
      if forall p: seq<int> | |p| == Size() :: this.(predict := p).WalkIsLongest(rank, 0) {
        forall node: nat | node < Size() && Reachable(rank, node)
          ensures RepeatsAreLeaves(rank, node)
        {
          LongestHasLeaves(rank, node);
        }
      }
    }

    lemma LeavesMakeLongest(rank: seq<nat>, p: seq<int>)
      requires Shaped() && Acyclic(rank) && |p| == Size()
      requires forall node: nat | node < Size() && Reachable(rank, node) :: RepeatsAreLeaves(rank, node)
      ensures this.(predict := p).WalkIsLongest(rank, 0)
    {
      var row := this.(predict := p);
      PathsIgnorePredictions(rank, p);
      hide Row.Walk, Row.Children, Row.Siblings, Row.Acyclic, Row.Reachable;
      forall path | row.IsAccepted(rank, path) && path[0] == 0
        ensures |path| <= |row.Walk(rank, 0)|
      {
        forall i | 0 <= i < |path|
          ensures row.RepeatsAreLeaves(rank, path[i])
        {
          PrefixIsPath(rank, path, i);
          assert RepeatsAreLeaves(rank, path[i]);
        }
        row.LeavesSuffice(rank, path);
      }
    }

    lemma LongestHasLeaves(rank: seq<nat>, node: nat)
      requires Shaped() && Acyclic(rank) && node < Size() && Reachable(rank, node)
      requires forall p: seq<int> | |p| == Size() :: this.(predict := p).WalkIsLongest(rank, 0)
      ensures RepeatsAreLeaves(rank, node)
    {
      var path :| IsPath(rank, path) && path[0] == 0 && path[|path| - 1] == node;
      var nodes := Children(rank, node);
      forall i, j | 0 <= i < j < |nodes| && candidates[nodes[i]] == candidates[nodes[j]]
        ensures Children(rank, nodes[j]) == []
      {
        SiblingsDiffer(rank, nextToken[node]);
        FirstMatchBefore(nodes, i, j);
        hide Row.WalkIsLongest, Row.Siblings, Row.Acyclic, Row.FirstMatch, Row.Shaped;
        OtherMatchIsLeaf(rank, path, nodes[j]);
      }
    }

    lemma SiblingsDiffer(rank: seq<nat>, link: int)
      requires Shaped() && Acyclic(rank) && -1 <= link < Size()
      ensures forall k, l :: 0 <= k < l < |Siblings(rank, link)| ==> Siblings(rank, link)[k] != Siblings(rank, link)[l]
    {
      forall k, l | 0 <= k < l < |Siblings(rank, link)|
        ensures Siblings(rank, link)[k] != Siblings(rank, link)[l]
      {
        SiblingsDescend(rank, link, k, l);
      }
    }

    lemma OtherMatchIsLeaf(rank: seq<nat>, path: seq<nat>, x: nat)
      requires Shaped() && Acyclic(rank) && IsPath(rank, path) && path[0] == 0
      requires x in Children(rank, path[|path| - 1])
      requires FirstMatch(Children(rank, path[|path| - 1]), candidates[x]) != x
      requires forall p: seq<int> | |p| == Size() :: this.(predict := p).WalkIsLongest(rank, 0)
      ensures Children(rank, x) == []
    {
      if Children(rank, x) != [] {
        var child := Children(rank, x)[0];
        var longer := path + [x] + [child];
        ExtendPath(rank, path, x);
        ExtendPath(rank, path + [x], child);
        assert longer[|path| - 1] == path[|path| - 1] && longer[|path|] == x && longer[0] == 0;
        hide Row.WalkIsLongest, Row.Children, Row.Acyclic, Row.FirstMatch, Row.Shaped, Row.IsPath;
        var p := MissedPath(rank, longer, |path| - 1);
      }
    }

    /** The child the walk takes at `path[i]` when it is to be led to `path[i + 1]`. */
    ghost function Taken(rank: seq<nat>, path: seq<nat>, i: nat): int
      requires Shaped() && Acyclic(rank) && IsPath(rank, path) && i + 1 < |path|
    {
      FirstMatch(Children(rank, path[i]), candidates[path[i + 1]])
    }

    lemma TakenIsBelow(rank: seq<nat>, path: seq<nat>, i: nat)
      requires Shaped() && Acyclic(rank) && IsPath(rank, path) && i + 1 < |path|
      ensures 0 <= Taken(rank, path, i) < Size() && rank[Taken(rank, path, i)] < rank[path[i]]
      ensures forall s :: 0 <= s <= i ==> path[s] != Taken(rank, path, i)
    {
      assert path[i + 1] in Children(rank, path[i]);
      hide Row.Children, Row.FirstMatch;
      forall s | 0 <= s < i
        ensures rank[path[i]] < rank[path[s]]
      {
        PathDescends(rank, path, s, i);
      }
    }

    /** Predictions that lead along the path, up to the first node where the walk turns off, and let
        the walk stop where it goes instead. */
    ghost predicate TurnsOff(rank: seq<nat>, path: seq<nat>, t: nat, p: seq<int>)
      requires Shaped() && Acyclic(rank)
    {
      && IsPath(rank, path) && t + 2 < |path| && |p| == Size()
      && (forall s :: 0 <= s < t ==> Taken(rank, path, s) == path[s + 1])
      && (forall s :: 0 <= s <= t + 1 ==> p[path[s]] == candidates[path[s + 1]])
      && 0 <= Taken(rank, path, t) < Size() && p[Taken(rank, path, t)] !in candidates
    }

    /** A path that turns off the walk and goes on can be longer than the walk. */
    lemma MissedPath(rank: seq<nat>, path: seq<nat>, off: nat) returns (p: seq<int>)
      requires Shaped() && Acyclic(rank) && IsPath(rank, path) && path[0] == 0
      requires off + 2 < |path| && Taken(rank, path, off) != path[off + 1]
      ensures |p| == Size() && !this.(predict := p).WalkIsLongest(rank, 0)
    {
      hide Row.Walk, Row.WalkIsLongest, Row.Children, Row.Acyclic, Row.FirstMatch, Row.Taken;
      var t := 0;
      while Taken(rank, path, t) == path[t + 1]
        invariant t <= off && forall s :: 0 <= s < t ==> Taken(rank, path, s) == path[s + 1]
        decreases off - t
      {
        t := t + 1;
      }
      TakenIsBelow(rank, path, t);
      var unused := FreshToken(candidates);
      p := PredictionsFor(rank, path);
      forall s | 0 <= s <= t + 1
        ensures p[path[s]] == candidates[path[s + 1]] && path[s] != Taken(rank, path, t)
      {
      }
      p := p[Taken(rank, path, t) := unused];
      assert TurnsOff(rank, path, t, p);
      StopsShort(rank, path, t, p);
    }

    lemma StopsShort(rank: seq<nat>, path: seq<nat>, t: nat, p: seq<int>)
      requires Shaped() && Acyclic(rank) && TurnsOff(rank, path, t, p) && path[0] == 0
      ensures !this.(predict := p).WalkIsLongest(rank, 0)
    {
      var front := path[..t + 3];
      WalkTo(rank, path, t, p, 0);
      hide Row.Walk, Row.Children, Row.Acyclic, Row.Taken;
      assert IsPath(rank, front) && Leads(p, front);
      LeadsIsAccepted(rank, front, p);
    }

    /** Led along `path`, the walk leaves it after `path[t]` and stops. */
    lemma {:induction false} WalkTo(rank: seq<nat>, path: seq<nat>, t: nat, p: seq<int>, s: nat)
      requires Shaped() && Acyclic(rank) && TurnsOff(rank, path, t, p) && s <= t
      ensures |this.(predict := p).Walk(rank, path[s])| == t + 2 - s
      decreases t - s
    {
      var row := this.(predict := p);
      PathsIgnorePredictions(rank, p);
      FirstMatchIgnoresPredictions(Children(rank, path[s]), candidates[path[s + 1]], p);
      var taken := Taken(rank, path, s);
      assert row.FirstMatch(row.Children(rank, path[s]), row.predict[path[s]]) == taken;
      if s < t {
        WalkTo(rank, path, t, p, s + 1);
      } else {
        NoMatch(row.Children(rank, taken), p);
      }
      hide Row.Children, Row.Acyclic, Row.Taken, Row.FirstMatch;
    }

    lemma NoMatch(nodes: seq<nat>, p: seq<int>)
      requires forall i :: 0 <= i < |nodes| ==> nodes[i] < |candidates|
      ensures forall token | token !in candidates :: this.(predict := p).FirstMatch(nodes, token) == -1
    {
    }
  }

  lemma {:induction false} FreshToken(tokens: seq<int>) returns (unused: int)
    ensures forall i :: 0 <= i < |tokens| ==> tokens[i] < unused
  {
    if tokens == [] {
      unused := 0;
    } else {
      unused := FreshToken(tokens[1..]);
      if unused <= tokens[0] {
        unused := tokens[0] + 1;
      }
    }
  }

  /** A root with two children that carry the same token, the second of which has a child. */
  const TWINS := Row([9, 5, 5, 6], [0, 1, 2, 3], [1, -1, 3, -1], [-1, 2, -1, -1], [5, 6, 6, 0])
  const TWIN_RANK: seq<nat> := [9, 8, 7, 6]

  lemma TwinLinks()
    ensures TWINS.Shaped() && TWINS.Acyclic(TWIN_RANK)
    ensures TWINS.Children(TWIN_RANK, 0) == [1, 2] && TWINS.Children(TWIN_RANK, 2) == [3]
    ensures TWINS.Children(TWIN_RANK, 1) == []
  {
    assert TWINS.Shaped() && TWINS.Acyclic(TWIN_RANK);
    hide Row.Shaped, Row.Acyclic;
    assert TWINS.Siblings(TWIN_RANK, 3) == [3];
    assert TWINS.Siblings(TWIN_RANK, 2) == [2];
    assert TWINS.Siblings(TWIN_RANK, 1) == [1] + TWINS.Siblings(TWIN_RANK, 2);
  }

  /** Without distinct sibling tokens the first match can be a dead end beside a deeper path. */
  lemma DuplicateSiblingsLoseDepth()
    ensures TWINS.Shaped() && TWINS.Acyclic(TWIN_RANK)
    ensures TWINS.IsAccepted(TWIN_RANK, [0, 2, 3]) && TWINS.Walk(TWIN_RANK, 0) == [0, 1]
  {
    TwinLinks();
    hide Row.Children, Row.Acyclic, Row.Siblings;
    assert TWINS.FirstMatch([1, 2], 5) == 1;
    assert TWINS.FirstMatch([], 6) == -1;
    assert TWINS.Walk(TWIN_RANK, 1) == [1];
    var path := [0, 2, 3];
    assert path[1] in TWINS.Children(TWIN_RANK, path[0]);
    assert path[2] in TWINS.Children(TWIN_RANK, path[1]);
  }

  ghost predicate BatchOk(rows: seq<Row>, ranks: seq<seq<nat>>) {
    && |ranks| == |rows|
    && forall r :: 0 <= r < |rows| ==> rows[r].Shaped() && rows[r].Acyclic(ranks[r])
  }

  ghost function WalkOf(rows: seq<Row>, ranks: seq<seq<nat>>, r: nat): seq<nat>
    requires BatchOk(rows, ranks) && r < |rows|
  {
    rows[r].Walk(ranks[r], 0)
  }

  /** Two nodes of the batch never share an output slot. */
  ghost predicate SlotsDistinct(rows: seq<Row>) {
    forall r, q, i, j | 0 <= r < |rows| && 0 <= q < |rows| && 0 <= i < |rows[r].index| && 0 <= j < |rows[q].index| ::
      rows[r].index[i] == rows[q].index[j] ==> r == q && i == j
  }

  function SlotsOf(row: Row, path: seq<nat>): (slots: seq<nat>)
    requires forall i :: 0 <= i < |path| ==> path[i] < |row.index|
    ensures |slots| == |path|
  {
    seq(|path|, i requires 0 <= i < |path| => row.index[path[i]])
  }

  function MaxOf(s: seq<nat>): (m: nat)
    requires s != []
    ensures m in s && forall i :: 0 <= i < |s| ==> s[i] <= m
  {
    assert s == [s[0]] + s[1..];
    if |s| == 1 then s[0]
    else
      var rest := MaxOf(s[1..]);
      if s[0] >= rest then s[0] else rest
  }

  function MaxSlot(rows: seq<Row>): (m: nat)
    requires rows != [] && forall r :: 0 <= r < |rows| ==> rows[r].index != []
    ensures forall r, i :: 0 <= r < |rows| && 0 <= i < |rows[r].index| ==> rows[r].index[i] <= m
  {
    var first := MaxOf(rows[0].index);
    if |rows| == 1 then first
    else
      assert forall r :: 0 < r < |rows| ==> rows[r] == rows[1..][r - 1];
      var rest := MaxSlot(rows[1..]);
      if first >= rest then first else rest
  }

  /** Slot `s` belongs to the walk of one of the first `n` rows. */
  ghost predicate Visited(rows: seq<Row>, ranks: seq<seq<nat>>, n: nat, s: nat)
    requires BatchOk(rows, ranks) && n <= |rows|
  {
    exists r :: 0 <= r < n && s in SlotsOf(rows[r], WalkOf(rows, ranks, r))
  }

  /** Every slot of the walk of row `r` holds the prediction made there. */
  ghost predicate Filled(row: Row, path: seq<nat>, predicts: seq<int>)
    requires row.Shaped() && forall i :: 0 <= i < |path| ==> path[i] < row.Size()
  {
    forall i :: 0 <= i < |path| ==>
      row.index[path[i]] < |predicts| && predicts[row.index[path[i]]] == row.predict[path[i]]
  }

  /** Looks for the first child carrying the prediction, along the sibling links. */
  method FindChild(row: Row, ghost rank: seq<nat>, cur: nat) returns (matched: int)
    requires row.Shaped() && row.Acyclic(rank) && cur < row.Size()
    ensures matched == row.FirstMatch(row.Children(rank, cur), row.predict[cur])
  {
    var child := row.nextToken[cur];
    matched := -1;
    while child != -1
      invariant -1 <= child < row.Size() && matched == -1
      invariant row.FirstMatch(row.Siblings(rank, child), row.predict[cur]) ==
                row.FirstMatch(row.Children(rank, cur), row.predict[cur])
      decreases row.Height(rank, child)
    {
      assert row.Siblings(rank, child)[1..] == row.Siblings(rank, row.nextSibling[child]);
      if row.candidates[child] == row.predict[cur] {
        return child;
      }
      child := row.nextSibling[child];
    }
  }

  /** One step of the walk: stop here, or go on to the matching child. */
  lemma WalkStep(row: Row, rank: seq<nat>, done: seq<nat>, cur: nat)
    requires row.Shaped() && row.Acyclic(rank) && cur < row.Size()
    requires done + row.Walk(rank, cur) == row.Walk(rank, 0)
    ensures var m := row.FirstMatch(row.Children(rank, cur), row.predict[cur]);
      if m == -1 then done + [cur] == row.Walk(rank, 0)
      else rank[m] < rank[cur] && done + [cur] + row.Walk(rank, m) == row.Walk(rank, 0)
  {
    var m := row.FirstMatch(row.Children(rank, cur), row.predict[cur]);
    assert row.Walk(rank, cur) == if m == -1 then [cur] else [cur] + row.Walk(rank, m);
    assert m == -1 || rank[m] < rank[cur];
    hide Row.Walk, Row.Children, Row.FirstMatch, Row.Acyclic;
    if m != -1 {
      assert done + ([cur] + row.Walk(rank, m)) == done + [cur] + row.Walk(rank, m);
    }
  }

  lemma SlotsSnoc(row: Row, path: seq<nat>, node: nat)
    requires forall i :: 0 <= i < |path| ==> path[i] < |row.index|
    requires node < |row.index|
    ensures SlotsOf(row, path + [node]) == SlotsOf(row, path) + [row.index[node]]
  {
  }

  /** Walks one row, writing the predictions of the nodes it passes. */
  method WalkRow(row: Row, ghost rank: seq<nat>, predicts: array<int>) returns (path: seq<nat>)
    requires row.Shaped() && row.Acyclic(rank)
    requires forall i :: 0 <= i < row.Size() ==> row.index[i] < predicts.Length
    modifies predicts
    ensures path == SlotsOf(row, row.Walk(rank, 0))
    ensures forall s :: 0 <= s < predicts.Length && s !in path ==> predicts[s] == old(predicts[s])
    ensures SlotsDistinct([row]) ==> Filled(row, row.Walk(rank, 0), predicts[..])
  {
    assert |rank| == row.Size();
    hide Row.Walk, Row.Children, Row.FirstMatch, Row.Acyclic, SlotsOf, SlotsDistinct, Filled;
    var cur := 0;
    path := [row.index[0]];
    ghost var done: seq<nat> := [];
    SlotsSnoc(row, [], 0);
    while true
      invariant cur < row.Size() && done + row.Walk(rank, cur) == row.Walk(rank, 0)
      invariant forall i :: 0 <= i < |done| ==> done[i] < row.Size()
      invariant path == SlotsOf(row, done) + [row.index[cur]]
      invariant forall s :: 0 <= s < predicts.Length && s !in SlotsOf(row, done) ==> predicts[s] == old(predicts[s])
      invariant SlotsDistinct([row]) ==> Filled(row, done, predicts[..])
      decreases rank[cur]
    {
      WriteFills(row, done, cur, predicts[..]);
      ghost var before := predicts[..];
      predicts[row.index[cur]] := row.predict[cur];
      assert predicts[..] == before[row.index[cur] := row.predict[cur]];
      var matched := FindChild(row, rank, cur);
      WalkStep(row, rank, done, cur);
      SlotsSnoc(row, done, cur);
      if matched == -1 {
        return;
      }
      path := path + [row.index[matched]];
      done := done + [cur];
      cur := matched;
    }
  }

  lemma WriteFills(row: Row, done: seq<nat>, cur: nat, predicts: seq<int>)
    requires row.Shaped() && cur < row.Size() && row.index[cur] < |predicts|
    requires forall i :: 0 <= i < |done| ==> done[i] < row.Size()
    ensures SlotsDistinct([row]) && Filled(row, done, predicts) ==>
      Filled(row, done + [cur], predicts[row.index[cur] := row.predict[cur]])
  {
    if SlotsDistinct([row]) && Filled(row, done, predicts) {
      var path, after := done + [cur], predicts[row.index[cur] := row.predict[cur]];
      forall i | 0 <= i < |path|
        ensures row.index[path[i]] < |after| && after[row.index[path[i]]] == row.predict[path[i]]
      {
        assert [row][0] == row;
      }
    }
  }

  /** Walks every row of the batch. The predictions start as -1 in every slot. */
  method VerifyTreeGreedy(rows: seq<Row>, ghost ranks: seq<seq<nat>>)
    returns (predicts: array<int>, acceptIndex: seq<seq<nat>>, acceptTokenNum: seq<nat>)
    requires rows != [] && BatchOk(rows, ranks)
    ensures predicts.Length == MaxSlot(rows) + 1
    ensures |acceptIndex| == |acceptTokenNum| == |rows|
    ensures forall r :: 0 <= r < |rows| ==> |acceptIndex[r]| == |WalkOf(rows, ranks, r)|
    ensures forall r, i :: 0 <= r < |rows| && 0 <= i < |acceptIndex[r]| ==>
      WalkOf(rows, ranks, r)[i] < |rows[r].index| && acceptIndex[r][i] == rows[r].index[WalkOf(rows, ranks, r)[i]]
    ensures forall r :: 0 <= r < |rows| ==> acceptIndex[r] == SlotsOf(rows[r], WalkOf(rows, ranks, r))
    ensures forall r :: 0 <= r < |rows| ==> acceptTokenNum[r] == |WalkOf(rows, ranks, r)| - 1
    ensures forall s :: 0 <= s < predicts.Length && !Visited(rows, ranks, |rows|, s) ==> predicts[s] == -1
    ensures SlotsDistinct(rows) ==>
      forall r :: 0 <= r < |rows| ==> Filled(rows[r], WalkOf(rows, ranks, r), predicts[..])
  {
    hide Row.Walk, Row.Acyclic, SlotsOf, Filled, SlotsDistinct;
    predicts := new int[MaxSlot(rows) + 1](_ => -1);
    acceptIndex, acceptTokenNum := [], [];
    for r := 0 to |rows|
      invariant |acceptIndex| == |acceptTokenNum| == r
      invariant forall q :: 0 <= q < r ==> acceptIndex[q] == SlotsOf(rows[q], WalkOf(rows, ranks, q))
      invariant forall q :: 0 <= q < r ==> acceptTokenNum[q] == |WalkOf(rows, ranks, q)| - 1
      invariant forall s :: 0 <= s < predicts.Length && !Visited(rows, ranks, r, s) ==> predicts[s] == -1
      invariant SlotsDistinct(rows) ==> forall q :: 0 <= q < r ==> Filled(rows[q], WalkOf(rows, ranks, q), predicts[..])
    {
      ghost var before := predicts[..];
      var path := WalkRow(rows[r], ranks[r], predicts);
      if SlotsDistinct(rows) {
        OtherRowsKept(rows, ranks, r, before, predicts[..]);
      }
      acceptIndex := acceptIndex + [path];
      acceptTokenNum := acceptTokenNum + [|path| - 1];
    }
    SlotsAreIndices(rows, ranks, acceptIndex);
  }

  lemma SlotsAreIndices(rows: seq<Row>, ranks: seq<seq<nat>>, acceptIndex: seq<seq<nat>>)
    requires BatchOk(rows, ranks) && |acceptIndex| == |rows|
    requires forall r :: 0 <= r < |rows| ==> acceptIndex[r] == SlotsOf(rows[r], WalkOf(rows, ranks, r))
    ensures forall r :: 0 <= r < |rows| ==> |acceptIndex[r]| == |WalkOf(rows, ranks, r)|
    ensures forall r, i :: 0 <= r < |rows| && 0 <= i < |acceptIndex[r]| ==>
      WalkOf(rows, ranks, r)[i] < |rows[r].index| && acceptIndex[r][i] == rows[r].index[WalkOf(rows, ranks, r)[i]]
  {
    hide Row.Walk, Row.Acyclic;
  }

  /** No two rows write the same slot: walking a row leaves earlier rows' predictions in place. */
  lemma OtherRowsKept(rows: seq<Row>, ranks: seq<seq<nat>>, r: nat, before: seq<int>, after: seq<int>)
    requires BatchOk(rows, ranks) && r < |rows| && SlotsDistinct(rows) && |before| == |after|
    requires forall q :: 0 <= q < r ==> Filled(rows[q], WalkOf(rows, ranks, q), before)
    requires forall s :: 0 <= s < |before| && s !in SlotsOf(rows[r], WalkOf(rows, ranks, r)) ==> after[s] == before[s]
    ensures SlotsDistinct([rows[r]])
    ensures forall q :: 0 <= q < r ==> Filled(rows[q], WalkOf(rows, ranks, q), after)
  {
    forall q | 0 <= q < r
      ensures Filled(rows[q], WalkOf(rows, ranks, q), after)
    {
      var path := WalkOf(rows, ranks, q);
      forall i | 0 <= i < |path|
        ensures after[rows[q].index[path[i]]] == before[rows[q].index[path[i]]]
      {
      }
    }
  }
}
