/** The order in which the anchored nodes of a block are rendered. */
module NodeGraphRenderers {
  import opened Wrappers

  /**
   The inputs of the nodes. Nodes are numbers, which tell them apart. `usable` are the inputs that
   count: those that are there and reachable, that are not start, end or block nodes, and that are
   not the memory chain of a load or a store.
   */
  datatype Graph = Graph(usable: map<nat, seq<nat>>, floating: set<nat>, anchored: set<nat>) {

    predicate WellFormed() {
      && anchored !! floating && anchored <= usable.Keys && floating <= usable.Keys
      && forall n, i :: n in usable && 0 <= i < |usable[n]| ==> usable[n][i] in usable
    }

    /** A path from `n` through floating inputs only comes to the input `m` in so many steps. */
    ghost predicate Feeds(m: nat, n: nat, steps: nat)
      decreases steps
    {
      && n in usable
      && if steps == 0 then m in usable[n]
         else exists f :: f in usable[n] && f in floating && Feeds(m, f, steps - 1)
    }

    /** The anchored nodes that feed the node, directly or through floating nodes. */
    ghost predicate DependsOn(n: nat, m: nat) {
      m in anchored && exists steps: nat :: Feeds(m, n, steps)
    }

    lemma {:induction false} FeedsThrough(m: nat, f: nat, n: nat, i: nat, j: nat)
      requires f in floating && Feeds(f, n, i) && Feeds(m, f, j)
      ensures Feeds(m, n, i + j + 1)
      decreases i
    {
      if i > 0 {
        var g :| g in usable[n] && g in floating && Feeds(f, g, i - 1);
        FeedsThrough(m, f, g, i - 1, j);
      }
    }
  }

  // ---- collecting dependencies ----

  /** The inputs of `n` are accounted for: anchored ones are found, floating ones visited. */
  ghost predicate Accounted(g: Graph, n: nat, found: set<nat>, visited: set<nat>) {
    n in g.usable ==> forall m :: m in g.usable[n] ==> (m in g.anchored ==> m in found) && (m in g.floating ==> m in visited)
  }

  /** All that has been found or visited feeds the node. */
  ghost predicate AllFeed(g: Graph, root: nat, found: set<nat>, visited: set<nat>) {
    && (forall m :: m in found ==> g.DependsOn(root, m))
    && (forall f :: f in visited ==> f in g.floating && exists steps: nat :: g.Feeds(f, root, steps))
  }

  /** The node that is visited is the root, or a floating node that feeds it. */
  ghost predicate Visits(g: Graph, root: nat, n: nat) {
    n in g.usable && (n == root || (n in g.floating && exists steps: nat :: g.Feeds(n, root, steps)))
  }

  lemma InputFeeds(g: Graph, root: nat, n: nat, m: nat)
    requires g.WellFormed() && Visits(g, root, n) && m in g.usable[n]
    ensures exists steps: nat :: g.Feeds(m, root, steps)
  {
    assert g.Feeds(m, n, 0);
    if n != root {
      var steps: nat :| g.Feeds(n, root, steps);
      g.FeedsThrough(m, n, root, steps, 0);
    }
  }

  /**
   Walks from a node through floating inputs. On return the inputs of the node and of every
   floating node that was visited on the way are accounted for.
   */
  method CollectAnchoredDeps(g: Graph, n: nat, found0: set<nat>, visited0: set<nat>, ghost root: nat)
    returns (found: set<nat>, visited: set<nat>)
    requires g.WellFormed() && Visits(g, root, n) && AllFeed(g, root, found0, visited0)
    ensures AllFeed(g, root, found, visited) && found0 <= found && visited0 <= visited
    ensures Accounted(g, n, found, visited)
    ensures forall f :: f in visited - visited0 ==> Accounted(g, f, found, visited)
    decreases g.floating - visited0
  {
    hide Graph.Feeds, AllFeed, Graph.DependsOn, Accounted;
    found, visited := found0, visited0;
    var inputs := g.usable[n];
    for i := 0 to |inputs|
      invariant AllFeed(g, root, found, visited) && found0 <= found && visited0 <= visited
      invariant forall m :: m in inputs[..i] ==> (m in g.anchored ==> m in found) && (m in g.floating ==> m in visited)
      invariant forall f :: f in visited - visited0 ==> Accounted(g, f, found, visited)
    {
      var input := inputs[i];
      assert inputs[..i + 1] == inputs[..i] + [input];
      if input !in g.floating {
        if input in g.anchored {
          FoundFeeds(g, root, n, input, found, visited);
          StillAccounted(g, visited - visited0, found, visited, found + {input}, visited);
          found := found + {input};
        }
      } else if input !in visited {
        ghost var found1, visited1 := found, visited;
        VisitedFeeds(g, root, n, input, found, visited);
        visited := visited + {input};
        assert input in g.floating - visited0 && input !in g.floating - visited;
        found, visited := CollectAnchoredDeps(g, input, found, visited, root);
        StillAccounted(g, visited1 - visited0, found1, visited1, found, visited);
      }
    }
    assert inputs[..|inputs|] == inputs;
    InputsAccounted(g, n, found, visited);
  }

  lemma InputsAccounted(g: Graph, n: nat, found: set<nat>, visited: set<nat>)
    requires n in g.usable
    requires forall m :: m in g.usable[n] ==> (m in g.anchored ==> m in found) && (m in g.floating ==> m in visited)
    ensures Accounted(g, n, found, visited)
  {
  }

  /** What is accounted for stays so when more is found. */
  lemma StillAccounted(g: Graph, nodes: set<nat>, found: set<nat>, visited: set<nat>, found': set<nat>, visited': set<nat>)
    requires found <= found' && visited <= visited' && forall f :: f in nodes ==> Accounted(g, f, found, visited)
    ensures forall f :: f in nodes ==> Accounted(g, f, found', visited')
  {
  }

  lemma FoundFeeds(g: Graph, root: nat, n: nat, m: nat, found: set<nat>, visited: set<nat>)
    requires g.WellFormed() && Visits(g, root, n) && m in g.usable[n] && m in g.anchored && AllFeed(g, root, found, visited)
    ensures AllFeed(g, root, found + {m}, visited)
  {
    InputFeeds(g, root, n, m);
  }

  lemma VisitedFeeds(g: Graph, root: nat, n: nat, f: nat, found: set<nat>, visited: set<nat>)
    requires g.WellFormed() && Visits(g, root, n) && f in g.usable[n] && f in g.floating && AllFeed(g, root, found, visited)
    ensures AllFeed(g, root, found, visited + {f}) && Visits(g, root, f)
  {
    InputFeeds(g, root, n, f);
  }

  /** With everything accounted for, all dependencies have been found. */
  lemma {:induction false} AllFound(g: Graph, n: nat, m: nat, steps: nat, found: set<nat>, visited: set<nat>)
    requires g.WellFormed() && m in g.anchored && g.Feeds(m, n, steps)
    requires Accounted(g, n, found, visited) && forall f :: f in visited ==> Accounted(g, f, found, visited)
    ensures m in found
    decreases steps
  {
    if steps > 0 {
      var f :| f in g.usable[n] && f in g.floating && g.Feeds(m, f, steps - 1);
      AllFound(g, f, m, steps - 1, found, visited);
    }
  }

  method AnchoredDeps(g: Graph, n: nat) returns (deps: set<nat>)
    requires g.WellFormed() && n in g.anchored
    ensures forall m :: m in deps <==> g.DependsOn(n, m)
  {
    var visited;
    deps, visited := CollectAnchoredDeps(g, n, {}, {}, n);
    forall m | g.DependsOn(n, m)
      ensures m in deps
    {
      var steps: nat :| g.Feeds(m, n, steps);
      AllFound(g, n, m, steps, deps, visited);
    }
  }

  // ---- sorting ----

  /** The rank that decides between nodes that are ready: phis first, terminators last, then by number. */
  datatype Kind = Kind(isPhi: bool, isTerminator: bool)

  predicate Before(kinds: map<nat, Kind>, a: nat, b: nat)
    requires a in kinds && b in kinds
  {
    if kinds[a].isPhi != kinds[b].isPhi then kinds[a].isPhi
    else if kinds[a].isTerminator != kinds[b].isTerminator then kinds[b].isTerminator
    else a < b
  }

  ghost predicate IsOrder(s: seq<nat>, nodes: set<nat>) {
    && (forall i, j :: 0 <= i < j < |s| ==> s[i] != s[j])
    && (forall n :: n in s <==> n in nodes)
  }

  /** Following dependencies for so many steps leads from `n` to `m`. */
  ghost predicate Path(deps: map<nat, set<nat>>, n: nat, m: nat, steps: nat)
    decreases steps
  {
    if steps == 0 then n == m
    else n in deps && exists d :: d in deps[n] && Path(deps, d, m, steps - 1)
  }

  ghost predicate Acyclic(deps: map<nat, set<nat>>) {
    forall n: nat, steps: nat :: steps > 0 ==> !Path(deps, n, n, steps)
  }

  function Unmet(deps: map<nat, set<nat>>, n: nat, done: set<nat>): set<nat> {
    if n in deps then deps[n] - done else {}
  }

  ghost predicate Elements(s: seq<nat>, set': set<nat>) {
    forall n :: n in s <==> n in set'
  }

  /** Every node in the list comes after its dependencies. */
  ghost predicate Respects(deps: map<nat, set<nat>>, s: seq<nat>) {
    forall i, d :: 0 <= i < |s| && s[i] in deps && d in deps[s[i]] ==> d in s[..i]
  }

  /** What Kahn's algorithm keeps: degrees count unmet dependencies; ready are the nodes without any. */
  ghost predicate Sorting(deps: map<nat, set<nat>>, inDegree: map<nat, nat>, ready: set<nat>, result: seq<nat>, done: set<nat>) {
    && inDegree.Keys == deps.Keys && Elements(result, done) && done <= deps.Keys
    && (forall i, j :: 0 <= i < j < |result| ==> result[i] != result[j])
    && (forall n :: n in deps ==> inDegree[n] == |Unmet(deps, n, done)|)
    && (forall n :: n in ready <==> n in deps && n !in done && Unmet(deps, n, done) == {})
    && Respects(deps, result)
  }

  method MinReady(kinds: map<nat, Kind>, ready: set<nat>) returns (least: nat)
    requires ready != {} && ready <= kinds.Keys
    ensures least in ready && forall n :: n in ready && n != least ==> Before(kinds, least, n)
  {
    var rest := ready;
    least :| least in rest;
    rest := rest - {least};
    while rest != {}
      invariant rest <= ready && least in ready && least !in rest
      invariant forall n :: n in ready - rest && n != least ==> Before(kinds, least, n)
      decreases |rest|
    {
      var n :| n in rest;
      rest := rest - {n};
      BeforeIsOrder(kinds, n, least, ready);
      if Before(kinds, n, least) {
        least := n;
      }
    }
  }

  lemma BeforeIsOrder(kinds: map<nat, Kind>, a: nat, b: nat, nodes: set<nat>)
    requires a in kinds && b in kinds && nodes <= kinds.Keys
    ensures a != b ==> Before(kinds, a, b) || Before(kinds, b, a)
    ensures Before(kinds, a, b) ==> a != b
    ensures forall c :: c in nodes && Before(kinds, a, b) && Before(kinds, b, c) ==> Before(kinds, a, c)
  {
  }

  /** The dependencies that a node still lacks while those on `node` are being taken off the others. */
  function Left(deps: map<nat, set<nat>>, n: nat, others: set<nat>, done: set<nat>, node: nat): set<nat> {
    Unmet(deps, n, if n in others then done else done + {node})
  }

  ghost predicate Decrementing(deps: map<nat, set<nat>>, inDegree: map<nat, nat>, ready: set<nat>, others: set<nat>, done: set<nat>, node: nat) {
    && inDegree.Keys == deps.Keys && others <= deps.Keys
    && (forall n :: n in deps ==> inDegree[n] == |Left(deps, n, others, done, node)|)
    && (forall n :: n in ready <==> n in deps && n !in done && n != node && Left(deps, n, others, done, node) == {})
  }

  lemma DecrementOne(deps: map<nat, set<nat>>, inDegree: map<nat, nat>, ready: set<nat>, others: set<nat>, done: set<nat>, node: nat, other: nat)
    requires Decrementing(deps, inDegree, ready, others, done, node) && other in others && node !in done && node in deps
    requires forall n :: n in done ==> n in deps ==> deps[n] <= done
    requires deps[node] <= done
    ensures node in deps[other] ==> inDegree[other] > 0
    ensures var lacks := node in deps[other];
            var inDegree' := if lacks then inDegree[other := inDegree[other] - 1] else inDegree;
            Decrementing(deps, inDegree', if lacks && inDegree'[other] == 0 then ready + {other} else ready, others - {other}, done, node)
  {
    hide Unmet;
    UnmetShrinks(deps, other, done, node);
    var others' := others - {other};
    forall n | n in deps
      ensures n != other ==> Left(deps, n, others', done, node) == Left(deps, n, others, done, node)
    {
    }
  }

  /** The nodes that depended on `node` have one unmet dependency less. */
  method Decrement(deps: map<nat, set<nat>>, inDegree0: map<nat, nat>, ready0: set<nat>, node: nat, ghost done: set<nat>)
    returns (inDegree: map<nat, nat>, ready: set<nat>)
    requires Decrementing(deps, inDegree0, ready0, deps.Keys, done, node) && node in deps && node !in done
    requires (forall n :: n in done ==> n in deps ==> deps[n] <= done) && deps[node] <= done
    ensures Decrementing(deps, inDegree, ready, {}, done, node)
  {
    hide Decrementing;
    inDegree, ready := inDegree0, ready0;
    var others := deps.Keys;
    while others != {}
      invariant others <= deps.Keys && Decrementing(deps, inDegree, ready, others, done, node)
      decreases |others|
    {
      var other :| other in others;
      DecrementOne(deps, inDegree, ready, others, done, node, other);
      DegreesOf(deps, inDegree, ready, others, done, node);
      others := others - {other};
      if node in deps[other] {
        inDegree := inDegree[other := inDegree[other] - 1];
        if inDegree[other] == 0 {
          ready := ready + {other};
        }
      }
    }
  }

  lemma DegreesOf(deps: map<nat, set<nat>>, inDegree: map<nat, nat>, ready: set<nat>, others: set<nat>, done: set<nat>, node: nat)
    requires Decrementing(deps, inDegree, ready, others, done, node)
    ensures inDegree.Keys == deps.Keys
  {
  }

  lemma UnmetShrinks(deps: map<nat, set<nat>>, n: nat, done: set<nat>, node: nat)
    requires n in deps && node !in done
    ensures node in deps[n] ==> |Unmet(deps, n, done)| == |Unmet(deps, n, done + {node})| + 1
    ensures node !in deps[n] ==> Unmet(deps, n, done) == Unmet(deps, n, done + {node})
    ensures |Unmet(deps, n, done + {node})| == 0 <==> Unmet(deps, n, done + {node}) == {}
  {
    if node in deps[n] {
      assert Unmet(deps, n, done) == Unmet(deps, n, done + {node}) + {node};
    } else {
      assert Unmet(deps, n, done) == Unmet(deps, n, done + {node});
    }
  }

  // ---- a finite set without a first node has a cycle ----

  lemma {:induction false} Walk(deps: map<nat, set<nat>>, s: set<nat>, n: nat, k: nat) returns (w: seq<nat>)
    requires n in s && forall m :: m in s ==> m in deps && deps[m] * s != {}
    ensures |w| == k + 1 && w[0] == n
    ensures forall i :: 0 <= i < |w| ==> w[i] in s
    ensures forall i :: 0 <= i < k ==> w[i] in deps && w[i + 1] in deps[w[i]]
    decreases k
  {
    if k == 0 {
      w := [n];
    } else {
      var m :| m in deps[n] * s;
      var rest := Walk(deps, s, m, k - 1);
      w := [n] + rest;
      assert forall i :: 0 < i < |w| ==> w[i] == rest[i - 1];
    }
  }

  lemma {:induction false} WalkIsPath(deps: map<nat, set<nat>>, w: seq<nat>, i: nat, j: nat)
    requires i <= j < |w| && forall k :: 0 <= k < |w| - 1 ==> w[k] in deps && w[k + 1] in deps[w[k]]
    ensures Path(deps, w[i], w[j], j - i)
    decreases j - i
  {
    if i < j {
      WalkIsPath(deps, w, i + 1, j);
    }
  }

  function Members(w: seq<nat>): set<nat> {
    set x | x in w
  }

  lemma {:induction false} DistinctMembers(w: seq<nat>)
    requires forall i, j :: 0 <= i < j < |w| ==> w[i] != w[j]
    ensures |Members(w)| == |w|
  {
    if w != [] {
      var n := |w| - 1;
      DistinctMembers(w[..n]);
      assert Members(w) == Members(w[..n]) + {w[n]};
      assert w[n] !in Members(w[..n]);
    }
  }

  lemma {:induction false} SubsetIsSmaller(s: set<nat>, t: set<nat>)
    requires s <= t
    ensures |s| <= |t|
    decreases s
  {
    if s != {} {
      var x :| x in s;
      SubsetIsSmaller(s - {x}, t - {x});
    }
  }

  /** The node is on a cycle, or depends on one. */
  ghost predicate Blocked(deps: map<nat, set<nat>>, n: nat) {
    exists m: nat, i: nat, j: nat :: j > 0 && Path(deps, n, m, i) && Path(deps, m, m, j)
  }

  lemma NoFirstNodeHasCycle(deps: map<nat, set<nat>>, s: set<nat>, n: nat)
    requires n in s && forall m :: m in s ==> m in deps && deps[m] * s != {}
    ensures Blocked(deps, n)
  {
    var w := Walk(deps, s, n, |s|);
    if forall i, j :: 0 <= i < j < |w| ==> w[i] != w[j] {
      DistinctMembers(w);
      SubsetIsSmaller(Members(w), s);
    } else {
      var i, j :| 0 <= i < j < |w| && w[i] == w[j];
      WalkIsPath(deps, w, 0, i);
      WalkIsPath(deps, w, i, j);
    }
  }

  /** In a list that respects the dependencies, they lead towards its front. */
  lemma {:induction false} PathLeadsBack(deps: map<nat, set<nat>>, s: seq<nat>, i: nat, m: nat, steps: nat)
    requires Respects(deps, s) && i < |s| && steps > 0 && Path(deps, s[i], m, steps)
    ensures m in s[..i]
    decreases steps
  {
    var d :| d in deps[s[i]] && Path(deps, d, m, steps - 1);
    assert d in s[..i];
    var k :| 0 <= k < i && s[k] == d;
    if steps > 1 {
      PathLeadsBack(deps, s, k, m, steps - 1);
    }
  }

  lemma RespectedIsNotBlocked(deps: map<nat, set<nat>>, s: seq<nat>, n: nat)
    requires Respects(deps, s) && n in s && forall i, j :: 0 <= i < j < |s| ==> s[i] != s[j]
    ensures !Blocked(deps, n)
  {
    hide Path, Respects;
    if m: nat, i: nat, j: nat :| j > 0 && Path(deps, n, m, i) && Path(deps, m, m, j) {
      var k :| 0 <= k < |s| && s[k] == n;
      if i > 0 {
        PathLeadsBack(deps, s, k, m, i);
      } else {
        NoSteps(deps, n, m);
      }
      var l :| 0 <= l < |s| && s[l] == m;
      PathLeadsBack(deps, s, l, m, j);
    }
  }

  lemma NoSteps(deps: map<nat, set<nat>>, n: nat, m: nat)
    ensures Path(deps, n, m, 0) <==> n == m
  {
  }

  // ---- the algorithm ----

  lemma StartSorting(deps: map<nat, set<nat>>, inDegree: map<nat, nat>, ready: set<nat>)
    requires inDegree.Keys == deps.Keys && (forall n :: n in deps ==> inDegree[n] == |deps[n]|)
    requires forall n :: n in ready <==> n in deps && inDegree[n] == 0
    ensures Sorting(deps, inDegree, ready, [], {})
  {
    forall n | n in deps
      ensures Unmet(deps, n, {}) == deps[n]
    {
    }
  }

  lemma NodeIsReady(deps: map<nat, set<nat>>, inDegree: map<nat, nat>, ready: set<nat>, result: seq<nat>, done: set<nat>, node: nat)
    requires Sorting(deps, inDegree, ready, result, done) && node in ready
    ensures Decrementing(deps, inDegree, ready - {node}, deps.Keys, done, node)
    ensures node in deps && node !in done && deps[node] <= done
    ensures forall n :: n in done ==> n in deps ==> deps[n] <= done
  {
    hide Unmet;
    AllMet(deps, node, done);
    forall n, d | n in done && n in deps && d in deps[n]
      ensures d in done
    {
      var i :| 0 <= i < |result| && result[i] == n;
      assert d in result[..i] && d in result;
    }
  }

  lemma AllMet(deps: map<nat, set<nat>>, n: nat, done: set<nat>)
    ensures n in deps ==> (Unmet(deps, n, done) == {} <==> deps[n] <= done)
    ensures n in deps && Unmet(deps, n, done) != {} ==> exists d :: d in deps[n] && d !in done
  {
    if n in deps && !(deps[n] <= done) {
      var d :| d in deps[n] && d !in done;
      assert d in deps[n] - done;
    }
    if n in deps && deps[n] - done != {} {
      var d :| d in deps[n] - done;
    }
  }

  lemma NodeSorted(deps: map<nat, set<nat>>, inDegree: map<nat, nat>, ready: set<nat>, result: seq<nat>, done: set<nat>, node: nat)
    requires Decrementing(deps, inDegree, ready, {}, done, node) && node in deps && node !in done && deps[node] <= done
    requires Elements(result, done) && done <= deps.Keys && Respects(deps, result)
    requires forall i, j :: 0 <= i < j < |result| ==> result[i] != result[j]
    ensures Sorting(deps, inDegree, ready, result + [node], done + {node})
  {
    hide Unmet, Respects;
    NodeInOrder(deps, result, done, node);
    assert forall n :: n in deps ==> Left(deps, n, {}, done, node) == Unmet(deps, n, done + {node});
  }

  lemma NodeInOrder(deps: map<nat, set<nat>>, result: seq<nat>, done: set<nat>, node: nat)
    requires Elements(result, done) && Respects(deps, result) && node !in done && node in deps && deps[node] <= done
    requires forall i, j :: 0 <= i < j < |result| ==> result[i] != result[j]
    ensures Respects(deps, result + [node]) && Elements(result + [node], done + {node})
    ensures var all := result + [node]; forall i, j :: 0 <= i < j < |all| ==> all[i] != all[j]
  {
    var all := result + [node];
    forall i, d | 0 <= i < |all| && all[i] in deps && d in deps[all[i]]
      ensures d in all[..i]
    {
      if i < |result| {
        assert all[i] == result[i] && all[..i] == result[..i];
      } else {
        assert all[..i] == result;
      }
    }
    forall i, j | 0 <= i < j < |all|
      ensures all[i] != all[j]
    {
      assert all[i] == result[i] && result[i] in result;
    }
  }

  lemma SortingParts(deps: map<nat, set<nat>>, inDegree: map<nat, nat>, ready: set<nat>, result: seq<nat>, done: set<nat>)
    requires Sorting(deps, inDegree, ready, result, done)
    ensures Elements(result, done) && done <= deps.Keys && Respects(deps, result) && ready <= deps.Keys
    ensures forall i, j :: 0 <= i < j < |result| ==> result[i] != result[j]
  {
  }

  /** Among the nodes that could come next, the one at position `i` is the first by rank. */
  ghost predicate ComesFirst(deps: map<nat, set<nat>>, kinds: map<nat, Kind>, s: seq<nat>, i: nat)
    requires i < |s|
  {
    forall n :: n in deps && n !in s[..i] && n != s[i] && (forall d :: d in deps[n] ==> d in s[..i]) ==>
      n in kinds && s[i] in kinds && Before(kinds, s[i], n)
  }

  ghost predicate AllComeFirst(deps: map<nat, set<nat>>, kinds: map<nat, Kind>, s: seq<nat>) {
    forall i {:trigger s[i]} :: 0 <= i < |s| ==> ComesFirst(deps, kinds, s, i)
  }

  /**
   The order that is promised: first the nodes that are neither on a cycle nor depend on one, each after
   its dependencies and before all the others that could have come next by rank; then the others.
   */
  ghost predicate InOrder(deps: map<nat, set<nat>>, kinds: map<nat, Kind>, s: seq<nat>) {
    exists k: nat :: k <= |s| && IsSorted(deps, kinds, s, k)
  }

  ghost predicate IsSorted(deps: map<nat, set<nat>>, kinds: map<nat, Kind>, s: seq<nat>, k: nat)
    requires k <= |s|
  {
    && Respects(deps, s[..k]) && AllComeFirst(deps, kinds, s[..k])
    && forall n :: n in deps ==> (n in s[..k] <==> !Blocked(deps, n))
  }

  lemma OneMoreComesFirst(deps: map<nat, set<nat>>, kinds: map<nat, Kind>, s: seq<nat>, node: nat)
    requires AllComeFirst(deps, kinds, s) && ComesFirst(deps, kinds, s + [node], |s|)
    ensures AllComeFirst(deps, kinds, s + [node])
  {
    forall i | 0 <= i < |s|
      ensures ComesFirst(deps, kinds, s + [node], i)
    {
      assert ComesFirst(deps, kinds, s, i) && (s + [node])[..i] == s[..i] && (s + [node])[i] == s[i];
    }
  }

  lemma LeastComesFirst(deps: map<nat, set<nat>>, kinds: map<nat, Kind>, inDegree: map<nat, nat>, ready: set<nat>, result: seq<nat>, done: set<nat>, node: nat)
    requires Sorting(deps, inDegree, ready, result, done) && node in ready && deps.Keys <= kinds.Keys
    requires forall n :: n in ready && n != node ==> n in kinds && node in kinds && Before(kinds, node, n)
    ensures ComesFirst(deps, kinds, result + [node], |result|)
  {
    hide Unmet, Respects;
    var s := result + [node];
    assert s[..|result|] == result;
    forall n | n in deps && n !in result && n != node && (forall d :: d in deps[n] ==> d in result)
      ensures n in ready
    {
      AllMet(deps, n, done);
    }
  }

  /** When no more nodes are ready, those that are left are on a cycle or depend on one, and no others. */
  lemma LeftAreBlocked(deps: map<nat, set<nat>>, inDegree: map<nat, nat>, result: seq<nat>, done: set<nat>)
    requires Sorting(deps, inDegree, {}, result, done)
    requires forall n :: n in deps ==> deps[n] <= deps.Keys
    ensures forall n :: n in deps ==> (n in result <==> !Blocked(deps, n))
  {
    hide Respects, Blocked;
    var left := deps.Keys - done;
    forall n | n in left
      ensures deps[n] * left != {}
    {
      AllMet(deps, n, done);
      var d :| d in deps[n] && d !in done;
      assert d in deps[n] * left;
    }
    forall n | n in deps
      ensures n in result <==> !Blocked(deps, n)
    {
      if n in left {
        NoFirstNodeHasCycle(deps, left, n);
      } else {
        RespectedIsNotBlocked(deps, result, n);
      }
    }
  }

  lemma AcyclicIsNotBlocked(deps: map<nat, set<nat>>, n: nat)
    requires Acyclic(deps)
    ensures !Blocked(deps, n)
  {
    hide Path;
  }

  /** Kahn's algorithm; what is on a cycle, or depends on one, is appended at the end. */
  method Sort(deps: map<nat, set<nat>>, kinds: map<nat, Kind>) returns (result: seq<nat>)
    requires deps.Keys <= kinds.Keys && forall n :: n in deps ==> deps[n] <= deps.Keys
    ensures IsOrder(result, deps.Keys) && InOrder(deps, kinds, result)
    ensures Acyclic(deps) ==> Respects(deps, result)
  {
    hide Sorting, Decrementing, Respects, Acyclic, Elements, ComesFirst, AllComeFirst, Blocked;
    var inDegree: map<nat, nat> := map n | n in deps :: |deps[n]|;
    var ready := set n | n in deps && inDegree[n] == 0;
    result := [];
    ghost var done: set<nat> := {};
    StartSorting(deps, inDegree, ready);
    NobodyFirst(deps, kinds);
    while ready != {}
      invariant Sorting(deps, inDegree, ready, result, done) && AllComeFirst(deps, kinds, result)
      decreases deps.Keys - done
    {
      SortingParts(deps, inDegree, ready, result, done);
      var node := MinReady(kinds, ready);
      NodeIsReady(deps, inDegree, ready, result, done, node);
      LeastComesFirst(deps, kinds, inDegree, ready, result, done, node);
      OneMoreComesFirst(deps, kinds, result, node);
      inDegree, ready := Decrement(deps, inDegree, ready - {node}, node, done);
      NodeSorted(deps, inDegree, ready, result, done, node);
      result, done := result + [node], done + {node};
    }
    SortingParts(deps, inDegree, ready, result, done);
    LeftAreBlocked(deps, inDegree, result, done);
    ghost var sorted := result;
    result := AppendRest(deps.Keys, result, done);
    assert result[..|sorted|] == sorted;
    assert IsSorted(deps, kinds, result, |sorted|);
    if Acyclic(deps) {
      AllOfThem(deps, result, sorted);
    }
  }

  lemma NobodyFirst(deps: map<nat, set<nat>>, kinds: map<nat, Kind>)
    ensures AllComeFirst(deps, kinds, [])
  {
  }

  lemma AllOfThem(deps: map<nat, set<nat>>, s: seq<nat>, sorted: seq<nat>)
    requires Acyclic(deps) && IsOrder(s, deps.Keys) && sorted <= s
    requires forall n :: n in deps ==> (n in sorted <==> !Blocked(deps, n))
    ensures s == sorted
  {
    hide Acyclic, Blocked;
    if |sorted| < |s| {
      var n := s[|sorted|];
      assert n in s;
      AcyclicIsNotBlocked(deps, n);
    }
  }

  method AppendRest(nodes: set<nat>, sorted: seq<nat>, ghost done: set<nat>) returns (result: seq<nat>)
    requires Elements(sorted, done) && done <= nodes && forall i, j :: 0 <= i < j < |sorted| ==> sorted[i] != sorted[j]
    ensures IsOrder(result, nodes) && sorted <= result
  {
    result := sorted;
    var rest := nodes;
    while rest != {}
      invariant rest <= nodes && forall i, j :: 0 <= i < j < |result| ==> result[i] != result[j]
      invariant forall n :: n in result <==> n in done || n in nodes - rest
      invariant sorted <= result
      decreases |rest|
    {
      var node :| node in rest;
      rest := rest - {node};
      if node !in result {
        result := result + [node];
      }
    }
  }

  /** The anchored nodes, and the anchored nodes that feed each of them. */
  ghost predicate IsRelation(g: Graph, deps: map<nat, set<nat>>) {
    deps.Keys == g.anchored && forall n, m :: n in deps ==> (m in deps[n] <==> g.DependsOn(n, m))
  }

  /**
   All anchored nodes once each, in the order that is promised; if none depends on itself through others,
   every node comes after all that it depends on.
   */
  method TopologicalSortAnchored(g: Graph, kinds: map<nat, Kind>) returns (result: seq<nat>)
    requires g.WellFormed() && g.anchored <= kinds.Keys
    ensures IsOrder(result, g.anchored)
    ensures exists deps: map<nat, set<nat>> :: IsRelation(g, deps) && InOrder(deps, kinds, result)
    ensures AnchoredAcyclic(g) ==> DependenciesFirst(g, result)
  {
    hide Acyclic, AnchoredAcyclic, Graph.DependsOn, IsOrder, DependenciesFirst, InOrder;
    var deps: map<nat, set<nat>> := map[];
    var nodes := g.anchored;
    while nodes != {}
      invariant nodes <= g.anchored && deps.Keys == g.anchored - nodes
      invariant forall n, m :: n in deps ==> (m in deps[n] <==> g.DependsOn(n, m))
      invariant forall n :: n in deps ==> deps[n] <= g.anchored
      decreases |nodes|
    {
      var node :| node in nodes;
      nodes := nodes - {node};
      var found := AnchoredDeps(g, node);
      DependenciesAnchored(g, node, found);
      deps := deps[node := found];
    }
    assert deps.Keys == g.anchored;
    result := Sort(deps, kinds);
    assert IsRelation(g, deps);
    if AnchoredAcyclic(g) {
      SameRelation(g, deps);
      OrderedByRelation(g, deps, result);
    }
  }

  /** Every node in the list comes after all the anchored nodes that feed it. */
  ghost predicate DependenciesFirst(g: Graph, s: seq<nat>) {
    forall i, d :: 0 <= i < |s| && g.DependsOn(s[i], d) ==> d in s[..i]
  }

  lemma OrderedByRelation(g: Graph, deps: map<nat, set<nat>>, s: seq<nat>)
    requires IsOrder(s, g.anchored) && deps.Keys == g.anchored && Respects(deps, s)
    requires forall n, m :: n in deps ==> (m in deps[n] <==> g.DependsOn(n, m))
    ensures DependenciesFirst(g, s)
  {
    forall i, d | 0 <= i < |s| && g.DependsOn(s[i], d)
      ensures d in s[..i]
    {
      assert s[i] in s && s[i] in deps;
      assert d in deps[s[i]];
    }
  }

  lemma DependenciesAnchored(g: Graph, n: nat, found: set<nat>)
    requires forall m :: m in found <==> g.DependsOn(n, m)
    ensures found <= g.anchored
  {
  }

  ghost predicate DependencyPath(g: Graph, n: nat, m: nat, steps: nat)
    decreases steps
  {
    if steps == 0 then n == m
    else n in g.anchored && exists d :: g.DependsOn(n, d) && DependencyPath(g, d, m, steps - 1)
  }

  ghost predicate AnchoredAcyclic(g: Graph) {
    forall n: nat, steps: nat :: steps > 0 ==> !DependencyPath(g, n, n, steps)
  }

  lemma SameRelation(g: Graph, deps: map<nat, set<nat>>)
    requires deps.Keys == g.anchored && forall n, m :: n in deps ==> (m in deps[n] <==> g.DependsOn(n, m))
    requires AnchoredAcyclic(g)
    ensures Acyclic(deps)
  {
    forall n: nat, steps: nat | steps > 0
      ensures !Path(deps, n, n, steps)
    {
      SamePath(g, deps, n, n, steps);
    }
  }

  lemma {:induction false} SamePath(g: Graph, deps: map<nat, set<nat>>, n: nat, m: nat, steps: nat)
    requires deps.Keys == g.anchored && forall n, m :: n in deps ==> (m in deps[n] <==> g.DependsOn(n, m))
    ensures Path(deps, n, m, steps) ==> DependencyPath(g, n, m, steps)
    decreases steps
  {
    if steps > 0 && Path(deps, n, m, steps) {
      var d :| d in deps[n] && Path(deps, d, m, steps - 1);
      SamePath(g, deps, d, m, steps - 1);
    }
  }
}
