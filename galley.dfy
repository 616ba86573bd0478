/** The graph core of the lexical chainer in `galley.py`: the word-sense
    disambiguation graph of word occurrences, its symmetric edge updates,
    the sense choice, the pruning and trimming passes, the condensed word
    graph and its breadth-first traversal.  WordNet is abstract: a sense is
    a synset number and `wn.synsets(word, 'n')` is the function `synsets`
    of the chainer.  An occurrence is identified by its position, its
    identity in the source (equality and hash are on word and position,
    and positions are unique in a chainer); a vertex of the condensed graph
    by its word.  Where the source iterates over a set or a dictionary the
    model picks an arbitrary element, so every property holds for every
    iteration order. */
module Galley {
  type Word = seq<char>

  /** A WordNet synset. */
  type Sense = nat

  /** An edge `(rhs_occ, rhs_sense, dist)` of one sense of an occurrence. */
  datatype Edge = Edge(position: nat, sense: Sense, dist: real)

  /** A `WordOccurrence` without its edges: its word and its senses. */
  datatype Occurrence = Occurrence(word: Word, senses: seq<Sense>)

  type Occurrences = map<nat, Occurrence>

  /** The dictionaries `occ.edges` of all occurrences together: the edge set
      of sense s of the occurrence at p is the entry of (p, s). */
  type EdgeMap = map<(nat, Sense), set<Edge>>

  /** `compute_distance(edge_type)`: every relation counts the same. */
  function ComputeDistance(edgeType: int): (d: real)
    ensures d == 1.0
  {
    if edgeType == 0 then 1.0
    else if edgeType == 1 then 1.0
    else if edgeType == 2 then 1.0
    else 1.0
  }

  // ------------------------------------------------------------ the edges

  /** The edge set of sense s of the occurrence at p, empty when there is
      none. */
  function Edges(edges: EdgeMap, p: nat, s: Sense): set<Edge>
  {
    if (p, s) in edges then edges[(p, s)] else {}
  }

  /** Every edge is matched by the edge back, with the same distance. */
  ghost predicate Symmetric(edges: EdgeMap)
  {
    forall p, s, e :: e in Edges(edges, p, s) ==> Edge(p, s, e.dist) in Edges(edges, e.position, e.sense)
  }

  /** No sense of an occurrence is linked to itself. */
  ghost predicate NoSelfLoops(edges: EdgeMap)
  {
    forall p, s, e :: e in Edges(edges, p, s) ==> e.position != p || e.sense != s
  }

  /** b is a with some edges removed. */
  ghost predicate Shrunk(a: EdgeMap, b: EdgeMap)
  {
    a.Keys == b.Keys && forall p, s :: Edges(b, p, s) <= Edges(a, p, s)
  }

  lemma ShrunkTransitive(a: EdgeMap, b: EdgeMap, c: EdgeMap)
    requires Shrunk(a, b) && Shrunk(b, c)
    ensures Shrunk(a, c)
  {
  }

  /** `occ.edges[sense].add(edge)`. */
  function AddTo(edges: EdgeMap, p: nat, s: Sense, e: Edge): (r: EdgeMap)
    requires (p, s) in edges
    ensures r.Keys == edges.Keys
    ensures forall q, t :: Edges(r, q, t) == if q == p && t == s then Edges(edges, q, t) + {e} else Edges(edges, q, t)
  {
    edges[(p, s) := edges[(p, s)] + {e}]
  }

  /** `occ.edges[sense].remove(edge)`. */
  function RemoveFrom(edges: EdgeMap, p: nat, s: Sense, e: Edge): (r: EdgeMap)
    requires (p, s) in edges
    ensures r.Keys == edges.Keys
    ensures forall q, t :: Edges(r, q, t) == if q == p && t == s then Edges(edges, q, t) - {e} else Edges(edges, q, t)
  {
    edges[(p, s) := edges[(p, s)] - {e}]
  }

  /** `WordOccurrence.add_edge(lhs_occ, lhs_sense, rhs_occ, rhs_sense, dist)`. */
  function AddEdgeOf(edges: EdgeMap, lp: nat, ls: Sense, rp: nat, rs: Sense, dist: real): (r: EdgeMap)
    requires (lp, ls) in edges && (rp, rs) in edges
    ensures r.Keys == edges.Keys
    ensures Edge(rp, rs, dist) in Edges(r, lp, ls) && Edge(lp, ls, dist) in Edges(r, rp, rs)
    ensures forall q, t :: Edges(edges, q, t) <= Edges(r, q, t)
  {
    AddTo(AddTo(edges, lp, ls, Edge(rp, rs, dist)), rp, rs, Edge(lp, ls, dist))
  }

  /** Adding an edge puts it in both endpoints' sets, keeps the graph
      symmetric (and free of self-loops when the endpoints differ), and
      touches no other set. */
  lemma AddEdgeMeaning(edges: EdgeMap, lp: nat, ls: Sense, rp: nat, rs: Sense, dist: real)
    requires (lp, ls) in edges && (rp, rs) in edges && Symmetric(edges)
    ensures var r := AddEdgeOf(edges, lp, ls, rp, rs, dist);
            && r.Keys == edges.Keys && Symmetric(r)
            && Edge(rp, rs, dist) in Edges(r, lp, ls) && Edge(lp, ls, dist) in Edges(r, rp, rs)
            && (NoSelfLoops(edges) && (lp != rp || ls != rs) ==> NoSelfLoops(r))
            && forall q, t :: (q != lp || t != ls) && (q != rp || t != rs) ==> Edges(r, q, t) == Edges(edges, q, t)
  {
    var r := AddEdgeOf(edges, lp, ls, rp, rs, dist);
    forall p, s, e | e in Edges(r, p, s)
      ensures Edge(p, s, e.dist) in Edges(r, e.position, e.sense)
    {
      if e !in Edges(edges, p, s) {
        assert (p == lp && s == ls && e == Edge(rp, rs, dist)) || (p == rp && s == rs && e == Edge(lp, ls, dist));
      }
    }
  }

  /** `WordOccurrence.remove_edge(lhs_occ, lhs_sense, edge)`. */
  function RemoveEdgeOf(edges: EdgeMap, p: nat, s: Sense, e: Edge): (r: EdgeMap)
    requires (p, s) in edges
    ensures Shrunk(edges, r)
    ensures e !in Edges(r, p, s)
  {
    var r := RemoveFrom(edges, p, s, e);
    if (e.position, e.sense) in r then RemoveFrom(r, e.position, e.sense, Edge(p, s, e.dist)) else r
  }

  /** On a symmetric graph without self-loops, the operation both `remove`s
      expect their edge (so neither raises `KeyError`); removing an edge
      deletes both directions, keeps the graph symmetric and free of
      self-loops, and touches no other set. */
  lemma RemoveEdgeMeaning(edges: EdgeMap, p: nat, s: Sense, e: Edge)
    requires Symmetric(edges) && NoSelfLoops(edges) && e in Edges(edges, p, s)
    ensures (p, s) in edges && (e.position, e.sense) in edges
    ensures Edge(p, s, e.dist) in Edges(RemoveFrom(edges, p, s, e), e.position, e.sense)
    ensures var r := RemoveEdgeOf(edges, p, s, e);
            && Shrunk(edges, r) && Symmetric(r) && NoSelfLoops(r)
            && Edges(r, p, s) == Edges(edges, p, s) - {e}
            && Edges(r, e.position, e.sense) == Edges(edges, e.position, e.sense) - {Edge(p, s, e.dist)}
            && forall q, t :: (q != p || t != s) && (q != e.position || t != e.sense) ==> Edges(r, q, t) == Edges(edges, q, t)
  {
    var r := RemoveEdgeOf(edges, p, s, e);
    forall q, t, f | f in Edges(r, q, t)
      ensures Edge(q, t, f.dist) in Edges(r, f.position, f.sense)
    {
      assert f in Edges(edges, q, t);
    }
  }

  // --------------------------------------------------- sums over edge sets

  ghost function Pick<T>(s: set<T>): T
    requires s != {}
  {
    var x :| x in s; x
  }

  /** The sum of f over a finite set. */
  ghost function SetSum<T>(s: set<T>, f: T -> real): real
    decreases |s|
  {
    if s == {} then 0.0 else f(Pick(s)) + SetSum(s - {Pick(s)}, f)
  }

  /** The sum does not depend on the element taken first. */
  lemma {:induction false} SetSumRemove<T>(s: set<T>, f: T -> real, x: T)
    requires x in s
    ensures SetSum(s, f) == f(x) + SetSum(s - {x}, f)
    decreases |s|
  {
    var y := Pick(s);
    if y != x {
      SetSumRemove(s - {y}, f, x);
      SetSumRemove(s - {x}, f, y);
      assert s - {y} - {x} == s - {x} - {y};
    }
  }

  function Dist(e: Edge): real
  {
    e.dist
  }

  /** `sum(map(itemgetter(2), edge_list))`. */
  ghost function EdgeTotal(edges: EdgeMap, p: nat, s: Sense): real
  {
    SetSum(Edges(edges, p, s), Dist)
  }

  ghost function PositionTotal(edges: EdgeMap, s: Sense): nat -> real
  {
    (p: nat) => EdgeTotal(edges, p, s)
  }

  /** `scores[sense]`: the distances of the edges of sense s over all the
      occurrences of a word. */
  ghost function Score(edges: EdgeMap, positions: set<nat>, s: Sense): real
  {
    SetSum(positions, PositionTotal(edges, s))
  }

  ghost function Scores(edges: EdgeMap, positions: set<nat>, senses: seq<Sense>): (r: seq<real>)
    ensures |r| == |senses| && forall k :: 0 <= k < |senses| ==> r[k] == Score(edges, positions, senses[k])
  {
    seq(|senses|, k requires 0 <= k < |senses| => Score(edges, positions, senses[k]))
  }

  /** The sum of the distances of a set of edges. */
  method SumDistances(edges: set<Edge>) returns (total: real)
    ensures total == SetSum(edges, Dist)
  {
    total := 0.0;
    var rest := edges;
    while rest != {}
      invariant total + SetSum(rest, Dist) == SetSum(edges, Dist)
      decreases rest
    {
      var e :| e in rest;
      SetSumRemove(rest, Dist, e);
      total := total + e.dist;
      rest := rest - {e};
    }
  }

  /** When every distance is 1.0 (all come from `ComputeDistance`) the sum
      of an edge set is its size. */
  lemma {:induction false} SetSumOfOnes(edges: set<Edge>)
    requires forall e :: e in edges ==> e.dist == 1.0
    ensures SetSum(edges, Dist) == |edges| as real
    decreases |edges|
  {
    if edges != {} {
      var e := Pick(edges);
      SetSumOfOnes(edges - {e});
    }
  }

  // --------------------------------------------------------- sense choice

  /** The sense `wsd` chooses among `senses` for the occurrences at
      `positions`. */
  ghost function BestSense(edges: EdgeMap, positions: set<nat>, senses: seq<Sense>): Sense
    requires senses != []
  {
    senses[FirstBest(Scores(edges, positions, senses))]
  }

  /** Each word of `chosen` has the sense `wsd` chooses for it. */
  ghost predicate ChoicesMade(edges: EdgeMap, revIndex: map<Word, set<nat>>, synsets: Word -> seq<Sense>,
                              chosen: map<Word, Sense>)
  {
    forall w :: w in chosen ==>
      w in revIndex && synsets(w) != [] && chosen[w] == BestSense(edges, revIndex[w], synsets(w)) && chosen[w] in synsets(w)
  }

  lemma ChoicesAdd(edges: EdgeMap, revIndex: map<Word, set<nat>>, synsets: Word -> seq<Sense>,
                   chosen: map<Word, Sense>, w: Word, best: Sense)
    requires ChoicesMade(edges, revIndex, synsets, chosen)
    requires w in revIndex && synsets(w) != [] && best == BestSense(edges, revIndex[w], synsets(w)) && best in synsets(w)
    ensures ChoicesMade(edges, revIndex, synsets, chosen[w := best])
  {
  }

  /** The first position of a largest score. */
  function FirstBest(scores: seq<real>): (i: nat)
    requires scores != []
    ensures i < |scores|
    ensures forall k :: 0 <= k < |scores| ==> scores[k] <= scores[i]
    ensures forall k :: 0 <= k < i ==> scores[k] < scores[i]
  {
    if |scores| == 1 then 0
    else
      var j := FirstBest(scores[..|scores| - 1]);
      if scores[|scores| - 1] > scores[j] then |scores| - 1 else j
  }

  /** Those two properties determine the choice: a tie keeps the earlier
      sense. */
  lemma FirstBestUnique(scores: seq<real>, i: nat)
    requires i < |scores|
    requires forall k :: 0 <= k < |scores| ==> scores[k] <= scores[i]
    requires forall k :: 0 <= k < i ==> scores[k] < scores[i]
    ensures FirstBest(scores) == i
  {
    var j := FirstBest(scores);
    assert scores[i] <= scores[j] && scores[j] <= scores[i];
  }

  /** The choice loop of `wsd`: the first sense whose score is strictly
      greater than all before it. */
  method ChooseBest(scores: seq<real>) returns (best: nat)
    requires scores != []
    ensures best == FirstBest(scores)
  {
    best := 0;
    var bestScore := scores[0];
    for k := 1 to |scores|
      invariant best < k && bestScore == scores[best]
      invariant forall j :: 0 <= j < k ==> scores[j] <= bestScore
      invariant forall j :: 0 <= j < best ==> scores[j] < bestScore
    {
      if scores[k] > bestScore {
        bestScore := scores[k];
        best := k;
      }
    }
    FirstBestUnique(scores, best);
  }

  // ------------------------------------------------------ condensed graph

  /** A vertex's neighbours in the condensed graph. */
  function Adj(g: map<Word, set<Word>>, w: Word): set<Word>
  {
    if w in g then g[w] else {}
  }

  /** `WordVertex.add_edge(lhs, rhs)`. */
  function AddVertexEdge(g: map<Word, set<Word>>, a: Word, b: Word): (r: map<Word, set<Word>>)
    ensures b in Adj(r, a) && a in Adj(r, b)
    ensures r.Keys == g.Keys + {a, b}
    ensures forall x :: Adj(g, x) <= Adj(r, x)
  {
    var g1 := g[a := Adj(g, a) + {b}];
    g1[b := Adj(g1, b) + {a}]
  }

  ghost predicate SymmetricGraph(g: map<Word, set<Word>>)
  {
    forall a, b :: b in Adj(g, a) ==> a in Adj(g, b)
  }

  /** The vertex edge goes both ways and keeps a graph symmetric (and free
      of self-loops between distinct words); nothing else is linked. */
  lemma AddVertexEdgeMeaning(g: map<Word, set<Word>>, a: Word, b: Word)
    requires SymmetricGraph(g)
    ensures var r := AddVertexEdge(g, a, b);
            && SymmetricGraph(r) && b in Adj(r, a) && a in Adj(r, b)
            && r.Keys == g.Keys + {a, b}
            && ((forall x :: x !in Adj(g, x)) && a != b ==> forall x :: x !in Adj(r, x))
            && forall x :: Adj(r, x) == Adj(g, x) + (if x == a then {b} else {}) + (if x == b then {a} else {})
  {
    var r := AddVertexEdge(g, a, b);
    assert forall x :: Adj(r, x) == Adj(g, x) + (if x == a then {b} else {}) + (if x == b then {a} else {});
  }

  /** What the traversal has established: the root first, then nodes
      outside the old visited set, each once and each a neighbour of an
      earlier one (`parent` names it); the visited set is the old one plus
      the nodes reached. */
  ghost predicate Reached(g: map<Word, set<Word>>, root: Word, visited: set<Word>,
                          newVisited: seq<Word>, visited': set<Word>, parent: seq<nat>)
  {
    && |newVisited| >= 1 && newVisited[0] == root && |parent| == |newVisited|
    && (forall i :: 0 < i < |newVisited| ==> newVisited[i] !in visited)
    && (forall i, j :: 0 <= i < j < |newVisited| ==> newVisited[i] != newVisited[j])
    && (forall i :: 0 < i < |newVisited| ==> parent[i] < i && newVisited[i] in Adj(g, newVisited[parent[i]]))
    && visited' == visited + set x | x in newVisited
  }

  /** One reached node: it is appended to the queue and to the result. */
  lemma ReachedAppend(g: map<Word, set<Word>>, root: Word, visited: set<Word>,
                      newVisited: seq<Word>, visited': set<Word>, parent: seq<nat>, from: nat, edge: Word)
    requires Reached(g, root, visited, newVisited, visited', parent)
    requires from < |newVisited| && edge in Adj(g, newVisited[from]) && edge !in visited'
    ensures Reached(g, root, visited, newVisited + [edge], visited' + {edge}, parent + [from])
  {
    var nv := newVisited + [edge];
    assert (set x | x in nv) == (set x | x in newVisited) + {edge};
  }

  lemma OneMoreVisited(nodes: set<Word>, visited: set<Word>, edge: Word)
    requires edge in nodes && edge !in visited
    ensures |nodes - (visited + {edge})| == |nodes - visited| - 1
  {
    assert nodes - (visited + {edge}) == (nodes - visited) - {edge};
  }

  lemma QueueAppend(start: seq<Word>, newVisited: seq<Word>, q: seq<Word>, from: nat, edge: Word)
    requires start <= newVisited && from < |start| && q == newVisited[from + 1..]
    ensures start <= newVisited + [edge] && q + [edge] == (newVisited + [edge])[from + 1..]
    ensures newVisited[from] == start[from]
  {
  }

  lemma ClosureGrows(g: map<Word, set<Word>>, before: seq<Word>, after: seq<Word>,
                     visited: set<Word>, visited': set<Word>, head: nat)
    requires before <= after && head < |before| && visited <= visited'
    requires forall i :: 0 <= i < head ==> Adj(g, before[i]) <= visited
    requires Adj(g, before[head]) <= visited'
    ensures forall i :: 0 <= i < head + 1 ==> Adj(g, after[i]) <= visited'
  {
    forall i | 0 <= i < head + 1
      ensures Adj(g, after[i]) <= visited'
    {
      assert after[i] == before[i];
    }
  }

  /** The inner loop of `bfs`: every neighbour of the node at `from` not
      yet visited is appended to the queue and to the result, and marked. */
  method VisitNeighbours(g: map<Word, set<Word>>, ghost nodes: set<Word>, root: Word, visited: set<Word>, from: nat,
                         q: seq<Word>, newVisited: seq<Word>, visited': set<Word>, ghost parent: seq<nat>)
    returns (q': seq<Word>, newVisited': seq<Word>, visited'': set<Word>, ghost parent': seq<nat>)
    requires nodes == set a, b | a in g && b in g[a] :: b
    requires from < |newVisited| && q == newVisited[from + 1..]
    requires Reached(g, root, visited, newVisited, visited', parent)
    ensures newVisited <= newVisited' && q' == newVisited'[from + 1..] && visited' <= visited''
    ensures Reached(g, root, visited, newVisited', visited'', parent')
    ensures Adj(g, newVisited[from]) <= visited''
    ensures |q'| + |nodes - visited''| == |q| + |nodes - visited'|
  {
    q', newVisited', visited'', parent' := q, newVisited, visited', parent;
    var rest := Adj(g, newVisited[from]);
    while rest != {}
      invariant rest <= Adj(g, newVisited[from])
      invariant newVisited <= newVisited' && q' == newVisited'[from + 1..] && visited' <= visited''
      invariant Reached(g, root, visited, newVisited', visited'', parent')
      invariant Adj(g, newVisited[from]) - rest <= visited''
      invariant |q'| + |nodes - visited''| == |q| + |nodes - visited'|
      decreases rest
    {
      var edge :| edge in rest;
      rest := rest - {edge};
      if edge !in visited'' {
        assert edge in nodes;
        OneMoreVisited(nodes, visited'', edge);
        QueueAppend(newVisited, newVisited', q', from, edge);
        ReachedAppend(g, root, visited, newVisited', visited'', parent', from, edge);
        q' := q' + [edge];
        visited'' := visited'' + {edge};
        newVisited' := newVisited' + [edge];
        parent' := parent' + [from];
      }
    }
  }

  /** `bfs(root, visited)`: the nodes it reaches, and the visited set it
      leaves behind (the source updates the caller's set in place). */
  method Bfs(g: map<Word, set<Word>>, root: Word, visited: set<Word>)
    returns (newVisited: seq<Word>, visited': set<Word>)
    ensures |newVisited| >= 1 && newVisited[0] == root
    ensures forall i :: 0 < i < |newVisited| ==> newVisited[i] !in visited
    ensures forall i, j :: 0 <= i < j < |newVisited| ==> newVisited[i] != newVisited[j]
    ensures forall i :: 0 < i < |newVisited| ==> exists j :: 0 <= j < i && newVisited[i] in Adj(g, newVisited[j])
    ensures visited' == visited + set x | x in newVisited
    ensures forall i :: 0 <= i < |newVisited| ==> Adj(g, newVisited[i]) <= visited'
  {
    ghost var nodes := set a, b | a in g && b in g[a] :: b;
    var q := [root];
    visited' := visited + {root};
    newVisited := [root];
    var head: nat := 0;
    ghost var parent: seq<nat> := [0];
    assert (set x | x in newVisited) == {root};
    while q != []
      invariant 0 <= head <= |newVisited| && q == newVisited[head..]
      invariant Reached(g, root, visited, newVisited, visited', parent)
      invariant forall i :: 0 <= i < head ==> Adj(g, newVisited[i]) <= visited'
      decreases |q| + |nodes - visited'|
    {
      ghost var before, visitedBefore := newVisited, visited';
      q := q[1..];
      q, newVisited, visited', parent := VisitNeighbours(g, nodes, root, visited, head, q, newVisited, visited', parent);
      ClosureGrows(g, before, newVisited, visitedBefore, visited', head);
      head := head + 1;
    }
    forall i | 0 < i < |newVisited|
      ensures exists j :: 0 <= j < i && newVisited[i] in Adj(g, newVisited[j])
    {
      assert newVisited[i] in Adj(g, newVisited[parent[i]]);
    }
  }


  // ------------------------------------------------------ the chainer state

  /** The index of a chainer: every word of `rev_index` has occurrences,
      each of that word; every occurrence is indexed under its word and has
      the senses of its word, at least one. */
  ghost predicate IndexedBy(occs: Occurrences, revIndex: map<Word, set<nat>>, synsets: Word -> seq<Sense>)
  {
    && (forall w :: w in revIndex ==> revIndex[w] != {} && forall p :: p in revIndex[w] ==> p in occs && occs[p].word == w)
    && (forall p :: p in occs ==> occs[p].word in revIndex && p in revIndex[occs[p].word])
    && (forall p :: p in occs ==> occs[p].senses == synsets(occs[p].word) && occs[p].senses != [])
  }

  /** One edge set per sense of each occurrence (`{ sense : set() for sense
      in self.senses }`). */
  ghost predicate EdgeKeys(occs: Occurrences, edges: EdgeMap)
  {
    forall p, s :: (p, s) in edges <==> p in occs && s in occs[p].senses
  }

  /** Sense s of the occurrence at p is not the one chosen for its word. */
  ghost predicate Unchosen(occs: Occurrences, wordSenses: map<Word, Sense>, p: nat, s: Sense)
  {
    p in occs && occs[p].word in wordSenses && s != wordSenses[occs[p].word]
  }

  /** Every edge removed from a to b had an end at an unchosen sense. */
  ghost predicate RemovedUnchosen(occs: Occurrences, wordSenses: map<Word, Sense>, a: EdgeMap, b: EdgeMap)
  {
    forall q, t, f :: f in Edges(a, q, t) && f !in Edges(b, q, t) ==>
      Unchosen(occs, wordSenses, q, t) || Unchosen(occs, wordSenses, f.position, f.sense)
  }

  lemma RemovedUnchosenTransitive(occs: Occurrences, wordSenses: map<Word, Sense>, a: EdgeMap, b: EdgeMap, c: EdgeMap)
    requires Shrunk(a, b) && RemovedUnchosen(occs, wordSenses, a, b) && RemovedUnchosen(occs, wordSenses, b, c)
    ensures RemovedUnchosen(occs, wordSenses, a, c)
  {
    forall q, t, f | f in Edges(a, q, t) && f !in Edges(c, q, t)
      ensures Unchosen(occs, wordSenses, q, t) || Unchosen(occs, wordSenses, f.position, f.sense)
    {
      if f in Edges(b, q, t) {
        assert Unchosen(occs, wordSenses, q, t) || Unchosen(occs, wordSenses, f.position, f.sense);
      }
    }
  }

  /** Every edge removed from a to b was in list (p, s) or pointed to it. */
  ghost predicate RemovedAt(a: EdgeMap, b: EdgeMap, p: nat, s: Sense)
  {
    forall q, t, f :: f in Edges(a, q, t) && f !in Edges(b, q, t) ==>
      (q == p && t == s) || (f.position == p && f.sense == s)
  }

  /** Removing the edges of an unchosen list removes only edges with an
      unchosen end. */
  lemma RemovedAtUnchosen(occs: Occurrences, wordSenses: map<Word, Sense>, a: EdgeMap, b: EdgeMap, p: nat, s: Sense)
    requires Unchosen(occs, wordSenses, p, s) && RemovedAt(a, b, p, s)
    ensures RemovedUnchosen(occs, wordSenses, a, b)
  {
  }

  /** One pass of the `while edge_list` loop. */
  lemma ClearStep(a: EdgeMap, b: EdgeMap, p: nat, s: Sense, e: Edge)
    requires Symmetric(b) && NoSelfLoops(b) && e in Edges(b, p, s)
    requires Shrunk(a, b) && RemovedAt(a, b, p, s)
    ensures (p, s) in b
    ensures var c := RemoveEdgeOf(b, p, s, e);
            && Shrunk(a, c) && RemovedAt(a, c, p, s) && |Edges(c, p, s)| < |Edges(b, p, s)|
  {
    RemoveEdgeMeaning(b, p, s, e);
    var c := RemoveEdgeOf(b, p, s, e);
    ShrunkTransitive(a, b, c);
    forall q, t, f | f in Edges(a, q, t) && f !in Edges(c, q, t)
      ensures (q == p && t == s) || (f.position == p && f.sense == s)
    {
      if f in Edges(b, q, t) {
        assert (q == p && t == s) || (q == e.position && t == e.sense && f == Edge(p, s, e.dist));
      }
    }
  }

  lemma SubsetSize<T>(a: set<T>, b: set<T>)
    requires a <= b
    ensures |a| <= |b|
  {
    assert b == a + (b - a);
  }

  /** The limit above which `trim_disambiguation_graph` empties a list. */
  const TRIM_LIMIT: nat := 100

  /** Bounds on list sizes survive edge removal. */
  lemma ShrunkBound(a: EdgeMap, b: EdgeMap, positions: set<nat>, s: Sense)
    requires Shrunk(a, b)
    ensures forall p :: p in positions && |Edges(a, p, s)| <= TRIM_LIMIT ==> |Edges(b, p, s)| <= TRIM_LIMIT
  {
    forall p | p in positions && |Edges(a, p, s)| <= TRIM_LIMIT
      ensures |Edges(b, p, s)| <= TRIM_LIMIT
    {
      SubsetSize(Edges(b, p, s), Edges(a, p, s));
    }
  }

  /** The words that sense s links to from the occurrences at `positions`,
      other than w itself. */
  ghost function LinksOver(occs: Occurrences, edges: EdgeMap, w: Word, s: Sense, positions: set<nat>): set<Word>
  {
    set p, e | p in positions && e in Edges(edges, p, s) && e.position in occs && occs[e.position].word != w
      :: occs[e.position].word
  }

  ghost function LinksOfEdges(occs: Occurrences, w: Word, es: set<Edge>): set<Word>
  {
    set e | e in es && e.position in occs && occs[e.position].word != w :: occs[e.position].word
  }

  lemma LinksOverAdd(occs: Occurrences, edges: EdgeMap, w: Word, s: Sense, positions: set<nat>, p: nat)
    ensures LinksOver(occs, edges, w, s, positions + {p})
            == LinksOver(occs, edges, w, s, positions) + LinksOfEdges(occs, w, Edges(edges, p, s))
  {
  }

  lemma LinksOfEdgesAdd(occs: Occurrences, w: Word, es: set<Edge>, e: Edge)
    ensures LinksOfEdges(occs, w, es + {e})
            == LinksOfEdges(occs, w, es) + (if e.position in occs && occs[e.position].word != w then {occs[e.position].word} else {})
  {
  }

  /** g2 is g with the links L of w added in both directions. */
  ghost predicate AddedLinks(g: map<Word, set<Word>>, g2: map<Word, set<Word>>, w: Word, L: set<Word>)
  {
    && g2.Keys == g.Keys
    && forall x :: x in g ==> g2[x] == g[x] + (if x == w then L else {}) + (if x in L then {w} else {})
  }

  lemma AddedLinksStep(g: map<Word, set<Word>>, g1: map<Word, set<Word>>, w: Word, L: set<Word>, v: Word)
    requires AddedLinks(g, g1, w, L) && w in g && v in g
    ensures AddedLinks(g, AddVertexEdge(g1, w, v), w, L + {v})
  {
    var g2 := AddVertexEdge(g1, w, v);
    forall x | x in g
      ensures g2[x] == g[x] + (if x == w then L + {v} else {}) + (if x in L + {v} then {w} else {})
    {
      assert Adj(g2, x) == Adj(g1, x) + (if x == w then {v} else {}) + (if x == v then {w} else {});
    }
  }

  lemma AddedLinksCompose(g: map<Word, set<Word>>, g1: map<Word, set<Word>>, g2: map<Word, set<Word>>,
                          w: Word, L1: set<Word>, L2: set<Word>)
    requires AddedLinks(g, g1, w, L1) && AddedLinks(g1, g2, w, L2)
    ensures AddedLinks(g, g2, w, L1 + L2)
  {
    forall x | x in g
      ensures g2[x] == g[x] + (if x == w then L1 + L2 else {}) + (if x in L1 + L2 then {w} else {})
    {
    }
  }

  /** The condensed graph after the words of `done`: each has its own links,
      and each word is linked back from the words of `done` that link to
      it. */
  ghost predicate CondensedSoFar(g: map<Word, set<Word>>, links: map<Word, set<Word>>, done: set<Word>)
  {
    forall x :: x in g ==> g[x] == (if x in done && x in links then links[x] else {}) + (set y | y in done && y in links && x in links[y])
  }

  lemma CondenseStep(g: map<Word, set<Word>>, g2: map<Word, set<Word>>, links: map<Word, set<Word>>, done: set<Word>, w: Word)
    requires CondensedSoFar(g, links, done) && w !in done && w in links && w in g
    requires AddedLinks(g, g2, w, links[w])
    ensures CondensedSoFar(g2, links, done + {w})
  {
    forall x | x in g2
      ensures g2[x] == (if x in done + {w} && x in links then links[x] else {}) + (set y | y in done + {w} && y in links && x in links[y])
    {
      assert (set y | y in done + {w} && y in links && x in links[y])
             == (set y | y in done && y in links && x in links[y]) + (if x in links[w] then {w} else {});
    }
  }

  /** What `wsd` relies on: every word has occurrences, all with the
      word's senses, and it has at least one. */
  ghost predicate SensesIndexedBy(occs: Occurrences, revIndex: map<Word, set<nat>>, synsets: Word -> seq<Sense>)
  {
    forall w :: w in revIndex ==>
      && revIndex[w] != {} && synsets(w) != []
      && forall p :: p in revIndex[w] ==> p in occs && occs[p].senses == synsets(w)
  }

  lemma IndexedSensesIndexed(occs: Occurrences, revIndex: map<Word, set<nat>>, synsets: Word -> seq<Sense>)
    requires IndexedBy(occs, revIndex, synsets)
    ensures SensesIndexedBy(occs, revIndex, synsets)
  {
    forall w | w in revIndex
      ensures revIndex[w] != {} && synsets(w) != []
    {
      var p :| p in revIndex[w];
    }
  }

  /** `scores[sense]` for the occurrences at `positions`. */
  method SenseScore(edges: EdgeMap, positions: set<nat>, sense: Sense) returns (score: real)
    ensures score == Score(edges, positions, sense)
  {
    score := 0.0;
    var rest := positions;
    while rest != {}
      invariant score + SetSum(rest, PositionTotal(edges, sense)) == Score(edges, positions, sense)
      decreases rest
    {
      var position :| position in rest;
      SetSumRemove(rest, PositionTotal(edges, sense), position);
      var total := SumDistances(Edges(edges, position, sense));
      score := score + total;
      rest := rest - {position};
    }
  }

  /** The body of `wsd` for one word: the senses of its first occurrence,
      their scores, then the first sense with the highest score. */
  method ChooseSense(occs: Occurrences, edges: EdgeMap, positions: set<nat>, ghost senses: seq<Sense>) returns (best: Sense)
    requires positions != {} && senses != []
    requires forall p :: p in positions ==> p in occs && occs[p].senses == senses
    ensures best == BestSense(edges, positions, senses) && best in senses
  {
    var fpos :| fpos in positions;
    var fsenses := occs[fpos].senses;
    var scores: seq<real> := [];
    for k := 0 to |fsenses|
      invariant |scores| == k && forall j :: 0 <= j < k ==> scores[j] == Score(edges, positions, fsenses[j])
    {
      var score := SenseScore(edges, positions, fsenses[k]);
      scores := scores + [score];
    }
    assert scores == Scores(edges, positions, senses);
    var i := ChooseBest(scores);
    best := fsenses[i];
  }

  /** Every indexed word has the sense `wsd` chooses for it. */
  ghost predicate ChosenBest(edges: EdgeMap, revIndex: map<Word, set<nat>>, synsets: Word -> seq<Sense>, wordSenses: map<Word, Sense>)
  {
    forall w :: w in revIndex ==>
      w in wordSenses && synsets(w) != [] && wordSenses[w] == BestSense(edges, revIndex[w], synsets(w)) && wordSenses[w] in synsets(w)
  }

  /** The loop of `wsd` over `rev_index`, from the choices `wordSenses`:
      each indexed word gets the first of its senses with the highest
      score; every other word keeps its choice. */
  method ChooseSenses(occs: Occurrences, edges: EdgeMap, revIndex: map<Word, set<nat>>, synsets: Word -> seq<Sense>,
                      wordSenses: map<Word, Sense>) returns (r: map<Word, Sense>)
    requires SensesIndexedBy(occs, revIndex, synsets)
    ensures ChosenBest(edges, revIndex, synsets, r)
    ensures forall w :: w !in revIndex ==> (w in r <==> w in wordSenses)
    ensures forall w :: w !in revIndex && w in r ==> r[w] == wordSenses[w]
  {
    r := wordSenses;
    var words := revIndex.Keys;
    ghost var chosen: map<Word, Sense> := map[];
    while words != {}
      invariant chosen.Keys + words == revIndex.Keys && chosen.Keys !! words
      invariant ChoicesMade(edges, revIndex, synsets, chosen)
      invariant r == wordSenses + chosen
      decreases words
    {
      var w :| w in words;
      var best := ChooseSense(occs, edges, revIndex[w], synsets(w));
      ChoicesAdd(edges, revIndex, synsets, chosen, w, best);
      MoveOne(chosen.Keys, words, w);
      OverrideStep(wordSenses, chosen, w, best);
      r := r[w := best];
      chosen := chosen[w := best];
      words := words - {w};
    }
  }

  lemma OverrideStep<K, V>(base: map<K, V>, over: map<K, V>, k: K, v: V)
    ensures (base + over)[k := v] == base + over[k := v] && over[k := v].Keys == over.Keys + {k}
  {
  }

  /** Every sense in `senses` other than `best` has no edge left at any of
      `positions`. */
  ghost predicate PrunedAt(edges: EdgeMap, positions: set<nat>, senses: seq<Sense>, best: Sense)
  {
    forall p, t :: p in positions && t in senses && t != best ==> Edges(edges, p, t) == {}
  }

  /** Every occurrence of a chosen word outside `words` has edges only at
      the chosen sense. */
  ghost predicate PrunedOutside(occs: Occurrences, wordSenses: map<Word, Sense>, edges: EdgeMap, words: set<Word>)
  {
    forall p, s :: p in occs && occs[p].word !in words && occs[p].word in wordSenses && s != wordSenses[occs[p].word] ==>
      Edges(edges, p, s) == {}
  }

  lemma PrunedStep(a: EdgeMap, b: EdgeMap, positions: set<nat>, senses: seq<Sense>, best: Sense, k: nat)
    requires k < |senses| && Shrunk(a, b) && PrunedAt(a, positions, senses[..k], best)
    requires senses[k] != best ==> forall p :: p in positions ==> Edges(b, p, senses[k]) == {}
    ensures PrunedAt(b, positions, senses[..k + 1], best)
  {
    forall p, t | p in positions && t in senses[..k + 1] && t != best
      ensures Edges(b, p, t) == {}
    {
      if t in senses[..k] {
        assert Edges(b, p, t) <= Edges(a, p, t);
      } else {
        assert t == senses[k];
      }
    }
  }

  /** After the pass over w the occurrences of w join the pruned ones. */
  lemma PrunedWord(occs: Occurrences, revIndex: map<Word, set<nat>>, synsets: Word -> seq<Sense>, wordSenses: map<Word, Sense>,
                   a: EdgeMap, b: EdgeMap, w: Word, words: set<Word>)
    requires IndexedBy(occs, revIndex, synsets) && EdgeKeys(occs, b) && Shrunk(a, b) && w in revIndex && w in wordSenses
    requires PrunedOutside(occs, wordSenses, a, words)
    requires PrunedAt(b, revIndex[w], synsets(w), wordSenses[w])
    ensures PrunedOutside(occs, wordSenses, b, words - {w})
  {
    forall p, s | p in occs && occs[p].word !in words - {w} && occs[p].word in wordSenses && s != wordSenses[occs[p].word]
      ensures Edges(b, p, s) == {}
    {
      if occs[p].word == w {
        assert p in revIndex[w];
        if s !in synsets(w) {
          assert (p, s) !in b;
        }
      } else {
        assert Edges(b, p, s) <= Edges(a, p, s);
      }
    }
  }

  /** Every chosen list of the words outside `words` has at most 100
      edges. */
  ghost predicate TrimmedOutside(revIndex: map<Word, set<nat>>, wordSenses: map<Word, Sense>, edges: EdgeMap, words: set<Word>)
  {
    forall w, p :: w in revIndex && w !in words && w in wordSenses && p in revIndex[w] ==> |Edges(edges, p, wordSenses[w])| <= TRIM_LIMIT
  }

  lemma TrimmedWord(revIndex: map<Word, set<nat>>, wordSenses: map<Word, Sense>, a: EdgeMap, b: EdgeMap, w: Word, words: set<Word>)
    requires Shrunk(a, b) && TrimmedOutside(revIndex, wordSenses, a, words) && w in revIndex && w in wordSenses
    requires forall p :: p in revIndex[w] ==> |Edges(b, p, wordSenses[w])| <= TRIM_LIMIT
    ensures TrimmedOutside(revIndex, wordSenses, b, words - {w})
  {
    forall v, p | v in revIndex && v !in words - {w} && v in wordSenses && p in revIndex[v]
      ensures |Edges(b, p, wordSenses[v])| <= TRIM_LIMIT
    {
      SubsetSize(Edges(b, p, wordSenses[v]), Edges(a, p, wordSenses[v]));
    }
  }

  /** Every edge of list (p, s) ends at an occurrence whose word is one of
      `vertices`. */
  ghost predicate EndsIn(occs: Occurrences, edges: EdgeMap, p: nat, s: Sense, vertices: set<Word>)
  {
    forall e :: e in Edges(edges, p, s) ==> e.position in occs && occs[e.position].word in vertices
  }

  /** What `condense_graph` relies on: every indexed word has a chosen
      sense, whose lists end at indexed words. */
  ghost predicate Condensable(occs: Occurrences, edges: EdgeMap, revIndex: map<Word, set<nat>>, wordSenses: map<Word, Sense>)
  {
    forall w :: w in revIndex ==> w in wordSenses && forall p :: p in revIndex[w] ==> EndsIn(occs, edges, p, wordSenses[w], revIndex.Keys)
  }

  /** The loop over one occurrence's chosen list in `condense_graph`. */
  method CondensePosition(occs: Occurrences, edges: EdgeMap, g: map<Word, set<Word>>, w: Word, s: Sense, p: nat)
    returns (g': map<Word, set<Word>>)
    requires w in g && EndsIn(occs, edges, p, s, g.Keys)
    ensures AddedLinks(g, g', w, LinksOfEdges(occs, w, Edges(edges, p, s)))
  {
    var rest := Edges(edges, p, s);
    ghost var done: set<Edge> := {};
    g' := g;
    assert LinksOfEdges(occs, w, {}) == {};
    while rest != {}
      invariant done + rest == Edges(edges, p, s)
      invariant AddedLinks(g, g', w, LinksOfEdges(occs, w, done))
      decreases rest
    {
      var edge :| edge in rest;
      g' := CondenseEdge(occs, g, g', w, done, edge);
      done := done + {edge};
      rest := rest - {edge};
    }
  }

  /** One edge of that loop: an edge to another word links the two. */
  method CondenseEdge(occs: Occurrences, g: map<Word, set<Word>>, g1: map<Word, set<Word>>, w: Word,
                      ghost done: set<Edge>, edge: Edge) returns (g2: map<Word, set<Word>>)
    requires w in g && edge.position in occs && occs[edge.position].word in g
    requires AddedLinks(g, g1, w, LinksOfEdges(occs, w, done))
    ensures AddedLinks(g, g2, w, LinksOfEdges(occs, w, done + {edge}))
  {
    var nextWord := occs[edge.position].word;
    LinksOfEdgesAdd(occs, w, done, edge);
    g2 := g1;
    if nextWord != w {
      AddedLinksStep(g, g1, w, LinksOfEdges(occs, w, done), nextWord);
      g2 := AddVertexEdge(g1, w, nextWord);
    }
  }

  /** The loop over the occurrences of one word in `condense_graph`. */
  method CondenseWord(occs: Occurrences, edges: EdgeMap, g: map<Word, set<Word>>, w: Word, s: Sense, positions: set<nat>)
    returns (g': map<Word, set<Word>>)
    requires w in g && forall p :: p in positions ==> EndsIn(occs, edges, p, s, g.Keys)
    ensures AddedLinks(g, g', w, LinksOver(occs, edges, w, s, positions))
  {
    var rest := positions;
    ghost var done: set<nat> := {};
    g' := g;
    assert LinksOver(occs, edges, w, s, {}) == {};
    while rest != {}
      invariant done + rest == positions
      invariant AddedLinks(g, g', w, LinksOver(occs, edges, w, s, done))
      decreases rest
    {
      var position :| position in rest;
      var g2 := CondensePosition(occs, edges, g', w, s, position);
      LinksOverAdd(occs, edges, w, s, done, position);
      AddedLinksCompose(g, g', g2, w, LinksOver(occs, edges, w, s, done), LinksOfEdges(occs, w, Edges(edges, position, s)));
      g' := g2;
      done := done + {position};
      rest := rest - {position};
    }
  }

  /** The links of every indexed word: those of its chosen sense. */
  ghost function AllLinks(occs: Occurrences, edges: EdgeMap, revIndex: map<Word, set<nat>>, wordSenses: map<Word, Sense>): map<Word, set<Word>>
    requires forall w :: w in revIndex ==> w in wordSenses
  {
    map w | w in revIndex :: LinksOver(occs, edges, w, wordSenses[w], revIndex[w])
  }

  lemma AllLinksIndexed(occs: Occurrences, edges: EdgeMap, revIndex: map<Word, set<nat>>, wordSenses: map<Word, Sense>)
    requires Condensable(occs, edges, revIndex, wordSenses)
    ensures var links := AllLinks(occs, edges, revIndex, wordSenses);
            forall w :: w in links ==> links[w] <= links.Keys && w !in links[w]
  {
    var links := AllLinks(occs, edges, revIndex, wordSenses);
    forall w, v | w in links && v in links[w]
      ensures v in links.Keys && v != w
    {
      var p, e :| p in revIndex[w] && e in Edges(edges, p, wordSenses[w]) && e.position in occs
                  && occs[e.position].word != w && occs[e.position].word == v;
      assert EndsIn(occs, edges, p, wordSenses[w], revIndex.Keys);
    }
  }

  /** The body of `condense_graph`: one vertex per indexed word, linked to
      exactly the other words that the chosen sense of either links to. */
  method CondenseGraph(occs: Occurrences, edges: EdgeMap, revIndex: map<Word, set<nat>>, wordSenses: map<Word, Sense>)
    returns (g: map<Word, set<Word>>)
    requires Condensable(occs, edges, revIndex, wordSenses)
    ensures g.Keys == revIndex.Keys
    ensures CondensedSoFar(g, AllLinks(occs, edges, revIndex, wordSenses), revIndex.Keys)
    ensures forall w :: w in g ==> w !in g[w] && g[w] <= g.Keys
    ensures forall w, v :: w in g && v in g[w] ==> w in g[v]
  {
    ghost var links := AllLinks(occs, edges, revIndex, wordSenses);
    AllLinksIndexed(occs, edges, revIndex, wordSenses);
    g := map w | w in revIndex :: {};
    var words := revIndex.Keys;
    ghost var done: set<Word> := {};
    while words != {}
      invariant done + words == revIndex.Keys && done !! words && g.Keys == revIndex.Keys
      invariant CondensedSoFar(g, links, done)
      decreases words
    {
      var w :| w in words;
      var g2 := CondenseWord(occs, edges, g, w, wordSenses[w], revIndex[w]);
      CondenseStep(g, g2, links, done, w);
      MoveOne(done, words, w);
      g := g2;
      done := done + {w};
      words := words - {w};
    }
    CondensedGraph(g, links);
  }

  /** Moving an element from one of two disjoint sets to the other. */
  lemma MoveOne<T>(done: set<T>, todo: set<T>, x: T)
    requires done !! todo && x in todo
    ensures (done + {x}) !! (todo - {x}) && (done + {x}) + (todo - {x}) == done + todo
  {
  }

  /** The complete condensed graph has no loops, stays within its vertices
      and is symmetric. */
  lemma CondensedGraph(g: map<Word, set<Word>>, links: map<Word, set<Word>>)
    requires g.Keys == links.Keys && CondensedSoFar(g, links, links.Keys)
    requires forall w :: w in links ==> links[w] <= links.Keys && w !in links[w]
    ensures forall w :: w in g ==> w !in g[w] && g[w] <= g.Keys
    ensures forall w, v :: w in g && v in g[w] ==> w in g[v]
  {
  }

  /** `LexicalChainer`: the occurrences by position with their edge sets,
      the positions of each word and the sense chosen for each word. */
  class LexicalChainer {
    var occurrences: Occurrences
    var edges: EdgeMap
    var revIndex: map<Word, set<nat>>
    var wordSenses: map<Word, Sense>
    const synsets: Word -> seq<Sense>

    constructor(synsets: Word -> seq<Sense>)
      ensures this.synsets == synsets
      ensures occurrences == map[] && edges == map[] && revIndex == map[] && wordSenses == map[]
      ensures Indexed() && GraphOk()
    {
      this.synsets := synsets;
      occurrences := map[];
      edges := map[];
      revIndex := map[];
      wordSenses := map[];
    }

    /** The index is consistent with the occurrences. */
    ghost predicate Indexed()
      reads this`occurrences, this`revIndex
    {
      IndexedBy(occurrences, revIndex, synsets)
    }

    /** One edge set per sense; the graph is symmetric and without edges
        from a sense to itself. */
    ghost predicate GraphOk()
      reads this`occurrences, this`edges
    {
      EdgeKeys(occurrences, edges) && Symmetric(edges) && NoSelfLoops(edges)
    }

    /** Every word has a chosen sense, one of its own. */
    ghost predicate Chosen()
      reads this`revIndex, this`wordSenses
    {
      forall w :: w in revIndex ==> w in wordSenses && wordSenses[w] in synsets(w)
    }

    /** The words the chosen sense of w links to. */
    ghost function Links(w: Word): set<Word>
      reads this`occurrences, this`edges, this`revIndex, this`wordSenses
      requires w in revIndex && w in wordSenses
    {
      LinksOver(occurrences, edges, w, wordSenses[w], revIndex[w])
    }

    /** `wsd()`: each word gets the first of its senses with the highest
        score; the other words keep their choice. */
    method Wsd()
      requires Indexed()
      modifies this`wordSenses
      ensures ChosenBest(edges, revIndex, synsets, wordSenses) && Chosen()
      ensures forall w :: w !in revIndex ==> (w in wordSenses <==> w in old(wordSenses))
      ensures forall w :: w !in revIndex && w in wordSenses ==> wordSenses[w] == old(wordSenses)[w]
    {
      IndexedSensesIndexed(occurrences, revIndex, synsets);
      wordSenses := ChooseSenses(occurrences, edges, revIndex, synsets, wordSenses);
    }

    /** `WordOccurrence.add_edge(lhs_occ, lhs_sense, rhs_occ, rhs_sense,
        dist)` between two different senses of the graph. */
    method AddEdge(lp: nat, ls: Sense, rp: nat, rs: Sense, dist: real)
      requires GraphOk() && (lp, ls) in edges && (rp, rs) in edges && (lp != rp || ls != rs)
      modifies this`edges
      ensures edges == AddEdgeOf(old(edges), lp, ls, rp, rs, dist)
      ensures GraphOk()
    {
      AddEdgeMeaning(edges, lp, ls, rp, rs, dist);
      edges := AddTo(edges, lp, ls, Edge(rp, rs, dist));
      edges := AddTo(edges, rp, rs, Edge(lp, ls, dist));
    }

    /** `WordOccurrence.remove_edge(occ, sense, edge)`. */
    method RemoveEdge(p: nat, s: Sense, e: Edge)
      requires GraphOk() && e in Edges(edges, p, s)
      modifies this`edges
      ensures edges == RemoveEdgeOf(old(edges), p, s, e)
      ensures GraphOk() && Shrunk(old(edges), edges)
    {
      RemoveEdgeMeaning(edges, p, s, e);
      edges := RemoveFrom(edges, p, s, e);
      edges := RemoveFrom(edges, e.position, e.sense, Edge(p, s, e.dist));
    }

    /** The `while edge_list` loop: removes every edge of sense s of the
        occurrence at p, each with its reverse. */
    method ClearList(p: nat, s: Sense)
      requires GraphOk()
      modifies this`edges
      ensures Edges(edges, p, s) == {}
      ensures GraphOk() && Shrunk(old(edges), edges)
      ensures RemovedAt(old(edges), edges, p, s)
    {
      while Edges(edges, p, s) != {}
        invariant GraphOk() && Shrunk(old(edges), edges)
        invariant RemovedAt(old(edges), edges, p, s)
        decreases |Edges(edges, p, s)|
      {
        var edge :| edge in Edges(edges, p, s);
        ClearStep(old(edges), edges, p, s, edge);
        RemoveEdge(p, s, edge);
      }
    }

    /** `prune_disambiguation_graph` for one sense of a word that is not
        its chosen one: the lists of that sense are emptied at every
        occurrence of the word. */
    method PruneSense(w: Word, s: Sense)
      requires GraphOk() && w in revIndex && w in wordSenses && s != wordSenses[w]
      requires forall p :: p in revIndex[w] ==> p in occurrences && occurrences[p].word == w
      modifies this`edges
      ensures GraphOk() && Shrunk(old(edges), edges)
      ensures RemovedUnchosen(occurrences, wordSenses, old(edges), edges)
      ensures forall p :: p in revIndex[w] ==> Edges(edges, p, s) == {}
    {
      var rest := revIndex[w];
      while rest != {}
        invariant rest <= revIndex[w]
        invariant GraphOk() && Shrunk(old(edges), edges)
        invariant RemovedUnchosen(occurrences, wordSenses, old(edges), edges)
        invariant forall p :: p in revIndex[w] && p !in rest ==> Edges(edges, p, s) == {}
        decreases rest
      {
        var position :| position in rest;
        ghost var before := edges;
        ClearList(position, s);
        RemovedAtUnchosen(occurrences, wordSenses, before, edges, position, s);
        RemovedUnchosenTransitive(occurrences, wordSenses, old(edges), before, edges);
        ShrunkTransitive(old(edges), before, edges);
        rest := rest - {position};
      }
    }

    /** `prune_disambiguation_graph` for one word: every sense of its first
        occurrence other than the chosen one. */
    method PruneWord(w: Word)
      requires Indexed() && GraphOk() && Chosen() && w in revIndex
      modifies this`edges
      ensures GraphOk() && Shrunk(old(edges), edges)
      ensures RemovedUnchosen(occurrences, wordSenses, old(edges), edges)
      ensures PrunedAt(edges, revIndex[w], synsets(w), wordSenses[w])
    {
      var fpos :| fpos in revIndex[w];
      var senses := occurrences[fpos].senses;
      var bestSense := wordSenses[w];
      for k := 0 to |senses|
        invariant GraphOk() && Shrunk(old(edges), edges)
        invariant RemovedUnchosen(occurrences, wordSenses, old(edges), edges)
        invariant PrunedAt(edges, revIndex[w], senses[..k], bestSense)
      {
        ghost var before := edges;
        if senses[k] != bestSense {
          PruneSense(w, senses[k]);
          RemovedUnchosenTransitive(occurrences, wordSenses, old(edges), before, edges);
          ShrunkTransitive(old(edges), before, edges);
        }
        PrunedStep(before, edges, revIndex[w], senses, bestSense, k);
      }
      assert senses[..|senses|] == senses == synsets(w);
    }

    /** `prune_disambiguation_graph()`: afterwards only the chosen sense of
        each occurrence has edges, and no edge between two chosen senses
        was removed. */
    method Prune()
      requires Indexed() && GraphOk() && Chosen()
      modifies this`edges
      ensures GraphOk() && Shrunk(old(edges), edges)
      ensures PrunedOutside(occurrences, wordSenses, edges, {})
      ensures RemovedUnchosen(occurrences, wordSenses, old(edges), edges)
    {
      var words := revIndex.Keys;
      while words != {}
        invariant words <= revIndex.Keys
        invariant GraphOk() && Shrunk(old(edges), edges)
        invariant RemovedUnchosen(occurrences, wordSenses, old(edges), edges)
        invariant PrunedOutside(occurrences, wordSenses, edges, words)
        decreases words
      {
        var w :| w in words;
        ghost var before := edges;
        PruneWord(w);
        RemovedUnchosenTransitive(occurrences, wordSenses, old(edges), before, edges);
        ShrunkTransitive(old(edges), before, edges);
        PrunedWord(occurrences, revIndex, synsets, wordSenses, before, edges, w, words);
        words := words - {w};
      }
    }

    /** `trim_disambiguation_graph` for one word: the chosen lists of its
        occurrences with more than 100 edges are emptied. */
    method TrimWord(w: Word)
      requires GraphOk() && w in revIndex && w in wordSenses
      modifies this`edges
      ensures GraphOk() && Shrunk(old(edges), edges)
      ensures forall p :: p in revIndex[w] ==> |Edges(edges, p, wordSenses[w])| <= TRIM_LIMIT
    {
      var sense := wordSenses[w];
      var rest := revIndex[w];
      while rest != {}
        invariant rest <= revIndex[w]
        invariant GraphOk() && Shrunk(old(edges), edges)
        invariant forall p :: p in revIndex[w] && p !in rest ==> |Edges(edges, p, sense)| <= TRIM_LIMIT
        decreases rest
      {
        var position :| position in rest;
        if |Edges(edges, position, sense)| > TRIM_LIMIT {
          ghost var before := edges;
          ClearList(position, sense);
          ShrunkTransitive(old(edges), before, edges);
          ShrunkBound(before, edges, revIndex[w] - rest, sense);
        }
        rest := rest - {position};
      }
    }

    /** `trim_disambiguation_graph()`: afterwards no chosen list has more
        than 100 edges. */
    method Trim()
      requires GraphOk() && Chosen()
      modifies this`edges
      ensures GraphOk() && Shrunk(old(edges), edges)
      ensures TrimmedOutside(revIndex, wordSenses, edges, {})
    {
      var words := revIndex.Keys;
      while words != {}
        invariant words <= revIndex.Keys
        invariant GraphOk() && Shrunk(old(edges), edges)
        invariant TrimmedOutside(revIndex, wordSenses, edges, words)
        decreases words
      {
        var w :| w in words;
        ghost var before := edges;
        TrimWord(w);
        ShrunkTransitive(old(edges), before, edges);
        TrimmedWord(revIndex, wordSenses, before, edges, w, words);
        words := words - {w};
      }
    }

    /** The condensed graph can be built from a consistent chainer. */
    lemma ChainerCondensable()
      requires Indexed() && GraphOk() && Chosen()
      ensures Condensable(occurrences, edges, revIndex, wordSenses)
    {
      forall w, p, e | w in revIndex && p in revIndex[w] && e in Edges(edges, p, wordSenses[w])
        ensures e.position in occurrences && occurrences[e.position].word in revIndex
      {
        assert Edge(p, wordSenses[w], e.dist) in Edges(edges, e.position, e.sense);
      }
    }

    /** `condense_graph()`: one vertex per word, linked to exactly the
        other words that the chosen sense of either links to. */
    method Condense() returns (g: map<Word, set<Word>>)
      requires Indexed() && GraphOk() && Chosen()
      ensures g.Keys == revIndex.Keys
      ensures forall w, v :: w in g && v in g ==> (v in g[w] <==> v in Links(w) || w in Links(v))
      ensures forall w :: w in g ==> w !in g[w] && g[w] <= g.Keys
      ensures forall w, v :: w in g && v in g[w] ==> w in g[v]
    {
      ChainerCondensable();
      g := CondenseGraph(occurrences, edges, revIndex, wordSenses);
    }
  }
}
