/**
 * The search for cycles in the epoch lineage graph, as packages/audit/src/anomalies.ts runs it. Ids are their code
 * units.
 */
module Cycles {
  import opened Bytes
  import opened Sorting
  import opened Lex

  type Id = seq<int>
  const BAR := 124

  /** The adjacency map: its keys in insertion order, and the successors of each in theirs. */
  datatype Graph = Graph(keys: seq<Id>, adjacency: map<Id, seq<Id>>) {
    ghost predicate Valid() {
      forall n :: n in adjacency <==> n in keys
    }

    function Next(n: Id): seq<Id> {
      if n in adjacency then adjacency[n] else []
    }
  }

  // --------------------------------------------------------------- walks and cycles

  ghost predicate Walk(g: Graph, p: seq<Id>) {
    forall i :: 0 <= i < |p| - 1 ==> p[i + 1] in g.Next(p[i])
  }

  ghost predicate ClosedWalk(g: Graph, c: seq<Id>) {
    c != [] && Walk(g, c) && c[0] in g.Next(Last(c))
  }

  ghost predicate SimpleCycle(g: Graph, c: seq<Id>) {
    ClosedWalk(g, c) && Distinct(c)
  }

  /** The closed walk `c` goes from `a` straight to `b`. */
  ghost predicate Uses(c: seq<Id>, a: Id, b: Id) {
    c != [] && ((exists i :: 0 <= i < |c| - 1 && c[i] == a && c[i + 1] == b) || (Last(c) == a && c[0] == b))
  }

  // ---------------------------------------------------------------- canonical rotation

  function Rotate(c: seq<Id>, k: nat): (r: seq<Id>)
    requires k <= |c|
    ensures |r| == |c|
  {
    c[k..] + c[..k]
  }

  /** The index of the least id in `c[..n]`, the first of them if there are several. */
  function LeastBefore(c: seq<Id>, n: nat): (m: nat)
    requires 1 <= n <= |c|
    ensures m < n && forall i :: 0 <= i < n ==> Compare(c[m], c[i]) <= 0
  {
    CompareSame(c[n - 1], c[n - 1]);
    if n == 1 then 0 else
      var m := LeastBefore(c, n - 1);
      CompareFlips(c[n - 1], c[m]);
      if Compare(c[n - 1], c[m]) < 0 then
        Undercuts(c, m, n);
        n - 1
      else m
  }

  lemma Undercuts(c: seq<Id>, m: nat, n: nat)
    requires m < n - 1 < |c| && Compare(c[n - 1], c[m]) < 0 && forall i :: 0 <= i < n - 1 ==> Compare(c[m], c[i]) <= 0
    ensures forall i :: 0 <= i < n ==> Compare(c[n - 1], c[i]) <= 0
  {
    hide Compare;
    CompareSame(c[n - 1], c[n - 1]);
    forall i | 0 <= i < n - 1 ensures Compare(c[n - 1], c[i]) <= 0 {
      CompareChains(c[n - 1], c[m], c[i]);
    }
  }

  function Canonical(c: seq<Id>): (r: seq<Id>)
    requires c != []
    ensures |r| == |c|
  {
    Rotate(c, LeastBefore(c, |c|))
  }

  method CanonicalizeCycle(cycle: seq<Id>) returns (r: seq<Id>)
    requires cycle != []
    ensures r == Canonical(cycle)
  {
    hide Compare;
    var minIndex := 0;
    for i := 1 to |cycle|
      invariant 0 <= minIndex < |cycle| && minIndex == LeastBefore(cycle, i)
    {
      if Compare(cycle[i], cycle[minIndex]) < 0 {
        minIndex := i;
      }
    }
    r := cycle[minIndex..] + cycle[..minIndex];
  }

  lemma LeastIsOne(c: seq<Id>, m: nat, n: nat)
    requires Distinct(c) && m < |c| && n < |c| && Compare(c[m], c[n]) <= 0 && Compare(c[n], c[m]) <= 0
    ensures m == n
  {
    hide Compare;
    CompareFlips(c[m], c[n]);
    CompareSame(c[m], c[n]);
  }

  lemma RotateTwice(c: seq<Id>, k: nat, j: nat)
    requires k <= |c| && j <= |c|
    ensures Rotate(Rotate(c, k), j) == Rotate(c, if k + j <= |c| then k + j else k + j - |c|)
  {
  }

  lemma RotateKeepsDistinct(c: seq<Id>, k: nat)
    requires k <= |c| && Distinct(c)
    ensures Distinct(Rotate(c, k))
  {
    var r := Rotate(c, k);
    forall i, j | 0 <= i < j < |r| ensures r[i] != r[j] {
      var a := if i < |c| - k then i + k else i - (|c| - k);
      var b := if j < |c| - k then j + k else j - (|c| - k);
      assert r[i] == c[a] && r[j] == c[b] && a != b;
    }
  }

  /** All rotations of one cycle have the same canonical form. */
  lemma RotationsAreOne(c: seq<Id>, k: nat)
    requires c != [] && Distinct(c) && k < |c|
    ensures Canonical(Rotate(c, k)) == Canonical(c)
  {
    hide Compare;
    var n, r := |c|, Rotate(c, k);
    var m, l := LeastBefore(c, n), LeastBefore(r, n);
    var at := if l < n - k then l + k else l - (n - k);
    var back := if m >= k then m - k else m + (n - k);
    assert r[l] == c[at] && r[back] == c[m];
    LeastIsOne(c, m, at);
    RotateTwice(c, k, l);
    if k + l == n {
      assert Rotate(c, n) == c == Rotate(c, 0);
    }
  }

  /** Turning a cycle keeps it a cycle, through the same edges. */
  lemma RotateKeepsCycle(g: Graph, c: seq<Id>, k: nat)
    requires SimpleCycle(g, c) && k < |c|
    ensures SimpleCycle(g, Rotate(c, k))
  {
    var r := Rotate(c, k);
    RotateKeepsDistinct(c, k);
    if k == 0 {
      assert r == c;
    } else {
      forall i | 0 <= i < |r| - 1 ensures r[i + 1] in g.Next(r[i]) {
        if i < |c| - k - 1 {
          assert r[i] == c[i + k] && r[i + 1] == c[i + k + 1];
        } else if i == |c| - k - 1 {
          assert r[i] == Last(c) && r[i + 1] == c[0];
        } else {
          var t := i - (|c| - k);
          assert r[i] == c[t] && r[i + 1] == c[t + 1];
        }
      }
      assert Last(r) == c[k - 1] && r[0] == c[k];
    }
  }

  lemma RotateKeepsLastEdge(c: seq<Id>, k: nat)
    requires c != [] && k < |c|
    ensures Uses(Rotate(c, k), Last(c), c[0])
  {
    var r := Rotate(c, k);
    if k == 0 {
      assert r == c;
    } else {
      var i := |c| - k - 1;
      assert r[i] == Last(c) && r[i + 1] == c[0];
    }
  }

  // ---------------------------------------------------------------- the reported list

  function Join(c: seq<Id>): Id {
    if c == [] then [] else if |c| == 1 then c[0] else c[0] + [BAR] + Join(c[1..])
  }

  function ByName(a: seq<Id>, b: seq<Id>): int {
    Compare(Join(a), Join(b))
  }

  /** The cycles map, in insertion order: a cycle under a name already there takes its place. */
  function Put(found: seq<seq<Id>>, c: seq<Id>): seq<seq<Id>> {
    if found == [] then [c]
    else if Join(found[0]) == Join(c) then [c] + found[1..]
    else [found[0]] + Put(found[1..], c)
  }

  lemma {:induction false} PutHolds(found: seq<seq<Id>>, c: seq<Id>, d: seq<Id>)
    ensures d in Put(found, c) ==> d == c || d in found
    ensures d in found && Join(d) != Join(c) ==> d in Put(found, c)
    ensures c in Put(found, c) && Put(found, c) != []
  {
    hide Join;
    if found != [] {
      assert found == [found[0]] + found[1..];
      PutHolds(found[1..], c, d);
    }
  }

  ghost predicate NamesDiffer(found: seq<seq<Id>>) {
    forall i, j :: 0 <= i < j < |found| ==> Join(found[i]) != Join(found[j])
  }

  lemma {:induction false} PutKeepsNames(found: seq<seq<Id>>, c: seq<Id>)
    requires NamesDiffer(found)
    ensures NamesDiffer(Put(found, c))
  {
    hide Join;
    if found != [] {
      var rest := found[1..];
      PutKeepsNames(rest, c);
      var put := Put(rest, c);
      forall d | d in put && Join(found[0]) != Join(c) ensures Join(d) != Join(found[0]) {
        PutHolds(rest, c, d);
      }
    }
  }

  ghost predicate NoBar(c: seq<Id>) {
    forall i :: 0 <= i < |c| ==> BAR !in c[i]
  }

  /** How many code units stand before the first bar. */
  function BeforeBar(s: Id): nat {
    if s == [] || s[0] == BAR then 0 else 1 + BeforeBar(s[1..])
  }

  lemma {:induction false} BarFound(id: Id, rest: Id)
    requires BAR !in id
    ensures BeforeBar(id) == |id| && BeforeBar(id + [BAR] + rest) == |id|
  {
    if id != [] {
      BarFound(id[1..], rest);
      assert (id + [BAR] + rest)[1..] == id[1..] + [BAR] + rest;
    }
  }

  /** Ids without a bar can be told apart in a name. */
  lemma {:induction false} JoinTellsApart(a: seq<Id>, b: seq<Id>)
    requires a != [] && b != [] && NoBar(a) && NoBar(b) && Join(a) == Join(b)
    ensures a == b
    decreases |a|
  {
    hide Join, BeforeBar;
    JoinIs(a);
    JoinIs(b);
    var j := Join(a);
    BarFound(a[0], Join(a[1..]));
    BarFound(b[0], Join(b[1..]));
    assert |a[0]| == |b[0]| == BeforeBar(j);
    assert a[0] == j[..|a[0]|] && b[0] == j[..|b[0]|];
    assert |a| > 1 <==> |j| > |a[0]|;
    assert |b| > 1 <==> |j| > |b[0]|;
    if |a| > 1 {
      assert Join(a[1..]) == j[|a[0]| + 1..] == Join(b[1..]);
      JoinTellsApart(a[1..], b[1..]);
    }
    assert a == [a[0]] + a[1..] && b == [b[0]] + b[1..];
  }

  lemma JoinIs(c: seq<Id>)
    requires c != []
    ensures Join(c) == if |c| == 1 then c[0] else c[0] + [BAR] + Join(c[1..])
  {
  }

  // --------------------------------------------------------------------- the search

  /**
   * The nodes left behind so far, in the order the search left them: each successor of one was left
   * earlier, or the edge to it closed a cycle.
   */
  ghost predicate Left(g: Graph, order: seq<Id>, backs: set<(Id, Id)>) {
    forall i, c :: 0 <= i < |order| && c in g.Next(order[i]) ==> c in order[..i] || (order[i], c) in backs
  }

  /** The successors of the path's node `i` already taken up: left behind, closing a cycle, or next on the stack. */
  ghost predicate Taken(g: Graph, stack: seq<Id>, order: seq<Id>, backs: set<(Id, Id)>, i: nat, pending: seq<Id>)
    requires i < |stack|
  {
    forall c :: c in g.Next(stack[i]) ==>
      c in pending || c in order || (stack[i], c) in backs || (i + 1 < |stack| && c == stack[i + 1])
  }

  /** What is reported: true cycles, led by their least id, each under its own name. */
  ghost predicate Reported(g: Graph, found: seq<seq<Id>>, backs: set<(Id, Id)>) {
    && (forall c :: c in found ==> SimpleCycle(g, c) && (forall i :: 0 <= i < |c| ==> Compare(c[0], c[i]) <= 0))
    && NamesDiffer(found) && (found == [] ==> backs == {})
  }

  /** Each edge that closed a cycle lies on a reported one. */
  ghost predicate BacksShown(found: seq<seq<Id>>, backs: set<(Id, Id)>) {
    forall a, b :: (a, b) in backs ==> exists c :: c in found && Uses(c, a, b)
  }

  /** No id in the graph holds a bar. */
  ghost predicate Barless(g: Graph) {
    forall n, c :: c in g.Next(n) ==> BAR !in c
  }

  /** Every node a search can meet. */
  ghost function Nodes(g: Graph): set<Id> {
    g.adjacency.Keys + set n, c | n in g.adjacency && c in g.adjacency[n] :: c
  }

  lemma NextIsNode(g: Graph, n: Id, c: Id)
    requires c in g.Next(n)
    ensures c in Nodes(g)
  {
  }

  lemma {:induction false} Closes(g: Graph, path: seq<Id>, i: nat)
    requires Walk(g, path) && Distinct(path) && i < |path| && path[i] in g.Next(Last(path))
    ensures SimpleCycle(g, path[i..]) && Last(path[i..]) == Last(path) && path[i..][0] == path[i]
  {
  }

  /** A closing edge's cycle, put among the reported ones. */
  lemma PutReports(g: Graph, found: seq<seq<Id>>, backs: set<(Id, Id)>, path: seq<Id>, i: nat)
    requires Reported(g, found, backs)
    requires Walk(g, path) && Distinct(path) && i < |path| && path[i] in g.Next(Last(path))
    ensures Reported(g, Put(found, Canonical(path[i..])), backs + {(Last(path), path[i])})
    ensures Barless(g) && BacksShown(found, backs) ==>
      BacksShown(Put(found, Canonical(path[i..])), backs + {(Last(path), path[i])})
  {
    hide Compare, Put, Join;
    var cycle := path[i..];
    Closes(g, path, i);
    var k := LeastBefore(cycle, |cycle|);
    var c := Canonical(cycle);
    RotateKeepsCycle(g, cycle, k);
    RotateKeepsLastEdge(cycle, k);
    LeadsCanonical(cycle);
    PutKeepsNames(found, c);
    PutHolds(found, c, c);
    forall d | d in Put(found, c)
      ensures SimpleCycle(g, d) && forall j :: 0 <= j < |d| ==> Compare(d[0], d[j]) <= 0
    {
      PutHolds(found, c, d);
    }
    if Barless(g) && BacksShown(found, backs) {
      PutShows(g, found, backs, c, Last(path), path[i]);
    }
  }

  lemma LeadsCanonical(c: seq<Id>)
    requires c != []
    ensures forall j :: 0 <= j < |c| ==> Compare(Canonical(c)[0], Canonical(c)[j]) <= 0
  {
    hide Compare;
    var m, r := LeastBefore(c, |c|), Canonical(c);
    forall j | 0 <= j < |c| ensures Compare(r[0], r[j]) <= 0 {
      assert r[0] == c[m] && r[j] == c[if j < |c| - m then j + m else j - (|c| - m)];
    }
  }

  lemma CycleBarless(g: Graph, c: seq<Id>)
    requires Barless(g) && SimpleCycle(g, c)
    ensures NoBar(c)
  {
    forall i | 0 <= i < |c| ensures BAR !in c[i] {
      assert c[i] in g.Next(if i == 0 then Last(c) else c[i - 1]);
    }
  }

  lemma PutShows(g: Graph, found: seq<seq<Id>>, backs: set<(Id, Id)>, c: seq<Id>, a: Id, b: Id)
    requires Barless(g) && BacksShown(found, backs) && Reported(g, found, backs)
    requires SimpleCycle(g, c) && Uses(c, a, b)
    ensures BacksShown(Put(found, c), backs + {(a, b)})
  {
    hide Compare, Put, Join, Uses, NamesDiffer;
    PutHolds(found, c, c);
    forall x, y | (x, y) in backs + {(a, b)} ensures exists d :: d in Put(found, c) && Uses(d, x, y) {
      if (x, y) in backs {
        var d :| d in found && Uses(d, x, y);
        PutHolds(found, c, d);
        if Join(d) == Join(c) {
          CycleBarless(g, c);
          CycleBarless(g, d);
          JoinTellsApart(c, d);
        }
        assert d in Put(found, c);
      } else {
        assert Uses(c, x, y);
      }
    }
  }

  /** What holds at each turn of the search: the stack is the path, or the path and one node more. */
  ghost predicate Searching(g: Graph, stack: seq<Id>, path: seq<Id>, onPath: set<Id>, iterators: map<Id, seq<Id>>,
                            order: seq<Id>, backs: set<(Id, Id)>)
  {
    && (path == stack || (stack != [] && path == Init(stack)))
    && Walk(g, stack) && Distinct(stack)
    && (forall n :: n in onPath <==> n in path)
    && (forall n :: n in stack ==> n !in order)
    && (forall i :: 0 <= i < |path| ==> path[i] in iterators && Taken(g, stack, order, backs, i, iterators[path[i]]))
    && (forall i, c :: 0 <= i < |path| && c in iterators[path[i]] ==> c in g.Next(path[i]))
  }

  lemma Enters(g: Graph, stack: seq<Id>, path: seq<Id>, onPath: set<Id>, iterators: map<Id, seq<Id>>, order: seq<Id>,
      backs: set<(Id, Id)>, pending: seq<Id>)
    requires Searching(g, stack, path, onPath, iterators, order, backs) && stack != [] && Last(stack) !in onPath
    requires forall c :: c in pending <==> c in g.Next(Last(stack))
    ensures path + [Last(stack)] == stack
    ensures Searching(g, stack, stack, onPath + {Last(stack)}, iterators[Last(stack) := pending], order, backs)
  {
    var node := Last(stack);
    assert path == Init(stack) by {
      assert path == stack ==> node in path;
    }
    assert stack == path + [node];
    var its := iterators[node := pending];
    forall i | 0 <= i < |stack|
      ensures stack[i] in its && Taken(g, stack, order, backs, i, its[stack[i]]) && forall c :: c in its[stack[i]] ==>
        c in g.Next(stack[i])
    {
      if i < |path| {
        assert stack[i] == path[i] && path[i] in iterators;
      }
    }
  }

  lemma Leaves(g: Graph, stack: seq<Id>, onPath: set<Id>, iterators: map<Id, seq<Id>>, order: seq<Id>,
      backs: set<(Id, Id)>)
    requires Searching(g, stack, stack, onPath, iterators, order, backs) && stack != [] && iterators[Last(stack)] == []
    requires Left(g, order, backs)
    ensures Searching(g, Init(stack), Init(stack), onPath - {Last(stack)}, iterators, order + [Last(stack)], backs)
    ensures Left(g, order + [Last(stack)], backs)
  {
    var node, left := Last(stack), order + [Last(stack)];
    var shorter := Init(stack);
    forall i | 0 <= i < |shorter|
      ensures shorter[i] in iterators && Taken(g, shorter, left, backs, i, iterators[shorter[i]])
    {
      assert shorter[i] == stack[i];
    }
    forall i, c | 0 <= i < |left| && c in g.Next(left[i]) ensures c in left[..i] || (left[i], c) in backs {
      if i < |order| {
        assert left[..i] == order[..i] && left[i] == order[i];
      } else {
        assert left[..i] == order;
        assert Taken(g, stack, order, backs, |stack| - 1, iterators[stack[|stack| - 1]]);
      }
    }
  }

  /** Taking one successor from the pending ones of the path's last node touches no other node's. */
  lemma TakesOne(g: Graph, stack: seq<Id>, iterators: map<Id, seq<Id>>) returns (next: Id, its: map<Id, seq<Id>>)
    requires stack != [] && Distinct(stack) && (forall i :: 0 <= i < |stack| ==> stack[i] in iterators)
    requires iterators[Last(stack)] != []
    requires forall c :: c in iterators[Last(stack)] ==> c in g.Next(Last(stack))
    ensures next == iterators[Last(stack)][0] && its == iterators[Last(stack) := iterators[Last(stack)][1..]]
    ensures next in g.Next(Last(stack)) && forall c :: c in iterators[Last(stack)] <==>
      c == next || c in its[Last(stack)]
    ensures forall i :: 0 <= i < |stack| ==>
      stack[i] in its && (i < |stack| - 1 ==> its[stack[i]] == iterators[stack[i]])
  {
    var node := Last(stack);
    var pending := iterators[node];
    next, its := pending[0], iterators[node := pending[1..]];
    assert pending == [next] + pending[1..];
    assert stack[|stack| - 1] == node;
  }

  lemma SearchingUnpacks(g: Graph, stack: seq<Id>, onPath: set<Id>, iterators: map<Id, seq<Id>>, order: seq<Id>,
      backs: set<(Id, Id)>)
    requires Searching(g, stack, stack, onPath, iterators, order, backs) && stack != []
    ensures Distinct(stack) && (forall i :: 0 <= i < |stack| ==> stack[i] in iterators)
    ensures forall c :: c in iterators[Last(stack)] ==> c in g.Next(Last(stack))
  {
    assert stack[|stack| - 1] == Last(stack);
  }

  /** A successor left behind already is passed over, and so is one on the path, as its edge closes a cycle. */
  lemma PassesOver(g: Graph, stack: seq<Id>, onPath: set<Id>, iterators: map<Id, seq<Id>>, order: seq<Id>,
      backs: set<(Id, Id)>,
                   next: Id, its: map<Id, seq<Id>>, more: set<(Id, Id)>)
    requires Searching(g, stack, stack, onPath, iterators, order, backs) && stack != [] && Last(stack) in iterators
    requires Last(stack) in its
    requires forall c :: c in iterators[Last(stack)] <==> c == next || c in its[Last(stack)]
    requires forall i :: 0 <= i < |stack| ==>
      stack[i] in its && (i < |stack| - 1 ==> its[stack[i]] == iterators[stack[i]])
    requires backs <= more && (next in order || (Last(stack), next) in more)
    ensures Searching(g, stack, stack, onPath, its, order, more)
  {
    hide Distinct, Walk;
    forall i | 0 <= i < |stack| ensures Taken(g, stack, order, more, i, its[stack[i]]) {
      assert Taken(g, stack, order, backs, i, iterators[stack[i]]);
    }
  }

  lemma Pushes(g: Graph, stack: seq<Id>, onPath: set<Id>, iterators: map<Id, seq<Id>>, order: seq<Id>,
      backs: set<(Id, Id)>,
               next: Id, its: map<Id, seq<Id>>)
    requires Searching(g, stack, stack, onPath, iterators, order, backs) && stack != [] && Last(stack) in iterators
    requires Last(stack) in its
    requires forall c :: c in iterators[Last(stack)] <==> c == next || c in its[Last(stack)]
    requires forall i :: 0 <= i < |stack| ==>
      stack[i] in its && (i < |stack| - 1 ==> its[stack[i]] == iterators[stack[i]])
    requires next in g.Next(Last(stack)) && next !in order && next !in onPath
    ensures Searching(g, stack + [next], stack, onPath, its, order, backs)
  {
    hide Walk, Distinct;
    var longer := stack + [next];
    Snoc(stack, next);
    Lengthens(g, stack, next);
    forall i | 0 <= i < |stack| ensures Taken(g, longer, order, backs, i, its[stack[i]]) {
      assert Taken(g, stack, order, backs, i, iterators[stack[i]]);
    }
  }

  lemma Lengthens(g: Graph, stack: seq<Id>, next: Id)
    requires stack != [] && Walk(g, stack) && Distinct(stack) && next in g.Next(Last(stack)) && next !in stack
    ensures Walk(g, stack + [next]) && Distinct(stack + [next])
  {
  }

  lemma PendingIsNext(g: Graph, n: Id)
    ensures forall c :: c in SortBy(Compare, g.Next(n)) <==> c in g.Next(n)
  {
    hide SortBy;
    SortKeeps(Compare, g.Next(n));
    forall c ensures c in SortBy(Compare, g.Next(n)) <==> c in g.Next(n) {
      SameElements(SortBy(Compare, g.Next(n)), g.Next(n), c);
    }
  }

  /** What holds of the nodes left behind and the cycles reported so far. */
  ghost predicate Sound(g: Graph, visited: set<Id>, found: seq<seq<Id>>, order: seq<Id>, backs: set<(Id, Id)>) {
    && (forall n :: n in visited <==> n in order)
    && Left(g, order, backs) && Reported(g, found, backs) && (Barless(g) ==> BacksShown(found, backs))
  }

  lemma LeavesSound(g: Graph, visited: set<Id>, found: seq<seq<Id>>, stack: seq<Id>, onPath: set<Id>,
      iterators: map<Id, seq<Id>>, order: seq<Id>, backs: set<(Id, Id)>)
    requires Searching(g, stack, stack, onPath, iterators, order, backs) && stack != []
    requires Last(stack) in iterators && iterators[Last(stack)] == [] && Sound(g, visited, found, order, backs)
    ensures Searching(g, Init(stack), Init(stack), onPath - {Last(stack)}, iterators, order + [Last(stack)], backs)
    ensures Sound(g, visited + {Last(stack)}, found, order + [Last(stack)], backs) && Last(stack) !in visited
  {
    hide Left, Reported, BacksShown, Barless;
    Leaves(g, stack, onPath, iterators, order, backs);
    SearchingIs(g, stack, stack, onPath, iterators, order, backs);
  }

  lemma ClosesSound(g: Graph, visited: set<Id>, found: seq<seq<Id>>, path: seq<Id>, i: nat, order: seq<Id>,
      backs: set<(Id, Id)>)
    requires Sound(g, visited, found, order, backs)
    requires Walk(g, path) && Distinct(path) && i < |path| && path[i] in g.Next(Last(path))
    ensures Sound(g, visited, Put(found, Canonical(path[i..])), order, backs + {(Last(path), path[i])})
  {
    hide Reported, BacksShown, Barless, Put, Canonical, Walk, Distinct;
    PutReports(g, found, backs, path, i);
  }

  lemma SoundIs(g: Graph, visited: set<Id>, found: seq<seq<Id>>, order: seq<Id>, backs: set<(Id, Id)>)
    requires Sound(g, visited, found, order, backs)
    ensures forall n :: n in visited <==> n in order
  {
  }

  /** Where `next` first stands on the path. */
  function IndexOf(path: seq<Id>, next: Id): (i: nat)
    requires next in path
    ensures i < |path| && path[i] == next
  {
    if path[0] == next then 0 else 1 + IndexOf(path[1..], next)
  }

  // ------------------------------------------------------------- the search as a recursion

  datatype Seen = Seen(visited: set<Id>, found: seq<seq<Id>>)

  /** The rest of the successors of the path's last node gone through, in the order of the graph's own lists. */
  ghost function Visit(g: Graph, path: seq<Id>, rest: seq<Id>, s: Seen): Seen
    requires path != [] && InNodes(g, rest)
    decreases Nodes(g) - (set n | n in path), |rest|
  {
    if rest == [] then s.(visited := s.visited + {Last(path)})
    else if rest[0] in path then
      Visit(g, path, rest[1..], s.(found := Put(s.found, Canonical(path[IndexOf(path, rest[0])..]))))
    else if rest[0] in s.visited then Visit(g, path, rest[1..], s)
    else
      NextAreNodes(g, rest[0]);
      MoreNodes(g, path, rest[0]);
      Visit(g, path, rest[1..], Visit(g, path + [rest[0]], g.Next(rest[0]), s))
  }

  ghost function VisitAll(g: Graph, starts: seq<Id>, s: Seen): Seen {
    if starts == [] then s
    else
      NextAreNodes(g, starts[0]);
      VisitAll(g, starts[1..], if starts[0] in s.visited then s else Visit(g, [starts[0]], g.Next(starts[0]), s))
  }

  /** The cycles a search in the graph's own order finds, by name. */
  ghost function CyclesInOrder(g: Graph): seq<seq<Id>> {
    SortBy(ByName, VisitAll(g, g.keys, Seen({}, [])).found)
  }

  function Arranged(g: Graph): Graph {
    Graph(SortBy(Compare, g.keys), map n | n in g.adjacency :: SortBy(Compare, g.adjacency[n]))
  }

  /** Ids and successors ascend. */
  ghost predicate Rises(g: Graph) {
    Ascending(Compare, g.keys) && forall n :: Ascending(Compare, g.Next(n))
  }

  /** The same ids with the same successors, each in any order. */
  ghost predicate SameGraph(g: Graph, h: Graph) {
    multiset(g.keys) == multiset(h.keys) && forall n :: multiset(g.Next(n)) == multiset(h.Next(n))
  }

  lemma NextAreNodes(g: Graph, n: Id)
    ensures InNodes(g, g.Next(n))
  {
  }

  lemma MoreNodes(g: Graph, path: seq<Id>, n: Id)
    requires n in Nodes(g) && n !in path
    ensures Nodes(g) - (set x | x in path) > Nodes(g) - (set x | x in path + [n])
  {
    var before, after := Nodes(g) - (set x | x in path), Nodes(g) - (set x | x in path + [n]);
    assert n in path + [n] && n in before && n !in after;
    forall x | x in after ensures x in before {
      assert x in path ==> x in path + [n];
    }
  }

  lemma ArrangedNext(g: Graph, n: Id)
    ensures Arranged(g).Next(n) == SortBy(Compare, g.Next(n)) && InNodes(Arranged(g), SortBy(Compare, g.Next(n)))
  {
    hide SortBy;
    assert SortBy(Compare, []) == [] by { SortKeeps<Id>(Compare, []); }
  }

  lemma OneArrangement(s: seq<Id>, t: seq<Id>)
    requires Ascending(Compare, s) && Ascending(Compare, t) && multiset(s) == multiset(t)
    ensures s == t
  {
    hide Compare;
    CompareOrders();
    forall a, b | Compare(a, b) <= 0 && Compare(b, a) <= 0 ensures a == b {
      CompareFlips(a, b);
      CompareSame(a, b);
    }
    AscendingUnique(Compare, s, t);
  }

  lemma SortArranges(s: seq<Id>, t: seq<Id>)
    requires Ascending(Compare, t) && multiset(s) == multiset(t)
    ensures SortBy(Compare, s) == t
  {
    hide Compare, SortBy;
    CompareOrders();
    SortKeeps(Compare, s);
    SortAscending(Compare, s);
    OneArrangement(SortBy(Compare, s), t);
  }

  lemma {:induction false} VisitSame(g: Graph, h: Graph, path: seq<Id>, rest: seq<Id>, s: Seen)
    requires path != [] && InNodes(g, rest) && InNodes(h, rest) && forall n :: g.Next(n) == h.Next(n)
    ensures Visit(g, path, rest, s) == Visit(h, path, rest, s)
    decreases Nodes(g) - (set n | n in path), |rest|
  {
    hide Put, Canonical, IndexOf, Nodes;
    if rest == [] {
    } else if rest[0] in path {
      VisitSame(g, h, path, rest[1..], s.(found := Put(s.found, Canonical(path[IndexOf(path, rest[0])..]))));
    } else if rest[0] in s.visited {
      VisitSame(g, h, path, rest[1..], s);
    } else {
      NextAreNodes(g, rest[0]);
      NextAreNodes(h, rest[0]);
      MoreNodes(g, path, rest[0]);
      VisitSame(g, h, path + [rest[0]], g.Next(rest[0]), s);
      VisitSame(g, h, path, rest[1..], Visit(g, path + [rest[0]], g.Next(rest[0]), s));
    }
  }

  lemma {:induction false} VisitAllSame(g: Graph, h: Graph, starts: seq<Id>, s: Seen)
    requires forall n :: g.Next(n) == h.Next(n)
    ensures VisitAll(g, starts, s) == VisitAll(h, starts, s)
  {
    hide Visit, Nodes;
    if starts != [] {
      NextAreNodes(g, starts[0]);
      NextAreNodes(h, starts[0]);
      VisitSame(g, h, [starts[0]], g.Next(starts[0]), s);
      VisitAllSame(g, h, starts[1..],
        if starts[0] in s.visited then s else Visit(g, [starts[0]], g.Next(starts[0]), s));
    }
  }

  /** What is found is the graph's alone: what a search finds in the one arrangement of it that ascends. */
  lemma FoundInOrder(g: Graph, a: Graph)
    requires SameGraph(g, a) && Rises(a)
    ensures CyclesInOrder(Arranged(g)) == CyclesInOrder(a)
  {
    hide SortBy, VisitAll, Compare;
    SortArranges(g.keys, a.keys);
    forall n ensures Arranged(g).Next(n) == a.Next(n) {
      ArrangedNext(g, n);
      SortArranges(g.Next(n), a.Next(n));
    }
    VisitAllSame(Arranged(g), a, a.keys, Seen({}, []));
  }

  /** Neither the order the ids were met in nor that of their successors makes a difference. */
  lemma OrderIsNothing(g: Graph, h: Graph)
    requires SameGraph(g, h)
    ensures CyclesInOrder(Arranged(g)) == CyclesInOrder(Arranged(h))
  {
    hide SortBy, VisitAll, Compare;
    CompareOrders();
    SortKeeps(Compare, h.keys);
    SortAscending(Compare, h.keys);
    forall n ensures Ascending(Compare, Arranged(h).Next(n)) && multiset(Arranged(h).Next(n)) == multiset(h.Next(n)) {
      ArrangedNext(h, n);
      SortKeeps(Compare, h.Next(n));
      SortAscending(Compare, h.Next(n));
    }
    FoundInOrder(g, Arranged(h));
  }

  // ------------------------------------------------------- the stack does what the recursion does

  /** Each node of the path has its pending successors. */
  ghost predicate Holds(g: Graph, path: seq<Id>, iterators: map<Id, seq<Id>>) {
    forall n :: n in path ==> n in iterators && InNodes(g, iterators[n])
  }

  /** What is left to do on the path, from its last node back to its first. */
  ghost function Unwind(g: Graph, path: seq<Id>, iterators: map<Id, seq<Id>>, s: Seen): Seen
    requires Holds(g, path, iterators)
    decreases |path|
  {
    if path == [] then s
    else
      HoldsBefore(g, path, iterators);
      Unwind(g, Init(path), iterators, Visit(g, path, iterators[Last(path)], s))
  }

  lemma HoldsBefore(g: Graph, path: seq<Id>, iterators: map<Id, seq<Id>>)
    requires path != [] && Holds(g, path, iterators)
    ensures Holds(g, Init(path), iterators) && InNodes(g, iterators[Last(path)])
  {
    hide InNodes;
  }

  lemma {:induction false} UnwindSame(g: Graph, path: seq<Id>, its: map<Id, seq<Id>>, its': map<Id, seq<Id>>, s: Seen)
    requires Holds(g, path, its) && forall n :: n in path ==> n in its' && its'[n] == its[n]
    ensures Holds(g, path, its') && Unwind(g, path, its, s) == Unwind(g, path, its', s)
    decreases |path|
  {
    hide Visit, InNodes;
    if path != [] {
      HoldsBefore(g, path, its);
      UnwindSame(g, Init(path), its, its', Visit(g, path, its[Last(path)], s));
    }
  }

  /** The last node's successors replaced, with what is seen by then. */
  lemma UnwindLast(g: Graph, path: seq<Id>, its: map<Id, seq<Id>>, s: Seen, rest: seq<Id>, s': Seen)
    requires path != [] && Distinct(path) && Holds(g, path, its) && InNodes(g, rest)
    requires Visit(g, path, its[Last(path)], s) == Visit(g, path, rest, s')
    ensures Holds(g, path, its[Last(path) := rest])
    ensures Unwind(g, path, its, s) == Unwind(g, path, its[Last(path) := rest], s')
  {
    hide Visit, InNodes;
    var its' := its[Last(path) := rest];
    HoldsBefore(g, path, its);
    forall n | n in Init(path) ensures n in its' && its'[n] == its[n] {
      var i :| 0 <= i < |path| - 1 && path[i] == n;
    }
    UnwindSame(g, Init(path), its, its', Visit(g, path, its[Last(path)], s));
  }

  lemma UnwindNext(g: Graph, path: seq<Id>, its: map<Id, seq<Id>>, s: Seen, next: Id)
    requires path != [] && Distinct(path) && Holds(g, path, its) && its[Last(path)] != []
    requires its[Last(path)][0] == next && next !in path && next !in s.visited
    ensures var its' := its[Last(path) := its[Last(path)][1..]][next := g.Next(next)];
      Holds(g, path + [next], its') && Unwind(g, path, its, s) == Unwind(g, path + [next], its', s)
  {
    hide InNodes, Distinct;
    var rest := its[Last(path)][1..];
    var taken := its[Last(path) := rest];
    var its' := taken[next := g.Next(next)];
    NextAreNodes(g, next);
    RestInNodes(g, its[Last(path)]);
    var s' := Visit(g, path + [next], g.Next(next), s);
    VisitNext(g, path, its[Last(path)], s);
    UnwindLast(g, path, its, s, rest, s');
    UnwindSame(g, path, taken, its', s');
    Snoc(path, next);
  }

  lemma RestInNodes(g: Graph, rest: seq<Id>)
    requires rest != [] && InNodes(g, rest)
    ensures InNodes(g, rest[1..]) && rest[0] in Nodes(g)
  {
    hide Nodes;
    assert rest[0] in rest;
  }

  lemma VisitNext(g: Graph, path: seq<Id>, rest: seq<Id>, s: Seen)
    requires path != [] && rest != [] && InNodes(g, rest) && rest[0] !in path && rest[0] !in s.visited
    ensures InNodes(g, rest[1..]) && InNodes(g, g.Next(rest[0]))
    ensures Visit(g, path, rest, s) == Visit(g, path, rest[1..], Visit(g, path + [rest[0]], g.Next(rest[0]), s))
  {
    hide Nodes;
    RestInNodes(g, rest);
    NextAreNodes(g, rest[0]);
  }

  /** Each of the other turns: a node left behind, an edge that closes a cycle, a node passed over. */
  lemma UnwindLeaves(g: Graph, path: seq<Id>, its: map<Id, seq<Id>>, s: Seen)
    requires path != [] && Holds(g, path, its) && its[Last(path)] == []
    ensures Holds(g, Init(path), its)
    ensures Unwind(g, path, its, s) == Unwind(g, Init(path), its, s.(visited := s.visited + {Last(path)}))
  {
    hide InNodes;
    HoldsBefore(g, path, its);
  }

  lemma UnwindCloses(g: Graph, path: seq<Id>, its: map<Id, seq<Id>>, s: Seen)
    requires path != [] && Distinct(path) && Holds(g, path, its) && its[Last(path)] != []
    requires its[Last(path)][0] in path
    ensures Holds(g, path, its[Last(path) := its[Last(path)][1..]])
    ensures var found := Put(s.found, Canonical(path[IndexOf(path, its[Last(path)][0])..]));
      Unwind(g, path, its, s) == Unwind(g, path, its[Last(path) := its[Last(path)][1..]], s.(found := found))
  {
    hide InNodes, Distinct, Put, Canonical, IndexOf;
    RestInNodes(g, its[Last(path)]);
    var found := Put(s.found, Canonical(path[IndexOf(path, its[Last(path)][0])..]));
    UnwindLast(g, path, its, s, its[Last(path)][1..], s.(found := found));
  }

  lemma UnwindPasses(g: Graph, path: seq<Id>, its: map<Id, seq<Id>>, s: Seen)
    requires path != [] && Distinct(path) && Holds(g, path, its) && its[Last(path)] != []
    requires its[Last(path)][0] !in path && its[Last(path)][0] in s.visited
    ensures Holds(g, path, its[Last(path) := its[Last(path)][1..]])
    ensures Unwind(g, path, its, s) == Unwind(g, path, its[Last(path) := its[Last(path)][1..]], s)
  {
    hide InNodes, Distinct;
    RestInNodes(g, its[Last(path)]);
    UnwindLast(g, path, its, s, its[Last(path)][1..], s);
  }

  /** The stack as the recursion sees it: a node not yet entered has all its successors before it. */
  ghost function Pended(g: Graph, stack: seq<Id>, path: seq<Id>, iterators: map<Id, seq<Id>>): map<Id, seq<Id>> {
    if path == stack || stack == [] then iterators else iterators[Last(stack) := g.Next(Last(stack))]
  }

  /** What is left to do comes to `goal`. */
  ghost predicate Leads(g: Graph, stack: seq<Id>, path: seq<Id>, iterators: map<Id, seq<Id>>, s: Seen, goal: Seen) {
    var its := Pended(g, stack, path, iterators);
    Holds(g, stack, its) && Unwind(g, stack, its, s) == goal
  }

  lemma LeadsFrom(g: Graph, start: Id, s: Seen)
    ensures InNodes(g, g.Next(start))
    ensures Leads(g, [start], [], map[], s, Visit(g, [start], g.Next(start), s))
  {
    hide Visit, Nodes;
    NextAreNodes(g, start);
    var its := map[start := g.Next(start)];
    var done := Visit(g, [start], g.Next(start), s);
    assert Init([start]) == [] && Last([start]) == start;
    assert Pended(g, [start], [], map[]) == its && Holds(g, [start], its);
    assert Unwind(g, [], its, done) == done;
  }

  lemma LeadsEntered(g: Graph, stack: seq<Id>, path: seq<Id>, iterators: map<Id, seq<Id>>, s: Seen, goal: Seen)
    requires Leads(g, stack, path, iterators, s, goal) && stack != [] && path != stack
    ensures Leads(g, stack, stack, iterators[Last(stack) := g.Next(Last(stack))], s, goal)
  {
    hide Unwind, Holds;
  }

  lemma LeadsOut(g: Graph, stack: seq<Id>, iterators: map<Id, seq<Id>>, s: Seen, goal: Seen)
    requires Leads(g, stack, stack, iterators, s, goal) && stack != []
    requires Last(stack) in iterators && iterators[Last(stack)] == []
    ensures Leads(g, Init(stack), Init(stack), iterators, s.(visited := s.visited + {Last(stack)}), goal)
  {
    hide Unwind, Holds;
    UnwindLeaves(g, stack, iterators, s);
  }

  /** One successor taken up: its edge closes a cycle, it was left behind before, or it is next on the stack. */
  lemma LeadsOn(g: Graph, stack: seq<Id>, iterators: map<Id, seq<Id>>, s: Seen, goal: Seen, next: Id)
    requires Leads(g, stack, stack, iterators, s, goal) && stack != [] && Distinct(stack)
    requires Last(stack) in iterators && iterators[Last(stack)] != [] && iterators[Last(stack)][0] == next
    ensures var its := iterators[Last(stack) := iterators[Last(stack)][1..]];
      && (next in stack ==>
           var found := Put(s.found, Canonical(stack[IndexOf(stack, next)..]));
           Leads(g, stack, stack, its, s.(found := found), goal))
      && (next !in stack && next in s.visited ==> Leads(g, stack, stack, its, s, goal))
      && (next !in stack && next !in s.visited ==> Leads(g, stack + [next], stack, its, s, goal))
  {
    hide Unwind, Holds, Put, Canonical, IndexOf, Distinct;
    if next in stack {
      UnwindCloses(g, stack, iterators, s);
    } else if next in s.visited {
      UnwindPasses(g, stack, iterators, s);
    } else {
      UnwindNext(g, stack, iterators, s, next);
      Snoc(stack, next);
    }
  }

  /** One tree of the search: everything not yet visited that `start` leads to, as the recursion visits it. */
  method Explore(g: Graph, start: Id, seen: set<Id>, known: seq<seq<Id>>, ghost was: seq<Id>,
      ghost edges: set<(Id, Id)>)
    returns (visited: set<Id>, found: seq<seq<Id>>, ghost order: seq<Id>, ghost backs: set<(Id, Id)>)
    requires start in Nodes(g) && start !in seen && Sound(g, seen, known, was, edges)
    ensures seen <= visited && start in visited && Sound(g, visited, found, order, backs)
    ensures var a := Arranged(g);
      InNodes(a, a.Next(start)) && Seen(visited, found) == Visit(a, [start], a.Next(start), Seen(seen, known))
  {
    hide Sound, Searching, SortBy, Put, Nodes, Walk, Distinct, Canonical, Leads, Arranged, InNodes, Visit, IndexOf;
    visited, found, order, backs := seen, known, was, edges;
    var path: seq<Id> := [];
    var onPath: set<Id> := {};
    var iterators: map<Id, seq<Id>> := map[];
    var stack := [start];
    SoundIs(g, seen, known, was, edges);
    Starts(g, start, order, backs);
    ghost var a := Arranged(g);
    LeadsFrom(a, start, Seen(seen, known));
    ghost var goal := Visit(a, [start], a.Next(start), Seen(seen, known));
    NoneIn(g, start);
    while stack != []
      invariant Searching(g, stack, path, onPath, iterators, order, backs) && Sound(g, visited, found, order, backs)
      invariant InNodes(g, stack) && seen <= visited && (start in visited || (stack != [] && stack[0] == start))
      invariant Leads(a, stack, path, iterators, Seen(visited, found), goal)
      decreases Nodes(g) - visited, Nodes(g) - onPath, Pending(path, iterators)
    {
      SearchingIs(g, stack, path, onPath, iterators, order, backs);
      SoundIs(g, visited, found, order, backs);
      LastIn(g, stack);
      var node := Last(stack);
      if node !in onPath {
        var pending := SortBy(Compare, g.Next(node));
        PendingIsNext(g, node);
        ArrangedNext(g, node);
        LeadsEntered(a, stack, path, iterators, Seen(visited, found), goal);
        Enters(g, stack, path, onPath, iterators, order, backs, pending);
        onPath := onPath + {node};
        path := path + [node];
        iterators := iterators[node := pending];
        SearchingIs(g, stack, path, onPath, iterators, order, backs);
      }
      if iterators[node] == [] {
        LeavesSound(g, visited, found, stack, onPath, iterators, order, backs);
        LeadsOut(a, stack, iterators, Seen(visited, found), goal);
        stack, path := Init(stack), Init(path);
        onPath := onPath - {node};
        visited := visited + {node};
        order := order + [node];
      } else {
        SearchingUnpacks(g, stack, onPath, iterators, order, backs);
        ghost var n, its := TakesOne(g, stack, iterators);
        ghost var before := iterators;
        var next := iterators[node][0];
        LeadsOn(a, stack, iterators, Seen(visited, found), goal, next);
        iterators := iterators[node := iterators[node][1..]];
        if next in onPath {
          var fromIndex := IndexOf(path, next);
          var canonical := CanonicalizeCycle(path[fromIndex..]);
          ClosesSound(g, visited, found, path, fromIndex, order, backs);
          found := Put(found, canonical);
          PassesOver(g, stack, onPath, before, order, backs, next, its, backs + {(node, next)});
          backs := backs + {(node, next)};
        } else if next in visited {
          PassesOver(g, stack, onPath, before, order, backs, next, its, backs);
        } else {
          NextIsNode(g, node, next);
          Pushes(g, stack, onPath, before, order, backs, next, its);
          OneMoreIn(g, stack, next);
          stack := stack + [next];
        }
      }
    }
    LeadsNowhere(a, path, iterators, Seen(visited, found), goal);
  }

  lemma LeadsNowhere(g: Graph, path: seq<Id>, iterators: map<Id, seq<Id>>, s: Seen, goal: Seen)
    requires Leads(g, [], path, iterators, s, goal)
    ensures s == goal
  {
  }

  lemma NoneIn(g: Graph, start: Id)
    requires start in Nodes(g)
    ensures InNodes(g, [start])
  {
  }

  lemma LastIn(g: Graph, stack: seq<Id>)
    requires InNodes(g, stack) && stack != []
    ensures Last(stack) in Nodes(g) && InNodes(g, Init(stack))
  {
    hide Nodes;
  }

  lemma OneMoreIn(g: Graph, stack: seq<Id>, next: Id)
    requires InNodes(g, stack) && next in Nodes(g)
    ensures InNodes(g, stack + [next])
  {
    hide Nodes;
  }

  ghost predicate InNodes(g: Graph, stack: seq<Id>) {
    forall n :: n in stack ==> n in Nodes(g)
  }

  function Pending(path: seq<Id>, iterators: map<Id, seq<Id>>): nat {
    if path != [] && Last(path) in iterators then |iterators[Last(path)]| else 0
  }

  lemma Starts(g: Graph, start: Id, order: seq<Id>, backs: set<(Id, Id)>)
    requires start !in order
    ensures Searching(g, [start], [], {}, map[], order, backs)
  {
    assert Init([start]) == [];
  }

  lemma SearchingIs(g: Graph, stack: seq<Id>, path: seq<Id>, onPath: set<Id>, iterators: map<Id, seq<Id>>,
      order: seq<Id>, backs: set<(Id, Id)>)
    requires Searching(g, stack, path, onPath, iterators, order, backs) && stack != []
    ensures Last(stack) !in order && (forall n :: n in onPath <==> n in path) && Walk(g, path) && Distinct(path)
    ensures Last(stack) in onPath ==> path == stack && Last(stack) in iterators
  {
    var last := |stack| - 1;
    forall i | 0 <= i < last ensures stack[i] != stack[last] {
    }
    assert path == Init(stack) ==> Last(stack) !in path;
    assert path == stack ==> path[last] in iterators;
  }

  // ------------------------------------------------------------------- what it finds

  /**
   * Following edges that closed no cycle leads to nodes left earlier and earlier, so a closed walk has one that did.
   */
  lemma {:induction false} WalkUsesBack(g: Graph, order: seq<Id>, backs: set<(Id, Id)>, c: seq<Id>, i: nat, k: nat)
    returns (j: nat)
    requires Left(g, order, backs) && ClosedWalk(g, c) && i < |c| && k <= |order| && c[i] in order[..k]
    ensures j < |c| && (c[j], c[(j + 1) % |c|]) in backs
    decreases k
  {
    var p :| 0 <= p < k && order[..k][p] == c[i];
    var next := (i + 1) % |c|;
    NextOnWalk(g, c, i);
    assert order[p] == c[i];
    if (c[i], c[next]) in backs {
      j := i;
    } else {
      j := WalkUsesBack(g, order, backs, c, next, p);
    }
  }

  lemma NextOnWalk(g: Graph, c: seq<Id>, i: nat)
    requires ClosedWalk(g, c) && i < |c|
    ensures c[(i + 1) % |c|] in g.Next(c[i])
  {
    if i == |c| - 1 {
      assert (i + 1) % |c| == 0;
    } else {
      assert (i + 1) % |c| == i + 1;
    }
  }

  lemma AroundIsUsed(c: seq<Id>, j: nat)
    requires j < |c|
    ensures Uses(c, c[j], c[(j + 1) % |c|])
  {
    if j == |c| - 1 {
      assert (j + 1) % |c| == 0;
    } else {
      assert (j + 1) % |c| == j + 1;
    }
  }

  /**
   * The search as a whole: every key started from, what it reports sorted by name. It is what the recursion finds in
   * the graph arranged to ascend.
   */
  method FindCycles(g: Graph) returns (r: seq<seq<Id>>)
    requires g.Valid()
    ensures r == CyclesInOrder(Arranged(g))
    ensures forall c :: c in r ==> SimpleCycle(g, c) && forall i :: 0 <= i < |c| ==> Compare(c[0], c[i]) <= 0
    ensures r != [] <==> exists c :: ClosedWalk(g, c)
    ensures Ascending(ByName, r) && NamesDiffer(r)
    ensures Barless(g) ==> forall c :: ClosedWalk(g, c) ==> exists a, b, d :: Uses(c, a, b) && d in r && Uses(d, a, b)
  {
    hide Sound, Barless, SortBy, Nodes, ClosedWalk, SimpleCycle, Ascending, NamesDiffer, Uses, Visit, InNodes, VisitAll;
    var nodes := SortBy(Compare, g.keys);
    SortKeeps(Compare, g.keys);
    var visited: set<Id> := {};
    var found: seq<seq<Id>> := [];
    ghost var order: seq<Id> := [];
    ghost var backs: set<(Id, Id)> := {};
    ghost var a := Arranged(g);
    NothingYet(g);
    for k := 0 to |nodes|
      invariant forall n :: n in nodes[..k] ==> n in visited
      invariant Sound(g, visited, found, order, backs)
      invariant VisitAll(a, nodes[k..], Seen(visited, found)) == VisitAll(a, nodes, Seen({}, []))
    {
      var start := nodes[k];
      SameElements(nodes, g.keys, start);
      KeyIsNode(g, start);
      VisitFirst(a, nodes[k..], Seen(visited, found));
      assert nodes[k..][0] == start && nodes[k..][1..] == nodes[k + 1..];
      if start !in visited {
        visited, found, order, backs := Explore(g, start, visited, found, order, backs);
      }
      assert nodes[..k + 1] == nodes[..k] + [start];
    }
    assert nodes[..|nodes|] == nodes && nodes[|nodes|..] == [];
    VisitNone(a, Seen(visited, found));
    r := SortBy(ByName, found);
    forall n | n in g.keys ensures n in visited {
      SameElements(nodes, g.keys, n);
    }
    SortedReports(g, visited, found, order, backs, r);
    Complete(g, visited, order, backs, r);
  }

  lemma VisitFirst(g: Graph, starts: seq<Id>, s: Seen)
    requires starts != []
    ensures InNodes(g, g.Next(starts[0]))
    ensures VisitAll(g, starts, s) == VisitAll(g, starts[1..],
      if starts[0] in s.visited then s else Visit(g, [starts[0]], g.Next(starts[0]), s))
  {
    NextAreNodes(g, starts[0]);
  }

  lemma VisitNone(g: Graph, s: Seen)
    ensures VisitAll(g, [], s) == s
  {
  }

  lemma NothingYet(g: Graph)
    ensures Sound(g, {}, [], [], {})
  {
  }

  lemma KeyIsNode(g: Graph, n: Id)
    requires g.Valid() && n in g.keys
    ensures n in Nodes(g)
  {
  }

  lemma NamesOrder()
    ensures Ordering(ByName)
  {
    hide Compare, Join;
    CompareOrders();
  }

  lemma SortedReports(g: Graph, visited: set<Id>, found: seq<seq<Id>>, order: seq<Id>, backs: set<(Id, Id)>,
      r: seq<seq<Id>>)
    requires Sound(g, visited, found, order, backs) && r == SortBy(ByName, found)
    ensures Sound(g, visited, r, order, backs) && Ascending(ByName, r) && NamesDiffer(r)
    ensures forall c :: c in r ==> SimpleCycle(g, c) && forall i :: 0 <= i < |c| ==> Compare(c[0], c[i]) <= 0
  {
    hide Left, Barless, Join, Compare, SortBy, SimpleCycle, Uses;
    NamesOrder();
    SortKeeps(ByName, found);
    SortAscending(ByName, found);
    forall c ensures c in r <==> c in found {
      SameElements(r, found, c);
    }
    NamesStayApart(found, r);
  }

  lemma NamesStayApart(s: seq<seq<Id>>, t: seq<seq<Id>>)
    requires NamesDiffer(s) && multiset(t) == multiset(s)
    ensures NamesDiffer(t)
  {
    hide Join;
    forall i, j | 0 <= i < j < |t| ensures Join(t[i]) != Join(t[j]) {
      SameElements(s, t, t[i]);
      SameElements(s, t, t[j]);
      var a :| 0 <= a < |s| && s[a] == t[i];
      var b :| 0 <= b < |s| && s[b] == t[j];
      if a == b {
        AppearsTwice(t, i, j);
        AppearsOnce(s, a);
      }
    }
  }

  lemma Complete(g: Graph, visited: set<Id>, order: seq<Id>, backs: set<(Id, Id)>, r: seq<seq<Id>>)
    requires g.Valid() && Sound(g, visited, r, order, backs)
    requires forall n :: n in g.keys ==> n in visited
    ensures r != [] <==> exists c :: ClosedWalk(g, c)
    ensures Barless(g) ==> forall c :: ClosedWalk(g, c) ==> exists a, b, d :: Uses(c, a, b) && d in r && Uses(d, a, b)
  {
    hide Left, Barless, Uses, Compare, NamesDiffer, Join;
    forall c | ClosedWalk(g, c)
      ensures r != [] && (Barless(g) ==> exists a, b, d :: Uses(c, a, b) && d in r && Uses(d, a, b))
    {
      NextOnWalk(g, c, 0);
      assert c[0] in order[..|order|];
      var j := WalkUsesBack(g, order, backs, c, 0, |order|);
      AroundIsUsed(c, j);
      var a, b := c[j], c[(j + 1) % |c|];
      assert (a, b) in backs;
      if Barless(g) {
        var d :| d in r && Uses(d, a, b);
      }
    }
    if r != [] {
      assert SimpleCycle(g, r[0]);
    }
  }
}
