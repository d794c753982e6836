/** The category walk (`cmd/top-markets/main.go`, `internal/catalog/tags.go`): breadth first over
    related tags from a root, the first visit deciding a tag's parent. Catch-all tags are listed
    under the root and not expanded; the first program has none, the second has some. A graph maps a
    tag id to the ids of its related tags; fetching an id outside the graph fails. */
module TagTree {

  type Graph = map<string, seq<string>>

  /** What the walk is about: the graph, its root, and which ids are catch-alls. */
  datatype Site = Site(graph: Graph, root: string, catchAll: string -> bool)

  datatype Walk = Walk(queue: seq<string>, seen: set<string>, parent: map<string, string>)

  // ---------------------------------------------------------------- reachability

  predicate Expandable(g: Site, u: string) {
    u == g.root || !g.catchAll(u)
  }

  /** `v` is listed among the related tags of `u`, and `u` is a tag the walk expands. */
  ghost predicate Edge(g: Site, u: string, v: string) {
    v != "" && Expandable(g, u) && u in g.graph && v in g.graph[u]
  }

  /** `v` is reached from the root in exactly `n` steps. */
  ghost predicate ReachIn(g: Site, v: string, n: nat)
    decreases n
  {
    if n == 0 then v == g.root else exists u :: ReachIn(g, u, n - 1) && Edge(g, u, v)
  }

  /** `n` is the shortest distance of `v` from the root. */
  ghost predicate Distance(g: Site, v: string, n: nat) {
    ReachIn(g, v, n) && forall m: nat :: m < n ==> !ReachIn(g, v, m)
  }

  // ---------------------------------------------------------------- one related tag

  function Visit(g: Site, w: Walk, curr: string, id: string): Walk {
    if id == "" then w
    else if g.catchAll(id) then
      Walk(w.queue, w.seen + {id}, if id in w.parent then w.parent else w.parent[id := g.root])
    else
      Walk(if id in w.seen then w.queue else w.queue + [id], w.seen + {id},
           if id in w.parent then w.parent else w.parent[id := curr])
  }

  ghost function Deeper(g: Site, w: Walk, depth: map<string, nat>, curr: string, id: string): map<string, nat>
    requires curr in depth
  {
    if id == "" || g.catchAll(id) || id in w.seen then depth else depth[id := depth[curr] + 1]
  }

  // ---------------------------------------------------------------- invariant

  /** Depths are walk lengths. */
  ghost predicate Reaches(g: Site, seen: set<string>, depth: map<string, nat>) {
    && (forall v :: v in depth ==> v in seen && Expandable(g, v))
    && (forall v {:trigger ReachIn(g, v, depth[v])} :: v in depth ==> ReachIn(g, v, depth[v]))
  }

  /** Depths belong to the tags that were expanded or wait in the queue, each waiting once. */
  ghost predicate QueueSound(queue: seq<string>, done: set<string>, depth: map<string, nat>) {
    && (forall v :: v in depth <==> v in done || v in queue)
    && (forall i, j :: 0 <= i < j < |queue| ==> queue[i] != queue[j])
    && (forall i :: 0 <= i < |queue| ==> queue[i] !in done)
  }

  ghost predicate DepthsSound(g: Site, w: Walk, done: set<string>, depth: map<string, nat>) {
    && g.root in depth && depth[g.root] == 0
    && QueueSound(w.queue, done, depth)
    && Reaches(g, w.seen, depth)
    && (forall v :: v in w.seen ==> v in depth || g.catchAll(v))
  }

  /** Breadth first: expanded tags are no deeper than `d`, waiting ones between `d` and `d + 1`, in order. */
  ghost predicate InLevels(w: Walk, done: set<string>, depth: map<string, nat>, d: nat) {
    && (forall v :: v in done && v in depth ==> depth[v] <= d)
    && (forall i :: 0 <= i < |w.queue| && w.queue[i] in depth ==> d <= depth[w.queue[i]] <= d + 1)
    && (forall i, j :: 0 <= i < j < |w.queue| && w.queue[i] in depth && w.queue[j] in depth ==>
         depth[w.queue[i]] <= depth[w.queue[j]])
  }

  ghost predicate HasEdgeFrom(g: Site, done: set<string>, v: string) {
    exists u :: u in done && Edge(g, u, v)
  }

  /** A listed tag was found from an expanded one; its parent is one level up, or the root for a catch-all. */
  ghost predicate ParentSound(g: Site, w: Walk, done: set<string>, depth: map<string, nat>, v: string)
    requires v in w.parent
  {
    && v in w.seen && HasEdgeFrom(g, done, v)
    && (v == g.root ||
        if g.catchAll(v) then w.parent[v] == g.root
        else v in depth && w.parent[v] in done && w.parent[v] in depth && depth[v] == depth[w.parent[v]] + 1)
  }

  ghost predicate ParentsSound(g: Site, w: Walk, done: set<string>, depth: map<string, nat>) {
    && (forall v {:trigger ParentSound(g, w, done, depth, v)} :: v in w.parent ==> ParentSound(g, w, done, depth, v))
    && (forall v :: v in w.seen && v != g.root ==> v in w.parent)
  }

  /** The first `n` related tags of `u` are listed, and lie at most one level below `u`. */
  ghost predicate Covered(g: Site, w: Walk, depth: map<string, nat>, u: string, n: nat)
    requires u in g.graph && u in depth && n <= |g.graph[u]|
  {
    forall i :: 0 <= i < n && g.graph[u][i] != "" ==>
      var v := g.graph[u][i];
      v in w.parent && (g.catchAll(v) || (v in depth && depth[v] <= depth[u] + 1))
  }

  ghost predicate AllCovered(g: Site, w: Walk, done: set<string>, depth: map<string, nat>) {
    forall u :: u in done ==> u in g.graph && u in depth && Covered(g, w, depth, u, |g.graph[u]|)
  }

  lemma OneStepFurther(g: Site, u: string, v: string, n: nat)
    requires ReachIn(g, u, n) && Edge(g, u, v)
    ensures ReachIn(g, v, n + 1)
  {
  }

  lemma DeeperReaches(g: Site, seen: set<string>, depth: map<string, nat>, id: string, n: nat)
    requires Reaches(g, seen, depth) && id !in depth && Expandable(g, id) && ReachIn(g, id, n)
    ensures Reaches(g, seen + {id}, depth[id := n])
  {
    var deeper := depth[id := n];
    forall v | v in deeper ensures ReachIn(g, v, deeper[v]) {
      assert v != id ==> ReachIn(g, v, depth[v]);
    }
  }

  lemma LongerQueue(queue: seq<string>, done: set<string>, depth: map<string, nat>, id: string, n: nat)
    requires QueueSound(queue, done, depth) && id !in depth
    ensures QueueSound(queue + [id], done, depth[id := n])
  {
    var longer := queue + [id];
    assert longer[|queue|] == id && forall i :: 0 <= i < |queue| ==> longer[i] == queue[i];
    assert forall i :: 0 <= i < |queue| ==> queue[i] in depth;
  }

  lemma SoundAfterPush(g: Site, w: Walk, after: Walk, done: set<string>, depth: map<string, nat>,
                       deeper: map<string, nat>, id: string)
    requires DepthsSound(g, w, done, depth) && id !in depth && deeper.Keys == depth.Keys + {id}
    requires after.queue == w.queue + [id] && after.seen == w.seen + {id} && deeper[g.root] == 0
    requires QueueSound(w.queue + [id], done, deeper) && Reaches(g, w.seen + {id}, deeper)
    ensures DepthsSound(g, after, done, deeper)
  {
  }

  lemma PushKeepsDepths(g: Site, w: Walk, done: set<string>, depth: map<string, nat>, curr: string, id: string)
    requires curr in done && curr in depth && DepthsSound(g, w, done, depth)
    requires Edge(g, curr, id) && !g.catchAll(id) && id !in w.seen
    ensures DepthsSound(g, Visit(g, w, curr, id), done, depth[id := depth[curr] + 1])
  {
    var deeper := depth[id := depth[curr] + 1];
    assert id !in depth && ReachIn(g, curr, depth[curr]);
    LongerQueue(w.queue, done, depth, id, depth[curr] + 1);
    OneStepFurther(g, curr, id, depth[curr]);
    DeeperReaches(g, w.seen, depth, id, depth[curr] + 1);
    SoundAfterPush(g, w, Visit(g, w, curr, id), done, depth, deeper, id);
  }

  lemma PushKeepsLevels(g: Site, w: Walk, done: set<string>, depth: map<string, nat>, curr: string, id: string)
    requires curr in done && curr in depth && id !in done && id !in w.queue && id !in depth
    requires InLevels(w, done, depth, depth[curr]) && id != "" && !g.catchAll(id) && id !in w.seen
    ensures InLevels(Visit(g, w, curr, id), done, depth[id := depth[curr] + 1], depth[curr])
  {
  }

  lemma VisitKeepsDepths(g: Site, w: Walk, done: set<string>, depth: map<string, nat>, curr: string, id: string)
    requires curr in done && curr in depth && DepthsSound(g, w, done, depth)
    requires InLevels(w, done, depth, depth[curr]) && (id != "" ==> Edge(g, curr, id))
    ensures DepthsSound(g, Visit(g, w, curr, id), done, Deeper(g, w, depth, curr, id))
    ensures InLevels(Visit(g, w, curr, id), done, Deeper(g, w, depth, curr, id), depth[curr])
  {
    if id != "" && !g.catchAll(id) && id !in w.seen {
      PushKeepsDepths(g, w, done, depth, curr, id);
      PushKeepsLevels(g, w, done, depth, curr, id);
    }
  }

  lemma VisitKeepsParents(g: Site, w: Walk, done: set<string>, depth: map<string, nat>, curr: string, id: string)
    requires curr in done && curr in depth && DepthsSound(g, w, done, depth)
    requires ParentsSound(g, w, done, depth) && (id != "" ==> Edge(g, curr, id))
    ensures ParentsSound(g, Visit(g, w, curr, id), done, Deeper(g, w, depth, curr, id))
  {
    var w', depth' := Visit(g, w, curr, id), Deeper(g, w, depth, curr, id);
    forall v | v in w'.parent ensures ParentSound(g, w', done, depth', v) {
      if v in w.parent {
        assert ParentSound(g, w, done, depth, v);
      } else {
        assert HasEdgeFrom(g, done, id);
      }
    }
  }

  lemma VisitKeepsCovered(g: Site, w: Walk, done: set<string>, depth: map<string, nat>, curr: string, id: string,
                          u: string, n: nat)
    requires DepthsSound(g, w, done, depth) && curr in depth
    requires u in g.graph && u in depth && n <= |g.graph[u]| && Covered(g, w, depth, u, n)
    ensures Covered(g, Visit(g, w, curr, id), Deeper(g, w, depth, curr, id), u, n)
  {
  }

  lemma VisitCovers(g: Site, w: Walk, done: set<string>, depth: map<string, nat>, curr: string, n: nat)
    requires curr in done && curr in depth && DepthsSound(g, w, done, depth)
    requires InLevels(w, done, depth, depth[curr]) && ParentsSound(g, w, done, depth)
    requires curr in g.graph && n < |g.graph[curr]| && Covered(g, w, depth, curr, n)
    ensures var id := g.graph[curr][n];
      Covered(g, Visit(g, w, curr, id), Deeper(g, w, depth, curr, id), curr, n + 1)
  {
    var id := g.graph[curr][n];
    VisitKeepsCovered(g, w, done, depth, curr, id, curr, n);
    if id in w.seen && id in depth {
      assert id in done || id in w.queue;
    }
  }

  // ---------------------------------------------------------------- the program

  datatype Outcome = Failed | Catalog(parent: map<string, string>)

  /** What holds whenever the walk takes the next tag from its queue. */
  ghost predicate WalkSound(g: Site, w: Walk, done: set<string>, depth: map<string, nat>) {
    && DepthsSound(g, w, done, depth) && ParentsSound(g, w, done, depth) && AllCovered(g, w, done, depth)
    && (w.queue != [] ==> w.queue[0] in depth && InLevels(w, done, depth, depth[w.queue[0]]))
  }

  /** A tag the walk has to expand and cannot fetch. */
  ghost predicate Unfetchable(g: Site, v: string) {
    Expandable(g, v) && v !in g.graph && exists n: nat :: ReachIn(g, v, n)
  }

  /** The walk. `fetched` lists the ids whose related tags were requested; `depth` is the level at
      which each expanded tag was found. */
  method FetchCategories(g: Site) returns (r: Outcome, ghost fetched: seq<string>, ghost depth: map<string, nat>)
    ensures forall i, j :: 0 <= i < j < |fetched| ==> fetched[i] != fetched[j]
    ensures r.Catalog? ==> IsTree(g, r.parent, depth) && forall v :: v in fetched <==> v in depth
    ensures r.Failed? <==> exists v :: Unfetchable(g, v)
  {
    var w := Walk([g.root], {g.root}, map[]);
    StartIsSound(g);
    ghost var done: set<string> := {};
    depth := map[g.root := 0];
    fetched := [];
    while |w.queue| > 0
      invariant WalkSound(g, w, done, depth)
      invariant forall v :: v in fetched <==> v in done
      invariant forall i, j :: 0 <= i < j < |fetched| ==> fetched[i] != fetched[j]
      decreases g.graph.Keys - done
    {
      var curr := w.queue[0];
      if curr !in g.graph {
        QueuedIsReachable(g, w, done, depth);
        assert Unfetchable(g, curr);
        return Failed, fetched, depth;
      }
      assert curr !in done;
      w, depth := TakeNext(g, w, done, depth);
      done := done + {curr};
      fetched := fetched + [curr];
    }
    CompleteWalk(g, w, done, depth);
    AllFetched(g, w, done, depth);
    r := Catalog(w.parent);
  }

  method TakeNext(g: Site, start: Walk, ghost done: set<string>, ghost depthIn: map<string, nat>)
    returns (w: Walk, ghost depth: map<string, nat>)
    requires WalkSound(g, start, done, depthIn) && start.queue != [] && start.queue[0] in g.graph
    ensures WalkSound(g, w, done + {start.queue[0]}, depth)
  {
    Dequeued(g, start, done, depthIn);
    w, depth := Expand(g, start.(queue := start.queue[1..]), start.queue[0], done + {start.queue[0]}, depthIn);
  }

  lemma StartIsSound(g: Site)
    ensures var w, depth := Walk([g.root], {g.root}, map[]), map[g.root := 0];
      && DepthsSound(g, w, {}, depth) && ParentsSound(g, w, {}, depth) && AllCovered(g, w, {}, depth)
      && InLevels(w, {}, depth, 0)
  {
  }

  lemma QueuedIsReachable(g: Site, w: Walk, done: set<string>, depth: map<string, nat>)
    requires w.queue != [] && DepthsSound(g, w, done, depth)
    ensures w.queue[0] in depth && Expandable(g, w.queue[0]) && exists n: nat :: ReachIn(g, w.queue[0], n)
  {
    assert ReachIn(g, w.queue[0], depth[w.queue[0]]);
  }

  lemma Dequeued(g: Site, w: Walk, done: set<string>, depth: map<string, nat>)
    requires w.queue != [] && w.queue[0] in g.graph
    requires DepthsSound(g, w, done, depth) && ParentsSound(g, w, done, depth)
    requires AllCovered(g, w, done, depth) && InLevels(w, done, depth, depth[w.queue[0]])
    ensures var curr := w.queue[0]; var rest := w.(queue := w.queue[1..]);
      && DepthsSound(g, rest, done + {curr}, depth)
      && ParentsSound(g, rest, done + {curr}, depth)
      && InLevels(rest, done + {curr}, depth, depth[curr])
      && (forall u :: u in done ==> u in g.graph && u in depth && Covered(g, rest, depth, u, |g.graph[u]|))
  {
    DequeuedDepths(g, w, done, depth);
    DequeuedLevels(w, done, depth);
    DequeuedParents(g, w, done, depth);
    forall u | u in done ensures Covered(g, w.(queue := w.queue[1..]), depth, u, |g.graph[u]|) {
      assert Covered(g, w, depth, u, |g.graph[u]|);
    }
  }

  lemma DequeuedDepths(g: Site, w: Walk, done: set<string>, depth: map<string, nat>)
    requires w.queue != [] && DepthsSound(g, w, done, depth)
    ensures DepthsSound(g, w.(queue := w.queue[1..]), done + {w.queue[0]}, depth)
  {
    assert w.queue == [w.queue[0]] + w.queue[1..];
  }

  lemma DequeuedLevels(w: Walk, done: set<string>, depth: map<string, nat>)
    requires w.queue != [] && w.queue[0] in depth && InLevels(w, done, depth, depth[w.queue[0]])
    ensures InLevels(w.(queue := w.queue[1..]), done + {w.queue[0]}, depth, depth[w.queue[0]])
  {
  }

  lemma DequeuedParents(g: Site, w: Walk, done: set<string>, depth: map<string, nat>)
    requires w.queue != [] && ParentsSound(g, w, done, depth)
    ensures ParentsSound(g, w.(queue := w.queue[1..]), done + {w.queue[0]}, depth)
  {
    var curr, rest := w.queue[0], w.(queue := w.queue[1..]);
    forall v | v in w.parent ensures ParentSound(g, rest, done + {curr}, depth, v) {
      assert ParentSound(g, w, done, depth, v);
      var u :| u in done && Edge(g, u, v);
      assert u in done + {curr};
    }
  }

  method Expand(g: Site, start: Walk, curr: string, ghost done: set<string>, ghost depthIn: map<string, nat>)
    returns (w: Walk, ghost depth: map<string, nat>)
    requires curr in done && curr in depthIn && curr in g.graph
    requires DepthsSound(g, start, done, depthIn) && ParentsSound(g, start, done, depthIn)
    requires InLevels(start, done, depthIn, depthIn[curr])
    requires forall u :: u in done - {curr} ==>
      u in g.graph && u in depthIn && Covered(g, start, depthIn, u, |g.graph[u]|)
    ensures DepthsSound(g, w, done, depth) && ParentsSound(g, w, done, depth) && AllCovered(g, w, done, depth)
    ensures w.queue != [] ==> InLevels(w, done, depth, depth[w.queue[0]])
  {
    w, depth := start, depthIn;
    var tags := g.graph[curr];
    for i := 0 to |tags|
      invariant curr in depth && depth[curr] == depthIn[curr]
      invariant DepthsSound(g, w, done, depth) && ParentsSound(g, w, done, depth)
      invariant InLevels(w, done, depth, depth[curr])
      invariant forall u :: u in done - {curr} ==> u in g.graph && u in depth && Covered(g, w, depth, u, |g.graph[u]|)
      invariant Covered(g, w, depth, curr, i)
    {
      assert tags[i] in tags;
      VisitKeepsDepths(g, w, done, depth, curr, tags[i]);
      VisitKeepsParents(g, w, done, depth, curr, tags[i]);
      VisitCovers(g, w, done, depth, curr, i);
      forall u | u in done - {curr} {
        VisitKeepsCovered(g, w, done, depth, curr, tags[i], u, |g.graph[u]|);
      }
      depth := Deeper(g, w, depth, curr, tags[i]);
      w := VisitRelated(g, w, curr, tags[i]);
    }
    NextLevel(w, done, depth, depth[curr]);
  }

  method VisitRelated(g: Site, w: Walk, curr: string, id: string) returns (r: Walk)
    ensures r == Visit(g, w, curr, id)
  {
    r := w;
    if id == "" {
      return;
    }
    if g.catchAll(id) {
      if id !in r.parent {
        r := r.(parent := r.parent[id := g.root]);
      }
      r := r.(seen := r.seen + {id});
      return;
    }
    if id !in r.parent {
      r := r.(parent := r.parent[id := curr]);
    }
    if id !in r.seen {
      r := r.(seen := r.seen + {id}, queue := r.queue + [id]);
    }
    assert r.seen == w.seen + {id};
  }

  /** When a level is used up, the queue's front carries the next one. */
  lemma NextLevel(w: Walk, done: set<string>, depth: map<string, nat>, d: nat)
    requires InLevels(w, done, depth, d) && forall i :: 0 <= i < |w.queue| ==> w.queue[i] in depth
    ensures w.queue != [] ==> InLevels(w, done, depth, depth[w.queue[0]])
  {
  }

  // ---------------------------------------------------------------- the finished tree

  /** A listed tag's parent is the root for a catch-all, and otherwise one level up. */
  ghost predicate HangsRight(g: Site, parent: map<string, string>, depth: map<string, nat>, v: string)
    requires v in parent
  {
    if g.catchAll(v) then parent[v] == g.root
    else v in depth && parent[v] in depth && depth[v] == depth[parent[v]] + 1
  }

  ghost predicate Listed(g: Site, v: string) {
    exists n: nat :: n > 0 && ReachIn(g, v, n)
  }

  /** The catalogue lists exactly the tags reached by at least one step, each hung in its place, and
      the level of an expanded tag is its distance from the root. */
  ghost predicate IsTree(g: Site, parent: map<string, string>, depth: map<string, nat>) {
    && (forall v :: v in parent <==> Listed(g, v))
    && g.root in depth
    && (forall v :: v in depth <==> Expandable(g, v) && (v == g.root || Listed(g, v)))
    && (forall v :: v in depth ==> Distance(g, v, depth[v]))
    && (forall v {:trigger HangsRight(g, parent, depth, v)} :: v in parent && v != g.root ==>
         HangsRight(g, parent, depth, v))
    && (forall v :: v in depth && v != g.root ==> v in parent)
  }

  /** Nothing reachable is missed, and nothing is found later than it could be. */
  lemma {:induction false} ReachedIsCovered(g: Site, w: Walk, done: set<string>, depth: map<string, nat>, v: string, n: nat)
    requires w.queue == [] && DepthsSound(g, w, done, depth) && AllCovered(g, w, done, depth)
    requires ReachIn(g, v, n)
    ensures n > 0 ==> v in w.parent
    ensures Expandable(g, v) ==> v in depth && depth[v] <= n
    decreases n
  {
    if n > 0 {
      var u :| ReachIn(g, u, n - 1) && Edge(g, u, v);
      ReachedIsCovered(g, w, done, depth, u, n - 1);
      assert Covered(g, w, depth, u, |g.graph[u]|);
      var i :| 0 <= i < |g.graph[u]| && g.graph[u][i] == v;
    }
  }

  lemma DepthIsDistance(g: Site, w: Walk, done: set<string>, depth: map<string, nat>, v: string)
    requires w.queue == [] && DepthsSound(g, w, done, depth) && AllCovered(g, w, done, depth)
    requires v in depth
    ensures Distance(g, v, depth[v])
  {
    forall m: nat | m < depth[v] ensures !ReachIn(g, v, m) {
      if ReachIn(g, v, m) {
        ReachedIsCovered(g, w, done, depth, v, m);
      }
    }
  }

  lemma FoundIsListed(g: Site, w: Walk, done: set<string>, depth: map<string, nat>, v: string)
    requires DepthsSound(g, w, done, depth) && HasEdgeFrom(g, done, v)
    ensures Listed(g, v)
  {
    var u :| u in done && Edge(g, u, v);
    assert ReachIn(g, u, depth[u]);
    assert ReachIn(g, v, depth[u] + 1);
  }

  lemma CompleteWalk(g: Site, w: Walk, done: set<string>, depth: map<string, nat>)
    requires w.queue == [] && DepthsSound(g, w, done, depth)
    requires ParentsSound(g, w, done, depth) && AllCovered(g, w, done, depth)
    ensures IsTree(g, w.parent, depth)
  {
    forall v | v in depth ensures Distance(g, v, depth[v]) {
      DepthIsDistance(g, w, done, depth, v);
    }
    forall v | v in w.parent ensures Listed(g, v) && (v != g.root ==> HangsRight(g, w.parent, depth, v)) {
      assert ParentSound(g, w, done, depth, v);
      FoundIsListed(g, w, done, depth, v);
    }
    forall v | Listed(g, v) ensures v in w.parent && (Expandable(g, v) ==> v in depth) {
      var n: nat :| n > 0 && ReachIn(g, v, n);
      ReachedIsCovered(g, w, done, depth, v, n);
    }
  }

  /** A walk that ends has fetched every tag it had to expand. */
  lemma AllFetched(g: Site, w: Walk, done: set<string>, depth: map<string, nat>)
    requires w.queue == [] && DepthsSound(g, w, done, depth) && AllCovered(g, w, done, depth)
    ensures forall v :: !Unfetchable(g, v)
  {
    forall v ensures !Unfetchable(g, v) {
      if Unfetchable(g, v) {
        var n: nat :| ReachIn(g, v, n);
        ReachedIsCovered(g, w, done, depth, v, n);
        assert false;
      }
    }
  }

  /** Following parents `k` times. */
  function Climb(parent: map<string, string>, v: string, k: nat): string
    decreases k
  {
    if k == 0 then v
    else if v in parent then Climb(parent, parent[v], k - 1)
    else v
  }

  /** A tag's parent chain reaches the root in exactly its distance from the root, and not before. */
  lemma {:induction false} ChainIsShortest(g: Site, parent: map<string, string>, depth: map<string, nat>, v: string)
    requires IsTree(g, parent, depth) && v in depth
    ensures Climb(parent, v, depth[v]) == g.root
    ensures forall k: nat :: k < depth[v] ==> Climb(parent, v, k) != g.root
    decreases depth[v]
  {
    assert Distance(g, v, depth[v]);
    if v == g.root {
      assert ReachIn(g, v, 0);
    } else {
      assert v in parent && HangsRight(g, parent, depth, v);
      ChainIsShortest(g, parent, depth, parent[v]);
      forall k: nat | k < depth[v] ensures Climb(parent, v, k) != g.root {
        assert k > 0 ==> Climb(parent, v, k) == Climb(parent, parent[v], k - 1);
      }
    }
  }

  /** Without catch-alls, as in the first program, that covers every listed tag other than the root;
      with them, every chain still ends at the root. */
  lemma EveryChainReachesRoot(g: Site, parent: map<string, string>, depth: map<string, nat>, v: string)
    requires IsTree(g, parent, depth) && v in parent && v != g.root
    ensures exists k: nat :: Climb(parent, v, k) == g.root
    ensures !g.catchAll(v) ==> v in depth && Distance(g, v, depth[v]) && Climb(parent, v, depth[v]) == g.root
  {
    assert HangsRight(g, parent, depth, v);
    if g.catchAll(v) {
      assert Climb(parent, v, 1) == g.root;
    } else {
      ChainIsShortest(g, parent, depth, v);
    }
  }
}
