/** The chain that running threads follow through one switch, without any lock (sh_switch.c).

    A thread enters through the patched target, possibly by way of the glue launcher, and goes from proxy to proxy
    through the proxies' orig_addr cells until it is in the resumed original. A proxy that was removed keeps its
    cell, and a thread may still be inside it. */
module SwitchChain {
  // Proxy functions, the hub trampoline, the glue launcher and the enters of a switch lie at distinct addresses.
  datatype Addr = Null | Func(id: nat) | Trampo | Launcher | Enter(id: nat)

  /** Everything a running thread can see; `cells` holds the orig_addr cell of every proxy ever queued. */
  datatype Runtime = Runtime(start: Addr, proxyAddr: Addr, resume: Addr, cells: map<Addr, Addr>)

  /** Where a thread goes from the target: shadowhook_interceptor_caller decides behind the launcher. */
  function FirstHop(r: Runtime): Addr {
    if r.start != Launcher then r.start
    else if r.proxyAddr != Null then r.proxyAddr
    else r.resume
  }

  /** Following the cells from `from` visits exactly `path` and ends at `resume`. */
  predicate IsPath(cells: map<Addr, Addr>, from: Addr, path: seq<Addr>, resume: Addr)
    decreases |path|
  {
    if path == [] then from == resume
    else from == path[0] && from in cells && IsPath(cells, cells[from], path[1..], resume)
  }

  predicate Visits(r: Runtime, path: seq<Addr>) {
    r.resume.Enter? && IsPath(r.cells, FirstHop(r), path, r.resume)
  }

  ghost predicate Reaches(cells: map<Addr, Addr>, from: Addr, resume: Addr) {
    exists path :: IsPath(cells, from, path, resume)
  }

  /** Wherever a thread may be, in a queued proxy or in a removed one, its way leads to the original. */
  ghost predicate AllReach(r: Runtime) {
    forall f | f in r.cells :: Reaches(r.cells, f, r.resume)
  }

  /** A thread visits one well-defined sequence. */
  lemma {:induction false} PathIsUnique(cells: map<Addr, Addr>, from: Addr, p: seq<Addr>, q: seq<Addr>, resume: Addr)
    requires resume !in cells && IsPath(cells, from, p, resume) && IsPath(cells, from, q, resume)
    ensures p == q
    decreases |p|
  {
    if p != [] {
      PathIsUnique(cells, cells[from], p[1..], q[1..], resume);
      assert p == [p[0]] + p[1..] && q == [q[0]] + q[1..];
    }
  }

  /** No address on the way is null. */
  lemma {:induction false} PathHasNoNull(cells: map<Addr, Addr>, from: Addr, path: seq<Addr>, resume: Addr)
    requires Null !in cells.Keys && resume != Null && IsPath(cells, from, path, resume)
    ensures from != Null && Null !in path && forall f | f in path :: f in cells && cells[f] != Null
    decreases |path|
  {
    if path != [] {
      PathHasNoNull(cells, cells[from], path[1..], resume);
      assert path == [path[0]] + path[1..];
    }
  }

  function NextOf(queue: seq<Addr>, i: nat, resume: Addr): Addr {
    if i + 1 < |queue| then queue[i + 1] else resume
  }

  /** The cells of the queued proxies form the queue. */
  predicate Linked(cells: map<Addr, Addr>, queue: seq<Addr>, resume: Addr) {
    forall i | 0 <= i < |queue| :: queue[i] in cells && cells[queue[i]] == NextOf(queue, i, resume)
  }

  function Head(queue: seq<Addr>, resume: Addr): Addr {
    if queue == [] then resume else queue[0]
  }

  lemma LinkedAt(cells: map<Addr, Addr>, queue: seq<Addr>, resume: Addr, i: nat)
    requires Linked(cells, queue, resume) && i < |queue|
    ensures queue[i] in cells && cells[queue[i]] == NextOf(queue, i, resume)
  {
  }

  lemma {:induction false} LinkedIsPath(cells: map<Addr, Addr>, queue: seq<Addr>, resume: Addr)
    requires Linked(cells, queue, resume)
    ensures IsPath(cells, Head(queue, resume), queue, resume)
  {
    if queue != [] {
      var rest := queue[1..];
      forall i | 0 <= i < |rest|
        ensures rest[i] in cells && cells[rest[i]] == NextOf(rest, i, resume)
      {
        assert rest[i] == queue[i + 1];
      }
      LinkedIsPath(cells, rest, resume);
    }
  }

  predicate Distinct(queue: seq<Addr>) {
    forall i, j | 0 <= i < j < |queue| :: queue[i] != queue[j]
  }

  // The order behind acyclicity: a cell only ever points to a proxy that was queued later than its owner.

  predicate Ordered(cells: map<Addr, Addr>, stamps: map<Addr, nat>, resume: Addr) {
    forall f | f in cells ::
      f in stamps && (cells[f] == resume || (cells[f] in cells && cells[f] in stamps && stamps[f] < stamps[cells[f]]))
  }

  ghost predicate StampsBelow(stamps: map<Addr, nat>, clock: nat) {
    forall f | f in stamps :: stamps[f] < clock
  }

  lemma {:induction false} OrderedReaches(cells: map<Addr, Addr>, stamps: map<Addr, nat>, resume: Addr, clock: nat, f: Addr)
    requires Ordered(cells, stamps, resume) && StampsBelow(stamps, clock) && f in cells
    ensures Reaches(cells, f, resume)
    decreases clock - stamps[f]
  {
    if cells[f] == resume {
      assert IsPath(cells, resume, [], resume);
      assert [f][1..] == [];
      assert IsPath(cells, f, [f], resume);
    } else {
      OrderedReaches(cells, stamps, resume, clock, cells[f]);
      var path :| IsPath(cells, cells[f], path, resume);
      assert ([f] + path)[1..] == path;
      assert IsPath(cells, f, [f] + path, resume);
    }
  }

  lemma OrderedAllReach(r: Runtime, stamps: map<Addr, nat>, clock: nat)
    requires Ordered(r.cells, stamps, r.resume) && StampsBelow(stamps, clock)
    ensures AllReach(r)
  {
    forall f | f in r.cells ensures Reaches(r.cells, f, r.resume) {
      OrderedReaches(r.cells, stamps, r.resume, clock, f);
    }
  }

  /** What a thread that arrives after some store of an operation may see: the queue before or the queue after. */
  ghost predicate Sound(r: Runtime, before: seq<Addr>, after: seq<Addr>) {
    r.start != Null ==> (Visits(r, before) || Visits(r, after)) && AllReach(r)
  }

  lemma AllAtResume(cells: map<Addr, Addr>, stamps: map<Addr, nat>, resume: Addr)
    requires cells.Keys <= stamps.Keys && forall f | f in cells :: cells[f] == resume
    ensures Ordered(cells, stamps, resume)
  {
  }

  lemma CellsAreStamped(cells: map<Addr, Addr>, stamps: map<Addr, nat>, resume: Addr)
    requires Ordered(cells, stamps, resume)
    ensures cells.Keys <= stamps.Keys
  {
  }

  lemma ShowSound(r: Runtime, queue: seq<Addr>, stamps: map<Addr, nat>, clock: nat, before: seq<Addr>, after: seq<Addr>)
    requires r.start != Null ==> r.resume.Enter? && FirstHop(r) == Head(queue, r.resume)
    requires Linked(r.cells, queue, r.resume) && Ordered(r.cells, stamps, r.resume) && StampsBelow(stamps, clock)
    requires queue == before || queue == after
    ensures Sound(r, before, after)
  {
    LinkedIsPath(r.cells, queue, r.resume);
    OrderedAllReach(r, stamps, clock);
  }

  // The stores of sh_switch_proxy_add and sh_switch_proxy_del, on the cells.

  /** The first store of an add: the new proxy leads to the original. Nobody in the queue points to it yet. */
  lemma NewCell(cells: map<Addr, Addr>, queue: seq<Addr>, resume: Addr, f: Addr, stamps: map<Addr, nat>, clock: nat)
    requires Linked(cells, queue, resume) && f !in queue
    requires Ordered(cells, stamps, resume) && StampsBelow(stamps, clock)
    ensures Linked(cells[f := resume], queue, resume)
    ensures Ordered(cells[f := resume], stamps[f := clock], resume) && StampsBelow(stamps[f := clock], clock + 1)
  {
  }

  lemma DistinctWith(queue: seq<Addr>, f: Addr)
    requires Distinct(queue) && f !in queue
    ensures Distinct(queue + [f])
  {
  }

  lemma OnlyOne(cells: map<Addr, Addr>, resume: Addr, f: Addr)
    requires f in cells && cells[f] == resume
    ensures Linked(cells, [f], resume)
  {
  }

  lemma NothingLinked(cells: map<Addr, Addr>, resume: Addr)
    ensures Linked(cells, [], resume)
  {
  }

  /** The second store: the last proxy leads to the new one. */
  lemma TailLinked(cells: map<Addr, Addr>, queue: seq<Addr>, resume: Addr, f: Addr, stamps: map<Addr, nat>, clock: nat)
    requires queue != [] && Linked(cells, queue, resume) && f !in queue && Distinct(queue)
    requires f in cells && cells[f] == resume && f in stamps && stamps[f] == clock
    requires Ordered(cells, stamps, resume) && forall g | g in stamps && g != f :: stamps[g] < clock
    ensures var after := cells[queue[|queue| - 1] := f];
            Linked(after, queue + [f], resume) && Ordered(after, stamps, resume)
  {
    var last := |queue| - 1;
    var after := cells[queue[last] := f];
    forall i | 0 <= i < |queue| + 1
      ensures (queue + [f])[i] in after && after[(queue + [f])[i]] == NextOf(queue + [f], i, resume)
    {
      if i < last {
        assert queue[i] != queue[last];
      }
    }
  }

  function Without(queue: seq<Addr>, i: nat): seq<Addr>
    requires i < |queue|
  {
    queue[..i] + queue[i + 1..]
  }

  /** The queue without `f`. */
  function Removed(queue: seq<Addr>, f: Addr): seq<Addr> {
    if queue == [] then []
    else if queue[0] == f then queue[1..]
    else [queue[0]] + Removed(queue[1..], f)
  }

  lemma {:induction false} RemovedIsWithout(queue: seq<Addr>, f: Addr, i: nat)
    requires i < |queue| && queue[i] == f && f !in queue[..i]
    ensures Removed(queue, f) == Without(queue, i)
    decreases i
  {
    if i > 0 {
      assert queue[0] == queue[..i][0];
      assert queue[1..][..i - 1] == queue[..i][1..];
      RemovedIsWithout(queue[1..], f, i - 1);
    }
  }

  lemma TailIsDistinct(queue: seq<Addr>)
    requires Distinct(queue) && queue != []
    ensures Distinct(queue[1..]) && (|queue| > 1 ==> queue[0] != queue[1])
  {
  }

  lemma NotRemoved(queue: seq<Addr>, f: Addr)
    requires f !in queue
    ensures Removed(queue, f) == queue
  {
    if queue != [] {
      NotRemoved(queue[1..], f);
    }
  }

  lemma WithoutIsDistinct(queue: seq<Addr>, i: nat)
    requires i < |queue| && Distinct(queue)
    ensures Distinct(Without(queue, i)) && queue[i] !in Without(queue, i)
    ensures forall f | f != queue[i] :: f in Without(queue, i) <==> f in queue
  {
    forall f | f != queue[i] && f in queue ensures f in Without(queue, i) {
      var k: nat :| k < |queue| && queue[k] == f;
      assert Without(queue, i)[if k < i then k else k - 1] == f;
    }
  }

  /** The store of a removal inside the queue: the proxy in front leads to the one behind, or to the original. */
  lemma Unlinked(cells: map<Addr, Addr>, queue: seq<Addr>, resume: Addr, i: nat)
    requires 0 < i < |queue| && Linked(cells, queue, resume) && Distinct(queue)
    ensures Linked(cells[queue[i - 1] := NextOf(queue, i, resume)], Without(queue, i), resume)
  {
    var after := cells[queue[i - 1] := NextOf(queue, i, resume)];
    var shorter := Without(queue, i);
    forall k | 0 <= k < |shorter|
      ensures shorter[k] in after && after[shorter[k]] == NextOf(shorter, k, resume)
    {
      var at := if k < i then k else k + 1;
      assert shorter[k] == queue[at];
      if at != i - 1 {
        assert queue[at] != queue[i - 1];
      }
    }
  }

  /** Pointing past a proxy keeps the order. */
  lemma SkippedInOrder(cells: map<Addr, Addr>, stamps: map<Addr, nat>, resume: Addr, prev: Addr, removed: Addr)
    requires Ordered(cells, stamps, resume) && resume !in cells
    requires prev in cells && cells[prev] == removed && removed in cells
    ensures Ordered(cells[prev := cells[removed]], stamps, resume)
  {
  }

  /** Removing the head stores nothing into the cells. */
  lemma HeadDropped(cells: map<Addr, Addr>, queue: seq<Addr>, resume: Addr)
    requires queue != [] && Linked(cells, queue, resume)
    ensures Linked(cells, queue[1..], resume)
  {
    forall i | 0 <= i < |queue| - 1
      ensures queue[1..][i] in cells && cells[queue[1..][i]] == NextOf(queue[1..], i, resume)
    {
      assert queue[1..][i] == queue[i + 1];
    }
  }
}
