/** Proxies that call each other through hubs cannot recurse forever.

    A proxy is a finite program: it calls hooked functions, calls the previous proxy, and grants or revokes
    reentry. The proxies of all hubs and their enabled flags may change between any two lookups (`world` is indexed by
    a clock); the address of each hub's original function is stable. Originals may call hooked functions too, as
    long as the originals alone do not form a cycle: their ranks fall along such calls (a leaf calls nothing). */
module HubCalls {
  import opened HubStack
  import Hub

  datatype Action =
    | CallHooked(hub: nat, site: nat)
    | CallPrev(site: nat)
    | Allow
    | Disallow

  /** What all hubs hold at one moment: the `proxies` of each Hub.SharedHub. */
  datatype World = World(hubs: seq<seq<Hub.Proxy>>)

  ghost predicate DistinctFuncs(proxies: seq<Node>) {
    forall i, j | 0 <= i < j < |proxies| :: proxies[i].func != proxies[j].func
  }

  /** The list of a hub. That its functions are distinct is the invariant of Hub.SharedHub. */
  function ListOf(w: World, hub: nat): (nodes: seq<Node>)
    requires hub < |w.hubs|
    ensures |nodes| == |w.hubs[hub]|
    ensures Hub.NoDuplicates(Hub.Funcs(w.hubs[hub])) ==> DistinctFuncs(nodes)
  {
    var funcs := Hub.Funcs(w.hubs[hub]);
    seq(|funcs|, (i: nat) requires i < |funcs| => Node(hub, funcs[i]))
  }

  function Enabled(w: World): set<Node> {
    set h: nat, f | h < |w.hubs| && f in Hub.EnabledFuncs(w.hubs[h]) :: Node(h, f)
  }

  datatype Env = Env(
    origAddrs: seq<Addr>,
    origCode: seq<seq<Action>>,
    ranks: seq<nat>,
    proxyCode: Addr -> seq<Action>,
    world: nat -> World)

  ghost predicate CallsExist(env: Env, code: seq<Action>) {
    forall a | a in code :: a.CallHooked? ==> a.hub < |env.origAddrs|
  }

  ghost predicate CallsDescend(env: Env, code: seq<Action>, rank: nat)
    requires |env.ranks| == |env.origAddrs|
  {
    forall a | a in code :: a.CallHooked? && a.hub < |env.origAddrs| && env.ranks[a.hub] < rank
  }

  ghost predicate Ok(env: Env) {
    && |env.origAddrs| == |env.origCode| == |env.ranks|
    && (forall i, j | 0 <= i < j < |env.origAddrs| :: env.origAddrs[i] != env.origAddrs[j])
    && (forall h: nat | h < |env.origCode| :: CallsDescend(env, env.origCode[h], env.ranks[h]))
    && (forall f :: CallsExist(env, env.proxyCode(f)))
    && (forall t :: |env.world(t).hubs| == |env.origAddrs|)
    && (forall t, h: nat | h < |env.origAddrs| :: Hub.NoDuplicates(Hub.Funcs(env.world(t).hubs[h])))
  }

  /** A thread's stack, its clock, the deepest its stack has been, and what it has entered so far. */
  datatype State = State(frames: seq<Frame>, now: nat, peak: nat, trace: seq<Target>)

  ghost predicate FramesOk(env: Env, frames: seq<Frame>) {
    && |frames| <= FRAME_MAX
    && (forall i: nat | i < |frames| ::
          DistinctFuncs(frames[i].proxies) && frames[i].returnAddress.AfterHooked? && frames[i].origAddr in env.origAddrs)
  }

  function Top(frames: seq<Frame>): Frame
    requires frames != []
  {
    frames[|frames| - 1]
  }

  /** How far `func` is from the end of the list of the top frame. */
  function Left(frames: seq<Frame>, func: Addr): nat {
    if frames == [] then 0 else |Top(frames).proxies| - IndexOf(Top(frames).proxies, func)
  }

  ghost function HubOf(env: Env, addr: Addr): (h: nat)
    requires addr in env.origAddrs
    ensures h < |env.origAddrs| && env.origAddrs[h] == addr
  {
    var h: nat :| h < |env.origAddrs| && env.origAddrs[h] == addr;
    h
  }

  // No proxy ever grants reentry.
  ghost predicate NoGrants(env: Env) {
    forall f :: Allow !in env.proxyCode(f)
  }

  /** Without grants every hub is on the stack at most once. */
  ghost predicate Strict(frames: seq<Frame>) {
    && (forall i: nat | i < |frames| :: !frames[i].allowReentrant)
    && (forall i, j | 0 <= i < j < |frames| :: frames[i].origAddr != frames[j].origAddr)
  }

  /** The stack never outgrows its array, and without grants it never outgrows the number of hubs. */
  ghost predicate Bounded(env: Env, s: State) {
    s.peak <= FRAME_MAX && (NoGrants(env) ==> Strict(s.frames) && s.peak <= |env.origAddrs|)
  }

  ghost predicate Ready(env: Env, s: State) {
    Ok(env) && FramesOk(env, s.frames) && Bounded(env, s)
  }

  lemma {:induction false} Pigeonhole(frames: seq<Frame>, addrs: seq<Addr>)
    requires forall i, j | 0 <= i < j < |frames| :: frames[i].origAddr != frames[j].origAddr
    requires forall i: nat | i < |frames| :: frames[i].origAddr in addrs
    ensures |frames| <= |addrs|
    decreases |frames|
  {
    if frames != [] {
      var last := |frames| - 1;
      var k: nat :| k < |addrs| && addrs[k] == frames[last].origAddr;
      var rest := addrs[..k] + addrs[k + 1..];
      forall i: nat | i < last ensures frames[..last][i].origAddr in rest {
        var m: nat :| m < |addrs| && addrs[m] == frames[i].origAddr;
        assert m != k;
        assert rest[if m < k then m else m - 1] == addrs[m];
      }
      Pigeonhole(frames[..last], rest);
    }
  }

  function Max(a: nat, b: nat): nat {
    if a < b then b else a
  }

  /** Entering a hub: push, and count how deep the stack is. */
  ghost function Enter(env: Env, hub: nat, site: nat, s: State): (r: (Target, State))
    requires Ready(env, s) && hub < |env.origAddrs|
    ensures Ready(env, r.1) && r.1.now == s.now + 1
    ensures r.0 == Original(env.origAddrs[hub]) ==> r.1.frames == s.frames
    ensures r.0 != Original(env.origAddrs[hub]) ==>
              && r.0.Proxy? && |r.1.frames| == |s.frames| + 1 && r.1.frames[..|s.frames|] == s.frames
              && Left(r.1.frames, r.0.func) > 0 && Top(r.1.frames).returnAddress == AfterHooked(site)
  {
    var w := env.world(s.now);
    var addr := env.origAddrs[hub];
    var frames := PushFrames(s.frames, addr, ListOf(w, hub), Enabled(w), AfterHooked(site));
    assert NoGrants(env) ==> Strict(frames);
    assert FramesOk(env, frames);
    assert Strict(frames) ==> |frames| <= |env.origAddrs| by {
      if Strict(frames) {
        Pigeonhole(frames, env.origAddrs);
      }
    }
    var target := PushTarget(s.frames, addr, ListOf(w, hub), Enabled(w));
    (target, State(frames, s.now + 1, Max(s.peak, |frames|), s.trace + [target]))
  }

  /** A hooked function is called. */
  ghost function RunHooked(env: Env, hub: nat, site: nat, s: State): (r: State)
    requires Ready(env, s) && hub < |env.origAddrs|
    ensures Ready(env, r) && r.frames == s.frames
    decreases FRAME_MAX - |s.frames|, 0, env.ranks[hub], |env.origCode[hub]| + 1
  {
    var (target, s1) := Enter(env, hub, site, s);
    match target
    case Proxy(func) => RunProxy(env, func, AfterHooked(site), s1)
    case Original(_) => RunOriginal(env, hub, env.origCode[hub], s1)
  }

  /** A proxy runs to its end and pops. */
  ghost function RunProxy(env: Env, func: Addr, ra: ReturnAddress, s: State): (r: State)
    requires Ready(env, s) && Left(s.frames, func) > 0
    ensures Ready(env, r)
    ensures r.frames == if ra == Top(s.frames).returnAddress then s.frames[..|s.frames| - 1] else s.frames
    decreases FRAME_MAX - |s.frames|, Left(s.frames, func), 0, |env.proxyCode(func)| + 1
  {
    var s1 := RunBody(env, env.proxyCode(func), func, ra, s);
    s1.(frames := PopFrames(s1.frames, ra))
  }

  /** A grant, or its end, for the top frame. */
  ghost function Grant(env: Env, s: State, ra: ReturnAddress, allow: bool): (r: State)
    requires Ready(env, s) && s.frames != [] && (allow ==> !NoGrants(env))
    ensures Ready(env, r) && |r.frames| == |s.frames| && r.frames[..|s.frames| - 1] == s.frames[..|s.frames| - 1]
    ensures Top(r.frames) == Top(s.frames).(allowReentrant := Top(r.frames).allowReentrant)
    ensures ra != Top(s.frames).returnAddress ==> r.frames == s.frames
  {
    hide Ok;
    s.(frames := SetReentrant(s.frames, ra, allow))
  }

  /** The rest of a proxy's program. Only a grant for its own frame can be left behind on the stack. */
  ghost function RunBody(env: Env, code: seq<Action>, func: Addr, ra: ReturnAddress, s: State): (r: State)
    requires Ready(env, s) && CallsExist(env, code) && Left(s.frames, func) > 0
    requires NoGrants(env) ==> Allow !in code
    ensures Ready(env, r)
    ensures |r.frames| == |s.frames| && r.frames[..|s.frames| - 1] == s.frames[..|s.frames| - 1]
    ensures Top(r.frames) == Top(s.frames).(allowReentrant := Top(r.frames).allowReentrant)
    ensures ra != Top(s.frames).returnAddress ==> r.frames == s.frames
    decreases FRAME_MAX - |s.frames|, Left(s.frames, func), 0, |code|
  {
    if code == [] then s
    else
      var s1 :=
        match code[0]
        case CallHooked(hub, site) => RunHooked(env, hub, site, s)
        case CallPrev(site) => RunPrev(env, func, site, s, |code|)
        case Allow => Grant(env, s, ra, true)
        case Disallow => Grant(env, s, ra, false);
      RunBody(env, code[1..], func, ra, s1)
  }

  ghost function RunPrev(env: Env, func: Addr, site: nat, s: State, more: nat): (r: State)
    requires Ready(env, s) && Left(s.frames, func) > 0 && more > 0
    ensures Ready(env, r) && r.frames == s.frames
    decreases FRAME_MAX - |s.frames|, Left(s.frames, func), 0, more - 1
  {
    var target := PrevTarget(s.frames, func, Enabled(env.world(s.now)));
    var s1 := s.(now := s.now + 1, trace := s.trace + [target]);
    match target
    case Proxy(prev) => RunProxy(env, prev, AfterPrev(site), s1)
    case Original(addr) => RunOriginal(env, HubOf(env, addr), env.origCode[HubOf(env, addr)], s1)
  }

  /** The rest of an original function. */
  ghost function RunOriginal(env: Env, hub: nat, code: seq<Action>, s: State): (r: State)
    requires Ready(env, s) && hub < |env.origAddrs| && CallsDescend(env, code, env.ranks[hub])
    ensures Ready(env, r) && r.frames == s.frames
    decreases FRAME_MAX - |s.frames|, 0, env.ranks[hub], |code|
  {
    if code == [] then s
    else RunOriginal(env, hub, code[1..], RunHooked(env, code[0].hub, code[0].site, s))
  }

  /** A call of a hooked function always returns, with the thread's stack as it was. In between the stack stays
      inside its array, and when nobody grants reentry it holds at most one frame for each hub. */
  lemma HookedCallReturns(env: Env, hub: nat, site: nat, now: nat)
    requires Ok(env) && hub < |env.origAddrs|
    ensures var s := State([], now, 0, []);
            var r := RunHooked(env, hub, site, s);
            && r.frames == [] && r.peak <= FRAME_MAX
            && (NoGrants(env) ==> r.peak <= |env.origAddrs|)
  {
    assert Ready(env, State([], now, 0, []));
  }

  // Every proxy just calls the previous one, the originals are leaves and nobody touches the flags.
  ghost predicate PassThrough(env: Env, enabled: set<Node>) {
    && (forall f :: env.proxyCode(f) == [CallPrev(0)])
    && (forall code | code in env.origCode :: code == [])
    && (forall t :: Enabled(env.world(t)) == enabled)
  }

  /** The enabled functions of a list, in order, and then the original. */
  function Chain(proxies: seq<Node>, origAddr: Addr, enabled: set<Node>): seq<Target> {
    if proxies == [] then [Original(origAddr)]
    else (if proxies[0] in enabled then [Proxy(proxies[0].func)] else []) + Chain(proxies[1..], origAddr, enabled)
  }

  lemma {:induction false} ChainSkipsDisabled(proxies: seq<Node>, origAddr: Addr, enabled: set<Node>, from: nat)
    requires from <= |proxies|
    ensures var i := FirstEnabled(proxies, enabled, from);
            Chain(proxies[from..], origAddr, enabled)
            == if i == |proxies| then [Original(origAddr)]
               else [Proxy(proxies[i].func)] + Chain(proxies[i + 1..], origAddr, enabled)
    decreases |proxies| - from
  {
    if from < |proxies| {
      assert proxies[from..][1..] == proxies[from + 1..];
      if proxies[from] !in enabled {
        ChainSkipsDisabled(proxies, origAddr, enabled, from + 1);
      }
    }
  }

  lemma LeafReturns(env: Env, h: nat, s: State, enabled: set<Node>)
    requires Ready(env, s) && h < |env.origAddrs| && PassThrough(env, enabled)
    ensures CallsDescend(env, env.origCode[h], env.ranks[h]) && RunOriginal(env, h, env.origCode[h], s) == s
  {
    hide Bounded, FramesOk;
    assert env.origCode[h] in env.origCode;
  }

  /** A proxy that passes the call on does what the previous one does. */
  lemma ProxyPasses(env: Env, func: Addr, ra: ReturnAddress, s: State, enabled: set<Node>)
    requires Ready(env, s) && Left(s.frames, func) > 0 && PassThrough(env, enabled)
    ensures RunProxy(env, func, ra, s).trace == RunPrev(env, func, 0, s, 1).trace
  {
    hide Bounded, FramesOk, Left, RunPrev;
    var code := env.proxyCode(func);
    assert code == [CallPrev(0)] && code[1..] == [];
    assert CallsExist(env, code);
    assert RunBody(env, code, func, ra, s) == RunPrev(env, func, 0, s, 1);
  }

  /** One step along the list: the next enabled proxy, or the original. */
  lemma PrevStep(env: Env, func: Addr, s: State, enabled: set<Node>) returns (i: nat, s1: State)
    requires Ready(env, s) && Left(s.frames, func) > 0 && PassThrough(env, enabled)
    ensures var top := Top(s.frames);
            && i == FirstEnabled(top.proxies, enabled, IndexOf(top.proxies, func) + 1)
            && Ready(env, s1) && s1.frames == s.frames
            && (i == |top.proxies| ==> RunPrev(env, func, 0, s, 1).trace == s.trace + [Original(top.origAddr)])
            && (i < |top.proxies| ==>
                  && IndexOf(top.proxies, top.proxies[i].func) == i
                  && s1.trace == s.trace + [Proxy(top.proxies[i].func)]
                  && RunPrev(env, func, 0, s, 1) == RunProxy(env, top.proxies[i].func, AfterPrev(0), s1))
  {
    hide RunProxy, RunOriginal, Bounded, Ok;
    var top := Top(s.frames);
    i := FirstEnabled(top.proxies, enabled, IndexOf(top.proxies, func) + 1);
    s1 := s.(now := s.now + 1, trace := s.trace + [PrevTarget(s.frames, func, enabled)]);
    TimePasses(env, s, s1);
    if i < |top.proxies| {
      OwnIndex(top.proxies, i);
    } else {
      LeafReturns(env, HubOf(env, top.origAddr), s1, enabled);
    }
  }

  lemma {:induction false} PrevChain(env: Env, func: Addr, ra: ReturnAddress, s: State, enabled: set<Node>)
    requires Ready(env, s) && Left(s.frames, func) > 0 && PassThrough(env, enabled)
    ensures var top := Top(s.frames);
            RunProxy(env, func, ra, s).trace
            == s.trace + Chain(top.proxies[IndexOf(top.proxies, func) + 1..], top.origAddr, enabled)
    decreases Left(s.frames, func)
  {
    hide *;
    InList(s.frames, func);
    var top := Top(s.frames);
    var at := IndexOf(top.proxies, func);
    ProxyPasses(env, func, ra, s, enabled);
    ChainSkipsDisabled(top.proxies, top.origAddr, enabled, at + 1);
    var i, s1 := PrevStep(env, func, s, enabled);
    if i < |top.proxies| {
      var prev := top.proxies[i].func;
      InList(s1.frames, prev);
      PrevChain(env, prev, AfterPrev(0), s1, enabled);
      var rest := Chain(top.proxies[i + 1..], top.origAddr, enabled);
      assert s.trace + [Proxy(prev)] + rest == s.trace + ([Proxy(prev)] + rest);
    }
  }

  lemma InList(frames: seq<Frame>, func: Addr)
    ensures Left(frames, func) > 0 ==> frames != []
    ensures frames != [] ==> Left(frames, func) == |Top(frames).proxies| - IndexOf(Top(frames).proxies, func)
  {
  }

  lemma TimePasses(env: Env, s: State, later: State)
    requires Ready(env, s) && later.frames == s.frames && later.peak == s.peak
    ensures Ready(env, later)
  {
    hide Ok, FramesOk;
  }

  lemma OwnIndex(proxies: seq<Node>, i: nat)
    requires DistinctFuncs(proxies) && i < |proxies|
    ensures IndexOf(proxies, proxies[i].func) == i
  {
  }

  /** When every proxy passes the call on, a hooked function runs each enabled proxy once, newest first, and ends
      in the original. */
  lemma HookedCallVisitsAll(env: Env, hub: nat, site: nat, now: nat, enabled: set<Node>)
    requires Ok(env) && hub < |env.origAddrs| && PassThrough(env, enabled)
    ensures RunHooked(env, hub, site, State([], now, 0, [])).trace
            == Chain(ListOf(env.world(now), hub), env.origAddrs[hub], enabled)
  {
    hide RunProxy, RunOriginal, Chain;
    var s := State([], now, 0, []);
    assert Ready(env, s);
    var proxies := ListOf(env.world(now), hub);
    ChainSkipsDisabled(proxies, env.origAddrs[hub], enabled, 0);
    assert proxies[0..] == proxies;
    var i := FirstEnabled(proxies, enabled, 0);
    var (target, s1) := Enter(env, hub, site, s);
    if i < |proxies| {
      OwnIndex(proxies, i);
      PrevChain(env, proxies[i].func, AfterHooked(site), s1, enabled);
    } else {
      LeafReturns(env, hub, s1, enabled);
    }
  }
}
