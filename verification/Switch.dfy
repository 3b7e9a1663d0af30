/** The switch of one target (sh_switch.c): hooks in unique, multi and shared mode, and interceptors.

    A method is one whole operation: it finds the switch (creating it if need be), takes its lock, runs the body and
    releases the lock. Every store that a running thread can see is recorded in `log`. */
module Switch {
  import opened SwitchChain
  import Hub

  // SHADOWHOOK_ERRNO_*; INST_FAILED stands for the errors of sh_inst_hook and sh_inst_rehook.
  datatype Errno =
    | OK
    | HOOK_DUP | HOOK_MULTI_DUP | HOOK_UNIQUE_DUP
    | MODE_CONFLICT
    | UNHOOK_NOTFOUND
    | INTERCEPT_DUP
    | INST_FAILED
    | NULL_HUB  // no error code: sh_switch_proxy_del passes on a hub that is NULL

  // SH_SWITCH_HOOK_MODE_*
  datatype HookMode = NONE | UNIQUE | QUEUE

  // A flag word is the set of its one bits: OR is union.
  type Flags = set<nat>

  datatype Interceptor = Interceptor(pre: nat, data: nat, flags: Flags, enabled: bool)

  function EnabledSize(list: seq<Interceptor>): nat {
    if list == [] then 0
    else EnabledSize(list[..|list| - 1]) + if list[|list| - 1].enabled then 1 else 0
  }

  function FlagsOf(i: Interceptor): Flags {
    if i.enabled then i.flags else {}
  }

  /** The flags of the enabled interceptors. */
  function FlagsUnion(list: seq<Interceptor>): Flags {
    if list == [] then {} else FlagsUnion(list[..|list| - 1]) + FlagsOf(list[|list| - 1])
  }

  predicate Is(i: Interceptor, pre: nat, data: nat) {
    i.pre == pre && i.data == data
  }

  predicate IsEnabled(list: seq<Interceptor>, pre: nat, data: nat) {
    exists i: nat :: i < |list| && list[i].enabled && Is(list[i], pre, data)
  }

  /** No interceptor is listed twice, enabled or not. */
  predicate ListedOnce(list: seq<Interceptor>) {
    forall i, j | 0 <= i < j < |list| :: !Is(list[i], list[j].pre, list[j].data)
  }

  lemma {:induction false} EnabledAt(list: seq<Interceptor>, i: nat, flags: Flags)
    requires i < |list| && !list[i].enabled
    ensures var after := list[i := list[i].(flags := flags, enabled := true)];
            EnabledSize(after) == EnabledSize(list) + 1 && FlagsUnion(after) == FlagsUnion(list) + flags
    decreases |list|
  {
    var after := list[i := list[i].(flags := flags, enabled := true)];
    var last := |list| - 1;
    var front := FlagsUnion(list[..last]);
    if i < last {
      EnabledAt(list[..last], i, flags);
      assert after[..last] == list[..last][i := after[i]];
    } else {
      assert after[..last] == list[..last];
    }
  }

  lemma {:induction false} DisabledAt(list: seq<Interceptor>, i: nat)
    requires i < |list| && list[i].enabled
    ensures EnabledSize(list[i := list[i].(enabled := false)]) == EnabledSize(list) - 1
    decreases |list|
  {
    var after := list[i := list[i].(enabled := false)];
    var last := |list| - 1;
    if i < last {
      DisabledAt(list[..last], i);
      assert after[..last] == list[..last][i := after[i]];
    } else {
      assert after[..last] == list[..last];
    }
  }

  lemma {:induction false} PutInFront(p: Interceptor, list: seq<Interceptor>)
    requires p.enabled
    ensures EnabledSize([p] + list) == EnabledSize(list) + 1 && FlagsUnion([p] + list) == FlagsUnion(list) + p.flags
    decreases |list|
  {
    var last := |list| - 1;
    if list == [] {
      assert [p] + list == [p] && [p][..0] == [];
    } else {
      PutInFront(p, list[..last]);
      assert ([p] + list)[..last + 1] == [p] + list[..last];
    }
  }

  /** The queue after a proxy was added: a shared one only brings in the hub. */
  function Added(queue: seq<Addr>, f: Addr, shared: bool): seq<Addr> {
    if !shared then queue + [f] else if Trampo in queue then queue else queue + [Trampo]
  }

  /** What a caller of the library asks of one target; `enter` is what sh_inst_hook makes, Null if it fails. */
  datatype Op =
    | HookInUnique(f: Addr, enter: Addr)
    | HookInQueue(f: Addr, shared: bool, enter: Addr)
    | UnhookInUnique
    | UnhookInQueue(f: Addr, shared: bool, patches: bool)
    | AddInterceptor(pre: nat, data: nat, flags: Flags, enter: Addr)
    | DelInterceptor(pre: nat, data: nat)
  {
    predicate Ok() {
      && (HookInUnique? || HookInQueue? || UnhookInQueue? ==> f.Func?)
      && (HookInUnique? || HookInQueue? || AddInterceptor? ==> enter.Enter? || enter.Null?)
      && (UnhookInQueue? && shared ==> patches)
    }

    // A shared hook that was made.
    predicate Shares(r: Errno) {
      HookInQueue? && shared && r == OK
    }
  }

  /** Whether there is a hub after some calls: a shared hook was made, and from then on the target was hooked. */
  predicate HasHub(start: bool, ops: seq<Op>, rs: seq<Errno>, hooked: seq<bool>)
    requires |ops| == |rs| == |hooked|
  {
    if ops == [] then start
    else
      var last := |ops| - 1;
      hooked[last] && (HasHub(start, ops[..last], rs[..last], hooked[..last]) || ops[last].Shares(rs[last]))
  }

  /** The switch of one target. When it is not hooked it is as sh_switch_create leaves it. */
  class Switch {
    var interceptFlagsUnion: Flags
    var hookMode: HookMode
    var startAddr: Addr
    var proxyAddr: Addr
    var resumeAddr: Addr
    var hub: Hub.SharedHub?
    var proxies: seq<Addr>  // the new_addr of each queued proxy
    var glueLauncherAddr: Addr
    var interceptors: seq<Interceptor>
    var interceptorsSize: nat
    var cells: map<Addr, Addr>  // *orig_addr of each proxy, and the hub's own orig_addr under Trampo
    ghost var stamps: map<Addr, nat>
    ghost var clock: nat
    ghost var log: seq<Runtime>

    ghost function Now(): Runtime
      reads this`startAddr, this`proxyAddr, this`resumeAddr, this`cells
    {
      Runtime(startAddr, proxyAddr, resumeAddr, cells)
    }

    ghost function HubFuncs(): set<Hub.Addr>
      reads this`hub, hub
    {
      if hub == null then {} else Hub.EnabledFuncs(hub.proxies)
    }

    /** The proxies a call goes through, in order. */
    ghost function Visible(): seq<Addr>
      reads this`hookMode, this`proxyAddr, this`proxies
    {
      if hookMode.UNIQUE? then [proxyAddr] else proxies
    }

    /** The hub is queued exactly while it has an enabled proxy, and no function is in both places. */
    ghost predicate HubOk()
      reads this`hub, this`proxies, hub
    {
      && (hub != null ==> hub.Valid())
      && (Trampo in proxies <==> HubFuncs() != {})
      && (forall id | id in HubFuncs() :: Func(id) !in proxies)
    }

    ghost predicate InterceptorsOk()
      reads this`interceptors, this`interceptorsSize, this`interceptFlagsUnion, this`glueLauncherAddr
    {
      && interceptorsSize == EnabledSize(interceptors)
      && interceptFlagsUnion == FlagsUnion(interceptors)
      && ListedOnce(interceptors)
      && (interceptorsSize > 0 ==> glueLauncherAddr == Launcher)
      && glueLauncherAddr in {Null, Launcher}
    }

    ghost predicate ModeOk()
      reads this`hookMode, this`proxies, this`proxyAddr, this`cells, this`resumeAddr
    {
      match hookMode
      case NONE => proxies == [] && proxyAddr == Null
      case UNIQUE => proxies == [] && proxyAddr.Func? && proxyAddr in cells && cells[proxyAddr] == resumeAddr
      case QUEUE => proxies != [] && proxyAddr == proxies[0]
    }

    ghost predicate Hooked()
      reads this`hookMode, this`interceptorsSize
    {
      hookMode != NONE || interceptorsSize > 0
    }

    /** The target leads to the glue launcher exactly while there are interceptors, and otherwise to the first proxy. */
    ghost predicate StartOk()
      reads this`startAddr, this`interceptorsSize, this`proxyAddr, this`hookMode, this`resumeAddr
    {
      && startAddr == (if interceptorsSize > 0 then Launcher else proxyAddr)
      && (Hooked() ==> resumeAddr.Enter?)
    }

    ghost predicate Blank()
      reads this
    {
      && interceptFlagsUnion == {} && hookMode == NONE && startAddr == Null && proxyAddr == Null && resumeAddr == Null
      && hub == null && proxies == [] && glueLauncherAddr == Null && interceptors == [] && interceptorsSize == 0
      && cells == map[] && stamps == map[]
    }

    ghost predicate Valid()
      reads this, hub
    {
      && QueueOk() && HubOk() && InterceptorsOk() && ModeOk() && StartOk()
      && (!Hooked() ==> Blank())
    }

    constructor ()
      ensures Valid() && Blank() && log == []
    {
      interceptFlagsUnion, hookMode, startAddr, proxyAddr, resumeAddr := {}, NONE, Null, Null, Null;
      hub, proxies, glueLauncherAddr, interceptors, interceptorsSize, cells := null, [], Null, [], 0, map[];
      stamps, clock, log := map[], 0, [];
    }

    // The two walks over the proxy queue that look for a duplicate.
    method FindDuplicate(f: Addr) returns (r: Errno, hubInQueue: bool)
      requires f.Func? && HubOk()
      ensures hubInQueue == (Trampo in proxies) || r != OK
      ensures r == if f.id in HubFuncs() then HOOK_DUP else if f in proxies then HOOK_MULTI_DUP else OK
    {
      hubInQueue := false;
      var i := 0;
      while i < |proxies|
        invariant 0 <= i <= |proxies|
        invariant f !in proxies[..i]
        invariant hubInQueue == (Trampo in proxies[..i])
        invariant hubInQueue ==> f.id !in HubFuncs()
      {
        if hub != null && proxies[i] == Trampo {
          hubInQueue := true;
          var dup := hub.IsProxyDuplicated(f.id);
          if dup {
            return HOOK_DUP, hubInQueue;
          }
        } else if proxies[i] == f {
          return HOOK_MULTI_DUP, hubInQueue;
        }
        i := i + 1;
      }
      return OK, hubInQueue;
    }

    /** What the queue operations rely on and keep, hooked or not. */
    ghost predicate QueueOk()
      reads this`proxies, this`cells, this`stamps, this`clock, this`resumeAddr, this`hookMode, this`proxyAddr
    {
      && Distinct(proxies) && Linked(cells, proxies, resumeAddr)
      && Ordered(cells, stamps, resumeAddr) && StampsBelow(stamps, clock)
      && (forall f | f in cells :: f.Func? || f.Trampo?) && (forall f | f in proxies :: f.Func? || f.Trampo?)
      && (resumeAddr.Enter? || resumeAddr.Null?)
      && (proxies != [] ==> hookMode == QUEUE && proxyAddr == proxies[0])
    }

    /** A thread that enters a hooked target meets the head of the queue. */
    ghost predicate Enterable()
      reads this`startAddr, this`proxyAddr, this`resumeAddr, this`cells, this`proxies
    {
      && (startAddr != Null ==> resumeAddr.Enter? && FirstHop(Now()) == Head(proxies, resumeAddr))
      && (proxies == [] ==> startAddr in {Null, Launcher})
    }

    /** Every store since `from` left running threads with one of the two queues. */
    ghost predicate Logged(from: nat, before: seq<Addr>, after: seq<Addr>)
      reads this`log
    {
      forall k | from <= k < |log| :: Sound(log[k], before, after)
    }

    /** *orig_addr = resume_addr, for a proxy that is not queued. */
    method SetCell(f: Addr, ghost after: seq<Addr>)
      requires QueueOk() && f !in proxies && (f.Func? || f.Trampo?)
      modifies this`cells, this`stamps, this`clock, this`log
      ensures QueueOk() && (old(Enterable()) ==> Enterable())
      ensures cells == old(cells)[f := resumeAddr] && stamps == old(stamps)[f := old(clock)] && clock == old(clock) + 1
      ensures old(log) <= log && (old(Enterable()) ==> Logged(|old(log)|, proxies, after))
    {
      NewCell(cells, proxies, resumeAddr, f, stamps, clock);
      cells := cells[f := resumeAddr];
      stamps, clock := stamps[f := clock], clock + 1;
      if Enterable() {
        ShowSound(Now(), proxies, stamps, clock, proxies, after);
      }
      log := log + [Now()];
    }

    /** The link that makes a new entry visible behind others. */
    method LinkBehind(f: Addr)
      requires QueueOk() && proxies != [] && f !in proxies
      requires f in cells && cells[f] == resumeAddr && f in stamps && forall g | g in stamps && g != f :: stamps[g] < stamps[f]
      modifies this`cells, this`log, this`proxies
      ensures QueueOk() && (old(Enterable()) ==> Enterable()) && proxies == old(proxies) + [f]
      ensures old(log) <= log && (old(Enterable()) ==> Logged(|old(log)|, old(proxies), proxies))
    {
      hide Linked, Ordered, Distinct, Sound;
      ghost var before := proxies;
      DistinctWith(before, f);
      TailLinked(cells, before, resumeAddr, f, stamps, stamps[f]);
      proxies := proxies + [f];
      cells := cells[proxies[|proxies| - 2] := f];
      if Enterable() {
        ShowSound(Now(), proxies, stamps, clock, before, proxies);
      }
      log := log + [Now()];
    }

    /** The same for the first entry. */
    method LinkFirst(f: Addr)
      requires QueueOk() && proxies == []
      requires f in cells && cells[f] == resumeAddr
      modifies this`log, this`proxies, this`hookMode, this`proxyAddr
      ensures QueueOk() && (old(Enterable()) ==> Enterable()) && proxies == [f] && proxyAddr == f
      ensures old(log) <= log && (old(Enterable()) ==> Logged(|old(log)|, [], proxies))
    {
      hide Linked, Ordered, Sound;
      OnlyOne(cells, resumeAddr, f);
      proxies := proxies + [f];
      assert proxies == [f];
      hookMode := QUEUE;
      proxyAddr := f;
      if Enterable() {
        ShowSound(Now(), proxies, stamps, clock, [], proxies);
      }
      log := log + [Now()];
    }

    /** The end of sh_switch_proxy_add: the new entry's cell, and then the link. */
    method Enqueue(f: Addr)
      requires QueueOk() && f !in proxies && (f.Func? || f.Trampo?)
      modifies this`cells, this`stamps, this`clock, this`log, this`proxies, this`hookMode, this`proxyAddr
      ensures QueueOk() && (old(Enterable()) ==> Enterable()) && proxies == old(proxies) + [f]
      ensures old(proxies) == [] ==> cells == old(cells)[f := resumeAddr] && hookMode == QUEUE
      ensures old(log) <= log && (old(Enterable()) ==> Logged(|old(log)|, old(proxies), proxies))
    {
      hide Linked, Ordered, Distinct, Sound, Enterable;
      SetCell(f, proxies + [f]);
      if proxies != [] {
        LinkBehind(f);
      } else {
        LinkFirst(f);
      }
    }

    /** Create the hub if there is none, and add the proxy to it. */
    method HubAdd(id: Hub.Addr)
      requires (hub != null ==> hub.Valid()) && id !in HubFuncs()
      modifies this`hub, hub
      ensures hub != null && hub.Valid() && HubFuncs() == old(HubFuncs()) + {id}
      ensures hub == old(hub) || (old(hub) == null && fresh(hub))
    {
      if hub == null {
        hub := new Hub.SharedHub();
      }
      var _ := hub.AddProxy(id);
    }

    /** A shared proxy goes into the hub, and the hub into the queue if it is not there yet. */
    method AddShared(f: Addr, hubInQueue: bool)
      requires f.Func? && QueueOk() && HubOk() && hubInQueue == (Trampo in proxies)
      requires f.id !in HubFuncs() && f !in proxies
      modifies this`cells, this`stamps, this`clock, this`log, this`proxies, this`hookMode, this`proxyAddr, this`hub, hub
      ensures QueueOk() && (old(Enterable()) ==> Enterable()) && HubOk() && proxies != []
      ensures proxies == if hubInQueue then old(proxies) else old(proxies) + [Trampo]
      ensures HubFuncs() == old(HubFuncs()) + {f.id}
      ensures hub == old(hub) || (old(hub) == null && fresh(hub))
      ensures old(log) <= log && (old(Enterable()) ==> Logged(|old(log)|, old(proxies), proxies))
    {
      hide QueueOk, Enterable, Sound, Hub.EnabledFuncs, Hub.NoDuplicates, Hub.EnabledCount, Hub.Funcs;
      HubAdd(f.id);
      SetCell(f, if hubInQueue then proxies else proxies + [Trampo]);
      if !hubInQueue {
        Enqueue(Trampo);
      }
    }

    /** sh_switch_proxy_add. What it promises to running threads it promises if the target leads to the queue. */
    method ProxyAdd(f: Addr, addToHub: bool) returns (r: Errno)
      requires f.Func? && QueueOk() && HubOk()
      modifies this`cells, this`stamps, this`clock, this`log, this`proxies, this`hookMode, this`proxyAddr, this`hub, hub
      ensures QueueOk() && (old(Enterable()) ==> Enterable()) && HubOk()
      ensures r == if f.id in old(HubFuncs()) then HOOK_DUP else if f in old(proxies) then HOOK_MULTI_DUP else OK
      ensures r == OK ==> proxies == Added(old(proxies), f, addToHub) && proxies != []
                          && HubFuncs() == if addToHub then old(HubFuncs()) + {f.id} else old(HubFuncs())
      ensures r == OK && !addToHub && old(proxies) == [] ==> cells == old(cells)[f := resumeAddr] && hookMode == QUEUE
      ensures r != OK ==> proxies == old(proxies) && HubFuncs() == old(HubFuncs()) && cells == old(cells)
                          && hookMode == old(hookMode) && proxyAddr == old(proxyAddr) && hub == old(hub)
      ensures hub == old(hub) || (addToHub && old(hub) == null && fresh(hub))
      ensures old(log) <= log && (old(Enterable()) ==> Logged(|old(log)|, old(proxies), proxies))
    {
      hide QueueOk, Enterable, Sound, Hub.EnabledFuncs, Hub.NoDuplicates, Hub.EnabledCount, Hub.Funcs;
      var hubInQueue;
      r, hubInQueue := FindDuplicate(f);
      if r == OK {
        if addToHub {
          AddShared(f, hubInQueue);
        } else {
          Enqueue(f);
        }
      }
    }

    method FindEntry(f: Addr) returns (i: nat)
      ensures i <= |proxies| && f !in proxies[..i]
      ensures i < |proxies| ==> proxies[i] == f
      ensures i == |proxies| ==> f !in proxies
    {
      i := 0;
      while i < |proxies| && proxies[i] != f
        invariant 0 <= i <= |proxies| && f !in proxies[..i]
      {
        i := i + 1;
      }
    }

    /** The target is patched, the queue is not empty, and a thread that enters meets its head. */
    ghost predicate Running()
      reads this`startAddr, this`proxyAddr, this`resumeAddr, this`cells, this`proxies
    {
      && proxies != [] && resumeAddr.Enter? && Enterable() && proxyAddr == proxies[0]
      && startAddr in {Launcher, proxies[0]}
    }

    /** Unlink an entry that has another one in front. */
    method RemoveBehind(i: nat)
      requires QueueOk() && Running() && 0 < i < |proxies|
      modifies this`cells, this`log, this`proxies
      ensures QueueOk() && Running() && proxies == old(Without(proxies, i))
      ensures old(log) <= log && Logged(|old(log)|, old(proxies), proxies)
    {
      hide Linked, Ordered, Distinct, Sound;
      ghost var before := proxies;
      Unlinked(cells, proxies, resumeAddr, i);
      LinkedAt(cells, proxies, resumeAddr, i - 1);
      LinkedAt(cells, proxies, resumeAddr, i);
      SkippedInOrder(cells, stamps, resumeAddr, proxies[i - 1], proxies[i]);
      WithoutIsDistinct(proxies, i);
      if i + 1 < |proxies| {
        cells := cells[proxies[i - 1] := proxies[i + 1]];
      } else {
        cells := cells[proxies[i - 1] := resumeAddr];
      }
      proxies := proxies[..i] + proxies[i + 1..];
      ShowSound(Now(), proxies, stamps, clock, before, proxies);
      log := log + [Now()];
    }

    /** Drop the head when another entry follows: the target is patched again if it led to the head itself. */
    method RemoveHead(patches: bool) returns (ok: bool)
      requires QueueOk() && Running() && |proxies| > 1
      modifies this`startAddr, this`proxyAddr, this`log, this`proxies
      ensures ok == (patches || old(startAddr) == Launcher)
      ensures QueueOk() && Running() && proxies == if ok then old(proxies[1..]) else old(proxies)
      ensures startAddr == Launcher <==> old(startAddr) == Launcher
      ensures old(log) <= log && Logged(|old(log)|, old(proxies), proxies)
    {
      hide Linked, Ordered, Distinct, Sound, Removed;
      ghost var before, after := proxies, proxies[1..];
      HeadDropped(cells, proxies, resumeAddr);
      TailIsDistinct(proxies);
      assert proxies[0] in proxies && proxies[1] in proxies;
      assert proxies[0] != Launcher && proxies[1] != Launcher;
      if proxyAddr == startAddr {
        if !patches {
          return false;
        }
        startAddr := proxies[1];
        ShowSound(Now(), after, stamps, clock, before, after);
        log := log + [Now()];
      }
      proxyAddr := proxies[1];
      ShowSound(Now(), after, stamps, clock, before, after);
      log := log + [Now()];
      proxies := proxies[1..];
      return true;
    }

    /** Drop the only entry. Without interceptors the target still leads to it until it is unpatched. */
    method RemoveLast()
      requires QueueOk() && Running() && |proxies| == 1
      modifies this`hookMode, this`proxyAddr, this`log, this`proxies
      ensures QueueOk() && proxies == [] && hookMode == NONE && proxyAddr == Null
      ensures startAddr == Launcher ==> Enterable()
      ensures old(log) <= log && Logged(|old(log)|, old(proxies), [])
    {
      hide Linked, Ordered, Sound;
      ghost var before := proxies;
      HeadDropped(cells, proxies, resumeAddr);
      hookMode := NONE;
      proxyAddr := Null;
      proxies := [];
      assert before[1..] == [];
      if startAddr == Launcher {
        ShowSound(Now(), [], stamps, clock, before, []);
      } else {
        ShowSound(Now(), before, stamps, clock, before, []);
      }
      log := log + [Now()];
    }

    /** The target leads to the head itself, others follow, and it cannot be patched again. */
    ghost predicate Stuck(i: nat, patches: bool)
      reads this`proxies, this`startAddr
    {
      i == 0 && |proxies| > 1 && startAddr != Launcher && !patches
    }

    /** Unlink entry i, wherever it is. */
    method Unqueue(i: nat, patches: bool) returns (ok: bool)
      requires QueueOk() && Running() && i < |proxies|
      modifies this`cells, this`log, this`proxies, this`startAddr, this`proxyAddr, this`hookMode
      ensures ok == !old(Stuck(i, patches))
      ensures QueueOk() && proxies == if ok then old(Without(proxies, i)) else old(proxies)
      ensures if proxies != [] then Running() && hookMode == old(hookMode) else hookMode == NONE && proxyAddr == Null
      ensures startAddr == Launcher ==> Enterable()
      ensures startAddr == Launcher <==> old(startAddr) == Launcher
      ensures old(log) <= log && Logged(|old(log)|, old(proxies), proxies)
    {
      hide QueueOk, Sound, Distinct;
      ok := true;
      if i > 0 {
        RemoveBehind(i);
      } else if |proxies| > 1 {
        ok := RemoveHead(patches);
      } else {
        RemoveLast();
      }
    }

    ghost predicate StuckAt(f: Addr, patches: bool)
      reads this`proxies, this`startAddr
    {
      proxies != [] && proxies[0] == f && Stuck(0, patches)
    }

    /** Find the entry of `f` and unlink it. */
    method UnqueueAddr(f: Addr, patches: bool) returns (r: Errno)
      requires QueueOk() && Running()
      modifies this`cells, this`log, this`proxies, this`startAddr, this`proxyAddr, this`hookMode
      ensures r == if f !in old(proxies) then UNHOOK_NOTFOUND else if old(StuckAt(f, patches)) then INST_FAILED else OK
      ensures QueueOk() && proxies == if r == OK then Removed(old(proxies), f) else old(proxies)
      ensures r == OK ==> forall g :: g in proxies <==> g in old(proxies) && g != f
      ensures if proxies != [] then Running() && hookMode == old(hookMode) else hookMode == NONE && proxyAddr == Null
      ensures startAddr == Launcher ==> Enterable()
      ensures startAddr == Launcher <==> old(startAddr) == Launcher
      ensures old(log) <= log && Logged(|old(log)|, old(proxies), proxies)
    {
      QueueIsDistinct();
      hide QueueOk, Sound, Distinct;
      var i := FindEntry(f);
      if i == |proxies| {
        return UNHOOK_NOTFOUND;
      }
      WithoutIsDistinct(proxies, i);
      RemovedIsWithout(proxies, f, i);
      var ok := Unqueue(i, patches);
      return if ok then OK else INST_FAILED;
    }

    /** The entry that goes with `f` is at the head, and the target cannot be led to the next one. */
    ghost predicate DelFails(f: Addr, delFromHub: bool, patches: bool)
      requires f.Func?
      reads this`hub, this`proxies, this`startAddr, hub
    {
      if delFromHub then HubFuncs() == {f.id} && StuckAt(Trampo, patches) else StuckAt(f, patches)
    }

    /** sh_switch_proxy_del. A shared proxy leaves the queue alone while its hub has others. If the target has to be patched
        again and cannot be, the entry stays; but its last shared proxy is gone from the hub by then. */
    method ProxyDel(f: Addr, delFromHub: bool, patches: bool) returns (r: Errno)
      requires f.Func? && QueueOk() && Running() && HubOk() && (delFromHub ==> hub != null)
      modifies this`cells, this`log, this`proxies, this`startAddr, this`proxyAddr, this`hookMode, hub
      ensures QueueOk() && (HubOk() <==> !(delFromHub && r == INST_FAILED))
      ensures r == if !(if delFromHub then f.id in old(HubFuncs()) else f in old(proxies)) then UNHOOK_NOTFOUND
                   else if old(DelFails(f, delFromHub, patches)) then INST_FAILED
                   else OK
      ensures HubFuncs() == if delFromHub then old(HubFuncs()) - {f.id} else old(HubFuncs())
      ensures proxies == if r != OK then old(proxies)
                         else if !delFromHub then Removed(old(proxies), f)
                         else if HubFuncs() == {} then Removed(old(proxies), Trampo)
                         else old(proxies)
      ensures if proxies != [] then Running() && hookMode == old(hookMode) else hookMode == NONE && proxyAddr == Null
      ensures startAddr == Launcher ==> Enterable()
      ensures startAddr == Launcher <==> old(startAddr) == Launcher
      ensures old(log) <= log && Logged(|old(log)|, old(proxies), proxies)
    {
      hide QueueOk, Sound, Linked, Hub.EnabledFuncs, Hub.NoDuplicates, Hub.EnabledCount, Hub.Funcs, Removed;
      QueueIsDistinct();
      var entry := f;
      if delFromHub {
        var deleted := hub.DelProxy(f.id);
        if deleted == Hub.UNHOOK_NOTFOUND {
          return UNHOOK_NOTFOUND;
        }
        CountIsZero(hub.proxies);
        OnlyProxy(old(HubFuncs()), f.id);
        if hub.proxiesSize > 0 {
          return OK;
        }
        entry := Trampo;
      }
      r := UnqueueAddr(entry, patches);
    }

    /** sh_switch_interceptor_add: refuse a second registration, revive an old entry, or put a new one in front. */
    method InterceptorAdd(pre: nat, data: nat, flags: Flags) returns (r: Errno)
      requires interceptorsSize == EnabledSize(interceptors) && interceptFlagsUnion == FlagsUnion(interceptors)
      requires ListedOnce(interceptors)
      modifies this`interceptors, this`interceptorsSize, this`interceptFlagsUnion
      ensures r == if IsEnabled(old(interceptors), pre, data) then INTERCEPT_DUP else OK
      ensures r == OK ==>
                && interceptorsSize == old(interceptorsSize) + 1
                && interceptFlagsUnion == old(interceptFlagsUnion) + flags
                && IsEnabled(interceptors, pre, data)
                && (forall p, d | p != pre || d != data ::
                      IsEnabled(interceptors, p, d) <==> IsEnabled(old(interceptors), p, d))
      ensures r != OK ==> interceptors == old(interceptors) && interceptorsSize == old(interceptorsSize)
                          && interceptFlagsUnion == old(interceptFlagsUnion)
      ensures interceptorsSize == EnabledSize(interceptors) && interceptFlagsUnion == FlagsUnion(interceptors)
      ensures ListedOnce(interceptors)
    {
      hide FlagsUnion, EnabledSize;
      var i := 0;
      while i < |interceptors|
        invariant 0 <= i <= |interceptors|
        invariant forall k | 0 <= k < i :: !(interceptors[k].enabled && Is(interceptors[k], pre, data))
      {
        if Is(interceptors[i], pre, data) && interceptors[i].enabled {
          return INTERCEPT_DUP;
        }
        i := i + 1;
      }
      i := 0;
      while i < |interceptors|
        invariant 0 <= i <= |interceptors|
        invariant forall k | 0 <= k < i :: !Is(interceptors[k], pre, data)
      {
        if Is(interceptors[i], pre, data) && !interceptors[i].enabled {
          EnabledAt(interceptors, i, flags);
          interceptors := interceptors[i := interceptors[i].(flags := flags, enabled := true)];
          interceptFlagsUnion := interceptFlagsUnion + flags;
          interceptorsSize := interceptorsSize + 1;
          SameOthers(old(interceptors), interceptors, i, pre, data);
          return OK;
        }
        i := i + 1;
      }
      PutInFront(Interceptor(pre, data, flags, true), interceptors);
      interceptFlagsUnion := interceptFlagsUnion + flags;
      interceptorsSize := interceptorsSize + 1;
      interceptors := [Interceptor(pre, data, flags, true)] + interceptors;
      SameOthersInFront(old(interceptors), Interceptor(pre, data, flags, true));
      return OK;
    }

    /** sh_switch_interceptor_del: the union is collected again from what stays enabled. */
    method InterceptorDel(pre: nat, data: nat) returns (r: Errno)
      requires interceptorsSize == EnabledSize(interceptors) && interceptFlagsUnion == FlagsUnion(interceptors)
      requires ListedOnce(interceptors)
      modifies this`interceptors, this`interceptorsSize, this`interceptFlagsUnion
      ensures r == if IsEnabled(old(interceptors), pre, data) then OK else UNHOOK_NOTFOUND
      ensures r == OK ==> interceptorsSize == old(interceptorsSize) - 1
      ensures r != OK ==> interceptors == old(interceptors) && interceptorsSize == old(interceptorsSize)
      ensures forall p, d :: IsEnabled(interceptors, p, d)
                             <==> IsEnabled(old(interceptors), p, d) && (p != pre || d != data)
      ensures interceptorsSize == EnabledSize(interceptors) && interceptFlagsUnion == FlagsUnion(interceptors)
      ensures ListedOnce(interceptors)
    {
      hide FlagsUnion, EnabledSize, ListedOnce, IsEnabled, Is;
      ghost var before := interceptors;
      r := UNHOOK_NOTFOUND;
      var union: Flags := {};
      ghost var at: nat := |interceptors|;
      var i := 0;
      NoFlags();
      while i < |interceptors|
        invariant 0 <= i <= |interceptors| == |before|
        invariant union == FlagsUnion(interceptors[..i])
        invariant interceptorsSize == EnabledSize(interceptors)
        invariant r == OK || (r == UNHOOK_NOTFOUND && at == |before|)
        invariant r == OK ==> at < i && before[at].enabled && Is(before[at], pre, data)
                              && interceptors == before[at := before[at].(enabled := false)]
                              && interceptorsSize == old(interceptorsSize) - 1
        invariant r != OK ==> interceptors == before && interceptorsSize == old(interceptorsSize)
        invariant r != OK ==> forall k | 0 <= k < i :: !(before[k].enabled && Is(before[k], pre, data))
        invariant interceptFlagsUnion == old(interceptFlagsUnion)
      {
        FlagsOfPrefix(interceptors, i);
        if interceptors[i].enabled {
          if Is(interceptors[i], pre, data) {
            if r == OK {
              ListedTwice(before, at, i, pre, data);
            }
            DisabledAt(interceptors, i);
            interceptorsSize := interceptorsSize - 1;
            interceptors := interceptors[i := interceptors[i].(enabled := false)];
            at := i;
            assert interceptors[..i] == before[..i];
            FlagsOfPrefix(interceptors, i);
            r := OK;
          } else {
            union := union + interceptors[i].flags;
          }
        }
        i := i + 1;
      }
      assert interceptors[..|interceptors|] == interceptors;
      if r == OK {
        interceptFlagsUnion := union;
        OthersStay(before, interceptors, at, pre, data);
      } else {
        NotListed(before, pre, data);
      }
    }

    /** Unpatch the target and give everything up: sh_switch_inst_unhook, sh_switch_remove_and_destroy. */
    method Destroy()
      modifies this
      ensures Valid() && Blank() && Unseen(|old(log)|) && old(log) <= log
    {
      hide Valid, Blank;
      startAddr := Null;
      log := log + [Now()];
      ForgetChain();
      ForgetInterceptors();
      ShowBlank();
      BlankIsValid();
    }

    method ForgetChain()
      modifies this`hookMode, this`proxyAddr, this`resumeAddr, this`hub, this`proxies, this`cells, this`stamps
      ensures hookMode == NONE && proxyAddr == Null && resumeAddr == Null && hub == null && proxies == []
      ensures cells == map[] && stamps == map[]
    {
      hookMode, proxyAddr, resumeAddr, hub := NONE, Null, Null, null;
      proxies, cells, stamps := [], map[], map[];
    }

    method ForgetInterceptors()
      modifies this`interceptFlagsUnion, this`glueLauncherAddr, this`interceptors, this`interceptorsSize
      ensures interceptFlagsUnion == {} && glueLauncherAddr == Null && interceptors == [] && interceptorsSize == 0
    {
      interceptFlagsUnion, glueLauncherAddr, interceptors, interceptorsSize := {}, Null, [], 0;
    }

    lemma ShowBlank()
      requires interceptFlagsUnion == {} && glueLauncherAddr == Null && interceptors == [] && interceptorsSize == 0
      requires hookMode == NONE && proxyAddr == Null && resumeAddr == Null && hub == null && proxies == []
      requires cells == map[] && stamps == map[] && startAddr == Null
      ensures Blank()
    {
    }

    /** No store since `from` was seen through a patched target. */
    ghost predicate Unseen(from: nat)
      reads this`log
    {
      forall k | from <= k < |log| :: log[k].start == Null
    }

    lemma BlankIsValid()
      requires Blank()
      ensures Valid()
    {
    }

    /** What the fields tell about a valid switch. */
    lemma Tells()
      requires Valid()
      ensures startAddr == Null <==> !Hooked()
      ensures startAddr == Launcher <==> interceptorsSize > 0
      ensures proxyAddr == Null <==> hookMode == NONE
      ensures hookMode == QUEUE ==> Running()
      ensures hookMode == NONE ==> Enterable()
      ensures Hooked() ==> resumeAddr.Enter?
    {
      hide Linked, Ordered, Distinct, StampsBelow, HubOk;
      assert proxies != [] ==> proxies[0] in proxies;
    }

    /** sh_inst_hook with sh_switch_inst_set_orig_addr: the cells and the resume address first, the patch last. */
    method InstHook(newAddr: Addr, orig: set<Addr>, enter: Addr)
      requires startAddr == Null && enter.Enter? && newAddr != Null && orig == cells.Keys
      modifies this`cells, this`resumeAddr, this`startAddr, this`log
      ensures cells == (map f | f in orig :: enter) && resumeAddr == enter && startAddr == newAddr
      ensures old(log) <= log && forall k | |old(log)| <= k < |log| :: log[k].start == Null || log[k] == Now()
    {
      cells := map f | f in orig :: enter;
      log := log + [Now()];
      resumeAddr := enter;
      log := log + [Now()];
      startAddr := newAddr;
      log := log + [Now()];
    }

    /** sh_switch_hook_unique. `enter` is what sh_inst_hook makes, Null if it fails. */
    method HookUnique(f: Addr, enter: Addr) returns (r: Errno)
      requires Valid() && f.Func? && (enter.Enter? || enter.Null?)
      modifies this`cells, this`stamps, this`clock, this`log, this`hookMode, this`proxyAddr, this`startAddr, this`resumeAddr
      ensures Valid()
      ensures r == if !old(Hooked()) && enter == Null then INST_FAILED
                   else if old(hookMode) == NONE then OK
                   else if old(hookMode) == UNIQUE then HOOK_UNIQUE_DUP
                   else MODE_CONFLICT
      ensures r == OK ==> hookMode == UNIQUE && Visible() == [f]
      ensures r != OK ==> hookMode == old(hookMode) && Visible() == old(Visible())
      ensures old(log) <= log && Logged(|old(log)|, old(Visible()), Visible())
    {
      Tells();
      hide QueueOk, Sound;
      if startAddr == Null {
        if enter == Null {
          return INST_FAILED;
        }
        FirstUnique(UNIQUE, f, enter);
        return OK;
      } else if proxyAddr == Null {
        LateUnique(f);
        return OK;
      } else if hookMode != UNIQUE {
        return MODE_CONFLICT;
      } else {
        return HOOK_UNIQUE_DUP;
      }
    }

    lemma UniqueIsValid()
      requires QueueOk() && HubOk() && InterceptorsOk() && hookMode == UNIQUE && ModeOk()
      requires startAddr == (if interceptorsSize > 0 then Launcher else proxyAddr) && resumeAddr.Enter?
      ensures Valid()
    {
      hide QueueOk, HubOk, InterceptorsOk, ModeOk;
    }

    /** What a thread sees of a unique proxy. */
    lemma UniqueIsSound()
      requires QueueOk() && proxies == [] && proxyAddr.Func? && proxyAddr in cells && cells[proxyAddr] == resumeAddr
      requires resumeAddr.Enter? && startAddr in {Launcher, proxyAddr}
      ensures Sound(Now(), [], [proxyAddr]) && Visits(Now(), [proxyAddr])
    {
      hide Linked, Ordered, Sound, StampsBelow, Distinct, IsPath;
      OnlyOne(cells, resumeAddr, proxyAddr);
      ShowSound(Now(), [proxyAddr], stamps, clock, [], [proxyAddr]);
      LinkedIsPath(cells, [proxyAddr], resumeAddr);
    }

    // An unhooked switch may have been created by another thread, which does not have its lock yet. The first one to take
    // the lock then works with the mode that the other one gave it (sh_switch_find_with_create).

    /** A first unique hook does not write the mode: the switch is as it should be exactly if it was created for one. */
    method FirstUnique(created: HookMode, f: Addr, enter: Addr)
      requires Blank() && Valid() && f.Func? && enter.Enter?
      modifies this`cells, this`stamps, this`clock, this`log, this`hookMode, this`proxyAddr, this`startAddr, this`resumeAddr
      ensures (ModeOk() <==> created == UNIQUE) && (Valid() <==> created == UNIQUE) && QueueOk()
      ensures hookMode == created && proxyAddr == f && startAddr == f && resumeAddr == enter && f in cells
      ensures Visits(Now(), [f]) && resumeAddr !in cells
      ensures old(log) <= log && Logged(|old(log)|, [], [f])
    {
      assert HubOk() && InterceptorsOk() && QueueOk();
      hide Valid, Sound, Ordered, Linked, HubOk, InterceptorsOk, Visits;
      hookMode, proxyAddr := created, f;
      cells, stamps := map[f := Null], map[f := clock];
      clock := clock + 1;
      InstHook(f, {f}, enter);
      AllAtResume(cells, stamps, resumeAddr);
      NothingLinked(cells, resumeAddr);
      UniqueIsSound();
      Unpatched(|old(log)|, [], [f]);
      ValidNeedsMode();
      if created == UNIQUE {
        UniqueIsValid();
      }
    }

    lemma ValidNeedsMode()
      ensures Valid() ==> ModeOk()
    {
    }

    /** The store that makes a unique proxy visible behind the launcher. */
    method LinkUnique(f: Addr)
      requires QueueOk() && proxies == [] && startAddr == Launcher && resumeAddr.Enter?
      requires f.Func? && f in cells && cells[f] == resumeAddr
      modifies this`log, this`hookMode, this`proxyAddr
      ensures QueueOk() && ModeOk() && hookMode == UNIQUE && proxyAddr == f
      ensures old(log) <= log && Logged(|old(log)|, [], [f])
    {
      hide Sound, Ordered, Linked, Distinct, StampsBelow;
      hookMode := UNIQUE;
      proxyAddr := f;
      UniqueIsSound();
      log := log + [Now()];
    }

    /** A unique proxy behind interceptors that were there first. */
    method LateUnique(f: Addr)
      requires Valid() && Hooked() && proxyAddr == Null && f.Func?
      modifies this`cells, this`stamps, this`clock, this`log, this`hookMode, this`proxyAddr
      ensures Valid() && hookMode == UNIQUE && Visible() == [f]
      ensures old(log) <= log && Logged(|old(log)|, [], [f])
    {
      Tells();
      assert proxies == [];
      hide Sound, QueueOk, HubOk, InterceptorsOk, Enterable;
      SetCell(f, [f]);
      LinkUnique(f);
      UniqueIsValid();
    }

    lemma Unpatched(from: nat, before: seq<Addr>, after: seq<Addr>)
      requires forall k | from <= k < |log| :: log[k].start == Null || Sound(log[k], before, after)
      ensures Logged(from, before, after)
    {
    }

    /** sh_switch_hook_multi and sh_switch_hook_shared. */
    method HookQueued(f: Addr, shared: bool, enter: Addr) returns (r: Errno)
      requires Valid() && f.Func? && (enter.Enter? || enter.Null?)
      modifies this`cells, this`stamps, this`clock, this`log, this`hookMode, this`proxyAddr, this`startAddr
      modifies this`resumeAddr, this`proxies, this`hub, hub
      ensures Valid()
      ensures r == if !old(Hooked()) && enter == Null then INST_FAILED
                   else if old(hookMode) == UNIQUE then MODE_CONFLICT
                   else if f.id in old(HubFuncs()) then HOOK_DUP
                   else if f in old(proxies) then HOOK_MULTI_DUP
                   else OK
      ensures r == OK ==> hookMode == QUEUE && proxies == Added(old(proxies), f, shared)
                          && HubFuncs() == if shared then old(HubFuncs()) + {f.id} else old(HubFuncs())
      ensures r != OK ==> hookMode == old(hookMode) && Visible() == old(Visible()) && HubFuncs() == old(HubFuncs())
      ensures if r == OK && shared then hub != null && (hub == old(hub) || (old(hub) == null && fresh(hub))) else hub == old(hub)
      ensures old(log) <= log && Logged(|old(log)|, old(Visible()), Visible())
    {
      Tells();
      hide QueueOk, Sound, Linked, Ordered, Distinct;
      if startAddr == Null {
        if enter == Null {
          return INST_FAILED;
        }
        FirstQueued(QUEUE, f, shared, enter);
        return OK;
      } else if hookMode == UNIQUE {
        return MODE_CONFLICT;
      } else {
        r := ProxyAdd(f, shared);
        if r == OK {
          QueuedIsValid();
        }
      }
    }

    lemma QueuedIsValid()
      requires QueueOk() && HubOk() && InterceptorsOk() && proxies != [] && Enterable()
      requires interceptorsSize > 0 <==> startAddr == Launcher
      requires startAddr != Null
      ensures Valid() && hookMode == QUEUE
    {
      hide Linked, Ordered, Distinct, StampsBelow, HubOk, InterceptorsOk;
      assert proxies[0] in proxies;
    }

    /** A first multi or shared hook writes the mode, whoever created the switch. */
    method FirstQueued(created: HookMode, f: Addr, shared: bool, enter: Addr)
      requires Blank() && Valid() && f.Func? && enter.Enter?
      modifies this`cells, this`stamps, this`clock, this`log, this`hookMode, this`proxyAddr, this`startAddr
      modifies this`resumeAddr, this`proxies, this`hub, hub
      ensures Valid() && hookMode == QUEUE && proxies == Added([], f, shared)
      ensures (HubFuncs() == if shared then {f.id} else {}) && (if shared then fresh(hub) else hub == null)
      ensures old(log) <= log && Logged(|old(log)|, [], proxies)
    {
      hide Sound, InterceptorsOk, Ordered, Linked;
      hookMode := created;
      var _ := ProxyAdd(f, shared);
      PatchFirst(enter);
      Unpatched(|old(log)|, [], proxies);
      QueuedIsValid();
    }

    /** The first proxy is queued; now the target is patched. */
    method PatchFirst(enter: Addr)
      requires QueueOk() && startAddr == Null && |proxies| == 1 && enter.Enter?
      modifies this`cells, this`resumeAddr, this`startAddr, this`log
      ensures QueueOk() && Enterable() && startAddr == proxyAddr && startAddr !in {Null, Launcher} && resumeAddr.Enter?
      ensures old(log) <= log && forall k | |old(log)| <= k < |log| :: log[k].start == Null || Sound(log[k], [], proxies)
    {
      hide Sound, Ordered, Linked;
      CellsAreStamped(cells, stamps, resumeAddr);
      LinkedAt(cells, proxies, resumeAddr, 0);
      assert proxies == [proxies[0]] && proxies[0] in proxies;
      InstHook(proxyAddr, cells.Keys, enter);
      AllAtResume(cells, stamps, resumeAddr);
      OnlyOne(cells, resumeAddr, proxies[0]);
      ShowSound(Now(), proxies, stamps, clock, [], proxies);
    }

    /** What the race can cost: `f` is hooked in unique mode on a switch that another thread created for queued hooks, and
        that thread then queues `g`. Both calls succeed, but the target leads to `f` and not to `g`. */
    method QueuedBehindUnique(f: Addr, g: Addr, enter: Addr) returns (r: Errno)
      requires Blank() && Valid() && f.Func? && g.Func? && f != g && enter.Enter?
      modifies this
      ensures r == OK && hookMode == QUEUE && proxies == [g] && proxyAddr == g
      ensures Visits(Now(), [f]) && !Visits(Now(), [g])
    {
      FirstUnique(QUEUE, f, enter);
      assert [f][1..] == [];
      assert IsPath(cells, cells[f], [], resumeAddr);
      r := ProxyAdd(g, false);
      assert IsPath(cells, cells[f], [], resumeAddr);
    }

    /** sh_switch_unhook_unique. */
    method UnhookUnique() returns (r: Errno)
      requires Valid()
      modifies this, hub
      ensures Valid() && (Hooked() ==> hub == old(hub))
      ensures r == if !old(Hooked()) then UNHOOK_NOTFOUND else if old(hookMode) == UNIQUE then OK else MODE_CONFLICT
      ensures r == OK ==> hookMode == NONE && Visible() == []
      ensures r != OK ==> hookMode == old(hookMode) && Visible() == old(Visible()) && HubFuncs() == old(HubFuncs())
      ensures SameEnabled(old(interceptors), interceptors)
      ensures old(log) <= log && Logged(|old(log)|, old(Visible()), Visible())
    {
      Tells();
      hide Sound, QueueOk, HubOk, InterceptorsOk, IsEnabled;
      if startAddr == Null {
        return UNHOOK_NOTFOUND;
      } else if hookMode != UNIQUE {
        return MODE_CONFLICT;
      }
      ghost var before := [proxyAddr];
      DropUnique();
      FinishUnhook(before, |old(log)|);
      return OK;
    }

    /** proxy_addr = 0. Without interceptors the target still leads to the proxy until it is unpatched. */
    method DropUnique()
      requires QueueOk() && ModeOk() && hookMode == UNIQUE && resumeAddr.Enter? && startAddr in {Launcher, proxyAddr}
      modifies this`hookMode, this`proxyAddr, this`log
      ensures QueueOk() && hookMode == NONE && proxyAddr == Null
      ensures startAddr == Launcher ==> Enterable()
      ensures old(log) <= log && Logged(|old(log)|, [old(proxyAddr)], [])
    {
      hide Sound, Linked, Ordered, Distinct, StampsBelow;
      ghost var before := [proxyAddr];
      OnlyOne(cells, resumeAddr, proxyAddr);
      hookMode := NONE;
      proxyAddr := Null;
      ShowSound(Now(), if startAddr == Launcher then [] else before, stamps, clock, before, []);
      log := log + [Now()];
    }

    /** sh_switch_unhook_multi and sh_switch_unhook_shared. A hub is there once a shared hook has been made, and then until
        the target is unpatched. `patches` tells whether the target can be patched again; when it cannot, the switch stays
        as it should be exactly if the hook was not a shared one. */
    method UnhookQueued(f: Addr, shared: bool, patches: bool) returns (r: Errno)
      requires Valid() && f.Func?
      modifies this, hub
      ensures Hooked() ==> hub == old(hub)
      ensures Valid() <==> !(shared && r == INST_FAILED)
      ensures r == if !old(Hooked()) then UNHOOK_NOTFOUND
                   else if old(hookMode) != QUEUE then MODE_CONFLICT
                   else if shared && old(hub) == null then NULL_HUB
                   else if !(if shared then f.id in old(HubFuncs()) else f in old(proxies)) then UNHOOK_NOTFOUND
                   else if old(DelFails(f, shared, patches)) then INST_FAILED
                   else OK
      ensures shared && f.id in old(HubFuncs()) && patches ==> r == OK
      ensures r == OK ==>
                && HubFuncs() == (if shared then old(HubFuncs()) - {f.id} else old(HubFuncs()))
                && proxies == (if !shared then Removed(old(proxies), f)
                               else if HubFuncs() == {} then Removed(old(proxies), Trampo)
                               else old(proxies))
                && hookMode == (if proxies == [] then NONE else QUEUE)
      ensures r != OK ==> hookMode == old(hookMode) && Visible() == old(Visible())
                          && HubFuncs() == if shared && r == INST_FAILED then {} else old(HubFuncs())
      ensures SameEnabled(old(interceptors), interceptors)
      ensures old(log) <= log && Logged(|old(log)|, old(Visible()), Visible())
    {
      Tells();
      hide Sound, QueueOk, HubOk, InterceptorsOk, Removed, Logged, Enterable;
      NothingLogged(Visible());
      if startAddr == Null {
        return UNHOOK_NOTFOUND;
      } else if hookMode != QUEUE {
        return MODE_CONFLICT;
      } else if shared && hub == null {
        return NULL_HUB;
      }
      r := UnhookEntry(f, shared, patches);
    }

    method UnhookEntry(f: Addr, shared: bool, patches: bool) returns (r: Errno)
      requires Valid() && f.Func? && hookMode == QUEUE && (shared ==> hub != null)
      modifies this, hub
      ensures Hooked() ==> hub == old(hub)
      ensures Valid() <==> !(shared && r == INST_FAILED)
      ensures r == if !(if shared then f.id in old(HubFuncs()) else f in old(proxies)) then UNHOOK_NOTFOUND
                   else if old(DelFails(f, shared, patches)) then INST_FAILED
                   else OK
      ensures HubFuncs() == if shared then old(HubFuncs()) - {f.id} else old(HubFuncs())
      ensures proxies == if r != OK then old(proxies)
                         else if !shared then Removed(old(proxies), f)
                         else if HubFuncs() == {} then Removed(old(proxies), Trampo)
                         else old(proxies)
      ensures hookMode == if proxies == [] then NONE else QUEUE
      ensures SameEnabled(old(interceptors), interceptors)
      ensures old(log) <= log && Logged(|old(log)|, old(proxies), proxies)
    {
      Tells();
      hide Sound, QueueOk, InterceptorsOk, Removed, Logged, Enterable, IsEnabled, HubOk;
      HubIsOk();
      r := ProxyDel(f, shared, patches);
      if shared && r == INST_FAILED {
        HubIsOk();
      } else {
        FinishUnhook(old(proxies), |old(log)|);
      }
    }

    lemma HubIsOk()
      ensures Valid() ==> HubOk()
    {
    }

    /** A switch without proxies and interceptors is given up. */
    method FinishUnhook(ghost before: seq<Addr>, ghost from: nat)
      requires QueueOk() && HubOk() && InterceptorsOk() && resumeAddr.Enter?
      requires if proxies != [] then Running() else hookMode == NONE && proxyAddr == Null
      requires interceptorsSize > 0 <==> startAddr == Launcher
      requires startAddr == Launcher ==> Enterable()
      requires from <= |log| && Logged(from, before, proxies)
      modifies this
      ensures Valid() && proxies == old(proxies) && HubFuncs() == old(HubFuncs()) && (Hooked() ==> hub == old(hub))
      ensures hookMode == if proxies == [] then NONE else QUEUE
      ensures SameEnabled(old(interceptors), interceptors)
      ensures old(log) <= log && Logged(from, before, proxies)
    {
      assert proxies != [] ==> proxies[0] in proxies;
      hide Sound, Linked, Ordered, Distinct, Removed, EnabledSize, FlagsUnion, IsEnabled, ListedOnce;
      if proxies == [] && interceptorsSize == 0 {
        NoneEnabled(interceptors);
        Destroy();
        Unpatched(from, before, []);
      } else if proxies != [] {
        QueuedIsValid();
      }
    }

    /** sh_switch_interceptor_add behind an installed launcher. */
    method AddBehindLauncher(pre: nat, data: nat, flags: Flags) returns (r: Errno)
      requires InterceptorsOk() && glueLauncherAddr == Launcher
      modifies this`interceptors, this`interceptorsSize, this`interceptFlagsUnion
      ensures InterceptorsOk() && interceptorsSize > 0
      ensures r == if IsEnabled(old(interceptors), pre, data) then INTERCEPT_DUP else OK
      ensures r == OK ==> interceptFlagsUnion == old(interceptFlagsUnion) + flags
      ensures EnabledGrew(old(interceptors), interceptors, pre, data, r == OK)
    {
      hide ListedOnce, EnabledSize, FlagsUnion, IsEnabled;
      SomeEnabled(interceptors, pre, data);
      r := InterceptorAdd(pre, data, flags);
    }

    lemma NothingLogged(queue: seq<Addr>)
      ensures Logged(|log|, queue, queue)
    {
    }

    /** A first interceptor does not write the mode either. */
    method FirstLauncher(created: HookMode, enter: Addr)
      requires Blank() && Valid() && enter.Enter?
      modifies this`glueLauncherAddr, this`startAddr, this`resumeAddr, this`cells, this`log, this`hookMode
      ensures QueueOk() && InterceptorsOk() && hookMode == created && (ModeOk() <==> created == NONE)
      ensures startAddr == Launcher == glueLauncherAddr && resumeAddr.Enter?
      ensures old(log) <= log && Logged(|old(log)|, [], [])
    {
      hide Sound, Linked, Ordered, Distinct, HubOk, ListedOnce;
      hookMode, glueLauncherAddr := created, Launcher;
      InstHook(Launcher, {}, enter);
      NothingLinked(cells, resumeAddr);
      AllAtResume(cells, stamps, resumeAddr);
      ShowSound(Now(), [], stamps, clock, [], []);
      Unpatched(|old(log)|, [], []);
    }

    method LaterLauncher()
      requires Valid() && Hooked()
      modifies this`glueLauncherAddr, this`startAddr, this`log
      ensures QueueOk() && ModeOk() && InterceptorsOk()
      ensures startAddr == Launcher == glueLauncherAddr && resumeAddr.Enter?
      ensures old(log) <= log && Logged(|old(log)|, Visible(), Visible())
    {
      hide Sound, QueueOk, HubOk, ListedOnce, EnabledSize, FlagsUnion;
      if glueLauncherAddr == Null {
        glueLauncherAddr := Launcher;
      }
      if startAddr != glueLauncherAddr {
        startAddr := glueLauncherAddr;
        ShowCurrent();
        log := log + [Now()];
      }
    }

    /** Make the target lead to the glue launcher: hook it, or patch it again. */
    method InstallLauncher(enter: Addr)
      requires Valid() && (startAddr == Null ==> enter.Enter?)
      modifies this`glueLauncherAddr, this`startAddr, this`resumeAddr, this`cells, this`log, this`hookMode
      ensures QueueOk() && ModeOk() && InterceptorsOk() && hookMode == old(hookMode)
      ensures startAddr == Launcher == glueLauncherAddr && resumeAddr.Enter?
      ensures old(log) <= log && Logged(|old(log)|, Visible(), Visible())
    {
      Tells();
      hide Sound, QueueOk, HubOk, InterceptorsOk, ModeOk, Logged;
      if startAddr == Null {
        FirstLauncher(NONE, enter);
      } else {
        LaterLauncher();
      }
    }

    lemma LauncherIsValid()
      requires QueueOk() && ModeOk() && HubOk() && InterceptorsOk()
      requires interceptorsSize > 0 && startAddr == Launcher && resumeAddr.Enter?
      ensures Valid()
    {
      hide QueueOk, ModeOk, HubOk, InterceptorsOk;
    }

    /** sh_switch_intercept_impl. */
    method Intercept(pre: nat, data: nat, flags: Flags, enter: Addr) returns (r: Errno)
      requires Valid() && (enter.Enter? || enter.Null?)
      modifies this
      ensures Valid()
      ensures hookMode == old(hookMode) && Visible() == old(Visible()) && hub == old(hub)
      ensures r == if !old(Hooked()) && enter == Null then INST_FAILED
                   else if IsEnabled(old(interceptors), pre, data) then INTERCEPT_DUP
                   else OK
      ensures r == OK ==> interceptFlagsUnion == old(interceptFlagsUnion) + flags
      ensures EnabledGrew(old(interceptors), interceptors, pre, data, r == OK)
      ensures old(log) <= log && Logged(|old(log)|, Visible(), Visible())
    {
      Tells();
      if startAddr == Null && enter == Null {
        NothingLogged(Visible());
        NothingGrew(interceptors, pre, data);
        return INST_FAILED;
      }
      r := InterceptHooked(pre, data, flags, enter);
    }

    method InterceptHooked(pre: nat, data: nat, flags: Flags, enter: Addr) returns (r: Errno)
      requires Valid() && HubOk() && (startAddr == Null ==> enter.Enter?)
      modifies this
      ensures Valid()
      ensures hookMode == old(hookMode) && Visible() == old(Visible()) && hub == old(hub)
      ensures r == if IsEnabled(old(interceptors), pre, data) then INTERCEPT_DUP else OK
      ensures r == OK ==> interceptFlagsUnion == old(interceptFlagsUnion) + flags
      ensures EnabledGrew(old(interceptors), interceptors, pre, data, r == OK)
      ensures old(log) <= log && Logged(|old(log)|, Visible(), Visible())
    {
      hide Valid, Sound, QueueOk, HubOk, ModeOk, InterceptorsOk, IsEnabled, Logged, EnabledGrew, Visible;
      InstallLauncher(enter);
      r := AddBehindLauncher(pre, data, flags);
      LauncherIsValid();
    }

    /** sh_switch_unintercept. */
    method Unintercept(pre: nat, data: nat) returns (r: Errno)
      requires Valid()
      modifies this
      ensures Valid() && (Hooked() ==> hub == old(hub))
      ensures r == if IsEnabled(old(interceptors), pre, data) then OK else UNHOOK_NOTFOUND
      ensures hookMode == old(hookMode) && Visible() == old(Visible()) && HubFuncs() == old(HubFuncs())
      ensures forall p, d :: IsEnabled(interceptors, p, d)
                             <==> IsEnabled(old(interceptors), p, d) && (p != pre || d != data)
      ensures old(log) <= log && Logged(|old(log)|, Visible(), Visible())
    {
      Tells();
      hide Sound, QueueOk, ListedOnce, EnabledSize, FlagsUnion, IsEnabled;
      SomeEnabled(interceptors, pre, data);
      if startAddr == Null {
        NoneEnabled(interceptors);
        return UNHOOK_NOTFOUND;
      }
      r := InterceptorDel(pre, data);
      if r == OK && interceptorsSize == 0 {
        RemoveLauncher();
      }
    }

    /** The last interceptor is gone: the target leads to the first proxy again, or is unpatched. */
    method RemoveLauncher()
      requires QueueOk() && ModeOk() && HubOk() && InterceptorsOk()
      requires startAddr == Launcher && resumeAddr.Enter? && interceptorsSize == 0
      modifies this
      ensures Valid() && hookMode == old(hookMode) && Visible() == old(Visible()) && HubFuncs() == old(HubFuncs())
      ensures Hooked() ==> hub == old(hub)
      ensures SameEnabled(old(interceptors), interceptors)
      ensures old(log) <= log && Logged(|old(log)|, Visible(), Visible())
    {
      hide Sound, Linked, Ordered, Distinct, ListedOnce, EnabledSize, FlagsUnion, IsEnabled;
      assert proxies != [] ==> proxies[0] in proxies;
      NoneEnabled(interceptors);
      if proxyAddr == Null {
        Destroy();
        Unpatched(|old(log)|, [], []);
      } else {
        startAddr := proxyAddr;
        ShowCurrent();
        log := log + [Now()];
      }
    }

    /** Whether or not the launcher comes first, a thread visits the queue. */
    lemma ShowCurrent()
      requires QueueOk() && ModeOk() && resumeAddr.Enter? && (startAddr == Launcher || (startAddr == proxyAddr != Null))
      ensures Sound(Now(), Visible(), Visible())
    {
      hide Ordered, Sound, Linked, Distinct, StampsBelow;
      if hookMode == UNIQUE {
        OnlyOne(cells, resumeAddr, proxyAddr);
      }
      assert proxies != [] ==> proxies[0] in proxies;
      ShowSound(Now(), Visible(), stamps, clock, Visible(), Visible());
    }

    /** One call of the library. */
    method Do(op: Op) returns (r: Errno)
      requires Valid() && op.Ok()
      modifies this, hub
      ensures Valid() && (hub == old(hub) || hub == null || fresh(hub))
      ensures hub != null <==> Hooked() && (old(hub) != null || op.Shares(r))
      ensures old(log) <= log && Logged(|old(log)|, old(Visible()), Visible())
    {
      hide Valid, Sound, Logged, Visible, IsEnabled;
      UnhookedHasNoHub();
      match op {
        case HookInUnique(f, enter) => r := HookUnique(f, enter);
        case HookInQueue(f, shared, enter) => r := HookQueued(f, shared, enter);
        case UnhookInUnique => r := UnhookUnique();
        case UnhookInQueue(f, shared, patches) => r := UnhookQueued(f, shared, patches);
        case AddInterceptor(pre, data, flags, enter) => r := Intercept(pre, data, flags, enter);
        case DelInterceptor(pre, data) => r := Unintercept(pre, data);
      }
      UnhookedHasNoHub();
    }

    lemma UnhookedHasNoHub()
      requires Valid()
      ensures !Hooked() ==> hub == null
    {
    }

    /** Any number of calls: after each single store of any of them, a thread that enters the target visits a list of
        proxies and ends in the original, and so does a thread inside any proxy that was queued since the target was last
        patched, removed or not. There is a hub if and only if a shared hook has succeeded since then. */
    method Run(ops: seq<Op>) returns (rs: seq<Errno>, ghost hooked: seq<bool>)
      requires Valid() && forall op | op in ops :: op.Ok()
      modifies this, hub
      ensures Valid() && old(log) <= log && |rs| == |hooked| == |ops|
      ensures hub != null <==> HasHub(old(hub) != null, ops, rs, hooked)
      ensures forall k | |old(log)| <= k < |log| && log[k].start != Null ::
                AllReach(log[k]) && exists path :: Visits(log[k], path)
    {
      hide Valid, Visits, AllReach, Visible, Hooked;
      rs, hooked := [], [];
      var i := 0;
      while i < |ops|
        invariant |rs| == |hooked| == i <= |ops| && (hub != null <==> HasHub(old(hub) != null, ops[..i], rs, hooked))
        invariant 0 <= i <= |ops| && Valid() && (hub == old(hub) || hub == null || fresh(hub)) && old(log) <= log
        invariant forall k | |old(log)| <= k < |log| && log[k].start != Null ::
                    AllReach(log[k]) && exists path :: Visits(log[k], path)
      {
        ghost var before := log;
        var r := Do(ops[i]);
        assert forall k | 0 <= k < |before| :: log[k] == before[k];
        assert ops[..i + 1][..i] == ops[..i] && (rs + [r])[..i] == rs && (hooked + [Hooked()])[..i] == hooked;
        rs, hooked := rs + [r], hooked + [Hooked()];
        i := i + 1;
      }
      assert ops[..|ops|] == ops;
    }

    /** A shared unhook where only a multi hook was made. */
    method NullHubIsPassedOn(f: Addr, g: Addr, enter: Addr) returns (r: Errno)
      requires Blank() && Valid() && f.Func? && g.Func? && enter.Enter?
      modifies this
      ensures r == NULL_HUB && hookMode == QUEUE && proxies == [f]
    {
      hide Valid, Sound, Logged;
      var hooked := HookQueued(f, false, enter);
      r := UnhookQueued(g, true, true);
    }

    /** shadowhook_interceptor_caller: the enabled interceptors in list order, and then the first proxy. */
    method InterceptorCaller() returns (called: seq<Interceptor>, nextHop: Addr)
      requires Valid() && startAddr == Launcher
      ensures called == EnabledOf(interceptors) && |called| == interceptorsSize > 0
      ensures nextHop == Head(Visible(), resumeAddr) && nextHop != Null
    {
      Tells();
      hide QueueOk, HubOk, ListedOnce;
      called := [];
      var i := 0;
      while i < |interceptors|
        invariant 0 <= i <= |interceptors| && called == EnabledOf(interceptors[..i])
      {
        assert interceptors[..i + 1][..i] == interceptors[..i];
        if interceptors[i].enabled {
          called := called + [interceptors[i]];
        }
        i := i + 1;
      }
      assert interceptors[..|interceptors|] == interceptors;
      EnabledOfSize(interceptors);
      nextHop := if proxyAddr != Null then proxyAddr else resumeAddr;
    }

    /** At any time a thread that enters a hooked target visits the proxies in order and ends in the original, and a
        thread inside any proxy that was ever queued, removed or not, ends there too. */
    lemma ThreadsEndInTheOriginal()
      requires Valid() && Hooked()
      ensures Visits(Now(), Visible()) && AllReach(Now()) && resumeAddr !in cells
      ensures FirstHop(Now()) != Null && forall f | f in Visible() :: f in cells && cells[f] != Null
    {
      Tells();
      ShowCurrent();
      PathHasNoNull(cells, FirstHop(Now()), Visible(), resumeAddr);
    }

    lemma QueueIsDistinct()
      requires QueueOk()
      ensures Distinct(proxies)
    {
    }
  }

  lemma OnlyProxy(ids: set<Hub.Addr>, id: Hub.Addr)
    requires id in ids
    ensures ids - {id} == {} <==> ids == {id}
  {
    assert forall x | x in ids :: x == id || x in ids - {id};
  }

  lemma CountIsZero(proxies: seq<Hub.Proxy>)
    ensures Hub.EnabledCount(proxies) == 0 <==> Hub.EnabledFuncs(proxies) == {}
  {
    if proxies != [] {
      var last := |proxies| - 1;
      CountIsZero(proxies[..last]);
      if proxies[last].enabled {
        assert proxies[last].func in Hub.EnabledFuncs(proxies);
      } else {
        forall f | f in Hub.EnabledFuncs(proxies) ensures f in Hub.EnabledFuncs(proxies[..last]) {
          var k: nat :| k < |proxies| && proxies[k].enabled && proxies[k].func == f;
          assert proxies[..last][k] == proxies[k];
        }
        forall f | f in Hub.EnabledFuncs(proxies[..last]) ensures f in Hub.EnabledFuncs(proxies) {
          var k: nat :| k < last && proxies[..last][k].enabled && proxies[..last][k].func == f;
          assert proxies[k].enabled;
        }
      }
    }
  }

  /** What is enabled after `pre` with `data` was enabled, if it was. */
  ghost predicate EnabledGrew(before: seq<Interceptor>, after: seq<Interceptor>, pre: nat, data: nat, added: bool) {
    forall p, d :: IsEnabled(after, p, d) <==> IsEnabled(before, p, d) || (added && p == pre && d == data)
  }

  lemma NothingGrew(list: seq<Interceptor>, pre: nat, data: nat)
    ensures EnabledGrew(list, list, pre, data, false)
  {
  }

  ghost predicate SameEnabled(a: seq<Interceptor>, b: seq<Interceptor>) {
    forall p, d :: IsEnabled(a, p, d) <==> IsEnabled(b, p, d)
  }

  lemma {:induction false} EnabledCounts(list: seq<Interceptor>, i: nat)
    requires i < |list| && list[i].enabled
    ensures EnabledSize(list) > 0
    decreases |list|
  {
    if i < |list| - 1 {
      EnabledCounts(list[..|list| - 1], i);
    }
  }

  function EnabledOf(list: seq<Interceptor>): seq<Interceptor> {
    if list == [] then []
    else EnabledOf(list[..|list| - 1]) + if list[|list| - 1].enabled then [list[|list| - 1]] else []
  }

  lemma {:induction false} EnabledOfSize(list: seq<Interceptor>)
    ensures |EnabledOf(list)| == EnabledSize(list)
  {
    if list != [] {
      EnabledOfSize(list[..|list| - 1]);
    }
  }

  lemma {:induction false} NoFlagsEnabled(list: seq<Interceptor>)
    requires EnabledSize(list) == 0
    ensures FlagsUnion(list) == {}
  {
    if list != [] {
      NoFlagsEnabled(list[..|list| - 1]);
    }
  }

  lemma NoneEnabled(list: seq<Interceptor>)
    requires EnabledSize(list) == 0
    ensures FlagsUnion(list) == {} && SameEnabled(list, []) && forall p, d :: !IsEnabled(list, p, d)
  {
    hide EnabledSize;
    NoFlagsEnabled(list);
    forall i: nat | i < |list| ensures !list[i].enabled {
      if list[i].enabled {
        EnabledCounts(list, i);
      }
    }
  }

  lemma SomeEnabled(list: seq<Interceptor>, pre: nat, data: nat)
    ensures IsEnabled(list, pre, data) ==> EnabledSize(list) > 0
  {
    hide EnabledSize, IsEnabled;
    if EnabledSize(list) == 0 {
      NoneEnabled(list);
    }
  }

  lemma NoFlags()
    ensures forall list | list == [] :: FlagsUnion(list) == {}
  {
  }

  lemma FlagsOfPrefix(list: seq<Interceptor>, i: nat)
    requires i < |list|
    ensures FlagsUnion(list[..i + 1]) == FlagsUnion(list[..i]) + FlagsOf(list[i])
  {
    assert list[..i + 1][..i] == list[..i];
  }

  lemma ListedTwice(list: seq<Interceptor>, at: nat, i: nat, pre: nat, data: nat)
    requires ListedOnce(list) && at < i < |list| && Is(list[at], pre, data)
    ensures !Is(list[i], pre, data)
  {
  }

  lemma NotListed(list: seq<Interceptor>, pre: nat, data: nat)
    requires forall k | 0 <= k < |list| :: !(list[k].enabled && Is(list[k], pre, data))
    ensures forall p, d :: IsEnabled(list, p, d) <==> IsEnabled(list, p, d) && (p != pre || d != data)
    ensures !IsEnabled(list, pre, data)
  {
  }

  lemma SameOthers(before: seq<Interceptor>, after: seq<Interceptor>, i: nat, pre: nat, data: nat)
    requires i < |before| && Is(before[i], pre, data) && ListedOnce(before)
    requires exists flags :: after == before[i := before[i].(flags := flags, enabled := true)]
    ensures IsEnabled(after, pre, data) && ListedOnce(after)
    ensures forall p, d | p != pre || d != data :: IsEnabled(after, p, d) <==> IsEnabled(before, p, d)
  {
    assert after[i].enabled && Is(after[i], pre, data);
    forall p, d | p != pre || d != data ensures IsEnabled(after, p, d) <==> IsEnabled(before, p, d) {
      if IsEnabled(after, p, d) {
        var k: nat :| k < |after| && after[k].enabled && Is(after[k], p, d);
        assert before[k].enabled && Is(before[k], p, d);
      }
      if IsEnabled(before, p, d) {
        var k: nat :| k < |before| && before[k].enabled && Is(before[k], p, d);
        assert after[k].enabled && Is(after[k], p, d);
      }
    }
  }

  lemma SameOthersInFront(before: seq<Interceptor>, p: Interceptor)
    requires p.enabled && ListedOnce(before) && forall k | 0 <= k < |before| :: !Is(before[k], p.pre, p.data)
    ensures IsEnabled([p] + before, p.pre, p.data) && ListedOnce([p] + before)
    ensures forall q, d | q != p.pre || d != p.data :: IsEnabled([p] + before, q, d) <==> IsEnabled(before, q, d)
  {
    var after := [p] + before;
    assert after[0].enabled && Is(after[0], p.pre, p.data);
    forall q, d | q != p.pre || d != p.data ensures IsEnabled(after, q, d) <==> IsEnabled(before, q, d) {
      if IsEnabled(before, q, d) {
        var k: nat :| k < |before| && before[k].enabled && Is(before[k], q, d);
        assert after[k + 1].enabled && Is(after[k + 1], q, d);
      }
    }
  }

  lemma OthersStay(before: seq<Interceptor>, after: seq<Interceptor>, at: nat, pre: nat, data: nat)
    requires at < |before| && ListedOnce(before) && Is(before[at], pre, data)
    requires after == before[at := before[at].(enabled := false)]
    ensures forall p, d :: IsEnabled(after, p, d) <==> IsEnabled(before, p, d) && (p != pre || d != data)
    ensures (before[at].enabled ==> IsEnabled(before, pre, data)) && ListedOnce(after)
  {
    forall p, d ensures IsEnabled(after, p, d) <==> IsEnabled(before, p, d) && (p != pre || d != data) {
      if IsEnabled(after, p, d) {
        var k: nat :| k < |after| && after[k].enabled && Is(after[k], p, d);
        assert before[k].enabled && Is(before[k], p, d) && k != at;
      }
      if IsEnabled(before, p, d) && (p != pre || d != data) {
        var k: nat :| k < |before| && before[k].enabled && Is(before[k], p, d);
        assert after[k].enabled && Is(after[k], p, d);
      }
    }
  }
}
