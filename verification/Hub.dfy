/** The hub (sh_hub.c): the shared proxies of one target, and the per-thread stack of frames that cuts
    circular calls between proxies. */
module Hub {
  type Addr = nat

  // Error codes of shadowhook.h that the hub returns.
  datatype Errno = OK | HOOK_DUP | UNHOOK_NOTFOUND

  datatype Proxy = Proxy(func: Addr, enabled: bool)

  function Funcs(proxies: seq<Proxy>): seq<Addr> {
    seq(|proxies|, (i: nat) requires i < |proxies| => proxies[i].func)
  }

  ghost predicate NoDuplicates<T(!new)>(s: seq<T>) {
    forall i, j | 0 <= i < j < |s| :: s[i] != s[j]
  }

  function EnabledCount(proxies: seq<Proxy>): nat {
    if proxies == [] then 0
    else EnabledCount(proxies[..|proxies| - 1]) + if proxies[|proxies| - 1].enabled then 1 else 0
  }

  function EnabledFuncs(proxies: seq<Proxy>): set<Addr> {
    set i: nat | i < |proxies| && proxies[i].enabled :: proxies[i].func
  }

  lemma {:induction false} CountOfConcat(a: seq<Proxy>, b: seq<Proxy>)
    ensures EnabledCount(a + b) == EnabledCount(a) + EnabledCount(b)
  {
    if b == [] {
      assert a + b == a;
    } else {
      CountOfConcat(a, b[..|b| - 1]);
      assert (a + b)[..|a + b| - 1] == a + b[..|b| - 1];
    }
  }

  lemma CountOfUpdate(proxies: seq<Proxy>, i: nat, enabled: bool)
    requires i < |proxies| && proxies[i].enabled != enabled
    ensures EnabledCount(proxies[i := proxies[i].(enabled := enabled)])
            == EnabledCount(proxies) + if enabled then 1 else -1
  {
    var after := proxies[i := proxies[i].(enabled := enabled)];
    assert proxies == proxies[..i] + ([proxies[i]] + proxies[i + 1..]);
    assert after == proxies[..i] + ([after[i]] + proxies[i + 1..]);
    CountOfConcat(proxies[..i], [proxies[i]] + proxies[i + 1..]);
    CountOfConcat(proxies[..i], [after[i]] + proxies[i + 1..]);
    CountOfConcat([proxies[i]], proxies[i + 1..]);
    CountOfConcat([after[i]], proxies[i + 1..]);
  }

  lemma CountOfPush(p: Proxy, proxies: seq<Proxy>)
    ensures EnabledCount([p] + proxies) == EnabledCount(proxies) + if p.enabled then 1 else 0
  {
    CountOfConcat([p], proxies);
  }

  lemma EnabledAfterUpdate(proxies: seq<Proxy>, i: nat, enabled: bool)
    requires i < |proxies| && NoDuplicates(Funcs(proxies))
    ensures var after := proxies[i := proxies[i].(enabled := enabled)];
            && Funcs(after) == Funcs(proxies)
            && EnabledFuncs(after)
               == if enabled then EnabledFuncs(proxies) + {proxies[i].func} else EnabledFuncs(proxies) - {proxies[i].func}
  {
    var after := proxies[i := proxies[i].(enabled := enabled)];
    assert Funcs(after) == Funcs(proxies);
    forall f ensures f in EnabledFuncs(after) <==>
                     if f == proxies[i].func then enabled else f in EnabledFuncs(proxies)
    {
      if f == proxies[i].func {
        if f in EnabledFuncs(after) {
          var k: nat :| k < |after| && after[k].enabled && after[k].func == f;
          assert Funcs(proxies)[k] == Funcs(proxies)[i];
        }
        if enabled {
          assert after[i].enabled && after[i].func == f;
        }
      } else {
        if f in EnabledFuncs(after) {
          var k: nat :| k < |after| && after[k].enabled && after[k].func == f;
          assert proxies[k].enabled && proxies[k].func == f;
        }
        if f in EnabledFuncs(proxies) {
          var k: nat :| k < |proxies| && proxies[k].enabled && proxies[k].func == f;
          assert after[k].enabled && after[k].func == f;
        }
      }
    }
  }

  lemma EnabledAfterPush(func: Addr, proxies: seq<Proxy>)
    requires NoDuplicates(Funcs(proxies)) && func !in Funcs(proxies)
    ensures var after := [Proxy(func, true)] + proxies;
            && Funcs(after) == [func] + Funcs(proxies) && NoDuplicates(Funcs(after))
            && EnabledFuncs(after) == EnabledFuncs(proxies) + {func}
  {
    var after := [Proxy(func, true)] + proxies;
    assert forall k | 1 <= k < |after| :: after[k] == proxies[k - 1];
    assert Funcs(after) == [func] + Funcs(proxies);
    forall f ensures f in EnabledFuncs(after) <==> f == func || f in EnabledFuncs(proxies) {
      if f == func {
        assert after[0].enabled && after[0].func == f;
      } else if f in EnabledFuncs(proxies) {
        var k: nat :| k < |proxies| && proxies[k].enabled && proxies[k].func == f;
        assert after[k + 1].enabled && after[k + 1].func == f;
      }
    }
  }

  /** struct sh_hub. New proxies are put at the head; disabled ones stay where they are. */
  class SharedHub {
    var proxies: seq<Proxy>
    var proxiesSize: nat
    var origAddr: Addr

    ghost predicate Valid()
      reads this
    {
      NoDuplicates(Funcs(proxies)) && proxiesSize == EnabledCount(proxies)
    }

    constructor ()
      ensures Valid() && proxies == [] && origAddr == 0
    {
      proxies := [];
      proxiesSize := 0;
      origAddr := 0;
    }

    method IsProxyDuplicated(func: Addr) returns (dup: bool)
      ensures dup == (func in EnabledFuncs(proxies))
    {
      var i := 0;
      while i < |proxies|
        invariant 0 <= i <= |proxies|
        invariant forall k | 0 <= k < i :: proxies[k].func != func || !proxies[k].enabled
      {
        if proxies[i].enabled && proxies[i].func == func {
          return true;
        }
        i := i + 1;
      }
      return false;
    }

    /** A proxy is added at most once; the order of the others, on which running threads rely, never changes. */
    method AddProxy(func: Addr) returns (r: Errno)
      requires Valid()
      modifies this`proxies, this`proxiesSize
      ensures Valid()
      ensures r == if func in old(EnabledFuncs(proxies)) then HOOK_DUP else OK
      ensures r == HOOK_DUP ==> proxies == old(proxies) && proxiesSize == old(proxiesSize)
      ensures r == OK ==> EnabledFuncs(proxies) == old(EnabledFuncs(proxies)) + {func}
                          && proxiesSize == old(proxiesSize) + 1
      ensures Funcs(proxies) == if func in old(Funcs(proxies)) then old(Funcs(proxies)) else [func] + old(Funcs(proxies))
    {
      var dup := IsProxyDuplicated(func);
      if dup {
        assert func in Funcs(proxies) by {
          var k: nat :| k < |proxies| && proxies[k].enabled && proxies[k].func == func;
          assert Funcs(proxies)[k] == func;
        }
        return HOOK_DUP;
      }
      var i := 0;
      while i < |proxies|
        invariant 0 <= i <= |proxies|
        invariant forall k | 0 <= k < i :: proxies[k].func != func
      {
        if proxies[i].func == func {
          assert !proxies[i].enabled by {
            assert proxies[i].func !in EnabledFuncs(proxies);
          }
          CountOfUpdate(proxies, i, true);
          EnabledAfterUpdate(proxies, i, true);
          proxiesSize := proxiesSize + 1;
          proxies := proxies[i := proxies[i].(enabled := true)];
          assert Funcs(proxies) == old(Funcs(proxies)) && Funcs(proxies)[i] == func;
          return OK;
        }
        i := i + 1;
      }
      CountOfPush(Proxy(func, true), proxies);
      EnabledAfterPush(func, proxies);
      proxiesSize := proxiesSize + 1;
      proxies := [Proxy(func, true)] + proxies;
      return OK;
    }

    method DelProxy(func: Addr) returns (r: Errno)
      requires Valid()
      modifies this`proxies, this`proxiesSize
      ensures Valid()
      ensures r == if func in old(EnabledFuncs(proxies)) then OK else UNHOOK_NOTFOUND
      ensures EnabledFuncs(proxies) == old(EnabledFuncs(proxies)) - {func}
      ensures proxiesSize == old(proxiesSize) - if r == OK then 1 else 0
      ensures Funcs(proxies) == old(Funcs(proxies))
    {
      var i := 0;
      while i < |proxies|
        invariant 0 <= i <= |proxies|
        invariant forall k | 0 <= k < i :: proxies[k].func != func || !proxies[k].enabled
      {
        if proxies[i].func == func && proxies[i].enabled {
          CountOfUpdate(proxies, i, false);
          EnabledAfterUpdate(proxies, i, false);
          proxiesSize := proxiesSize - 1;
          proxies := proxies[i := proxies[i].(enabled := false)];
          return OK;
        }
        i := i + 1;
      }
      return UNHOOK_NOTFOUND;
    }
  }
}
