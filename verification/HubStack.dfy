/** The frame stack of one thread (sh_hub_push_stack and its companions in sh_hub.c).

    A frame keeps the head of a proxy list. Nodes are only ever added in front of a head and are never unlinked
    while the hub lives, so the list behind a head is fixed; what may change at any time is whether a node is
    enabled, which is why every lookup takes the current set of enabled nodes. */
module HubStack {
  type Addr = nat

  // A return address is either the instruction after a call of a hooked function or the one after a call of the
  // previous proxy; no instruction is both.
  datatype ReturnAddress = AfterHooked(site: nat) | AfterPrev(site: nat)

  /** A hub has one node at most for a function, enabled or not. */
  datatype Node = Node(hub: nat, func: Addr)

  datatype Frame = Frame(proxies: seq<Node>, origAddr: Addr, returnAddress: ReturnAddress, allowReentrant: bool)

  datatype Target = Proxy(func: Addr) | Original(addr: Addr)

  // SH_HUB_STACK_FRAME_MAX
  const FRAME_MAX: nat := 127

  /** A frame that does not allow reentry already stands for this hub. */
  predicate Recursive(frames: seq<Frame>, origAddr: Addr) {
    exists i: nat :: i < |frames| && !frames[i].allowReentrant && frames[i].origAddr == origAddr
  }

  /** Index of the first enabled node at or after `from`; the length when there is none. */
  function FirstEnabled(proxies: seq<Node>, enabled: set<Node>, from: nat): (i: nat)
    requires from <= |proxies|
    ensures from <= i <= |proxies|
    ensures i < |proxies| ==> proxies[i] in enabled
    ensures forall k | from <= k < i :: proxies[k] !in enabled
    decreases |proxies| - from
  {
    if from == |proxies| || proxies[from] in enabled then from else FirstEnabled(proxies, enabled, from + 1)
  }

  /** Index of the first node for `func`; the length when there is none. */
  function IndexOf(proxies: seq<Node>, func: Addr): (i: nat)
    ensures i <= |proxies|
    ensures i < |proxies| ==> proxies[i].func == func
    ensures forall k | 0 <= k < i :: proxies[k].func != func
  {
    if proxies == [] || proxies[0].func == func then 0 else 1 + IndexOf(proxies[1..], func)
  }

  predicate Pushes(frames: seq<Frame>, origAddr: Addr, proxies: seq<Node>, enabled: set<Node>) {
    !Recursive(frames, origAddr) && FirstEnabled(proxies, enabled, 0) < |proxies| && |frames| < FRAME_MAX
  }

  function PushTarget(frames: seq<Frame>, origAddr: Addr, proxies: seq<Node>, enabled: set<Node>): Target {
    if Pushes(frames, origAddr, proxies, enabled)
    then Proxy(proxies[FirstEnabled(proxies, enabled, 0)].func)
    else Original(origAddr)
  }

  function PushFrames(frames: seq<Frame>, origAddr: Addr, proxies: seq<Node>, enabled: set<Node>,
                      returnAddress: ReturnAddress): seq<Frame>
  {
    if Pushes(frames, origAddr, proxies, enabled)
    then frames + [Frame(proxies, origAddr, returnAddress, false)]
    else frames
  }

  function PopFrames(frames: seq<Frame>, returnAddress: ReturnAddress): seq<Frame> {
    if frames != [] && frames[|frames| - 1].returnAddress == returnAddress then frames[..|frames| - 1] else frames
  }

  function PrevTarget(frames: seq<Frame>, func: Addr, enabled: set<Node>): Target
    requires frames != []
  {
    var frame := frames[|frames| - 1];
    var at := IndexOf(frame.proxies, func);
    var next := if at < |frame.proxies| then FirstEnabled(frame.proxies, enabled, at + 1) else at;
    if next < |frame.proxies| then Proxy(frame.proxies[next].func) else Original(frame.origAddr)
  }

  function SetReentrant(frames: seq<Frame>, returnAddress: ReturnAddress, allow: bool): seq<Frame> {
    var last := |frames| - 1;
    if frames != [] && frames[last].returnAddress == returnAddress
    then frames[last := frames[last].(allowReentrant := allow)]
    else frames
  }

  /** sh_hub_stack_t: a fixed array of frames and a count. */
  class FrameStack {
    const frames: array<Frame>
    var framesCnt: nat

    ghost predicate Valid()
      reads this
    {
      frames.Length == FRAME_MAX && framesCnt <= FRAME_MAX
    }

    ghost function Contents(): seq<Frame>
      requires Valid()
      reads this, frames
    {
      frames[..framesCnt]
    }

    constructor ()
      ensures Valid() && fresh(frames) && Contents() == []
    {
      frames := new Frame[FRAME_MAX](i => Frame([], 0, AfterHooked(0), false));
      framesCnt := 0;
    }

    /** The scan for a frame of the same hub, from the top down. */
    method IsRecursive(origAddr: Addr) returns (recursive: bool)
      requires Valid()
      ensures recursive == Recursive(Contents(), origAddr)
    {
      var i := framesCnt;
      while i > 0
        invariant 0 <= i <= framesCnt
        invariant forall k | i <= k < framesCnt :: frames[k].allowReentrant || frames[k].origAddr != origAddr
      {
        if !frames[i - 1].allowReentrant && frames[i - 1].origAddr == origAddr {
          assert Contents()[i - 1].origAddr == origAddr;
          return true;
        }
        i := i - 1;
      }
      return false;
    }

    /** The walk over the proxy list. */
    method FindEnabled(proxies: seq<Node>, enabled: set<Node>) returns (i: nat)
      ensures i == FirstEnabled(proxies, enabled, 0)
    {
      i := 0;
      while i < |proxies| && proxies[i] !in enabled
        invariant 0 <= i <= |proxies|
        invariant FirstEnabled(proxies, enabled, 0) == FirstEnabled(proxies, enabled, i)
      {
        i := i + 1;
      }
    }

    method PushStack(origAddr: Addr, proxies: seq<Node>, enabled: set<Node>, returnAddress: ReturnAddress)
      returns (target: Target)
      requires Valid()
      modifies this`framesCnt, frames
      ensures Valid()
      ensures target == old(PushTarget(Contents(), origAddr, proxies, enabled))
      ensures Contents() == old(PushFrames(Contents(), origAddr, proxies, enabled, returnAddress))
    {
      var recursive := IsRecursive(origAddr);
      if !recursive {
        var first := FindEnabled(proxies, enabled);
        if first < |proxies| {
          if framesCnt >= FRAME_MAX {
            return Original(origAddr);
          }
          framesCnt := framesCnt + 1;
          frames[framesCnt - 1] := Frame(proxies, origAddr, returnAddress, false);
          return Proxy(proxies[first].func);
        }
      }
      return Original(origAddr);
    }

    method PopStack(returnAddress: ReturnAddress)
      requires Valid()
      modifies this`framesCnt
      ensures Valid() && Contents() == old(PopFrames(Contents(), returnAddress))
    {
      if framesCnt == 0 {
        return;
      }
      if frames[framesCnt - 1].returnAddress == returnAddress {
        framesCnt := framesCnt - 1;
      }
    }

    /** The walk of sh_hub_get_prev_func: find `func`, then the next enabled node. */
    method GetPrevFunc(func: Addr, enabled: set<Node>) returns (target: Target)
      requires Valid() && framesCnt > 0  // the original aborts the process on an empty stack
      ensures target == PrevTarget(Contents(), func, enabled)
    {
      var frame := frames[framesCnt - 1];
      var proxies := frame.proxies;
      var found := false;
      var i := 0;
      while i < |proxies|
        invariant 0 <= i <= |proxies|
        invariant found == (IndexOf(proxies, func) < i)
        invariant found ==> FirstEnabled(proxies, enabled, IndexOf(proxies, func) + 1) == FirstEnabled(proxies, enabled, i)
        invariant !found ==> i <= IndexOf(proxies, func)
      {
        if !found {
          if proxies[i].func == func {
            found := true;
          }
        } else if proxies[i] in enabled {
          break;
        }
        i := i + 1;
      }
      return if i < |proxies| then Proxy(proxies[i].func) else Original(frame.origAddr);
    }

    method AllowReentrant(returnAddress: ReturnAddress)
      requires Valid()
      modifies frames
      ensures Contents() == old(SetReentrant(Contents(), returnAddress, true))
    {
      if framesCnt > 0 && frames[framesCnt - 1].returnAddress == returnAddress {
        frames[framesCnt - 1] := frames[framesCnt - 1].(allowReentrant := true);
      }
    }

    method DisallowReentrant(returnAddress: ReturnAddress)
      requires Valid()
      modifies frames
      ensures Contents() == old(SetReentrant(Contents(), returnAddress, false))
    {
      if framesCnt > 0 && frames[framesCnt - 1].returnAddress == returnAddress {
        frames[framesCnt - 1] := frames[framesCnt - 1].(allowReentrant := false);
      }
    }
  }
}
