# Inline hooks that keep a program's meaning

shadowhook hooks functions of a running Android process. It overwrites the first instruction or instructions of a target,
moves them elsewhere in a rewritten form, and leads every call through the proxies and interceptors that were registered.
This project models that machinery and proves what it is for:

* **Moving instructions** (`A64*`, `Thumb*`, `A32*`, `Reach`). The rewriters are functions from an instruction word to the
  words of its image. Processors that decode words on their own run both the original instruction and the image, and the
  theorems say that a moved window does what the original did, in every state and for every number of steps: on A64, on
  Thumb with whole IT blocks, and on Arm. Instructions that are moved unchanged have any effect at all, given as a parameter
  of the machine, in which PC plays no part.
* **Patching a target** (`InstHook`, `Island`, `Trampo`, `Elf`, `ElfGaps`). Hook, rehook and unhook as transactions over the
  target, islands and enter buffers; the allocators behind them; and why what they return is in reach of a branch.
* **Calling proxies** (`Switch`, `SwitchChain`, `Hub`, `HubStack`, `HubCalls`). Every store of every operation on a switch is
  logged, and after each one a thread that follows the links without a lock ends in the original function. The hub's frame
  stack makes circular calls between proxies end.
* **Lifetimes** (`Ref`, `Task`). Reference counts with delayed destruction, and the counter of unfinished tasks, as state
  machines over any number of threads.
* **The clock** (`Calendar`). The signal-safe `localtime_r`.

`Words`, `Arith`, `Layout` and `Masks` hold what these share. Machine words are bounded integers or bit-vectors; wrap-around
is written out.

`dafny verify dfyconfig.toml` checks everything.

## Where the code does not do what it promises

* Splitting an IT block is not right when an instruction other than the last one writes flags, when one writes flags only
  outside a block, as most 16-bit data processing does, or when the condition is AL, which becomes an undefined instruction:
  `ThumbArms.MaySplitIsExact` is the exact condition, `ThumbArms.FlagWriterBreaksSplit` and `ThumbArms.MovedMovBreaksSplit`
  are one short block that meets two of the failures.
* The Arm images that borrow a register keep it on the stack while the instruction is executed. With SP as the result they
  are wrong; with SP as an operand, or with PC as both operands, they are wrong unless the shift of the second operand drops
  what has changed in it, which only LSR #32, LSL #30 and LSL #31 do. ADD and SUB of SP and PC are not recognised, are moved
  as they are, and are wrong with the same exceptions. `A32Exact.RightIsExact` proves that condition, `A32Data.Right`, to be
  exact, with a state that shows the failure for every instruction that does not meet it.
* The image of the 16-bit `MOV PC, PC` goes to the right address in Arm state: `ThumbSim.MovPcBreaks`.
* The image of a table branch changes the flags, which the instruction does not: `ThumbTable.TableBranchMeans` says which
  flags it leaves, so it is right exactly in the states that have them already.
* A task is in the list before it is counted, so a linker callback in between can skip it: `Task.ShortcutSkips` says when.
* A switch is created with the mode of the thread that created it, and another thread may lock it first. A first unique hook
  or interceptor does not write the mode: `Switch.Switch.FirstUnique`, `Switch.Switch.FirstLauncher` and
  `Switch.Switch.QueuedBehindUnique`, after which a hook that succeeded is not reached.
* Unhooking in shared mode on a switch that was only ever hooked in multi mode passes on a hub that is NULL:
  `NULL_HUB` in `Switch.Switch.UnhookQueued`, and `Switch.Switch.NullHubIsPassedOn`.
* When the target cannot be patched again, a shared unhook has already disabled the function in the hub: the switch keeps
  the trampoline queued with nothing to call. `Switch.Switch.UnhookQueued` has the exact guard.
* The weekday of `sh_util_localtime_r` is computed in an int: `Calendar.WdayIsRight`.

## Model

| member | source | states |
|---|---|---|
| A64Decode.GetTypeMatchesIsa | shadowhook/src/main/cpp/arch/arm64/sh_a64.c:56-91 | for all 2^32 words, the classifier names an instruction PC-relative exactly when an independent decoder of the A64 encoding tables does, and with the same operands and offset |
| A64Decode.NamedAddrMatchesIsa | shadowhook/src/main/cpp/arch/arm64/sh_a64.c:183-314 | the address that each rewriter computes is the one that the architecture says the instruction names (page of PC for ADRP), modulo 2^64 |
| A64Decode.RelativeJumpLands | shadowhook/src/main/cpp/arch/arm64/sh_a64.c:437-440 | the emitted B decodes to a branch that lands on the requested address, for every word distance in [-128 MB, +128 MB) |
| A64Rewrite.ComputeFixAddr | shadowhook/src/main/cpp/arch/arm64/sh_a64.c:144-159 | the cursor loop returns buffer + prolog + the table entries of exactly those instructions that start below the address, and the address itself when it lies outside the window |
| A64Rewrite.RewriteLenIsEmittedLen | shadowhook/src/main/cpp/arch/arm64/sh_a64.c:93-138 | for every word that can be rewritten, with and without an island, the length table agrees with the number of bytes emitted |
| A64Rewrite.FixAddrIsImageAddr | shadowhook/src/main/cpp/arch/arm64/sh_a64.c:144-159 | for a window of any length: the fix-up of the address of instruction j is the address at which the image of j is written |
| A64Rewrite.ImageInEnter | shadowhook/src/main/cpp/arch/arm64/sh_inst.c:133-141 | every image lies in the enter buffer where the layout says, and the next one follows it |
| A64Rewrite.RewriteWindow | shadowhook/src/main/cpp/arch/arm64/sh_inst.c:107-157 | keeps the original words, fills the enter with prolog, images and resume jump and nothing behind them, and hands out the enter exactly when every instruction could be rewritten |
| A64Relocation.ImageSimulates | shadowhook/src/main/cpp/arch/arm64/sh_a64.c:341-361 | from every state in which the stack has room for what is borrowed and no byte is read that may differ, the image of any rewritable instruction reaches what the instruction does: the same core, fall-through to the end of the image, or the (fixed-up or island) target, with the link register behind the image; what it borrows is saved below SP |
| A64Window.WindowRuns | shadowhook/src/main/cpp/arch/arm64/sh_inst.c:107-157 | forward simulation by induction on the run: n original steps from any instruction of a moved window are the runs of n images, ending where the original ends or at the image of that place; registers, flags, vectors and memory agree but for a tracked set |
| A64Window.EnteredWindowRuns | shadowhook/src/main/cpp/arch/arm64/sh_inst.c:126-149 | the same from the enter address, through the prolog, for both ways of entering |
| A64Window.OnlyBelowSpDiffers | shadowhook/src/main/cpp/arch/arm64/sh_a64.c:240-285 | the bytes that may differ after a step are those that differed before and were not written, and the 16 bytes below the final SP |
| A64Window.MidFunctionIsExact | shadowhook/src/main/cpp/arch/arm64/sh_inst.c:182-217 | a single instruction moved in the middle of a function is exact: all registers, flags, vectors and memory, but for the 16 bytes below the final SP, and the return address of a call, which points into the enter |
| A64Window.FunctionStartLosesOne | shadowhook/src/main/cpp/arch/arm64/sh_a64.c:368-391 | at a function start exactly one register is given up: X16 when the instruction falls through and wrote X17, X17 otherwise, none for plain jumps |
| A64Window.PushIsKept | shadowhook/src/main/cpp/arch/arm64/sh_inst.c:107-157 | STP Xt, Xt2, [SP, #-n]! as the moved instruction: both saved registers are read back from the stack where the original put them, and SP is the same |
| A64Window.ExitRuns | shadowhook/src/main/cpp/arch/arm64/sh_inst.c:219-259 | the patched target leads through the exit island to the new address; only X17 is lost, or X16 with both saved below SP for the way back |
| Reach.A64ExitReachable | shadowhook/src/main/cpp/arch/arm64/sh_inst.c:228-248 | an island anywhere in the range asked for is reached by the patch |
| Reach.A64ExitRangeIsTight | shadowhook/src/main/cpp/arch/arm64/sh_inst.c:178-180 | and away from the ends of the address space no island outside that range could be |
| Reach.A64EnterReachable | shadowhook/src/main/cpp/arch/arm64/sh_inst.c:182-205 | word 1 of the enter island reaches the instruction behind the target |
| Reach.A64RewriteReachable | shadowhook/src/main/cpp/arch/arm64/sh_a64.c:165-181 | word 1 of the branch island reaches the address that the moved branch wants |
| Reach.T32ExitReachable | shadowhook/src/main/cpp/arch/arm/sh_inst.c:353-386 | the Thumb exit jump is a B.W whose target, as the rewriter itself decodes it, is the island |
| Reach.A32ExitReachable | shadowhook/src/main/cpp/arch/arm/sh_inst.c:512-545 | the same for the Arm exit jump |
| Reach.A64EnterFits | shadowhook/src/main/cpp/sh_enter.c:34-38 | whatever the instruction, prolog, image and resume jump fit into one enter slot of 64 bytes |
| InstHook.Inst.Hook | shadowhook/src/main/cpp/arch/arm64/sh_inst.c:355-385 | a failed hook, at whichever step, leaves target, islands and enters as they were; a successful one holds exactly its own enter and islands, with the right code in them, and the old instruction as backup |
| InstHook.Inst.Rehook | shadowhook/src/main/cpp/arch/arm64/sh_inst.c:387-403 | the old exit island is given back only after the new patch is in place; a failure changes nothing |
| InstHook.Inst.Unhook | shadowhook/src/main/cpp/arch/arm64/sh_inst.c:405-429 | restores the instruction and gives back everything, or refuses and keeps everything when the target was changed by somebody else |
| InstHook.Inst.HookRehookUnhook | shadowhook/src/main/cpp/arch/arm64/sh_inst.c:355-429 | round trip for any number of rehooks that succeed or fail: the target, the islands and the enters are what they were |
| InstHook.HookedIsInstalled | shadowhook/src/main/cpp/arch/arm64/sh_inst.c:261-277 | what a successful hook leaves in memory satisfies the hypothesis of the relocation theorems; the distances are those that the allocators ensure |
| Hub.SharedHub.AddProxy | shadowhook/src/main/cpp/sh_hub.c:475-504 | adds or revives a proxy, or reports a duplicate; the order of the functions already listed never changes, no function is listed twice, and the count is that of the enabled ones |
| Hub.SharedHub.DelProxy | shadowhook/src/main/cpp/sh_hub.c:506-518 | disables without unlinking: the list, on which running threads rely, stays as it is |
| HubStack.FrameStack.PushStack | shadowhook/src/main/cpp/sh_hub.c:331-382 | a frame is pushed exactly when no frame of this hub forbids it, a proxy is enabled and the stack has room; otherwise the original is called and the stack is as before |
| HubStack.FrameStack.PopStack | shadowhook/src/main/cpp/sh_hub.c:384-394 | only the call that pushed the top frame pops it |
| HubStack.FrameStack.GetPrevFunc | shadowhook/src/main/cpp/sh_hub.c:547-572 | the first enabled proxy behind the asking one in the list of the top frame, or the original |
| HubCalls.HookedCallReturns | shadowhook/src/main/cpp/sh_hub.c:331-394 | a call of a hooked function ends, whatever the proxies call and however lists and flags change meanwhile, with the stack as it was; the stack stays within 127 frames, and within one frame per hub when nobody allows reentry |
| HubCalls.HookedCallVisitsAll | shadowhook/src/main/cpp/sh_hub.c:547-572 | when all proxies pass the call on, each enabled one runs once, newest first, and then the original |
| SwitchChain.PathIsUnique | shadowhook/src/main/cpp/sh_switch.c:304-313 | the cells of a switch lead a thread through one well-defined sequence of proxies |
| Switch.Switch.ProxyAdd | shadowhook/src/main/cpp/sh_switch.c:265-315 | the error codes, the new queue, and a hub exactly when a shared proxy is the first one; and after each single store a thread visits the old queue or the new one and ends in the original |
| Switch.Switch.ProxyDel | shadowhook/src/main/cpp/sh_switch.c:325-377 | the same for removal; a thread that is still in a removed proxy goes on to the original; a failing rehook is an error exactly when the first of several entries goes and the target leads to it, and then the queue stays |
| Switch.Switch.HookUnique | shadowhook/src/main/cpp/sh_switch.c:587-628 | which error or success in each mode, and that a failure changes nothing |
| Switch.Switch.HookQueued | shadowhook/src/main/cpp/sh_switch.c:630-698 | the same for multi and shared mode; the queue grows at its end, and a hub appears once, with the first shared hook |
| Switch.Switch.UnhookUnique | shadowhook/src/main/cpp/sh_switch.c:748-776 | only a unique proxy is removed, interceptors stay, and without any the switch is given up |
| Switch.Switch.UnhookQueued | shadowhook/src/main/cpp/sh_switch.c:778-834 | exactly the given entry goes; which error otherwise; the switch stays valid if and only if it was not a shared unhook whose rehook failed, which leaves the trampoline queued and no function in the hub; with no hub the pointer that is passed on is NULL |
| Switch.Switch.NullHubIsPassedOn | shadowhook/src/main/cpp/sh_switch.c:807-834 | that can happen: a multi hook on a new switch, and a shared unhook |
| Switch.Switch.InterceptorAdd | shadowhook/src/main/cpp/sh_switch.c:407-451 | registered at most once; count and union of flags stay exact |
| Switch.Switch.InterceptorDel | shadowhook/src/main/cpp/sh_switch.c:453-475 | unregisters exactly that one; count and union are exact again |
| Switch.Switch.Intercept | shadowhook/src/main/cpp/sh_switch.c:858-896 | the proxies a thread visits are the same before, between and after the stores that put the launcher in front |
| Switch.Switch.Unintercept | shadowhook/src/main/cpp/sh_switch.c:907-936 | and when it is taken away |
| Switch.Switch.InterceptorCaller | shadowhook/src/main/cpp/sh_switch.c:387-405 | the enabled interceptors are called in list order, as many as are counted, and the next hop is the first proxy or the original, never null |
| Switch.Switch.Run | shadowhook/src/main/cpp/sh_switch.c:587-936 | any number of operations in any order, successful or not: after each single store of any of them a thread that enters ends in the original, and so does a thread inside any proxy that was queued since the target was last patched; there is a hub if and only if a shared hook has succeeded since then |
| Switch.Switch.ThreadsEndInTheOriginal | shadowhook/src/main/cpp/sh_switch.c:387-405 | in every valid state a thread visits exactly the visible proxies in order and ends in the original |
| Switch.Switch.FirstUnique | shadowhook/src/main/cpp/sh_switch.c:558-603 | the mode that the creating thread gave is not corrected by a first unique hook: the switch is in a valid state if and only if it was created for one |
| Switch.Switch.FirstLauncher | shadowhook/src/main/cpp/sh_switch.c:558-574 | the same for a first interceptor: the mode is right if and only if the switch was created without one |
| Switch.Switch.FirstQueued | shadowhook/src/main/cpp/sh_switch.c:630-698 | a first multi or shared hook corrects the mode: the switch is valid whoever created it |
| Switch.Switch.QueuedBehindUnique | shadowhook/src/main/cpp/sh_switch.c:587-663 | a race that loses a hook: both calls succeed and the queue holds the second proxy, but in the state that they leave the target leads to the first proxy and the original |
| Ref.RefManager.Enqueue | shadowhook/src/main/cpp/common/sh_ref.c:71-115 | what one critical section takes out of the queue and what it keeps: the ripe prefix, and of it the objects without references |
| Ref.NoUseAfterDestroy | shadowhook/src/main/cpp/common/sh_ref.c:52-115 | in every reachable state of any number of threads: nobody holds a reference to what was destroyed or is about to be, nothing is queued or destroyed twice, and nothing queued can be found again |
| Ref.StepsTouchLiveObjects | shadowhook/src/main/cpp/common/sh_ref.c:52-115 | no step of a thread touches a destroyed object |
| Ref.CountFallsOutside | shadowhook/src/main/cpp/common/sh_ref.c:52-69 | once an object has left its container its count never grows again |
| Task.CounterIsExact | shadowhook/src/main/cpp/sh_task.c:269-538 | in every reachable state in which no task is between two stores, the counter of unfinished tasks is their number; it is never negative |
| Task.ShortcutSkips | shadowhook/src/main/cpp/sh_task.c:355-361 | a callback that sees the count zero skips a registered pending task if and only if that task is still being inserted and all others are finished or undone |
| Task.InsertedBeforeCounted | shadowhook/src/main/cpp/sh_task.c:417-496 | that can happen: a task is listed before it is counted |
| Task.CallbackServesAll | shadowhook/src/main/cpp/sh_task.c:269-344 | when a callback ends, every task that it matched was served or undone |
| Trampo.TrampoManager.AllocBetween | shadowhook/src/main/cpp/common/sh_trampo.c:53-143 | the first usable slot in range of the first page that has one, or one on a new page; refused only when there is none; the abort behind the new-page loop is never reached |
| Trampo.TrampoManager.Free | shadowhook/src/main/cpp/common/sh_trampo.c:145-165 | frees exactly the slot that holds the address, and finds every live one |
| Trampo.QuarantineIsOver | shadowhook/src/main/cpp/common/sh_trampo.c:53-143 | a slot that comes back has been free for longer than the delay |
| Trampo.LiveAreDisjoint | shadowhook/src/main/cpp/common/sh_trampo.c:53-143 | live trampolines never overlap, on one page or on several |
| ElfAlloc.Gap.FindRun | shadowhook/src/main/cpp/sh_elf.c:445-486 | the search that jumps behind the first blocked unit finds what trying every start would find: the lowest run that fits, and none when none fits |
| ElfAlloc.Gap.AllocInGap | shadowhook/src/main/cpp/sh_elf.c:445-486 | marks exactly that run, or nothing |
| ElfAlloc.Gap.Free | shadowhook/src/main/cpp/sh_elf.c:563-591 | unmarks exactly the units of the allocation and stamps them |
| ElfAlloc.Gap.LiveAreDisjoint | shadowhook/src/main/cpp/sh_elf.c:445-591 | live allocations in a gap share no address |
| ElfGaps.GetGapsFromPhdr | shadowhook/src/main/cpp/sh_elf.c:240-301 | the loop finds the gaps of the specification, one at most behind each load segment |
| ElfGaps.GapsAreSound | shadowhook/src/main/cpp/sh_elf.c:240-301 | every gap is aligned and big enough, touches the memory image of no load segment, and no two gaps overlap |
| ElfGaps.AddSymbolGaps | shadowhook/src/main/cpp/sh_elf.c:303-341 | gaps out of useless symbols lie inside a symbol and are aligned; earlier gaps stay |
| ElfGaps.AllGaps | shadowhook/src/main/cpp/sh_elf.c:343-392 | all gaps together fit into the array that was allocated for them |
| Island.Pool.Alloc | shadowhook/src/main/cpp/sh_island.c:57-77 | anonymous pages first, gaps in order second; an island is new, aligned and in range, and no other one is lost |
| Island.Pool.Free | shadowhook/src/main/cpp/sh_island.c:79-88 | the island goes back to the backend it came from, and every other one stays |
| Island.Pool.LiveAreDisjoint | shadowhook/src/main/cpp/sh_island.c:57-88 | live islands never overlap, whichever backend they come from |
| Island.Pool.AllocEnter | shadowhook/src/main/cpp/arch/arm64/sh_inst.c:182-205 | whatever the allocator returns is close enough for the branch in the island |
| Island.Pool.AllocRewrite | shadowhook/src/main/cpp/arch/arm64/sh_a64.c:165-181 | the same for the branch island |
| Island.Pool.AllocExit | shadowhook/src/main/cpp/arch/arm64/sh_inst.c:219-248 | and for the exit island and the patch |
| ThumbRewrite.EmittedLenIsTableLen | shadowhook/src/main/cpp/arch/arm/sh_t16.c:76-92 | for every 16- and 32-bit instruction that can be rewritten the length table agrees with what is emitted |
| ThumbRewrite.ComputeFixAddr | shadowhook/src/main/cpp/arch/arm/sh_txx.c:38-60 | the cursor loop over halfwords keeps the Thumb bit and adds up the entries below the address |
| ThumbIt.ParseIt | shadowhook/src/main/cpp/arch/arm/sh_t16.c:237-274 | the two rounds over an IT block yield the block as the architecture reads it |
| ThumbIt.ParsedBlock | shadowhook/src/main/cpp/arch/arm/sh_t16.c:237-274 | no instruction of a block is lost or doubled: the ELSE and the THEN instructions, each in program order, span what the block spans |
| ThumbIt.EmitBlock | shadowhook/src/main/cpp/arch/arm/sh_inst.c:176-228 | both branches, left open and filled in later, and both arms are written, or it fails exactly when one instruction cannot be rewritten |
| ThumbWindow.GetRewriteInfo | shadowhook/src/main/cpp/arch/arm/sh_inst.c:96-157 | the first pass fills the table of the pieces that start in the window, within 13 entries |
| ThumbWindow.TableSumIsEmittedLen | shadowhook/src/main/cpp/arch/arm/sh_inst.c:96-264 | two passes agree: for any prefix of plain instructions and IT blocks the table adds up to the bytes emitted |
| ThumbWindow.FixUpLands | shadowhook/src/main/cpp/arch/arm/sh_txx.c:38-60 | the address of any piece, with or without the Thumb bit, becomes the address of its image, at a multiple of four |
| ThumbWindow.FixUpInside | shadowhook/src/main/cpp/arch/arm/sh_txx.c:38-60 | and an address inside a piece becomes the address behind its image |
| ThumbWindow.RewriteWindow | shadowhook/src/main/cpp/arch/arm/sh_inst.c:159-264 | keeps the overwritten halfwords, makes both passes, and fills the enter exactly as specified or fails at an instruction that cannot be rewritten |
| ThumbWindow.EnterFits | shadowhook/src/main/cpp/sh_enter.c:34-38 | the code for a four-byte window without IT blocks fits into one enter slot |
| ThumbArms.BlockRunsOneArm | shadowhook/src/main/cpp/arch/arm/sh_t16.c:276-284 | whatever the instructions: the emitted block runs the arm that the flags choose, from start to end, and goes on behind the block |
| ThumbArms.SplitKeepsMeaning | shadowhook/src/main/cpp/arch/arm/sh_inst.c:176-228 | under the exact condition splitting preserves the meaning of a block, for all instructions and states |
| ThumbArms.MaySplitIsExact | shadowhook/src/main/cpp/arch/arm/sh_inst.c:176-228 | splitting is right for all instructions and states if and only if the condition is not AL, none but the last instruction writes flags in the block, and none writes flags only when it is moved |
| ThumbArms.LowRegistersBreak | shadowhook/src/main/cpp/arch/arm/sh_t16.c:206-228 | a block with a 16-bit shift, ADD, SUB or MOV of low registers, or most data processing, never meets it |
| ThumbArms.FlagWriterBreaksSplit | shadowhook/src/main/cpp/arch/arm/sh_t16.c:276-284 | concrete block: ITE EQ; CMPEQ R0, #0; MOVNE R0, #1 runs one arm where the block runs both |
| ThumbArms.MovedMovBreaksSplit | shadowhook/src/main/cpp/arch/arm/sh_t16.c:206-228 | the same block: the moved MOV sets flags that the one in the block leaves alone |
| ThumbSim.ImageMeans | shadowhook/src/main/cpp/arch/arm/sh_t32.c:348-373 | wherever its image is placed, an instruction computes what it computed where it was, on a processor that decodes the emitted halfwords, whether it uses PC or is any other instruction: registers, flags, memory (but for eight bytes below SP when a register is borrowed), successor or fixed-up target, link register |
| ThumbSim.MovPcBreaks | shadowhook/src/main/cpp/arch/arm/sh_t16.c:144-157 | MOV PC, PC is the one exception: in every state its image goes to the right address, but leaves Thumb state |
| ThumbTable.TableBranchMeans | shadowhook/src/main/cpp/arch/arm/sh_t32.c:280-319 | the image of TBB or TBH goes where the table says, with the registers and the memory of the original, but with flags that it computed: from every state N is the top bit of the destination and Z, C and V are clear |
| ThumbMove.PieceMeans | shadowhook/src/main/cpp/arch/arm/sh_inst.c:159-264 | an instruction outside IT blocks does in the moved window what it did at its own address: falls through to the next image, branches to the image of its target, or leaves |
| ThumbSteps.ImageStep | shadowhook/src/main/cpp/arch/arm/sh_t16.c:206-228 | simulation of one instruction of any kind: the original machine and the hooked one agree but for a set of bytes before it, and after it and its image, but for a set that says which bytes were written or borrowed |
| ThumbBlock.BlockSteps | shadowhook/src/main/cpp/arch/arm/sh_inst.c:176-228 | on the processor that decodes the emitted halfwords: the code of a block of any instructions runs the arm that the flags choose, SP may change at every instruction, and it ends behind the block or where one of them goes |
| ThumbBlock.BlockIsArm | shadowhook/src/main/cpp/arch/arm/sh_t16.c:276-284 | a run of the block in its place, each instruction under its own condition, is the run of one arm, if each executed instruction does the same outside and keeps the condition for those behind it |
| ThumbBlock.MaySplitKeepsCond | shadowhook/src/main/cpp/arch/arm/sh_t16.c:276-284 | the exact condition of ThumbArms is enough for that, for the instructions of this machine |
| ThumbRun.PieceSteps | shadowhook/src/main/cpp/arch/arm/sh_inst.c:159-264 | one piece of a moved window, an instruction or a whole IT block, in which any may be instructions that do not use PC: the image leads to what the piece led to |
| ThumbRun.WindowRuns | shadowhook/src/main/cpp/arch/arm/sh_inst.c:159-264 | forward simulation by induction on the run: n pieces of the original from any piece of the window, branches back into it among them, are the runs of n images; registers, flags and memory agree but for a tracked set |
| ThumbRun.EnteredWindowRuns | shadowhook/src/main/cpp/arch/arm/sh_inst.c:159-264 | the same from the enter, through the prolog that brings IP back, to the instruction behind the window, in Thumb state, or to any other destination |
| A32Rewrite.ComputeFixAddr | shadowhook/src/main/cpp/arch/arm/sh_a32.c:162-177 | the cursor loop adds up exactly the entries of the instructions below the address |
| A32Rewrite.EmittedLenIsTableLen | shadowhook/src/main/cpp/arch/arm/sh_a32.c:124-156 | for every word that can be rewritten the length table agrees with what is emitted |
| A32Sim.ImageMeans | shadowhook/src/main/cpp/arch/arm/sh_a32.c:397-424 | for every class of instruction, those that do not use PC included: the image, decoded and executed, computes what the instruction computed where it was, flags and shifted operands included, whether its condition holds or not, under the exact condition of A32Exact |
| A32Exact.RightIsExact | shadowhook/src/main/cpp/arch/arm/sh_a32.c:217-395 | for every word: its image is right wherever it is placed and in every state if and only if SP is not the result of an image that borrows a register (R12 of a double load included), and an operand that is SP beside PC, or PC twice, or PC beside SP in an ADD or SUB that is moved as it is, is shifted so far that the difference is lost: by LSR #32, LSL #30 or LSL #31 |
| A32Data.SpResultBreaks | shadowhook/src/main/cpp/arch/arm/sh_a32.c:217-306 | how SP fails as a result: in every state in which the condition holds, the image of an ADD, SUB or MOV to SP whose operands are seen right leaves SP four too high |
| A32Sim.FixUpLands | shadowhook/src/main/cpp/arch/arm/sh_a32.c:162-177 | the address of an instruction of the window becomes the address of its image |
| A32Sim.InstMeans | shadowhook/src/main/cpp/arch/arm/sh_inst.c:442-481 | in the moved window an instruction of any kind falls through to the next image, branches to the image of its target, or leaves for it |
| A32Run.WindowRuns | shadowhook/src/main/cpp/arch/arm/sh_inst.c:442-481 | forward simulation by induction on the run: n original steps of any instructions from anywhere in the window, branches back into it among them, are the runs of n images; registers, flags and memory agree but for a tracked set |
| A32Run.EnteredWindowRuns | shadowhook/src/main/cpp/arch/arm/sh_inst.c:442-481 | the same from the enter, through the prolog that brings IP back, to the instruction behind the window or to any other destination |
| A32Sim.EnterFits | shadowhook/src/main/cpp/sh_enter.c:34-38 | the code for a window of one instruction fits into one enter slot |
| A32Sim.RewriteWindow | shadowhook/src/main/cpp/arch/arm/sh_inst.c:442-481 | keeps the original words and fills the enter as specified, or fails exactly when an instruction cannot be rewritten |
| Calendar.FindYear | shadowhook/src/main/cpp/common/sh_util.c:324-375 | the year-guess loop ends for every number of days, and splits them into a year and a day of it |
| Calendar.LocaltimeR | shadowhook/src/main/cpp/common/sh_util.c:324-375 | for every time and offset: a Gregorian date with exactly that many seconds, with its day of the year, or overflow exactly when its year does not fit |
| Calendar.DateIsUnique | shadowhook/src/main/cpp/common/sh_util.c:324-375 | there is only one such date |
| Calendar.WdayIsRight | shadowhook/src/main/cpp/common/sh_util.c:324-375 | the weekday, computed in an int, is right if and only if the day number has left the range of int a multiple of seven times |
| Calendar.WdayInRange | shadowhook/src/main/cpp/common/sh_util.c:324-375 | so it is for every day number that fits an int |
| Calendar.WdayCanBeWrong | shadowhook/src/main/cpp/common/sh_util.c:324-375 | and it is not for day 2^31 |

## Left out

- A64Rewrite.RewriteWindow: the branch island that sh_a64_build_island_rewrite allocates on the way is a parameter of the window, because Island and InstHook model its allocation.
- A64Relocation.ImageSimulates: BC.cond is not decoded, because the source does not know it either; a literal that lies partly inside the window is excluded by its rules, as are indirect jumps back into the window.
- A64Window.MidFunctionIsExact: an instruction that is not PC-relative is any effect that neither reads nor writes the engine's own code and reads no byte that may differ; register pairs stored to the stack are decoded.
- A64Window.WindowRuns: addresses of code do not wrap around the top of the address space.
- A64Window.EnteredWindowRuns: SH_CONFIG_CORRUPT_IP_REGS is left at its default.
- InstHook.Inst.Hook: only hooks with islands; the 16- and 24-byte windows of hooks without islands are windows of A64Window. Memory protection, crashes while reading and the outcome of writes are parameters; the caller's orig_addr cell, which is set again when a hook fails, is not part of the state.
- ThumbSim.ImageMeans: an instruction that is moved unchanged has any effect in which PC plays no part, outside and inside IT blocks; calls by register, pushes, pops and the loads and stores that images are made of are decoded. What the architecture leaves undefined is excluded.
- ThumbTable.TableBranchMeans: ADDS is not decoded, its effect is required of the machine; because the flags differ, a table branch is not a step of ThumbRun.WindowRuns.
- ThumbRun.WindowRuns: computed branches back into the window are excluded, and so are branches to anything but the start of a piece; addresses of code do not wrap around.
- ThumbArms.SplitKeepsMeaning: an IT instruction inside an IT block, which the architecture forbids, is excluded.
- A32Sim.ImageMeans: an instruction that is moved unchanged has any effect in which PC plays no part, but for calls by register and for ADD and SUB of SP and PC, which are decoded. PC in the list of a PUSH, a MOV of PC with bits set that should be zero, and data processing other than ADD, SUB and MOV that reads PC, are excluded.
- A32Run.WindowRuns: computed branches back into the window are excluded; addresses of code do not wrap around.
- Switch.Switch.HookUnique: finding the switch and taking its lock is one step; FirstUnique, FirstQueued and FirstLauncher say what becomes of a switch that another thread created. Every proxy has an orig_addr cell of its own.
- Switch.Switch.ProxyAdd: creating a hub and allocating memory do not fail.
- Switch.Switch.UnhookUnique: unpatching the target does not fail; sh_switch.c:762-764 destroys the switch all the same.
- Switch.Switch.UnhookQueued: the same for the last entry; a failing rehook before that is modelled.
- Switch.Switch.Intercept: a word of interceptor flags is the set of its bits; allocating the launcher and patching a target again do not fail.
- Switch.Switch.Unintercept: patching and unpatching the target do not fail.
- Hub.SharedHub.AddProxy: memory allocation does not fail.
- HubCalls.HookedCallReturns: originals that call hooked functions in a cycle of their own are excluded, because they would not end without hooks either.
- Ref.NoUseAfterDestroy: memory is sequentially consistent; that running threads have left a proxy after the delay is the design's assumption and not provable.
- Trampo.TrampoManager.AllocBetween: a range is checked against the start of a trampoline only, as in the source; a slot that was never used waits for the delay after boot.
- ElfGaps.AddSymbolGaps: which symbols are useless, and where they are, are parameters.
- Island.Pool.Alloc: the gaps are all loaded; sh_elf loads those out of symbols late, and tries again.
- Calendar.LocaltimeR: 64-bit overflow of the number of seconds; the time zone lookup.
- sh_inst.c for arm: hook, rehook and unhook, which repeat those for arm64 with other windows.
- sh_switch_hook_invisible and sh_inst_free_after_dlclose: one call of sh_inst_hook without a switch, and giving islands back without writing to an unloaded target.
- The assembly glue (sh_glue.S) and the hub's trampoline code: not part of this model.
- sh_linker.c, sh_xdl.c, sh_recorder.c, sh_jni.c, shadowhook.c, bytesig.c: symbol lookup, records, logging, signals and the public interface, which only pass values on.
