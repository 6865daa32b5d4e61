# Verified models of the skynet core

This project models the hard, self-contained C code of skynet and of the libraries that are
built into it, and proves what that code is for. `dafny verify dfyconfig.toml` checks all of it.
Every module says which part of the system it stands for.

**Patterns (LPeg).** `LpegTree` gives trees without grammars their meaning as parsing
expressions. `LpegAnalysis` has the conservative analyses of the compiler, each with a theorem
about that meaning. `LpegMachine` is the virtual machine, one instruction a step. `LpegCode` is
the code of a tree as a function, `LpegCompiler` the generator as it runs: a growing array into
which labels are patched. `LpegCorrect` proves the code correct in context: whether a choice
point may be left out depends on what follows, so the theorem says what the code does under any
stack, in front of any follow set, and with a live choice of an enclosing optional pattern.
`LpegPeephole` rewrites labels and jumps in place and keeps every outcome, on the strength of
`LpegLinked`. `LpegFlat` has the trees as the arrays of nodes that they are stored in, and the
fix that rewrites them; `LpegBuild` the operators that simplify trees; `LpegCharset` the sets as
32 bytes. `LpegMatch` puts all of it together: matching a pattern gives the meaning of its tree.

**Timer.** `SkynetWheel` has the arithmetic of the hierarchical wheel, with its 32-bit clock that
wraps; `SkynetTimer` the wheel itself, which behaves like a bag of deadlines. Requests of other
threads may come between any two locked sections.

**Scheduler.** `SkynetQueue` has the ring of a service and the list of scheduled queues (rings are
in `RingBuffer`), `SkynetScheduler` the protocol of workers, creators, senders and killers over
them as a state machine, each locked or atomic section a step, for any number of threads.
`SkynetHistory` says what each step does to the messages of each service, and from that what any
run did; how many messages a worker takes, and when it gives a queue back.

**Handles.** `SkynetHandle` has the slot table that doubles, and the sorted names.

**Sockets.** `SkynetSocket` has the two write lists of a TCP socket. The operating system may take
any prefix of what it is given, nothing, or fail, at every call.

**Shared state.** `SkynetRwlock` is the reader/writer lock, for any number of threads. `SkynetStm` is
a state machine for the reference-counted snapshots that it protects, `SkynetStmObject` one for the
life of the object that has them. `LuaSharedata` packs a table into an array and a hash with chains
inside the slot array, and looks keys up in it.

**Streams and codecs.** `LuaNetpack` cuts streams of many connections into packets, `ServiceGate` and
`ServiceHarbor` those of the gate and of the links between nodes. `LuaSeri` has
the bytes of Lua values and the theorem that they are read back, `LuaSeriForms` which bytes stand
for a value, `LuaSeriStream` the block list and the buffer that they are written to and read from. `Endian` has
the order of the bytes of a number.

**Numbers and ciphers.** `DtoaWords`, `DtoaBigint` and `DtoaScale` are the multi-word integers of
the number conversion: multiply, subtract, compare, shift, and the quotient of one digit.
`CryptPowmod` has the 64-bit modular power and the key exchange, `CryptDes` the block cipher
and `CryptDesKeys` its key schedule, each proved to be what FIPS 46 says.

C integers are modelled as what they are: words of 8, 32 and 64 bits with explicit wrap-around
where the code relies on it or could meet it, unbounded where the code cannot leave its range.
Where the code and the comments around it, or the obvious expectation, differ, the model follows
the code:

* `powmodp` reduces only bases above P, so P to the power 1 is P and not 0. That is the only pair
  for which the result is not the power modulo P (`CryptPowmod.Powmodp`); the key exchange never
  meets it.
* After the 24-bit index of handles has wrapped, a handle may be given out a second time, and so
  may the reserved handle 0 (`SkynetHandle.WrapAround`). Before that, neither happens
  (`SkynetHandle.RunAll`); the index where the search stops decides
  (`SkynetHandle.HandleStorage.Register`).
* The creator of a service goes on to use the context after it gave its reference back. The context
  is still in memory exactly when its count is above zero (`SkynetScheduler.LateUse`), and when the
  handle was retired in between, it is not (`SkynetScheduler.LaunchRace`).
* The handle of a service is in the table before its queue is made, so a message can come too early
  (`SkynetScheduler.EarlyPush`, `SkynetScheduler.MadeByCreator`).
* A reader of a shared object that was updated and then cleared is told that nothing changed
  (`SkynetStm.Unnoticed`); this is the only case (`SkynetStm.NoChange`).
* The search for the padding of a decrypted text compares an `int` with an unsigned number. For a
  single block that decrypts to zeros it does not stop at the front of the buffer, and only then
  (`CryptDes.DecodeOutside`).
* A reader of a shared object gives its reference back before it unlocks. The object is in memory at
  the unlock exactly when another reference is left (`SkynetStmObject.LateUnlock`), and when a second
  reader leaves in between, it is not (`SkynetStmObject.LeaveRace`).
* Keys of a shared table are cut to 32 bits. Keys that become equal cost a slot
  (`LuaSharedata.NotPacked`, `LuaSharedata.FiveTwice`), and an absent key is answered with the value of
  one with the same 32 bits (`LuaSharedata.LookedUp`).
* A gate header of four bytes is a signed number. Behind a negative one a connection stalls for ever
  (`ServiceGate.StalledForEver`); after the close for a packet that is too long, chunks that were on
  their way are parsed as a new stream (`ServiceGate.FirstClose`, `ServiceGate.AfterClose`).
* Between nodes a frame without data is taken only when more bytes come (`ServiceHarbor.RunIs`). Of a
  frame of fewer than 12 bytes the cookie is read in front of the buffer (`ServiceHarbor.ForwardLocal`
  has `Outside`); the frames of another node have 12 at least (`ServiceHarbor.Delivered`).
* A node sends messages of up to 4 GB to another one, which closes the link at 16 MB
  (`ServiceHarbor.ArrivesIff`).
* A packet that is alone in its chunk is returned at once and overtakes packets that wait in the
  queue (`LuaNetpack.Overtaken`, `LuaNetpack.DeskInOrder`).
* A half-closed socket whose last low messages go out in one call stays open with nothing left to
  send, until the next event (`SkynetSocket.Socket.SendBuffer`).
* A direct write that stops half-way puts the message on the high list even when it has low
  priority. The order within each priority still holds, because nothing else was waiting.
* A clock that went back is logged as an error, and only moves the point of reference: no tick.
* The search for a free slot of a packed table starts at the first slot every time; the variable
  that could remember the place is never moved.

## Model

| member | source | states |
|---|---|---|
| LpegMatch.Pattern.Match | 3rd/lpeg/lptree.c:1149-1167 | The match function returns exactly the PEG meaning of the tree that the pattern was built with, end position and captures, on every subject and from every start position; it compiles on first use |
| LpegMatch.Compile | 3rd/lpeg/lpcode.c:973-982 | For every well-formed tree, the code that is generated and optimized stops on every subject, from every position, with the result of the tree |
| LpegMatch.Pattern.PrepCompile | 3rd/lpeg/lptree.c:1095-1100 | The tree becomes the fixed one, in which no sequence or choice begins with its own kind, and the code compiled from it has the meaning of the pattern |
| LpegMatch.Pattern.constructor | 3rd/lpeg/lptree.c:1095-1100 | A new pattern has its tree and no code |
| LpegMatch.Interpret | 3rd/lpeg/lpvm.c:147-351 | For every halting run of the step machine, the interpreter loop stops with its outcome; the number of its steps is a ghost argument |
| LpegMatch.Round | 3rd/lpeg/lpvm.c:157-349 | One turn of the loop is one step of the machine |
| LpegMatch.Backtrack | 3rd/lpeg/lpvm.c:277-288 | A failure pops the pending calls, then restores position, capture level and address of the top choice |
| LpegMatch.SkipSpan | 3rd/lpeg/lpvm.c:222-229 | A span skips exactly the longest run of members of the set |
| LpegMatch.InitPosition | 3rd/lpeg/lptree.c:1131-1143 | The start position is inside the subject: positive arguments count from 1, negative ones from the end; behind the end it is the end, in front of the beginning it is 0 |
| LpegMachine.OutcomeUnique | 3rd/lpeg/lpvm.c:147-351 | A code array has at most one outcome on a subject |
| LpegCorrect.Correct | 3rd/lpeg/lpcode.c:440-922 | Compiler correctness in context: from any address, stack and capture list, the code of a tree reaches its end with the captures of the tree, or fails; a choice may be left out because the follow set or the optional flag makes it redundant |
| LpegCorrect.PatternCorrect | 3rd/lpeg/lpcode.c:973-982 | Before the peephole pass, the whole code of a pattern halts with the meaning of the pattern on every subject |
| LpegCorrect.EmitEvents | 3rd/lpeg/lpvm.c:300-348 | The capture list that the machine builds, with its full and merged captures, means the captures of the tree |
| LpegCorrect.CanTestSound | 3rd/lpeg/lpcode.c:655-666 | Where a test replaces a choice point, a later failure of the pattern leaves nothing else to try |
| LpegCorrect.CorrectTestedChoice | 3rd/lpeg/lpcode.c:655-666 | A choice without a choice point has the meaning of the ordered choice |
| LpegCorrect.CorrectOptionalChoice | 3rd/lpeg/lpcode.c:667-671 | Reusing the live choice of an enclosing optional pattern keeps the meaning |
| LpegCorrect.CorrectChoice | 3rd/lpeg/lpcode.c:672-684 | The full form, with test, choice and commit, has the meaning of the ordered choice |
| LpegCorrect.CorrectTestedRep | 3rd/lpeg/lpcode.c:758-766 | A loop around a test has the meaning of the repetition |
| LpegCorrect.CorrectChoiceRep | 3rd/lpeg/lpcode.c:767-783 | A loop with partial commits, entered by a new choice or by the live one, has the meaning of the repetition |
| LpegCorrect.CorrectNot | 3rd/lpeg/lpcode.c:795-809 | The negative lookahead consumes nothing and succeeds exactly when its pattern fails, in both of its forms |
| LpegCorrect.CorrectAnd | 3rd/lpeg/lpcode.c:693-710 | The positive lookahead, by stepping back or by a back commit, consumes nothing and drops captures |
| LpegCorrect.CorrectBehind | 3rd/lpeg/lpcode.c:632-637 | The look-behind matches its pattern right before the position |
| LpegCorrect.CorrectCapture | 3rd/lpeg/lpcode.c:717-729 | A capture, as one full instruction or as an open and close pair, records the same event |
| LpegCorrect.CorrectSeq | 3rd/lpeg/lpcode.c:871-887 | A sequence passes follow set and test on so that both parts stay correct |
| LpegAnalysis.NoFailSound | 3rd/lpeg/lpcode.c:172-205 | A pattern accepted by `nofail` never fails |
| LpegAnalysis.NullableSound | 3rd/lpeg/lpcode.c:172-205 | A pattern that is not nullable consumes a character whenever it succeeds |
| LpegAnalysis.FixedLenXSound | 3rd/lpeg/lpcode.c:213-256 | A known length is the exact length of every success |
| LpegAnalysis.NoCapturesSound | 3rd/lpeg/lpcode.c:131-150 | A pattern that `hascaptures` rejects produces no capture |
| LpegAnalysis.FirstSound | 3rd/lpeg/lpcode.c:267-344 | On a next character outside the first set the pattern fails, or it matches the empty string in front of a character outside the follow set |
| LpegAnalysis.EmptySound | 3rd/lpeg/lpcode.c:267-344 | When the empty string is not reported, the pattern fails at the end of the subject |
| LpegAnalysis.NoFailFirst | 3rd/lpeg/lpcode.c:267-344 | The first set of a pattern that cannot fail is full |
| LpegAnalysis.HeadFailSound | 3rd/lpeg/lpcode.c:350-374 | A `headfail` pattern succeeds exactly when the next character is in its first set |
| LpegCompiler.CompileState.AddInstruction | 3rd/lpeg/lpcode.c:467-472 | The array grows by exactly one instruction |
| LpegCompiler.CompileState.AddOffsetInst | 3rd/lpeg/lpcode.c:478-483 | The array grows by exactly an instruction and an open label |
| LpegCompiler.CompileState.AddCharset | 3rd/lpeg/lpcode.c:546-555 | The array grows by exactly the bits of a set |
| LpegCompiler.CompileState.CodeChar | 3rd/lpeg/lpcode.c:534-540 | The array grows by exactly a character test, or any character when the test before it already said which |
| LpegCompiler.CompileState.CodeCharset | 3rd/lpeg/lpcode.c:561-577 | The array grows by exactly the code for the kind of the set |
| LpegCompiler.CompileState.CodeTestSet | 3rd/lpeg/lpcode.c:587-605 | The array grows by exactly a test with an open label, or nothing when the empty string is accepted |
| LpegCompiler.CompileState.CodeBehind | 3rd/lpeg/lpcode.c:632-637 | The array grows by exactly the look-behind |
| LpegCompiler.CompileState.CodeChoice | 3rd/lpeg/lpcode.c:650-685 | The array grows by exactly the choice, in the form that its analyses allow, with every label patched to its final place |
| LpegCompiler.CompileState.CodeTestedChoice | 3rd/lpeg/lpcode.c:655-666 | The array grows by exactly the choice without a choice point, with every label patched to its final place |
| LpegCompiler.CompileState.CodeOptional | 3rd/lpeg/lpcode.c:667-671 | The array grows by exactly the optional pattern under a live choice, with every label patched to its final place |
| LpegCompiler.CompileState.CodeFullChoice | 3rd/lpeg/lpcode.c:672-684 | The array grows by exactly the full choice, with every label patched to its final place |
| LpegCompiler.CompileState.CodeAnd | 3rd/lpeg/lpcode.c:693-710 | The array grows by exactly the positive lookahead, with every label patched to its final place |
| LpegCompiler.CompileState.CodeCapture | 3rd/lpeg/lpcode.c:717-729 | The array grows by exactly the capture, with every label patched to its final place |
| LpegCompiler.CompileState.CodeRep | 3rd/lpeg/lpcode.c:749-785 | The array grows by exactly the repetition, in the form that its analyses allow, with every label patched to its final place |
| LpegCompiler.CompileState.CodeTestedRep | 3rd/lpeg/lpcode.c:758-766 | The array grows by exactly the loop around a test, with every label patched to its final place |
| LpegCompiler.CompileState.CodeChoiceRep | 3rd/lpeg/lpcode.c:767-783 | The array grows by exactly the loop with partial commits, with every label patched to its final place |
| LpegCompiler.CompileState.CodeNot | 3rd/lpeg/lpcode.c:795-809 | The array grows by exactly the negative lookahead, with every label patched to its final place |
| LpegCompiler.CompileState.CodeSeq1 | 3rd/lpeg/lpcode.c:871-887 | The array grows by exactly the first part of a sequence, and the test that still holds behind it |
| LpegCompiler.CompileState.CodeGen | 3rd/lpeg/lpcode.c:891-922 | The array grows by exactly the code of the tree, with every label patched to its final place |
| LpegCompiler.CompileState.constructor | 3rd/lpeg/lpcode.c:973-977 | Compilation starts with no code |
| LpegCompiler.CompileState.JumpToThere | 3rd/lpeg/lpcode.c:516-519 | Only the label of the given instruction changes, to the relative distance; no instruction, no change |
| LpegCompiler.CompileState.JumpToHere | 3rd/lpeg/lpcode.c:525-527 | The label leads to the end of the code so far |
| LpegPeephole.FinalTarget | 3rd/lpeg/lpcode.c:614-618 | The chain of jumps from an address ends, at an instruction that is not a jump |
| LpegPeephole.FollowJumps | 3rd/lpeg/lpcode.c:614-618 | The loop stops at the end of the chain |
| LpegPeephole.Optimize | 3rd/lpeg/lpcode.c:930-966 | One visit keeps every outcome and keeps the code linked; afterwards the label of the visited instruction, of whatever kind, leads to the end of its chain |
| LpegPeephole.Peephole | 3rd/lpeg/lpcode.c:928-967 | The pass keeps every outcome of the code on every subject; afterwards the label of every instruction leads to an instruction that is not a jump, and a jump that is left leads to one that could not stand in its place |
| LpegPeephole.RewriteKeeps | 3rd/lpeg/lpcode.c:928-967 | Every halting run has a run of the rewritten code with the same outcome |
| LpegPeephole.RewrittenLinked | 3rd/lpeg/lpcode.c:928-967 | After a rewriting, labels still lead to instructions, never into one, and jumps still end |
| LpegLinked.PatternLinked | 3rd/lpeg/lpcode.c:440-982 | The code of every tree is linked and its chains of jumps end, as the pass needs it |
| LpegLinked.GenPiece | 3rd/lpeg/lpcode.c:440-922 | Every label in the code of a tree leads to an instruction of this code or to its end |
| LpegFlat.MoveDown | 3rd/lpeg/lptree.c:85 | The nodes move one place down and nothing else moves |
| LpegFlat.CorrectAssociativity | 3rd/lpeg/lptree.c:78-90 | In place, the tree at the index becomes the fully rotated tree; nodes outside of it stay |
| LpegFlat.RotateStep | 3rd/lpeg/lptree.c:80-89 | In place, one rotation of the nodes |
| LpegFlat.FinalFixInPlace | 3rd/lpeg/lptree.c:100-126 | In place, the tree at the index becomes the fixed tree; nodes outside of it stay |
| LpegFlat.RotateKeeps | 3rd/lpeg/lptree.c:78-90 | Rotating keeps matches and captures |
| LpegFlat.FinalFixKeeps | 3rd/lpeg/lptree.c:100-126 | The final fix keeps matches and captures of every tree |
| LpegFlat.FinalFixAssociative | 3rd/lpeg/lptree.c:100-126 | After the fix no sequence begins with a sequence, no choice with a choice |
| LpegFlat.FinalFixWellFormed | 3rd/lpeg/lptree.c:100-126 | The fix keeps well-formed trees well-formed |
| LpegFlat.FinalFixAnalysis | 3rd/lpeg/lptree.c:100-126 | The fix does not change what the analyses say |
| LpegBuild.MakeSeqMeans | 3rd/lpeg/lptree.c:532-542 | The simplified sequence means the sequence |
| LpegBuild.MakeChoiceMeans | 3rd/lpeg/lptree.c:551-566 | The simplified choice, also when two sets merge or the second part is dropped, means the choice |
| LpegBuild.MakeSubMeans | 3rd/lpeg/lptree.c:627-646 | The difference matches the first pattern exactly where the second one fails |
| LpegBuild.MakeStar | 3rd/lpeg/lptree.c:572-602 | A repetition is refused exactly when its body may accept the empty string; what is built is well-formed |
| LpegBuild.MakeStarMeans | 3rd/lpeg/lptree.c:572-602 | What is built for `p^n`, n >= 0, matches exactly when `p` matches n times in a row and then takes every match there is; for `p^-n` it always matches, at most n times, and fewer only where `p` fails next |
| LpegBuild.AtLeastMeans | 3rd/lpeg/lptree.c:576-584 | `p^n` matches exactly when `p` matches n times in a row, and takes every further match |
| LpegBuild.AtMostMeans | 3rd/lpeg/lptree.c:585-599 | `p^-n` always matches and takes as many matches as there are, up to n |
| LpegBuild.MakeBehind | 3rd/lpeg/lptree.c:680-690 | A look-behind is refused exactly for unknown or too long lengths and for captures |
| LpegBuild.MakeBehindMeans | 3rd/lpeg/lptree.c:676-690 | A look-behind succeeds, and takes nothing, exactly where a match of its pattern ends |
| LpegCharset.CharsetTypeOf | 3rd/lpeg/lpcode.c:41-82 | The kind found by looking at bytes is the kind of the set: empty, single, full or general, with the right single character |
| LpegCharset.Complement | 3rd/lpeg/lpcode.c:88-90 | The bytes hold the complement |
| LpegCharset.Union | 3rd/lpeg/lpcode.c:282-288 | The bytes hold the union |
| LpegCharset.Intersection | 3rd/lpeg/lpcode.c:323-327 | The bytes hold the intersection |
| LpegCharset.Disjoint | 3rd/lpeg/lpcode.c:97-100 | True exactly when no character is in both sets |
| SkynetTimer.RunOnTime | skynet-src/skynet_timer.c:74-184 | For every interleaving of adds and ticks: the log is what was due at each tick so far, in the order of the adds; all the rest is pending |
| SkynetTimer.DispatchedOnce | skynet-src/skynet_timer.c:74-184 | Every event is dispatched as often as it was added for that tick: once, never early, never late, never lost |
| SkynetTimer.RunCalls | skynet-src/skynet_timer.c:95-280 | For any history of requests and clock readings, with what other threads ask for around every tick: each event that was asked for, by whomever, is dispatched at its tick as often as it was asked for, and all the rest waits; for readings that do not fall, the ticks are the hundredths of a second between the first and the last, and the clock has moved by as many |
| SkynetTimer.TicksAreTime | skynet-src/skynet_timer.c:266-280 | For readings that do not fall, the number of ticks is the time that passed |
| SkynetTimer.RequestOnTime | skynet-src/skynet_timer.c:95-105 | In any run, a request with a delay is dispatched that many ticks after it was made |
| SkynetTimer.Timer.constructor | skynet-src/skynet_timer.c:187-208 | A new timer is the empty bag |
| SkynetTimer.Timer.Link | skynet-src/skynet_timer.c:67-71 | The node is appended to one list |
| SkynetTimer.Timer.LinkClear | skynet-src/skynet_timer.c:58-64 | The list is taken out as a whole and left empty |
| SkynetTimer.Timer.AddNode | skynet-src/skynet_timer.c:74-92 | The node goes to the one list that its expiry and the clock determine, at its end |
| SkynetTimer.Timer.TimerAdd | skynet-src/skynet_timer.c:95-105 | Adding to the wheel is adding to the bag of deadlines, also across the wrap of the clock |
| SkynetTimer.Timer.MoveList | skynet-src/skynet_timer.c:108-115 | The nodes of a list are spread, in order, over the lists where they belong now |
| SkynetTimer.Timer.TimerShift | skynet-src/skynet_timer.c:118-138 | The clock moves on by one; the one list that comes nearer is moved exactly when the near wheel has gone round |
| SkynetTimer.Timer.ShiftBag | skynet-src/skynet_timer.c:118-138 | The shift keeps every pending node in exactly the list that adding would choose now |
| SkynetTimer.Timer.TimerExecute | skynet-src/skynet_timer.c:159-169 | Exactly what is due is dispatched, in order, whatever other threads add while the lock is open |
| SkynetTimer.Timer.TimerUpdate | skynet-src/skynet_timer.c:172-184 | One update is one tick of the bag |
| SkynetTimer.Timer.UpdateTime | skynet-src/skynet_timer.c:266-280 | One tick for each hundredth of a second between the two readings, also across the wrap of 2^32, and the clock moves by as many; none when the clock went back; the requests of other threads around each tick enter the wheel |
| SkynetWheel.PlaceOf | skynet-src/skynet_timer.c:74-92 | The list of a node: its slot is in range, and only the near wheel holds what is due within 256 ticks |
| SkynetWheel.PlaceWraps | skynet-src/skynet_timer.c:74-92 | The 32-bit wrap-around of clock and expiry does not change the list of a node that is not due yet |
| SkynetWheel.PlaceShift | skynet-src/skynet_timer.c:118-138 | When the clock moves on, only nodes of the list that is moved have a new place |
| SkynetWheel.ShiftMoves | skynet-src/skynet_timer.c:118-138 | Moving that one list and leaving all others gives the lists of the next time |
| SkynetWheel.DueInPlace | skynet-src/skynet_timer.c:159-169 | The slot of the current time holds exactly the due entries, in the order in which they were added |
| SkynetWheel.NotDueInPlace | skynet-src/skynet_timer.c:159-169 | Taking that slot leaves all other entries in place |
| SkynetQueue.GlobalQueue.constructor | skynet-src/skynet_mq.c:212-217 | The list is empty |
| SkynetQueue.GlobalQueue.Push | skynet-src/skynet_mq.c:44-56 | A queue that is not linked goes to the end |
| SkynetQueue.GlobalQueue.Pop | skynet-src/skynet_mq.c:59-75 | The queue at the front is taken; nothing from an empty list |
| SkynetQueue.MessageQueue.constructor | skynet-src/skynet_mq.c:78-96 | A new queue is empty and counts as scheduled |
| SkynetQueue.MessageQueue.Length | skynet-src/skynet_mq.c:112-125 | The length of the ring, also around its end |
| SkynetQueue.MessageQueue.TakeOverload | skynet-src/skynet_mq.c:128-135 | The alarm is reported once |
| SkynetQueue.MessageQueue.PopMessage | skynet-src/skynet_mq.c:138-172 | The first message, or the queue is off the schedule; the overload threshold doubles until it covers the rest and is reset by an empty queue |
| SkynetQueue.MessageQueue.RaiseThreshold | skynet-src/skynet_mq.c:156-159 | An alarm with the length exactly when it is above the threshold, which doubles as often as it must to cover it and no further |
| SkynetQueue.MessageQueue.ExpandQueue | skynet-src/skynet_mq.c:175-187 | A full ring keeps all its messages in order in a ring of twice the size |
| SkynetQueue.MessageQueue.PushMessage | skynet-src/skynet_mq.c:190-209 | The message is appended, across wrap-around and growth; the queue is put on the list exactly when it was not scheduled |
| SkynetQueue.MessageQueue.MarkRelease | skynet-src/skynet_mq.c:220-228 | The queue is marked, and put on the list exactly when it was not scheduled |
| SkynetQueue.MessageQueue.Release | skynet-src/skynet_mq.c:231-250 | A marked queue gives every message, in order, to the drop function; another one goes back to the list |
| RingBuffer.RingAppend | skynet-src/skynet_mq.c:190-209 | Writing at the tail appends, wrapped or not, up to the full ring |
| RingBuffer.FullAt | skynet-src/skynet_mq.c:175-187 | A full ring holds every slot once, from the head around |
| SkynetScheduler.KeepDo | skynet-src/skynet_server.c:126-351 | Every step of every thread keeps the invariant: each locked or atomic section, and each of the steps by which a service is made |
| SkynetScheduler.InvReachable | skynet-src/skynet_server.c:126-351 | The invariant holds in every reachable state, for any number of threads |
| SkynetScheduler.SafeRun | skynet-src/skynet_server.c:209-239 | In no run an assertion of the source fails, a queue is touched after it was freed, or a context after it was deleted by a thread that has a reference to it; uses without a reference and pushes before the queue is made have lemmas of their own |
| SkynetScheduler.WholeWhileCounted | skynet-src/skynet_server.c:209-227 | A context is in memory exactly while its count is above zero, which is while its handle is in the table or a thread refers to it |
| SkynetScheduler.LateUse | skynet-src/skynet_server.c:164-172 | A creator that uses the context after it gave its reference back finds it in memory exactly when the count is still above zero |
| SkynetScheduler.LaunchRace | skynet-src/skynet_server.c:164-172 | It need not be: a run in which the handle is retired in between, and the creator stores to, and its caller reads from, a context that is gone |
| SkynetScheduler.MadeByCreator | skynet-src/skynet_server.c:155-156 | The queue of a service is there exactly when its creator is past the step that makes it |
| SkynetScheduler.EarlyPush | skynet-src/skynet_server.c:155-156 | A message can come before that: a run in which a push finds a registered service without a queue |
| SkynetScheduler.OnePlace | skynet-src/skynet_server.c:297-351 | A live queue is at exactly one of: its creator or one worker, the list, idle; idle means off the schedule and empty |
| SkynetScheduler.NotStranded | skynet-src/skynet_mq.c:190-250 | A queue with messages, or with a service that is gone, is on the list or in the hands of a thread |
| SkynetScheduler.OneWorker | skynet-src/skynet_server.c:297-351 | No two workers dispatch the same service at once |
| SkynetScheduler.CountExact | skynet-src/skynet_server.c:196-227 | The reference count is the number of threads that refer to the service, and one for the handle table |
| SkynetScheduler.Conserved | skynet-src/skynet_mq.c:138-250 | In every reachable state: delivered, then dropped, then waiting messages are the history of pushes, in order; nothing is dropped before the service is gone |
| SkynetScheduler.FreedOnce | skynet-src/skynet_server.c:209-227 | A queue that is freed is never touched again |
| SkynetScheduler.GoneOnce | skynet-src/skynet_server.c:209-227 | A context is deleted once: it stays gone, with no count, no handle and no reference |
| SkynetHistory.Moves | skynet-src/skynet_mq.c:138-250 | What every step of every thread does to the messages of every service, told from the step and not from a record: a push puts its message at the end, a dispatch takes the first, dropping takes the first, nothing else moves any |
| SkynetHistory.Histories | skynet-src/skynet_mq.c:138-250 | In every run the records of the model are what the steps of the run put in, took and dropped, in order |
| SkynetHistory.RunConserved | skynet-src/skynet_mq.c:138-250 | In every run: the messages that a service was handed, then those dropped after it was gone, then those that wait, are exactly those that the steps of the run put in, in order |
| SkynetHistory.PushStep | skynet-src/skynet_mq.c:190-209 | A push leaves the old messages and the new one behind them, and the queue is on the list |
| SkynetHistory.SendArrives | skynet-src/skynet_server.c:230-244 | A send to a service that is registered, run alone: the message is behind those that waited, the count is as before, and nothing else changed |
| SkynetHistory.HalvedIs | skynet-src/skynet_server.c:330-331 | The share of a worker: the length divided by two to the power of its weight, rounded down |
| SkynetHistory.Batch | skynet-src/skynet_server.c:307-341 | A worker hands out exactly its share of the queue that it finds: one message for a negative weight; else the first, and as many in all as the share of the rest, if that is more |
| SkynetHistory.BatchKeeps | skynet-src/skynet_server.c:342-349 | At the end of a batch, with an empty list, the worker keeps its queue |
| SkynetHistory.BatchEnds | skynet-src/skynet_server.c:342-349 | At the end of a batch, with other queues listed, the worker goes on with the first of them and its own queue goes to the end of the list |
| SkynetHistory.Launches | skynet-src/skynet_server.c:155-173 | A creator alone, after a successful init: the service is set up, in the table, which alone refers to it, and its queue is at the end of the list |
| SkynetHistory.LaunchesGone | skynet-src/skynet_server.c:162-173 | A creator whose reference turns out to be the last deletes the service, lists its marked queue, and uses the service no more |
| SkynetHistory.LaunchFails | skynet-src/skynet_server.c:174-182 | A creator alone, after an init that failed: the service is out of the table and deleted, what was sent to it is dropped, in order, and its queue is freed without ever being listed |
| SkynetHistory.DroppedAll | skynet-src/skynet_mq.c:231-250 | The end of a marked queue: every message is dropped, in order, and the queue is freed |
| SkynetSocket.WirePrefix | skynet-src/socket_server.c:476-505 | The wire is a prefix of whole messages back to back, and the counter is exactly what is missing |
| SkynetSocket.GoneInOrder | skynet-src/socket_server.c:610-638 | Messages of one priority go out in the order in which they were accepted |
| SkynetSocket.Descriptor.Write | skynet-src/socket_server.c:480-489 | What a write does with the next answer of the system: it takes any prefix, or says again, interrupted or error |
| SkynetSocket.Descriptor.WriteAgain | skynet-src/socket_server.c:480-489 | Interrupted writes are tried again until there is another answer |
| SkynetSocket.Socket.constructor | skynet-src/socket_server.c:377-397 | A new socket has nothing to send and watches only while it connects |
| SkynetSocket.Socket.ForceClose | skynet-src/socket_server.c:332-352 | Both lists are freed; what was in them is what is dropped |
| SkynetSocket.Socket.SendFront | skynet-src/socket_server.c:478-500 | After one write the front message has moved on or has left the list, exactly as far as the answer says, and wire, lists and counter still agree |
| SkynetSocket.Socket.SendListTcp | skynet-src/socket_server.c:476-505 | What is left of the list, the answers used up, and whether an error closed the socket, are a function of the list and of the answers at the call: messages go in order until the list is empty or an answer does not take all of one |
| SkynetSocket.Socket.RaiseUncomplete | skynet-src/socket_server.c:585-599 | The begun message becomes the only one of the high list |
| SkynetSocket.Socket.SendLow | skynet-src/socket_server.c:616-625 | The low list is written; a message that was begun goes to the high list, so that no begun message is left in the low one |
| SkynetSocket.Socket.SendBuffer | skynet-src/socket_server.c:610-638 | Both lists afterwards, and the answers used up, are a function of the lists and answers at the call, the high list first; at most one message is partly out and it is first; the call closes the socket exactly when a write failed, or the socket is half-closed, nothing low waited before and nothing high waits now; the event is off when nothing low waited and nothing is left |
| SkynetSocket.AllGone | skynet-src/socket_server.c:610-638 | When the next answers take all they are given, a writable event leaves both lists empty, with one answer used for each message |
| SkynetSocket.ListsAsked | skynet-src/socket_server.c:610-638 | A writable event with something to send asks the system at least once |
| SkynetSocket.Socket.SendSocket | skynet-src/socket_server.c:693-761 | An accepted message goes behind those of its priority, before all low ones when it is high; with nothing waiting the system is asked at once, and exactly what it did not take goes first; else it is not asked |
| SkynetSocket.Socket.SendNow | skynet-src/socket_server.c:709-745 | The direct write, from the next answer: all out, or exactly the rest is queued and the event is on, or the error closes the socket |
| SkynetSocket.Socket.QueueLow | skynet-src/socket_server.c:746-752 | A low message goes behind all others |
| SkynetSocket.Socket.QueueHigh | skynet-src/socket_server.c:746-752 | A high message goes before all low ones |
| SkynetSocket.Socket.CloseSocket | skynet-src/socket_server.c:785-809 | A close flushes first, with the answers at the call; without a shutdown it closes exactly when a write failed or all went out, and half-closes the socket otherwise; a shutdown drops the rest |
| SkynetSocket.Socket.HalfClose | skynet-src/socket_server.c:806 | Only the state changes |
| SkynetSocket.Socket.ReportConnect | skynet-src/socket_server.c:1104-1135 | A successful connect keeps what waits and watches only while something does; a failed one closes |
| DtoaBigint.Bigint.Balloc | 3rd/lua-cjson/dtoa.c:560-607 | Room for a power of two of words |
| DtoaBigint.Multadd | 3rd/lua-cjson/dtoa.c:612-667 | Exactly `b * m + a`, in place or in a larger number |
| DtoaBigint.Mult | 3rd/lua-cjson/dtoa.c:805-913 | Exactly the product, without leading zero words |
| DtoaBigint.I2b | 3rd/lua-cjson/dtoa.c:789-803 | Exactly the word |
| DtoaBigint.Cmp | 3rd/lua-cjson/dtoa.c:1034-1066 | The sign of the result is the order of the values |
| DtoaBigint.Diff | 3rd/lua-cjson/dtoa.c:1068-1160 | Exactly the absolute difference and its sign, normalised |
| DtoaBigint.Lshift | 3rd/lua-cjson/dtoa.c:974-1032 | Exactly the value times a power of two |
| DtoaBigint.Quorem | 3rd/lua-cjson/dtoa.c:2119-2241 | For every divisor with a top word from 2^16 to 2^32-2 and a dividend of no more words: returns the quotient and leaves the remainder, because the one-word estimate is low by at most one |
| DtoaBigint.QuotientIs | 3rd/lua-cjson/dtoa.c:2119-2241 | That is the rounded-down quotient and the modulus |
| DtoaBigint.EstimateWords | 3rd/lua-cjson/dtoa.c:2149 | The estimate never exceeds the quotient and is less than two below it |
| DtoaBigint.FourBits | 3rd/lua-cjson/dtoa.c:2138-2149 | Four leading zero bits in the divisor and a dividend below 16 times it are enough for the quotient routine, and the quotient is below 16 |
| DtoaScale.Squares.constructor | 3rd/lua-cjson/dtoa.c:934-947 | The table of squares starts empty |
| DtoaScale.Squares.Square | 3rd/lua-cjson/dtoa.c:956-969 | Level i holds 5 to the power 4 times 2 to the i, made when first needed |
| DtoaScale.Pow5mult | 3rd/lua-cjson/dtoa.c:917-972 | Exactly the value times a power of five |
| DtoaScale.Hi0bits | 3rd/lua-cjson/dtoa.c:707-739 | The number of leading zero bits, by value: shifting by it fills the top bit |
| DtoaScale.Dshift | 3rd/lua-cjson/dtoa.c:2106-2117 | The shift after which, together with the other one, the divisor has exactly four leading zero bits |
| DtoaScale.FourZerosTop | 3rd/lua-cjson/dtoa.c:2106-2117 | A value in that range has four leading zero bits in its top word |
| LuaSharedata.ConvTable | lualib-src/lua-sharedata.c:275-323 | The packed table is complete for every source table whose keys stay apart as 32-bit integers and outside of the array part |
| LuaSharedata.SlotsExactly | lualib-src/lua-sharedata.c:190-208 | The slots that are counted on 64-bit keys are as many as the keys of the hash part have as 32-bit integers exactly when the keys stay apart |
| LuaSharedata.NotPacked | lualib-src/lua-sharedata.c:190-270 | For all other tables no filling is complete: a slot stays unused, or a key is held twice |
| LuaSharedata.LookedUp | lualib-src/lua-sharedata.c:531-564 | Looking up a 64-bit key gives its value in the source table exactly when the key is there or no key has the same 32 bits |
| LuaSharedata.FiveTwice | lualib-src/lua-sharedata.c:190-208 | The keys 5 and 5 + 2^32 have one slot for two, and a table with the key 5 answers for both |
| LuaSharedata.CountSize | lualib-src/lua-sharedata.c:66-87 | The number of keys that do not fit in the array part |
| LuaSharedata.Context.StringIndex | lualib-src/lua-sharedata.c:101-118 | Equal strings share one index, and an index names one string |
| LuaSharedata.Table.IsHashKey | lualib-src/lua-sharedata.c:190-208 | Which keys go to the hash part, and how they are written there, as 32-bit integers |
| LuaSharedata.Table.FillNoColliding | lualib-src/lua-sharedata.c:211-233 | After the first pass every free main position holds a key with that position, and the array part is full |
| LuaSharedata.Table.FreeSlotIndex | lualib-src/lua-sharedata.c:251-257 | There is a free slot: the assertion of the source never fails |
| LuaSharedata.Table.Collide | lualib-src/lua-sharedata.c:246-267 | A colliding key gets a free slot behind the head of its chain; chains stay acyclic and complete |
| LuaSharedata.Table.FillColliding | lualib-src/lua-sharedata.c:236-270 | After the second pass every key has a slot in the chain of its main position |
| LuaSharedata.Table.LookupKey | lualib-src/lua-sharedata.c:500-528 | The walk ends, at the slot of the key or with the answer that it is absent |
| LuaSharedata.Table.Index | lualib-src/lua-sharedata.c:531-564 | Looking up a key gives the value that the table has for the 32 bits of the key, and nothing when it has none |
| LuaSharedata.Table.NextKey | lualib-src/lua-sharedata.c:588-644 | The successor in the walk over array and slots, by the 32 bits of the key; unknown keys end it |
| LuaSharedata.AllKeysOnce | lualib-src/lua-sharedata.c:588-644 | The walk visits exactly the keys that the packed table has, each once |
| SkynetRwlock.LockKept | skynet-src/rwlock.h:18-48 | Whatever a thread does next with the lock, its counters are the threads inside and waiting, and a writer past its wait loop is alone |
| SkynetStm.DoMove | skynet-src/rwlock.h:18-48 | Each step of a reader or writer of the object is one of these steps of the lock, or none |
| SkynetStm.InvKept | lualib-src/lua-stm.c:46-113 | Every step of every thread keeps the invariant of lock, counts and versions |
| SkynetStm.InvReachable | lualib-src/lua-stm.c:46-113 | The invariant holds in every reachable state |
| SkynetStm.WriterAlone | skynet-src/rwlock.h:18-48 | A writer past its wait loop excludes all readers and other writers |
| SkynetStm.CountIsHolders | lualib-src/lua-stm.c:46-113 | The count of a copy is the number of its holders |
| SkynetStm.FreedByLast | lualib-src/lua-stm.c:46-53 | A copy is freed exactly by the step that gives the last reference back |
| SkynetStm.TakenIsThere | lualib-src/lua-stm.c:92-102 | Whoever takes a reference finds the current copy, alive |
| SkynetStm.NoChange | lualib-src/lua-stm.c:204-233 | A reader reports no change exactly when there was no update since its last read or the object is cleared by now, although addresses are reused |
| SkynetStm.Unnoticed | lualib-src/lua-stm.c:204-233 | An update can go unnoticed: a run with an update and then a clearing between two reads, where the second one reports no change |
| SkynetStmObject.InvKept | lualib-src/lua-stm.c:56-90 | Every step of writer and readers keeps lock, count and life of the object in agreement |
| SkynetStmObject.InMemory | lualib-src/lua-stm.c:56-90 | In every run, who has a reference, and the writer up to its last unlock, finds the object in memory |
| SkynetStmObject.LateUnlock | lualib-src/lua-stm.c:72-81 | A reader that gave its reference back and still has to unlock finds the object in memory exactly when another reference is held or under way |
| SkynetStmObject.LeaveRace | lualib-src/lua-stm.c:72-81 | It need not be: a run in which a second reader frees the object before the first one unlocks |
| SkynetStmObject.AssertionsHold | lualib-src/lua-stm.c:56-90 | The assertions on count and copy hold in every run |
| SkynetStmObject.FreedByLast | lualib-src/lua-stm.c:56-81 | The object is freed exactly by the step that gives the last reference back |
| LuaNetpack.ParseConcat | lualib-src/lua-netpack.c:227-306 | Parsing may stop anywhere and go on with what it kept |
| LuaNetpack.ParsePacked | lualib-src/lua-netpack.c:437-452 | Packets that were packed one behind the other are found again |
| LuaNetpack.PackForm | lualib-src/lua-netpack.c:430-449 | In front of the data is its size, high byte first |
| LuaNetpack.Framing | lualib-src/lua-netpack.c:227-306 | For every split into chunks and every mix of connections, the packets of a connection are those of its whole stream, and what is kept is its unfinished end |
| LuaNetpack.SameBytesSamePackets | lualib-src/lua-netpack.c:227-306 | Two runs with the same bytes for a connection give the same packets for it |
| LuaNetpack.Delivered | lualib-src/lua-netpack.c:437-452 | The receiver gets exactly the packets that the sender packed |
| LuaNetpack.Netpack.constructor | lualib-src/lua-netpack.c:116-130 | A new queue holds and keeps nothing |
| LuaNetpack.Netpack.FindUncomplete | lualib-src/lua-netpack.c:92-113 | The entry of the connection, and only that, leaves its chain |
| LuaNetpack.Netpack.SaveUncomplete | lualib-src/lua-netpack.c:169-179 | The connection has exactly this one entry; others keep theirs |
| LuaNetpack.Netpack.ExpandQueue | lualib-src/lua-netpack.c:133-147 | A full queue keeps its packets in order in a larger one |
| LuaNetpack.Netpack.PushData | lualib-src/lua-netpack.c:150-166 | The packet is appended to the queue |
| LuaNetpack.Netpack.PushMore | lualib-src/lua-netpack.c:188-214 | All complete packets of the buffer are queued in order, the rest is kept |
| LuaNetpack.Netpack.FilterData | lualib-src/lua-netpack.c:227-306 | One chunk: what comes out and what is kept is the parse of what was kept followed by the chunk; a lone packet is returned, others are queued |
| LuaNetpack.Netpack.StartPacket | lualib-src/lua-netpack.c:270-305 | The same, when nothing was kept |
| LuaNetpack.Netpack.FillUncomplete | lualib-src/lua-netpack.c:231-269 | The same, when the beginning of a packet was kept, also of its size |
| LuaNetpack.Netpack.CloseUncomplete | lualib-src/lua-netpack.c:217-224 | What was kept of the connection is lost, nothing else |
| LuaNetpack.Netpack.Pop | lualib-src/lua-netpack.c:397-410 | The packet that waits longest, or none |
| LuaNetpack.DeskHasAll | lualib-src/lua-netpack.c:221-410 | In every history of chunks, closes and pops, what the caller got and what waits are exactly the packets of the streams, each as often as it is there |
| LuaNetpack.DeskInOrder | lualib-src/lua-netpack.c:221-410 | And in the order of the streams, as long as no lone packet is returned while others wait |
| LuaNetpack.OvertakenIff | lualib-src/lua-netpack.c:288-297 | A packet that is returned while others wait keeps the order exactly when they are all the same |
| LuaNetpack.Overtaken | lualib-src/lua-netpack.c:288-297 | It does happen: a history in which the third packet comes first |
| LuaNetpack.RunCalls | lualib-src/lua-netpack.c:221-410 | The table, the queue and what the caller gets are, for any history of calls, what the streams say |
| ServiceGate.ParseConcat | service-src/service_gate.c:189-209 | Parsing may stop anywhere and go on with what is left, unless the connection is closed |
| ServiceGate.ParsePacked | service-src/service_gate.c:189-209 | Packets with headers of two or four bytes are found again |
| ServiceGate.HeaderForm | service-src/databuffer.h:126-144 | A header is the size of the packet, high byte first; one of four bytes is read as a two's complement |
| ServiceGate.Framing | service-src/service_gate.c:189-209 | For every split into chunks the packets are those of the whole stream; with a packet that is too long, those in front of it, and the connection is closed |
| ServiceGate.FirstClose | service-src/service_gate.c:189-209 | The exact run across the first close: the packets in front of the one that is too long, then those of the later chunks as of a new stream |
| ServiceGate.Delivered | service-src/service_gate.c:189-209 | The receiver gets exactly what the sender packed |
| ServiceGate.StalledForEver | service-src/databuffer.h:126-144 | Behind a negative header nothing is ever found again |
| ServiceGate.NegativeIff | service-src/databuffer.h:126-144 | A header is negative exactly when it has four bytes and the first one is 128 or more |
| ServiceGate.AfterClose | service-src/service_gate.c:197-202 | A chunk that comes after the close is taken for the start of a new stream: a run that delivers a packet which the stream does not have |
| ServiceGate.DataBuffer.Push | service-src/databuffer.h:92-123 | The chunk goes to the end |
| ServiceGate.DataBuffer.Read | service-src/databuffer.h:65-89 | The next bytes, from as many chunks as they are in |
| ServiceGate.DataBuffer.ReadHeader | service-src/databuffer.h:126-144 | The size of the next packet when all of it is there; the header is read once |
| ServiceGate.DataBuffer.Dispatch | service-src/service_gate.c:189-209 | What comes out and what is left is the parse of what was left followed by the chunk |
| ServiceGate.RunGate | service-src/service_gate.c:189-209 | A connection delivers, and closes, as the run of its chunks says |
| ServiceHarbor.FramesConcat | service-src/service_harbor.c:409-501 | Reading may stop anywhere and go on with what is left |
| ServiceHarbor.FramesPacked | service-src/service_harbor.c:329-342 | The receiver gets the messages in front of the first one of 16 MB or more, and closes the link at that one |
| ServiceHarbor.PackedForm | service-src/service_harbor.c:274-337 | In front of a message is its length in four bytes, the highest first |
| ServiceHarbor.ArrivesIff | service-src/service_harbor.c:329-342 | A list of messages arrives as it is, and the link stays open, exactly when all are shorter than 16 MB |
| ServiceHarbor.CookieBack | service-src/service_harbor.c:309-315 | The cookie that the sender put behind a message is found again |
| ServiceHarbor.RunIs | service-src/service_harbor.c:409-554 | For every split into chunks, with messages to the other node in between: what is forwarded and what is kept are a function of the stream alone; what goes out is what was given up to the close, in order, and nothing before the right number came |
| ServiceHarbor.SameStream | service-src/service_harbor.c:409-501 | Two links with the same bytes forward the same, whatever is sent in between |
| ServiceHarbor.Delivered | service-src/service_harbor.c:329-501 | What a node sends behind its number arrives up to the first message that is too long, and exactly such a message closes the link; no cookie is looked for outside of a message |
| ServiceHarbor.Slave.TakeHeader | service-src/service_harbor.c:451-476 | The header is collected over any number of chunks; when it is complete, the message begins or the connection is closed |
| ServiceHarbor.Slave.TakeContent | service-src/service_harbor.c:478-496 | The data is collected over any number of chunks; when it is complete, the message goes out |
| ServiceHarbor.Slave.PushSocketData | service-src/service_harbor.c:409-501 | One chunk is one step of the link, with what is forwarded: a wrong number sends nothing and closes, a right one sends what waited, a wrong header closes |
| ServiceHarbor.Slave.DispatchQueue | service-src/service_harbor.c:390-406 | What waited is sent, in order, but for messages that are too large for 32 bits |
| ServiceHarbor.Slave.SendRemote | service-src/service_harbor.c:329-342 | A message is sent, or refused when its length does not fit in 32 bits |
| ServiceHarbor.Slave.RemoteSend | service-src/service_harbor.c:518-554 | One message is one step of the link: it waits before the number of the other node came, is sent on an open link and lost on a closed one |
| ServiceHarbor.RunHarbor | service-src/service_harbor.c:409-554 | Any run of chunks and messages leaves the link, and forwards, as the stream and the messages say |
| LuaSeri.RoundTrip | lualib-src/lua-seri.c:295-530 | Reading the bytes of any value that can be packed, with anything behind them, gives the value and leaves exactly what is behind |
| LuaSeri.SameFields | lualib-src/lua-seri.c:216-292 | A table that was rebuilt has, under every key that is not a table, the value that was there, rebuilt |
| LuaSeri.PackedIff | lualib-src/lua-seri.c:295-338 | Packing succeeds exactly for supported values within the depth limit |
| LuaSeri.IntegerRoundTrip | lualib-src/lua-seri.c:141-172 | Every 64-bit integer is read back from its shortest form |
| LuaSeri.StringRoundTrip | lualib-src/lua-seri.c:189-211 | Every string is read back, with each of the three length forms |
| LuaSeriForms.ReadIff | lualib-src/lua-seri.c:358-519 | A byte string is read as a given value other than a table, with anything left behind it, exactly when it is one of the spellings of that value |
| LuaSeriForms.Shortest | lualib-src/lua-seri.c:141-211 | What is packed is a spelling of the value, and no spelling is shorter |
| LuaSeriForms.IntegerForm | lualib-src/lua-seri.c:141-172 | How many bytes an integer takes in each range, and the first of them |
| LuaSeriForms.StringForm | lualib-src/lua-seri.c:189-211 | How many bytes a string takes in each range of lengths, and the first of them |
| LuaSeriForms.TableForm | lualib-src/lua-seri.c:216-235 | The head of a table: one byte below 31 items, else a byte and an integer |
| LuaSeriStream.AllRoundTrip | lualib-src/lua-seri.c:598-610 | Unpacking what was packed gives all the arguments |
| LuaSeriStream.WriteBlock.constructor | lualib-src/lua-seri.c:86-92 | The stream starts empty |
| LuaSeriStream.WriteBlock.Push | lualib-src/lua-seri.c:64-83 | The bytes are appended, across any number of 128-byte blocks |
| LuaSeriStream.WriteBlock.Seri | lualib-src/lua-seri.c:533-551 | The buffer is the content of all blocks, in order |
| LuaSeriStream.WriteBlock.PushInteger | lualib-src/lua-seri.c:141-172 | The bytes of the integer are appended |
| LuaSeriStream.WriteBlock.PackString | lualib-src/lua-seri.c:189-211 | The bytes of the string are appended |
| LuaSeriStream.WriteBlock.PackOne | lualib-src/lua-seri.c:295-338 | The bytes of the value are appended, or it fails with the first error |
| LuaSeriStream.WriteBlock.PackTable | lualib-src/lua-seri.c:281-292 | The bytes of the table are appended, or it fails with the first error |
| LuaSeriStream.WriteBlock.PackArray | lualib-src/lua-seri.c:216-235 | The head and the items are appended |
| LuaSeriStream.WriteBlock.PackHash | lualib-src/lua-seri.c:238-255 | The fields outside of the array part are appended, each once |
| LuaSeriStream.ReadBlock.constructor | lualib-src/lua-seri.c:110-114 | Everything is still to be read |
| LuaSeriStream.ReadBlock.RbRead | lualib-src/lua-seri.c:117-126 | The next bytes, or none when there are too few |
| LuaSeriStream.ReadBlock.ReadInteger | lualib-src/lua-seri.c:358-398 | The integer in the width of its cookie, or failure |
| LuaSeriStream.ReadBlock.ReadBuffer | lualib-src/lua-seri.c:422-428 | The string of the given length, or failure; a length above the largest `int` is a failure too, at the latest in the string library |
| LuaSeriStream.ReadBlock.UnpackOne | lualib-src/lua-seri.c:522-530 | One value of any byte stream, or failure; the stream is left behind it |
| LuaSeriStream.ReadBlock.PushValue | lualib-src/lua-seri.c:466-519 | The value of a kind and a cookie, or failure |
| LuaSeriStream.ReadBlock.UnpackTable | lualib-src/lua-seri.c:433-463 | The table, or failure, also for a key that is not a number |
| LuaSeriStream.LuaseriPack | lualib-src/lua-seri.c:598-610 | All arguments, one behind the other, in one buffer; or the first error |
| LuaSeriStream.LuaseriUnpack | lualib-src/lua-seri.c:554-595 | All values of any byte stream, or failure, also for a key that is not a number |
| CryptPowmod.MulModP | lualib-src/lua-crypt.c:665-684 | Exactly `a * b` modulo P for every `a` up to P; no 64-bit intermediate wraps to a wrong value |
| CryptPowmod.PowModP | lualib-src/lua-crypt.c:687-697 | Exactly the power modulo P, except that P to the power 1 stays P |
| CryptPowmod.Powmodp | lualib-src/lua-crypt.c:701-705 | The power modulo P if and only if not both the base is P and the exponent is 1 |
| CryptPowmod.DhExchange | lualib-src/lua-crypt.c:740-757 | The public key of a private key, or the error for a wrong size or zero |
| CryptPowmod.DhSecret | lualib-src/lua-crypt.c:723-735 | The secret of both keys, or the error for a wrong size or zero |
| CryptPowmod.SameSecret | lualib-src/lua-crypt.c:723-757 | For all non-zero private keys both sides compute the same secret, and neither gets an error |
| CryptPowmod.PublicNonZero | lualib-src/lua-crypt.c:740-757 | A public key is never zero, so the secret is never refused |
| CryptPowmod.ReadPush | lualib-src/lua-crypt.c:708-720 | The 8 bytes of a word are read back as the word |
| CryptPowmod.ReadForm | lualib-src/lua-crypt.c:592-606 | A word is read from its bytes with the lowest first |
| CryptDes.RoundTrip | lualib-src/lua-crypt.c:364-436 | Decoding an encoded text gives the text, for every 8-byte key and every byte string |
| CryptDes.DecodedOnly | lualib-src/lua-crypt.c:399-436 | Whatever is decoded without error is the encoding of the result |
| CryptDes.CryptUndone | lualib-src/lua-crypt.c:314-335 | Reversed subkey pairs undo the encryption of a block |
| CryptDes.RoundsUndone | lualib-src/lua-crypt.c:227-240 | The rounds, with exchanged halves and reversed subkeys, undo themselves |
| CryptDes.FinalInitial | lualib-src/lua-crypt.c:201-224 | The final permutation undoes the initial one |
| CryptDes.InitialFinal | lualib-src/lua-crypt.c:201-224 | The initial permutation undoes the final one |
| CryptDes.InitialStandard | lualib-src/lua-crypt.c:201-211 | The initial permutation is that of FIPS 46: its rows are the columns 2, 4, 6, 8, 1, 3, 5, 7 of the block, from the last byte to the first; both halves are kept rotated by one bit |
| CryptDes.RoundStandard | lualib-src/lua-crypt.c:227-240 | A round adds what FIPS 46 adds: box n gets six bits of the half around its four, xor its six bits of the subkey, from the word of the pair that belongs to it |
| CryptDes.BlockStandard | lualib-src/lua-crypt.c:314-335 | An encrypted block is, under the initial permutation, the two halves after 16 rounds of (l, r) to (r, l xor f(r, k)), exchanged, with the 32 subkey words in order |
| CryptDes.HalvesOnly | lualib-src/lua-crypt.c:201-211 | That determines the block: no two blocks have the same halves |
| CryptDes.EncodeStandard | lualib-src/lua-crypt.c:364-396 | Every block of a code is what FIPS 46 makes of the block of the padded text, for any boxes and subkeys |
| CryptDesKeys.StartStandard | lualib-src/lua-crypt.c:249-269 | The first choice of bits of the key is that of FIPS 46 |
| CryptDesKeys.KeysStandard | lualib-src/lua-crypt.c:245-311 | The six bits of every subkey for every box are those that FIPS 46 chooses from the two registers of the round |
| CryptDesKeys.DesMainKs | lualib-src/lua-crypt.c:245-311 | The loop computes the key schedule of FIPS 46 |
| CryptDesKeys.CodeStandard | lualib-src/lua-crypt.c:364-396 | With the schedule of the program, a code is block by block what FIPS 46 makes of the padded text; only the contents of the boxes are open |
| CryptDes.PaddingFound | lualib-src/lua-crypt.c:377-390 | The padding is unambiguous: it is removed exactly |
| CryptDes.DesCrypt | lualib-src/lua-crypt.c:314-335 | One block is encrypted in its place, as `BlockStandard` says; the rest of the buffer stays |
| CryptDes.DesEncode | lualib-src/lua-crypt.c:364-396 | The encoding of the padded text, or the key error |
| CryptDes.DesDecode | lualib-src/lua-crypt.c:399-436 | The decoding; or the error of key, length or padding; or, with the unsigned bound of the loop, a search that leaves the buffer |
| CryptDes.DecodeOutside | lualib-src/lua-crypt.c:421-423 | The search for the padding leaves the buffer exactly for a text of one block that decrypts to zeros only |
| CryptDes.OutsideText | lualib-src/lua-crypt.c:421-423 | Every key has such a text |
| CryptDes.OutsideIff | lualib-src/lua-crypt.c:421-433 | On the decrypted bytes: the search leaves the buffer exactly for eight zeros |
| CryptDes.Unpad | lualib-src/lua-crypt.c:421-433 | The loop with its unsigned comparison computes that search |
| CryptDes.ReverseKeys | lualib-src/lua-crypt.c:404-407 | The subkey pairs in reverse order |
| SkynetHandle.HandleStorage.constructor | skynet-src/skynet_handle.c:243-261 | No handle resolves and no name is known |
| SkynetHandle.HandleStorage.FindFree | skynet-src/skynet_handle.c:41-54 | A free slot is found exactly when there is one, at the first free place from the index on; the handle resolves to the service, all others resolve as before |
| SkynetHandle.HandleStorage.Expand | skynet-src/skynet_handle.c:55-65 | In a table of twice the size every service is at the place of its handle, no two collide, and every handle resolves as before |
| SkynetHandle.HandleStorage.Register | skynet-src/skynet_handle.c:35-67 | The first free place from the index on, in the doubled table when the table is full, gives a handle that no service has; as long as the index has not wrapped, the handle is beyond all earlier ones exactly when the search stops before the last handle |
| SkynetHandle.HandleStorage.Grab | skynet-src/skynet_handle.c:133-149 | The service of the handle, or nothing |
| SkynetHandle.HandleStorage.Retire | skynet-src/skynet_handle.c:70-106 | The handle resolves no more and its names are gone; all other handles and names stay |
| SkynetHandle.HandleStorage.FindName | skynet-src/skynet_handle.c:152-179 | Binary search gives the handle of the name, 0 for an unknown one |
| SkynetHandle.HandleStorage.InsertName | skynet-src/skynet_handle.c:208-229 | A new name is found from now on, a taken one is refused; names stay strictly sorted |
| SkynetHandle.HandleStorage.InsertNameBefore | skynet-src/skynet_handle.c:182-205 | The name is inserted at its place, in a larger array when the old one is full |
| SkynetHandle.CopyOne | skynet-src/skynet_handle.c:57-62 | The new slot of a service is free when the table doubles: the assertion of the source never fails |
| SkynetHandle.InsertedHandles | skynet-src/skynet_handle.c:208-229 | Inserting a name changes the answer for this name only |
| SkynetHandle.WithoutHandles | skynet-src/skynet_handle.c:83-94 | Removing the names of a handle changes the answers for these names only |
| SkynetHandle.NewestIff | skynet-src/skynet_handle.c:41-54 | A handle is beyond all earlier ones, and so was never given out, exactly when the search stops before the last handle |
| SkynetHandle.RunAll | skynet-src/skynet_handle.c:35-106 | Any run of register, retire and name calls on a new table: every answer, and at the end every lookup of a handle or a name, is that of two plain maps; what was given out and retired is what the calls say; the search has passed the last handle exactly when some handle is not above all earlier ones, and before that no retired one resolves again and the reserved handle 0 is not given out |
| SkynetHandle.Perform | skynet-src/skynet_handle.c:35-106 | One call is one step of the plain maps, and its answer is theirs |
| SkynetHandle.StillThere | skynet-src/skynet_handle.c:35-106 | In a run, a handle that was given out and not retired later leads to its service |
| SkynetHandle.WithoutNames | skynet-src/skynet_handle.c:83-94 | Exactly the names of a retired handle are lost |
| SkynetHandle.InsertedNames | skynet-src/skynet_handle.c:182-229 | Inserting a name adds this name and no other |
| SkynetHandle.WrapAround | skynet-src/skynet_handle.c:41-54 | After it, both happen: a run in which the first handle is given out a second time after it was retired, and one in which the reserved handle 0 is given out |

## Left out

LPeg

- Grammars: rules, calls, left-recursion checks and their code are not modelled, nor are run-time captures, back references and the tables of Lua values behind captures; capture keys are numbers.
- The evaluation of captures into Lua values: the model stops at the list of captures.
- The backtrack stack is unbounded, so the error for too many pending choices does not occur; growing the arrays for code, captures and stack is not modelled.
- LpegMatch.Interpret: takes the number of steps of a halting run as a ghost argument, which Pattern.Match has from compiler correctness; nothing is said about other code arrays.
- The generator reads a tree as a value; only LpegFlat has the array form, in which the unused fields of a node are 0.
- The analyses compute with sets; LpegCharset proves the byte loops of the same operations.
- The operators build trees by copying nodes; LpegBuild has the trees that result.

Timer

- A request with a delay of zero or less is sent at once and never reaches the wheel.
- The lists of the wheel are sequences; their links are not modelled. The number of ticks is not bounded in the model, the clock that the wheel sees has 32 bits.

Scheduler and handles

- Registering a service and storing its handle is one step. Deleting a service, that is marking its queue and freeing the context, is one step. What a push does to memory that is not set up is not modelled: the message is lost.
- Locks that are taken one inside the other are one step. A call that a service makes while it runs is an activity of its own.
- The links of the list of scheduled queues are not modelled, nor are the message log, the monitor and dispatching all messages at a stop.
- The rotation of handles after the index wrapped, in the scheduler model: ids are never used again there.
- SkynetHandle.HandleStorage.Register: asks for room in the table or for a table that can double; the source asserts this.
- SkynetHandle.HandleStorage.InsertName: asks for room for a name or for an array that can double; the source asserts this.
- Retiring all handles in a loop, and the lock around the table (see the lock in SkynetStm).

Sockets

- UDP, listening, accepted sockets that wait for their start, user objects as buffers, sockets that were bound from outside, and the table of sockets with its ids.
- Reading from sockets and the requests of other threads through the pipe.

Shared state

- In SkynetStm giving the object up is one step with emptying it, and its memory is not modelled; SkynetStmObject has that, without the copies.
- A reference that is sent is taken by one reader; the address may be used twice in the source.
- The lock is the version with atomic operations; the version on top of the system's own lock is not modelled.
- LuaSharedata: values are opaque; nested tables, strings as values and memory errors are not modelled, nor are the errors for keys that are neither integers nor strings.
- LuaSharedata.ConvTable: asks for keys that stay apart as 32-bit integers; for the others only LuaSharedata.NotPacked says that the result is not complete, not what is in it.

Streams and codecs

- A packet queue is there from the start; the source makes it when it is first needed, and a missing one behaves like an empty one.
- LuaNetpack.Netpack.FilterData: asks for a chunk that is not empty, as the socket layer delivers them.
- Freeing the buffers of packets, and clearing a queue.
- Doubles and pointers of serialised values are their 8 bytes. A table with its own way to be walked is a table without array part that has the fields which the walk gives.
- LuaSeri.SameFields: says nothing of keys that are tables, which are told apart by identity; LuaSeri.RoundTrip says that their fields are set, in the same order.
- A double that equals an integer, as a key in a stream that was not written by this library: Lua makes it the integer, the model keeps its bytes.
- Values whose lengths do not fit in an `int` of 32 bits, and the memory that a stream may ask for.
- The pool of list nodes of the gate, a gate to which nobody listens (it would not take packets out), and counts of buffered bytes beyond an `int`.
- Between nodes: names, and what a cookie says. A link is modelled from its start on; messages that waited before are its first ones. What is read in front of a frame that is too short is not modelled.
- The framing of cluster requests and the other codecs (BSON, JSON, base64).

Numbers and ciphers

- Floating point: the conversions that use the multi-word integers. The free lists of the numbers and the lock around the table of powers.
- The contents of the substitution tables: the boxes of the cipher are arbitrary functions of six bits. CryptDes also leaves the key schedule open, which CryptDesKeys has.
- CryptDes.DesDecode: says that the search leaves the buffer, not what is found there.
- Hashes, and the other functions of the cryptographic library.
