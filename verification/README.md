# Verified models of the actor server

An actor server runs Lua services on worker threads. A service has a message queue and a handle;
a global list links the queues that have work; a timing wheel sends time-outs; a socket thread
owns the connections. Around it stand a serializer for message bodies, read-only tables shared
between services, packet framing, line reading, a key exchange with a block cipher, and two
vendored engines: the LPeg pattern compiler with its virtual machine, and Lua's incremental
collector.

This project models the parts whose correctness does not show from reading one function, and
proves what each is there for, over all inputs, runs and interleavings. `dafny verify dfyconfig.toml`
checks all of it.

| modules | what they model | main results |
|---|---|---|
| `LpegTree`, `LpegAnalysis`, `LpegExact`, `LpegVM`, `LpegGen`, `LpegLayout`, `LpegCodegen` | the pattern compiler, its first, follow and head-fail analyses, and the backtracking machine | the analyses are sound, and exact where one character decides; the compiler state holds the specified code |
| `LpegActual`, `LpegCorrect`, `LpegSafe`, `LpegOption` | what compiled code computes, and when that is what the pattern means | exact for every well-formed pattern; equal to the meaning for safe options, and for an option exactly on the subjects where no loop exits early |
| `LpegJumps`, `LpegLinked`, `LpegPeephole` | chains of jumps and the peephole pass | following jumps ends; the pass changes no result |
| `LpegBuild`, `LpegAccept`, `LpegPattern` | the pattern operators, which simplify while they build, which expressions they accept, and the way from an expression to a result | accepted exactly if no loop may match nothing and look-behinds are of fixed length; built, fixed, compiled and run, an expression gives what it means |
| `LpegAssoc` | trees in one prefix array, made right associative in place | same meaning, same operands, same size |
| `Scheduler`, `SchedulerRuns`, `SchedulerCalls`, `SchedulerProgress` | ownership of queues and contexts among any number of threads | linked at most once, never linked and held, deleted and freed once, each message sent handled once and in order; what each call does from start to end; never stuck |
| `MessageQueues` | the ring buffer of a service and the linked global list | first in, first out, across growth |
| `TimerWheel` | five levels of slots and the 32-bit clock | every timer fires once, on its tick, in order; the wheel does what a plain list of timers does |
| `LuaHeap`, `Collector`, `Mutator` | marking, barriers, the atomic phase and the sweep, and a program that runs between the steps | no black object points to a white one while marking; only unreachable objects are freed; the program cannot tell that there is a collector |
| `SocketWrite`, `SocketRuns` | two write queues, partial writes, half-close | whole messages on the wire, in order within a priority; closed only after all is written, unless something fails; everything goes out when writes take something |
| `ShareData` | the two-pass build of a full hash table | lookup is exact and iteration visits each key once, if and only if the keys fit |
| `Serialize`, `SerializeFormat` | writing values to a block list and reading them back | round trip of every nested value; no stream for the same values is shorter |
| `Netpack`, `SocketBuffer` | packets and lines cut out of chunks | results do not depend on how the stream was cut |
| `DiffieHellman` | modular powers on 64-bit words | both parties share the secret |
| `Des`, `DesStandard`, `DesConforms`, `DesKeys`, `DesBoxes` | the block cipher, its key schedule and tables, and padding | every block is enciphered as FIPS PUB 46-3 says; every text comes back |
| `Handles` | the handle table and the sorted names | a map from handle to context, a map from name to handle; handles are not used again before the index has gone round |
| `Wrappers`, `Sequences`, `Modular` | shared types and facts | |

How the source is represented:

- What the source changes in place is a class with the fields of the C structure, or an array; each
  method says what its new state is in terms of the old one, by a function of values. Pure recursions
  are functions. What the source promises is then proved of these functions, or is part of `Valid()`.
- Concurrency is a state machine. A section of code under a lock, or one atomic update, is one step;
  `Scheduler.Run` and the other run functions take the steps of all threads in any order.
- Answers of the outside world (bytes taken by a write, chunks received, schedules of steps) are
  parameters, so a statement holds for all of them.
- Machine integers are modelled where their width matters: the 32-bit clock and handles, the 64-bit
  products, the bytes of integers in a message, the words of the cipher.

Where code and comments disagree, the code is followed: the first chunk of socket buffer nodes has
16 nodes (`lualib-src/mtask_lua_socket.c:110-127`), not the 8 that the comment gives.

Places where the code does not meet what one would expect of it, with an input and the exact condition:

- `3rd/lpeg/lpcode.c:762` passes the option of an enclosing choice into the body of a loop that is
  compiled to a plain test. A round that leaves an inner option then leaves the loop.
  `LpegOption.OptionInLoopFails` gives a pattern and a subject. What the code does instead is
  `LpegActual.Actual`, and `LpegCorrect.CompileActual` proves that for every well-formed pattern.
  `LpegSafe.CompileCorrect` gives the condition on patterns under which it is what they mean, and
  `LpegOption.OptionExact` the subjects on which an option is right: all but those on which a loop
  at its end misses in one round although another follows. `LpegOption.CleanIsMatch` carries this
  to whole patterns.
- `lualib-src/mtask_lua_crypt.c:416` compares an int with a size_t, so on a text of one block the
  loop that looks for the padding is not stopped at the start of the buffer. `Des.DesDecode` says
  that this happens if and only if the text is the enciphered block of zeros, and
  `Des.ReadsBeforeOnce` that there is one such text for every key.
- `lualib-src/mtask_lua_crypt.c:696-700` reduces a base only when it exceeds the prime, so the first
  power of the prime itself is the prime and not 0. `DiffieHellman.PowerModP` says that this is
  the only exception.
- `lualib-src/mtask_lua_sharedata.c:68-89` counts keys at 64 bits and lets tables be keys, and
  `:192-211` stores 32 bits and takes a table for the empty string.
  `ShareData.ConfTable.RightIffFits` says that a converted table has the keys of its source if and
  only if none is a table and all integers fit into 32 bits, `ShareData.NarrowMeets` which keys look
  the same, and `ShareData.ConfTable.Index` which lookups with a wide key are right.
- `lualib-src/mtask_lua_seri.c:421-427` takes a string length of four bytes as an int.
  `Serialize.NegativeExactly` says which lengths are negative, `Serialize.NegativeStream` that no
  stream which begins with one is read.
- `lualib-src/mtask_lua_netpack.c:437` accepts a packet of 65536 bytes, whose length does not fit into
  the header. `Netpack.PackExactly` says that this is the only accepted length which does not come out
  whole, `Netpack.PackLargest` what comes out.
- `mtask-src/mtask_handle.c:251-253` keeps the handle 0 back for the system by starting the index at 1, but
  the index wraps. `Handles.ZeroExactly` says when 0 is the next handle, `Handles.GivesZero` reaches it.

## Model

| member | source | states |
|---|---|---|
| `LpegAnalysis.NoFailSound` | 3rd/lpeg/lpcode.c:172-206 | A tree reported as never failing matches at every position of every subject. |
| `LpegAnalysis.NullableSound` | 3rd/lpeg/lpcode.c:172-206 | A tree that can match without consuming anything is reported nullable. |
| `LpegAnalysis.FixedLenSound` | 3rd/lpeg/lpcode.c:213-246 | When a length is reported, every success consumes exactly that many characters. |
| `LpegAnalysis.FirstSound` | 3rd/lpeg/lpcode.c:267-344 | A success whose next character is outside the first set consumed nothing and is followed by the end of the subject or a character outside the follow set. |
| `LpegAnalysis.EmptySound` | 3rd/lpeg/lpcode.c:255-344 | A first set that may be used as a test belongs to a tree that fails at the end of the subject. |
| `LpegAnalysis.TestSound` | 3rd/lpeg/lpcode.c:255-344 | When a usable first-set test fails, the tree fails there. |
| `LpegAnalysis.HeadFailExact` | 3rd/lpeg/lpcode.c:350-374 | For a head-fail tree the next character alone decides success: it matches if and only if the character is in the first set. |
| `LpegExact.FirstExact` | 3rd/lpeg/lpcode.c:267-344 | For patterns whose success hangs on the next character alone, the first set is exactly the set of characters on which they match. |
| `LpegExact.EmptyExact` | 3rd/lpeg/lpcode.c:255-344 | For these the set may not be used as a test if and only if they match at the end of the subject. |
| `LpegExact.HeadFailExactly` | 3rd/lpeg/lpcode.c:350-376 | For these head-fail is reported if and only if they fail at the end of the subject. |
| `LpegExact.PlainExact` | 3rd/lpeg/lpcode.c:172-206 | For patterns without tests, nullable, never failing, and matching the empty subject are the same. |
| `LpegVM.Run` | 3rd/lpeg/lpvm.c:147-288 | The interpreter loop, working on its position, instruction pointer and backtrack stack, ends in the state that the step semantics gives. |
| `LpegCodegen.CompileState.CodeGen` | 3rd/lpeg/lpcode.c:891-916 | Appends, for any tree, flags, dominating test and follow set, exactly the specified code and changes nothing before it; all patching of jumps is done in place. |
| `LpegCodegen.CompileState.CodeChoice` | 3rd/lpeg/lpcode.c:650-688 | The four ways to compile an ordered choice: by test, by reuse of an outer choice, under a test, and with a plain choice and commit. |
| `LpegCodegen.CompileState.CodeAnd` | 3rd/lpeg/lpcode.c:693-711 | The and predicate, either by a fixed-length step back or by a back commit. |
| `LpegCodegen.CompileState.CodeRep` | 3rd/lpeg/lpcode.c:749-785 | Loops as a span, as a test loop, under an outer choice, or with a partial commit. |
| `LpegCodegen.CompileState.CodeNot` | 3rd/lpeg/lpcode.c:795-812 | The not predicate, by a test alone or by a choice that is failed twice. |
| `LpegCodegen.CompileState.CodeSeq1` | 3rd/lpeg/lpcode.c:871-884 | The first half of a sequence is compiled for what may follow it. |
| `LpegCodegen.CompileState.CodeBehind` | 3rd/lpeg/lpcode.c:632-636 | Look-behind steps back before its operand. |
| `LpegCodegen.CompileState.CodeCharset` | 3rd/lpeg/lpcode.c:561-579 | A charset becomes fail, a character, any, or a set; a set that the dominating test has already checked becomes any. |
| `LpegCodegen.CompileState.CodeTestSet` | 3rd/lpeg/lpcode.c:587-607 | Emits the test of a first set, or none when the set cannot be used. |
| `LpegCodegen.PatchAt` | 3rd/lpeg/lpcode.c:512-518 | Patching the offset of an instruction gives the array in which it was emitted with that offset, and changes nothing before or after it. |
| `LpegCorrect.GenCorrect` | 3rd/lpeg/lpcode.c:534-916 | For every well-formed tree, every code array its code is embedded in, every start and every stack: the machine ends after the code at the position Actual gives, or fails; the only licence is to fail in front of a character outside the follow set. No condition on options. |
| `LpegCorrect.GenOptCorrect` | 3rd/lpeg/lpcode.c:650-789 | Code that reuses the choice of an enclosing option ends at its own end or through that choice, at the position, and with the saved position, that AsOption gives; for every well-formed tree, loops of lpcode.c:762 included. |
| `LpegCorrect.OptLoopTestCorrect` | 3rd/lpeg/lpcode.c:749-785 | A loop compiled to a plain test at the end of an option: when a round leaves an inner option, the machine leaves the loop. |
| `LpegCorrect.SeqCorrect` | 3rd/lpeg/lpcode.c:871-911 | The licence of the first half of a sequence is used up by the first set of the second. |
| `LpegCorrect.ChoiceCorrect` | 3rd/lpeg/lpcode.c:650-688 | The compiled forms of a choice that use a choice instruction try the first operand, then the second. |
| `LpegCorrect.LoopCorrect` | 3rd/lpeg/lpcode.c:749-785 | A loop under a choice of its own repeats greedily. |
| `LpegCorrect.NotCorrect` | 3rd/lpeg/lpcode.c:795-812 | Both forms of the not predicate succeed exactly when the code of the operand fails. |
| `LpegCorrect.AndCorrect` | 3rd/lpeg/lpcode.c:693-711 | Both forms of the and predicate succeed, without advancing, exactly when the code of the operand does. |
| `LpegCorrect.BehindCorrect` | 3rd/lpeg/lpcode.c:632-636 | Look-behind code fails before the start of the subject and else matches the operand that many characters earlier. |
| `LpegCorrect.CompileActual` | 3rd/lpeg/lpcode.c:973-983 | The compiled code of every well-formed tree, followed by IEnd, ends exactly at the position Actual gives, or gives up exactly when Actual fails, on every subject from every start. |
| `LpegActual.ActualFirst` | 3rd/lpeg/lpcode.c:255-344 | The first set is sound for the code as it is, with its one deviation from the tree. |
| `LpegActual.ActualHeadFail` | 3rd/lpeg/lpcode.c:350-374 | For a head-fail tree the next character alone decides whether the code succeeds. |
| `LpegActual.OptionTest` | 3rd/lpeg/lpcode.c:871-884 | Code at the end of an option that may not start with the next character leaves the option where it began. |
| `LpegSafe.ActualIsMatch` | 3rd/lpeg/lpcode.c:534-916 | If no option that is compiled with a choice ends in a loop by plain test with a round that can leave an inner option, the code matches what the tree means. The condition follows the follow sets of codegen and lets inner options pass that cannot fail. |
| `LpegSafe.SafeOption` | 3rd/lpeg/lpcode.c:650-785 | A safe end of an option fails or ends at the position of the tree. |
| `LpegSafe.CompileCorrect` | 3rd/lpeg/lpcode.c:973-983 | For every well-formed tree with safe options, subject and start, the compiled code ends exactly at the position the tree matches to, or gives up exactly when the tree fails. |
| `LpegOption.EndingExact` | 3rd/lpeg/lpcode.c:650-785 | Exactly how code at the end of an option ends, safe or not: short of the match if and only if a loop by plain test misses in one round and could do another. |
| `LpegOption.OptionExact` | 3rd/lpeg/lpcode.c:667-671 | An option compiled with a choice, on a subject on which nothing else goes wrong in it, matches what it means if and only if no loop at its end exits early; otherwise it stops short. |
| `LpegOption.CompileOptionExact` | 3rd/lpeg/lpcode.c:973-983 | The compiled pattern of such an option gives what it means if and only if no loop at its end exits early on the subject. |
| `LpegOption.CleanIsMatch` | 3rd/lpeg/lpcode.c:534-916 | For every tree and subject: if, on the way of the match, no loop at the end of a reached option exits early, the code matches what the tree means. |
| `LpegOption.CompileClean` | 3rd/lpeg/lpcode.c:973-983 | The same for the compiled pattern, for any number of unsafe options. |
| `LpegOption.SafeIsClean` | 3rd/lpeg/lpcode.c:650-785 | A tree with safe options is of this kind on every subject. |
| `LpegOption.OptionInLoopFails` | 3rd/lpeg/lpcode.c:762 | A concrete tree and subject on which lpcode.c:762 leaves the loop: the tree matches three characters, the machine one. |
| `LpegOption.UnsafeAfterFalse` | 3rd/lpeg/lpcode.c:749-785 | After a part that always fails, any tree is compiled faithfully: unsafe options do no harm where they are not reached. |
| `LpegJumps.FinalTarget` | 3rd/lpeg/lpcode.c:614-622 | Following jumps from any instruction ends, at an instruction that is no jump and that jumps alone lead to. |
| `LpegJumps.Simulates` | 3rd/lpeg/lpcode.c:614-967 | Two code arrays that differ only in labels leading to the same places by jumps, or in a jump replaced by what it leads to, compute the same results. |
| `LpegJumps.Relabel` | 3rd/lpeg/lpcode.c:933-946 | Giving an instruction the final label keeps every result and the well-linked form. |
| `LpegJumps.CopyFinal` | 3rd/lpeg/lpcode.c:953-958 | Replacing a jump by the return, fail or end it leads to keeps every result. |
| `LpegJumps.CopyCommit` | 3rd/lpeg/lpcode.c:959-966 | Replacing a jump by the commit it leads to, with its label resolved, keeps every result. |
| `LpegLinked.GenFrag` | 3rd/lpeg/lpcode.c:534-916 | The code of every tree is well linked: labels point to instructions or its end, and jumps that go back do not go back to jumps that go back. |
| `LpegLinked.CompileLinked` | 3rd/lpeg/lpcode.c:973-983 | The code of every tree, with IEnd, has ranks that go down along every jump, so following jumps ends on it. |
| `LpegPeephole.Peephole` | 3rd/lpeg/lpcode.c:928-967 | The in-place pass keeps every result of the code on every subject from every start, keeps it well linked and leaves every label resolved. |
| `LpegPeephole.CompilePattern` | 3rd/lpeg/lpcode.c:973-983 | Code generation and the peephole pass together: for every tree it agrees with the unoptimised code, for every well-formed tree it computes Actual, and if the options are safe it means the tree. |
| `LpegPeephole.MatchPattern` | 3rd/lpeg/lptree.c:1094-1116 | Compiling any well-formed tree and running it gives Actual; the match of the tree on subjects on which no loop exits early, and on all subjects if the options are safe. |
| `LpegAssoc.FixedMatch` | 3rd/lpeg/lptree.c:78-90 | Rotating a sequence or choice to the right until its first operand has another operator does not change what it matches. |
| `LpegAssoc.FixedOperands` | 3rd/lpeg/lptree.c:78-90 | Nor does it change the operands or their order. |
| `LpegAssoc.FinalFixedRight` | 3rd/lpeg/lptree.c:100-126 | After the pass no sequence starts with a sequence and no choice with a choice. |
| `LpegAssoc.FinalFixedMatch` | 3rd/lpeg/lptree.c:100-126 | The pass over the whole tree keeps the meaning on every subject and position. |
| `LpegAssoc.FinalFixedWellFormed` | 3rd/lpeg/lptree.c:100-126 | It keeps what the builders guarantee, so the compiled form of the result is right too. |
| `LpegAssoc.MoveLeft` | 3rd/lpeg/lptree.c:85 | The block move of one rotation. |
| `LpegAssoc.RotateInPlace` | 3rd/lpeg/lptree.c:78-90 | One rotation in the array leaves the encoding of the rotated tree in place of that of the tree and nothing else changes. |
| `LpegAssoc.CorrectAssociativity` | 3rd/lpeg/lptree.c:78-90 | The loop ends and leaves the encoding of the right-associated tree, of the same size. |
| `LpegAssoc.FinalFix` | 3rd/lpeg/lptree.c:100-126 | The recursive pass leaves the encoding of the fixed tree in the same stretch of the array. |
| `LpegBuild.BuildMeans` | 3rd/lpeg/lptree.c:243-649 | For every pattern expression the operators accept, the simplified tree matches, on every subject and position, what the expression means, defined without trees. |
| `LpegBuild.BuildWellFormed` | 3rd/lpeg/lptree.c:243-649 | Every tree the operators build has no loop over an empty match and look-behinds of their recorded length. |
| `LpegBuild.SeqTreeMatch` | 3rd/lpeg/lptree.c:491-501 | The sequence operator may drop operands that always or never match. |
| `LpegBuild.ChoiceTreeMatch` | 3rd/lpeg/lptree.c:510-524 | The choice operator may unite charsets and drop operands that can never be chosen. |
| `LpegBuild.SubTreeMatch` | 3rd/lpeg/lptree.c:586-604 | The difference excludes the second operand, also when both are charsets. |
| `LpegBuild.AtLeastMatch` | 3rd/lpeg/lptree.c:531-543 | The tree of p^n repeats as often as possible and at least n times. |
| `LpegBuild.AtMostMatch` | 3rd/lpeg/lptree.c:544-560 | The nested options of p^-n repeat as often as possible and at most n times. |
| `LpegBuild.BehindMatch` | 3rd/lpeg/lptree.c:639-649 | Going back by the fixed length succeeds if and only if the pattern matches from anywhere before up to here. |
| `LpegBuild.AcceptedLoopsAdvance` | 3rd/lpeg/lptree.c:537-538 | A loop that is not refused advances with every round. |
| `LpegAccept.AcceptedExactly` | 3rd/lpeg/lptree.c:531-649 | The operators refuse exactly the expressions in which a loop may match nothing or a look-behind has no fixed length from 1 to 255, said of the expression without trees and analyses, and report the first such operator. |
| `LpegAccept.NullableExact` | 3rd/lpeg/lpcode.c:172-206 | What nullable reports of a built tree is whether the expression matches the empty subject when its tests are taken to succeed. |
| `LpegAccept.PlainLoopAccepted` | 3rd/lpeg/lptree.c:531-560 | p^n without tests is accepted if and only if p is and, for n from 0, p does not match the empty subject. |
| `LpegAccept.AcceptedBehindIsFixed` | 3rd/lpeg/lptree.c:639-649 | Every match of an accepted look-behind takes the same number of characters, from 1 to 255. |
| `LpegAccept.StraightBehindAccepted` | 3rd/lpeg/lptree.c:639-649 | A sequence of characters may be looked behind for if and only if it matches a subject of 1 to 255 characters. |
| `LpegAccept.ReportsExact` | 3rd/lpeg/lpcode.c:172-246 | What the analyses report of a built tree, from the expression: the constant patterns, never failing, and the length. |
| `LpegPattern.CarefulIsSafe` | 3rd/lpeg/lpcode.c:703-783 | If no option of an expression ends in a loop over more than single characters, the options of the prepared tree are safe. |
| `LpegPattern.MatchExpr` | 3rd/lpeg/lptree.c:1040-1112 | Building, fixing, compiling and running any expression: the error of its first refused operator, if there is one; else what the code of the prepared tree matches, which is what the expression means if no option of it ends in a loop, or if its options are safe. |
| `Scheduler.AlwaysSafe` | mtask-src/mtask_server.c:275-330 | In every state of every interleaving: each queue is linked at most once, held by at most one thread, never both; one that has messages is linked or held; a context is deleted at most once, with no reference left, its queue freed at most once after that; what was popped is a prefix of what was pushed, dispatched messages first, dropped ones after, and a freed queue was emptied. |
| `Scheduler.QuiescentMeansDone` | mtask-src/mtask_server.c:105-228 | When all threads are idle and the global list is empty, every retired service has been deleted and freed exactly once and every message pushed to any service has been taken out. |
| `SchedulerRuns.PushedIsSent` | mtask-src/mtask_server.c:218-228 | In every run, what was pushed to a service is the sequence of the messages of the sends to it that were taken, in the order of the pushes, told from the list of steps. |
| `SchedulerRuns.GoneExactly` | mtask-src/mtask_server.c:137-159 | A service is out of the table, or about to be taken out by its creator, if and only if the run killed it or its init function failed. |
| `SchedulerRuns.EverySendIsHandled` | mtask-src/mtask_server.c:218-330 | Once nothing is left to do: a service is in the table exactly if nothing condemned it, and then each message sent to it was dispatched, in order; of the others they were dispatched or, after those, dropped. |
| `SchedulerCalls.SendCall` | mtask-src/mtask_server.c:218-228 | A send appends the message to a service in the table and links its queue if it was not; otherwise nothing happens. |
| `SchedulerCalls.LaunchCall` | mtask-src/mtask_server.c:119-150 | A launch whose init function succeeds adds a service that only the table refers to, with an empty linked queue. |
| `SchedulerCalls.LaunchFails` | mtask-src/mtask_server.c:151-159 | One whose init function fails leaves a service that was deleted and freed, and nothing else. |
| `SchedulerCalls.RetireCall` | mtask-src/mtask_handle.c:69-106 | Retiring takes the service out of the table; if nothing else refers to it, its context is deleted and its queue marked and linked. |
| `SchedulerCalls.ServeCall` | mtask-src/mtask_server.c:275-330 | A worker dispatches the first messages of its queue in order, and then the queues take turns, or it keeps the queue if no other waits. |
| `SchedulerCalls.ServeEmptyCall` | mtask-src/mtask_server.c:295-301 | A queue without messages leaves the list. |
| `SchedulerCalls.ServeGone` | mtask-src/mtask_mq.c:230-251 | The queue of a service that left the table goes back to the list until its context is deleted; then its messages are dropped in order and it is freed. |
| `SchedulerProgress.CanAlwaysFinish` | mtask-src/mtask_server.c:105-330 | From every state that any run reaches there is a way to go on after which all threads are idle, no queue waits, every message has been taken out, and every retired service has been deleted and freed once: no deadlock. |
| `SchedulerProgress.Finish` | mtask-src/mtask_server.c:275-330 | Any thread, wherever it is, can become idle without any other thread. |
| `SchedulerProgress.CallersMayLink` | mtask-src/mtask_mq.c:189-250 | Whenever a thread is about to push, mark, release or link a queue, what these functions expect holds: a queue to be linked is not linked, and one to be marked is not marked. |
| `Scheduler.StepKeeps` | mtask-src/mtask_server.c:105-330 | Every locked section of the queues, the handle table and the services, and every update of a reference count, done by any thread at any time, keeps the ownership protocol. |
| `Scheduler.RunKeeps` | mtask-src/mtask_server.c:275-330 | So does every run. |
| `MessageQueues.MessageQueue.Pop` | mtask-src/mtask_mq.c:137-172 | Returns the oldest message; beyond the threshold the length is recorded and the threshold doubled until it is not exceeded; an empty queue resets the threshold and clears in_global. |
| `MessageQueues.MessageQueue.Watch` | mtask-src/mtask_mq.c:157-160 | A length beyond the threshold is recorded, and the threshold raised until it is not exceeded. |
| `MessageQueues.MessageQueue.Push` | mtask-src/mtask_mq.c:189-209 | The message goes to the end, whatever the ring looks like, and the queue onto the global list unless it is there. |
| `MessageQueues.MessageQueue.Expand` | mtask-src/mtask_mq.c:174-187 | Doubling a full ring keeps its messages in order. |
| `MessageQueues.MessageQueue.Length` | mtask-src/mtask_mq.c:111-125 | The number of messages in the ring. |
| `MessageQueues.MessageQueue.TakeOverload` | mtask-src/mtask_mq.c:127-135 | An overload is reported once. |
| `MessageQueues.MessageQueue.MarkRelease` | mtask-src/mtask_mq.c:219-228 | Marks the queue and links it unless in_global is set. |
| `MessageQueues.MessageQueue.DropQueue` | mtask-src/mtask_mq.c:230-237 | Every message is dropped, oldest first. |
| `MessageQueues.MessageQueue.Release` | mtask-src/mtask_mq.c:239-250 | Drops a marked queue, links an unmarked one. |
| `MessageQueues.GlobalQueue.Push` | mtask-src/mtask_mq.c:43-56 | Appends to the linked list of queues through the next fields. |
| `MessageQueues.GlobalQueue.Pop` | mtask-src/mtask_mq.c:58-75 | Takes the first of the linked list and clears its next field. |
| `MessageQueues.RaisedIsLeast` | mtask-src/mtask_mq.c:157-160 | The raised threshold is the first doubling that the length does not exceed. |
| `TimerWheel.OthersKeepTheirSlot` | mtask-src/mtask_timer.c:116-137 | When the clock advances, including past its 32 bits, every pending node keeps the slot its expiry determines, unless it is in the one list that is moved. |
| `TimerWheel.SlotZeroUnused` | mtask-src/mtask_timer.c:72-91 | Slot 0 of the three lower levels is never used by a pending node. |
| `TimerWheel.DueSlot` | mtask-src/mtask_timer.c:72-91 | A node sits in the slot of the current tick exactly when it expires now. |
| `TimerWheel.MasksCompareBlocks` | mtask-src/mtask_timer.c:77-86 | On 32-bit words the masked comparisons of the code compare block numbers. |
| `TimerWheel.FindLevel` | mtask-src/mtask_timer.c:80-87 | The loop finds the first level whose next block holds both ticks. |
| `TimerWheel.Timer.AddNode` | mtask-src/mtask_timer.c:72-91 | The node goes to the end of the list of its slot and nothing else changes. |
| `TimerWheel.Timer.Add` | mtask-src/mtask_timer.c:93-104 | A timer with a delay from 1 to 2^31 - 1 becomes pending for the tick that many ticks ahead. |
| `TimerWheel.Timer.MoveList` | mtask-src/mtask_timer.c:106-114 | A list is handed out again: every node lands where the clock now puts it, nodes with the same expiry in the same order. |
| `TimerWheel.Timer.Cascade` | mtask-src/mtask_timer.c:119-136 | Moves the one list whose block the clock has just entered, if there is one. |
| `TimerWheel.Timer.Shift` | mtask-src/mtask_timer.c:116-137 | One tick, once nothing is due: every pending timer is in the slot of its expiry again. |
| `TimerWheel.Timer.TakeDue` | mtask-src/mtask_timer.c:157-162 | The list of the current tick is exactly the timers due now, in the order they were added. |
| `TimerWheel.Timer.Execute` | mtask-src/mtask_timer.c:157-168 | Dispatches what is due now and leaves everything else pending. |
| `TimerWheel.Timer.Update` | mtask-src/mtask_timer.c:170-183 | Dispatches what is due, ticks, and dispatches what is due then. |
| `TimerWheel.Timer.OnTime` | mtask-src/mtask_timer.c:72-183 | Every timer ever added has fired exactly once at its tick once that is past, in the order of addition, and never earlier. |
| `TimerWheel.Timer.Run` | mtask-src/mtask_timer.c:93-183 | Any interleaving of requests with the locked sections of the update leads to the state of a timer without a wheel and with a clock that does not wrap: requests due that many ticks ahead, what is due fired in the order added, ticks when nothing is due. |
| `TimerWheel.Timer.DueNow` | mtask-src/mtask_timer.c:157-168 | The list of the current tick is empty if and only if nothing is due. |
| `TimerWheel.RequestFires` | mtask-src/mtask_timer.c:93-183 | A requested timer has not left after fewer rounds of the update than its delay, and leaves in the next round, behind what was due at that tick before. |
| `LuaHeap.ReachableIsLeast` | 3rd/lua/lgc.c:332-340 | What the program can reach lies in every set that contains the roots and is closed under references. |
| `LuaHeap.SameReachable` | 3rd/lua/lgc.c:734-751 | Freeing only unreachable objects changes nothing about what is reachable. |
| `Collector.StoreMarking` | 3rd/lua/lgc.c:150-187 | After a store only the new pair can be black pointing to white. |
| `Collector.BackToGray` | 3rd/lua/lgc.c:166-172 | The backward barrier restores the invariant and lists the table. |
| `Collector.StackMarking` | 3rd/lua/lgc.c:531-551 | Stacks change without a barrier because threads are never black. |
| `Collector.FreeDead` | 3rd/lua/lgc.c:734-751 | Freeing a dead object leaves live objects, their references and the list intact. |
| `Collector.Global.ReallyMark` | 3rd/lua/lgc.c:230-278 | Marks a white object and the chain of user values behind it, and restores the invariant that was broken only towards it. |
| `Collector.Global.Traverse` | 3rd/lua/lgc.c:428-463 | Marks everything an object refers to. |
| `Collector.Global.PropagateMark` | 3rd/lua/lgc.c:559-600 | Takes one gray object, traverses it, and keeps the invariants; threads stay gray and wait for the atomic phase. |
| `Collector.Global.PropagateAll` | 3rd/lua/lgc.c:603-605 | Ends, with no gray object left on the list. |
| `Collector.Global.RestartCollection` | 3rd/lua/lgc.c:332-340 | Starts a cycle with the roots marked. |
| `Collector.Global.AtomicPhase` | 3rd/lua/lgc.c:986-1029 | Ends the marking: what is marked is closed under references and contains all roots, and turns out live when the white flips. |
| `Collector.Global.SweepList` | 3rd/lua/lgc.c:734-751 | Frees dead objects only, whitens the others, and keeps the set of live objects. |
| `Collector.Global.SweepToLive` | 3rd/lua/lgc.c:757-766 | Sweeps up to the first live object. |
| `Collector.Global.EnterSweep` | 3rd/lua/lgc.c:961-968 | Puts the sweep position inside the list. |
| `Collector.Global.BlackNeverPointsToWhite` | 3rd/lua/lgc.c:150-605 | While marking, in every interleaving of stores and steps, no black object points to a white one, no thread is black and every gray object is listed. |
| `Collector.Global.NothingReachableIsLost` | 3rd/lua/lgc.c:734-751 | In every state everything the program can reach is allocated and not dead. |
| `Collector.Global.SingleStep` | 3rd/lua/lgc.c:1049-1102 | One step in any state keeps all invariants, frees nothing reachable, changes no surviving object, and makes progress towards the end of the cycle. |
| `Collector.Global.RunUntilPause` | 3rd/lua/lgc.c:1109-1113 | A cycle always ends. |
| `Collector.Global.FullGC` | 3rd/lua/lgc.c:1161-1178 | A full collection keeps exactly the objects that were reachable when it began, unchanged. |
| `Collector.Global.Barrier` | 3rd/lua/lgc.c:150-159 | The forward barrier: marks while marking, whitens the writer while sweeping. |
| `Collector.Global.Store` | 3rd/lua/lgc.c:150-187 | Any store of a reachable value into a reachable object, with its barrier, keeps all invariants in every phase. |
| `Collector.Global.SetTableSlot` | 3rd/lua/lgc.c:166-172 | A table assignment, with the backward barrier. |
| `Collector.Global.SetOwnedSlot` | 3rd/lua/lgc.c:150-159 | An upvalue or user value, with the forward barrier. |
| `Collector.Global.SetMetatable` | 3rd/lua/lgc.c:150-159 | A metatable, with the forward barrier. |
| `Collector.Global.SetStack` | 3rd/lua/lgc.c:531-551 | Moving reachable values on a stack needs no barrier. |
| `Collector.Global.NewObject` | 3rd/lua/lgc.c:203-211 | A new object is white, heads the list and is reachable from the running stack; a sweep under way will not free it. |
| `Mutator.Run` | 3rd/lua/lgc.c:986-1178 | In every interleaving of writes, new objects and thread switches with steps and full collections, the program gets at the same values as one without a collector, and all it can reach is there with the same contents; after a full collection there is nothing else. |
| `Mutator.ResolveSame` | 3rd/lua/lgc.c:150-187 | Whatever the program names by a path from a root is the same object with and without the freed ones. |
| `Mutator.SameForProgram` | 3rd/lua/lgc.c:734-751 | Exactly the same objects can be reached with and without a collector. |
| `Mutator.WrittenIsRead` | 3rd/lua/lgc.c:150-187 | What the program writes to a slot is what it reads there, and every other slot and object stays. |
| `Mutator.CreatedIsOnTop` | 3rd/lua/lgc.c:205-212 | A new object is blank and on top of the running stack, and nothing else changes. |
| `SocketWrite.PartWritten` | mtask-src/socket_server.c:478-482 | A partial write moves bytes from the head of the list to the wire and nothing else. |
| `SocketWrite.WholeWritten` | mtask-src/socket_server.c:485-487 | A complete write retires the head of the list. |
| `SocketWrite.AppendedHigh` | mtask-src/socket_server.c:655-659 | Queueing with high priority keeps the order within each priority. |
| `SocketWrite.AppendedLow` | mtask-src/socket_server.c:661-665 | So does queueing with low priority. |
| `SocketWrite.HighAsLow` | mtask-src/socket_server.c:571-586 | Moving a begun low message to the empty high list keeps the order. |
| `SocketWrite.Socket.SendList` | mtask-src/socket_server.c:463-492 | For every sequence of answers of the system: what is left of the list, the bytes that went out and the count; it closes exactly when a write fails. The wire stays whole messages and one begun message. |
| `SocketWrite.Socket.SendBuffer` | mtask-src/socket_server.c:605-640 | A write event: the high list, then the low list, whose begun head moves to the high list; a half-closed socket with nothing left closes, and it is aborted by a failed write only. |
| `SocketWrite.Socket.SendSocket` | mtask-src/socket_server.c:680-748 | A message is taken by an open socket, written at once when nothing is queued, its rest going to the high list, and queued by priority otherwise; only a failed write closes. |
| `SocketWrite.Socket.CloseSocket` | mtask-src/socket_server.c:772-796 | Writes what it can and closes when nothing is left, else half-closes; when it closes and no write failed, everything accepted is on the wire. |
| `SocketWrite.Socket.ForceClose` | mtask-src/socket_server.c:324-342 | Drops both queues and closes; an invalid slot stays as it is. |
| `SocketWrite.Socket.ReportConnect` | mtask-src/socket_server.c:1085-1114 | A connected socket keeps what was queued while connecting; only a failed connection closes. |
| `SocketWrite.Socket.WireIsInOrder` | mtask-src/socket_server.c:463-665 | The wire holds whole messages and a prefix of the next; within a priority sent and queued messages are the accepted ones in order; only the head of the high list is begun; wb_size is the number of unsent bytes; a socket that was not aborted has written all it accepted when it is closed. |
| `SocketWrite.Socket.Run` | mtask-src/socket_server.c:463-796 | For any sequence of sends, write events, closes and failures, with any answers of the system: the socket is where the events lead, and has accepted what they handed to it; wire and queues hold that in order within each priority; if no event fails, it closes only after everything accepted is on the wire. |
| `SocketRuns.SendingExactly` | mtask-src/socket_server.c:463-492 | From the answers alone: the answers that a list uses are interruptions and counts that cover its messages one by one, until the first other answer; what is left, what went out, and whether it failed. |
| `SocketRuns.SendingKeeps` | mtask-src/socket_server.c:463-492 | What went out and what is left make up the list, and a first count above 0 gets on. |
| `SocketRuns.DrainsAll` | mtask-src/socket_server.c:596-640 | As many write events that take something as there are unsent bytes and messages, and one more, write everything in order, turn write events off, and close a half-closed socket. |
| `SocketRuns.SentGoesOut` | mtask-src/socket_server.c:679-765 | A message handed to a connected socket goes out whole, behind what is queued with its priority and above. |
| `SocketRuns.CloseGoesThrough` | mtask-src/socket_server.c:771-796 | After a close without a failed write, write events put all that was queued on the wire and close the socket. |
| `SocketRuns.ConnectGoesOn` | mtask-src/socket_server.c:1084-1114 | What was queued while connecting goes out once the connection is there. |
| `ShareData.PutHome` | lualib-src/mtask_lua_sharedata.c:213-235 | Taking a free main position keeps the table well linked. |
| `ShareData.PutAway` | lualib-src/mtask_lua_sharedata.c:238-273 | Taking an empty slot, second in the chain of the main position, keeps the table well linked. |
| `ShareData.RoomLeft` | lualib-src/mtask_lua_sharedata.c:252-258 | As long as a key is missing there is an empty slot. |
| `ShareData.EverySlotTaken` | lualib-src/mtask_lua_sharedata.c:305-319 | In the end no slot is empty. |
| `ShareData.CountSize` | lualib-src/mtask_lua_sharedata.c:68-89 | The number of keys outside the array part, tested at full width. |
| `ShareData.FillNoColliding` | lualib-src/mtask_lua_sharedata.c:192-235 | The first pass narrows every key to 32 bits and stores only such keys; if all keys fit, the array part is complete and every main position of a key is taken by a key that belongs there. |
| `ShareData.FillColliding` | lualib-src/mtask_lua_sharedata.c:238-273 | The second pass stores 32-bit keys only; if all keys fit, every key is in the table, in the chain of its main position. |
| `ShareData.FindEmpty` | lualib-src/mtask_lua_sharedata.c:252-258 | The search for an empty slot succeeds as long as a key that fits is missing. |
| `ShareData.ConfTable.constructor` | lualib-src/mtask_lua_sharedata.c:277-325 | Converts any table given by its entries: stored keys have 32 bits, and if all keys of the source fit, the table is right and its hash part exactly full. |
| `ShareData.ConfTable.AloneThere` | lualib-src/mtask_lua_sharedata.c:505-507 | The early exit on a node that never collided is right. |
| `ShareData.ConfTable.LookupKey` | lualib-src/mtask_lua_sharedata.c:501-530 | Finds a key exactly when it is in the hash part; the walk along next ends from any slot. |
| `ShareData.ConfTable.Index` | lualib-src/mtask_lua_sharedata.c:532-566 | The value of the narrowed key, or an error for a table; it is the value of the key asked for, or rightly none, if and only if that key fits into 32 bits or none is found. |
| `ShareData.ConfTable.NextKey` | lualib-src/mtask_lua_sharedata.c:589-646 | Returns the key after a given one, narrowed first, in one fixed order of the keys, or an error for a table. |
| `ShareData.ConfTable.AllKeysOnce` | lualib-src/mtask_lua_sharedata.c:580-646 | That order holds each key of the source table once and no other. |
| `ShareData.ConfTable.Visit` | lualib-src/mtask_lua_sharedata.c:580-646 | Asking for the next key until there is none visits each key of the source exactly once. |
| `ShareData.ConfTable.RightIffFits` | lualib-src/mtask_lua_sharedata.c:68-89 | The keys that iteration comes to are those of the source if and only if none of them is a table and all integer keys fit into 32 bits. |
| `ShareData.NarrowMeets` | lualib-src/mtask_lua_sharedata.c:192-211 | Two keys look the same to a node if and only if they are equal, integers a multiple of 2^32 apart, or each a table or the empty string. |
| `Serialize.IntegerRoundTrip` | lualib-src/mtask_lua_seri.c:141-172 | Every 64-bit integer is read back from its bytes, whatever follows. |
| `Serialize.StringRoundTrip` | lualib-src/mtask_lua_seri.c:189-211 | So is every string, short, 16-bit or 32-bit length. |
| `Serialize.HeaderRoundTrip` | lualib-src/mtask_lua_seri.c:433-448 | So is the size of the array part of a table. |
| `Serialize.RoundTrip` | lualib-src/mtask_lua_seri.c:433-519 | Every nested value is read back from its bytes, whatever follows, and exactly its bytes are consumed. |
| `Serialize.ListRoundTrip` | lualib-src/mtask_lua_seri.c:554-595 | Every list of values is read back from its bytes. |
| `Serialize.PackableMeans` | lualib-src/mtask_lua_seri.c:295-338 | Packing succeeds if and only if no unsupported type occurs and no part of the value lies deeper than 32 tables. |
| `Serialize.WriteBlock.Push` | lualib-src/mtask_lua_seri.c:63-83 | Appends bytes across as many 128-byte blocks as it takes. |
| `Serialize.WriteBlock.WbInteger` | lualib-src/mtask_lua_seri.c:141-172 | Writes an integer in its shortest form. |
| `Serialize.WriteBlock.WbString` | lualib-src/mtask_lua_seri.c:189-211 | Writes a string with its length. |
| `Serialize.WriteBlock.PackOne` | lualib-src/mtask_lua_seri.c:295-338 | Writes the bytes of a value, or reports that it cannot be packed, exactly when it cannot. |
| `Serialize.WriteBlock.WbTable` | lualib-src/mtask_lua_seri.c:215-292 | Writes header, array part, other entries and the closing nil. |
| `Serialize.WriteBlock.Seri` | lualib-src/mtask_lua_seri.c:533-551 | Flattening the blocks gives back what was written. |
| `Serialize.ReadBlock.ReadBytes` | lualib-src/mtask_lua_seri.c:116-126 | The cursor returns and skips that many bytes, or nothing, for sizes that are not negative. |
| `Serialize.ReadBlock.UnpackOne` | lualib-src/mtask_lua_seri.c:521-530 | Reads what the front of the stream decodes to, or reports why it cannot: an invalid stream, or a string whose length is negative as an int. |
| `Serialize.ReadBlock.UnpackTable` | lualib-src/mtask_lua_seri.c:433-463 | Reads a table, or reports why it cannot. |
| `Serialize.Unpack` | lualib-src/mtask_lua_seri.c:554-595 | Reads values until the end of the buffer, or reports why it cannot, on every stream. |
| `Serialize.NegativeExactly` | lualib-src/mtask_lua_seri.c:421-510 | A string length is negative if and only if it has four bytes and the top bit set. |
| `Serialize.NegativeStream` | lualib-src/mtask_lua_seri.c:421-510 | Every stream that begins with such a length fails, whatever follows. |
| `Serialize.PackUnpack` | lualib-src/mtask_lua_seri.c:554-611 | Whatever list of values is given, packing fails only for the stated reasons and unpacking gives the list back. |
| `SerializeFormat.PackedIsShortest` | lualib-src/mtask_lua_seri.c:131-345 | Of all streams that unpack to the same values, none is shorter than what is packed. |
| `SerializeFormat.ValueShortest` | lualib-src/mtask_lua_seri.c:131-345 | A value of any kind is written in no more bytes than it was read from. |
| `SerializeFormat.TagsExactly` | lualib-src/mtask_lua_seri.c:465-520 | A stream that begins with a tag can be read if and only if the tag is one of the known kinds with one of its widths. |
| `Netpack.CutAnywhere` | lualib-src/mtask_lua_netpack.c:186-212 | Cutting a stream anywhere changes neither its packets nor what is left over. |
| `Netpack.PackedComesOut` | lualib-src/mtask_lua_netpack.c:427-447 | Packets that are packed and sent one after the other come out one by one, whatever follows them. |
| `Netpack.PackExactly` | lualib-src/mtask_lua_netpack.c:433-447 | A packet that is accepted comes out whole if and only if it is shorter than 65536 bytes. |
| `Netpack.PackLargest` | lualib-src/mtask_lua_netpack.c:433-447 | A packet of 65536 bytes is accepted, and the first packet that comes out is empty. |
| `Netpack.RemoveIs` | lualib-src/mtask_lua_netpack.c:90-111 | Unlinking the incomplete packet of a connection leaves those of all others. |
| `Netpack.Queue.FindUncomplete` | lualib-src/mtask_lua_netpack.c:90-111 | Finds and unlinks the incomplete packet of a connection. |
| `Netpack.Queue.SaveUncomplete` | lualib-src/mtask_lua_netpack.c:166-177 | Stores the incomplete packet of a connection that has none. |
| `Netpack.Queue.ExpandQueue` | lualib-src/mtask_lua_netpack.c:130-145 | A larger ring holds the same packets in the same order. |
| `Netpack.Queue.PushData` | lualib-src/mtask_lua_netpack.c:147-163 | Appends a packet to the ring. |
| `Netpack.Queue.PopData` | lualib-src/mtask_lua_netpack.c:393-412 | Takes the oldest packet. |
| `Netpack.Queue.PushMore` | lualib-src/mtask_lua_netpack.c:186-212 | Queues all packets of a buffer in order and keeps the rest. |
| `Netpack.Queue.FilterData` | lualib-src/mtask_lua_netpack.c:225-304 | A chunk completes exactly the packets that the pending bytes and the chunk together complete; other connections are untouched. |
| `Netpack.Queue.Serve` | lualib-src/mtask_lua_netpack.c:225-304 | For chunks of any connections in any order, the packets of each connection are the frames of its own stream, in order. |
| `SocketBuffer.Pool.Take` | lualib-src/mtask_lua_socket.c:110-127 | A node that no buffer holds; when none is free a chunk is added. |
| `SocketBuffer.Pool.Return` | lualib-src/mtask_lua_socket.c:147-163 | A node becomes free; every node stays either free or used. |
| `SocketBuffer.Buffer.PushBuffer` | lualib-src/mtask_lua_socket.c:97-144 | A block is appended in a node from the pool. |
| `SocketBuffer.Buffer.ReturnFreeNode` | lualib-src/mtask_lua_socket.c:147-163 | The first node goes back to the pool, those of other buffers stay. |
| `SocketBuffer.Buffer.PopString` | lualib-src/mtask_lua_socket.c:166-205 | Removes exactly that many bytes, over any number of nodes, and returns all but the last few. |
| `SocketBuffer.Buffer.PopBuffer` | lualib-src/mtask_lua_socket.c:232-248 | Takes exactly the bytes asked for, or nothing when there are fewer. |
| `SocketBuffer.Buffer.ReadAll` | lualib-src/mtask_lua_socket.c:269-285 | Takes everything and returns all nodes. |
| `SocketBuffer.Buffer.ClearBuffer` | lualib-src/mtask_lua_socket.c:255-266 | Drops everything and returns all nodes. |
| `SocketBuffer.Buffer.CheckSep` | lualib-src/mtask_lua_socket.c:296-313 | Says whether the separator starts here, even when it straddles nodes. |
| `SocketBuffer.Buffer.FindSep` | lualib-src/mtask_lua_socket.c:320-356 | Finds the leftmost separator. |
| `SocketBuffer.Buffer.ReadLine` | lualib-src/mtask_lua_socket.c:320-356 | Returns exactly the bytes before the leftmost separator and drops it, or finds none because there is none. |
| `DiffieHellman.MulModP` | lualib-src/mtask_lua_crypt.c:660-679 | The product modulo the prime, for factors up to the prime and every 64-bit multiplier, although doubling may wrap at 64 bits. |
| `DiffieHellman.PowModP` | lualib-src/mtask_lua_crypt.c:682-692 | The power modulo the prime by repeated squaring, for exponents from 1; an exponent of 1 gives the base back. |
| `DiffieHellman.PowerModP` | lualib-src/mtask_lua_crypt.c:696-700 | Reduces a 64-bit base that exceeds the prime, then takes the power; the result is the power modulo the prime if and only if the base is not the prime itself or the exponent is not 1. |
| `DiffieHellman.Exchange` | lualib-src/mtask_lua_crypt.c:718-745 | Two parties with any non-zero exponents arrive at the same secret. |
| `Des.FinalUndoesInitial` | lualib-src/mtask_lua_crypt.c:201-221 | The final permutation inverts the initial one. |
| `Des.InitialUndoesFinal` | lualib-src/mtask_lua_crypt.c:201-221 | And the other way round. |
| `Des.RoundsUndo` | lualib-src/mtask_lua_crypt.c:225-240 | The rounds under reversed keys undo the rounds, for every round function. |
| `Des.CryptUndoes` | lualib-src/mtask_lua_crypt.c:314-335 | A block comes back under the reversed keys. |
| `Des.PaddingUnique` | lualib-src/mtask_lua_crypt.c:375-385 | No two texts have the same padded form. |
| `Des.DesCrypt` | lualib-src/mtask_lua_crypt.c:314-335 | Sixteen rounds between the two permutations. |
| `Des.DesEncode` | lualib-src/mtask_lua_crypt.c:359-390 | Pads the text with one byte 0x80 and zeros and enciphers it block by block. |
| `Des.ReverseKeys` | lualib-src/mtask_lua_crypt.c:397-402 | The round keys in reverse order, pair by pair. |
| `Des.Strip` | lualib-src/mtask_lua_crypt.c:416-430 | Takes the padding off, and reports an error exactly when there is none; the loop reads in front of the buffer if and only if the buffer is one block of zeros. |
| `Des.DesDecode` | lualib-src/mtask_lua_crypt.c:394-433 | Deciphers and strips; an error for a length that is no positive multiple of 8 or a text without padding; a read in front of the buffer if and only if the text is the enciphered block of zeros. |
| `Des.ReadsBeforeOnce` | lualib-src/mtask_lua_crypt.c:394-433 | Under every key schedule exactly one text deciphers to one block of zeros. |
| `Des.DecodeZeroBlock` | lualib-src/mtask_lua_crypt.c:394-433 | That text, deciphered with the keys it was enciphered with, makes the loop read in front of the buffer. |
| `Des.EncodeDecode` | lualib-src/mtask_lua_crypt.c:359-433 | Every text comes back under every key schedule. |
| `Des.KeySchedule` | lualib-src/mtask_lua_crypt.c:244-310 | The sixteen round keys of a key, two words each, by a loop that turns the halves of the key by one or two bits. |
| `DesConforms.InitialConforms` | lualib-src/mtask_lua_crypt.c:201-209 | The halves that the program starts with are the initial permutation of FIPS PUB 46-3 (section "Enciphering"), each rotated by one bit. |
| `DesConforms.RoundValueIs` | lualib-src/mtask_lua_crypt.c:227-240 | A round mixes in, from each of the eight tables, the entry that the bit selection table E and the round key select. |
| `DesConforms.RoundConforms` | lualib-src/mtask_lua_crypt.c:227-240 | On a rotated half a round computes the cipher function f of the standard, for all S-boxes. |
| `DesConforms.KeyMatters` | lualib-src/mtask_lua_crypt.c:227-240 | Two round keys that differ in any of their 48 bits read different entries. |
| `DesConforms.CipherConforms` | lualib-src/mtask_lua_crypt.c:313-335 | Permutations and rounds together are the enciphering of the standard under the same round keys. |
| `DesKeys.FirstChoiceConforms` | lualib-src/mtask_lua_crypt.c:252-268 | The halves of the key are what permuted choice 1 selects. |
| `DesKeys.SecondChoiceConforms` | lualib-src/mtask_lua_crypt.c:285-309 | The two words of a round key hold what permuted choice 2 selects. |
| `DesKeys.ScheduleConforms` | lualib-src/mtask_lua_crypt.c:244-310 | The round keys of the program are those of the standard, for every key. |
| `DesBoxes.TablesHold` | lualib-src/mtask_lua_crypt.c:13-163 | The eight tables of the program are the S-boxes of the standard with the permutation P applied, each entry rotated. |
| `DesBoxes.CryptIsStandard` | lualib-src/mtask_lua_crypt.c:313-335 | Under every key, every block of eight bytes is enciphered as FIPS PUB 46-3 says. |
| `DesBoxes.EncipherBlock` | lualib-src/mtask_lua_crypt.c:244-335 | The key schedule and the rounds as the program runs them give the block of the standard. |
| `DesBoxes.DecipherBlock` | lualib-src/mtask_lua_crypt.c:394-413 | With the pairs of round keys reversed they give the block that the standard enciphers to the given one. |
| `Handles.HandleStorage.Register` | mtask-src/mtask_handle.c:35-66 | The handle is the first one from the index on whose slot is empty, of this harbor, and the index goes behind it; no live context has it, all others stay; the table doubles exactly if it was full, and nothing is registered exactly if it was full at its largest size. |
| `Handles.HandleStorage.Run` | mtask-src/mtask_handle.c:35-106 | In any sequence of registrations and retirements a handle is given out again only after so many others that the index has gone through all of them. |
| `Handles.ZeroExactly` | mtask-src/mtask_handle.c:41-54 | The handle 0 comes next if and only if the index has come round: all handles from it to the last one are tried and taken, and the first slot is empty. |
| `Handles.GivesZero` | mtask-src/mtask_handle.c:41-54 | Registering and retiring as often as there are handles makes the next handle 0 in a storage without a harbor. |
| `Handles.HandleStorage.FindFree` | mtask-src/mtask_handle.c:41-54 | The first handle from the index whose slot is empty; when there is none, no slot is empty. |
| `Handles.HandleStorage.Double` | mtask-src/mtask_handle.c:55-65 | Doubling loses no context and leaves room. |
| `Handles.HandleStorage.FreeHandle` | mtask-src/mtask_handle.c:38-66 | The first handle from the index whose slot is empty, in the table or, if that is full, in the doubled one, with all live contexts where they belong. |
| `Handles.DoubledIs` | mtask-src/mtask_handle.c:55-65 | No two contexts meet in a slot of the doubled table. |
| `Handles.HandleStorage.Grab` | mtask-src/mtask_handle.c:132-149 | Exact lookup: a context if and only if one with this handle is live. |
| `Handles.HandleStorage.Retire` | mtask-src/mtask_handle.c:69-106 | Removes the context of the handle and exactly the names of the handle; otherwise nothing. |
| `Handles.HandleStorage.CompactNames` | mtask-src/mtask_handle.c:83-94 | The in-place compaction keeps the other names in order. |
| `Handles.HandleStorage.Search` | mtask-src/mtask_handle.c:157-173 | Halving finds a name, or the place where it belongs. |
| `Handles.HandleStorage.FindName` | mtask-src/mtask_handle.c:151-178 | The handle of a name, or 0 when no such name exists. |
| `Handles.HandleStorage.InsertNameBefore` | mtask-src/mtask_handle.c:181-205 | Inserts at a position, by shifting or into an array twice as large. |
| `Handles.HandleStorage.NameHandle` | mtask-src/mtask_handle.c:207-240 | Adds a name unless it is taken; the array stays strictly sorted. |
| `Handles.WithoutIs` | mtask-src/mtask_handle.c:83-94 | Dropping the names of a handle keeps the order and all other names. |

## Left out

- LpegSafe.CompileCorrect: safe options are a condition on the tree that is sufficient for all subjects at once. It is not necessary, because code that is never reached does no harm (`LpegOption.UnsafeAfterFalse`), and neither is the part of it that takes an inner option for failing unless its operand is reported as never failing; whether a part of a pattern can be reached or can fail is a question about all subjects, which no check of the tree answers. Per subject the condition is exact for an option (`LpegOption.OptionExact`) and sufficient for whole patterns (`LpegOption.CompileClean`).
- LpegOption.CompileClean: one direction, because where several options go wrong at once their errors can cancel; what the code then gives is `LpegActual.Actual`.
- LPeg captures, run-time captures, grammars and calls, and the table of constants of a pattern.
- The limit of the backtrack stack: the stack is unbounded.
- LpegPattern.MatchExpr: the meaning of the expression is promised for careful expressions and for prepared trees with safe options, for the same reason. The operators build trees as values; the array form is modelled in `LpegAssoc`. The number of p^n is unbounded, and ranges of characters are charsets.
- Charsets are sets of characters; the bit arrays of lpcode.c:41-125 and the words that follow an instruction as its operand are not looked into.
- Scheduler.StepKeeps: a handle and its queue appear in one step, although the code registers the handle a little before it creates the queue; handles of services are never reused in this module, so the wrap of the 24-bit index is not modelled there.
- Spinlocks, the read-write lock and memory ordering: a locked section is atomic.
- Operations that a message callback performs are steps of other threads; what a callback computes is not modelled.
- The number of messages a worker takes per turn follows the queue length and the weight of the worker; here any number is possible. The error message that is sent back for a dropped message is a send of another thread. That the threads can always finish is proved (`SchedulerProgress.CanAlwaysFinish`); fairness and starvation are not stated.
- mtask_context_reserve, mtask_context_dispatchall, the monitor thread, and the write of ctx->init after a release.
- The width of the capacity of a message queue and failing allocations, here and in all other modules.
- mtask_timeout with a time of 0 or less, which sends at once, the reading of the system clock, and starttime.
- The links between timer nodes: the list of a slot is a sequence. Bit masks on the clock are written as division and remainder, which `TimerWheel.MasksCompareBlocks` justifies.
- In the collector: weak and ephemeron tables, finalizers, open upvalues, Lua closures and prototypes, fixed objects, dead keys, and emergency collections; tables are strong, and the lists of objects with finalizers are empty.
- The pace of the collector: how much work a step does follows from the debt, which is not modelled; the schedule of single steps is arbitrary, and the number of objects swept in one step is the constant 100.
- The address of a freed object is not used again in the collector's model.
- Of the socket server: UDP, user objects, bound descriptors, polling, the command pipe, name lookup, accept, and reading, apart from the notice that the peer has closed.
- The answers of the system to a write are a list; when it is exhausted the answer is EAGAIN.
- Values and nested tables of a shared table are copied without a look inside; strings are compared by content instead of by interned address; other keys than integers, strings and tables, which the source refuses, are left out. A table with keys that do not fit is built as the code builds it, but what a lookup finds in it is not stated.
- The hash of a string key: any function would do; that of the source is written out, and nothing depends on it.
- Reference counts, dirty marks, boxes and updates of shared tables.
- The serializer's support for the __pairs metamethod, and error line numbers. Strings and array parts that are packed are shorter than 2^31, reals and pointers are 8 bytes that are not looked into, and bytes are in little-endian order. A NaN as a key of a table that is read, which Lua refuses, is accepted.
- Serialize.ReadBlock.UnpackOne: after a negative string length the cursor and the error that Lua raises are not modelled, only that there is no value.
- The order in which Lua yields the entries of a table outside its array part: a table is its array part and a list of other entries.
- Of packet framing: tostring, clearing a queue, and the messages for opening, closing and errors. Descriptors are not negative and a chunk is not empty.
- Netpack.Queue.Serve: the consumer takes the queued packets after each chunk.
- Of line reading: the conversion of a header to a number. Blocks are not empty, sizes are not negative, and sizes are unbounded integers.
- DiffieHellman.PowModP: an exponent of 0, on which the recursion in C does not end, is left out; so is the order of the bytes of a key.
- Des.DesDecode: what the program does after a read in front of the buffer is not modelled, only when it happens. Texts are shorter than 2^31 bytes, as the loops count with an int.
- Hashes, HMAC, hexadecimal and base64 coding.
- Handles.HandleStorage.Register: the assertion of the source that a table of the largest size is never full is an outcome here.
- Retiring all services at once, and reference counting in the handle table, which is part of `Scheduler`.
- Cluster, harbor and gate routing, logging, configuration, the database drivers, and the rest of the Lua libraries: further framing, or plumbing.
