# Verified models of the Sniper simulator's trace, scheduling and profiling code

The Sniper multicore simulator is fed by front-ends that record what a program does and by scripts and tools that steer a
simulation and make its results readable. This project models the parts of it with the most state, branching or
arithmetic, in the form the original has, and proves what they are for.

**SIFT traces** (`Sift*.dfy`). A front-end holds a `Sift::Writer`, the simulator a `Sift::Reader`; two byte streams connect
them. Records are compact: an instruction at the expected address takes one byte plus its data addresses, code is shipped
once, by page or by instruction, and so are page mappings. `SiftFormat` is the record layout, `SiftImage` the reader's copy
of the code, `SiftReading` and `SiftWriting` what one side does with records, `SiftMessages` and `SiftWaiting` the way
back: responses, and memory requests that the reader makes while the writer waits. `SiftTrace` proves the whole-trace
round trip, `SiftLaws` its consequences and exact limits, and `SiftProtocol` is a state machine of both sides with the
bytes in both pipes, proved safe and free of deadlock over every run. `SiftReader` and `SiftWriter` are the two classes
with their fields, loops and linked instruction objects, proved to refine those specifications, and `SiftSession` joins the
two: every call made on a writer object comes out of a reader object.

**JSON** (`Json*.dfy`). The reader and writer of `tools/localjson.py`: grammar and text as functions, the round trip, and
the two objects that move an index and append to a buffer.

**Scheduling** (`Scheduler*.dfy`). The hooks of `scripts/scheduler-locality.py`, thread objects included.

**Profiles** (`Profile*.dfy`). The call forest of `tools/gen_profile.py`: worklist, inclusive totals, folding.

**Component stacks** (`Stack*.dfy`). The recursive collapse of `tools/buildstack.py` and the table made from it by
`tools/cpistack_results.py`.

**Shared pointers** (`SharedPtr*.dfy`). `frontend/shared_ptr.h` as steps on a heap of counters, and as objects.

**Random projection** (`Bbv.dfy`), **bottle graphs** (`BottleGraph.dfy`), **region of interest** (`Roi.dfy`). The unrolled
loop of `frontend/bbv_count.cc` against drand48 of POSIX.1-2017, the time accounting of `scripts/bottlegraph.py`, and the
state machine of `scripts/roi-icount.py`.

Integers are unbounded except where the original's width matters: addresses, lengths and counters of the trace and of the
projection are 8, 16, 32 or 64 bits wide with their wrap-around written out. Times and values of the analysis scripts are
real numbers. Undefined bytes of freshly allocated code pages are `None`. A failed assertion of the original is a result
of its own, so that "no assertion fails" is something proved and not something assumed.

Some properties one would expect do not hold of the code as it is. The model keeps the code, shows the failing input and
proves the exact condition:

- an instruction of size 0, or one not executed that takes the short form, does not survive the trace (`InstructionExact`);
- the page loop of the writer does not stop for code on the last page of the address space (`PageLoopStops`), and for an
  instruction that wraps round the end of it the loop stops without having shipped anything, so that the reader's
  page-present assertion fails (`CallExact`, `CodeArrives`);
- output and system calls without data, or with so much that the length wraps, are refused by the reader (`OutputExact`,
  `SyscallExact`);
- the linked lookup does not notice a size that has changed (`LinkedIsPlain`, `SizeChangeUnnoticed`);
- a memory request is only answered while the writer waits in a call that serves them, an empty one never, and a write of
  2^32-20 bytes or more not either, because its length wraps and its bytes stay on the stream (`AnsweredExactly`);
- names of 65535 bytes or more are cut (`CStringWhole`);
- a resumed thread may take a core that is issued again later (`ResumeExact`, `UnissuedClashes`);
- labels below the second level are not known (`LeavesKnown`, `DeepIsUnknown`), though a dash in a name can hide it
  (`DashesHideDepth`);
- a profile cannot be built when a call lacks a counter of a call made from it (`BuildAll`);
- the aliasing constructor of a shared pointer (`AliasExact`): given another object it loses the shared one, which is never
  destroyed (`AliasLoses`); given null it leaves the counter one short, and the last shared pointer to let go works on a
  freed counter (`AliasUndercounts`); on an empty shared pointer, an object handed over before is destroyed twice
  (`AliasDestroysTwice`);
- a counter that cannot be allocated leaves a shared pointer on a destroyed object (`FailedAllocation`, `FailedReset`);
- a region that begins while it is open drops the time since the last event from the bottle graph (`EndedExact`);
- lengths below zero, which the region script does not refuse, make the region begin too late (`RunMeasuredExact`,
  `RunMeasuredFromRoiExact`).

Where the code and its comments disagree the model follows the code: `acquire` is said to pass on an allocation failure but
swallows it, and `Read` says it is past the end record by returning true, after returning false once.

Small facts about options, sets and lists that several parts use are in `Collections.dfy`, byte layouts in `Bytes.dfy`.

## Model

| member | source | states |
|---|---|---|
| `SiftFormat.ParsePut` | sift/sift_format.h:47-120 | for every record, reading the front of any stream that starts with its bytes gives the record back and leaves exactly what follows |
| `SiftFormat.PutAppend` | sift/sift_format.h:47-120 | a record's bytes do not depend on what is written after it |
| `SiftFormat.PutAllConcat` | sift/sift_writer.cc:184-321 | writing two lists of records one after the other is writing their concatenation |
| `SiftImage.StoreAt` | sift/sift_reader.cc:374-402 | the page-splitting loop stores exactly the shipped bytes at their addresses, for any start and length, and changes no other byte |
| `SiftImage.DecodeAt` | sift/sift_reader.cc:928-949 | an assembled instruction holds the image's byte at each of its addresses, across page ends |
| `SiftImage.DecodeDefined` | sift/sift_reader.cc:928-949 | the page-present assertion does not fail when the bytes are there |
| `SiftImage.DecodeHolds` | sift/sift_reader.cc:928-949 | an instruction whose bytes were shipped decodes to the program's code at its address, with no undefined byte |
| `SiftImage.StoreCode` | sift/sift_reader.cc:374-402 | shipping code keeps the image equal to the code, makes the shipped range available, and takes nothing away |
| `SiftImage.PutPage` | sift/sift_reader.cc:363-372 | a shipped page keeps the image equal to the code and makes all its bytes available |
| `SiftReading.ReadAllRun` | sift/sift_reader.cc:340-732 | reading the bytes of any records that fail no assertion does what the records do one by one, answers each request once in order, and stops at the end record |
| `SiftWriting.TraceRecsShip` | sift/sift_writer.cc:184-321 | everything any sequence of calls writes fits its field and is accepted by the reader's assertions |
| `SiftTrace.RunPages` | sift/sift_writer.cc:226-250 | after the page loop every page between first and last byte is in the reader's image and equals the code |
| `SiftTrace.RunImage` | sift/sift_writer.cc:194-250 | in both modes, the code of an instruction is complete in the reader's image before its record arrives |
| `SiftTrace.RunMaps` | sift/sift_writer.cc:1097-1128 | the reader's page table after the mapping records is the first physical page seen for each virtual page |
| `SiftTrace.RunCall` | sift/sift_writer.cc:184-321 | one call delivers exactly its meaning and keeps the two sides in step, `last_address` included |
| `SiftTrace.RunTrace` | sift/sift_writer.cc:184-321 | the same after any sequence of calls, from any pair of states in step |
| `SiftTrace.RoundTrip` | sift/sift_reader.cc:340-732 | whole-trace round trip: for every sequence of writer calls the reader returns the same instructions and side records in order, then the end of the trace, with nothing left over |
| `SiftLaws.Translation` | sift/sift_reader.cc:1099-1120 | with mappings on, each address a call touched outside page 0 translates to the first physical page the writer looked up, at the same offset, now and after any later calls |
| `SiftLaws.FirstSeenByKeeps` | sift/sift_writer.cc:1097-1128 | the mapping of a page never changes once seen |
| `SiftLaws.InstructionExact` | sift/sift_writer.cc:261-312 | for an instruction whose code has arrived, what the reader returns for its record equals what the writer was given if and only if the size is not 0 and the executed flag is set or travels |
| `SiftLaws.EmptyIsLost` | sift/sift_writer.cc:186-187 | an instruction of size 0, which the assertion lets through, is never delivered |
| `SiftLaws.ReadOneNoEmpty` | sift/sift_reader.cc:667-727 | no instruction of size 0 comes out of Read, whatever the stream holds |
| `SiftLaws.PageLoopStops` | sift/sift_writer.cc:226-250 | in 64-bit arithmetic the page loop stops if and only if the last byte is not on the last page of the address space, wrap-around included |
| `SiftLaws.CodeArrives` | sift/sift_writer.cc:226-250 | for a page loop that stops, the code of an instruction is complete in the reader's pages after the code records if and only if, in page mode, it ends below the last page |
| `SiftLaws.CallExact` | sift/sift_writer.cc:184-321 | for every instruction whose page loop stops, from any states in step: reading all that the writer writes for it gives it back if and only if its size is not 0, its executed flag is set or travels, and in page mode its code ends below the last page |
| `SiftLaws.LinkedIsPlain` | sift/sift_reader.cc:951-984 | one lookup: following the link of the previous instruction gives what the map lookup gives if and only if the cached size agrees |
| `SiftLaws.AccessesPlain` | sift/sift_reader.cc:951-984 | over every access sequence in which each address keeps one size, every access gives what the lookup by address gives, and fails where it fails |
| `SiftLaws.SizeChangeUnnoticed` | sift/sift_reader.cc:962-970 | after any two instructions in turn the link hands out the second one whatever size is asked for, where the lookup by address fails its assertion |
| `SiftLaws.AccessesKeep` | sift/sift_reader.cc:951-984 | over every access sequence there is one cached instruction per address, none is replaced, links are written once, and every link leads into the map |
| `SiftLaws.CachedIsFresh` | sift/sift_reader.cc:928-984 | while the two sides are in step every cached instruction equals a fresh decode and the program's code |
| `SiftWaiting.WaitForResponse` | sift/sift_writer.cc:323-870 | the response to a request ends its wait loop with the handler's answer and takes nothing more off the stream |
| `SiftWaiting.WaitServes` | sift/sift_writer.cc:947-1046 | a memory request that gets an answer gets one, with the result and effect of a direct access, and the wait goes on; reads of any size that is not 0 |
| `SiftWaiting.TakeMemoryResponse` | sift/sift_reader.cc:816-926 | the reader takes that response as a success carrying the direct result |
| `SiftWaiting.AnsweredExactly` | sift/sift_writer.cc:947-1046 | a memory request during a wait is answered if and only if the waiting call serves them (Syscall, Sync, Magic, Emulate), it is not empty, and it is a read, or a write whose length does not wrap the length field; what happens to the stream otherwise |
| `SiftWaiting.AwaitSession` | sift/sift_writer.cc:501-586 | any sequence of memory requests followed by the response: each is performed as a direct access in order and answered once, and the call returns the response |
| `SiftWaiting.WriteMemoryAt` | sift/sift_writer.cc:947-1046 | a byte read after a write is the byte written, other bytes are unchanged |
| `SiftProtocol.StepKeeps` | sift/sift_reader.cc:414-603 | every step of writer or reader, the program changing its memory between calls included, keeps the protocol invariant on pipes, states, history and what is delivered |
| `SiftProtocol.RunKeeps` | sift/sift_reader.cc:414-603 | the invariant holds in every state of every run |
| `SiftProtocol.InvSafe` | sift/sift_reader.cc:414-603 | the invariant means: a reader in a handler has consumed every byte sent, a running writer has one outcome of the right type for each request and an empty pipe, and the simulator has received the beginning of what the writer was told |
| `SiftProtocol.RunSafe` | sift/sift_writer.cc:323-870 | over every run: no assertion fails, each request gets one response of its type, memory accesses return what direct ones would, no stray bytes remain, and what was delivered is a prefix of the meanings of the calls, all of them when nothing is in flight |
| `SiftProtocol.ResumesKeeps` | sift/sift_reader.h:167-171 | the answer put off until the context switch is the one response of its magic request |
| `SiftProtocol.WaitingGoesOn` | sift/sift_writer.cc:323-870 | no deadlock: while the writer waits, one side can take a step |
| `SiftReader.Reader.CopyCode` | sift/sift_reader.cc:928-949 | the copying loop computes the decode of the image |
| `SiftReader.Reader.FindStaticInstruction` | sift/sift_reader.cc:951-975 | link, map or fresh decode: the object found has the specified value, and cached objects stay the same objects |
| `SiftReader.Reader.LinkStaticInstruction` | sift/sift_reader.cc:977-984 | the previous instruction is linked unless it already has a link; no existing link changes |
| `SiftReader.Reader.GetStaticInstruction` | sift/sift_reader.cc:951-984 | both halves together; existing objects and links are kept |
| `SiftReader.Reader.StoreVariable` | sift/sift_reader.cc:374-402 | the loop over page parts equals the specified store |
| `SiftReader.Reader.ReadInstruction` | sift/sift_reader.cc:667-727 | an instruction record updates the reader as specified or fails the same assertion |
| `SiftReader.Reader.ReadOther` | sift/sift_reader.cc:354-664 | the other records update the reader as specified |
| `SiftReader.Reader.Serve` | sift/sift_reader.cc:414-603 | a request is delivered and answered once, or its answer is put off |
| `SiftReader.Reader.Round` | sift/sift_reader.cc:340-352 | one round of the loop does what the specification of Read says and makes progress |
| `SiftReader.Reader.Read` | sift/sift_reader.cc:304-732 | Read refines the specification: result, state, rest of the stream and responses |
| `SiftReader.Reader.AccessMemory` | sift/sift_reader.cc:816-926 | the request that is sent, wrapped length included, and the response that is accepted; for an access that is answered it succeeds with the direct result |
| `SiftReader.Reader.SendResponseAfterContextSwitch` | sift/sift_reader.h:167-171 | sends the magic response 0, which any writer that waits in a magic call returns as 0, leaving what follows it untouched |
| `SiftWriter.Writer.ShipPages` | sift/sift_writer.cc:226-250 | whenever the loop stops, it writes exactly the pages not yet shipped, and marks them |
| `SiftWriter.Writer.ShipImage` | sift/sift_writer.cc:194-250 | page mode or per-instruction mode: the code records an instruction still needs |
| `SiftWriter.Writer.SendVa2pa` | sift/sift_writer.cc:1097-1128 | one mapping record for a page not yet sent whose lookup is not 0 |
| `SiftWriter.Writer.SendMappings` | sift/sift_writer.cc:257-259 | the mapping records of a list of addresses, none twice |
| `SiftWriter.Writer.WriteInstruction` | sift/sift_writer.cc:261-312 | the short form when the address is the expected one and there is no predicate, else the full form, for every size below 16; `last_address` advances |
| `SiftWriter.Writer.Instruction` | sift/sift_writer.cc:184-321 | the bytes are those of the code records, the mapping records and the instruction record, and the state advances accordingly, for every call whose page loop stops |
| `SiftWriter.InstructionIsCall` | sift/sift_writer.cc:184-321 | what Instruction writes and remembers is one call of the traces the round trip is about |
| `SiftWriter.Writer.CacheOnly` | sift/sift_writer.cc:372-406 | mappings of both addresses, then the record |
| `SiftWriter.Writer.Output` | sift/sift_writer.cc:408-433 | the output record with its length cut to 32 bits, for data of any length; the record of the traces whenever it fits |
| `SiftWriter.OutputExact` | sift/sift_reader.cc:446-462 | the reader takes such a record back if and only if it has data and its length does not wrap, and refuses it otherwise |
| `SiftWriter.SyscallExact` | sift/sift_reader.cc:464-480 | the same for a system call |
| `SiftWriter.Writer.RoutineChange` | sift/sift_writer.cc:872-889 | the record in its layout |
| `SiftWriter.Writer.RoutineAnnounce` | sift/sift_writer.cc:891-915 | the record with its three zero-terminated strings |
| `SiftWriter.CStringWhole` | sift/sift_writer.cc:898-914 | a name arrives whole if and only if it is shorter than 65535 bytes: the length is cut to 16 bits |
| `SiftWriter.Writer.ISAChange` | sift/sift_writer.cc:917-940 | the record in its layout |
| `SiftWriter.Writer.End` | sift/sift_writer.cc:126-140 | the end record |
| `SiftWriter.Writer.WriteRequest` | sift/sift_writer.cc:323-870 | each request in its layout, the 32-bit length of a system call included |
| `SiftWriter.Writer.Request` | sift/sift_writer.cc:323-870 | mappings, the request, then the response loop: bytes sent, memory, outcome and what is left of the responses are those of the specified wait |
| `SiftSession.Perform` | sift/sift_writer.cc:184-940 | every call of a trace, made on the writer object, writes the call's records and leaves the call's state: instructions, blocking calls with their answers, and the other records |
| `SiftSession.PerformAll` | sift/sift_writer.cc:184-940 | the same for a whole trace |
| `SiftSession.ReadTrace` | sift/sift_reader.cc:304-732 | calling Read until it no longer returns an instruction gives what reading the whole trace is specified to give |
| `SiftSession.WriteThenRead` | sift/sift_writer.cc:184-940 | from object to object: a reader of what the writer wrote ends with the end of the trace and has received exactly what the calls mean |
| `JsonLaws.EscapedIsEach` | tools/localjson.py:324-336 | the chain of whole-string replacements is the same as escaping each character on its own |
| `JsonLaws.StringBodyBack` | tools/localjson.py:164-194 | reading an escaped string gives it back, up to its closing quote |
| `JsonLaws.NumberBack` | tools/localjson.py:143-162 | reading a written integer gives it back and stops at what follows |
| `JsonLaws.RoundTrip` | tools/localjson.py:92-348 | for every nested value, reading its text gives the value back and stops right after it, with or without escaped slashes |
| `JsonIO.JsonWriter.Write` | tools/localjson.py:302-348 | the recursive writer appends exactly the value's text |
| `JsonIO.JsonWriter.WriteArray` | tools/localjson.py:315-323 | items separated by commas, none after the last |
| `JsonIO.JsonWriter.WriteObject` | tools/localjson.py:304-314 | members separated by commas, none after the last |
| `JsonIO.JsonReader.Peek` | tools/localjson.py:30-35 | the next character, without moving |
| `JsonIO.JsonReader.Next` | tools/localjson.py:36-41 | takes the next character or reports the end |
| `JsonIO.JsonReader.Putback` | tools/localjson.py:42-43 | undoes one Next |
| `JsonIO.JsonReader.ReadCStyleComment` | tools/localjson.py:216-226 | skips to the end of the comment; an embedded opening is an error |
| `JsonIO.JsonReader.ReadDoubleSolidusComment` | tools/localjson.py:228-234 | skips to the end of the line or of the text |
| `JsonIO.JsonReader.EatBlanks` | tools/localjson.py:276-283 | skips blanks and comments as specified, with the same errors |
| `JsonIO.JsonReader.ReadNumber` | tools/localjson.py:143-162 | agrees with the specified number parser on value, place and error |
| `JsonIO.JsonReader.ReadEscape` | tools/localjson.py:174-189 | agrees with the specified escape on character, place and error |
| `JsonIO.JsonReader.ReadString` | tools/localjson.py:164-194 | agrees with the specified string parser, pushback of the closing quote included |
| `JsonIO.JsonReader.ReadArray` | tools/localjson.py:236-250 | agrees with the specified array parser |
| `JsonIO.JsonReader.ReadObject` | tools/localjson.py:252-274 | agrees with the specified object parser; a repeated key keeps the last value |
| `JsonIO.JsonReader.ReadValue` | tools/localjson.py:92-115 | agrees with the specified parser on every text: value, place, error |
| `JsonIO.WriteThenRead` | tools/localjson.py:350-354 | read(write(v)) is v and the whole text is consumed |
| `SchedulerLaws.StartKeeps` | scripts/scheduler-locality.py:68-76 | starting a thread keeps core ownership exclusive |
| `SchedulerLaws.StallKeeps` | scripts/scheduler-locality.py:81-94 | so does a stall or exit, which hands the freed core to the best waiting thread |
| `SchedulerLaws.ResumeKeeps` | scripts/scheduler-locality.py:96-107 | a resume onto an issued free core keeps it, whichever one it is |
| `SchedulerLaws.ResumeExact` | scripts/scheduler-locality.py:96-107 | a resume is safe, that is no later run gives a core two owners, if and only if the core taken is an issued one |
| `SchedulerLaws.UnissuedClashes` | scripts/scheduler-locality.py:68-107 | from every state of a run, a resume onto any core not yet issued leads to a core with two owners by thread starts alone |
| `SchedulerLaws.UnissuedReachable` | scripts/scheduler-locality.py:68-107 | with two cores or more such a resume is possible: one thread that starts, stalls and resumes |
| `SchedulerLaws.LowestIsIssued` | scripts/scheduler-locality.py:103-107 | the lowest free core is always an issued one then |
| `SchedulerLaws.PlaceAllPlaces` | scripts/scheduler-locality.py:130-135 | the placing loop puts newcomer i on free core i, evicts exactly the former owners of those cores, and leaves the others alone |
| `SchedulerLaws.EnoughVacant` | scripts/scheduler-locality.py:121-128 | the free cores exceed the newcomers by exactly the cores that nobody wants, so the assertion holds |
| `SchedulerLaws.PeriodicFair` | scripts/scheduler-locality.py:109-135 | afterwards the owners are exactly the min(runnable, cores) selected threads, those already running keep their core, and no waiting thread has a lower score than a running one |
| `SchedulerLaws.PeriodicKeeps` | scripts/scheduler-locality.py:109-135 | periodic keeps the invariant |
| `SchedulerLaws.RunKeeps` | scripts/scheduler-locality.py:68-135 | exclusive ownership, runnable owners and the issued prefix over every run of hooks whose resumes take issued cores |
| `SchedulerLaws.LowestEnabled` | scripts/scheduler-locality.py:103-107 | taking the lowest free core is always such a choice |
| `SchedulerLaws.InitialInv` | scripts/scheduler-locality.py:63-66 | a scheduler without threads satisfies the invariant |
| `SchedulerHooks.ThreadObject.UpdateScore` | scripts/scheduler-locality.py:23-26 | adds the metric's growth since it was last read |
| `SchedulerHooks.ThreadObject.SetCore` | scripts/scheduler-locality.py:32-40 | changes the core, and brings the score up to date when it is taken away |
| `SchedulerHooks.SchedulerLocality.HookThreadStart` | scripts/scheduler-locality.py:68-76 | the thread table becomes the specified one |
| `SchedulerHooks.SchedulerLocality.HookThreadStall` | scripts/scheduler-locality.py:78-94 | likewise for a stall, an exit, or being scheduled out |
| `SchedulerHooks.SchedulerLocality.HookThreadResume` | scripts/scheduler-locality.py:96-107 | likewise for a resume, for any choice among the free cores |
| `SchedulerHooks.SchedulerLocality.UpdateAllScores` | scripts/scheduler-locality.py:110-111 | the scores of exactly the threads with a core are updated |
| `SchedulerHooks.SchedulerLocality.PlaceThread` | scripts/scheduler-locality.py:131-134 | evict the owner if there is one, then take the core |
| `SchedulerHooks.SchedulerLocality.HookPeriodic` | scripts/scheduler-locality.py:109-135 | refines the specified periodic, keeps the invariant, and its assertions hold |
| `Profile.SubtreeSplits` | tools/gen_profile.py:153-164 | the subtree of a call is the call and the disjoint subtrees of its children |
| `Profile.TotalFromChildren` | tools/gen_profile.py:42-45 | own data plus the children's totals is the sum of the original data over the subtree |
| `Profile.ShownSplits` | tools/gen_profile.py:46-53 | the unfolded children and what the folded children show make up what is shown below a call |
| `ProfileBuild.Load` | tools/gen_profile.py:135-151 | one call for every stack, and each counter sums to what the lines say, also where lines lack some counters |
| `ProfileBuild.VisitOrder` | tools/gen_profile.py:158-164 | the worklist lists every call exactly once, children before parents |
| `ProfileBuild.ExposedAdds` | tools/gen_profile.py:46-50 | folding moves data into the caller and loses or doubles nothing |
| `ProfileBuild.StoreSound` | tools/gen_profile.py:35-55 | one visit keeps everything known about the visited calls |
| `ProfileBuild.AllDone` | tools/gen_profile.py:165-169 | when all calls are visited: totals are subtree sums, the grand total is the sum over the loaded calls, unfolded calls and folded roots still hold every counter but the number of calls, and no folded call remains a child |
| `ProfileBuild.Profiler.Gather` | tools/gen_profile.py:42-53 | the loop over the children computes the total, the folded data and the regrouped children, or ends in a KeyError if and only if a child has a counter that the call lacks |
| `ProfileBuild.Profiler.BuildTotal` | tools/gen_profile.py:35-55 | visiting a call whose children are visited keeps the profile sound, and is a KeyError if and only if the call lacks a counter of a call made from it |
| `ProfileBuild.Profiler.BuildAll` | tools/gen_profile.py:158-169 | the whole construction ends in a finished profile if and only if every call has the counters of the calls made from it |
| `ProfileBuild.BuildProfile` | tools/gen_profile.py:132-169 | from lines to profile: every grand total is the sum over the input lines, and so is, but for the number of calls, the sum over the unfolded calls and folded roots |
| `Stack.WalkBalances` | tools/buildstack.py:8-42 | for every tree and threshold, what is shown plus what is gathered as other is the total, however components collapse |
| `Stack.WalkTakes` | tools/buildstack.py:26-35 | the walk removes exactly the listed keys, each once however often it is listed, and its total is what they were worth |
| `Stack.ShownIsAbove` | tools/buildstack.py:16-41 | with collapsing, nothing is shown that does not exceed the threshold of a component of that name |
| `Stack.UncollapsedIsFlat` | tools/buildstack.py:8-42 | without collapsing, the tree gives what the flat list of its leaves gives |
| `Stack.UncollapsedShowsAll` | tools/buildstack.py:36-41 | without collapsing, every leaf is shown in order and there are no others |
| `Stack.ShownLabels` | tools/buildstack.py:8-42 | no component is shown more often than it is in the tree, and only under its full name |
| `StackLabels.GetNames` | tools/buildstack.py:58-71 | the loop computes the specified names, a selection applying to the topmost items only |
| `StackLabels.ShallowNames` | tools/buildstack.py:58-71 | with groups at the top only, the known names are exactly the full names |
| `StackLabels.ShallowLeavesKnown` | tools/buildstack.py:58-71 | whatever the names, all leaves' full names are known when no leaf is below the second level and the top groups have names |
| `StackLabels.LeavesKnown` | tools/buildstack.py:58-71 | where names have no dashes, all leaves' full names are known if and only if no leaf is below the second level |
| `StackLabels.DashesHideDepth` | tools/buildstack.py:58-71 | with a dash in a name, a tree of three levels whose leaves all have known names: the condition on dashes cannot be dropped |
| `StackLabels.DeepIsUnknown` | tools/buildstack.py:58-71 | a leaf on the third level is shown under a label that is not known |
| `StackMerge.MergeConserves` | tools/buildstack.py:44-55 | the reported components, other included, sum to the core's original values |
| `StackMerge.Merger.TakeKeys` | tools/buildstack.py:27-34 | the value of one leaf, and its keys deleted |
| `StackMerge.Merger.GetItems` | tools/buildstack.py:8-42 | the recursion that deletes keys in place computes the specified walk |
| `StackMerge.Merger.MergeCore` | tools/buildstack.py:45-54 | one core's result, and what is left of its values |
| `StackMerge.Merger.MergeItems` | tools/buildstack.py:44-55 | every core is merged on its own |
| `StackMerge.MergedNames` | tools/cpistack_results.py:11-16 | what a core shows carries different names, all known, when full names differ and groups are at the top |
| `StackMerge.Displayed` | tools/cpistack_results.py:11-40 | then, in every metric, each column of the display sums to that core's values: nothing is lost |
| `StackMerge.CpiResults.constructor` | tools/cpistack_results.py:11-16 | the labels are the known names that some core uses, in order |
| `StackMerge.ConvertSum` | tools/cpistack_results.py:25-31 | each of the three metrics converts sums to sums |
| `StackMerge.CpiResults.GetData` | tools/cpistack_results.py:20-40 | each core's column in the chosen metric, zero where it does not use a label |
| `StackMerge.Tabled` | tools/cpistack_results.py:11-40 | merging, names, labels and table together: every core's column sums to what all its values convert to |
| `SharedPtr.ReleaseGood` | frontend/shared_ptr.h:81-93 | releasing keeps every counter equal to the number of its shared pointers, and destroys an object exactly with the last one |
| `SharedPtr.AdoptGood` | frontend/shared_ptr.h:55-78 | adopting an object not handed over before starts a counter at 1 and keeps the invariant |
| `SharedPtr.ShareGood` | frontend/shared_ptr.h:145-151 | copying keeps the invariant |
| `SharedPtr.SwapGood` | frontend/shared_ptr.h:177-181 | swapping keeps the invariant |
| `SharedPtr.AssignGood` | frontend/shared_ptr.h:153-157 | copy, swap and destruction of the temporary: the target shares what the source points to, also for self-assignment |
| `SharedPtr.StepGood` | frontend/shared_ptr.h:115-181 | every allowed operation keeps the invariant |
| `SharedPtr.RunGood` | frontend/shared_ptr.h:115-181 | over every run; and when no shared pointer is left, every object was destroyed exactly once and no counter remains |
| `SharedPtr.RunFromNothing` | frontend/shared_ptr.h:115-181 | the same from the beginning |
| `SharedPtr.DestroyedByLast` | frontend/shared_ptr.h:81-93 | a step destroys an object if and only if it lets go of its last shared pointer |
| `SharedPtr.AliasExact` | frontend/shared_ptr.h:129-134 | after the aliasing constructor, every way of letting go of shared pointers uses only live counters and destroys each object once, with its last holder, if and only if the constructor got the pointer being shared or, on an empty pointer, null or a new one |
| `SharedPtr.AliasLoses` | frontend/shared_ptr.h:129-134 | given another object: when the others on the counter and the new one have let go in turn, the shared object is held by nobody and was never destroyed, and its counter is gone |
| `SharedPtr.AliasUndercounts` | frontend/shared_ptr.h:129-134 | given null: when the new one and the others let go in turn, the last works on a freed counter |
| `SharedPtr.AliasDestroysTwice` | frontend/shared_ptr.h:129-134 | given, on an empty shared pointer, an object handed over before: when all let go it has been destroyed twice |
| `SharedPtr.FailedAllocation` | frontend/shared_ptr.h:61-71 | a failed counter allocation, in a constructor or on a shared pointer that has let go, keeps the invariant if and only if there was nothing to own; otherwise the shared pointer holds an object that is already destroyed |
| `SharedPtr.FailedReset` | frontend/shared_ptr.h:169-174 | the same in reset(p) of any shared pointer |
| `SharedPtrHeap.Shared.Acquire` | frontend/shared_ptr.h:216-220 | the fields, the shared counter and all other pointers after acquire |
| `SharedPtrHeap.Shared.Release` | frontend/shared_ptr.h:223-227 | the same after release, with what is deleted |
| `SharedPtrHeap.Shared.Default` | frontend/shared_ptr.h:115-119 | an empty shared pointer |
| `SharedPtrHeap.Shared.From` | frontend/shared_ptr.h:121-126 | adopts a pointer |
| `SharedPtrHeap.Shared.Aliased` | frontend/shared_ptr.h:129-134 | shares the counter; the invariant holds afterwards if and only if the use was allowed |
| `SharedPtrHeap.Shared.Copied` | frontend/shared_ptr.h:145-151 | one more shared pointer on the same object, nothing else changes |
| `SharedPtrHeap.Shared.Swap` | frontend/shared_ptr.h:177-181 | exchanges two shared pointers |
| `SharedPtrHeap.Shared.Reset` | frontend/shared_ptr.h:164-167 | lets go |
| `SharedPtrHeap.Shared.ResetTo` | frontend/shared_ptr.h:169-174 | lets go, then adopts another object |
| `SharedPtrHeap.Shared.Destroy` | frontend/shared_ptr.h:159-162 | lets go and is gone |
| `SharedPtrHeap.Shared.Assign` | frontend/shared_ptr.h:153-157 | equals its argument afterwards; the invariant is kept |
| `SharedPtrHeap.Shared.UseCount` | frontend/shared_ptr.h:192-195 | the number of live shared pointers on the same object |
| `Bbv.StatesAreDrand48` | frontend/bbv_count.cc:6-20 | the 64-bit inlined generator is drand48, seeded with the low 32 bits of the seed, from its first number on |
| `Bbv.ProjectedOrder` | frontend/bbv_count.cc:28-50 | the order in which blocks are counted does not matter |
| `Bbv.Batching` | frontend/bbv_count.cc:28-50 | counting a block in two parts is counting it at once, modulo 2^64 |
| `Bbv.ProjectedBound` | frontend/bbv_count.cc:28-50 | a dimension is at most 65535 times the instruction count |
| `Bbv.Counter.constructor` | frontend/bbv_count.cc:22-26 | nothing counted |
| `Bbv.Counter.Draw` | frontend/bbv_count.cc:12-16 | one of the four parallel paths: next state, and its weight added to one dimension |
| `Bbv.Counter.Count` | frontend/bbv_count.cc:28-50 | the unrolled loop adds the block to the projection onto every dimension, modulo 2^64 |
| `Bbv.Counter.Clear` | frontend/bbv_count.cc:52-57 | forgets everything |
| `Bbv.Counter.GetDimension` | frontend/bbv_count.h:23-26 | the projection modulo 2^64; exact and bounded while it cannot have wrapped |
| `BottleGraph.ContribSum` | scripts/bottlegraph.py:22-26 | the contributions of all threads sum to the time in which at least one ran |
| `BottleGraph.Bounds` | scripts/bottlegraph.py:22-26 | contribution <= run time <= total, and run time <= number of threads times contribution |
| `BottleGraph.RanContributes` | scripts/bottlegraph.py:22-26 | a thread contributes something if and only if it ran |
| `BottleGraph.Boxes` | scripts/bottlegraph.py:55-57 | the divisor is not zero, the parallelism lies between one and the number of threads, and no box is higher than the graph |
| `BottleGraph.RunTotal` | scripts/bottlegraph.py:15-52 | over every orderly run of events the accounted time, and what is pending, is the time spent between the begins and ends of the region |
| `BottleGraph.RunThread` | scripts/bottlegraph.py:15-52 | and for each thread the time it spent running there |
| `BottleGraph.RunBusy` | scripts/bottlegraph.py:15-52 | and for the time in which at least one thread ran |
| `BottleGraph.ContribConserved` | scripts/bottlegraph.py:15-57 | over every orderly run, once the region has ended the contributions sum to the time in the region with at least one thread running |
| `BottleGraph.EndedTimes` | scripts/bottlegraph.py:33-35 | once the region has ended nothing is pending: total and run times are exact |
| `BottleGraph.RunAccounts` | scripts/bottlegraph.py:15-52 | for every run of events in order of time, regions that begin again while open included: what is accounted, pending or dropped makes up the time in the region |
| `BottleGraph.EndedExact` | scripts/bottlegraph.py:29-35 | once the region has ended the total is exact if and only if no begin dropped time |
| `BottleGraph.BottleGraphs.Update` | scripts/bottlegraph.py:15-27 | adds the time since the last event to the history, and keeps the tables equal to what the history says |
| `BottleGraph.BottleGraphs.HookRoiBegin` | scripts/bottlegraph.py:29-31 | the clock starts |
| `BottleGraph.BottleGraphs.HookRoiEnd` | scripts/bottlegraph.py:33-35 | time up to now is accounted, then none |
| `BottleGraph.BottleGraphs.HookThreadStart` | scripts/bottlegraph.py:37-39 | time so far goes to the threads that ran before, then the thread runs |
| `BottleGraph.BottleGraphs.HookThreadExit` | scripts/bottlegraph.py:41-43 | time so far includes the thread, then it no longer runs |
| `BottleGraph.BottleGraphs.HookThreadStall` | scripts/bottlegraph.py:45-48 | the same, unless the thread was merely scheduled out |
| `BottleGraph.BottleGraphs.HookThreadResume` | scripts/bottlegraph.py:50-52 | the same as a start |
| `BottleGraph.BottleGraphs.HookSimEnd` | scripts/bottlegraph.py:54-57 | width and height of every thread's box, the height of the graph, and that contributions sum to the busy time |
| `Roi.RunInit` | scripts/roi-icount.py:76-95 | any run of callbacks does exactly this: warm up, begin and end at the first callbacks past the three bounds |
| `Roi.RunPreRoi` | scripts/roi-icount.py:70-80 | before the application's own region nothing happens; then its instruction count is the offset |
| `Roi.InOrder` | scripts/roi-icount.py:76-95 | warmup, begin and end happen at most once each and in that order; what ended had begun |
| `Roi.RunMeasured` | scripts/roi-icount.py:66-95 | for every run of callbacks at most P apart: the actions are in order, the region begins at most P late, and its length is within P of the requested one |
| `Roi.RunMeasuredFromRoi` | scripts/roi-icount.py:70-95 | the same when counted from the application's own region |
| `Roi.RunMeasuredExact` | scripts/roi-icount.py:66-95 | every run that starts with the callback at 0 is well measured if and only if the first two lengths together are negative by at most one callback interval |
| `Roi.RunMeasuredFromRoiExact` | scripts/roi-icount.py:70-95 | every run counted from the application's own region is well measured if and only if the first two lengths together are not negative |
| `Roi.RoiIcount.HookSimStart` | scripts/roi-icount.py:66-68 | a callback at 0 |
| `Roi.RoiIcount.HookApplicationRoiBegin` | scripts/roi-icount.py:70-74 | fixes the offset once |
| `Roi.RoiIcount.PeriodicIns` | scripts/roi-icount.py:76-95 | the chain of tests equals one step, phase by phase |

## Left out

- Files, named pipes, compression and the header of a trace: both directions are byte sequences.
- `/proc/self/pagemap`: each call takes the mapped pages of its moment as a parameter; only that a mapped page number is not 0 is used.
- Shutdown through `frontEndStop`, `End` as a step of the protocol machine, and the writer's state after its output is closed.
- Read after the end of a trace and on a truncated one: named results, nothing proved about what follows.
- ChampSim traces, the instruction decoder libraries, the Pin, DynamoRIO and standalone front-ends, configuration parsing, plotting, SQLite and job tools.
- Statistics and debugging output of reader and writer, the writer's instruction and size counters.
- System call numbers other than x86-64's for `futex` and `write`.
- SiftWriter.Writer.ShipPages: asks that the last page is not the last one of the address space, where the loop does not stop; `SiftLaws.PageLoopStops` states that this is exact.
- SiftWriter.Writer.ShipImage: asks the same in page mode.
- SiftWriter.Writer.Instruction: asks the same in page mode.
- SiftWriter.Writer.Request: system call data must hold the arguments that `futex` and `write` look at, since the source reads them unchecked.
- SiftTrace.RoundTrip: the instructions it is about have a size, a flag that travels and, in page mode, end below the last page; `SiftLaws.PageLoopStops` and `SiftLaws.CallExact` state that these conditions are exact. The code and the size at an address do not change during a trace.
- SiftLaws.InstructionExact: stated for an instruction whose code has arrived; `SiftLaws.CodeArrives` says when it has, and `SiftLaws.CallExact` joins the two.
- SiftReader.Reader.Serve: the handler of a request is a function of what was received and makes no memory access of its own; such accesses are steps of the machine in `SiftProtocol`.
- SiftReader.Reader.Read: the same.
- JsonLaws.RoundTrip: no floats, and dictionaries as lists of members with different keys; text that follows must not continue a number.
- JsonIO.JsonReader.ReadNumber: a number with a point or an exponent is a result of its own, without its value.
- JsonIO.JsonReader.ReadValue: the same for a text that holds such a number.
- The stream generator of the JSON reader. It also differs at the end, where its peek gives an empty string and not None: the test for blanks takes that for a blank, and skipping blanks at the end of a stream raises StopIteration.
- SchedulerLaws.RunKeeps: a resume follows a real stall, and the metric is read as one value per thread and hook; that resumes take issued cores is the exact condition of `SchedulerLaws.ResumeExact`.
- Thread affinity calls, the times of scheduling and the option parsing of the scheduler.
- The names and addresses of functions in a profile: a stack is a list of link-time addresses, and which calls fold is a parameter.
- Categories, printing and the callgrind output of the profile.
- StackLabels.LeavesKnown: the half from known names to levels is stated for names without a dash of their own, since a dash in a name can make a full name coincide with another (`StackLabels.DashesHideDepth`); the other half is `StackLabels.ShallowLeavesKnown`, for all names.
- The errors of the stack table for an unknown metric and for an interval without cycles.
- Colours and groups of components.
- SharedPtr.StepGood: a raw pointer is handed over once, and a counter can be allocated; `SharedPtr.FailedAllocation` and `SharedPtr.FailedReset` treat the other case.
- Comparison operators and pointer casts of shared pointers; a cast is the aliasing constructor on the same object.
- BottleGraph.RunTotal: a region begins only when none is open; `BottleGraph.RunAccounts` and `BottleGraph.EndedExact` treat the other case. Events come in order of time, as simulated time does.
- BottleGraph.BottleGraphs.HookSimEnd: the sorting and the plot itself, and the error for a run without threads.
- Roi.RunMeasured: the first two lengths together are not negative; `Roi.RunMeasuredExact` gives the exact bound. The third is at least 1, as the script demands.
- Roi.RunMeasuredFromRoi: the same, with `Roi.RunMeasuredFromRoiExact`.
- Floating-point rounding everywhere.
