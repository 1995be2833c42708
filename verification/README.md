# Verified models of the C++ lab's stateful components

The repository is a C++ teaching lab. Most of its files show a library feature; a few small
components have real state, loops or protocols. This project models those in Dafny, one module per
component, and proves what they are for. `dafny verify dfyconfig.toml` checks everything.

Components that change state in place are classes and methods proved against a specification on
values, and the properties are then proved about that specification. Threads, sockets and any other
environment are step systems: every schedule and every answer of the kernel is considered.

| module | what it models | main results |
|---|---|---|
| `Pid`, `PidSim` | the PID controller and its feedback loop, over exact reals | the stateful controller is the textbook law on the whole error history; with the program's gains the clamp never engages exactly when the first error is at most 400; then the error is at most 2.2·abs(e0)·0.97ⁿ at iteration n of every run |
| `Handshake` | two threads, one mutex, one condition variable used both ways | mutual exclusion, no deadlock, no lost wakeup, at most 28 + 3k steps with k spurious wakeups, exactly one log line |
| `RaceCounter` | the shared counter: racy, with a mutex, atomic | the racy program's possible final values are exactly min(n, 2) to 2n; the mutex version refines the atomic one |
| `Forest`, `FileGraph`, `FileTree`, `FileRuns` | the composite file tree with parent pointers and a recursive destructor | exactly which runs of add, remove and delete keep a forest; sizes; over a whole run in place every node is live or was freed once |
| `PlainFolder` | the folder without a common interface | exactly when the recursive listing repeats a file, in terms of the folders' own lists |
| `EchoSession`, `MultiEcho` | TCP echo sessions against an adversarial kernel, alone and interleaved | what is sent is the welcome and the received bytes, in order; exactly which answers end a session; each descriptor closed once, before its thread ends, and never somebody else's |
| `Turtle`, `FourRuns`, `Painting` | the recording turtle and the square painter | from every quarter heading and for turns to either side, exactly when four runs of a program close; exactly which squares close |
| `RuleOfFive` | the owner of a C string with all five special members | objects refine independent strings; live buffers and owners are one to one |
| `AccountFile` | the length-prefixed account records | reading and writing undo each other; files are unambiguous; the search loop |
| `Decimal`, `Flyweight` | decimal printing and the image pool | exactly which requests share an image |
| `Startup` | the reset handler | exactly which memory layouts leave .data and .bss right |
| `Memento` | the undo stack | undo restores state and stack; each snapshot freed once |
| `DeviceState` | devices that share one static counter | period five; errors and successes over any fleet and schedule; one live state each |
| `UsbRead` | the chunked ring-buffer reader | any split of a read is the one read |
| `Common` | options, bytes and facts on sequences that the others share | |

Where the code says less, or something else, than its comments, the model follows the code:

- `src/dp/structural/Flyweight.cpp:238-240` says that an existing flyweight is returned if it matches
  the request. The key only has the file name and the product of the sizes, printed one behind the
  other, so others match too. `Flyweight.KeysCollide` says exactly which, and
  `Flyweight.PlainNamesDoNotCollide` for which file names none do.
- `tests/mock/FakeTurtle.h:40` keeps a negative heading negative, as C++ remainders do, and the
  turtle does not move on one. `FourRuns.FourRunsClose` says exactly when four runs close all the
  same, `Painting.SquareCloses` and `Painting.LeftSquareCloses` what squares do.
- `tests/dummy/UsbHostSerial_read.cpp:24` speaks of fixed 5-byte chunks; the last one of a read, or of
  the data, can be shorter.

## Model

| member | source | states |
|---|---|---|
| Pid.PIDImpl.Calculate | src/controller/pid/pid.cpp:79-109 | the running integral and saved error always give the proportional, integral and derivative law of the whole history of errors, cut at the limit it passes |
| Pid.PIDImpl.constructor | src/controller/pid/pid.cpp:67-77 | a new controller stands for the empty history |
| PidSim.Simulate | src/controller/pid/PIDSim.cpp:11-16 | the loop's value is the setpoint minus the last error of the closed-loop run, and each printed line shows the setpoint, the value before that iteration and what it adds |
| PidSim.EnergyShrinks | src/controller/pid/PIDSim.cpp:8-15 | one iteration with the program's gains multiplies a quadratic form of error, previous error and integral by at most 0.94 |
| PidSim.EnergyDominatesError | src/controller/pid/PIDSim.cpp:8-15 | that form bounds the squared error, so it is positive |
| PidSim.EnergyDominatesOutput | src/controller/pid/PIDSim.cpp:8-15 | that form bounds the squared demand |
| PidSim.DemandPeaksFirst | src/controller/pid/PIDSim.cpp:8-15 | no later demand exceeds the first one, a quarter of the first error |
| PidSim.FollowsLinear | src/controller/pid/PIDSim.cpp:8-15 | from a first error of at most 400 the clamped loop is the linear recurrence, at every iteration of an unbounded run |
| PidSim.ClampNeverEngages | src/controller/pid/pid.cpp:99-103 | over all runs the law stays within the limits exactly when the first error is at most 400 |
| PidSim.LinearConverges | src/controller/pid/PIDSim.cpp:8-15 | the linear recurrence converges geometrically from any first error |
| PidSim.Converges | src/controller/pid/PIDSim.cpp:7-17 | every iteration n of every run from a first error of at most 400 has an error of at most 2.2 times that, times 0.97 to the n |
| PidSim.ErrorVanishes | src/controller/pid/PIDSim.cpp:7-17 | for every tolerance there is an iteration from which all runs stay within it |
| PidSim.Run | src/controller/pid/PIDSim.cpp:7-17 | the program's 200 iterations from 20 towards 100 end within 0.5 of the setpoint |
| Handshake.InvHolds | src/core/concurrency/ConditionVariable.cpp:14-62 | who holds the mutex, the flags, the data and the log fit both threads' positions in every run from the initial flags |
| Handshake.Safe | src/core/concurrency/ConditionVariable.cpp:18-58 | shared variables are touched under the mutex or while the other thread does not run; at most one thread waits; only the processed message is logged |
| Handshake.Progress | src/core/concurrency/ConditionVariable.cpp:26-58 | an unfinished run can always go on without a spurious wakeup: no deadlock and no lost wakeup |
| Handshake.RankStep | src/core/concurrency/ConditionVariable.cpp:18-62 | every step lowers a rank, and a spurious wakeup raises it by two |
| Handshake.RunBound | src/core/concurrency/ConditionVariable.cpp:18-62 | a run with k spurious wakeups has at most 28 + 3k steps |
| Handshake.EveryRunCompletes | src/core/concurrency/ConditionVariable.cpp:37-61 | a run is stuck without spurious wakeups exactly when it is finished, and then exactly the processed message was logged |
| Handshake.WhatIsLogged | src/core/concurrency/ConditionVariable.cpp:30-57 | the text of the processed message |
| Handshake.Execute | src/core/concurrency/ConditionVariable.cpp:37-61 | under any scheduler the program ends and logs the processed message |
| RaceCounter.InvExec | src/core/concurrency/RaceCondition.cpp:29-36 | counter and loaded values stay between what one thread alone and both together have stored, under any schedule |
| RaceCounter.Bounds | src/core/concurrency/RaceCondition.cpp:29-36 | every complete schedule ends between min(n, 2) and 2n |
| RaceCounter.RunLosingUpTo | src/core/concurrency/RaceCondition.cpp:29-36 | explicit schedules that lose any number of increments up to n |
| RaceCounter.RunKeepingOnly | src/core/concurrency/RaceCondition.cpp:29-36 | explicit schedules that keep any number of increments from 2 up to n |
| RaceCounter.FinalValues | src/core/concurrency/RaceCondition.cpp:8-36 | a value can be final exactly when it is between min(n, 2) and 2n, for every n |
| RaceCounter.RunProblem | src/core/concurrency/RaceCondition.cpp:8-36 | the threads updating the shared variable in place do what the step system does |
| RaceCounter.MutexCounts | src/core/concurrency/RaceCondition.cpp:46-61 | with the mutex a complete schedule ends at 2n and an incomplete one can go on |
| RaceCounter.MutexInvStep | src/core/concurrency/RaceCondition.cpp:46-61 | one holder at a time, and the counter is the number of stores |
| RaceCounter.AtomicCounts | src/core/concurrency/RaceCondition.cpp:68-78 | the atomic counter ends at 2n under every complete schedule |
| RaceCounter.MutexRefinesAtomic | src/core/concurrency/RaceCondition.cpp:46-78 | every run with the mutex is a run of atomic increments, one for each store |
| Forest.NoCycle | src/dp/structural/Composite.cpp:212-225 | where climbing parent pointers ends, nothing is its own proper ancestor |
| Forest.AttachBelow | src/dp/structural/Composite.cpp:307-312 | setting a root's parent gives exactly its subtree exactly the ancestors of the new parent |
| Forest.AttachCycle | src/dp/structural/Composite.cpp:307-312 | adding a node below itself makes a cycle |
| Forest.AttachSubtree | src/dp/structural/Composite.cpp:307-312 | the subtrees of the new parent and its ancestors grow by the added subtree, no other does |
| Forest.SiblingsDisjoint | src/dp/structural/Composite.cpp:260-305 | two children of a folder have disjoint subtrees without the folder |
| FileGraph.AddKeepsForest | src/dp/structural/Composite.cpp:307-312 | add keeps children lists, parents and acyclicity exactly when the node has no parent and is not the folder or above it |
| FileGraph.RemoveKeepsForest | src/dp/structural/Composite.cpp:314-319 | remove keeps them exactly when the node is the folder's child or has no parent |
| FileGraph.AddThenRemove | src/dp/structural/Composite.cpp:307-319 | remove undoes add: all lists and parents are restored |
| FileGraph.AddedLast | src/dp/structural/Composite.cpp:307-312 | an added node comes last in its folder's list; other places, lists and parents stay |
| FileGraph.AddChangesSizes | src/dp/structural/Composite.cpp:307-336 | add grows the folder and its ancestors by the node and all its descendants, and nothing else |
| FileGraph.RemoveChangesSizes | src/dp/structural/Composite.cpp:314-336 | remove shrinks exactly those by as much |
| FileGraph.DropKeepsForest | src/dp/structural/Composite.cpp:298-305 | deleting a node with its subtree leaves a forest exactly when it has no parent |
| FileRuns.OpKeepsForest | src/dp/structural/Composite.cpp:298-319 | an add, remove or delete keeps the forest exactly when it meets its condition; on a file, add and remove always do |
| FileRuns.RunKeepsForest | src/dp/structural/Composite.cpp:298-319 | a run of adds, removes and deletes from a forest goes through forests only, exactly when each operation meets its condition |
| FileGraph.PostOrderLists | src/dp/structural/Composite.cpp:298-305 | the recursion over children lists meets every node that climbs to the start, each once |
| FileGraph.OrderFollowsLists | src/dp/structural/Composite.cpp:298-305 | what is below an earlier child comes before what is below a later one, and the start comes last |
| FileTree.FileSystem.Add | src/dp/structural/Composite.cpp:307-312 | the in-place add is the graph's add, and nothing on a file |
| FileTree.FileSystem.Remove | src/dp/structural/Composite.cpp:314-319 | the in-place remove is the graph's remove, and nothing on a file |
| FileTree.FileSystem.Size | src/dp/structural/Composite.cpp:325-336 | a folder's size is the number of its strict descendants; a file's is 1 |
| FileTree.FileSystem.GetChildrensRecursive | src/dp/structural/Composite.cpp:283-293 | appends the files of the depth-first order, without the folders |
| FileTree.FilesListed | src/dp/structural/Composite.cpp:283-293 | those are exactly the files that climb to the folder, each once |
| FileTree.FilesFollowLists | src/dp/structural/Composite.cpp:283-293 | and they are listed in the order of the children lists |
| FileTree.FileSystem.Destroy | src/dp/structural/Composite.cpp:298-305 | frees exactly the subtree, children first, each node once, and uses only nodes not yet freed |
| FileTree.FileSystem.DestroyChildren | src/dp/structural/Composite.cpp:300-304 | the destructor's loop frees what is strictly below, and the folder is still there |
| FileTree.Heap.Free | src/dp/structural/Composite.cpp:303 | only a live node is freed, and every node stays live or freed, in one place, once |
| FileRuns.Perform | src/dp/structural/Composite.cpp:298-319 | an operation in place: what is live afterwards is the graph after the operation |
| FileRuns.PerformAll | src/dp/structural/Composite.cpp:298-319 | a whole legal run in place: the live nodes are the forest that the operations say, and exactly the others were freed, each once |
| PlainFolder.Folder.Size | src/dp/structural/Composite.cpp:112-125 | equals the length of the recursive listing |
| PlainFolder.Folder.GetFilesRecursive | src/dp/structural/Composite.cpp:131-136 | appends the folder's files and those of each sub-folder in turn |
| PlainFolder.Folder.AddFolder | src/dp/structural/Composite.cpp:102 | the folder becomes the last sub-folder, and this one stays well formed exactly when it is not itself inside it |
| PlainFolder.ListingIsFlat | src/dp/structural/Composite.cpp:131-136 | the listing is the own lists of the folders the recursion visits, one behind the other |
| PlainFolder.VisitsAreClosed | src/dp/structural/Composite.cpp:131-136 | the folders visited are the folder, first, and exactly the sub-folders of visited ones |
| PlainFolder.ListsInOrder | src/dp/structural/Composite.cpp:131-136 | own files come first and an earlier sub-folder's listing before a later one's |
| PlainFolder.ListedOnce | src/dp/structural/Composite.cpp:131-136 | the listing has each file once exactly when, over all visits, no folder's own list repeats a file and no two have one in common |
| PlainFolder.AddTwice | src/dp/structural/Composite.cpp:100 | a file added twice is listed twice |
| PlainFolder.AddFolderTwice | src/dp/structural/Composite.cpp:102 | a folder added twice has all its files listed twice |
| Turtle.FakeTurtle.Forward | tests/mock/FakeTurtle.h:15-38 | moves along an axis heading only, recording both ends when the pen is down |
| Turtle.FakeTurtle.Turn | tests/mock/FakeTurtle.h:40 | adds to the heading and takes the C++ remainder by 360 |
| FourRuns.MadeAndLost | tests/mock/FakeTurtle.h:15-40 | from every quarter heading and for quarter turns to either side, the moves made and the moves lost on negative headings add up to the rotated displacement |
| FourRuns.ProgramMoves | tests/mock/FakeTurtle.h:15-40 | so a program leads to the rotated displacement from its start, but for the lost moves |
| FourRuns.TurnsByNet | tests/mock/FakeTurtle.h:40 | from any heading and for any turns, the heading after a program is the net turn further, up to full turns |
| FourRuns.FourRunsClose | tests/mock/FakeTurtle.h:15-40 | four runs restore the heading up to full turns, and the position exactly when the lost moves cancel, or, if one run does not turn, make up for its four displacements |
| FourRuns.RightTurnsClose | tests/mock/FakeTurtle.h:15-40 | without left turns and from an axis heading they restore the heading itself, and the position exactly when one run turns or already closes |
| Turtle.RecordsJoinedPath | tests/mock/FakeTurtle.h:15-38 | with the pen down the path grows by two points a move, each move starting where the last one ended |
| Turtle.PenUpLeavesPath | tests/mock/FakeTurtle.h:11-45 | with the pen up no program changes the path |
| Turtle.GoToJumps | tests/mock/FakeTurtle.h:42-45 | a jump leads to its target and changes neither heading, pen nor path |
| Painting.Painter.DrawSquare | tests/mock/Painter.h:8-15 | the loop drives the turtle through pen down, four sides and pen up |
| Painting.SidesPose | tests/mock/Painter.h:10-13 | where any number of sides lead, with any turn from any heading |
| Painting.SquareCloses | tests/mock/Painter.h:8-15 | from every possible heading: the square closes unless the heading is a negative quarter turn, the heading returns exactly when it was not negative, and eight joined points are recorded |
| Painting.SquareDrawn | tests/mock/Painter.h:8-15 | the eight points recorded from each axis heading: sides of the given size, the first one ahead and the others to the right |
| Painting.LeftSquareCloses | tests/mock/FakeTurtle.h:15-40 | from every possible heading, where a square to the left ends: it closes exactly when it is a point, the heading is west or the turtle never moves |
| EchoSession.InvStep | src/socket/simple_tcp/TCPServer.cpp:93-145 | every answer of the kernel keeps: sent and unsent bytes together are the welcome and what was received |
| EchoSession.ReceivesWhatIsDelivered | src/socket/simple_tcp/TCPServer.cpp:116-132 | what a session takes for received is, answer by answer, what the kernel delivered to it, cut at the room of a recv |
| EchoSession.EchoIsFaithful | src/socket/simple_tcp/TCPServer.cpp:104-145 | for every chunking and every short send, what was sent is a prefix of the welcome and the bytes delivered, and all of it on normal exit; after a quit line nothing is received |
| EchoSession.OneChunkEchoed | src/socket/simple_tcp/TCPServer.cpp:112-132 | a client that sends one piece of text gets the welcome and that text |
| EchoSession.WhyItEnds | src/socket/simple_tcp/TCPServer.cpp:93-145 | over whole lists of answers: a session ends normally exactly when some answer is the end of the stream or completes the echo of the first quit line delivered, and with an error exactly when some call fails |
| EchoSession.StopIsFinal | src/socket/simple_tcp/TCPServer.cpp:93-145 | after that answer the session stays as it is, whatever the kernel would answer |
| EchoSession.QuitMeans | src/socket/simple_tcp/TCPServer.cpp:134-137 | a quit line is Q followed by carriage returns and line feeds only |
| EchoSession.SendAll | src/socket/simple_tcp/TCPServer.cpp:93-102 | sends everything however short the sends are, or throws at the first failed one, with what was sent on the wire |
| EchoSession.EchoChunk | src/socket/simple_tcp/TCPServer.cpp:114-141 | one turn of the session loop follows the step system |
| EchoSession.HandleClient | src/socket/simple_tcp/TCPServer.cpp:104-145 | closes the descriptor exactly on normal exit; on the wire is a prefix of the welcome and the bytes delivered, and all of it on normal exit |
| EchoSession.AcceptLoop | src/socket/simple_tcp/TCPServer.cpp:67-91 | every accepted descriptor that was served was echoed faithfully and is closed exactly once, also after an error |
| MultiEcho.InvStep | src/socket/multiple_client/MultiTCPServer.cpp:10-44 | every step of any thread keeps: open descriptors are exactly those of threads that have not closed theirs, which all differ, and closes fit where each thread is |
| MultiEcho.InterleavedSessionsAreFaithful | src/socket/multiple_client/MultiTCPServer.cpp:29-36 | in every interleaving each client is sent the welcome and what was delivered on its own connection, in order |
| MultiEcho.ClosedExactlyOnce | src/socket/multiple_client/MultiTCPServer.cpp:29-43 | a thread closes once, by the handler exactly after a normal end and by the catch block exactly after an error, and before it exits; of two threads with one descriptor one has closed it; after the joins all have closed |
| MultiEcho.ClosesItsOwn | src/socket/multiple_client/MultiTCPServer.cpp:30-35 | a close, at either place, hits an open descriptor that no other thread still holds |
| MultiEcho.ReusedBeforeExit | src/socket/multiple_client/MultiTCPServer.cpp:11-36 | a run in which a descriptor is handed out again after its close and before the first thread's end |
| MultiEcho.StuckOnlyWhenDone | src/socket/multiple_client/MultiTCPServer.cpp:10-44 | after any run only stop() is left to happen exactly when the accept loop has returned: no thread outlives the joins, and no earlier state is stuck |
| MultiEcho.RunsUntilStop | src/socket/multiple_client/MultiTCPServer.cpp:11-24 | a server runs exactly until stop(), and gets to its joins only then |
| MultiEcho.StopIsFollowed | src/socket/multiple_client/MultiTCPServer.cpp:11-29 | after stop() at most one more client is accepted, the one the loop already waits for |
| MultiEcho.StoppedLoopEnds | src/socket/multiple_client/MultiTCPServer.cpp:10-44 | after stop() the accept loop ends within a step for each thread and five more |
| MultiEcho.RunClient | src/socket/multiple_client/MultiTCPServer.cpp:29-36 | a thread runs the session's code and closes its descriptor exactly once, also after an error |
| MultiEcho.StartAll | src/socket/multiple_client/MultiTCPServer.cpp:11-37 | a client gets a thread exactly when the server was found running after every turn before its own, and threads stand in the order of their turns |
| MultiEcho.JoinAll | src/socket/multiple_client/MultiTCPServer.cpp:39-43 | the threads joined have ended, echoed faithfully and closed once; the loop only waits for a thread the kernel does not answer |
| MultiEcho.AcceptLoop | src/socket/multiple_client/MultiTCPServer.cpp:10-44 | both loops together: who gets a thread, and what each has done at its join |
| RuleOfFive.Model.constructor | src/core/class/RoleOfThreeFiveZero.cpp:146-151 | allocates exactly the string and its terminator, or nothing for a null pointer |
| RuleOfFive.Model.Move | src/core/class/RoleOfThreeFiveZero.cpp:173-174 | takes the pointer and leaves null |
| RuleOfFive.Model.CopyAssign | src/core/class/RoleOfThreeFiveZero.cpp:164-168 | owns a new copy, and the old buffer is freed, also on self-assignment |
| RuleOfFive.Model.MoveAssign | src/core/class/RoleOfThreeFiveZero.cpp:177-180 | swaps the pointers |
| RuleOfFive.Model.Destroy | src/core/class/RoleOfThreeFiveZero.cpp:154-158 | frees the buffer it owns, which must be live |
| RuleOfFive.Model.SetFirstChar | src/core/class/RoleOfThreeFiveZero.cpp:188-191 | overwrites the first character of the owned buffer |
| RuleOfFive.FirstCharKeepsString | src/core/class/RoleOfThreeFiveZero.cpp:188-191 | the write leaves a terminated string exactly when it writes the terminator or there is one further on |
| RuleOfFive.Store.Do | src/core/class/RoleOfThreeFiveZero.cpp:141-192 | each operation on the objects acts as on independent strings, and live buffers and owners stay one to one |
| RuleOfFive.Store.Execute | src/core/class/RoleOfThreeFiveZero.cpp:141-192 | so does any program; nothing is freed twice, and nothing stays allocated when all objects are gone |
| RuleOfFive.ConstructReads | src/core/class/RoleOfThreeFiveZero.cpp:146-151 | a new object reads as the text it was made from, without a byte to spare, and no other object changes |
| RuleOfFive.CopyConstructReads | src/core/class/RoleOfThreeFiveZero.cpp:161 | a copy reads as its original, which keeps its buffer |
| RuleOfFive.CopyAssignReads | src/core/class/RoleOfThreeFiveZero.cpp:164-168 | the target of a copy assignment reads as the source, which keeps its text |
| RuleOfFive.MoveConstructTakes | src/core/class/RoleOfThreeFiveZero.cpp:173-174 | a move construction takes the buffer's contents and leaves null |
| RuleOfFive.MoveAssignExchanges | src/core/class/RoleOfThreeFiveZero.cpp:177-180 | a move assignment exchanges the two objects' contents |
| RuleOfFive.SetFirstCharWrites | src/core/class/RoleOfThreeFiveZero.cpp:188-191 | the first character of that object changes and nothing else; a reader sees it in front of the old rest |
| RuleOfFive.DestroyRemoves | src/core/class/RoleOfThreeFiveZero.cpp:154-158 | the object is gone and no other changes |
| RuleOfFive.OthersKeepTheirString | src/core/class/RoleOfThreeFiveZero.cpp:161-191 | an object that no operation names as a target keeps its string through any program |
| RuleOfFive.CopyReadsTheSame | src/core/class/RoleOfThreeFiveZero.cpp:146-161 | a copy reads the same and has no room to spare |
| RuleOfFive.SelfAssignment | src/core/class/RoleOfThreeFiveZero.cpp:164-180 | assigning an object to itself, by copy or move, changes nothing a reader sees |
| AccountFile.FromToBytes | src/core/filehandle/BinaryFileHandling.cpp:28-33 | the bytes of a number that fits give it back |
| AccountFile.FourBytes | src/core/filehandle/BinaryFileHandling.cpp:29 | the lowest byte of a number comes first |
| AccountFile.Layout | src/core/filehandle/BinaryFileHandling.cpp:28-37 | which bytes of a record hold its code, balance, name length and name |
| AccountFile.DecodeEncode | src/core/filehandle/BinaryFileHandling.cpp:28-50 | reading undoes writing, whatever follows |
| AccountFile.EncodeDecode | src/core/filehandle/BinaryFileHandling.cpp:28-50 | writing undoes reading, byte for byte |
| AccountFile.PrefixFree | src/core/filehandle/BinaryFileHandling.cpp:28-37 | no record's bytes start another record's |
| AccountFile.FilesAreUnambiguous | src/core/filehandle/BinaryFileHandling.cpp:73-76 | two lists of records with the same file are the same |
| AccountFile.Account.Write | src/core/filehandle/BinaryFileHandling.cpp:28-37 | appends the record's bytes |
| AccountFile.Account.Read | src/core/filehandle/BinaryFileHandling.cpp:39-50 | takes the decoded record and moves past exactly its bytes |
| AccountFile.WriteAll | src/core/filehandle/BinaryFileHandling.cpp:73-76 | the file is the concatenation of the records in order |
| AccountFile.Find | src/core/filehandle/BinaryFileHandling.cpp:88-98 | the search ends right behind the first record with code 2, or at the end exactly if there is none |
| Decimal.PrintInjective | src/dp/structural/Flyweight.cpp:247-249 | different integers print differently |
| Decimal.PrintedValue | src/dp/structural/Flyweight.cpp:248 | reading the printed digits back, most significant first, gives the number, without a leading zero |
| Flyweight.ImageFlyweightFactory.GetImageFlyweight | src/dp/structural/Flyweight.cpp:252-265 | returns the pool's entry for the key, or else the requested attributes, which become the entry; no other entry changes |
| Flyweight.FirstWithIsFirst | src/dp/structural/Flyweight.cpp:252-265 | those attributes are those of the earliest request with the key |
| Flyweight.RequestAll | src/dp/structural/Flyweight.cpp:252-265 | in any run each request gets the attributes of the earliest request with its key |
| Flyweight.KeyOfImage | src/dp/structural/Flyweight.cpp:247-254 | the key of an 8 by 8 image at 96 dpi, for any file name |
| Flyweight.SameFileShares | src/dp/structural/Flyweight.cpp:247-249 | two requests for one file share exactly when width times height times dpi is equal |
| Flyweight.KeysCollide | src/dp/structural/Flyweight.cpp:247-249 | any two requests share exactly when one file name is the other and leading digits of the other's product |
| Flyweight.PlainNamesDoNotCollide | src/dp/structural/Flyweight.cpp:247-249 | with file names that do not end in a digit or a minus sign, two requests share exactly when name and product are equal |
| Flyweight.SharingIsTooWide | src/dp/structural/Flyweight.cpp:247-265 | concrete requests that share although file or shape differ |
| Startup.CopyData | src/embedded/startup.c:54-59 | copies whole words up to the end of .data, and nothing else changes |
| Startup.ClearBss | src/embedded/startup.c:61-66 | clears whole words up to the end of .bss, and nothing else changes |
| Startup.ResetHandler | src/embedded/startup.c:52-66 | the memory that main finds, at every address |
| Startup.ReadyForMain | src/embedded/stm32_flash.ld:51-66 | with .bss behind .data, every .data byte is its flash image, every .bss byte is zero, and at most 3 bytes behind a section are touched |
| Startup.LayoutsThatWork | src/embedded/startup.c:52-66 | a layout works for every flash content exactly when clearing misses .data |
| Memento.UndoRestores | src/dp/behavioral/Memento.cpp:100-149 | backup, any balanced work, undo: state and stack are as before |
| Memento.UndoingGoesBack | src/dp/behavioral/Memento.cpp:141-149 | undoing n times goes back n backups or to the oldest one, and on an empty stack changes nothing |
| Memento.ChangeHolds | src/dp/behavioral/Memento.cpp:100-104 | a change is the state then, and concerns no snapshot |
| Memento.StackBelowKept | src/dp/behavioral/Memento.cpp:136-149 | work that never undoes more than it backed up leaves the older snapshots alone |
| Memento.AccountedRun | src/dp/behavioral/Memento.cpp:107-149 | in every run each snapshot made is on the stack or freed, in one place, once |
| Memento.Originator.Restore | src/dp/behavioral/Memento.cpp:110-115 | takes the state back and frees the snapshot, which was not freed before |
| Memento.CareTaker.Backup | src/dp/behavioral/Memento.cpp:136-139 | pushes a snapshot of the current state |
| Memento.CareTaker.Undo | src/dp/behavioral/Memento.cpp:141-149 | pops, restores and frees the newest snapshot, or does nothing on an empty stack |
| Memento.CareTaker.Destroy | src/dp/behavioral/Memento.cpp:130-134 | frees what is left, nothing twice: then all snapshots made are freed |
| Memento.Client | src/dp/behavioral/Memento.cpp:160-181 | any session of a client ends in the specified state, and with the caretaker deleted every snapshot is freed |
| DeviceState.PeriodFive | src/dp/behavioral/State.cpp:96-113 | the state of one device and the counter after n operations on it, in closed form, in any fleet |
| DeviceState.AlternatesRun | src/dp/behavioral/State.cpp:101-113 | over any fleet and schedule outcomes alternate, starting with an error |
| DeviceState.ErrorsAndSuccesses | src/dp/behavioral/State.cpp:101-113 | for any devices in any states and any schedule, errors are the counter's half rounded up and successes its half rounded down |
| DeviceState.SharedIndexIsUnfair | src/dp/behavioral/State.cpp:101-113 | two idle devices of any fleet can take turns so that one fails every time and the other never |
| DeviceState.State.Handle | src/dp/behavioral/State.cpp:88-113 | the state installs its successor in its device and is deleted |
| DeviceState.DeviceContext.ChangeState | src/dp/behavioral/State.cpp:60-67 | the old state, if any, is deleted and the new one knows its device |
| DeviceState.Client | src/dp/behavioral/State.cpp:69-118 | an operation keeps exactly one live state object per device |
| DeviceState.DeleteAll | src/dp/behavioral/State.cpp:58 | deleting the devices deletes their states, each once, and leaves none |
| DeviceState.RunDevices | src/dp/behavioral/State.cpp:120-125 | devices made idle, operated and deleted: final states, counter and history are those of the specification, and nothing stays allocated |
| UsbRead.RingBuffer.ReceiveUpTo | tests/dummy/UsbHostSerial_read.cpp:12-34 | hands out the next bytes, at most five, at most what was asked for and at most what is left |
| UsbRead.Read | tests/dummy/UsbHostSerial_read.cpp:36-50 | delivers exactly the smaller of the size and what is left, in order, and writes nothing behind it |
| UsbRead.CopiedTwice | tests/dummy/UsbHostSerial_read.cpp:42-44 | bytes delivered one behind the other are one delivery |
| UsbRead.ReadInParts | tests/dummy/UsbHostSerial_read.cpp:36-50 | reading in any number of parts is reading their sum at once |
| UsbRead.TestRead | tests/dummy/UsbHostSerial_read.cpp:52-72 | the test's buffer holds the pattern up to what was read, and zeros behind it |

## Left out

- Pid.PIDImpl.Calculate: exact reals instead of IEEE doubles, and a time step of zero is not modelled, because division by it has no real value.
- PidSim.Run: rounding is not modelled; 0.5 is a bound for exact reals.
- Handshake.Execute: only the first run of the program; the flags are never reset, so a second one starts from stale flags.
- RaceCounter.FinalValues: `++` is a load and a later store, and the schedule picks any interleaving; that a data race is undefined behaviour in C++, and 32-bit overflow, are not modelled.
- FileTree.FileSystem.Destroy: a node is not unlinked from its parent's list, as in the code; `FileGraph.DropKeepsForest` says when that matters.
- FileRuns.PerformAll: no node is created during a run; all nodes of the run exist at its start.
- FileTree.FileSystem.constructor: one class with a composite flag stands for the file, link and folder classes; `ShortCut` and `ZipFile` are files here.
- PlainFolder.Folder.AddFolder: adding to a folder that already sits inside another one can leave the outer one not well formed, so `Size` and the listing are about trees built bottom-up; in the code, adding a folder inside itself makes both recurse for ever.
- PlainFolder.Folder.GetFilesRecursive: removal by name, and the destructor, which would delete a shared file twice, are not modelled.
- EchoSession.AcceptLoop: the accept results are a finite list and `stop()` does not come in between; a call that the kernel never answers is an exhausted list of answers.
- EchoSession.Connection.Send: a send never reports more than it was offered, as the kernel guarantees.
- MultiEcho.StuckOnlyWhenDone: no fairness is assumed, so a client that never answers can hold up the joins for ever.
- MultiEcho.AcceptLoop: runs each thread at its join; every other interleaving is in the step system, where a session depends on its own answers only (`MultiEcho.InterleavedSessionsAreFaithful`).
- FourRuns.FourRunsClose: programs of moves and quarter turns; turns by other angles, and pen and jump commands, are not part of it.
- AccountFile.Find: files made of whole records only; a truncated file would leave the program looping or with a partly read account.
- AccountFile.Account.Write: little-endian host with 4-byte int, 8-byte double and 8-byte size_t; a balance is its 64-bit pattern.
- RuleOfFive.Heap.New: addresses are never reused, so a stale pointer cannot become valid again by accident.
- Flyweight.ImageFlyweightFactory.GetImageFlyweight: pixel buffers and their copies are not modelled, and the product is a mathematical integer.
- Memento.Client: the program never deletes its caretaker; the model does, to say what its destructor guarantees.
- Startup.ResetHandler: the call of main, the vector table and memory-mapped registers are not modelled.
- UsbRead.Read: the destination is an array and an index instead of a pointer.
- Socket set-up, `start`, `stop` and the server's own descriptor are not modelled.
- Console output, logging, clocks and random strings are not modelled; a client's new state is any string.
- Coordinates, sizes and counters are mathematical integers.
- The GTK applications, the console menu, UART registers and SysTick delays are not modelled.
- Observer, Mediator, Iterator, Decorator, Strategy, the factories, Builder, Singleton, Facade, Command, Proxy, operator overloading, `DeleteMe` and demos of the standard library would only add easy members.
