# HAL-OS in Dafny

A model of a small teaching kernel for the 80386 and of the programs that come with it. The kernel
shows three terminals on one text-mode screen, runs up to six processes under a round-robin
scheduler, and reads a simple file system image. The programs here are `grep`, the blinking-fish
animation and the layer that emulates the system calls on Linux.

`dafny verify dfyconfig.toml` checks everything.

## How it is organised

Code that updates memory step by step is modelled by classes and by methods on arrays. Each such
method is proved against a specification function of the state before it, and what the code
promises is proved about those functions, for all inputs and over whole runs.

* `Bytes`, `Text` - bytes, machine words, strings in buffers.
* `Paging` - the page directory, both page tables and the two-level walk (section 4.3, "32-bit
  paging", of the Intel 64 and IA-32 Architectures Software Developer's Manual, Volume 3A), proved
  to be one memory map for all 2^32 addresses.
* `RoundRobin` - the search for the next terminal, and fairness for any number of terminals.
* `KernelState` - the state shared by the scheduler, `execute`, `halt`, terminal switching and the
  console, and the effect of each operation on it. `Kernel` is the object whose methods have these
  effects on its fields.
* `ProcessForest`, `KernelInvariant`, `KernelRuns`, `KernelScreens`, `KernelScheduling` - the
  theorems about all interleavings of ticks, terminal switches, `execute`, `halt`, writes to memory
  and to the video page, cursor moves, prints and keys: the process forest, coherence of the running
  context, last-in-first-out return, refinement of a machine with one private screen per terminal,
  fair turns, exact resumption. Each of these is one event; ticks and keys may come at any time between
  them. What the running process does waits, after the first launch of a terminal, for the next tick;
  programs are started, and base shells ended, in the terminal shown; characters are printed and erased
  within the video page. What happens otherwise to programs, shells and prints is stated too.
* `KernelInterrupts` - `execute` as two events, with any run of others between them.
* `KernelWriting` - `terminal_write` as a run of the kernel's events, and prints beyond the video page.
* `KernelExamples` - runs from boot in which starting a program goes wrong.
* `CommandLine`, `Loader` - how a command's arguments reach the new process in the kernel; how the
  program file is checked and copied into its page. `SystemCalls` - `execute` and `halt` put together
  from the command line, the program file, the descriptors and the kernel.
* `FileSystem`, `Descriptors` - blocks and inodes against flat file contents; `open`, `read` and
  `close` over arbitrary sequences of calls.
* `LineDiscipline`, `Scroll` - scan codes to edited lines; writes that scroll, character by character.
* `LibMem`, `Numbers` - phased copies against moves; number output against number reading.
* `Grep`, `BlinkSpec`, `BlinkList`, `Frames`, `Fish`, `Args` - the programs in user space.

## What was found

The conditions are exact, and proved for all inputs in both directions; the runs, files and images
named beside them are inputs that do not meet them.

* A process started by `execute` belongs to the terminal shown, but `halt` gives back the scheduled
  one. Starting a program, and halting a base shell, leaves a good state exactly if the two are the
  same (`KernelInvariant.NeedsActiveTerminal`). Alt-F2 after boot and two ticks lead to a state in
  which they are not (`KernelExamples.ExecuteElsewhereBreaks`).
* `execute` runs with interrupts on. If others run between the mapping of the new program's page and the
  moment the new process is made current, the outcome is coherent exactly if there was no tick and the
  terminal shown is the same (`KernelInterrupts.ExecuteInterrupted`). After a tick the program is started
  in the page of its caller; one tick after boot will do (`KernelExamples.TickInsideExecute`).
* Ctrl-L and backspace leave the video page on a backing frame. The mapping is right afterwards
  exactly if the terminal shown is not the scheduled one (`KernelInvariant.KeysKeepInv`); until the
  next tick, prints go to a page nobody sees (`KernelScreens.PrintNeedsMapping`).
* `terminal_switch` leaves all screens as they were exactly if the video page is on the scheduled
  terminal's screen, or the two pages are the same (`KernelScreens.SwitchKeepsScreens`). Ctrl-L and
  Alt-F2 before the next tick exchange the pages of two terminals (`KernelScreens.ClearThenSwitch`).
* A tick saves the context of the scheduled terminal's process exactly if that process is current
  (`KernelScheduling.TickSavesContext`). When a terminal is used for the first time it is not: the
  process that was running loses its place and is resumed in the context last saved for it, if any
  (`KernelScheduling.LaunchResumesElsewhere`).
* A character whose cell lies below the video page faults, unless its offset is in a backing page. Then it
  changes another terminal's screen exactly if that terminal is not the one shown
  (`KernelWriting.PrintBeyond`); carriage returns lead there (`KernelWriting.ReturnsGoDown`).
* `vidmap` accepts pointers whose four bytes do not all lie in the program's page
  (`Paging.VidmapPointerCheck`), such as the address just behind it (`Paging.VidmapPastTheEnd`).
* A program file of more than 4 MB less 0x48000 bytes is not refused, but does not find its place
  (`Loader.ProgramFits`, `Loader.LargeFile`); whether a file runs depends on the file alone exactly if it
  has at least 28 bytes or does not begin like an executable (`Loader.FileDecides`, `Loader.ShortFile`).
* A command that ends right after its first space leaves the new process with the arguments of the
  last process in its slot (`CommandLine.ArgumentsArePassed`).
* `read` treats every open file under its own type exactly if directory entries that share an inode
  number are of the same type (`Descriptors.ReadKnowsTypes`). If the RTC is listed before the
  directory, both without an inode, the directory is opened as one but read as the RTC
  (`Descriptors.RtcFirstIsMistaken`).
* `grep` finds what a simple search finds exactly if no line is longer than 1024 bytes
  (`Grep.BufferIsExactForShortLines`).
* `memcpy` moves correctly on every memory exactly if the ranges do not overlap, or the destination
  is not above the source, or the whole copy is one aligned double word (`LibMem.CopyMovesExactly`).
* The blink list stays well formed exactly if the location added is not 0 (`BlinkList.BlinkList.Add`).
  In `fish` that is a cell 40 short of a multiple of 65536, and the list breaks exactly if it comes
  while there is room (`Fish.ListAfterCalls`, `Fish.FrameMeetsZero`). `sync` leaves the right
  character on the screen exactly if the element is then off or its characters are the same: its
  conditional move never happens (`BlinkSpec.SyncShows`).
* The loop in `terminal_write` that makes room ends exactly if the text has at most 25 newlines
  (`Scroll.RoomIsFound`).
* The line at which `terminal_write` draws is high enough for a text without line breaks exactly if the text
  fits from where the terminal stands, or from line 23 if that is lower (`Scroll.OneLineFits`). For a text
  with newlines it allows for the newlines but not for its last line (`Scroll.LinesFit`).
* `terminal_write` shows a text completely exactly if each of its characters has its place on the screen,
  counted from the line at which the text is drawn (`Scroll.TextIsShown`, `Scroll.Terminal.Write`). In the
  last line, "a", a newline and "b" lose the "b" (`Scroll.LastLineIsLost`).
* The next write continues right behind a plain text exactly under a condition on its size, its last
  character, its column and the rows its lines fill (`Scroll.NextWriteContinues`). It does not after "a", a
  newline and "b", nor after 80 characters (`Scroll.NextWriteDrawsOver`).
* Reading from the terminal twice without a write in between returns the first line again. Two reads
  stay within the 129 bytes of the buffer, and a third has room exactly if the second line had at
  most 128 characters (`LineDiscipline.SecondRead`, `LineDiscipline.ThirdReadOverruns`).
* `ece391_getargs` copies the terminator of an argument before it looks whether there is room: the
  byte after the buffer is written exactly if an argument ends there (`Args.GetArgs`).
* Backspace takes back the key before it exactly if the line was not full
  (`LineDiscipline.BackspaceUndoes`).

Where comments and code disagree the code is followed: `terminal_read` never looks at the size it is
given, `directory_read` neither, and `getargs` of the kernel succeeds even if the arguments do not
fit.

## Model

| member | source | states |
|---|---|---|
| Paging.InitPaging | student-distrib/paging.c:13-173 | the loops and assignments leave the directory and both tables in the shape the rest of the kernel relies on, with the first program at 8 MB and both video pages at 0xB8000 |
| Paging.TranslateIsMemoryMap | student-distrib/paging.c:13-173 | the two-level walk of every 32-bit address is present exactly on the video page, the three backing pages, the kernel's and the program's 4 MB and the vidmap page, at the stated frames, and only the last two are open to user code |
| Paging.PidsAreDisjoint | student-distrib/system_calls.c:627-652 | control blocks, kernel stacks and program pages of different pids share no byte and touch no screen frame; the four bytes at a stack top are the last of its own 8 KB block |
| Paging.PidsAreStacked | student-distrib/system_calls.c:627-652 | the 8 KB blocks lie one below the other from 8 MB down and the 4 MB programs one above the other from 8 MB up; a stack top is four bytes below the end of its block |
| Paging.VidmapAccepts | student-distrib/system_calls.c:563-575 | exactly the pointers from 0x8000000 to 0x8400000 are accepted, and then 0x8C0A000 is handed out |
| Paging.VidmapShowsTheScreen | student-distrib/system_calls.c:563-575 | the page handed out by vidmap is a user page that shows, byte for byte, the frame mapped there |
| Paging.VidmapPointerCheck | student-distrib/system_calls.c:566-572 | an accepted out-pointer is safe to store through exactly if it is at least four bytes below the end of the page |
| Paging.VidmapPastTheEnd | student-distrib/system_calls.c:566-572 | the address just behind the program's page is accepted although nothing is mapped there |
| RoundRobin.FindNext | student-distrib/scheduler.c:95-103 | the search ends because some terminal is initialized, and finds the next one in circular order |
| RoundRobin.NextIsUnique | student-distrib/scheduler.c:95-103 | the next initialized terminal is the only one reached without passing another |
| RoundRobin.NextIsFirst | student-distrib/scheduler.c:95-103 | no initialized terminal has a number between those of the scheduled one and the one found, counted upwards and around |
| RoundRobin.Fairness | student-distrib/scheduler.c:95-103 | k ticks give each of m initialized terminals floor(k/m) or ceil(k/m) turns, for any number of terminals and any starting point |
| ProcessForest.ForestIsUnique | student-distrib/system_calls.c:253-270 | following parents from each terminal's active pid gives one chain and no other |
| ProcessForest.PushKeepsForest | student-distrib/system_calls.c:243-301 | a new process on top of a chain keeps all chains acyclic, disjoint and complete |
| ProcessForest.PopKeepsForest | student-distrib/system_calls.c:92-106 | taking the active process off its chain keeps all chains acyclic, disjoint and complete |
| ProcessForest.BaseAlone | student-distrib/system_calls.c:78-90 | a terminal whose base shell is active runs nothing else, and that shell has the terminal's number as its pid |
| ProcessForest.FirstFreeIsFresh | student-distrib/system_calls.c:635-644 | get_pid fails exactly when all six slots are used; otherwise its pid is on no chain and is not a base pid |
| KernelInvariant.TickKeepsInv | student-distrib/scheduler.c:68-138 | a tick keeps the chains, schedules the next initialized terminal, and leaves current PCB, user page and video mappings those of the scheduled terminal, and esp0 four bytes below the end of the 8 KB block of its process |
| KernelInvariant.SwitchScreensIsSound | student-distrib/scheduler.c:26-47 | the frame copies and remappings, read through the page tables, come to an exchange of two frames and of the mapped frame, wherever the video page is mapped |
| KernelInvariant.SwitchKeepsInv | student-distrib/scheduler.c:20-56 | switching keeps the invariant at any time; it changes the chains only by a first shell in a terminal not used before, and the context is coherent afterwards exactly if it was and there was no such shell |
| KernelInvariant.ExecuteKeepsInv | student-distrib/system_calls.c:209-310 | execute without an interruption pushes the free pid on the chain of the terminal shown, or changes no chain, and keeps the running context coherent, whatever the video mapping: current PCB, user page, and an esp0 four bytes below the end of the block of the current pid |
| KernelInvariant.ExecuteFailsWhenFull | student-distrib/system_calls.c:209-220 | execute of a runnable program fails exactly when all six slots are in use, and a failing execute changes nothing |
| KernelInvariant.HaltKeepsInv | student-distrib/system_calls.c:69-107 | halt pops the chain of the scheduled terminal, or replaces a base shell, and keeps the running context coherent in the same sense, whatever the video mapping |
| KernelInvariant.BaseShellKeepsPid | student-distrib/system_calls.c:75-90 | a base shell that halts is given its own pid again, and esp0 is already that of its block |
| KernelInvariant.KeysKeepInv | student-distrib/devices/terminal.c:230-285 | Ctrl-L and backspace keep processes and context; the video mapping is right afterwards exactly if the terminal shown is not the scheduled one |
| KernelInvariant.StepKeepsInv | student-distrib/system_calls.c:69-310 | every event that may occur keeps the invariant and moves the chains as stated |
| KernelInvariant.NeedsActiveTerminal | student-distrib/system_calls.c:269-297 | from any coherent state, execute, and halt of a base shell, lead to a good state exactly if the scheduled terminal is the one shown |
| KernelExamples.ExecuteElsewhereBreaks | student-distrib/scheduler.c:20-138 | from boot, Alt-F2 and two ticks lead to a settled state with free slots in which the first shell runs while another terminal is shown, and in which its execute and its halt both end in a state that is not good |
| KernelInterrupts.ExecuteInTwoParts | student-distrib/system_calls.c:209-297 | mapping the page of the chosen pid and then making the process current is what execute does |
| KernelInterrupts.ExecuteInterrupted | student-distrib/system_calls.c:232-297 | whatever runs between the two parts, once the caller goes on the outcome is coherent, and then that of an execute without interruption, exactly if no tick came and the terminal shown is the same; after a tick the new process has its caller's page |
| KernelExamples.TickInsideExecute | student-distrib/scheduler.c:68-138 | after boot one tick between the two parts is enough: the shell goes on and its program is started in the shell's page |
| KernelRuns.Run | student-distrib/system_calls.c:69-310 | over every run of enabled events, each of them a whole call, the invariant holds in the state reached; only a pending first launch, the terminal shown for starting programs, and cells beyond the video page restrict the events |
| KernelRuns.CallersAreKept | student-distrib/system_calls.c:253-291 | whatever runs above and beside them, suspended callers keep their PCBs and return contexts |
| KernelRuns.DepthIsLength | student-distrib/system_calls.c:92-106 | the length of a chain is its length before the run plus executes minus halts |
| KernelRuns.ExecuteReturns | student-distrib/system_calls.c:92-119 | after a balanced run, halt makes the caller active again with its own user page and esp0 and returns to the context execute was called from |
| KernelRuns.ExecuteThenHalt | student-distrib/system_calls.c:92-119 | a program that is started and halts at once gives its caller everything back |
| KernelRuns.BalancedRunFreesSlots | student-distrib/system_calls.c:69-106 | a run balanced in every terminal restores the chains and the set of used slots |
| KernelScreens.SwitchKeepsScreens | student-distrib/scheduler.c:33-47 | terminal_switch leaves the screen of every terminal as it was exactly if the video page is mapped to the scheduled terminal's screen or the two screens are the same |
| KernelScreens.ClearThenSwitch | student-distrib/scheduler.c:20-47 | after Ctrl-L in the scheduled terminal, a switch before the next tick shows the cleared page on the other terminal and the other's page on this one, and leaves the third |
| KernelScreens.ClearShows | student-distrib/devices/terminal.c:264-279 | byte for byte: the 25 rows of 80 cells of the terminal shown become spaces with attribute 7, no other byte of a screen changes, and the cursor is home |
| KernelScreens.BackspaceShows | student-distrib/devices/terminal.c:230-250 | byte for byte: the cell before the saved cursor of the terminal shown becomes a space with attribute 7, if there is one, no other byte of a screen changes, and the cursor is that of the scheduled terminal |
| KernelScreens.SwitchRefines | student-distrib/scheduler.c:20-56 | on the private screens, terminal_switch changes only which one is shown, and exchanges two of them if the video page was not mapped to the right one |
| KernelScreens.UserStoreRefines | student-distrib/system_calls.c:563-575 | a write by user code to any of the 2^32 addresses reaches no screen but the scheduled terminal's, and is lost if the video page is mapped elsewhere |
| KernelScreens.KernelStoreRefines | student-distrib/lib.c:511-559 | every byte the kernel stores through its video page, as scrolling does, changes the scheduled terminal's screen and no other, or is lost |
| KernelScreens.PutcRefines | student-distrib/lib.c:180-194 | a print of a newline, or at any cursor whose cell lies in the video page, changes the scheduled terminal's screen and no other, or is lost |
| KernelScreens.PutcShows | student-distrib/lib.c:167-194 | byte for byte: the character and attribute 7 go to the cell of the cursor on the scheduled terminal's screen, if it is mapped, and nothing else changes; where the cursor goes, in numbers |
| KernelScreens.StepRefines | student-distrib/scheduler.c:19-122 | every event of the kernel is the event of a machine with one private screen per terminal and a flag for when writes are lost |
| KernelScreens.RunRefines | student-distrib/scheduler.c:19-122 | over every run, what the terminals show is what that machine shows |
| KernelScreens.UserReachesOwnPagesOnly | student-distrib/scheduler.c:105-122 | user code reaches exactly the program page of the scheduled terminal's process and that terminal's screen |
| KernelScreens.PrintNeedsMapping | student-distrib/devices/terminal.c:264-279 | with the scheduled terminal shown, a print appears on its screen exactly if the video page is mapped to it |
| KernelWriting.WriteRefines | student-distrib/devices/terminal.c:156-206 | the run of stores, cursor moves and prints that terminal_write makes can be made in every coherent state, changes the scheduled terminal's screen to the shifted, printed and shifted page, and no other screen, or is lost as a whole |
| KernelWriting.PrintBeyond | student-distrib/lib.c:180-194 | below the video page a character faults unless its cell lies in a backing page; then it changes the screen of that page's terminal, and no other, exactly if another terminal is shown |
| KernelWriting.ReturnsGoDown | student-distrib/lib.c:180-184 | n carriage returns take the cursor n rows down, whether or not the screen has them |
| KernelScheduling.FairTurns | student-distrib/scheduler.c:95-103 | over every run without a new terminal, each terminal in use gets floor(k/m) or ceil(k/m) of k ticks |
| KernelScheduling.ResumesWhereInterrupted | student-distrib/scheduler.c:84-138 | however the other terminals run on, the tick that schedules a terminal again makes its process current with its own page and stack and reloads the interrupted context; it must have been current when interrupted |
| KernelScheduling.TwoTicksResume | student-distrib/scheduler.c:84-138 | with two terminals in use, every second tick resumes the same process where it was interrupted |
| KernelScheduling.TickSavesContext | student-distrib/scheduler.c:84-89 | a tick saves the interrupted context with the scheduled terminal's process exactly if that process is current |
| KernelScheduling.LaunchLosesContext | student-distrib/system_calls.c:288-310 | after the first use of a terminal, the tick saves the interrupted context with the new shell and leaves that of the process that was running as it was |
| KernelScheduling.LaunchResumesElsewhere | student-distrib/system_calls.c:288-310 | whatever runs in between, the process that was running when a terminal was first used is then resumed in the context last saved for it |
| KernelScheduling.TickKeepsCursors | student-distrib/scheduler.c:91-125 | a tick leaves a terminal's cursor where it was exactly if it is not the next one scheduled, or both coordinates fit in eight bits |
| Kernel.Kernel.constructor | student-distrib/system_calls.c:253-301 | after paging is set up and the first shell is started, the invariant holds and the state is settled |
| Kernel.Kernel.GetPid | student-distrib/system_calls.c:635-644 | the least pid whose PCB is not in use, or -1 |
| Kernel.Kernel.TerminalSwitch | student-distrib/scheduler.c:20-56 | the fields change as the Switch of the model says, on which the screen theorems rest |
| Kernel.Kernel.Scheduler | student-distrib/scheduler.c:68-138 | the fields change as the Tick of the model says, whose result TickKeepsInv states down to the place of esp0, and the context resumed is the one saved for the process made current |
| Kernel.Kernel.Execute | student-distrib/system_calls.c:209-310 | the fields change as the Execute of the model says, whose result ExecuteKeepsInv states; it fails exactly if the program cannot run, which SystemCalls.Execute decides, or no pid is left |
| Kernel.Kernel.Halt | student-distrib/system_calls.c:54-119 | the fields change as the Halt of the model says, whose result HaltKeepsInv states; the caller gets the status, or 256 after an exception, in the context it called from; SystemCalls.Halt closes the descriptors before |
| Kernel.Kernel.ClearTerminal | student-distrib/devices/terminal.c:264-279 | the screen shown is blank, the cursor home, and both video mappings on the scheduled terminal's backing frame |
| Kernel.Kernel.EraseCharacter | student-distrib/devices/terminal.c:230-250 | the cell before the shown terminal's cursor is blank, and both video mappings are on the scheduled terminal's backing frame |
| Kernel.Kernel.Putc | student-distrib/lib.c:180-194 | for a newline, or a cursor whose cell lies in the video page, the cell and the cursor change as the Putc of the model says |
| CommandLine.ArgumentsArePassed | student-distrib/system_calls.c:164-180 | the new process sees the text after the first space, whatever its slot held, exactly if the command is not empty and does not end right after that space; otherwise it sees what the slot held |
| CommandLine.CommandSplits | student-distrib/system_calls.c:164-180 | name, space and arguments are taken apart again |
| CommandLine.KeepArguments | student-distrib/system_calls.c:146-274 | a command of more than 128 characters is refused; otherwise the file name and the arguments kept are those the model states |
| CommandLine.GetArgs | student-distrib/system_calls.c:546-557 | the first nbytes characters of the arguments, padded with NULs; it fails only if no room is given |
| Loader.CheckProgram | student-distrib/system_calls.c:184-207 | a file is run exactly if there is one of that name and the header array then begins with the magic number; the entry point is the little-endian number in its last four bytes |
| Loader.EntryIsTold | student-distrib/system_calls.c:193-207 | a header counts as that of an executable exactly if its first bytes are 7F, E, L and F, and the entry point is its bytes 24 to 27, the least significant first |
| Loader.HeaderDecides | student-distrib/system_calls.c:190-207 | for a file of at least 28 bytes the header is its first 28 bytes; one that does not begin like an executable is refused |
| Loader.FileDecides | student-distrib/system_calls.c:190-207 | the outcome does not depend on what was in the header array exactly if the file has at least 28 bytes or does not begin like an executable |
| Loader.ProgramFits | student-distrib/system_calls.c:232-237 | byte k of the file goes to linear address 0x8048000+k, and every byte finds a place, the one at that offset of the 4 MB of its own pid, exactly if the file has at most 4 MB less 0x48000 bytes |
| Loader.LargeFile | student-distrib/system_calls.c:232-237 | a well-formed image with a file that is one byte too long |
| Loader.ShortFile | student-distrib/system_calls.c:190-207 | a well-formed image with a file of four bytes that begins like an executable |
| FileSystem.ContentsAt | student-distrib/devices/filesystem.c:121-125 | byte k of a file is byte k%4096 of the block that the inode lists for k/4096 |
| FileSystem.ReadData | student-distrib/devices/filesystem.c:93-131 | the bytes read one by one are a slice of the concatenated blocks, as long as asked for or up to the end of the file; it fails exactly for an inode that does not exist, nothing is read when offset+length wraps, nothing beyond the bytes read is changed |
| FileSystem.ReadDentryByName | student-distrib/devices/filesystem.c:22-52 | the first entry of that name, or none; a name of more than 32 characters matches nothing |
| FileSystem.FindDentryByInodeNum | student-distrib/devices/filesystem.c:242-252 | the first entry with that inode number, or -1 |
| FileSystem.DirectoryRead | student-distrib/devices/filesystem.c:140-165 | the name at the position, cut at 32 bytes, and its length; 0 after the last entry |
| Descriptors.Process.constructor | student-distrib/system_calls.c:247-282 | a new process has the terminal on descriptors 0 and 1 and nothing else open |
| Descriptors.NewTableIs | student-distrib/system_calls.c:247-282 | of the eight descriptors of a new process exactly the first two are open, on the terminal |
| Descriptors.Process.Open | student-distrib/system_calls.c:452-509 | the table and the result are those of OpenFd, whose properties OpenKeepsTable, OpenFindsName and OpenThenRead state |
| Descriptors.Process.Close | student-distrib/system_calls.c:515-540 | the table and the result are those of CloseFd, whose properties CloseEmpties and CloseUndoesOpen state |
| Descriptors.Process.CloseAll | student-distrib/system_calls.c:63-67 | after halt has closed everything, the table is as execute makes it for a new process |
| Descriptors.Process.Read | student-distrib/system_calls.c:335-398 | table, result and data delivered are those of ReadFd |
| Descriptors.ReadKnowsTypes | student-distrib/system_calls.c:366-391 | looking an entry up by its inode number finds the right type for all entries exactly if entries that share an inode number share their type |
| Descriptors.RtcFirstIsMistaken | student-distrib/system_calls.c:366-391 | an image for which it does not: the directory is opened as a directory and looked up as the RTC |
| Descriptors.OpenKeepsTable | student-distrib/system_calls.c:457-509 | open returns the least free descriptor and leaves the others alone; the descriptor stands at the start of the inode of the first entry of that name, with the operations of its type; it fails without change exactly if all eight are in use or there is no such name |
| Descriptors.OpenFindsName | student-distrib/system_calls.c:472-501 | whichever entry is the first of the name, open takes its inode and the RTC, directory or file operations for type 0, 1 or any other |
| Descriptors.OpenThenRead | student-distrib/system_calls.c:335-509 | opening a file by its name and reading it, whatever else is called in between, delivers a prefix of the contents of the first entry of that name |
| Descriptors.ReadElsewhere | student-distrib/system_calls.c:344-381 | descriptor 0 gives what the terminal returns, an RTC descriptor what the RTC returns, and descriptor 1 and those not open a failure, without any data or change |
| Descriptors.CloseEmpties | student-distrib/system_calls.c:515-540 | close fails without change exactly for descriptors 0 and 1 and those not open, and otherwise empties the one it is given |
| Descriptors.CloseUndoesOpen | student-distrib/system_calls.c:515-540 | closing what was just opened gives back the table as it was |
| Descriptors.OneFileRead | student-distrib/system_calls.c:391-397 | one read of a regular file delivers the next min(nbytes, rest) bytes and moves the position by as many; a negative count reads to the end of the file or not at all |
| Descriptors.ReadsDeliverPrefix | student-distrib/system_calls.c:335-397 | whatever is opened, closed and read in between, the reads of one open file concatenate to a prefix of it, and the position counts the bytes |
| Descriptors.ReadStopsAtEnd | student-distrib/devices/filesystem.c:108-120 | a read with a positive count returns 0 exactly at the end of the file, and then changes nothing |
| Descriptors.ReadsListDirectory | student-distrib/system_calls.c:383-388 | repeated reads of an open directory deliver each name once, in order, and then nothing |
| Descriptors.RunCalls | student-distrib/system_calls.c:335-540 | after every run of open, close and read, descriptors 0 and 1 are still the terminal and all others stand within a file of their type |
| SystemCalls.Execute | student-distrib/system_calls.c:133-310 | from the command to the entry point: it succeeds exactly if the command is short enough, its file exists and has the header of an executable, and a pid is free; then the kernel state, the new descriptors and the argument field are those of the new process, and otherwise no process and no argument field changes |
| SystemCalls.ProgramIsFirstNamed | student-distrib/system_calls.c:146-207 | the program run is the first file with the name before the first space, and only for a command of at most 128 characters |
| SystemCalls.Halt | student-distrib/system_calls.c:46-119 | the descriptors are closed, the kernel state is that of halt, and the caller gets the status where it called from |
| LineDiscipline.LettersAreCased | student-distrib/devices/keyboard.c:8-129 | every letter key types its letter, a capital one exactly if shift differs from caps lock |
| LineDiscipline.OthersIgnoreCaps | student-distrib/devices/keyboard.c:221-231 | caps lock changes what a key types exactly if it is a letter key |
| LineDiscipline.DigitKeys | student-distrib/devices/keyboard.c:8-129 | the keys of the top row type 1234567890-= and, with shift, !@#$%^&*()_+ |
| LineDiscipline.PunctuationKeys | student-distrib/devices/keyboard.c:8-129 | the nine punctuation keys, each with what it types without and with shift |
| LineDiscipline.FixedKeys | student-distrib/devices/keyboard.c:8-220 | backspace, Enter and the space bar type the same with and without shift, the keys without a character a NUL, and Tab four spaces |
| LineDiscipline.CommandKeys | student-distrib/devices/keyboard.c:199-222 | Ctrl-L and nothing else clears; Alt with F1, F2 or F3, and nothing else, shows terminal 0, 1 or 2; codes beyond the tables type nothing |
| LineDiscipline.ModifierKeys | student-distrib/devices/keyboard.c:181-198 | by scan code, which key sets and clears which flag |
| LineDiscipline.FlagsFollowKeys | student-distrib/devices/keyboard.c:180-197 | over every run the flags say which modifiers are down, and caps lock whether it was pressed an odd number of times |
| LineDiscipline.BackspaceUndoes | student-distrib/devices/terminal.c:227-256 | backspace takes back the key before it exactly if the line was not full |
| LineDiscipline.BackspaceTakesOne | student-distrib/devices/terminal.c:227-247 | a backspace takes the last character of any line away, and nothing from an empty one |
| LineDiscipline.EditWithoutBackspace | student-distrib/devices/terminal.c:249-256 | without backspace what was typed comes behind what was there, cut at 127 characters |
| LineDiscipline.UpdateHolds | student-distrib/devices/terminal.c:221-257 | one key keeps a line equal to the edited keys before Enter, and the enter flag equal to whether Enter was among them |
| LineDiscipline.UpdateLeaves | student-distrib/devices/terminal.c:221-257 | what one key does to the other fields of a line: Enter sets the flag and the column, and nothing moves the terminal to another row |
| LineDiscipline.ClearResets | student-distrib/devices/keyboard.c:199-201 | Ctrl-L sends the terminal shown to its first row and column, keeps what has been typed, and touches no other |
| LineDiscipline.RunHolds | student-distrib/devices/keyboard.c:166-240 | over every run of scan codes and redraws, terminal switches included, each line holds exactly the keys typed while its terminal was shown |
| LineDiscipline.ReadReturnsEditedLine | student-distrib/devices/terminal.c:105-120 | a read returns what was on the line, edited by the keys before Enter, and a newline; keys after Enter have no effect |
| LineDiscipline.SecondRead | student-distrib/devices/terminal.c:105-120 | a second read without a write returns the first line edited on; it is always within the buffer, and leaves room for a third exactly if its line has at most 128 characters |
| LineDiscipline.ThirdReadOverruns | student-distrib/devices/terminal.c:105-120 | n letters and Enter, a read, Enter and a read leave no room for a third exactly if the letters are 127 |
| LineDiscipline.Keyboard.UpdateKbBuffer | student-distrib/devices/terminal.c:221-257 | the line of the terminal shown changes as Updated says, and no other |
| LineDiscipline.Keyboard.Handler | student-distrib/devices/keyboard.c:180-240 | flags, shown terminal and lines change as Handled says |
| LineDiscipline.Keyboard.TypeChar | student-distrib/devices/keyboard.c:216-235 | the tables are never indexed out of range, and the character is the one the modifiers select |
| LineDiscipline.Keyboard.TerminalRead | student-distrib/devices/terminal.c:105-120 | the caller's buffer receives the text of the line and a newline, and nothing beyond it is changed; the state is that of AfterRead |
| LineDiscipline.Keyboard.EmptyLine | student-distrib/devices/terminal.c:145-159 | a write empties the line being typed and, if something was on it, moves the terminal to the next row |
| Scroll.RowsMoveUp | student-distrib/lib.c:511-559 | after n shifts every row is the row n below it, and the rows that come in are empty |
| Scroll.RowsShiftedAt | student-distrib/lib.c:511-559 | byte for byte: rows start to end-1 get the byte 160 further on, row end gets NULs with attribute 7, and all other bytes stay |
| Scroll.ShiftVideoMemUp | student-distrib/lib.c:511-559 | rows start to end-1 take the contents of the rows below, row end is emptied, an end beyond the screen is truncated, and nothing else changes |
| Scroll.TextMovesWithTheScreen | student-distrib/devices/terminal.c:156-204 | what is on the screen before a write and is not drawn over moves up by the shifts before and after drawing together |
| Scroll.CharIsDrawn | student-distrib/lib.c:167-194 | a string that fits on the screen, from whatever column it starts, is drawn character by character, with attribute 7, at the places counted row by row |
| Scroll.CursorMoves | student-distrib/lib.c:180-194 | in numbers, where putc leaves the cursor: one place on modulo the 2000 places of the screen, or at the start of the next row |
| Scroll.TextIsShown | student-distrib/devices/terminal.c:178-204 | every character that is not scrolled off the top is shown, the later shifts above its place, exactly if all characters had their places on the screen when they were drawn |
| Scroll.OneLineFits | student-distrib/devices/terminal.c:168-176 | the line chosen for a text without line breaks is high enough for it exactly if 80*min(line,23) + column + size is at most 2000 |
| Scroll.LinesFit | student-distrib/devices/terminal.c:161-176 | for a text with newlines whose lines fill no row, exactly if it ends in a newline, or has all its lines above the bottom from where the terminal stands, or has one newline and is counted as overflowing the last row |
| Scroll.TextFits | student-distrib/devices/terminal.c:161-176 | for any text, the line chosen, in numbers, and that it is high enough exactly if the text without its last line ends stops on the screen |
| Scroll.CountsToNul | student-distrib/devices/terminal.c:156-166 | the newlines counted are those before the first NUL |
| Scroll.LastLineIsLost | student-distrib/devices/terminal.c:161-204 | in line 24, "a", a newline and "b" are drawn there and shifted once, and a NUL stands where the "b" belongs |
| Scroll.PlaceByLines | student-distrib/lib.c:167-194 | a string ends as many rows down as it has newlines and filled rows, in the column of its last line |
| Scroll.NextWriteContinues | student-distrib/devices/terminal.c:182-206 | after a plain text, line and column stand for the place behind it exactly if, without newlines, it is empty or not of 80 characters and its end fits in eight bits, and with newlines, it ends in one and fills as many rows as are counted, or its last line alone fills one |
| Scroll.CursorLeftIs | student-distrib/devices/terminal.c:182-206 | in numbers, the line, the column and the shifts that a write leaves |
| Scroll.NextWriteDrawsOver | student-distrib/devices/terminal.c:182-206 | after "a", a newline and "b" the cursor stands on the "b", and after 80 characters where the text began |
| Scroll.RoomIsFound | student-distrib/devices/terminal.c:171-176 | the loop that makes room ends, from any line, exactly if there are at most 25 newlines |
| Scroll.Terminal.MakeRoom | student-distrib/devices/terminal.c:168-176 | every decrement of the line is one shift of the screen, and no more are made than the text needs |
| Scroll.Terminal.Puts | student-distrib/lib.c:167-194 | the characters are put one after the other, and page and cursor are those of the fold |
| Scroll.Terminal.Write | student-distrib/devices/terminal.c:130-209 | for every size, row plus shifts is kept over the whole write, all loops end, the line is at most 24 on exit, screen, line, column and cursor are exactly as stated, and the text is shown completely exactly if it fits from the line where it is drawn |
| LibMem.Memset | student-distrib/lib.c:283-317 | for every alignment and length, exactly the n bytes are set to the low byte of c |
| LibMem.Memcpy | student-distrib/lib.c:366-403 | the three phases come to the ascending copy in bytes and aligned double words, which CopyIsAscending states byte by byte |
| LibMem.CopyIsAscending | student-distrib/lib.c:366-403 | for every overlap: a byte is copied from what memory holds when the writing comes to it, where the aligned double words that lie wholly in the destination are written at once and all other bytes one by one |
| LibMem.CopyMoves | student-distrib/lib.c:366-403 | the ascending copy equals a copy from a snapshot if the ranges are disjoint or the destination is not above the source |
| LibMem.CopySpoils | student-distrib/lib.c:366-403 | for every other overlap but one, a memory on which the copy goes wrong |
| LibMem.CopyMovesExactly | student-distrib/lib.c:366-403 | the exact condition under which memcpy is as good as memmove on every memory |
| LibMem.Memmove | student-distrib/lib.c:412-430 | a copy from a snapshot, for every overlap |
| Numbers.DigitsReadBack | student-distrib/lib.c:228-238 | reading the digits back gives the number, without leading zero, in every radix from 2 to 36 |
| Numbers.NumeralIsUnique | student-distrib/lib.c:228-238 | every numeral without leading zero is the one written for its value |
| Numbers.DigitsAreThese | student-distrib/lib.c:217-231 | the digit characters are 0 to 9 and A to Z in this order |
| Numbers.BinaryFits | student-distrib/lib.c:215-245 | a 32-bit number never has more than 32 digits |
| Numbers.DecimalFits | student-distrib/lib.c:112-128 | a 32-bit number has at most ten decimal digits, so the 36-byte buffers suffice |
| Numbers.HexFits | student-distrib/lib.c:90-101 | a 32-bit number has at most eight hexadecimal digits |
| Numbers.Strrev | student-distrib/lib.c:251-264 | the string is reversed in place and nothing else changes |
| Numbers.Itoa | syscalls/ece391support.c:49-103 | the buffer receives the digits, most significant first, and a terminator, and nothing else changes |
| Numbers.PrintUnsigned | student-distrib/lib.c:110-117 | %u prints the decimal digits |
| Numbers.SignedReadsBack | student-distrib/lib.c:120-133 | what %d prints reads back as the signed number, and is a minus sign and the digits of the absolute value for a negative one |
| Numbers.PrintSigned | student-distrib/lib.c:120-133 | %d is right for every 32-bit number down to -2^31 |
| Numbers.PrintHex | student-distrib/lib.c:88-93 | %x prints the hexadecimal digits without leading zeros |
| Numbers.PrintAlternateHex | student-distrib/lib.c:94-104 | %#x prints exactly eight hexadecimal digits that read back as the number |
| Grep.LinesMakeUpTheFile | syscalls/ece391grep.c:28-57 | the lines of the simple search are the newline-free pieces that make up the file |
| Grep.PiecesMakeUpTheFile | syscalls/ece391grep.c:20-60 | the pieces the buffer makes of a file, put together again with a newline after each that does not fill it, are the file |
| Grep.PieceIsWhole | syscalls/ece391grep.c:28-30 | a piece has at most 1024 bytes and no newline |
| Grep.SelectedOne | syscalls/ece391grep.c:40-51 | a line by itself is selected exactly if it passes the test |
| Grep.SelectedAddUp | syscalls/ece391grep.c:40-51 | lines are selected one after the other, in the order of the file |
| Grep.ReportsAddUp | syscalls/ece391grep.c:43-47 | each selected line is printed behind the file name and a colon and before a newline, one after the other |
| Grep.BufferIsExactForShortLines | syscalls/ece391grep.c:20-60 | the refilled buffer selects the same lines as a simple search, for every pattern, exactly if no line has more than 1024 bytes |
| Grep.LongLineIsCut | syscalls/ece391grep.c:20-60 | for every file with a longer line, a pattern for which it does not |
| Grep.StrcpyDown | syscalls/ece391support.c:14-17 | the overlapping forward copy of a string to the front of the buffer is right |
| Grep.StrncmpAt | syscalls/ece391support.c:35-46 | the comparison is 0 exactly if the pattern occurs at that place |
| Grep.SearchLine | syscalls/ece391grep.c:40-51 | a line is reported exactly if the pattern occurs in it |
| Grep.SearchBuffer | syscalls/ece391grep.c:28-57 | one buffer full is searched piece by piece, and the unfinished line is carried to the front |
| Grep.DoOneFile | syscalls/ece391grep.c:10-66 | it prints the reports of exactly the lines containing the pattern, in order and once each, including lines across a refill and a last line without newline, and it ends; for a file that cannot be opened it prints a message and returns -1 |
| BlinkSpec.BlinkTiming | fish/blink.S:58-90 | at every tick an element is on exactly in the first part of its period, and its countdown lasts to the next change; the parts are the lengths asked for, or one tick for 0 and for more than 32768 |
| BlinkSpec.BlinkTimingInRange | fish/blink.S:58-90 | for lengths 1 to 32767, on exactly if n mod (a+b) < a |
| BlinkSpec.FindIsTop | fish/blink.S:351-379 | what is found is the most recently added element at the location |
| BlinkSpec.RemovePops | fish/blink.S:206-223 | removing pops the stack of one location and leaves the others alone |
| BlinkSpec.SyncStaysInStep | fish/blink.S:267-275 | synchronized elements have equal lengths, countdown and status at every later tick |
| BlinkSpec.SyncedIs | fish/blink.S:267-275 | sync changes nothing but lengths, countdown and status of the first element at its second location |
| BlinkSpec.TickShows | fish/blink.S:58-90 | a tick keeps every element's cell showing the character of its status |
| BlinkSpec.TickDrawsTheLast | fish/blink.S:58-90 | in any list, where several elements at a location toggle at once, the last one on the list is the one seen |
| BlinkSpec.TickDrawsNoMore | fish/blink.S:58-90 | a tick changes no byte of the screen but the characters of the elements that toggle |
| BlinkSpec.AddShows | fish/blink.S:159-170 | adding at an unused location keeps every element's cell right |
| BlinkSpec.SyncShows | fish/blink.S:277-286 | sync keeps the screen right exactly if the element is off afterwards or its characters are the same |
| BlinkList.FullIffAllTaken | fish/fish.c:160-170 | the allocator fails exactly when the list has 2000 elements |
| BlinkList.Unlinked | fish/blink.S:206-223 | bypassing one element and zeroing its slot leaves an acyclic list of exactly the other taken slots, in the same order |
| BlinkList.BlinkList.Malloc | fish/fish.c:160-170 | the first slot with location 0, or null exactly if there is none |
| BlinkList.BlinkList.FindHelper | fish/blink.S:351-379 | the slot of the first element at the location, or null |
| BlinkList.BlinkList.Add | fish/blink.S:105-184 | the element goes to the front of the acyclic list of exactly the taken slots; it is refused exactly for a location off the screen or when all slots are taken |
| BlinkList.BlinkList.Remove | fish/blink.S:187-237 | the most recent match is unlinked and freed, and the rest keep their order |
| BlinkList.BlinkList.FindElem | fish/blink.S:302-349 | a copy of the most recently added element at the location |
| BlinkList.BlinkList.Sync | fish/blink.S:240-300 | the second element takes over the timing of the first; it fails without change if either is missing |
| BlinkList.BlinkList.Tick | fish/blink.S:49-99 | every element of the list makes one tick, and the cells of those that toggled are redrawn |
| Frames.OneElementPerCell | fish/fish.c:98-147 | one element for each cell in which either file has a non-blank character, in reading order, with the first file's character as the on character, the second file's as the off character and location 80*row+column+40 modulo 65536, and no others |
| Frames.RowStartIs | fish/fish.c:98-147 | a row starts where as many newlines lie behind as its number says, at the start of the file or right behind the last of them, and nowhere else |
| Frames.RowTextIs | fish/fish.c:98-116 | the text of a row runs from there to the next newline or the end of the file |
| Frames.CharIsInItsCell | fish/fish.c:98-147 | every character but a newline is found in the cell given by the newlines before it and its distance from the start of the row |
| Frames.CellOfRow | fish/fish.c:102-121 | a cell beyond the end of its row is blank |
| Frames.ReadOne | fish/fish.c:102-116 | a character is read unless the row of that file is over; the end of the file ends the row |
| Frames.AddRow | fish/fish.c:99-129 | one pass of the inner loop adds the elements of one row, of which OneElementPerCell states characters and locations, and ends because the unread bytes decrease |
| Frames.AddFrames | fish/fish.c:77-147 | for any two files the calls made are one for each cell with something to show, in reading order, with the on and off characters of the first and second file and the location written out, and the loop ends when both files do; what they do to the list is stated by Fish |
| Fish.ListAfterCalls | fish/fish.c:122-127 | after any calls to add, the list is broken exactly if one for location 0 came while there was room; otherwise those on the screen have been pushed, as many as there was room for |
| Fish.AddAll | fish/fish.c:122-127 | the calls made on the linked list have that effect on its elements and on the screen, and it is well formed exactly if it is not broken |
| Fish.FrameMeetsZero | fish/fish.c:122-127 | two frames make a call for location 0 exactly if one of them has something in a cell whose row*80+column+40 is a multiple of 65536 |
| Fish.FramesAreShown | fish/fish.c:77-147 | two frames that fit on the screen end up on it: one element for each cell with something to show, which shows the first frame's character for 15 ticks and then the second's, at location 80*row+column+40, all of them on, and the screen right |
| Args.SplitUndoesJoin | fish/ece391emulate.c:76-98 | splitting the joined command line gives back the program and exactly its arguments |
| Args.JoinIs | fish/ece391emulate.c:132-157 | joining puts one space between any two words |
| Args.WordsAre | fish/ece391emulate.c:84-98 | spaces before a word are skipped, a newline there ends the list, and a word ends at the next space or newline |
| Args.SplitIs | fish/ece391emulate.c:76-83 | the program is ./ and what stands before the first space or newline |
| Args.OnlyWordsSurvive | fish/ece391emulate.c:84-98 | splitting recovers joined arguments exactly if each is non-empty and free of spaces and newlines |
| Args.WordsAreStable | fish/ece391emulate.c:76-98 | joining the words of any command and splitting again gives the same words |
| Args.ParseArguments | fish/ece391emulate.c:84-98 | the in-place loop leaves a pointer to each word, each ended by a NUL |
| Args.Execute | fish/ece391emulate.c:66-99 | a command of more than 1023 bytes is refused; otherwise args points to the split command, is ended by a null pointer, and is never overrun |
| Args.UptoIsJoin | fish/ece391emulate.c:132-157 | what has been written and what is still to be written make up the joined line |
| Args.EndIsLength | fish/ece391emulate.c:132-157 | an argument ends where the joined line of the arguments up to it would |
| Args.GetArgs | fish/ece391emulate.c:132-157 | it succeeds exactly if the joined line is shorter than nbytes, and then the buffer holds it; the byte after the nbytes, which need not be there otherwise, is set to NUL exactly if an argument ends there, and nothing beyond is changed |

## Left out

- Boot, descriptor tables and interrupt linkage: hardware setup; saved stack and frame pointers are opaque tokens.
- The drivers of the PIC, PIT and RTC: port input and output; the result of an RTC or terminal read is a parameter of `Descriptors.Process.Read`.
- TLB flushes, hardware cursor updates and busy waits: a wait is continued in a later state.
- Atomicity: `scheduler`, `putc`, each of the two parts of `execute`, and `halt` of a base shell are taken to run without interruption, although interrupts are on. Elsewhere inside `execute`, and between the two halves of that `halt`, when no process is current, a tick is not modelled.
- The first launch of a terminal: between the launch and the next tick there are only keys, since the process that was running does not go on.
- PCB memory at boot: it is only assumed that no PCB happens to be marked in use; its argument field is assumed to hold a string.
- Flag bits of page table entries other than present, write, user and page size.
- The contents of program pages: loading a program changes no screen, and is otherwise not modelled.
- Kernel.Kernel.Execute: whether the file can be run is the parameter `runnable`; `SystemCalls.Execute` decides it.
- Kernel.Kernel.Halt: the descriptors are not part of the kernel state; `SystemCalls.Halt` closes them.
- CommandLine.KeepArguments: file names of 32 characters and more, which are written beyond a local array.
- SystemCalls.Execute: the same file names, for the same reason.
- SystemCalls.Halt: the PCBs in which the descriptors lie are objects of their own.
- Kernel.Kernel.Putc: a cursor whose cell lies beyond the video page; `KernelWriting.PrintBeyond` says what is stored then.
- Kernel.Kernel.EraseCharacter: a saved cursor whose previous cell lies there.
- FileSystem.ReadData: for images whose block numbers are in range and whose files have at most 1023 blocks.
- Descriptors.Process.Read: what the terminal or the RTC returns is a parameter. For images in which the first entry with an inode number has the type of every entry with it, except that the RTC may share the number of a directory; otherwise a function of one driver is called with the arguments of another.
- FileSystem.DirectoryRead: the length is measured in the caller's buffer, which must hold a NUL at or after byte 32.
- `read_dentry_by_index` with an index equal to the number of entries.
- LineDiscipline: the drawing and scrolling while `terminal_read` waits, and the line increment for input longer than a row; the wait's effect on the line buffer is the event `Redraw`.
- LineDiscipline.Keyboard.TerminalRead: a line that already fills the buffer, which only a third read without a write can meet; the program's buffer is asked to hold the line, whatever size it has given.
- Scroll.Terminal.Write: for at most 25 newlines, since the loop does not end otherwise, and for texts that are not printed beyond the video page.
- Scroll.NextWriteContinues: for texts with a NUL behind them and none inside, and without carriage returns, which are not counted as newlines.
- LibMem.Memmove: the direction flag, which is left set after a descending copy.
- Numbers: the format string of `printf` itself, and its `%c` and `%s`.
- Grep.DoOneFile: for files and patterns without NUL bytes and a buffer whose last byte is not a newline when the function starts; a stray newline there would end a line that fills the buffer.
- BlinkList.BlinkList.Add: at location 0 only that the list is no longer well formed is stated, since the allocator takes the slot for a free one.
- BlinkList.BlinkList.Add: failures of copying from user space, which the emulated copy does not report.
- Frames.AddFrames: files that cannot be opened.
- Fish.AddAll: what the program does with a list that is no longer well formed.
- Args.GetArgs: a buffer that ends where an argument does, because the terminator is then written behind it.
- The fork, exec, mmap and directory parts of the emulator, `set_handler`, `sigreturn`, and the small programs `cat`, `ls`, `hello`, `pingpong`, `counter`, `shell` and `testprint`.
