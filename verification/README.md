# PonyOS in Dafny

A model of the hard parts of PonyOS, a small x86 teaching kernel, with proofs about whole runs.

* **Processes.** `Processes` is the process table of `systemcall.c` and `pit.c` as a state machine over whole system
  calls and interrupts (each enters through an interrupt gate, so it is one step up to its next `sti`; `terminal_read`
  and a halting root's clear, which run with interrupts on, are several steps in `System`).
  `CallStacks` proves that every run refines three call stacks of pids, one per terminal; `Forest` derives the shape of
  the process forest, that the running count never returns to 0, and that page entries, `tss.esp0` and the terminal
  numbers always agree with the current PCB; `Scheduler` proves round-robin fairness. `Kernel` is the same code in
  place, on arrays and page tables.
* **Terminals.** `Paging` is the page walk and the tables; `Console` runs the console routines of `lib.c` through it on
  physical bytes and proves that each changes exactly one of three logical screens; `TerminalRuns` lifts that to runs
  and shows the screens independent; `Scrollback` relates one screen to an unbounded row log. `LineEditor` and
  `Keyboard` add the line editor that shares cursors with program output.
* **Files.** `FileSystem`, `Directory` and `Loader` work on the raw bytes of the image; `FileCalls` is `open`, `read`
  and `close` over the descriptor tables of all processes (`Descriptors` is the table inside a PCB) and the directory
  index they share; `OpenFiles` is what programs can rely on in terms of the names they open, and `Listings` what
  directory reads return, over any interleaving. `Packing` builds images by plain concatenation and proves that the
  file system code gets every file back. `Execution` is `execute` against the image, and `Images` holds small images at
  which something goes wrong.
* **The whole machine.** `System` puts all of that under one sequence of events: boot, `execute`, `halt`, ticks,
  scancodes, terminal writes, the parts of terminal reads, stores to video memory, file calls and the parts of a halted
  root's clear, on one image. `SystemRuns` is what whole runs give a user who types: which lines reach their reader and
  which are lost. `TypedLines` says it in keys and characters. `SystemScreens` is what the runs show. `Computer` is the
  same machine in place, on the device, kernel, page tables, memory and file system code of the modules above.
* **User programs.** `Grep` is the sliding-buffer search; `Blink` and `BlinkPool` are the blink list of `fish`.
* **Library.** `Text` is number formatting, `Memory` the alignment-sensitive memory routines, `Words` shared types.

Pure specification functions say what a routine means; classes and methods do what the C or assembly code does to its
arrays and fields, and are proved against those functions; the results over runs are lemmas about the functions.

## Where the code does not keep a promise

* `read_data` computes in 32 bits. It returns the slice of the flat file if and only if the sum does not wrap onto a
  value inside the file and the offset is not so far past the end that the signed difference turns positive
  (`ReadsSliceIff`; `ReadsThatFail` gives an image and arguments for each). `execute`, and `read` with a non-negative
  size, are always on the good side (`SaneReads`, `ReadIsNext`). `read` with size -4096 at position 4096 of an 8192-byte
  file is not: it returns 0 before the end. With any size `read` still returns only the next bytes (`RunKeepsInv`).
* `do_one_file` cuts lines after 1024 characters. It agrees with a search of the whole file if and only if no longer
  line contains the string (`SameAsWholeFileIff`; `LongLineIsCut` is an input that shows the difference).
* `execute` takes a pid before it knows that loading succeeds. It leaks the pid exactly when the entry's inode number is
  out of range and stale stack bytes look like an executable, or when the file is an executable larger than the
  0x3B8000 bytes between the load address and the end of the user page, which faults in the kernel and stops the machine
  (`CommandLeaksIff`; `LeaksHappen` gives an image for each, the second one well formed). A leak also leaves the caller
  on another process's page (`LeakBreaksAgreement`). `SafeIff` says of which images neither can happen, and `ImageRun`
  that every run on such an image is in order.
* A terminal root's halt clears the screen but not the line being edited. The cursor stays ahead of the line exactly
  when that line is empty (`RootClearIff`, `RootClearCanStrandTheCursor`).
* `terminal_read` returns the line length only under the condition of `ReadReturnsLengthIff`; Shift with Enter or Space
  stores a NUL. The print buffer is shared with output: after a write on the terminal a read gets the program's own
  text, not the line (`MailIsLatest`, `ReadGetsLatest`).
* `terminal_read` copies and then clears the ready mark with interrupts on. An entered line that no later Enter or write
  replaces is lost if and only if its Enter finds a read on that terminal that has already copied bytes which differ
  from the line's (`LineLostIff`): the reader gets the old text or a mix, and the end of its read clears the new line's
  mark (`LineCanBeLost`).
* A halting root clears the displayed screen, which is its own exactly when its terminal is displayed (`ClearHits`). A
  display switch inside that clear sends the rest of the blanks to the other terminal's page and leaves its cursor
  where it was (`SwitchMovesClear`).
* All processes share one directory index. A listing is in order and complete exactly when the directory reads by anyone
  since the last directory open are, at each of the reader's reads, as many as its own (`ListingIff`); that is so if
  nobody else opens or reads a directory meanwhile (`UndisturbedListing`), but another process's open before the first
  read is harmless too (`Disturbed`).
* A program can store into another terminal's screen, exactly through the backing page of a terminal that is neither its
  own nor displayed (`UserStoreHits`, `OutputStaysHome`).
* `erase_last_ch_display` at the origin moves the cursor off the screen and writes into terminal 2's page
  (`EraseDisplay`).
* `mp1_ioctl_add` accepts location 0, which is also the free mark: the next add, wherever it is, makes the list a cycle
  (`AddTwice`). `mp1_ioctl_sync` pokes the off-character whatever the status (`SyncPaintsIff`).
* A blink length of 0, or above 32768, lasts one tick (`Phase`).

## Assumptions

* PCB memory is zero at power-on, so every `child` pointer starts NULL; `pcb_init` never resets it, and that it is NULL
  for every process not running is part of the refinement invariant.
* The image is well formed where a row says so: structures inside the image, file lengths of at most 1023 blocks, used
  block numbers in range, inode numbers in range, file types 0, 1 or 2. Runs of the whole machine are on images that are
  also safe in the sense of `SafeIff`.
* User buffers are large enough and disjoint from video memory; `terminal_write` gets fewer than 2050 bytes; C strings
  passed in hold no NUL before their end.
* grep: the file holds no NUL, `read` is short only at the end of the file, and the uninitialised byte `data[1024]` does
  not happen to be a newline.

## Model

| member | source | states |
|---|---|---|
| `CallStacks.RunRefines` | student-distrib/systemcall.c:77-222 | every run from power-on of boot, execute, halt, tick, spawn and display steps refines a run of three call stacks: a start pushes the lowest free pid, a return pops, a root's halt empties its stack and spins, a tick gives the turn to another top |
| `CallStacks.StepRefines` | student-distrib/systemcall.c:91-222 | one step: it never follows a bad parent pointer, and the new process table refines the abstract successor |
| `CallStacks.StartRefines` | student-distrib/systemcall.c:161-207 | a successful `execute_with_terminal_num` links PCBs exactly as a push on one stack, with the lowest free pid |
| `CallStacks.HaltRefines` | student-distrib/systemcall.c:91-118 | the restart, terminal-root and return-to-parent branches are: nothing, an emptied stack, a pop |
| `CallStacks.SpawnRefines` | student-distrib/keyboard.c:85-110 | Alt-F2 and Alt-F3 start at most one shell per terminal, ever, on an empty stack |
| `CallStacks.ScanFindsNearest` | student-distrib/pit.c:57-63 | the scan of the tick returns the running leaf at the least cyclic distance, or the current pid if there is no other |
| `CallStacks.TickRefines` | student-distrib/pit.c:34-88 | a tick gives the turn to the nearest top of stack and changes no stack |
| `Forest.ReachableIsWellFormed` | student-distrib/systemcall.c:77-222 | every reachable state: the count equals the set status bytes; every running process climbs through distinct running parents of its terminal, each with it as child, to a terminal root; child pointers point back and are NULL for the others; one leaf per terminal at most; the current process is a leaf or a halted root |
| `Forest.RestartIsRoot` | student-distrib/systemcall.c:94-103 | the restart branch of halt is only taken by a terminal root |
| `Forest.SomeLeaf` | student-distrib/pit.c:56-63 | whenever something runs, some running process has no child |
| `Forest.TickLeavesTheDead` | student-distrib/pit.c:56-76 | the tick after a terminal root's halt leaves the dead process for a running leaf |
| `Forest.NeverEmptyAgain` | student-distrib/systemcall.c:94-106 | once a process has run, no later state has running count 0 |
| `Forest.ExecuteLeaksIff` | student-distrib/systemcall.c:161-184 | `execute` is all or nothing, except that it fails with a changed state exactly when a pid was free and loading fails or faults after it was taken |
| `Forest.ReachableAgrees` | student-distrib/systemcall.c:114-207 | in every reachable state the user page entry, `tss.esp0`, the active terminal and both video entries agree with the current PCB |
| `Forest.StepAgrees` | student-distrib/pit.c:65-76 | each step keeps that agreement, halt's return included, which does not set the active terminal |
| `Forest.LeakBreaksAgreement` | student-distrib/systemcall.c:181-184 | a leak, and nothing else in `execute`, loses the agreement |
| `Forest.MemoryIsDisjoint` | student-distrib/systemcall.c:33-36 | kernel stacks of distinct pids, their tops and their 4 MB task frames never overlap |
| `Scheduler.RoundRobin` | student-distrib/pit.c:29-88 | with L ready processes, the current among them, L ticks run each exactly once and return to the start |
| `Kernel.Core.GetEmptyPid` | student-distrib/systemcall.c:77-86 | returns the lowest pid from 1 whose status byte is clear, or -1 |
| `Kernel.Core.PcbInit` | student-distrib/systemcall.c:53-72 | in place: pid set, slots 0 and 1 the terminal, the others closed as `System.NewProcessTable` spells out, nothing else touched |
| `Kernel.Core.TakePid` | student-distrib/systemcall.c:161-182 | in place: takes the pid, initialises its PCB and maps its page and terminal as `Claim` says, changes no screen |
| `Kernel.Core.EnterProcess` | student-distrib/systemcall.c:194-207 | in place: links the PCB and makes it current as `Enter` says |
| `Kernel.Core.HaltProcess` | student-distrib/systemcall.c:91-118 | in place: makes exactly the transition `HaltCurrent`, changes no screen |
| `Kernel.Core.PitHandler` | student-distrib/pit.c:34-88 | in place: the scan ends and makes exactly the transition `TimerTick`, changes no screen |
| `Kernel.Core.UserReachesOwnMemory` | student-distrib/paging.c:78-172 | process isolation: while the mapping agrees with the current PCB, a user access that does not fault reaches the current process's 4 MB frame or the low 4 MB, never another process's frame or the kernel page |
| `Paging.Tables.Init` | student-distrib/paging.c:104-143 | the loops build tables that are live: null page absent, low identity except the two video pages, one kernel page, user window, no other page |
| `Paging.Tables.TranslateLive` | student-distrib/paging.c:78-172 | what every linear address reaches, in kernel and user mode, while the tables are live |
| `Paging.Tables.SetupTaskPage` | student-distrib/paging.c:166-172 | changes one directory entry, to the 4 MB frame of the pid |
| `Paging.Tables.SetActiveTerminal` | student-distrib/paging.c:186-197 | changes the two video entries to the displayed or the backing frame |
| `Console.Video.ShiftUpAt` | student-distrib/lib.c:227-276 | in place, through the page tables: one page becomes its scrolled version, all other memory is untouched |
| `Console.Video.PutcScroll` | student-distrib/lib.c:282-299 | changes only the active terminal's logical screen, by `Putc`; its scroll loop ends |
| `Console.Video.PutcScrollDisplay` | student-distrib/lib.c:318-334 | changes only the displayed terminal's logical screen, by `Putc` |
| `Console.Video.PutsScroll` | student-distrib/lib.c:369-381 | a whole string, on the active terminal's logical screen only |
| `Console.Video.EraseDisplay` | student-distrib/lib.c:336-346 | changes only the displayed logical screen, one cell back; at the origin it leaves the screen and spills into terminal 2's page |
| `Console.Video.ClearDisplay` | student-distrib/lib.c:58-66 | changes only the displayed logical screen, to blanks with the cursor at the origin |
| `Console.Video.BlankDisplay` | student-distrib/lib.c:61-64 | any part of the clearing loop blanks those cells of whatever screen is displayed, and moves no cursor |
| `Console.Video.UserStore` | student-distrib/systemcall.c:340-346 | what a user store at any address of the video window does to the three logical screens |
| `Console.UserStoreHits` | student-distrib/paging.c:78-103 | a store changes a terminal's screen exactly through the vidmap page if it is active, or through its own backing page if it is not displayed |
| `Console.Video.UserPoke` | student-distrib/systemcall.c:340-346 | a user store through the page vidmap hands out changes only the active terminal's logical screen |
| `Console.Video.SetActive` | student-distrib/lib.c:36-43 | changes no logical screen and re-establishes both video entries |
| `Console.Video.SetDisplay` | student-distrib/lib.c:45-52 | the two page copies and the remapping change no logical screen |
| `Console.DisplayedIsVideo` | student-distrib/lib.c:45-52 | the displayed terminal's screen is the physical video page |
| `Console.SwitchKeepsScreens` | student-distrib/lib.c:47-49 | saving the displayed page and loading another one leaves all three logical screens the same |
| `TerminalRuns.Run` | student-distrib/lib.c:36-346 | any sequence of console operations on physical memory reaches the screens of the abstract run |
| `TerminalRuns.ScreensAreIndependent` | student-distrib/lib.c:36-346 | after any run each screen is what its own events alone make of it |
| `Scrollback.OutputShows` | student-distrib/lib.c:227-299 | for every output string the visible characters and the cursor are a 25-row window onto an unbounded row log with lazy wrap, a newline during a pending wrap being absorbed |
| `Scrollback.PutShows` | student-distrib/lib.c:282-296 | the same for one character |
| `Scrollback.HistoryStays` | student-distrib/lib.c:227-249 | the log never rewrites a finished row |
| `Scrollback.ClearedShows` | student-distrib/lib.c:58-66 | a cleared screen shows the empty log |
| `Scrollback.TextShows` | student-distrib/lib.c:282-296 | text without line feeds and carriage returns fills the cells from the cursor on, character by character, in attribute 7 |
| `Scrollback.LineFeeds` | student-distrib/lib.c:282-296 | line feed and carriage return both start a new line; on the last one every row moves up and the last is blank |
| `LineEditor.RunKeepsAhead` | student-distrib/keyboard.c:75-144 | over every interleaving of keys, output and display switches, in which no root clears over a line being edited, 80*y + x is at least the line length on every terminal, so a backspace never leaves the screen |
| `LineEditor.ActKeepsAhead` | student-distrib/keyboard.c:113-144 | each such action keeps it, scrolling included |
| `LineEditor.RootClearIff` | student-distrib/systemcall.c:107-112 | the clear of a halting root keeps it exactly when the displayed line is empty |
| `LineEditor.RootClearCanStrandTheCursor` | student-distrib/systemcall.c:107-112 | a root that halts over one typed character breaks it |
| `LineEditor.EraseUndoesPut` | student-distrib/lib.c:318-346 | erasing after a character restores the screen, but for a scroll the character forced |
| `LineEditor.BackspaceUndoesType` | student-distrib/keyboard.c:113-142 | a backspace after a typed character restores line and screen, but for that scroll |
| `LineEditor.LineIsFold` | student-distrib/keyboard.c:113-144 | each terminal's line is the fold of append, backspace, clear and Enter over its own strokes |
| `Keyboard.Device.Scancode` | student-distrib/keyboard.c:62-144 | in place: modifiers, line buffer with zeros beyond the cursor, echo, hand-over and ready mark as specified, and the cursor invariant kept; Alt with a function key switches and spawns from the image and touches no line, print buffer or mark |
| `Keyboard.Device.EnterKey` | student-distrib/keyboard.c:126-134 | hands over exactly the line, zero-filled, marks it ready and starts an empty line, which `TypedLines.EnterHands` and `TypedLines.TwoLines` state in characters |
| `Keyboard.Device.BackspaceKey` | student-distrib/keyboard.c:136-142 | drops the last character from buffer and screen, or does nothing on an empty line |
| `Keyboard.Device.TerminalWrite` | student-distrib/keyboard.c:184-196 | prints on the active screen only, overwrites that terminal's print buffer, keeps lines and cursor invariant |
| `Keyboard.Device.CopyLine` | student-distrib/keyboard.c:216 | any part of the copy takes what the active terminal's print buffer holds at that time and touches no other byte |
| `Keyboard.Device.FinishRead` | student-distrib/keyboard.c:217-218 | clears the ready mark, whatever the buffer holds by then, and returns the C length of the caller's memory |
| `SystemRuns.LineLostIff` | student-distrib/keyboard.c:126-219 | over every run of the whole machine, the first read to end on a terminal after an Enter there gets the entered line, as far as it asked for, if and only if what a read there had copied before the Enter agrees with the line; its end clears the mark in any case |
| `SystemRuns.LineCanBeLost` | student-distrib/keyboard.c:210-219 | a run, from any state in which a read can begin on the displayed terminal, that loses a line after k copied bytes: the reader gets k old bytes and the line's others, and the line stays without its mark |
| `SystemRuns.LineArrives` | student-distrib/keyboard.c:126-219 | after an Enter that does not fall into a read's copying, over every run of the whole machine with no write or Enter on that terminal, the next read to end there gets exactly the line and its length, if its count exceeds it and no NUL was typed; and the length in no other case than `ReadReturnsLengthIff` says |
| `SystemRuns.MailIsLatest` | student-distrib/keyboard.c:126-219 | over every run a terminal's print buffer holds the last line entered or text written there, and is marked ready exactly if an Enter came after the last end of a read |
| `SystemRuns.ReadGetsLatest` | student-distrib/keyboard.c:184-219 | a read during which nobody enters a line on its terminal gets the text that was there when it began, which after a write is not the line |
| `Computer.EnterThenRead` | student-distrib/keyboard.c:126-219 | the same as `LineArrives` on the machine itself |
| `Keyboard.HandedIs` | student-distrib/keyboard.c:113-129 | what Enter itself adds to the line it hands over, by modifiers and fill |
| `Keyboard.ReadReturnsLengthIff` | student-distrib/keyboard.c:210-219 | the exact condition under which the returned value is the line length |
| `TypedLines.LineSinceReset` | student-distrib/keyboard.c:62-144 | over any run of the whole machine a terminal's line is exactly the characters typed there since the last Enter or Ctrl-L there |
| `TypedLines.HandsOwnCharacters` | student-distrib/keyboard.c:62-144 | so an Enter without Shift or Alt hands over those characters and a newline, and leaves an empty line |
| `TypedLines.TwoLines` | student-distrib/keyboard.c:62-144 | two lines typed key by key, one after the other, each hand over their own characters and no others |
| `TypedLines.EnterHands` | student-distrib/keyboard.c:126-134 | what one Enter does to print buffer, mark and line |
| `TypedLines.EditingKeys` | student-distrib/keyboard.c:75-144 | Ctrl-L empties the line, backspace drops its last character |
| `TypedLines.FunctionKeys` | student-distrib/keyboard.c:81-112 | Alt with F1, F2 and F3 displays terminal 0, 1 and 2 and leaves lines and print buffers alone |
| `TypedLines.Layout` | student-distrib/scancode.c:14-114 | which character each key types |
| `TypedLines.CaseIs` | student-distrib/keyboard.c:49-59 | a letter is upper case exactly when caps lock and Shift differ; the signs Shift gives |
| `TypedLines.PressAndRelease` | student-distrib/keyboard.c:65-74 | a key pressed and released leaves the others as they were; two presses of caps lock cancel |
| `FileSystem.ReadData` | student-distrib/fileSystem.c:92-148 | for all 32-bit arguments: -1 for a bad inode, otherwise the flat slice and its size in place, or one of the two 32-bit failures, with the rest of the buffer untouched; memory that ends too early is filled and then faults |
| `Packing.PackedIs` | student-distrib/fileSystem.c:16-65 | an image packed by plain concatenation (boot block, one inode block per file, then the data) is well formed, lists the names in order and holds every file's bytes |
| `Packing.PackedReads` | student-distrib/fileSystem.c:43-148 | on it a lookup finds a file by its name, and a read delivers that file's own bytes |
| `Packing.ReadPacked` | student-distrib/fileSystem.c:92-148 | the same in place |
| `FileSystem.CopyBlocks` | student-distrib/fileSystem.c:107-147 | the block loop copies the whole slice; its guard on the byte length never stops it early and block indices stay below 1023 |
| `FileSystem.ReadsSliceIff` | student-distrib/fileSystem.c:95-107 | the slice is delivered if and only if the 32-bit arithmetic neither wraps into the file nor turns positive past its end |
| `FileSystem.ReadFailures` | student-distrib/fileSystem.c:99-107 | in every file of 8192 bytes, and of 1 MB, a read that delivers nothing although bytes remain, and one that indexes past the inode |
| `Images.ReadsThatFail` | student-distrib/fileSystem.c:99-107 | two well-formed images and arguments at which a read does not deliver the slice |
| `FileSystem.SaneReads` | student-distrib/fileSystem.c:98-107 | offsets inside the file with lengths below 2^31 always deliver the slice |
| `Directory.ReadDentryByName` | student-distrib/fileSystem.c:43-65 | returns the first entry whose name equals the query cut to 32 characters, unterminated names included, or nothing |
| `Directory.Strncmp` | student-distrib/lib.c:643-657 | zero exactly when the compared bytes agree, otherwise the signed difference of the first characters that differ |
| `Directory.LookupFindsOwn` | student-distrib/fileSystem.c:43-65 | looking a listed name up returns its own entry if and only if no earlier entry has the same name |
| `Directory.LongQueries` | student-distrib/fileSystem.c:43-65 | queries with the same first 32 characters find the same entry, an unterminated 32-character name included |
| `Directory.ShortQueries` | student-distrib/fileSystem.c:43-65 | a shorter query finds the first entry of exactly that name |
| `Directory.Stream.Read` | student-distrib/fileSystem.c:223-233 | delivers the next name, terminated, and advances the shared index; 0 at the end |
| `Directory.Stream.ReadAll` | student-distrib/fileSystem.c:186-233 | reading an opened directory until 0, undisturbed, lists the names in table order up to the first empty one |
| `Directory.ListsEverything` | student-distrib/fileSystem.c:223-233 | the listing is the whole table if and only if no name is empty |
| `Listings.IndexIsCount` | student-distrib/fileSystem.c:186-233 | over any interleaving of calls by any processes the shared index is the number of directory reads by anyone since the last directory open by anyone, up to the table's end |
| `Listings.ListingIsByTurn` | student-distrib/fileSystem.c:223-233 | over any interleaving each of a reader's directory reads returns the entry of that number, or nothing past the end |
| `Listings.ListingIff` | student-distrib/fileSystem.c:223-233 | with distinct non-empty names the listing is the table in order exactly when that number is, at each read, the number of the reader's own reads before |
| `Listings.UndisturbedListing` | student-distrib/fileSystem.c:186-233 | after a directory open, a reader whom nobody disturbs lists the table in order |
| `Listings.Disturbed` | student-distrib/fileSystem.c:186-233 | another process's directory read makes the next read skip an entry, its directory open makes it start again |
| `Loader.LoadExecutable` | student-distrib/fileSystem.c:243-248 | loading completes exactly when the file exists and fits the window, which then starts with the whole file; a larger file fills the window and faults; a bad inode gives -1 and no change |
| `Loader.LoadsWholeFile` | student-distrib/fileSystem.c:243-248 | the maximal read delivers the whole file, whatever its size |
| `Loader.CleanIff` | student-distrib/systemcall.c:149-184 | exactly which files make loading fail, and which make it fault, after the magic-number test |
| `Loader.LoadsIff` | student-distrib/systemcall.c:149-184 | a program can start exactly when its file exists, fits the window and shows the magic number |
| `Execution.ExecuteCommand` | student-distrib/systemcall.c:136-222 | in place, on the image: lookup, magic test, pid, page, load and links make exactly the transition the image calls for; the window holds the whole file, as much as fits, or what it held |
| `Execution.AltFunctionKey` | student-distrib/keyboard.c:81-112 | in place: switches the display without changing any logical screen, then spawns a shell from the image as `SpawnShell` says |
| `Execution.CommandLeaksIff` | student-distrib/systemcall.c:142-222 | when `execute` of a command leaks a pid, and when it starts a process, in terms of the image, the command and the stale stack bytes |
| `Execution.SafeIff` | student-distrib/systemcall.c:142-184 | no command can leak a pid, whatever the stack holds, if and only if every entry a command can name has an inode and none is an executable larger than the window |
| `Execution.ImageRun` | student-distrib/systemcall.c:77-222 | on such an image every run from power-on, whatever is executed, refines the call stacks, with a well-formed forest and an agreeing mapping |
| `Execution.LeaksHappen` | student-distrib/systemcall.c:161-184 | an image and stack bytes for which the pid leaks with -1, and a well-formed image for which the load faults, from every state with a free pid |
| `Execution.PackedCommand` | student-distrib/systemcall.c:142-149 | on a packed image a command's first word, whatever follows it, names the file that is loaded |
| `Execution.WindowIsMapped` | student-distrib/paging.c:166-172 | after the new page is mapped the addresses from the load address on reach the new process's frame, for exactly the window's length |
| `FileCalls.RunKeepsInv` | student-distrib/systemcall.c:228-335 | after any interleaving of calls by any processes, the bytes each regular descriptor returned since its open are the file's prefix up to its position, and descriptors 0 and 1 are still the terminal |
| `FileCalls.ReadIsNext` | student-distrib/systemcall.c:268-285 | a read returns the next bytes, as many as asked for or left; 0 for a positive size exactly at end of file |
| `FileCalls.ReadGoesOn` | student-distrib/systemcall.c:268-285 | for every 32-bit size, negative ones included, a read returns only next bytes of the file |
| `FileCalls.CloseUndoesOpen` | student-distrib/systemcall.c:228-335 | open takes the lowest closed slot, never 0 or 1, and close gives the table of open slots back |
| `OpenFiles.RunIsKnown` | student-distrib/systemcall.c:228-335 | over any interleaving, a descriptor from 2 on is open exactly if its process opened it since its start and has not closed it, and what it has returned since is the beginning of the file of the first entry whose name is the first 32 characters of the name it was opened under |
| `OpenFiles.ReadAnswers` | student-distrib/systemcall.c:245-285 | a descriptor opened on a type 2 entry reads the next bytes of that entry's file, on type 1 the name at the shared index, on type 0 what the RTC answers |
| `OpenFiles.OtherAnswers` | student-distrib/systemcall.c:268-335 | read returns -1 on what the process has not opened, on 1 and outside the table; close succeeds exactly on what it has opened |
| `OpenFiles.OpenAnswers` | student-distrib/systemcall.c:228-263 | open returns the lowest descriptor from 2 on that the process has not open, and -1 exactly if the name does not exist or there is none |
| `OpenFiles.OpenThenRead` | student-distrib/systemcall.c:228-285 | the first read after an open of a regular file returns its first bytes |
| `OpenFiles.PackedOpenThenRead` | student-distrib/systemcall.c:228-285 | on a packed image these are the bytes packed under that name |
| `OpenFiles.OpensAreNumbered` | student-distrib/systemcall.c:53-263 | whatever an earlier owner of its pid left open and whatever others do, a process that only opens gets 2, 3, 4, ... |
| `FileCalls.OthersUntouched` | student-distrib/systemcall.c:228-335 | a call changes no other descriptor and no other process's table |
| `FileCalls.StepFiles` | student-distrib/systemcall.c:53-72 | process steps touch a descriptor table only to initialise it for the pid they take |
| `FileCalls.FilesFrame` | student-distrib/systemcall.c:228-335 | file calls never disturb the process forest |
| `FileCalls.SysOpen` | student-distrib/systemcall.c:228-263 | in place: the lowest closed slot gets the entry's inode, position 0 and routines, a directory restarts the shared index, or -1 and no change; what that means to a program is `OpenFiles.RunIsKnown` |
| `FileCalls.SysRead` | student-distrib/systemcall.c:268-285 | in place, for every descriptor and size: range and open checks, the file's or directory's bytes in the buffer, position and directory index advanced |
| `FileCalls.SysClose` | student-distrib/systemcall.c:328-335 | in place: closes slots 2 to 7 that are open, -1 otherwise |
| `System.RunIsGood` | student-distrib/systemcall.c:77-346 | over every run of the whole machine from a good state: the process table refines the call stacks, the mapping agrees with the current PCB, only running processes without a child are inside a read, and every descriptor of a running process is faithful to its file |
| `System.EventIsGood` | student-distrib/systemcall.c:77-346 | each enabled event follows no bad pointer and keeps that |
| `System.ReadsAreInFile` | student-distrib/systemcall.c:268-285 | every open descriptor of every running process lies inside its file, so a read of a regular one, for any size, neither fails nor strays |
| `System.NewProcessTable` | student-distrib/systemcall.c:53-72 | whatever event starts a process, and whatever its pid's table held, it has the terminal on 0 and 1 and 2 to 7 closed |
| `SystemRuns.LineIsFold` | student-distrib/keyboard.c:62-144 | over every run of the whole machine each terminal's line is the fold of the strokes its scancodes made while it was shown |
| `SystemScreens.VisibleIff` | student-distrib/systemcall.c:107-112 | an event keeps every cursor on its screen and ahead of its line if and only if it does not start a root's clear over a line being edited |
| `SystemScreens.RunIsVisible` | student-distrib/keyboard.c:113-144 | so do all runs without such a clear |
| `SystemScreens.ScreenIsOwn` | student-distrib/keyboard.c:113-196 | over every such run each screen is what the keys typed while it was displayed, the output of processes whose PCB names its terminal, the stores into its page, and the parts of halted roots' clears while it was displayed make of it |
| `SystemScreens.OutputStaysHome` | student-distrib/keyboard.c:184-196 | a program's output changes no screen but that of its own PCB's terminal; its stores do exactly through the backing page of a terminal neither its own nor displayed |
| `SystemScreens.WriteShows` | student-distrib/keyboard.c:184-196 | what a program writes without line feeds shows on its own terminal from the cursor on, character by character |
| `SystemScreens.KeyShows` | student-distrib/keyboard.c:113-123 | a key without modifiers shows its character at the cursor of the displayed terminal |
| `SystemScreens.ClearHits` | student-distrib/systemcall.c:107-112 | a halted root's clear changes its own terminal's screen exactly when that terminal is displayed, and no screen that is not |
| `SystemScreens.SwitchMovesClear` | student-distrib/systemcall.c:107-112 | Alt-F1 inside such a clear sends the remaining blanks to terminal 0's page without moving its cursor |
| `Computer.PowerUp` | student-distrib/paging.c:104-143 | the tables, screens, process table and line buffers as initialised are a good state |
| `Computer.Hardware.Step` | student-distrib/systemcall.c:77-346 | any enabled event on device, kernel, page tables, memory and file system code makes the specified transition, shows the specified screens and gives the specified answer |
| `Computer.Hardware.Run` | student-distrib/systemcall.c:77-346 | so does any run |
| `Computer.Hardware.UserReachesOwnMemory` | student-distrib/paging.c:78-172 | process isolation in every reachable state |
| `Grep.DoOneFile` | syscalls/ece391grep.c:9-66 | for every NUL-free file the reported lines are exactly the 1024-cut pieces of the file that contain the string, in order and once each; it terminates |
| `Grep.SameAsWholeFileIff` | syscalls/ece391grep.c:9-66 | that is the search of the whole file if and only if no line of more than 1024 characters contains the string |
| `Grep.LinesAreTheFile` | syscalls/ece391grep.c:33-40 | the lines of the whole-file search are the file, cut at its newlines |
| `Grep.LongLineIsCut` | syscalls/ece391grep.c:33-56 | a 1025-character line for which the two differ |
| `Grep.ScanBuffer` | syscalls/ece391grep.c:28-57 | one pass reports every piece that ends in the buffer and keeps exactly the unfinished tail |
| `Grep.SearchLine` | syscalls/ece391grep.c:41-51 | finds the string in a line exactly when it occurs there |
| `Grep.Strcpy` | syscalls/ece391support.c:14-17 | moves the tail to the front although the ranges may overlap |
| `Blink.AddedEntryBlinks` | fish/blink.S:49-184 | n ticks after it was added an entry has the location, characters and lengths it was given and is on exactly when n mod (on+off) < on, over any interleaving that does not touch its location |
| `Blink.Phase` | fish/blink.S:60-86 | status and countdown in closed form for all 16-bit lengths |
| `Blink.SyncedEntriesStay` | fish/blink.S:267-275 | after a sync both entries keep equal status and countdown until one is touched, the first as if there had been no sync, the second with its own location and characters |
| `Blink.TickPaints` | fish/blink.S:68-86 | with distinct locations a tick keeps every cell showing its entry's current character |
| `Blink.SyncPaintsIff` | fish/blink.S:277-285 | the character sync pokes is right exactly when the status is off or both characters agree |
| `Blink.RemovedIsGone` | fish/blink.S:187-237 | with distinct locations a remove takes away the entry found there and no other |
| `BlinkPool.Pool.Add` | fish/blink.S:105-184 | takes the first free slot, whatever the links; with a non-zero location it is cons on a list; fails exactly for a location outside the screen or a full pool; location 0 leaves a list slot marked free |
| `BlinkPool.Pool.Remove` | fish/blink.S:187-237 | drops the first match and frees its slot; the previous-pointer search ends |
| `BlinkPool.Pool.Find` | fish/blink.S:351-379 | returns the slot of the first match, or NULL |
| `BlinkPool.Pool.Sync` | fish/blink.S:240-300 | copies lengths, countdown and status, pokes the off-character, fails if either is missing |
| `BlinkPool.Pool.Tick` | fish/blink.S:49-99 | ticks every entry once, in list order, and pokes exactly the cells that toggle |
| `BlinkPool.Pool.Malloc` | fish/fish.c:160-170 | returns the first slot with location 0, or NULL if there is none |
| `BlinkPool.SomeSlotFree` | fish/fish.c:160-170 | with distinct live locations in 1..1999 one of the 2000 slots is free |
| `BlinkPool.Pool.Run` | fish/blink.S:49-300 | over every run whose adds are at locations in 1..1999 that are not live, no add fails, live locations stay distinct, and pool and screen are those of the abstract run |
| `BlinkPool.AddedCellBlinks` | fish/blink.S:49-184 | after an add, over any such run that does not touch its location, the cell shows the on-character given in the first onLength of every onLength + offLength ticks and the off-character given in the others |
| `BlinkPool.AddThenRun` | fish/blink.S:49-184 | the same on pool and screen in place |
| `BlinkPool.AddTwice` | fish/fish.c:160-170 | after an add at location 0 the next add, wherever it is, takes the same slot, and no list has the links that result |
| `Text.RoundTrip` | student-distrib/lib.c:415-464 | parsing the printed form in its radix gives the value back, and only 0 starts with a zero |
| `Text.Itoa` | student-distrib/lib.c:415-445 | in place, for radix 2 to 36: the buffer holds the printed form and a NUL, the rest is untouched |
| `Text.StrRev` | student-distrib/lib.c:451-464 | reverses in place |
| `Text.PaddedHex` | student-distrib/lib.c:125-135 | always eight digits that stand for the value |
| `Memory.Memset` | student-distrib/lib.c:483-517 | for every alignment and length writes exactly what a byte loop would |
| `Memory.Memcpy` | student-distrib/lib.c:566-603 | the head, doubleword and tail copy writes nothing but the destination, and is a byte copy whenever that does not start inside the source |
| `Memory.Memmove` | student-distrib/lib.c:612-630 | the right final memory for every overlap |

## Left out

- Raw register and stack switching, control registers, descriptor tables, PIC, PIT and RTC ports: only the resulting change of current process and mapping is modelled.
- Waiting in `terminal_read` and `rtc_read`: a read begins when a line is ready.
- `getargs` and the argument buffers, `vidmap`'s pointer check, `write` on descriptors other than the terminal: thin wrappers.
- `update_cursor`, `putc`, `puts` and the boot-time cursor: not part of the multi-terminal state.
- Exception handlers: they stop the machine, so nothing is said about what follows a fault in the kernel.
- `add_frames`, `mp1_ioctl_find` and the other user programs: thin loops over modelled operations.
- The messages of `do_one_file` for a failed open or read, and the file name it prints before each line.
- `ece391_itoa` and `ece391_strrev`: the same loops as `itoa` and `strrev`.
- Memory.Memcpy: what a destination that starts inside the source ends up holding is not said; no caller does that.
- TerminalRuns.Run: runs in which an erase would leave the screen are not considered; `LineEditor.RunKeepsAhead` shows when its one caller keeps to that.
- SystemScreens.ScreenIsOwn: says nothing of screens after a halting root has cleared over a line being edited, when a backspace may write outside the page; `SystemScreens.VisibleIff` shows that these runs, and only these, come to that. Lines, print buffers, processes and files are covered in all runs.
- Computer.Hardware.Run: asks for the same, because the cursors are part of the machine.
