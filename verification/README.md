# OpenFerain OS: a verified model of the kernel's core

This project models six parts of the OpenFerain OS kernel and proves what they do for all inputs.

- **The text console.** `printf`, `println` and the scrolling behind them over video memory. For every run of calls from any screen, rows 0..22 are a 23-row window on an ideal unbounded page, colours included, and rows 23 and 24 keep their status content (`ConsoleSpec`, `Console`, `ConsolePage`).
- **The allocator.** Two bitmaps of 2^20 bits, written as bytes by XOR and scanned as words, and `creat_task`, which draws on them and then stores entries, a task record and descriptors at addresses formed from what it was given. Its runs are exact while those stores miss the bitmaps, it is proved when they do, and the run from boot is known up to and past the first that does not (`Memory`, `Bitmap`, `TaskStores`, `Tasks`, `TaskRuns`, `TaskMemory`).
- **The boot tables.** Descriptors, gates, page tables and bitmaps in one flat memory, read back with the processor's own decoding (Intel SDM Volume 3A, sections 3.4.5, 4.3 and 6.11) (`Tables`, `Descriptors`, `Boot`).
- **SHA-256.** The in-place loop against FIPS 180-4, the reversibility of its parts, and the printed digest; the reference's constants are proved from their definition and its digest of "abc" is the standard's (`Fips180`, `FipsConstants`, `FipsVector`, `ShaStructure`, `Sha256`, `HexDigits`).
- **The shell line editor.** Key handlers over a fixed buffer against a stack of characters and an exact account of what the buffer holds after the line; the commands, their arguments, and when they read beyond the buffer (`LineModel`, `Commands`, `LineEditor`).
- **Decimal printing and PCI enumeration** (`Decimal`, `PciModel`, `Pci`).

Code that updates globals or memory is a class or a method over an array, proved against functions on values; the whole-run results are lemmas about those functions. `CTypes` holds the C integer types and NUL-terminated strings. Addresses, lengths and counts are numbers with their width written out; memory contents, masks and rotations are bit-vectors. `dafny verify dfyconfig.toml` checks everything.

## What the proofs found

- `printf` keeps its text on the screen exactly when `vmx + len < 1840`. Beyond that `vmy` underflows; up to `vmx + len = 20319` the screen then only scrolls and nothing of the text is on it.
- `creat_task` takes page numbers to addresses by a shift of 3, so its own stores can land in the two bitmaps. Whether a call's stores miss them is an exact condition on its task number and its second and third page. From boot they miss for the first 331605 calls; the next writes 0x00069005 into the task bitmap, and the call after it hands out task number 1048543, which call 32 already did. (Calls are numbered from 0.)
- All this is for a flat memory. Under the page tables of boot the first call already stores at linear address 0x7FFFF4, where the page walk faults. No C source of the repository calls `creat_task`.
- A call that finds one or two free pages and no third keeps them marked used.
- Messages longer than 55 bytes are never compressed: they all get the digest made of the doubled initial values.
- After an Enter on a blank line the typed blanks stay in the buffer. The choice of the command is not affected, but `pr` and `hash sha256` take the blanks that follow the line as part of their argument: after five blanks and Enter, `pr x` prints `x` and a blank.
- A line of 126 characters is stored inside the buffer; choosing its command reads beyond it exactly when the line does not end in a blank and is, trimmed, the beginning of a command's name. With at most 125 characters only a command that needs an argument and ends just before the last cell does.
- A backspace with 63 or 64 characters held puts `line_char_num` and `line_num` out of step with the line, and no other key does.
- GDT entries 0 and 3 are called null in the code's comments but are stored with the present bit. The guard of `set_gd` compares an entry number with a byte limit: of the numbers it admits, exactly 1024..1279 overwrite an interrupt gate.
- The class lists of PCI enumeration take one entry more than their arrays hold: the cell past an array is written exactly when the table holds more of its class than the array has cells, as with 17 bridges. Base register 0 of a device is never written, the other five are always 0.

## Model

| member | source | states |
|---|---|---|
| `CTypes.StrLen` | Include/stdio.h:62-63 | The loop returns the length of the text before the first NUL. |
| `ConsoleSpec.PlanStaysIffFits` | Include/stdio.h:41-60 | For every cursor and every length: the linear position is conserved, the text ends in rows 0..22 and `vmy` does not underflow exactly when vmx+len < 23*80. |
| `ConsoleSpec.WrapsReach` | Include/stdio.h:46-56 | The closed form of the wrapping loop with its 8-bit `vmy`, after any number of turns. |
| `ConsoleSpec.PlanByWraps` | Include/stdio.h:41-60 | The two loops together reach the closed-form plan: scroll count, starting row, final cursor. |
| `ConsoleSpec.ScrollsByRow` | Include/asm/interrupt.h:294-307 | n scrolls, told from the bytes before them: rows 0..22 move up n rows with their attributes; a row that comes in is blank and has the attributes row 22 had. |
| `ConsoleSpec.OverlongTextIsLost` | Include/stdio.h:41-89 | For vmx+len from 1840 to 20319 the call only scrolls, vmy+(vmx+len)/80-22 times: nothing of the text is on the screen. |
| `Console.Console.CursorSet` | Include/asm/interrupt.h:266-275 | The two register bytes together are the linear offset modulo 2^16. |
| `Console.Console.VideoIsrPrintString` | Include/asm/interrupt.h:276-293 | Of the screen exactly the cells of the text change, each to its character and colour, starting at the packed position, for every length whose addresses do not wrap around. |
| `Console.Console.VmScolling` | Include/asm/interrupt.h:294-307 | On the old bytes: rows 1..22 move to rows 0..21 with their attributes; the characters of row 22 become blanks and those of row 23 dashes; the attributes of both and all of row 24 stay. |
| `Console.Console.BackIntoRows` | Include/stdio.h:42-45 | Scrolls once for each row by which the cursor lies below row 22. |
| `Console.Console.WrapRows` | Include/stdio.h:46-56 | The wrapping loop reaches the closed form, with one scroll for each row beyond the last. |
| `Console.Console.TestScolling` | Include/stdio.h:41-60 | For every length and cursor: exact scroll count, starting cell and final cursor. |
| `Console.Console.SetCursor` | Include/stdio.h:19-30 | `vmx`, `vmy` and the hardware cursor agree. |
| `Console.Console.Printf` | Include/stdio.h:61-73 | For every text: one call makes exactly the room the plan says and draws the C string from the starting cell in the current colour, as far as it is on the screen. |
| `Console.Console.Println` | Include/stdio.h:74-89 | As printf, then column 0 of the next row, which may be row 23. |
| `Console.Console.ShellInit` | Sources/init/init.c:132-146 | Row 23 is the dash line afterwards, whether or not the welcome text scrolls; the colour is back at 0x07. |
| `ConsolePage.ScrollMovesWindow` | Include/asm/interrupt.h:294-307 | One scroll is the ideal window moving down one row. |
| `ConsolePage.DrawAppends` | Include/asm/interrupt.h:276-293 | Drawing at the cursor is appending to the page. |
| `ConsolePage.WindowFollowsPlan` | Include/stdio.h:41-60 | The planned scrolls move the window exactly as far as the end of the text needs. |
| `ConsolePage.CallRefines` | Include/stdio.h:61-89 | One printf or println: the screen goes on showing the page, window and cursor included. |
| `ConsolePage.RunRefines` | Include/stdio.h:41-89 | For every run of calls within the bound: every character of rows 0..22, and the colour of every printed one, is that of the window on the ideal page. |
| `ConsolePage.RunFromAnyScreen` | Include/stdio.h:41-89 | So from any screen contents and any cursor in rows 0..22, or at the start of row 23: the cells before the cursor count as page cells not yet written. |
| `ConsolePage.RunScrollsToWindow` | Include/stdio.h:41-89 | The window starts at the total number of scrolls of the run. |
| `ConsolePage.RunPlacesCursor` | Include/stdio.h:19-30 | After any run the hardware cursor is the end of the page, seen from the window. |
| `ConsolePage.FitIsAPropertyOfThePage` | Include/stdio.h:46-56 | Whether a run stays within the bound depends only on the ideal positions and lengths. |
| `ConsolePage.WindowIsLazy` | Include/stdio.h:41-60 | Over any run the window's last row is the row where the last text ends, unless the window has not moved. |
| `ConsolePage.RunKeepsAttributes` | Include/asm/interrupt.h:276-307 | For every run within the bound, the attribute of every cell of rows 0..22: the colour of the call that wrote its page cell; else, for a row that scrolled in, what the last row had in its column before that call; else the one found at the start. |
| `ConsolePage.BottomRowKeepsColor` | Include/asm/interrupt.h:294-307 | For every run within the bound, the attribute of a cell of row 22 is the colour of the last call that drew there, or the one found at the start if none did. |
| `ConsolePage.RunKeepsStatusRows` | Include/asm/interrupt.h:300-305 | No run changes row 24 or the attributes of row 23; its characters become dashes once anything scrolls. |
| `ConsolePage.DashLineStays` | Sources/init/init.c:132-141 | Once row 23 is the dash line, every later run within the bound keeps it. |
| `Memory.BitOfJoined` | Include/asm/task.h:88-91 | Bit j of a little-endian word is bit j%8 of byte j/8. |
| `Memory.FlipFlipsOneBit` | Include/asm/task.h:65-68 | The XOR flips one bit of the byte and undoes itself. |
| `Bitmap.WordViewAgrees` | Include/asm/task.h:63-98 | What the word-wise scan reads is what the byte-wise write stores. |
| `Bitmap.FlippedFlipsOneBit` | Include/asm/task.h:63-70 | A write flips one bit of the map, touches nothing outside the map, and two writes of the same index cancel. |
| `Bitmap.WriteFlipsOneBitOfWords` | Include/asm/task.h:63-98 | A byte-wise write of index i flips exactly bit i%32 of word i/32 as the scans read it. |
| `Bitmap.MapWrite` | Include/asm/task.h:55-70 | The memory after a write of either map. |
| `Bitmap.GetAvailable` | Include/asm/task.h:71-98 | The scan returns the greatest free index, and the sentinel exactly when all 2^20 bits are set. |
| `Tasks.TakenAreTheGreatest` | Include/asm/task.h:85-98 | n successive allocations give distinct, strictly decreasing, previously free indexes, above all that stay free, and lower the free count by exactly their number. |
| `Tasks.TakeInTurn` | Include/asm/task.h:55-98 | On memory: n scans and writes of one bitmap in turn find exactly those indexes, remove exactly them from its free set, and leave the other bitmap and all other memory alone. |
| `Tasks.WritesAreIndependent` | Include/asm/task.h:55-70 | A write of one bitmap adds or removes one index of its free set and leaves the other bitmap and all other memory alone. |
| `Tasks.CreatTask` | Include/asm/task.h:99-186 | On a flat memory, stores included: which call succeeds and what it gets; a failing call leaves the bitmaps as its writes and the one it takes back say; after a success every bit outside the bytes stored to is as the bitmap writes say, the task record, its two descriptors and the local table hold their stated values, and besides, memory changes only at the fixed places of the tables. |
| `TaskStores.StoresMissMapsIff` | Include/asm/task.h:133-184 | The stores whose place depends on what was allocated miss both bitmaps if and only if task number, second and third page meet the stated bounds. |
| `TaskStores.StoresBelow4MBIff` | Include/asm/task.h:133-184 | They stay below 4 MB, where the tables of boot map them, if and only if these other bounds hold. |
| `TaskRuns.CallIsAllOrFull` | Include/asm/task.h:99-131 | A call succeeds exactly when a task number and three pages are free; what its bitmap writes do: take exactly those, or, for lack of pages, leave the task numbers as they were and the page bitmap full. |
| `TaskRuns.FailureUndoesItselfIff` | Include/asm/task.h:107-130 | A failing call leaves both bitmaps unchanged exactly when no task number or no page was free. |
| `TaskRuns.OnePageIsLost` | Include/asm/task.h:116-121 | With one free page the call fails and the page stays marked used. |
| `TaskMemory.RunCalls` | Include/asm/task.h:99-186 | Any number of calls on memory is a run in the sense of the results below. |
| `TaskMemory.ClearCallKeepsPools` | Include/asm/task.h:99-186 | A failing call, and a successful one whose stores meet the condition, does to the free sets exactly what its bitmap writes do. |
| `TaskMemory.RunIsExact` | Include/asm/task.h:99-186 | For every run on memory whose stores meet the condition, a property of the free sets at its start: exactly the first min(free task numbers, free pages / 3) calls succeed; the task numbers and the pages handed out strictly decrease, were free at the start, and are one and three for each success. |
| `TaskMemory.FailureIsFinalOnMemory` | Include/asm/task.h:99-131 | In every run, whatever its stores, after a failure every later call fails the same way and changes neither bitmap. |
| `TaskMemory.BootIsClearIff` | Include/asm/task.h:133-184 | From boot the stores meet the condition for exactly the first 331605 calls. |
| `TaskMemory.BootRunOnMemory` | Include/asm/task.h:99-186 | From boot, call n gets task 2^20-1-n and the three pages below 2^20-3n, for every n up to 331605; before it exactly the pages 1024..2^20-3n-1 and the task numbers below 2^20-n are free. |
| `TaskMemory.BootRunReissues` | Include/asm/task.h:133 | The store of call 331605 frees used task numbers: call 331606 hands out 1048543, which call 32 already did. |
| `TaskMemory.FirstCallFaults` | Include/asm/task.h:133 | Under the page tables of boot the first call from boot stores a directory entry at 0x7FFFF4, where the walk faults. |
| `Tables.PageEntrySet` | Include/asm/paging.h:15-53 | Writes one entry with the given fields and nothing else, and nothing at all for an index above 1023. |
| `Tables.PageWordLayout` | Include/asm/paging.h:25-29 | Which bits of an entry hold the address and the three flags; the others are 0. |
| `Tables.WalkIsIdentityBelow4MB` | Sources/init/init.c:60-67 | With the tables of `paging_init` every linear address below 4 MB translates to itself, supervisor-only and writable, and every other faults. |
| `Descriptors.SegmentRoundTrip` | Include/asm/descriptor.h:60-73 | The processor decodes from the two stored words every field the caller passed, cut to its width; always 32-bit and present. |
| `Descriptors.SegmentLayout` | Include/asm/descriptor.h:60-73 | Which bits of the two stored words hold which field, without decoding them. |
| `Descriptors.GateRoundTrip` | Include/asm/descriptor.h:88-104 | The same for gates; a task gate carries no offset. |
| `Descriptors.GateLayout` | Include/asm/descriptor.h:88-104 | The same for gates: selector above offset in the low word, the offset's upper half above present bit, privilege level and type in the high one. |
| `Descriptors.DescriptorHitsGateIff` | Include/asm/descriptor.h:57-59 | Of the numbers the guard admits, exactly 1024..1279 share memory with one of the 256 gates. |
| `Descriptors.SetGd` | Include/asm/descriptor.h:48-75 | For every number the guard admits, exactly these two words are stored, they decode as passed, and only their eight bytes change. |
| `Descriptors.SetId` | Include/asm/descriptor.h:77-106 | The same for gates. |
| `Boot.RepStosl` | Sources/init/init.s:28-32 | The string store zeroes exactly its range. |
| `Boot.ClearSection` | Sources/init/init.s:26-37 | 0..0x40000 and 0x48000..0x90000 are zero, all else is kept. |
| `Boot.IdtInit` | Sources/init/init.c:37-49 | The stored words of all 256 gates, vector by vector: 0 divide error, 0x0C stack, 0x0D protection, 0x21 keyboard, 0x40..0x42 server, video and device, of which the last four are open to user mode, and the default elsewhere. |
| `Boot.VectorDecodes` | Sources/init/init.c:27-36 | From such words the processor reads a present 32-bit interrupt gate to the handler in segment 8, of privilege level 3 or 0. |
| `Boot.SegmentsDecode` | Sources/init/init.c:50-54 | The four descriptors as the processor reads them, and the sixteen bytes of the two kernel segments. |
| `Boot.SetGate` | Sources/init/init.c:27-36 | One gate is replaced, the other 255 decode as before. |
| `Boot.DescriptorInit` | Sources/init/init.c:50-59 | The words of the four descriptors and of the whole IDT hold together. |
| `Boot.FillDirectory` | Sources/init/init.c:61-62 | Directory entries 0..1022; entry 1023 is not touched. |
| `Boot.FillKernelTable` | Sources/init/init.c:63 | Entry k of the kernel table maps page k to itself. |
| `Boot.PagingInit` | Sources/init/init.c:60-67 | On cleared memory the paging tables are as the walk needs them, and only their two pages change. |
| `Boot.MemMapInit` | Sources/init/init.c:68-74 | On a cleared map exactly the pages of the low 4 MB are used. |
| `Boot.ZeroBitsAreFree` | Sources/init/init.s:33-37 | In cleared memory every bit of a map is free. |
| `Boot.BootSequence` | Sources/init/init.c:150-153 | From any memory contents: descriptors, all gates, paging tables and both bitmaps hold together, the page walk is the identity below 4 MB, and what boot should leave alone is unchanged. |
| `FipsConstants.ConstantsAreCubeRoots` | Include/hash/sha2.h:16-33 | The 64 round constants are the first 32 bits of the fractional parts of the cube roots of the first 64 primes. |
| `FipsConstants.InitialValueIsSquareRoots` | Include/hash/sha2.h:6-15 | The eight initial words are those of the square roots of the first eight. |
| `FipsConstants.TableOfPrimes` | Include/hash/sha2.h:16-33 | The table of primes these are told from is complete up to 311. |
| `FipsVector.DigestOfAbc` | Include/hash/sha2.h:39-99 | The definitions give the standard's digest of "abc", ba7816bf and so on. |
| `Fips180.BigEndianIsInjective` | Include/hash/sha2.h:77-85 | The big-endian length field determines the length. |
| `Fips180.PaddingIsInjective` | Include/hash/sha2.h:72-85 | Messages below 2^61 bytes have the same padding exactly when they are the same. |
| `ShaStructure.RoundIsAPermutation` | Include/hash/sha2.h:45-61 | An explicit inverse undoes a round, and a round undoes the inverse. |
| `ShaStructure.RoundsArePermutation` | Include/hash/sha2.h:86-96 | For any schedule words the 64 rounds are a permutation of the state: the inverse folded backwards recovers it. |
| `ShaStructure.WordsRunBackwards` | Include/hash/sha2.h:39-44 | Each schedule word is determined by the 16 after it. |
| `ShaStructure.SixteenWordsDetermineAll` | Include/hash/sha2.h:39-44 | Any 16 consecutive words determine the block, hence the whole schedule. |
| `ShaStructure.WindowDeterminesMessage` | Include/hash/sha2.h:72-94 | Two messages of at most 55 bytes agree in some 16 consecutive schedule words exactly when they are the same. |
| `HexDigits.RotrIsRotation` | Include/bit.h:4-6 | Shift-and-or is a rotation, for every amount SHA-256 uses. |
| `HexDigits.DigitRoundTrip` | Include/bit.h:7-17 | A value reads back from its digit exactly when it is a nibble. |
| `Sha256.ExpandedWordIsNext` | Include/hash/sha2.h:39-44 | The in-place expansion is the standard's message schedule. |
| `Sha256.RocIsStandard` | Include/hash/sha2.h:46-50 | The four expressions of a round are the standard's functions. |
| `Sha256.DigestIsFips180` | Include/hash/sha2.h:62-99 | For every message of at most 55 bytes the digest is that of FIPS 180-4, padding and block loop included. |
| `Sha256.PrintedDigestReadsBack` | Include/hash/sha2.h:100-108 | Reading the 64 printed digits back rebuilds the eight words. |
| `Sha256.PrintedDigitIs` | Include/hash/sha2.h:100-108 | Character 8j+k is the lower-case hexadecimal digit, 0-9 or a-f, of the k-th four bits of word j from the top. |
| `Sha256.Hasher.Roc` | Include/hash/sha2.h:45-61 | One step of the globals is one round of the standard. |
| `Sha256.Hasher.Reset` | Include/hash/sha2.h:63-69 | Initial values and a cleared block, whatever was hashed before. |
| `Sha256.Hasher.PadBlock` | Include/hash/sha2.h:72-85 | The block built in place is the standard's padding. |
| `Sha256.Hasher.ExpandAndRound` | Include/hash/sha2.h:86-96 | The interleaved loop equals the full schedule followed by 64 rounds. |
| `Sha256.Hasher.StoreDigits` | Include/hash/sha2.h:100-108 | 64 lower-case digits and a NUL. |
| `Sha256.Hasher.Sha256` | Include/hash/sha2.h:62-108 | For every C string: the FIPS 180-4 digest up to 55 bytes, the constant one beyond, and digits that read back as it. |
| `LineModel.TrimIgnoresBlanks` | Sources/Application/CMD.c:14-31 | Blanks on either side of a line, typed or stale, do not change the trimmed text. |
| `LineModel.KeyFollowsLine` | Sources/Application/CMD.c:148-219 | The buffer is a NUL, the ideal line and a residue of blanks; each key keeps it so and hands over the same text; its store is inside the buffer exactly when the line stays within 126 characters. |
| `LineModel.TypeAndErase` | Sources/Application/CMD.c:173-219 | A character typed and erased leaves the line as it was and a NUL in its place. |
| `LineModel.RunFollowsLine` | Sources/Application/CMD.c:148-219 | For every run of keys: the stores stay in range if and only if the line never exceeds 126 characters; then the buffer is the ideal line and its residue, and the texts handed to `code` are those of the ideal editor. |
| `LineModel.WindowsAreLines` | Sources/Application/CMD.c:14-31 | Trimmed, these texts are the trimmed, stack-edited lines: no residue shows in them. |
| `LineModel.TokenOfWindow` | Sources/Application/CMD.c:42-54 | Stale blanks after the text do not change its first token. |
| `LineModel.ArgumentIsExactIff` | Sources/Application/CMD.c:88-108 | The C string a command reads from any offset of its line is the rest of the line with its trailing spaces and the leading spaces of the residue; it is the rest of the trimmed line if and only if the line does not end in a space and the residue does not begin with one. |
| `LineModel.OnlyBlankEntersLeaveSpaces` | Sources/Application/CMD.c:148-160 | Over every run, spaces follow the line only after an Enter on a line of blanks. |
| `Commands.RunReadsText` | Sources/Application/CMD.c:148-219 | After every run of keys without NUL that holds at most 125 characters, the next Enter hands over the line and a residue of spaces and NULs that ends in a NUL. |
| `Commands.TokenOfText` | Sources/Application/CMD.c:42-54 | The first word of the text is that of the trimmed line, whatever follows the line. |
| `Commands.SecondTokenOfText` | Sources/Application/CMD.c:42-54 | So is the second word. |
| `Commands.PrintsRestOfLine` | Sources/Application/CMD.c:100-107 | `pr` with an argument prints the rest of the line, its trailing spaces and those that follow: exactly the rest of the trimmed line if and only if there are none. |
| `Commands.HashesRestOfLine` | Sources/Application/CMD.c:88-95 | The same for what `hash sha256` hashes. |
| `Commands.PrintsPastEndIff` | Sources/Application/CMD.c:100-107 | `pr` reads beyond the buffer if and only if no NUL follows the line. |
| `Commands.StaleBlanksReachArguments` | Sources/Application/CMD.c:100-107 | n blanks, Enter, `pr` and an argument print the argument and those of the n blanks that the new line does not cover. |
| `Commands.FiveBlanks` | Sources/Application/CMD.c:100-107 | Five blanks, Enter, `pr x` print `x` and a blank. |
| `Commands.ChoiceRunsOutIff` | Sources/Application/CMD.c:42-66 | Choosing the command reads beyond the buffer if and only if the line fills it, does not end in a blank and is, trimmed, the beginning of a command's name. |
| `Commands.PastEndIff` | Sources/Application/CMD.c:55-147 | While the last cell is NUL, a command reads beyond the buffer if and only if it takes an argument and its name, or the algorithm's after `hash`, ends at the cell before. |
| `Commands.ColorReadsBack` | Sources/Application/CMD.c:66-87 | For every colour, `color` with its two digits, with or without `0x`, sets it. |
| `Commands.ColorByDigits` | Sources/Application/CMD.c:66-87 | What `color` does with any text: two hexadecimal digits of either case, after `0x`, `0X` or neither, set 16 times the first plus the second; anything else is the error. |
| `Commands.HelpByWord` | Sources/Application/CMD.c:56-65 | `help` and `h` give help. |
| `Commands.TimeByWord` | Sources/Application/CMD.c:109-129 | `time` with a, y, mo, d, h, mi, s gives parts 0 to 6, with any other second word the error. |
| `Commands.VersionByWord` | Sources/Application/CMD.c:130-143 | `ver` with cmd or CMD gives the shell's version, with os or OS the system's, with any other second word the error. |
| `Commands.AlgorithmByWord` | Sources/Application/CMD.c:88-99 | `hash` with any second word but sha256, and with no other, gives the error. |
| `Commands.PrintWithoutText` | Sources/Application/CMD.c:100-104 | `pr` asks for a text if and only if a NUL is in one of the two cells after it. |
| `Commands.UnknownByWord` | Sources/Application/CMD.c:144-147 | Any other first word gives the error. |
| `Commands.TokenIsIff` | Sources/Application/CMD.c:42-54 | A name equals the first word exactly when it is a prefix followed by a blank. |
| `LineEditor.CountersTrackIff` | Sources/Application/CMD.c:173-219 | One key keeps the column counters in step with the line if and only if it is not a backspace with 63 or 64 characters held. |
| `LineEditor.CountersSlip` | Sources/Application/CMD.c:188-193 | What that backspace leaves: the last column of the first row, or column 2^32-1. |
| `LineEditor.CountersTrackRun` | Sources/Application/CMD.c:173-219 | They are in step over every run that holds at most 62 characters. |
| `LineEditor.WindowIsTrim` | Sources/Application/CMD.c:14-31 | The span from first to last non-blank is the trimmed buffer, and from its start on the buffer is without its leading blanks. |
| `LineEditor.LineEditor.CmdCalculate` | Sources/Application/CMD.c:14-31 | From any starting base: finds the span from the first to the last non-blank, and says whether there is one. |
| `LineEditor.LineEditor.CmdCodeCheck` | Sources/Application/CMD.c:42-54 | At any base: reads beyond the buffer exactly when the rest of it is a prefix of the name; otherwise true exactly when the name is followed by a blank, that is, for a name without spaces, is the next word. |
| `LineEditor.LineEditor.Code` | Sources/Application/CMD.c:55-147 | For every buffer and base: the action of the text, which the rows on its words describe, or that it reads beyond the buffer. |
| `LineEditor.LineEditor.Enter` | Sources/Application/CMD.c:148-172 | Hands over the ideal editor's text and does what it asks for, unless the line is blank; starts a new line either way, clearing the buffer only if it was not blank. |
| `LineEditor.LineEditor.BackSpace` | Sources/Application/CMD.c:173-195 | Pops one character, or nothing from an empty line; the column counters step back with their 32-bit wrap-around. |
| `LineEditor.LineEditor.HaveKey` | Sources/Application/CMD.c:196-219 | Every key whose store is inside the buffer keeps it on the ideal line and residue, hands over what the ideal editor does, and does what that text asks for. |
| `Decimal.DigitsParseBack` | Include/bit.h:29-33 | The digits of every number parse back to it, without a leading zero except for 0. |
| `Decimal.DigitsByPlace` | Include/bit.h:29-33 | Digit i is the ASCII digit 0x30 + n / 10^(places to its right) mod 10. |
| `Decimal.DigitsAreUnique` | Include/bit.h:29-33 | No other digit string without a leading zero does. |
| `Decimal.TenDigitsSuffice` | Include/bit.h:18-23 | At most ten digits for 32 bits. |
| `Decimal.DecDigit` | Include/bit.h:19-35 | The buffer holds exactly the number's digits and then NULs, at least two. |
| `PciModel.RegisterIsLinear` | Include/device/PCI.h:57-65 | The triple-loop order is the address order: 256 bytes of address for each function. |
| `PciModel.ListedInAddressOrder` | Include/device/PCI.h:146-155 | The table lists present functions only, in strictly increasing address order. |
| `PciModel.ListedLeavesOutOnlyLater` | Include/device/PCI.h:153-155 | A present function is left out only when the table holds 1024, all before it. |
| `PciModel.OfKindIsExact` | Include/device/PCI.h:184-226 | A class list is exactly the increasing table indexes of its class. |
| `PciModel.EntryNamesItsFunction` | Include/device/PCI.h:156-172 | An entry's bus, device and function are those of the function it was read from, and vendor, class and header type are what the registers of the function it names answer. |
| `PciModel.ListsByClassCode` | Include/device/PCI.h:12-18 | The class code and the size of each list, written out. |
| `Pci.Enumerator.ConfBar` | Include/device/PCI.h:66-67 | Always 0, because the test assigns the flag. |
| `Pci.Enumerator.FillEntry` | Include/device/PCI.h:156-172 | The entry of function (i, j, k), by its bus, device and function numbers; base register 0 keeps what it held. |
| `Pci.Enumerator.Classify` | Include/device/PCI.h:184-226 | Each class list stays the first indexes of its kind, at most one more than its array holds, sentinels after them. |
| `Pci.Enumerator.Visit` | Include/device/PCI.h:152-229 | One function, or the early return with the table complete. |
| `Pci.Enumerator.PciEnumeration` | Include/device/PCI.h:146-234 | For every configuration space: the table is the first 1024 present functions, other entries untouched, and each entry names its function and holds what that function's registers answer; each class list is the first indexes, in order, of the functions of its literal class code; the cell past a list is written if and only if the table holds more of its class than the list has room for. |
| `PciModel.SeventeenBridges` | Include/device/PCI.h:184-189 | With 17 bridges the bridge list gets 17 entries for its 16 cells. |

## Left out

- Console.Console.Printf: like Println, requires a text whose addresses do not wrap around 2^32; what a longer text than the screen overwrites outside video memory is not modelled, only that it is not on the screen.
- Console.Console.ShellInit: requires the length bound for the welcome text, which the source's text meets.
- Tasks.CreatTask: of the page-table entries it stores only the places are stated, except for the directory entry where it can reach a bitmap. Memory is flat: every address is its own, the low 640 KB are modelled, and the effect of the new entries on later address translation is not, beyond what FirstCallFaults says. The messages it prints are told by its result.
- LineEditor.LineEditor.HaveKey: requires that the store be inside the buffer; what a 127th character overwrites is not modelled.
- LineEditor.LineEditor.Code: what a command reads beyond the buffer is not modelled, only that it does; the printing of the commands is not modelled either.
- Pci.Enumerator.PciEnumeration: reads are a function of the address, so a register answers the same value twice; the progress messages are not modelled. The address is the sum of its disjoint bit fields.
- Sha256.Hasher.Sha256: the standard's digest of a concrete message of more than 55 bytes is not computed, so it is not proved that the constant digest is wrong for each of them.
- The screen effects of the shell's keys; the shell's separate screen interrupt 0x30 is not part of this model.
- The string passed to a print routine is assumed not to overlap video memory.
- The move of the kernel to 1 MB and the clearing above 1 MB, which no table of the model lies in.
- Port I/O, interrupt controller and clock set-up, loading of descriptor-table and paging registers, the boot sector and the UEFI loader, the keyboard tables, the divide-error handler, file system and device stubs.
