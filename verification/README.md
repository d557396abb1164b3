# Models of device-side protocols and compilers

Dafny models of the parts of this repository that compute something: a pattern compiler, two
concurrent protocols, an object-file writer, two supervisors, a lexer, a power walk and a line
splitter.  Each file states what its part is for and proves it for every input, every run or every
interleaving.  `dafny verify dfyconfig.toml` checks all of it.

Functions on values say what an operation does; where the source changes state step by step, a
method with the source's loops and fields is proved to do the same; the lemmas are about the
functions.  What the operating system answers comes in as a parameter or an event.

- **USB aliases** (`HexWords`, `UsbRange`, `UsbBounds`, `UsbRawBound`, `UsbExact`, `UsbText`,
  `UsbAlias`, `UsbTable`, `UsbCompiler`, with `Glob`).  A range of device numbers, read as decimal
  or hexadecimal words of k digits (the program has k = 4), becomes a few shell patterns.  The
  numbers side and the pattern side are related through an independent matcher for the notation of
  section 2.13 of the POSIX.1 Shell Command Language.
- **Masked ids** (`MaskAlias`): AMBA ids by hexadecimal digit, MDIO ids by bit.
- **Logger callback** (`CallbackGuard`) and **flow control** (`FlowControl`): every read and write
  of a shared variable is one step of a run with any number of threads.  The relaxed atomics are
  taken as sequentially consistent; that is an assumption.
- **Asset compiler** (`Bytes`, `BlobPack`, `ElfFile`, `CoffFile`, `MachoFile`, `AssetCompiler`):
  files are packed into a blob and the blob into object files, byte by byte; readers that follow
  the published layouts (System V gABI chapter 4, the PE/COFF specification, the Mach-O headers)
  find the names and the bytes again.
- **init** (`InitService`, `ServiceRecord`, `HeldFds`): start, stop, reap, timers, the crash window
  and the descriptors held for a service.
- **appspawn** (`AppSpawn`): the life of a spawn request.
- **hc-gen lexer** (`Lexer`, `LexerBuffer`): strings and comments as functions of the text, and the
  same through a buffer that is refilled.
- **Power order** (`PowerOrder`) and the **line splitter** (`LineSplitter`).

## What the code does not do

Where a promise does not hold for all inputs, the statement is an if-and-only-if and the failing
side is proved too:

- A range that leaves all of the last digit free behind three fixed ones (0x1230 to 0x1239 in
  decimal mode, 0x1230 to 0x123F in hexadecimal mode) prints neither the digit nor a star and the
  alias matches nothing.
- Without an upper bound, a lower bound above 0x9000 (decimal) or 0xF000 (hexadecimal) carries out
  of the word and the alias catches every device.
- In decimal mode an explicit upper bound above 0x9999 whose digits are clamped one by one can miss
  0x9999.
- A logging thread can call an empty callback when a registration falls between its copy of the
  pointer and its second look at it.
- Two registrations of a callback can both succeed, the later store taking the place of the other, and
  an unregistration can clear a callback that was stored after it looked: exactly when the pointer
  changes while another thread has yet to write it.
- Stopping a service that is not running leaves its timer set; the timer then starts it.
- The crash limit is not looked at when the window is started afresh.  In a run that matters for a
  critical service with a limit of one, after a call to reboot that came back, and for no other.
- When a child cannot be watched, appspawn kills it and replies with result 0 and process number 0.
- In object files, 32-bit fields hold sizes and offsets, in the 64-bit ELF class too; files beyond them
  are recorded wrongly.
- A line that a newline ends and that is longer than 1023 characters is printed with all the text
  behind it, without prefixes.
- A slash closes a comment only behind an odd run of stars: behind `**` it does not.
- Looking ahead past blanks reports the end of the text when the blanks reach the end of the buffer.

## Model

| member | source | states |
|---|---|---|
| `UsbTable.LinesExactIff` | mac/kernel/linux/linux-6.6/scripts/mod/file2alias.c:281-344 | end to end, for every digit count and every entry in which vendor, product, device class or interface class is not zero: each device whose number is valid in the base is matched by exactly one printed line if its flagged fields agree and its number is within the flagged bounds, and by none otherwise, if and only if the flagged bounds are sound: without an upper bound, the lower one is at most 0x9000 or 0xF000; with one, it is covered digit by digit and the range is not the one that is printed blank |
| `UsbTable.LinesExact` | mac/kernel/linux/linux-6.6/scripts/mod/file2alias.c:281-344 | the sound half of it, for all devices |
| `UsbTable.LinesNotExact` | mac/kernel/linux/linux-6.6/scripts/mod/file2alias.c:281-344 | for unsound bounds or a blank range some device is matched wrongly |
| `UsbTable.NothingWithoutIds` | mac/kernel/linux/linux-6.6/scripts/mod/file2alias.c:311-316 | with those four values all zero nothing is printed, whatever is flagged, and no name is matched |
| `UsbTable.LongerNames` | mac/kernel/linux/linux-6.6/scripts/mod/file2alias.c:221-236 | every line is open at its end: a name that goes on with anything but lower-case letters is matched exactly when the fields of the device are |
| `UsbTable.NameFields` | mac/kernel/linux/linux-6.6/scripts/mod/file2alias.c:190-236 | the name of a device, tag by tag and digit by digit |
| `UsbTable.LineMatches` | mac/kernel/linux/linux-6.6/scripts/mod/file2alias.c:174-240 | one printed line matches a device name exactly when the other flagged fields agree and its device-number pattern matches the number |
| `UsbTable.BlankMissesItsRange` | mac/kernel/linux/linux-6.6/scripts/mod/file2alias.c:201-220 | a range of all last digits behind k-1 fixed ones gets an alias that matches no device name at all |
| `UsbTable.LastCharacter` | mac/kernel/linux/linux-6.6/scripts/mod/file2alias.c:221-236 | the alias ends in a star exactly when the interface number does not take part, which is what the wildcard step looks at |
| `UsbExact.SplitIsExact` | mac/kernel/linux/linux-6.6/scripts/mod/file2alias.c:330-343 | the calls of the loop hit every valid word of the range exactly once and no other valid word, if and only if the bounds are sound; there are at most 2k-1 of them |
| `UsbExact.SplitSane` | mac/kernel/linux/linux-6.6/scripts/mod/file2alias.c:320-343 | every call has low digit <= high digit <= the base's largest, a prefix that fits its digits, and names all digits behind k-1 fixed ones in the blank range only |
| `UsbExact.EntriesSane` | mac/kernel/linux/linux-6.6/scripts/mod/file2alias.c:320-343 | the same for every turn the loop can be in |
| `UsbExact.FourDigits` | mac/kernel/linux/linux-6.6/scripts/mod/file2alias.c:299-319 | with four digits the bounds of the statements are 0x9999, 0x9000, 0xF000 and ~0U |
| `UsbRange.EntriesCover` | mac/kernel/linux/linux-6.6/scripts/mod/file2alias.c:319-343 | both bounds valid in the base: every valid word between them is hit by exactly one call, no other valid word by any |
| `UsbRange.TurnCover` | mac/kernel/linux/linux-6.6/scripts/mod/file2alias.c:320-343 | one turn and the rest of the loop together hit what the turn started with |
| `UsbRange.Neighbours` | mac/kernel/linux/linux-6.6/scripts/mod/file2alias.c:331-343 | stepping a lower prefix up or an upper prefix down leaves out exactly that prefix among the valid words |
| `UsbRange.IncBcd` | mac/kernel/linux/linux-6.6/scripts/mod/file2alias.c:244-279 | the increment computed by digit loops returns the old word and stores the sum as a word of the base, wrapped to the machine word |
| `UsbRange.BcdArithmetic` | mac/kernel/linux/linux-6.6/scripts/mod/file2alias.c:244-279 | decimal mode: when the digit-clamped old value plus the increment is in [0, 10^chars), the new word is BCD and its decimal value is that sum |
| `UsbRange.BcdArithmeticIff` | mac/kernel/linux/linux-6.6/scripts/mod/file2alias.c:244-279 | decimal mode, any word and any increment: the new word denotes the sum if and only if the sum is in [0, 10^chars) |
| `UsbRange.BcdArithmeticOverflows` | mac/kernel/linux/linux-6.6/scripts/mod/file2alias.c:244-279 | the nearest failing input: 9..9 and one more is stored as zero |
| `UsbRange.NextWord` | mac/kernel/linux/linux-6.6/scripts/mod/file2alias.c:331-336 | incrementing a valid word gives a valid word above it and at or below every larger valid word |
| `UsbRange.PreviousWord` | mac/kernel/linux/linux-6.6/scripts/mod/file2alias.c:338-342 | decrementing a valid word gives a valid word below it and at or above every smaller valid word |
| `HexWords.BcdOrder` | mac/kernel/linux/linux-6.6/scripts/mod/file2alias.c:319-320 | on BCD words the order of the words is the order of the decimal numbers, which the loop test relies on |
| `UsbBounds.DetectBase` | mac/kernel/linux/linux-6.6/scripts/mod/file2alias.c:301-311 | decimal mode is chosen exactly when every digit of lo, and of hi cut down to 9..9, is decimal |
| `UsbBounds.OpenCover` | mac/kernel/linux/linux-6.6/scripts/mod/file2alias.c:296-343 | no upper bound: for lo at or below 0x9000 or 0xF000 every valid word from lo on is hit exactly once and no other |
| `UsbBounds.OpenCarry` | mac/kernel/linux/linux-6.6/scripts/mod/file2alias.c:296-343 | above that bound the increments carry into an extra digit and every valid word is hit, whatever lo was |
| `UsbRawBound.RawCover` | mac/kernel/linux/linux-6.6/scripts/mod/file2alias.c:320-343 | decimal mode with an explicit upper bound above 9..9: the cover is exact when no digit of hi below nine is met before lo has passed it |
| `UsbRawBound.RawMiss` | mac/kernel/linux/linux-6.6/scripts/mod/file2alias.c:320-343 | otherwise the word 9..9 is missed |
| `UsbText.DeviceMatches` | mac/kernel/linux/linux-6.6/scripts/mod/file2alias.c:198-220 | the text printed for a call, read as a pattern, matches exactly the k-digit words the call denotes, the bracket split between 9 and A included |
| `UsbText.WholeRangeMatchesNothing` | mac/kernel/linux/linux-6.6/scripts/mod/file2alias.c:201-220 | the excluded case: with k-1 digits and the full digit range the text matches no k-digit word |
| `UsbText.MembersMean` | mac/kernel/linux/linux-6.6/scripts/mod/file2alias.c:203-217 | the bracket that is printed holds exactly the upper-case digits of the range |
| `UsbAlias.RowMatches` | mac/kernel/linux/linux-6.6/scripts/mod/file2alias.c:190-236 | a row of tagged field patterns matches a row of tagged values exactly when each pattern matches its value: stars cannot reach across a lower-case tag |
| `Glob.MatchSplitsAtTag` | mac/kernel/linux/linux-6.6/scripts/mod/file2alias.c:190-236 | a pattern, a tag and a pattern match a text only where the tag stands |
| `UsbCompiler.AliasTable.DoUsbEntry` | mac/kernel/linux/linux-6.6/scripts/mod/file2alias.c:174-240 | appends the one alias line, assembled field by field in place |
| `UsbCompiler.AliasTable.DoUsbTurn` | mac/kernel/linux/linux-6.6/scripts/mod/file2alias.c:320-343 | one turn of the loop: the two optional calls with their in-place steps of both bounds |
| `UsbCompiler.AliasTable.DoUsbRange` | mac/kernel/linux/linux-6.6/scripts/mod/file2alias.c:319-344 | the shifting loop appends the lines of all its turns and stops before its digit count passes zero |
| `UsbCompiler.AliasTable.DoUsbEntryMulti` | mac/kernel/linux/linux-6.6/scripts/mod/file2alias.c:281-344 | appends exactly the lines whose meaning LinesExactIff states, and none for the ids of NothingWithoutIds |
| `UsbCompiler.AddRange` | mac/kernel/linux/linux-6.6/scripts/mod/file2alias.c:201-217 | the digit, the bracket or nothing, as the branches print it |
| `MaskAlias.AppendNibbleMask` | mac/kernel/linux/linux-6.6/scripts/mod/file2alias.c:1112-1146 | appends the pattern of one masked digit |
| `MaskAlias.NibbleMeans` | mac/kernel/linux/linux-6.6/scripts/mod/file2alias.c:1112-1146 | that pattern matches a digit exactly when the digit agrees under the mask |
| `MaskAlias.DoAmbaEntry` | mac/kernel/linux/linux-6.6/scripts/mod/file2alias.c:1154-1174 | refuses exactly the ids with bits outside the mask; otherwise the alias matches the upper-case hexadecimal text of x exactly when x and mask give id |
| `MaskAlias.AmbaMatches` | mac/kernel/linux/linux-6.6/scripts/mod/file2alias.c:1154-1174 | the same for every id, mask and x of any number of digits |
| `MaskAlias.DoMdioEntry` | mac/kernel/linux/linux-6.6/scripts/mod/file2alias.c:1042-1064 | the alias matches the bits of x exactly when x and the id agree on the mask |
| `MaskAlias.MdioMatches` | mac/kernel/linux/linux-6.6/scripts/mod/file2alias.c:1042-1064 | the same as a statement about the text |
| `MaskAlias.AndDigit` | mac/kernel/linux/linux-6.6/scripts/mod/file2alias.c:1154-1174 | bitwise and works digit by digit, which cutting the words into nibbles relies on |
| `CallbackGuard.UnregisterIsSafe` | mac/base/hiviewdfx/hilog/frameworks/libhilog/hilog_printf.cpp:70-91 | for any threads and interleaving: from the clearing step of an unregistration of f through its return to any later point, if nothing registers f meanwhile, no thread is inside f or holds it for a call |
| `CallbackGuard.RunKeepsInv` | mac/base/hiviewdfx/hilog/frameworks/libhilog/hilog_printf.cpp:253-265 | the counter is the number of threads between its two updates, in every reachable state |
| `CallbackGuard.QuietStays` | mac/base/hiviewdfx/hilog/frameworks/libhilog/hilog_printf.cpp:253-265 | a callback that nobody holds and that is not registered stays unheld |
| `CallbackGuard.WaitCanEnd` | mac/base/hiviewdfx/hilog/frameworks/libhilog/hilog_printf.cpp:85-88 | from every reachable state the counted threads can finish by themselves, so a waiting unregistration is never stuck for good |
| `CallbackGuard.CalledIffNotEmpty` | mac/base/hiviewdfx/hilog/frameworks/libhilog/hilog_printf.cpp:253-265 | over any run and interleaving: a thread that goes from the step that counts it to the step that uncounts it has been inside the function it copied, once and inside no other, if and only if the pointer was not empty at its second look |
| `CallbackGuard.CalledOnce` | mac/base/hiviewdfx/hilog/frameworks/libhilog/hilog_printf.cpp:253-265 | while f is registered and nobody unregisters it, each log call gets into f once and into nothing else, whatever the other threads do |
| `CallbackGuard.CallAlone` | mac/base/hiviewdfx/hilog/frameworks/libhilog/hilog_printf.cpp:253-265 | such a call is possible in every state and leaves everything as it was; without a callback nothing is done |
| `CallbackGuard.EmptyCopyCanBeCalled` | mac/base/hiviewdfx/hilog/frameworks/libhilog/hilog_printf.cpp:253-265 | a concrete run in which a thread calls an empty copy of the pointer: it looks at the pointer again, but does not copy it again |
| `CallbackGuard.EmptyCallsIff` | mac/base/hiviewdfx/hilog/frameworks/libhilog/hilog_printf.cpp:253-265 | in a run of any threads no thread can get to a call of an empty copy at any point, if and only if no callback is stored while a thread holds an empty copy that it has yet to look at again |
| `CallbackGuard.UndisturbedCallsNothing` | mac/base/hiviewdfx/hilog/frameworks/libhilog/hilog_printf.cpp:253-265 | no run from the start without such a store calls an empty copy |
| `CallbackGuard.DisturbedCallsNothing` | mac/base/hiviewdfx/hilog/frameworks/libhilog/hilog_printf.cpp:70-77 | after such a store one step of that thread gets it to the empty call |
| `CallbackGuard.IdleStoresDisturbNobody` | mac/base/hiviewdfx/hilog/frameworks/libhilog/hilog_printf.cpp:70-77 | stores while no thread is counted are never of that kind |
| `CallbackGuard.BlindWritesIff` | mac/base/hiviewdfx/hilog/frameworks/libhilog/hilog_printf.cpp:70-91 | in a run of any threads no registration or unregistration is ever about to write the pointer over a value it has not seen, if and only if no step changes the pointer while another thread has yet to write it |
| `CallbackGuard.BothRegister` | mac/base/hiviewdfx/hilog/frameworks/libhilog/hilog_printf.cpp:70-77 | a run in which two registrations both succeed and the later store takes the place of the first |
| `CallbackGuard.ClearsAnother` | mac/base/hiviewdfx/hilog/frameworks/libhilog/hilog_printf.cpp:79-91 | a run in which an unregistration of f clears the callback g that was stored after it had looked |
| `CallbackGuard.IdleStoresAreEnough` | mac/base/hiviewdfx/hilog/frameworks/libhilog/hilog_printf.cpp:70-77 | so with stores kept out of the counted sections no thread calls an empty copy |
| `FlowControl.DropsAreAccounted` | mac/base/hiviewdfx/hilog/frameworks/libhilog/hilog_printf.cpp:131-161 | under any interleaving: the calls that returned -1 = drop counts returned + counts taken and not yet returned + the counter; with nobody under way, returned + counter |
| `FlowControl.PeriodIsBounded` | mac/base/hiviewdfx/hilog/frameworks/libhilog/hilog_printf.cpp:131-161 | under any interleaving of n calls at a time: a period lets through at most the quota and n messages, and the byte counter holds what it has let through |
| `FlowControl.AloneIsOnePiece` | mac/base/hiviewdfx/hilog/frameworks/libhilog/hilog_printf.cpp:131-161 | a call that nobody interrupts has the effect of the call in one piece, whatever else is under way |
| `FlowControl.OneAtATime` | mac/base/hiviewdfx/hilog/frameworks/libhilog/hilog_printf.cpp:131-161 | calls one after the other: a call opens a period if and only if it comes more than one second after the last that did, and then returns the number refused since; it returns -1 if and only if it opens none and the bytes let through since exceed the quota, and 0 otherwise; at most the quota and one message per period |
| `FlowControl.StartIsOfAnOpening` | mac/base/hiviewdfx/hilog/frameworks/libhilog/hilog_printf.cpp:131-161 | under any interleaving: the start time is that of some call that has opened a period, 0 if none has, and that is the time with which a call came in |
| `FlowControl.FlowControl.Process` | mac/base/hiviewdfx/hilog/frameworks/libhilog/hilog_printf.cpp:131-161 | the function over its static variables computes the call in one piece |
| `BlobPack.Packer.AppendFile` | mac/foundation/graphic/graphic_3d/lume/LumeBinaryCompile/lumeassetcompiler/main.cpp:45-93 | the file filter, the name limit and the failures; a stored file is added behind the others, the directory still describing the data area |
| `BlobPack.Packer.Store` | mac/foundation/graphic/graphic_3d/lume/LumeBinaryCompile/lumeassetcompiler/main.cpp:79-91 | one entry more, at the next multiple of 8, with zeros up to it and the content behind |
| `BlobPack.Packer.Assemble` | mac/foundation/graphic/graphic_3d/lume/LumeBinaryCompile/lumeassetcompiler/main.cpp:640-654 | the size in front, the directory with moved offsets and a terminator, the data; the reader with that size as its limit gives back the files exactly when all names are good |
| `BlobPack.BlobRoundTrip` | mac/foundation/graphic/graphic_3d/lume/LumeBinaryCompile/lumeassetcompiler/main.cpp:143-163 | the reader returns the names and contents that went in, in order, if and only if every name is non-empty and free of NULs; offsets are multiples of 8, extents disjoint and inside, and the scan stops at the terminator |
| `BlobPack.AreaGrows` | mac/foundation/graphic/graphic_3d/lume/LumeBinaryCompile/lumeassetcompiler/main.cpp:79-91 | appending with padding keeps every earlier extent and its content |
| `AssetCompiler.CompileElf` | mac/foundation/graphic/graphic_3d/lume/LumeBinaryCompile/lumeassetcompiler/main.cpp:640-680 | what the two symbols of the ELF file lead to is the list of packed files exactly for good names, for any blob that leaves the place of the string table within 32 bits |
| `AssetCompiler.CompileObj` | mac/foundation/graphic/graphic_3d/lume/LumeBinaryCompile/lumeassetcompiler/main.cpp:640-663 | the same for the COFF file and any section within 32 bits |
| `AssetCompiler.CompileMacho` | mac/foundation/graphic/graphic_3d/lume/LumeBinaryCompile/lumeassetcompiler/main.cpp:640-691 | the same for both parts of the Mach-O file and any blob that leaves the place of the second part within 32 bits |
| `ElfFile.WriteElf` | mac/foundation/graphic/graphic_3d/lume/LumeBinaryCompile/lumeassetcompiler/main.cpp:261-333 | both classes: everything recorded is that of a relocatable file for the processor with its two global hidden symbols; followed from its header the file gives the section names, the size symbol on the eight bytes in front and the data symbol on the rest; the recorded regions, section headers, symbols and section, follow one another for any data, and the string table behind them up to the end of the file exactly when the last offset fits 32 bits |
| `ElfFile.ElfReads` | mac/foundation/graphic/graphic_3d/lume/LumeBinaryCompile/lumeassetcompiler/main.cpp:288-331 | the reading of any file laid out and recorded like that |
| `ElfFile.FileRecords` | mac/foundation/graphic/graphic_3d/lume/LumeBinaryCompile/lumeassetcompiler/main.cpp:326-332 | the header, all section headers and all symbols are read back as they were filled in |
| `ElfFile.Extents` | mac/foundation/graphic/graphic_3d/lume/LumeBinaryCompile/lumeassetcompiler/main.cpp:299-331 | the recorded regions follow one another from the section headers to the end of the file; for the string table exactly when in range |
| `ElfFile.FillIn` | mac/foundation/graphic/graphic_3d/lume/LumeBinaryCompile/lumeassetcompiler/main.cpp:266-323 | what is filled in field by field |
| `ElfFile.Strings` | mac/foundation/graphic/graphic_3d/lume/LumeBinaryCompile/lumeassetcompiler/main.cpp:276-319 | the string table holds the five names where the fields say |
| `ElfFile.PiecesParse` | mac/foundation/graphic/graphic_3d/lume/LumeBinaryCompile/lumeassetcompiler/main.cpp:326-332 | each structure is read back from the place the header gives |
| `CoffFile.WriteObj` | mac/foundation/graphic/graphic_3d/lume/LumeBinaryCompile/lumeassetcompiler/main.cpp:168-259 | 32 and 64 bits: followed from its header the file gives machine, section name and flags, the external symbols with their names, underscored for 32 bits, size at 0 and data at 8 of the section; all other fields zero; the raw data exactly when its size fits 32 bits; regions apart, data at the next multiple of 4 |
| `CoffFile.Symbols` | mac/foundation/graphic/graphic_3d/lume/LumeBinaryCompile/lumeassetcompiler/main.cpp:192-239 | both names are in the string table at the offsets the symbols hold, four bytes further on |
| `CoffFile.RawDataRead` | mac/foundation/graphic/graphic_3d/lume/LumeBinaryCompile/lumeassetcompiler/main.cpp:214-256 | the recorded data region is the data exactly when its size fits 32 bits, and ends at the end of the file |
| `MachoFile.WriteMacho` | mac/foundation/graphic/graphic_3d/lume/LumeBinaryCompile/lumeassetcompiler/main.cpp:335-510 | the file gives both parts, each announced for its processor and holding an object for it whose load commands are as long as the header says, whose segment records the place and size of the data and of its only section, the data, its two symbols with kind, values 0 and 8 and no more, its data, symbols and strings apart, and the parts apart, at multiples of 8, up to the end of the file, if and only if the place of the second part fits 32 bits |
| `MachoFile.FatWords` | mac/foundation/graphic/graphic_3d/lume/LumeBinaryCompile/lumeassetcompiler/main.cpp:341-358 | the recorded places and sizes of the parts, cut to 32 bits, most significant byte first |
| `MachoFile.SegmentRead` | mac/foundation/graphic/graphic_3d/lume/LumeBinaryCompile/lumeassetcompiler/main.cpp:386-438 | the segment, read where its command is found: its file offset and size are the data, its size in memory is that of the data rounded up to 8, its section is at the same place |
| `MachoFile.CommandsRead` | mac/foundation/graphic/graphic_3d/lume/LumeBinaryCompile/lumeassetcompiler/main.cpp:363-383 | one load command behind the other, as long together as the header says |
| `MachoFile.PartsAreApart` | mac/foundation/graphic/graphic_3d/lume/LumeBinaryCompile/lumeassetcompiler/main.cpp:465-474 | the recorded places are those of the parts exactly when the second one fits 32 bits |
| `MachoFile.PartReads` | mac/foundation/graphic/graphic_3d/lume/LumeBinaryCompile/lumeassetcompiler/main.cpp:431-508 | one part read through its load commands: data, symbols, and extents that follow one another without overlap |
| `MachoFile.StringsRead` | mac/foundation/graphic/graphic_3d/lume/LumeBinaryCompile/lumeassetcompiler/main.cpp:443-464 | the two string indexes lead to the two names, one byte behind the filler |
| `Bytes.PieceAt` | mac/foundation/graphic/graphic_3d/lume/LumeBinaryCompile/lumeassetcompiler/main.cpp:245-256 | every piece that is written is found where the pieces before it end |
| `Bytes.DecodeEncode` | mac/foundation/graphic/graphic_3d/lume/LumeBinaryCompile/lumeassetcompiler/main.cpp:326-332 | a structure written field by field in little-endian order is read back |
| `InitService.SingleChild` | mac/base/startup/init/services/init/init_common_service.c:687-768 | over any run of starts, stops, exits, timers and restart requests: a recorded process number is the only child neither collected nor signalled, and without one there is none |
| `InitService.StopIsFinal` | mac/base/startup/init/services/init/init_common_service.c:739-768 | after a stop that succeeds nothing forks the service before the next start command, if and only if the service was running, had no timer set, or is marked invalid |
| `InitService.ForkingTimer` | mac/base/startup/init/services/init/init_common_service.c:755-768 | the exception as a run: a stop of a service that is not running leaves its timer set, and the timer starts the service |
| `InitService.StoppedWhileWaiting` | mac/base/startup/init/services/init/init_common_service.c:739-768 | such a run from the very beginning: a periodic service runs once, is stopped with success while it waits, and is started again |
| `InitService.TooManyMeansMany` | mac/base/startup/init/services/init/init_common_service.c:770-793 | in every run, when counting a crash finds too many, at least the allowed number of counted crashes lie within the allowed time of the first |
| `InitService.RestartedIff` | mac/base/startup/init/services/init/init_common_service.c:845-920 | in every run, after the exit of the recorded process the service is running again, as the new process, if and only if it is not invalid, has no timer, was not being stopped, is not one-shot without a restart request, not periodic and not on demand, the crash does not forbid it, and the fork succeeds |
| `InitService.OtherwiseIff` | mac/base/startup/init/services/init/init_common_service.c:845-920 | the other outcomes: exactly when the timer is set, the system goes down, or the service becomes invalid |
| `InitService.CountAfterExit` | mac/base/startup/init/services/init/init_common_service.c:860-907 | what becomes of the count of crashes and of the start of its window |
| `InitService.OneShotRunsOnce` | mac/base/startup/init/services/init/init_common_service.c:873-881 | in every run without restart requests a one-shot service is forked only by start commands |
| `InitService.KeepsRunning` | mac/base/startup/init/services/init/init_common_service.c:896-918 | an ordinary service is running again after each of any number of crashes that are further apart than the crash time |
| `InitService.StartOutcome` | mac/base/startup/init/services/init/init_common_service.c:687-737 | a start reports success exactly if the service is running afterwards, and forks exactly a service that was not running and is not invalid |
| `InitService.StopOutcome` | mac/base/startup/init/services/init/init_common_service.c:739-768 | a stop reports success exactly if no process is recorded afterwards; only a stop of a running service clears the timer |
| `InitService.TimerOutcome` | mac/base/startup/init/services/init/init_common_service.c:997-1039 | in every run, when the timer fires it is gone and the service is running unless the start fails |
| `InitService.WhenTooMany` | mac/base/startup/init/services/init/init_common_service.c:770-793 | one crash counted: finding too many is the same as the new count having reached the limit, if and only if it is not the case that the limit is one and a window that had crashes is started afresh |
| `InitService.LimitHolds` | mac/base/startup/init/services/init/init_common_service.c:770-793 | in every run of a service that is not critical, and in every run of any service in which no call to reboot came back, counting a crash finds too many exactly when the count reaches the limit |
| `InitService.LimitIsMissed` | mac/base/startup/init/services/init/init_common_service.c:895-920 | the failing run from the very beginning: a critical service with a limit of one crashes, the reboot comes back, and a crash after the window is not found to be too many |
| `InitService.LimitHoldsIff` | mac/base/startup/init/services/init/init_common_service.c:770-793 | for a service that counts crashes with any configuration: the limit is looked at in all runs if and only if the service is not critical with a limit of one, or it never counts because it is periodic or on demand |
| `InitService.CounterBelowLimit` | mac/base/startup/init/services/init/init_common_service.c:845-920 | the crash counter of a service that is not critical stays below its limit in every run |
| `ServiceRecord.Record.ServiceStart` | mac/base/startup/init/services/init/init_common_service.c:687-737 | the start changes the record as the step says |
| `ServiceRecord.Record.ServiceStop` | mac/base/startup/init/services/init/init_common_service.c:739-768 | the stop likewise |
| `ServiceRecord.Record.CalculateCrashTime` | mac/base/startup/init/services/init/init_common_service.c:770-793 | the crash count likewise |
| `ServiceRecord.Record.ServiceReap` | mac/base/startup/init/services/init/init_common_service.c:845-920 | the reap likewise, in all its branches |
| `ServiceRecord.Record.ServiceStartTimer` | mac/base/startup/init/services/init/init_common_service.c:1041-1064 | an old timer is gone, a new one set if it can be had |
| `ServiceRecord.Record.TimerProcess` | mac/base/startup/init/services/init/init_common_service.c:997-1039 | both timer handlers clear the timer and start |
| `HeldFds.HeldOrClosed` | mac/base/startup/init/services/init/init_common_service.c:922-982 | over any run of updates and stops: what successful updates took over = what is held + what has been closed, counted |
| `HeldFds.UpdateOutcome` | mac/base/startup/init/services/init/init_common_service.c:922-982 | an update succeeds if and only if there are no new descriptors, or they fit and are copied; then it holds exactly them and has closed the old; failure keeps everything without descriptors, and nothing with them |
| `HeldFds.EmptySlotsStay` | mac/base/startup/init/services/init/init_common_service.c:341-346 | the -1 of an empty slot is never closed, in any run |
| `HeldFds.Fds.UpdaterServiceFds` | mac/base/startup/init/services/init/init_common_service.c:922-982 | the update in place: a count above zero means an array with one slot more |
| `HeldFds.Fds.CloseServiceFds` | mac/base/startup/init/services/init/init_common_service.c:331-352 | closes each real descriptor of the slots once and sets the count to zero |
| `AppSpawn.RequestsAreConserved` | mac/base/startup/appspawn/standard/appspawn_service.c:919-968 | in every run, the events handled after a stop included, each request has been answered, is under way, or was dropped when its connection closed: exactly one of the three, once |
| `AppSpawn.RepliesAreOfEvents` | mac/base/startup/appspawn/standard/appspawn_service.c:919-1098 | in every run the replies are those of its events, in order, each with the result and the process number its event calls for |
| `AppSpawn.ContextsAreOfRequests` | mac/base/startup/appspawn/standard/appspawn_service.c:919-964 | in every run each context under way is that of a request, with its connection and its child, and contexts are numbered in the order in which they were made |
| `AppSpawn.StopsIff` | mac/base/startup/appspawn/standard/appspawn_service.c:160-225 | in every run: stopped by the termination signal, by the death of a known web spawner or by the fifth crash in a row, and by nothing else |
| `AppSpawn.KnownIff` | mac/base/startup/appspawn/standard/appspawn_service.c:160-225 | in every run: a process is known from the good answer of its child until it dies or appspawn is stopped |
| `AppSpawn.FiveInARow` | mac/base/startup/appspawn/standard/appspawn_service.c:970-998 | while appspawn has not been stopped, a child dying under way stops it if and only if it is the fifth in a row whose contexts were created one right after the other |
| `AppSpawn.StaysStopped` | mac/base/startup/appspawn/standard/appspawn_service.c:112-143 | a stop is not taken back by the events that are handled after it |
| `AppSpawn.GoodRepliesIff` | mac/base/startup/appspawn/standard/appspawn_service.c:956-963 | in a run whose children have numbers above zero, every reply with result 0 carries a process number above 0 if and only if no request came to a child that could not be watched |
| `AppSpawn.SuccessWithoutProcess` | mac/base/startup/appspawn/standard/appspawn_service.c:956-963 | the shortest run that ends in a reply with result 0 and process number 0 |
| `AppSpawn.InARowMeans` | mac/base/startup/appspawn/standard/appspawn_service.c:967-998 | the crash counter is at least n exactly when the last n crashed contexts have consecutive numbers |
| `AppSpawn.Server.ProcessSpawnReqMsg` | mac/base/startup/appspawn/standard/appspawn_service.c:919-964 | the five outcomes of a request, the reply of 0 when the child cannot be watched included |
| `AppSpawn.Server.ProcessChildResponse` | mac/base/startup/appspawn/standard/appspawn_service.c:1018-1098 | the reply to a child's result, good or bad |
| `AppSpawn.Server.WaitChildTimeout` | mac/base/startup/appspawn/standard/appspawn_service.c:1000-1016 | the reply to a child that does not answer |
| `AppSpawn.Server.WaitChildDied` | mac/base/startup/appspawn/standard/appspawn_service.c:970-998 | the reply to a child that died, and the crash counter |
| `AppSpawn.Server.HandleDiedPid` | mac/base/startup/appspawn/standard/appspawn_service.c:160-193 | a known process is forgotten; otherwise its context is answered |
| `AppSpawn.Server.OnTerminate` | mac/base/startup/appspawn/standard/appspawn_service.c:222-225 | the termination signal: the loop is told to end and the known processes are forgotten |
| `AppSpawn.Server.OnClose` | mac/base/startup/appspawn/standard/appspawn_service.c:233-262 | deletes exactly the contexts of the connection, walking the list it deletes from |
| `Lexer.StringRoundTrip` | mac/drivers/hdf_core/framework/tools/hc-gen/src/lexer.cpp:248-272 | a quoted string with escaped quotes is read back, the text behind it left and its lines counted, if and only if it has no backslash and no EOF character |
| `Lexer.StringIff` | mac/drivers/hdf_core/framework/tools/hc-gen/src/lexer.cpp:248-272 | a string is read with some value and some text left if and only if the text is that value, escaped, a quote and the text left, and the value has no backslash and no EOF character |
| `Lexer.CharReads` | mac/drivers/hdf_core/framework/tools/hc-gen/src/lexer.cpp:116-140 | skipping spaces, the first character that is not a blank, tab or carriage return, those in front gone; newlines counted |
| `Lexer.ValuesArePlain` | mac/drivers/hdf_core/framework/tools/hc-gen/src/lexer.cpp:248-272 | no string value ever has a backslash or an EOF character |
| `Lexer.CommentIsClosedIff` | mac/drivers/hdf_core/framework/tools/hc-gen/src/lexer.cpp:186-222 | any text without an EOF character behind the opening, spaces skipped or not: the comment is found to be closed if and only if, among the characters looked at, some slash stands behind a run of stars of odd length |
| `Lexer.CommentSlash` | mac/drivers/hdf_core/framework/tools/hc-gen/src/lexer.cpp:204-217 | a text that closes nowhere, and a slash: closed there if and only if the text ends in an odd run of stars, with the position behind the slash |
| `Lexer.CommentCloses` | mac/drivers/hdf_core/framework/tools/hc-gen/src/lexer.cpp:204-217 | whether spaces are skipped or not, stars in the text included: a comment whose text closes nowhere before and ends in n stars and a slash is closed there if and only if n is odd; if not, the search goes on behind the slash |
| `Lexer.LineCommentEnds` | mac/drivers/hdf_core/framework/tools/hc-gen/src/lexer.cpp:195-200 | a comment to the end of the line reaches over the first newline or EOF character or to the end of the text, counts the newline, and is never an error |
| `Lexer.NoComment` | mac/drivers/hdf_core/framework/tools/hc-gen/src/lexer.cpp:211-214 | a slash with anything else behind it is an error |
| `LexerBuffer.Reader.FillBuffer` | mac/drivers/hdf_core/framework/tools/hc-gen/src/lexer.cpp:171-184 | refilling a buffer of any size leaves the text to be read as it was; false exactly at its end |
| `LexerBuffer.Reader.GetChar` | mac/drivers/hdf_core/framework/tools/hc-gen/src/lexer.cpp:116-140 | reads the next character of the text wherever refills fall; consumed and left together stay the text, and the line number stays 1 plus the newlines consumed |
| `LexerBuffer.Reader.PeekChar` | mac/drivers/hdf_core/framework/tools/hc-gen/src/lexer.cpp:142-164 | skips only blanks, keeps the line count, and reports the end exactly when all that is buffered, or comes with the refill of an empty buffer, is blank; right exactly when in that case all the rest is blank |
| `LexerBuffer.EndTooEarly` | mac/drivers/hdf_core/framework/tools/hc-gen/src/lexer.cpp:148-161 | for a buffer of any size, a text of as many blanks and one more character is reported to have ended with that character still to come |
| `LexerBuffer.Reader.LexFromString` | mac/drivers/hdf_core/framework/tools/hc-gen/src/lexer.cpp:248-272 | reads a string through the buffer exactly as from the text |
| `LexerBuffer.ReadQuoted` | mac/drivers/hdf_core/framework/tools/hc-gen/src/lexer.cpp:248-272 | for a buffer of any size: a quoted string with anything behind it is read back through the buffer, with what is behind it left, if and only if it has no backslash and no EOF character |
| `LexerBuffer.Reader.ProcessComment` | mac/drivers/hdf_core/framework/tools/hc-gen/src/lexer.cpp:186-222 | steps over a comment through the buffer exactly as from the text |
| `LineSplitter.ScanIsSplit` | mac/base/hiviewdfx/hilog/frameworks/libhilog/utils/log_print.cpp:157-202 | the scan prints prefix, line and newline for each non-empty line in order and nothing else, if and only if no line ended by a newline is longer than 1023 characters |
| `LineSplitter.LongLineStays` | mac/base/hiviewdfx/hilog/frameworks/libhilog/utils/log_print.cpp:174-196 | what comes before a long line is printed line by line, and the long line with all behind it as it is, one prefix in front and one newline at the end |
| `LineSplitter.LogPrintWithFormat` | mac/base/hiviewdfx/hilog/frameworks/libhilog/utils/log_print.cpp:157-202 | the two-pointer scan prints what the line-by-line definition says, the verbatim tail after a long line included |
| `LineSplitter.NeverVerbatim` | mac/base/hiviewdfx/hilog/frameworks/libhilog/utils/log_print.cpp:174-196 | text printed as it is, with a newline behind, is never what printing it line by line gives |
| `PowerOrder.WakeReversesSuspend` | mac/drivers/hdf_core/framework/core/manager/src/devmgr_service.c:444-464 | over all hosts, devices and nodes the visits on waking are exactly the reverse of those on suspending |
| `PowerOrder.OrderOfTwo` | mac/drivers/hdf_core/framework/core/manager/src/devmgr_service.c:444-464 | waking takes hosts from the front, devices from the back and nodes from the front, suspending the other way round on each level |
| `PowerOrder.VisitsOfOne` | mac/drivers/hdf_core/adapter/uhdf2/host/src/devhost_service_full.c:92-123 | a node with a token is visited once; a node without one and a lost host not at all |
| `PowerOrder.DevicesReverse` | mac/drivers/hdf_core/adapter/uhdf2/host/src/devhost_service_full.c:189-214 | the same within a host |
| `PowerOrder.NodesReverse` | mac/drivers/hdf_core/adapter/uhdf2/host/src/devhost_service_full.c:92-123 | the same within a device |
| `PowerOrder.VisitsComplete` | mac/drivers/hdf_core/framework/core/manager/src/devmgr_service.c:444-464 | every token of every host that has its service is visited as often as it occurs, and nothing else |
| `PowerOrder.PowerWalk.PowerStateChangeOfHosts` | mac/drivers/hdf_core/framework/core/manager/src/devmgr_service.c:427-465 | visits them all even after failures and fails if and only if some attempt failed; invalid arguments visit nothing |
| `PowerOrder.PowerWalk.PmNotify` | mac/drivers/hdf_core/adapter/uhdf2/host/src/devhost_service_full.c:189-214 | the same for one host |
| `PowerOrder.PowerWalk.DispatchPowerState` | mac/drivers/hdf_core/adapter/uhdf2/host/src/devhost_service_full.c:92-123 | the same for one device |

## Left out

- Weak memory: relaxed atomics are sequentially consistent here; reordering is not modelled.
- Counter widths: the drop counter, the crash counters and context numbers are unbounded;
  `FlowControl.PeriodIsBounded` shows how far the byte counter gets.
- USB device numbers with a digit that is not valid in the detected base: nothing is claimed about
  which lines match them.
- USB digit counts below two: the program has four.
- The `MODULE_ALIAS` text around an alias line, the field offsets of the device table and byte
  order conversion.
- Negated brackets, backslash quoting and character classes of the pattern notation: no printer
  here uses them.
- The MDIO prefix macro is in a kernel header that is not part of this model; the text before the
  bits is taken as "mdio:".
- The other device-table printers of the same file: they print fixed fields with wildcards.
- The log call around the callback and the quota table of the flow control: formatting, sockets,
  properties; the quota is a parameter.
- CoffFile.NamesFit, ElfFile.NamesFit: names that do not fit the 256-byte string table overrun it in
  the source; the writers require that they fit, and that the section name fits its field.
- ELF, COFF and Mach-O structure definitions are in headers that are not part of this model; the
  published layouts are used, a little-endian host is assumed, and the identification bytes of the
  ELF header are a parameter.
- The walk over the input directory and the command line of the asset compiler.
- init: jobs that touch the service itself, sockets, files, hooks, the work in the child, and the
  search for a service by process number, which is taken to find it by its recorded number.
- init: seconds between two times are whole numbers, and the clock does not go back.
- init: memory of the held descriptors that a failed allocation leaves behind; `HeldFds` follows the
  descriptors, and a caller's array that is the service's own array is not modelled.
- appspawn: message framing, prefork pipes, the message kinds other than app and native spawn
  requests; deleting a context is taken to remove its watcher and its timer, and contexts are
  numbered one after the other.
- Error numbers of appspawn and of the device framework are in headers that are not part of this
  model; the constants only keep them apart.
- hc-gen: numbers, literals and the main loop; the default of the space-skipping argument is in a
  header that is not part of this model and is a parameter of `ProcessComment`.
- The line splitter with colours or wrapping, and the text of the prefix; for the converse of
  LineSplitter.ScanIsSplit the prefix is non-empty and has no newline.
- Adding and deleting devices, the mapping of system events to power states, and the messages between device manager and hosts: a host's answer to
  a power state is the host's own function.
- Kernel-log instrumentation, signal handlers, wrappers, session files, scripts and static tables.
