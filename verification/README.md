# Models and proofs of the client's algorithmic cores

The measurement client and the breakpad sources kept in its tree contain a handful of small
algorithms on which much else rests. This project models them in Dafny and proves what they
promise, for all inputs, all runs or all interleavings.

Code that changes things step by step is modelled by classes and methods with loops. Each such
method is proved equal to a function, or against a specification, and the theorems are about
that function or specification. The central ones are stated without the model's own helper functions, or have a
worked example beside them, so that a wrong function cannot hide behind itself.

- **Sweep.** `LineSweep`, `SweepMeaning`, `CompilationUnit`, `FunctionEntries` and `DwarfLineToModule` model the
  merge of functions and source lines in the symbol dumper, and the two places that feed it. On any lists
  the sweep ends after at most one transition per boundary; on disjoint ranges it assigns exactly the
  intersections and reports exactly the gaps. Addresses wrap at 2^64.
- **Qualified names.** `QualifiedNames`, `PathNames`, `CitedNames`, `SplitNames`, `MovedDefinitions` and `DieHandlers`
  model how function names are computed from scopes and from cited declarations. Splitting entries into
  declarations and definitions, anywhere in a forest, and putting the definitions at any later place in any scope,
  leaves the functions as they are.
- **Unicode.** `Unicode` and the modules named after it model the six converters between UTF-8,
  UTF-16 and UTF-32; `ByteBits` justifies their bit operations.
- **MD5.** `Md5` is section 3 of RFC 1321, `Md5Transform` its section 3.4 together with the unrolled
  transform, `Md5Context` the streaming hash, and `Md5KnownAnswer` an example of the standard.
- **Calendar.** `Calendar`, `Schedules`, `NextRuns`, `DueRuns`, `RepeatedEntries`, `GivenUpDays`, `TimeSearch`,
  `DateSearch` and `CalendarTiming` model the search for the next run of a calendar schedule, whose lists may
  repeat entries.
- **Task executor.** `TaskExecutor` and `TaskExecutorRuns` model the two threads of the executor and the
  events queued between them.
- **Scheduler.** `Scheduler`, `SchedulerRuns` and `ImmediateTasks` model the timed queue with its timer, and
  the list of tasks with the ids handed out for immediate ones.
- **Page allocator, byte cursor, NTP timestamps.** `PageAllocator`, `ByteCursor` with `SignBits`, and
  `NtpTimestamp`.

`MachineWords` holds the integer widths, and `Sorting` a sort in place of the library's. Dafny's integers are
unbounded; wherever the source wraps or truncates, the model says so.

Nine promises do not hold for every input. In each case the model keeps the code as it is, and a lemma
says exactly when the promise holds or what happens instead:

- `isLegalUTF8` does not look whether the byte after 0xED or 0xF4 is at least 0x80, so it accepts
  more than RFC 3629 (`UnicodeTheory.LegalityIsExact`, `UnicodeTheory.LegalityIsTooWide`).
- A UTF-32 value above 0x10FFFF sets `sourceIllegal` without stopping, and a restarted call forgets it
  (`UnicodeConversions.FlagIsExact`, `UnicodeConversions.Restart`, `UnicodeConversions.RestartForgets`).
- `findTime` returns a time in the past exactly when the reference hour is listed twice and nothing is left in
  it (`CalendarTiming.CalendarTiming.FindTime`, `Schedules.StayingInHourIsWrong`, `Schedules.HourTwiceFails`).
- `nextRun` goes back in time when the month, the day or the hour asked for is listed twice and nothing is left in
  it: with months 3 and 3 and day 1, asked on 15 March, it returns 1 March of the same year; with days 15 and 15
  and hour 8, asked on the 15th at nine, eight o'clock of the same day (`RepeatedEntries.RepeatsMislead`,
  `RepeatedEntries.MonthTwiceFails`, `RepeatedEntries.DayTwiceFails`).
- `nextRun` skips the rest of a day, even with no entry listed twice, when the time it takes there has been executed:
  with runs at 8:00 and 8:01 every day, asked just after the first one was executed on time, as `reset` asks, it
  skips the second one and returns eight o'clock of the next day (`Schedules.DayIsGivenUp`,
  `NextRuns.GivingUpIsExact`, `GivenUpDays.RestOfDayIsSkipped`, `GivenUpDays.NextDayIsReturned`). The inputs for
  which `nextRun` does not return the earliest run that is left, within its horizon and the schedule's end, are
  exactly those of these two promises, unless the end hides the result (`NextRuns.Misled`,
  `NextRuns.MisledIsExact`).
- `nextRun` moves its year on with the last listed month even when it has found a run there, and then drops
  that run if it is in the second year after the reference year (`CalendarTiming.CalendarTiming.NextRun`,
  `Schedules.HorizonMatters`).
- The scheduler's timer takes an `int`: a run 2^31 ms or more ahead, some 25 days, gets another interval
  (`SchedulerRuns.IntervalIsExact`, `SchedulerRuns.FiftyDaysAreSevenHours`), in half of all cases a negative one,
  with which the timer does not fire (`SchedulerRuns.EveryTimerThatFires`, `SchedulerRuns.ThirtyDaysAreNever`).
- `PageAllocator::Alloc` maps a single page for the 15 largest sizes (`PageAllocator.SizesThatFit`).
- An NTP timestamp loses a millisecond unless the milliseconds are a multiple of 125
  (`NtpTimestamp.RoundTripInEra0`).

## Model

| member | source | states |
|---|---|---|
| `LineSweep.NextTransitionAdvances` | 3rdparty/breakpad/src/common/dwarf_cu_to_module.cc:982-991 | the next transition, reached with wrapping subtraction, is the nearest boundary of the current function and line strictly ahead, or the end of the address space |
| `LineSweep.SweepIsShort` | 3rdparty/breakpad/src/common/dwarf_cu_to_module.cc:880-1007 | on any sorted lists, overlapping or not, the sweep takes at most twice (functions + lines) transitions |
| `LineSweep.SweepIsExact` | 3rdparty/breakpad/src/common/dwarf_cu_to_module.cc:880-1007 | on disjoint lists the lines held by each function, the functions reported and the lines reported are those that the definitions by bytes give |
| `SweepMeaning.AssignedLinesAreOrdered` | 3rdparty/breakpad/src/common/dwarf_cu_to_module.cc:918-929 | a function's pieces are ascending, disjoint, non-empty and inside the function |
| `SweepMeaning.AssignedLineIsIntersection` | 3rdparty/breakpad/src/common/dwarf_cu_to_module.cc:918-929 | each piece is all that the function and one line share, with that line's file and number |
| `SweepMeaning.AssignedLinesCoverEachByteOnce` | 3rdparty/breakpad/src/common/dwarf_cu_to_module.cc:819-1008 | a byte is in a piece, and in one only, exactly if a function and a line both have it |
| `SweepMeaning.GapReportsAreExact` | 3rdparty/breakpad/src/common/dwarf_cu_to_module.cc:930-944 | a function is reported, once, exactly if some byte of it has no line |
| `SweepMeaning.StrayReportsAreExact` | 3rdparty/breakpad/src/common/dwarf_cu_to_module.cc:945-967 | a line is reported, once, exactly if some byte of it has no function and is not padding before the next function |
| `SweepMeaning.OnlyPaddingIsForgiven` | 3rdparty/breakpad/src/common/dwarf_cu_to_module.cc:945-967 | a line that goes past the end of a function into a gap is reported unless it starts in the function and ends where the next one starts |
| `CompilationUnit.CompilationUnit.AssignLinesToFunctions` | 3rdparty/breakpad/src/common/dwarf_cu_to_module.cc:819-1008 | sorts both lists, ends within the bound, and on disjoint ranges leaves exactly the assigned lines and the reports above |
| `CompilationUnit.CompilationUnit.Sweep` | 3rdparty/breakpad/src/common/dwarf_cu_to_module.cc:839-1007 | the loop computes the specified sweep, both asserted invariants hold at each transition, and it stops at the wrap to zero |
| `CompilationUnit.NextPosition` | 3rdparty/breakpad/src/common/dwarf_cu_to_module.cc:904-1005 | the asserted invariants and the asserted progress of one transition, and where the two iterators go |
| `CompilationUnit.CompilationUnit.Attribute` | 3rdparty/breakpad/src/common/dwarf_cu_to_module.cc:918-980 | what one transition adds to lines and reports in each of the four states of coverage |
| `CompilationUnit.CompilationUnit.FinishFunction` | 3rdparty/breakpad/src/common/dwarf_cu_to_module.cc:521-555 | a function is added exactly if its range, given by an end or a length that may wrap, is non-empty, does not start at zero and ends below 2^64; it has the entry's name, or `<name omitted>` if that is empty; and what the sweep is given stays proper |
| `FunctionEntries.ContributionIsExact` | 3rdparty/breakpad/src/common/dwarf_cu_to_module.cc:521-555 | the sum that may wrap adds one function with the range and the name of its entry, or none if the range, computed without wrap-around, is empty, starts at zero or ends past 2^64 |
| `CompilationUnit.CompilationUnit.Finish` | 3rdparty/breakpad/src/common/dwarf_cu_to_module.cc:1010-1033 | the lines the reader kept are taken and handed out, the functions given away hold exactly their intersections, and the gaps are reported; nothing happens for a language without functions |
| `DwarfLineToModule.ClippedIsLongestThatFits` | 3rdparty/breakpad/src/common/dwarf_line_to_module.cc:106-115 | clipping keeps the longest part of a line that does not pass the end of the address space |
| `DwarfLineToModule.LinesAreProper` | 3rdparty/breakpad/src/common/dwarf_line_to_module.cc:106-141 | every line handed on is non-empty, does not wrap and does not start at zero |
| `DwarfLineToModule.LinesAreRecords` | 3rdparty/breakpad/src/common/dwarf_line_to_module.cc:106-141 | the lines handed on are those of the records that are not empty, not dropped and have a file, in their order, each with its record's address, file and number |
| `DwarfLineToModule.DroppedAreRuns` | 3rdparty/breakpad/src/common/dwarf_line_to_module.cc:115-124 | a record is dropped exactly if it ends a run of records that starts at address zero and in which each one starts where the one before it ends |
| `DwarfLineToModule.DwarfLineToModule.AddLine` | 3rdparty/breakpad/src/common/dwarf_line_to_module.cc:106-141 | the line kept, if any, the end of omitted code and the warning after one call; and after any calls the lines and the warning are those of the rule on all calls so far |
| `DwarfLineToModule.DwarfLineToModule.DefineFile` | 3rdparty/breakpad/src/common/dwarf_line_to_module.cc:73-104 | a file is found afterwards under its number, taken as unsigned, with the name that its directory gives it, and no other file changes; the highest number, with -1 for the next free one; the warning for an unknown directory |
| `DwarfLineToModule.DwarfLineToModule.DefineDir` | 3rdparty/breakpad/src/common/dwarf_line_to_module.cc:66-71 | a directory is found afterwards under its number, and no other changes; number zero stays the compilation directory |
| `DwarfLineToModule.ExpandedIsAbsolute` | 3rdparty/breakpad/src/common/dwarf_line_to_module.cc:44-62 | an expanded path ends with the path, is absolute exactly if the path or the base is, and has one slash between them |
| `SplitNames.SplittingKeepsNames` | 3rdparty/breakpad/src/common/dwarf_cu_to_module.cc:303-337 | for any plain forest and any set of entries, with or without linkage names, splitting them into declarations in place and definitions at the end leaves all functions, with names and addresses, unchanged |
| `MovedDefinitions.MoveKeepsNames` | 3rdparty/breakpad/src/common/dwarf_cu_to_module.cc:303-420 | in any forest, whatever else it declares and cites, an entry that nothing else cites can be declared in its place and defined at any later place in any scope, and all functions keep names and addresses |
| `MovedDefinitions.MovesKeepNames` | 3rdparty/breakpad/src/common/dwarf_cu_to_module.cc:303-420 | so do any number of such moves, also of entries inside moved definitions |
| `MovedDefinitions.MovedNamesArePaths` | 3rdparty/breakpad/src/common/dwarf_cu_to_module.cc:303-420 | and without linkage names every function still has the name that its path in the unsplit forest spells |
| `PathNames.NamesArePaths` | 3rdparty/breakpad/src/common/dwarf_cu_to_module.cc:537-590 | without declarations and linkage names the functions are those with a proper range, in order, each under the path of scope names that leads to it, spelled with the language's separator |
| `PathNames.NestedName` | 3rdparty/breakpad/src/common/dwarf_cu_to_module.cc:571-590 | a function f in a class b in a namespace a is named a::b::f in C++, a.b.f in Java and f in Assembler |
| `PathNames.StepsSpellPath` | 3rdparty/breakpad/src/common/language.cc:40-77 | qualifying a name scope by scope spells the whole path, with nameless scopes at its start left out |
| `PathNames.SplitNamesArePaths` | 3rdparty/breakpad/src/common/dwarf_cu_to_module.cc:303-420 | after splitting any entries every function still has the name that its path in the unsplit forest spells |
| `SplitNames.DefinitionHasName` | 3rdparty/breakpad/src/common/dwarf_cu_to_module.cc:368-420 | a definition that cites the record of its declaration has, in any scope, the name of the unsplit entry, whether or not it repeats its name |
| `CitedNames.LinkageNameWins` | 3rdparty/breakpad/src/common/dwarf_cu_to_module.cc:368-385 | a linkage name is the name, whatever the entry cites and wherever it is |
| `CitedNames.OtherNames` | 3rdparty/breakpad/src/common/dwarf_cu_to_module.cc:375-420 | without one the cited declaration gives the qualified name, or else the scope, and the name if the entry has none; without a citation the context is the scope |
| `CitedNames.ForeignIsIgnored` | 3rdparty/breakpad/src/common/dwarf_cu_to_module.cc:303-337 | a citation into another compilation unit counts for nothing unless such citations are followed |
| `CitedNames.KnownIsCited` | 3rdparty/breakpad/src/common/dwarf_cu_to_module.cc:303-337 | one that is followed takes effect once its target has been recorded |
| `CitedNames.FunctionVisited` | 3rdparty/breakpad/src/common/dwarf_cu_to_module.cc:488-550 | a function entry contributes its function under its name, also if it is a declaration, and a declaration its record |
| `CitedNames.CitedName` | 3rdparty/breakpad/src/common/dwarf_cu_to_module.cc:303-420 | a definition without a name, outside the class C in which f is declared, is named C::f, or by the declaration's linkage name, or not at all if the declaration is in a unit that is not followed |
| `SplitNames.PlainIgnoresSpecifications` | 3rdparty/breakpad/src/common/dwarf_cu_to_module.cc:368-420 | entries that neither declare nor cite depend on no record and leave none |
| `DieHandlers.GenericDieHandler.ComputeQualifiedName` | 3rdparty/breakpad/src/common/dwarf_cu_to_module.cc:368-420 | the name, from linkage name, cited record or context, and the record that a declaration leaves |
| `DieHandlers.GenericDieHandler.ProcessSpecification` | 3rdparty/breakpad/src/common/dwarf_cu_to_module.cc:303-337 | a reference takes effect exactly if it may be followed and its target is recorded |
| `DieHandlers.CuContext.VisitDie` | 3rdparty/breakpad/src/common/dwarf_cu_to_module.cc:558-590 | an entry's handler and its children contribute the functions and records that the theorem is about |
| `UnicodeTheory.LegalityIsExact` | 3rdparty/breakpad/src/common/convert_UTF.c:292-315 | with the length the first byte gives, the check accepts exactly the characters of section 4 of RFC 3629 and the ones with 0xED or 0xF4 before a byte below 0x80 |
| `UnicodeTheory.LegalityIsTooWide` | 3rdparty/breakpad/src/common/convert_UTF.c:304-308 | the bytes ED 41 80 are accepted and read as U+C040 |
| `UnicodeTheory.LegalValueIsScalar` | 3rdparty/breakpad/src/common/convert_UTF.c:172-189 | for every accepted character the table subtraction gives a scalar value, without underflow, of which the character is the standard encoding exactly if it is not one of the lax ones |
| `UnicodeTheory.EncodedIsRead` | 3rdparty/breakpad/src/common/convert_UTF.c:469-509 | reading the encoding of a scalar value gives that value |
| `UnicodeTheory.KnownEncodings` | 3rdparty/breakpad/src/common/convert_UTF.c:253-272 | examples from section 7 of RFC 3629 and section 5 of RFC 2781 |
| `UnicodeConversions.Restart` | 3rdparty/breakpad/src/common/convert_UTF.c:333-401 | resuming at the returned pointers with more source or room gives what one call on everything gives, for all six converters; only a raised UTF-32 flag is forgotten |
| `UnicodeConversions.RestartForgets` | 3rdparty/breakpad/src/common/convert_UTF.c:61-105 | a UTF-32 source on which resuming ends well where one call with room ends with sourceIllegal |
| `UnicodeConversions.FlagIsExact` | 3rdparty/breakpad/src/common/convert_UTF.c:80-95 | the flag that is raised without stopping comes from UTF-32 values above 0x10FFFF and from nothing else |
| `UnicodeFailures.CutShortIsExhausted` | 3rdparty/breakpad/src/common/convert_UTF.c:341-344 | a text cut off inside a character, in UTF-8 or UTF-16, is converted up to there and ends with sourceExhausted |
| `UnicodeFailures.IllegalIsPermanent` | 3rdparty/breakpad/src/common/convert_UTF.c:345-348 | from UTF-8 and UTF-16 the result is sourceIllegal if and only if it is a failure that no more source and no more room would change |
| `UnicodeFailures.LongFormsAreAwaited` | 3rdparty/breakpad/src/common/convert_UTF.c:172-181 | first bytes from 0xF5 on make the conversion wait for four, five or six bytes before it is illegal |
| `UnicodeFailures.LoneSurrogatesPass` | 3rdparty/breakpad/src/common/convert_UTF.c:121-146 | in lenient UTF-16 units that form no pair are written like characters |
| `UnicodeFailures.FromUtf32` | 3rdparty/breakpad/src/common/convert_UTF.c:61-105 | what conversions from UTF-32 write for every sequence of values, which ones they replace by 0xFFFD or leave out, where they stop and when they say sourceIllegal |
| `UnicodeRoundTrips.ConvertIsDecodeThenEncode` | 3rdparty/breakpad/src/common/convert_UTF.c:109-161 | every call from UTF-8 or UTF-16 reads whole characters, writes the encodings of their values, and stops at a character's boundary on both sides, also when the target is full |
| `UnicodeRoundTrips.EncodedConverts` | 3rdparty/breakpad/src/common/convert_UTF.c:333-401 | every conversion maps the encoding of a text to the encoding of the same text |
| `UnicodeRoundTrips.RoundTrip` | 3rdparty/breakpad/src/common/convert_UTF.c:212-277 | converting strictly and back succeeds, and is the identity from UTF-16 always and from UTF-8 exactly without lax pairs |
| `UnicodeRoundTrips.RoundTrip32` | 3rdparty/breakpad/src/common/convert_UTF.c:405-453 | from UTF-32 and back is the identity whenever the strict conversion succeeds |
| `UnicodeRoundTrips.ThroughUtf16` | 3rdparty/breakpad/src/common/convert_UTF.c:457-514 | UTF-8 to UTF-32 directly agrees with going through UTF-16, on every input |
| `UnicodeRoundTrips.StrictAgreesWithLenient` | 3rdparty/breakpad/src/common/convert_UTF.c:357-386 | strict and lenient conversion agree on all UTF-8 input |
| `UnicodeRoundTrips.SuccessIsWellFormedness` | 3rdparty/breakpad/src/common/convert_UTF.c:109-161 | strict conversion with room succeeds on exactly the encodings of texts, from UTF-8 up to lax pairs |
| `UnicodeConverters.ConvertUTF8toUTF32` | 3rdparty/breakpad/src/common/convert_UTF.c:457-514 | the loop over pointers computes the specified conversion and writes nowhere else |
| `UnicodeConverters.ConvertUTF8toUTF16` | 3rdparty/breakpad/src/common/convert_UTF.c:333-401 | the same for this converter |
| `UnicodeConverters.ConvertUTF16toUTF32` | 3rdparty/breakpad/src/common/convert_UTF.c:109-161 | the same for this converter |
| `UnicodeConverters.ConvertUTF16toUTF8` | 3rdparty/breakpad/src/common/convert_UTF.c:212-277 | the same for this converter |
| `UnicodeConverters.ConvertUTF32toUTF16` | 3rdparty/breakpad/src/common/convert_UTF.c:61-105 | the same for this converter |
| `UnicodeConverters.ConvertUTF32toUTF8` | 3rdparty/breakpad/src/common/convert_UTF.c:405-453 | the same for this converter |
| `UnicodeConverters.GetUtf8` | 3rdparty/breakpad/src/common/convert_UTF.c:339-360 | reading a character by table: a scalar value, or sourceExhausted exactly if fewer bytes are there than the first one announces, or sourceIllegal |
| `UnicodeConverters.PutUtf8` | 3rdparty/breakpad/src/common/convert_UTF.c:258-272 | the bytes written from the back are the encoding of section 3 of RFC 3629 |
| `UnicodeConverters.IsLegalUtf8Sequence` | 3rdparty/breakpad/src/common/convert_UTF.c:323-329 | whether the source starts with a character that the readers accept |
| `ByteBits.ContinuationBits` | 3rdparty/breakpad/src/common/convert_UTF.c:262-268 | the masks make the continuation byte of the model |
| `ByteBits.OnlyTheLowByteCounts` | 3rdparty/breakpad/src/common/convert_UTF.c:262-268 | the cast to a byte makes only the low byte of the value count |
| `ByteBits.FirstByteBits` | 3rdparty/breakpad/src/common/convert_UTF.c:262-268 | the marks make the first byte of the model |
| `Md5Transform.StepIsDefinition` | 3rdparty/breakpad/src/common/md5.cc:150-160 | each use of the step macro, with its optimized core functions, is one step of section 3.4 of RFC 1321 |
| `Md5Transform.CoreFunctionsAgree` | 3rdparty/breakpad/src/common/md5.cc:150-156 | the macros F1 and F2 are the functions F and G of the standard |
| `Md5Transform.MD5Transform` | 3rdparty/breakpad/src/common/md5.cc:167-249 | the 64 unrolled steps, with their literal constants, word indices and rotations, compute the standard's compression function in place |
| `Md5Transform.FirstRound` | 3rdparty/breakpad/src/common/md5.cc:176-191 | the first 16 literal steps are steps 0 to 15 of the definition |
| `Md5Transform.SecondRound` | 3rdparty/breakpad/src/common/md5.cc:193-208 | the next 16 are steps 16 to 31 |
| `Md5Transform.ThirdRound` | 3rdparty/breakpad/src/common/md5.cc:210-225 | the next 16 are steps 32 to 47 |
| `Md5Transform.FourthRound` | 3rdparty/breakpad/src/common/md5.cc:227-242 | the last 16 are steps 48 to 63 |
| `Md5Transform.WordOfItsBytes` | 3rdparty/breakpad/src/common/md5.cc:140-142 | a word stored in the buffer is read back by the transform |
| `Md5.CounterAdds` | 3rdparty/breakpad/src/common/md5.cc:65-70 | the two counter words, with the carry between them, hold the bits seen modulo 2^64 |
| `Md5.PositionOfCounter` | 3rdparty/breakpad/src/common/md5.cc:72-72 | the buffer position taken from the low word is the number of bytes waiting |
| `Md5.LengthIsLowFirst` | 3rdparty/breakpad/src/common/md5.cc:137-139 | the length is appended as eight bytes, the lowest first |
| `Md5.OneBlockOfPadding` | 3rdparty/breakpad/src/common/md5.cc:118-144 | when the length fits, one block of padding completes the digest of sections 3.1 to 3.5 of RFC 1321 |
| `Md5.TwoBlocksOfPadding` | 3rdparty/breakpad/src/common/md5.cc:126-144 | otherwise two blocks do |
| `Md5Context.Md5Context.Init` | 3rdparty/breakpad/src/common/md5.cc:46-55 | an initialized context has seen nothing |
| `Md5Context.Md5Context.Update` | 3rdparty/breakpad/src/common/md5.cc:61-103 | an update appends its bytes to the message seen, keeping state, counter and waiting bytes in step |
| `Md5Context.Md5Context.Final` | 3rdparty/breakpad/src/common/md5.cc:109-148 | the result is the standard's digest of everything seen, and the context is cleared |
| `Md5Context.HashPieces` | 3rdparty/breakpad/src/common/md5.cc:10-14 | however a message is cut into pieces, the digest is that of the whole |
| `Md5KnownAnswer.KnownAnswer` | 3rdparty/breakpad/src/common/md5.cc:167-249 | the digest of "abc" is the one listed in section A.5 of RFC 1321, worked out step by step |
| `Calendar.DatesAreChronological` | src/libclient/timing/calendartiming.cpp:167-178 | comparing dates by year, month and day is comparing their day numbers, on which the day of the week rests |
| `Calendar.EpochIsThursday` | src/libclient/timing/calendartiming.cpp:179-179 | the day of the week is counted from the right day |
| `Calendar.SameDaysOfTheWeek` | src/libclient/timing/calendartiming.cpp:179-179 | in every year the days 4/4, 6/6, 8/8, 10/10, 12/12, 9/5, 5/9, 11/7, 7/11, 7/3 and the last of February fall on the same day of the week, which takes the length of every month |
| `Calendar.ThousandMillionSeconds` | src/libclient/timing/calendartiming.cpp:192-192 | a thousand million seconds after the start of 1970 it was 1:46:40 on 9 September 2001 |
| `Calendar.InstantsAreChronological` | src/libclient/timing/calendartiming.cpp:147-153 | comparing instants is comparing their milliseconds |
| `CalendarTiming.CalendarTiming.constructor` | src/libclient/timing/calendartiming.cpp:87-109 | the schedule has the given lists, sorted |
| `CalendarTiming.CalendarTiming.FindTime` | src/libclient/timing/calendartiming.cpp:38-85 | the result is the least listed time of day from the reference on, or none if there is none; the one exception is exact |
| `CalendarTiming.CalendarTiming.NextRun` | src/libclient/timing/calendartiming.cpp:123-235 | for every schedule and last execution, what the search finds is returned exactly if it is within the horizon and not after the end; that is the next run exactly for the inputs that do not mislead it; and then the answer is right in milliseconds: the earliest listed full second that is not before now nor before the start, both cut to seconds, and not within two seconds after the last execution, not after the end; or none, if there is none up to the end of the next year |
| `CalendarTiming.CalendarTiming.TryDay` | src/libclient/timing/calendartiming.cpp:173-203 | something is found at a position of the two lists exactly if it is a hit there, and if it is the first hit it is what the search finds |
| `CalendarTiming.CalendarTiming.Reset` | src/libclient/timing/calendartiming.cpp:116-121 | records the execution and says whether the search returns another run; if the search is not misled that is whether the right answer is a run |
| `Schedules.NextIsOnSchedule` | src/libclient/timing/calendartiming.cpp:162-234 | whatever the last execution, a next run is on schedule, not before the reference and, on the reference date, more than a second after the last execution |
| `Schedules.NothingIsSkipped` | src/libclient/timing/calendartiming.cpp:162-234 | what is listed between the reference and the next run is on the reference date and has been executed |
| `Schedules.StayingInHourIsWrong` | src/libclient/timing/calendartiming.cpp:66-78 | in the exceptional case of findTime the time returned is before the reference |
| `Schedules.HourTwiceFails` | src/libclient/timing/calendartiming.cpp:66-78 | a schedule with an hour listed twice for which findTime gives a past time |
| `Schedules.HorizonMatters` | src/libclient/timing/calendartiming.cpp:206-223 | a schedule on 29 February whose next run is dropped |
| `NextRuns.MisledIsExact` | src/libclient/timing/calendartiming.cpp:123-235 | for any last execution and end, what is returned is the earliest run left within the horizon and the end, or nothing if there is none, if and only if the input does not mislead the search |
| `DueRuns.RightUnlessMisled` | src/libclient/timing/calendartiming.cpp:123-235 | unless the search is misled its answer is right, said without the reference, in milliseconds of now, start, end and last execution and in list entries |
| `NextRuns.StrayIsWrong` | src/libclient/timing/calendartiming.cpp:162-234 | in each of the misleading cases one instant is either found and in the past, or the next run and not found |
| `NextRuns.FindIsNext` | src/libclient/timing/calendartiming.cpp:162-234 | where the search neither goes back, nor stays in an hour that is used up, nor gives up the reference date, it finds the next run and nothing else |
| `NextRuns.GivingUpIsExact` | src/libclient/timing/calendartiming.cpp:187-199 | without repeated entries in the way, the search finds the next run if and only if it does not give up the reference date |
| `NextRuns.FindIsUnique` | src/libclient/timing/calendartiming.cpp:162-234 | on every schedule the search finds at most one instant |
| `NextRuns.NextIsUnique` | src/libclient/timing/calendartiming.cpp:123-235 | there is at most one next run |
| `RepeatedEntries.RepeatsMislead` | src/libclient/timing/calendartiming.cpp:162-234 | without a last execution the misleading schedules are those with a repeated hour that is used up, a repeated day with no time left, or a repeated month with no run left and a date to go back to |
| `RepeatedEntries.ListedOnceIsEnough` | src/libclient/timing/calendartiming.cpp:104-108 | a schedule that lists the month, day and hour of the reference once misleads the search only by the reference date being given up, which takes a last execution; without an end exactly then |
| `RepeatedEntries.MonthTwiceFails` | src/libclient/timing/calendartiming.cpp:165-199 | a schedule with a month listed twice for which a past date is returned |
| `RepeatedEntries.DayTwiceFails` | src/libclient/timing/calendartiming.cpp:173-201 | a schedule with a day listed twice for which a past time is returned |
| `GivenUpDays.RestOfDayIsSkipped` | src/libclient/timing/calendartiming.cpp:116-121 | a schedule and an execution on time, for every date, after which a listed run of the same day is left and not returned |
| `GivenUpDays.NextDayIsReturned` | src/libclient/timing/calendartiming.cpp:187-199 | what is returned instead is on the next day |
| `DateSearch.HitIsFind` | src/libclient/timing/calendartiming.cpp:162-201 | the first hit, year by year, month entry by month entry and day entry by day entry, is what the search finds |
| `DateSearch.FindHasHit` | src/libclient/timing/calendartiming.cpp:162-201 | whatever there is to find has a hit at some position of its year |
| `TaskExecutor.TaskExecutor.Execute` | src/libclient/task/taskexecutor.cpp:244-276 | a request is accepted exactly if its preconditions are met and mobile use is allowed or not at hand; it then starts or waits in line |
| `TaskExecutor.TaskExecutor.OnStarted` | src/libclient/task/taskexecutor.cpp:192-199 | the new state after the slot |
| `TaskExecutor.TaskExecutor.OnFinished` | src/libclient/task/taskexecutor.cpp:203-216 | the new state after the slot |
| `TaskExecutor.TaskExecutor.ProcessMainEvent` | src/libclient/task/taskexecutor.cpp:157-161 | the main thread takes its next queued event: a slot or a signal passed on |
| `TaskExecutor.TaskExecutor.ProcessWorkerEvent` | src/libclient/task/taskexecutor.cpp:32-97 | the worker's branches: a measurement that cannot be created, prepared or started, or has no interface, finishes at once; otherwise it goes on and nothing but its start is posted |
| `TaskExecutor.TaskExecutor.MeasurementEnded` | src/libclient/task/taskexecutor.cpp:99-135 | a measurement's outcome is sent to the main thread under the current test |
| `TaskExecutorRuns.EveryRunKeepsInv` | src/libclient/task/taskexecutor.cpp:137-276 | in every interleaving at most one measurement is outstanding, accepted tests are those done, current and queued in that order, and the announced running flag alternates |
| `TaskExecutorRuns.RunningMeansOutstanding` | src/libclient/task/taskexecutor.cpp:192-216 | running is set exactly while a measurement is pending, executing or has an unnoticed end; an idle executor has an empty queue; onStarted never has anything to do |
| `TaskExecutorRuns.ToldInOrder` | src/libclient/task/taskexecutor.cpp:157-161 | in every interleaving listeners hear a prefix of: first accepted test started, finished, second one started, and so on |
| `TaskExecutorRuns.BeginGoesOn` | src/libclient/task/taskexecutor.cpp:32-97 | a measurement is under way after its begin if and only if it could be started, and its end is posted at once if and only if not |
| `TaskExecutorRuns.NothingElseIsTold` | src/libclient/task/taskexecutor.cpp:32-135 | in every run the notices told and under way are, in order, a start for each begin, and a finish for each failed begin and each report of a measurement, and no others |
| `TaskExecutorRuns.MeasuredUntilReport` | src/libclient/task/taskexecutor.cpp:72-135 | a test that is being measured stays so, whatever happens, until its report |
| `TaskExecutorRuns.NoticesAreInPairs` | src/libclient/task/taskexecutor.cpp:157-161 | the notices of tests are the start and the finish of each, test by test |
| `TaskExecutorRuns.QuietMeansAllDone` | src/libclient/task/taskexecutor.cpp:203-216 | with nothing under way every accepted test was started and finished once, in order |
| `TaskExecutorRuns.StepsRunOut` | src/libclient/task/taskexecutor.cpp:32-216 | without new requests every step brings the end nearer |
| `TaskExecutorRuns.EveryRunEnds` | src/libclient/task/taskexecutor.cpp:32-276 | from every reachable state every sequence of events without requests is no longer than what remained to be done, and when no event has anything left to do every accepted test has been run |
| `TaskExecutorRuns.ComesToRest` | src/libclient/task/taskexecutor.cpp:32-276 | and there is such a sequence that comes to rest |
| `Scheduler.Scheduler.UpdateTimer` | src/libclient/scheduler/scheduler.cpp:56-81 | the timer is stopped, or started for the head with the time left to it or 100 ms |
| `Scheduler.Scheduler.Enqueue` | src/libclient/scheduler/scheduler.cpp:83-124 | when the test is refused, where it goes otherwise, and the queue, the ids and the timer then |
| `Scheduler.Scheduler.Dequeue` | src/libclient/scheduler/scheduler.cpp:126-144 | the queue without the entry of that id, the ids without it, the timer, and the position it had; also for an unknown id |
| `Scheduler.Scheduler.Timeout` | src/libclient/scheduler/scheduler.cpp:146-182 | the head is left alone, executed, or executed and enqueued again |
| `SchedulerRuns.EveryRunAgrees` | src/libclient/scheduler/scheduler.cpp:56-182 | in every run queued ids are distinct, testIds is their set, the timer is started exactly if there is a queue and for its head, and timeout never reads an empty queue |
| `SchedulerRuns.TimerFollowsHead` | src/libclient/scheduler/scheduler.cpp:56-182 | the timer is set anew exactly when the head changes or the timer has fired, for the time left to the new head |
| `SchedulerRuns.TestsComeBack` | src/libclient/scheduler/scheduler.cpp:158-181 | a timeout takes a test out of the scheduler exactly if it was executed and has no further run |
| `SchedulerRuns.EnqueueAdds` | src/libclient/scheduler/scheduler.cpp:83-124 | a test is refused exactly if its id is queued or it has no next run; otherwise it is put into the queue and all others stay as they are |
| `SchedulerRuns.DequeueRemoves` | src/libclient/scheduler/scheduler.cpp:126-144 | a dequeued id is gone from the queue and the set, and the queue holds exactly the other tests in the order they had |
| `SchedulerRuns.TimeoutTakesHead` | src/libclient/scheduler/scheduler.cpp:146-182 | a timeout leaves the queue alone within 1.5 s of an execution; otherwise it takes off the head, which comes back if and only if it has another run |
| `SchedulerRuns.DequeueUndoesEnqueue` | src/libclient/scheduler/scheduler.cpp:83-144 | dequeuing a test that was just enqueued gives the queue back as it was |
| `SchedulerRuns.PlaceIsStable` | src/libclient/scheduler/scheduler.cpp:93-119 | a test goes after those due no later and before the first one due later |
| `SchedulerRuns.EveryRunInOrder` | src/libclient/scheduler/scheduler.cpp:83-182 | in every run with fixed due times the queue is sorted by them, with ties in order of arrival |
| `SchedulerRuns.IntervalIsExact` | src/libclient/scheduler/scheduler.cpp:66-79 | the timer's interval is the time asked for exactly if that is below 2^31 ms |
| `SchedulerRuns.EveryTimerThatFires` | src/libclient/scheduler/scheduler.cpp:66-79 | in every run the timer is started with an interval that is not negative exactly if there is a queue and the time asked for is below 2^31 ms modulo 2^32 ms |
| `SchedulerRuns.FiftyDaysAreSevenHours` | src/libclient/scheduler/scheduler.cpp:71-71 | a run 50 days ahead gets an interval of less than 7 hours |
| `SchedulerRuns.ThirtyDaysAreNever` | src/libclient/scheduler/scheduler.cpp:71-71 | a run 30 days ahead gets a negative interval |
| `ImmediateTasks.TaskList.AddTask` | src/libclient/scheduler/scheduler.cpp:214-222 | a task is appended exactly if its id is new, and the id set stays that of the list |
| `ImmediateTasks.TaskList.RemoveTask` | src/libclient/scheduler/scheduler.cpp:224-231 | exactly the task with the id is removed, the others stay in order |
| `ImmediateTasks.OthersJoin` | src/libclient/scheduler/scheduler.cpp:224-231 | what stays is taken task by task, in the order it had |
| `ImmediateTasks.TaskList.TaskByTaskId` | src/libclient/scheduler/scheduler.cpp:295-306 | a task with the id if there is one, else the invalid task |
| `ImmediateTasks.TaskList.NextImmediateTask` | src/libclient/scheduler/scheduler.cpp:313-336 | a stored immediate task that fits, or a new one with the largest free id, and never the invalid task while fewer than 2^31 - 2 ids are taken |
| `ImmediateTasks.SomeIdIsFree` | src/libclient/scheduler/scheduler.cpp:325-333 | while fewer than 2^31 - 2 ids are taken one from -2 down is free |
| `PageAllocator.PageAllocator.Alloc` | 3rdparty/breakpad/src/common/memory.h:70-97 | the block returned is new; all blocks stay pairwise disjoint, after their run's header and inside its pages, and the offset stays the used part |
| `PageAllocator.PageAllocator.GetNPages` | 3rdparty/breakpad/src/common/memory.h:112-129 | the mapped run is put at the head of the list, or nothing changes |
| `PageAllocator.PageAllocator.OwnsPointer` | 3rdparty/breakpad/src/common/memory.h:101-109 | a pointer is owned exactly if it is in one of the runs |
| `PageAllocator.OwnedIsInPages` | 3rdparty/breakpad/src/common/memory.h:101-109 | owned means in the pages of a run, as long as their number does not wrap |
| `PageAllocator.PageAllocator.FreeAll` | 3rdparty/breakpad/src/common/memory.h:131-138 | the ranges unmapped are those of the runs |
| `PageAllocator.SafeMeans` | 3rdparty/breakpad/src/common/memory.h:70-109 | every byte of a block is owned, and no block overlaps another or any header |
| `PageAllocator.BumpIsSafe` | 3rdparty/breakpad/src/common/memory.h:74-83 | taking a block from the current page keeps all of this |
| `PageAllocator.NewRunIsSafe` | 3rdparty/breakpad/src/common/memory.h:85-96 | so does a block at the start of a new run |
| `PageAllocator.LengthIsEnough` | 3rdparty/breakpad/src/common/memory.h:85-87 | what the rounded, wrapping page computation asks mmap for, in each of three ranges of sizes |
| `PageAllocator.OffsetIsRight` | 3rdparty/breakpad/src/common/memory.h:91-94 | the new offset and page, computed with wrapping subtraction, mark the end of the block |
| `PageAllocator.SizesThatFit` | 3rdparty/breakpad/src/common/memory.h:85-96 | a block from a new run stays in its pages exactly if it fits in 32 bits with its header |
| `ByteCursor.EndiannessIsReversal` | 3rdparty/breakpad/src/common/byte_cursor.h:122-130 | big-endian reading is little-endian reading of the reversed bytes |
| `ByteCursor.DigitsAreBytes` | 3rdparty/breakpad/src/common/byte_cursor.h:122-130 | digit i of the number in base 256 is byte i from the end if the high byte is first, and byte i from the start otherwise |
| `ByteCursor.ReadIsRight` | 3rdparty/breakpad/src/common/byte_cursor.h:119-141 | for every byte string up to the target's size, sign and byte order, what is stored is the two's-complement or unsigned value, as far as the target can hold it |
| `ByteCursor.ByteCursor.Read` | 3rdparty/breakpad/src/common/byte_cursor.h:119-141 | the number and the sign extension compute what is stored; the dummy value and the cursor on failure |
| `ByteCursor.ByteCursor.ReadUnsigned` | 3rdparty/breakpad/src/common/byte_cursor.h:121-130 | the two loops, one of which counts down past zero, compute that number, as far as the target holds it |
| `ByteCursor.ByteCursor.ReadBytes` | 3rdparty/breakpad/src/common/byte_cursor.h:157-163 | the bytes copied, or none |
| `ByteCursor.ByteCursor.CString` | 3rdparty/breakpad/src/common/byte_cursor.h:169-181 | the bytes up to the terminator, or failure without one |
| `ByteCursor.ByteCursor.CStringIn` | 3rdparty/breakpad/src/common/byte_cursor.h:196-209 | the same in a field of fixed width |
| `ByteCursor.ByteCursor.PointTo` | 3rdparty/breakpad/src/common/byte_cursor.h:216-224 | the position and the move of the cursor |
| `ByteCursor.ByteCursor.Skip` | 3rdparty/breakpad/src/common/byte_cursor.h:229-233 | the move of the cursor |
| `ByteCursor.ByteCursor.CheckAvailable` | 3rdparty/breakpad/src/common/byte_cursor.h:239-247 | whether the bytes are there, and the failed state if not |
| `ByteCursor.ChainsComplete` | 3rdparty/breakpad/src/common/byte_cursor.h:103-116 | over any chain of fixed sizes the cursor stays in the buffer, failure is permanent, and all succeed exactly if the sizes add up to at most what was available |
| `SignBits.FlipIsExclusiveOr` | 3rdparty/breakpad/src/common/byte_cursor.h:131-134 | for each size up to seven bytes, exclusive or with the sign bit is the flip that the model of Read uses |
| `NtpTimestamp.RoundTripInEra0` | src/libclient/controller/ntpcontroller.cpp:16-36 | in era 0 the round trip gives the same millisecond or one less, and the same one exactly for multiples of 125 |
| `NtpTimestamp.RoundTripNeedsEra0` | src/libclient/controller/ntpcontroller.cpp:16-36 | outside era 0 it gives neither |
| `NtpTimestamp.TimestampRoundTrip` | src/libclient/controller/ntpcontroller.cpp:16-36 | a timestamp converted to milliseconds and back keeps its seconds and loses less than a millisecond and a fraction unit |
| `NtpTimestamp.EpochIsRight` | src/libclient/controller/ntpcontroller.cpp:16-23 | the constant is the milliseconds between the starts of 1900 and 1970 in the calendar |
| `NtpTimestamp.TimestampIsSince1900` | src/libclient/controller/ntpcontroller.cpp:16-23 | a timestamp becomes the millisecond that its seconds and fraction since 1900 fall in |

## Left out

- PageAllocator.PageAllocator.Alloc: for the 15 largest sizes, in a new run, its contract gives the block and the header but not the state of the current page; nothing can be promised of later blocks then.
- CompilationUnit.CompilationUnit.AssignLinesToFunctions: functions are records in the unit's list, with their line vectors by position and empty at first, and not separately allocated objects; std::sort is a stand-in that promises a sorted permutation and no more.
- DwarfLineToModule.DwarfLineToModule.DefineFile: the highest number wraps at 2^31, as compilers do it; file names stand for the module's file objects.
- CompilationUnit.CompilationUnit.FinishFunction: abstract origins of inlined functions, and the warning for a function without a name, are not modelled.
- Md5Context.Md5Context.Update: a little-endian machine, where byteReverse does nothing; a piece is a value and not memory that might overlap the context.
- Md5Context.Md5Context.Final: the same.
- ByteCursor.ByteCursor.Read: a signed number of no bytes, for which the source shifts by too much, is excluded; shifts of negative values wrap, as compilers do it.
- Scheduler.Scheduler.Timeout: the execution and the signals have no effect on the scheduler, and one reading of the clock serves an operation.
- Scheduler.Scheduler.Enqueue: the set of all known ids is not modelled.
- Scheduler.Scheduler.Dequeue: nor is it here, nor the signal that a test was removed.
- TaskExecutor.TaskExecutor.MeasurementEnded: the result sent along and the call that stops the measurement are left out.
- SplitNames.SplittingKeepsNames: the definitions stand at the end of the top level; `MovedDefinitions` has them at any later place.
- PathNames.SplitNamesArePaths: the same.
- CompilationUnit.CompilationUnit.Finish: finding the section of line information, the module that takes the functions and the clearing of specifications are not modelled.
- SchedulerRuns.EveryTimerThatFires: that QTimer does not fire for a negative interval is Qt's behaviour; the runs do not exclude that it does.
- The scheduler's on-demand tests and the set of all known ids, which on-demand and timed tests share: removal does not look whether the other kind still has the id.
- The results of measurements: the executor's model follows which tests are started and finished, and takes from a measurement only that it reports one outcome per run.
- QDate, QTime and QDateTime are modelled in UTC and from the year 1 on, with the Gregorian rules; time zones are not modelled.
- NTP timestamps are in host byte order, and the 64-bit sums do not overflow for any date that Qt can hold in practice.
- The memory behind the page allocator: headers are a list of values, and mmap is a parameter with the promises that it gives whole unused pages or fails, and fails for no bytes.
- Periodic and one-shot timings, traffic budgets, report upload, storage, network and user interface.
- DWARF call frame information, the minidump writer and the winpcap headers.
