# Verified models of the scheduler

A Dafny 4.11 model of the parts of this repository whose correctness is hard to see from the code:
the frame pipeline that turns `queueBuffer` signals into CPU frequency bands, the hot reload of its
configuration, the thread-rule matcher, and the two libraries everything rests on, `uthash.h` and
`cJSON.c`. `dafny verify dfyconfig.toml` checks the whole project.

## How it is organised

| module | models |
|---|---|
| `UtHash`, `HashSort` | the hash table on the heap: buckets, application order, doubling, in-place merge sort |
| `Json`, `JsonGrammar`, `JsonLoose`, `JsonRoundTrip`, `JsonUnicode` | what JSON text means and prints as, that every text of RFC 8259 is read as its meaning, what else is accepted, and that printing and parsing undo each other |
| `JsonParser`, `JsonPrinter`, `JsonCompare`, `JsonList` | the parser, printer, comparison and child lists as they run |
| `FrameHandoff`, `FrameLaws`, `FrameCache` | the hand-off of frame times from signal handler to engine, what it promises, and its two sides as they run |
| `FasEngine`, `FasLaws`, `FasEpisodes`, `FasCalibration`, `FasSlowGame`, `FasController` | the three-phase controller, what it measures and asks for, how its phases begin and end, and its object |
| `RenderBand`, `RampLaws`, `DailyBand`, `DailyLaws` | the frequency bands with frames and without, and what each tick does to them |
| `ConfigReload`, `ConfigTiming` | the reload protocol around one file, and how soon it reloads |
| `RuleMatch`, `RuleLaws`, `CpuSet`, `CpuLaws` | rule lookup with its cache, which rule it finds, and CPU sets as text |
| `RuntimeAccounting` | the per-CPU run time accounting of the eBPF program |
| `Bits`, `Numbers`, `Decimals`, `Wrappers` | arithmetic, decimal text and the option type the others share |

Code that updates state in place is a class whose methods follow the source statement by statement.
Each method is proved equal to a step function on values, or states its new state outright; what the
source promises is then proved of those steps, over all inputs and over all runs. The modules named Laws,
`FasEpisodes` and `JsonLoose` say it without the functions that compute it. Text is a sequence of
bytes, floating point is modelled by reals, clock readings are parameters, and unsigned subtraction
that can wrap is written as a remainder.

What the proofs found beside the promised properties:

- A configuration file changed between priming the hashes and adding the inotify watch is not reloaded
  until it changes again (`ConfigReload.StartupGap`, `ConfigReload.GapIsLost`).
- The polling fallback loads a changed file exactly when some tick falls between 1.5 and 2 seconds after
  a poll, because each poll marks the file anew: with ticks every 30 ms, as in the main loop, within a
  bound (`ConfigTiming.PolledInTime`), with ticks every 700 ms or every two seconds never
  (`ConfigTiming.PollingLoadsIff`, `ConfigTiming.PeriodicPollingLoadsIff`).
- Every notice of the file restarts its debounce: a pending load is tried exactly when a tick outside the
  cool-down comes 1.5 s or more after the last notice (`ConfigTiming.PendingLoadsIff`). Quiet bounds the
  wait (`ConfigTiming.RetriedInTime`); a file saved again every second, even with the same content, is
  never loaded (`ConfigTiming.NoticesStarve`, `ConfigTiming.SavedForever`).
- A file changed between being loaded at startup and the priming of the hashes is taken for the loaded
  one and never reloaded, polling or not (`ConfigReload.UnreadForever`).
- The daily band can keep a floor above a maximum that has just dropped, and write it
  (`DailyBand.StaleBandAboveMaximum`); it cannot when the limiter is on.
- Per-CPU time stamps are not updated while there is no target, so a slice that began in such a time is
  charged too much, or not at all (`RuntimeAccounting.ChargedSinceStamp`,
  `RuntimeAccounting.GapOvercharges`, `RuntimeAccounting.GapUndercharges`).
- With usable ticks less than a second apart the 20 s limit of the calibration is never reached, because
  each rejected median restarts its clock: a game below 20 frames per second never gets a baseline
  (`FasCalibration.LimitNeverReached`, `FasCalibration.SlowGameStuck`); one second is
  the exact bound (`FasSlowGame.GapIsTight`).
- Of two surfaces with about as many frames the slower one is followed when it comes later in the table
  and is a frame ahead, against the rule written above the code (`FrameLaws.FasterChosenIff`,
  `FrameLaws.SlowerFollowed`).
- A backslash in a thread rule makes the cache answer differently from the scan
  (`RuleMatch.BackslashDisagrees`).
- Frames stay in order only because no surface has the key zero, which stands for no surface: the keys
  are addresses of surfaces, and with zero a run would give the engine frames twice
  (`FrameHandoff.ZeroKeyRepeats`, `FrameHandoff.ZeroKeyRun`).
- `cJSON_PrintPreallocated` needs two bytes more than the text, where its header advises five
  (`JsonPrinter.PrintPreallocated`); `cJSON_Compare` is not reflexive on objects that repeat a name with
  different values (`JsonCompare.RepeatedNameDiffers`).

## Model

| member | source | states |
|---|---|---|
| `UtHash.HashTable.Find` | 线程源码/uthash.h:745-764 | finding a key returns the element the table maps it to, and null exactly when the key is absent |
| `UtHash.HashTable.Add` | 线程源码/uthash.h:396-415 | adding an absent key extends the map and the end of the application order and keeps every invariant that HASH_FSCK checks, with or without an expansion |
| `UtHash.HashTable.AddInorder` | 线程源码/uthash.h:350-381 | the in-order add extends the map, puts the element before the first one that compares greater, and keeps every invariant |
| `UtHash.HashTable.Delete` | 线程源码/uthash.h:450-477 | deleting an element takes its key out of the map and it alone out of the order, and keeps every invariant, for the only, first, last and middle element |
| `UtHash.HashTable.MakeTable` | 线程源码/uthash.h:212-240 | the first add creates 32 empty buckets, a valid table of no elements beside the new one |
| `UtHash.HashTable.AppendList` | 线程源码/uthash.h:278-283 | the element becomes the tail of the order and its links join it to the former tail |
| `UtHash.HashTable.LinkIntoBkt` | 线程源码/uthash.h:767-786 | the element enters the chain of its home bucket and the partition of the items over the buckets is kept |
| `UtHash.HashTable.DelInBkt` | 线程源码/uthash.h:789-802 | the element leaves its chain, every other chain stays as it was |
| `UtHash.PushFront` | 线程源码/uthash.h:767-779 | a handle goes to the front of a chain; count, hh_prev and hh_next still agree with it |
| `UtHash.Unlink` | 线程源码/uthash.h:789-802 | a handle leaves a chain at any position; the remaining links are mutually inverse and the count fits |
| `UtHash.HashTable.ExpandBuckets` | 线程源码/uthash.h:833-883 | doubling leaves a valid table over twice the buckets, with the ideal length, the nonideal count, the expansion multipliers and the ineffective-expansion counter recomputed from the new chains |
| `UtHash.MoveChains` | 线程源码/uthash.h:847-869 | emptying all old chains in turn rebuilds exactly the doubled chains, and counts the elements above the ideal length |
| `UtHash.DoublingSplitsBuckets` | 线程源码/uthash.h:430-433 | every element of bucket i lands in bucket i or i + n, and the new chains hold the same elements, each once |
| `UtHash.ToBktDoubled` | 线程源码/uthash.h:430-433 | masking with twice the bucket count keeps the bucket or adds the old bucket count |
| `UtHash.ToBktInRange` | 线程源码/uthash.h:430-433 | the mask is the remainder by the bucket count, so it names a bucket |
| `UtHash.IdealIsCeil` | 线程源码/uthash.h:845-847 | the shift and mask compute the number of elements per new bucket, rounded up |
| `UtHash.ExpandMultIs` | 线程源码/uthash.h:857-861 | the multiplier of a bucket is none up to the ideal length, and beyond it the number of handles too many or, if that is less, of ideal lengths needed |
| `UtHash.ExcessIs` | 线程源码/uthash.h:855-857 | the nonideal count is the number of places beyond the ideal length |
| `UtHash.HashTable.AddToTable` | 线程源码/uthash.h:777-786 | the buckets double exactly when the chain of the new element reaches ten times its multiplier plus one and expansion is not switched off |
| `UtHash.CountsSumToItems` | 线程源码/uthash.h:516-563 | the bucket counts add up to the number of elements |
| `HashSort.MergeSortCorrect` | 线程源码/uthash.h:890-972 | for any total preorder the bottom-up merge sort gives a sorted permutation of the list in which equal elements keep their order |
| `HashSort.PassSorts` | 线程源码/uthash.h:903-960 | one pass turns sorted runs into sorted runs of twice the length |
| `HashSort.MergeStable` | 线程源码/uthash.h:918-951 | merging two runs keeps equal elements in order, those of the first run first |
| `HashSort.MergeSorts` | 线程源码/uthash.h:918-951 | merging two sorted runs is sorted |
| `HashSort.SortFromCorrect` | 线程源码/uthash.h:897-969 | the passes from any run length on keep the elements, sort them and are stable |
| `HashSort.InorderKeepsSorted` | 线程源码/uthash.h:286-293 | an in-order insert into a sorted order keeps it sorted |
| `HashSort.InorderAfterEquals` | 线程源码/uthash.h:286-293 | the inserted element stands after all elements that compare equal |
| `HashSort.SkipRun` | 线程源码/uthash.h:909-916 | stepping at most the run length ahead finds the start of the second run and the length of the first |
| `HashSort.MergeTwo` | 线程源码/uthash.h:918-951 | the relinking loop appends the merge of two runs to the output list, links and tail in order |
| `HashSort.MergePass` | 线程源码/uthash.h:903-960 | one pass over the links leaves the list of the merged runs, and counts at most one merge exactly when the list fits two runs |
| `HashSort.SortList` | 线程源码/uthash.h:890-972 | the links end as the merge sort of the list: next and prev inverse, head first, tail last |
| `HashSort.HashSrt` | 线程源码/uthash.h:890-972 | sorting a table changes only the order, keeps it a permutation, and leaves map, chains and every invariant |
| `JsonGrammar.DocumentParsed` | bin/cJSON.c:1131-1224 | every text of RFC 8259, with any white space, escapes and number forms, parses to the value it means exactly when it has no lone surrogate and is nested to at most 1000, and is refused otherwise |
| `JsonGrammar.MarkedDocumentParsed` | bin/cJSON.c:1116-1128 | a byte order mark before the text changes nothing |
| `JsonGrammar.ThousandLevels` | bin/cJSON.c:1497-1505 | a thousand arrays inside one another are read, and one more is refused |
| `JsonLoose.ValueTaken` | bin/cJSON.c:1368-1777 | whatever is accepted as a value is one: a word, a string closed by a quotation mark, number bytes, or brackets and braces around elements and members with commas, colons and white space only between them, nested within the limit; and it is given that meaning |
| `JsonLoose.OnlyLooseAccepted` | bin/cJSON.c:1131-1224 | so nothing but one such value, after white space and perhaps a byte order mark, is accepted as a document |
| `JsonGrammar.ValueAccepted` | bin/cJSON.c:1368-1420 | the same for a value at any depth and before any text that does not continue a number; exactly its text is used up |
| `JsonGrammar.ValueRefused` | bin/cJSON.c:1497-1592 | a value with a lone surrogate in any string or name, or nested beyond the limit anywhere, is refused |
| `JsonGrammar.StringAccepted` | bin/cJSON.c:824-951 | a string of raw bytes, two-byte escapes, UTF-16 units and surrogate pairs is read as its bytes up to the first U+0000 |
| `JsonGrammar.StringRefused` | bin/cJSON.c:716-760 | a string of the grammar with a surrogate that is not part of a pair is refused, wherever it stands |
| `JsonGrammar.ScanUnits` | bin/cJSON.c:838-859 | the closing quotation mark is found behind the escapes, wherever they stand |
| `JsonGrammar.UnescapeUnits` | bin/cJSON.c:871-925 | the escapes of any string are replaced by the bytes they mean |
| `JsonGrammar.NumberAccepted` | bin/cJSON.c:307-408 | a number with or without fraction and exponent is read as its value, and only its own bytes are used |
| `JsonGrammar.StrtodRead` | bin/cJSON.c:378-384 | the conversion splits a number where the grammar does, and uses it all |
| `JsonGrammar.Unambiguous` | bin/cJSON.c:1368-1420 | two ways to take one text apart give the same value |
| `JsonRoundTrip.Printed` | bin/cJSON.c:1423-1494 | what is printed, formatted or not, is a text of RFC 8259 and means the printed tree |
| `JsonRoundTrip.PrintedString` | bin/cJSON.c:954-1073 | an escaped string is a string of the grammar that means the original bytes |
| `JsonRoundTrip.PrintedNumber` | bin/cJSON.c:596-663 | "%d" writes a number of the grammar with the value it was given |
| `Json.ValueIntIs` | bin/cJSON.c:388-400 | valueint is the number truncated toward zero, and the limits of 32 bits outside them |
| `Json.Whole32Iff` | bin/cJSON.c:614-618 | so exactly the 32-bit integers are printed with "%d" |
| `JsonRoundTrip.ParsePrint` | bin/cJSON.c:1131-1224 | printing any tree of the domain, formatted or not, and parsing the text gives the tree back and stops at the terminating NUL, also when a NUL is required, exactly up to the nesting limit |
| `JsonRoundTrip.ValueRoundTrip` | bin/cJSON.c:1368-1494 | the same in any surrounding: at any indentation, nesting depth and before any text that does not continue a number |
| `JsonRoundTrip.StringRoundTrip` | bin/cJSON.c:824-1073 | a printed string parses back to its bytes and the parser stops after its closing quotation mark |
| `JsonRoundTrip.UnescapeEscape` | bin/cJSON.c:954-1073 | undoing the escapes of any NUL-free string gives the string |
| `JsonRoundTrip.PrintInjective` | bin/cJSON.c:1423-1494 | trees of the domain printed to the same text are equal, whatever the formatting |
| `JsonUnicode.EscapedText` | bin/cJSON.c:703-951 | parsing a string all of whose code points are escaped gives their UTF-8 text, which decodes to the code points |
| `JsonUnicode.ScalarRoundTrip` | bin/cJSON.c:703-821 | an escape of one UTF-16 unit or of a surrogate pair becomes the UTF-8 form of its code point and is used up whole |
| `JsonUnicode.SurrogatesPair` | bin/cJSON.c:720-757 | an escape is refused exactly when it is a surrogate that is not part of a complete pair |
| `JsonUnicode.Utf8Decodes` | bin/cJSON.c:762-814 | the bytes written for a code point are UTF-8 for it by the byte ranges of section 4 of RFC 3629 |
| `JsonUnicode.Utf8Shortest` | bin/cJSON.c:762-814 | and no other bytes are: what decodes to a code point is exactly what is written for it |
| `JsonParser.ReadHex4` | bin/cJSON.c:666-699 | the shifting loop computes the value of four hexadecimal digits in either case, or zero |
| `JsonParser.WriteUtf8` | bin/cJSON.c:799-814 | the loop that fills the bytes backwards writes the UTF-8 form |
| `JsonParser.ReadUtf16` | bin/cJSON.c:703-821 | one or two escapes are decoded, or refused, as the meaning of the literal says |
| `JsonParser.ParseBuffer.SkipWhitespace` | bin/cJSON.c:1090-1113 | the offset moves past bytes up to the space and never past the last byte |
| `JsonParser.ParseBuffer.FindClosingQuote` | bin/cJSON.c:838-859 | the scan stops at the first quotation mark that no backslash hides, and fails exactly when there is none |
| `JsonParser.ParseBuffer.CopyUnescaped` | bin/cJSON.c:871-925 | the copying loop produces the unescaped string, and fails exactly on a bad escape |
| `JsonParser.ParseBuffer.ReadString` | bin/cJSON.c:824-951 | string, success and new offset agree with the meaning of the text at the offset |
| `JsonParser.ParseBuffer.ReadNumber` | bin/cJSON.c:307-408 | number, success and new offset agree with the longest prefix of number bytes |
| `JsonParser.ParseBuffer.ReadValue` | bin/cJSON.c:1368-1420 | tree, success, offset and restored depth agree with the recursive meaning of the text at the offset |
| `JsonParser.ParseBuffer.ReadArray` | bin/cJSON.c:1497-1592 | the element loop with its step back and step forward reads exactly the array the text means |
| `JsonParser.ParseBuffer.ReadObject` | bin/cJSON.c:1662-1777 | the member loop reads exactly the object the text means |
| `JsonParser.ParseWithLengthOpts` | bin/cJSON.c:1147-1209 | byte order mark, value and optional terminator: tree, success and end position |
| `JsonPrinter.PrintBuffer.Ensure` | bin/cJSON.c:490-573 | room is granted exactly when the offset, the request and one byte fit the capacity, and growing keeps what was written |
| `JsonPrinter.PrintBuffer.UpdateOffset` | bin/cJSON.c:576-586 | the offset moves to the end of the text just written |
| `JsonPrinter.PrintBuffer.CountEscapes` | bin/cJSON.c:977-1008 | the counted extra bytes are exactly those the escaping writes, and none are counted exactly when nothing needs escaping |
| `JsonPrinter.PrintBuffer.EmitStringPtr` | bin/cJSON.c:954-1073 | a quoted string is written byte for byte, and fails exactly when it does not fit |
| `JsonPrinter.PrintBuffer.EmitNumber` | bin/cJSON.c:596-663 | a whole number is written in decimal |
| `JsonPrinter.PrintBuffer.EmitArray` | bin/cJSON.c:1595-1659 | an array is written byte for byte and fails exactly when it is too deep or does not fit |
| `JsonPrinter.PrintBuffer.EmitObject` | bin/cJSON.c:1780-1896 | an object is written byte for byte, tabs and line breaks included, and fails exactly when it is too deep or does not fit |
| `JsonPrinter.PrintBuffer.EmitValue` | bin/cJSON.c:1423-1494 | a value is written byte for byte at the offset, and fails exactly when it is nested too deeply or text and two bytes do not fit |
| `JsonPrinter.Print` | bin/cJSON.c:1239-1304 | printing succeeds exactly up to the nesting limit and the size limit, with the text of the tree |
| `JsonPrinter.PrintPreallocated` | bin/cJSON.c:1348-1365 | a fixed buffer suffices exactly when it has two bytes more than the text, fewer than the five spare bytes its header asks for |
| `JsonPrinter.ValueNulFree` | bin/cJSON.c:576-586 | printed text holds no NUL, so its end is found where it was written |
| `JsonCompare.CompareMeans` | bin/cJSON.c:3072-3195 | for all trees with 32-bit numbers the comparison holds exactly when both are consistent and mean the same unordered value |
| `JsonCompare.CompareIsEquivalence` | bin/cJSON.c:3072-3195 | on trees with distinct names it is reflexive, symmetric and transitive |
| `JsonCompare.ReflexiveWhenConsistent` | bin/cJSON.c:3154-3190 | a tree compares equal to its copy exactly when no object repeats a name with another value |
| `JsonCompare.RepeatedNameDiffers` | bin/cJSON.c:3154-3190 | an object that repeats a name with two values differs from its own copy |
| `JsonCompare.SameUpToOrder` | bin/cJSON.c:3154-3190 | with distinct names, meaning the same is having the same members in some order |
| `JsonCompare.CompareDoubleInts` | bin/cJSON.c:589-593 | the relative tolerance never merges two different 32-bit integers |
| `JsonCompare.CompareDoubleIff` | bin/cJSON.c:589-593 | numbers compare equal exactly when they differ by at most the larger magnitude over 2^52 |
| `JsonCompare.FirstWins` | bin/cJSON.c:1951-1981 | looking a name up finds the first member of that name, and one exactly when the object means to have it |
| `JsonCompare.CompareTrees` | bin/cJSON.c:3072-3195 | the loops over elements and members decide the same as the recursive comparison |
| `JsonList.Item.GetArrayItem` | bin/cJSON.c:1922-1939 | walking the list gives the child at the index, or null past the end |
| `JsonList.Item.AddItem` | bin/cJSON.c:2027-2058 | appending adds the item to the end of the child sequence and keeps the list convention exactly when the list was empty or the item brings no next along; a list is never its own item |
| `JsonList.Item.Detach` | bin/cJSON.c:2258-2292 | detaching removes exactly that child at any position, clears its links and keeps the list convention |
| `JsonList.Item.DetachItem` | bin/cJSON.c:2294-2302 | detaching by index removes the child there, or nothing outside the list |
| `JsonList.Item.InsertItem` | bin/cJSON.c:2334-2366 | inserting puts the item before the child at the index and keeps the list convention; at the end as appending does |
| `JsonList.Item.Replace` | bin/cJSON.c:2368-2415 | replacing changes exactly one place of the child sequence, for the only, first, middle and last child |
| `JsonList.Duplicate` | bin/cJSON.c:2789-2873 | duplication builds from fresh items the same tree, no part of it a reference, and fails exactly when there are more than 10000 levels of children |
| `FrameHandoff.AtMostOnceInOrder` | bin/activity_main_loop.inc:130-176 | over every run of signals, syncs, resets and pauses with nonzero surface keys, the engine is given accepted frames only, each at most once and in the order of acceptance |
| `FrameHandoff.LostBetweenSyncs` | bin/activity_main_loop.inc:157-175 | between two syncs on one surface, with signals of any surfaces and syncs that give the engine nothing in between, exactly the oldest accepted frames beyond 240 are lost and all others are given to the engine |
| `FrameHandoff.RunKeeps` | bin/activity_fas_sampling.inc:391-440 | over every run keys stay unique, each queue holds the newest 240 accepted frames of its surface, and what is still to push comes after all that was pushed |
| `FrameHandoff.SubmitKeepsSurface` | bin/activity_fas_sampling.inc:540-574 | accepting, rejecting and dropping the oldest keep a queue the end of what the surface accepted |
| `FrameHandoff.PrunedKeeps` | bin/activity_fas_sampling.inc:411-440 | pruning in any order of ties only drops surfaces |
| `FrameHandoff.AfterPause` | bin/activity_main_loop.inc:184-202 | the first sync after a pause pushes nothing, unless the surface key is zero: then the whole queue again |
| `FrameHandoff.ZeroKeyRepeats` | bin/activity_main_loop.inc:184-202 | after a pause the frames given to the engine stay in order exactly when the key is not zero, or nothing of the queue had been given before |
| `FrameHandoff.ZeroKeyRun` | bin/activity_main_loop.inc:184-202 | from startup a run with key zero gives the engine frames twice |
| `FrameCache.Cache.HandleFrameSignal` | bin/activity_fas_sampling.inc:521-576 | the handler filters by process, finds or creates the surface, accepts or rejects the interval and prunes, as one step of the model |
| `FrameCache.Cache.Prune` | bin/activity_fas_sampling.inc:411-440 | surfaces not seen for five seconds go, then all but the 24 most recent |
| `FrameCache.Cache.SelectPrimary` | bin/activity_fas_sampling.inc:457-501 | the loop and the sticky choice select the primary surface of the model |
| `FrameCache.Cursor.Sync` | bin/activity_main_loop.inc:130-176 | attaching, clamping the cursor and pushing by index are the consumer step of the model |
| `FrameLaws.ChosenIsActive` | bin/activity_fas_sampling.inc:457-501 | a surface is chosen exactly when some surface has 12 frames, some of them queued and the last at most a second ago; then such a one, and its key becomes the sticky one, and otherwise zero does |
| `FrameLaws.DominantChosen` | bin/activity_fas_sampling.inc:474-497 | an active surface with more frames than every other active one and a quarter is chosen whatever the sticky key |
| `FrameLaws.LargestChosen` | bin/activity_fas_sampling.inc:474-477 | with no pace known and no sticky surface the first of those with the most frames is chosen |
| `FrameLaws.FasterChosenIff` | bin/activity_fas_sampling.inc:474-484 | of two active surfaces near in count the faster is chosen exactly when it comes later in the table or has no fewer frames |
| `FrameLaws.SlowerFollowed` | bin/activity_fas_sampling.inc:442-484 | a run from startup in which the slower of two such surfaces is followed |
| `FrameLaws.StickyKept` | bin/activity_fas_sampling.inc:491-497 | a sticky surface that is active and not a quarter behind any active one is kept, with its key |
| `FrameLaws.PrimaryKept` | bin/activity_fas_sampling.inc:442-501 | so in every run the sticky key stays while that holds at every sync |
| `FrameLaws.SyncGives` | bin/activity_main_loop.inc:130-176 | a sync gives the engine what is new among the newest 240 frames of the surface chosen, unless it has just begun to follow it or the surface was silent for two seconds |
| `FrameLaws.DominantFed` | bin/activity_main_loop.inc:130-176 | so a dominant surface is the one the engine is fed from |
| `FrameLaws.AcceptedIff` | bin/activity_fas_sampling.inc:534-566 | in every run a signal adds a frame exactly when the one before it of the same surface, since the last reset, came 1 to 200 ms earlier and the surface is still in the table; the frame is the time between the two |
| `FrameLaws.EngineGetsIntervals` | bin/activity_fas_sampling.inc:534-566 | so every frame the engine is given is the time between two consecutive signals of one surface of the target process, 1 to 200 ms apart |
| `FrameLaws.PaceConverges` | bin/activity_fas_sampling.inc:546-556 | at a steady pace the smoothed interval of a surface closes in on it by three tenths a signal |
| `FrameLaws.PaceRestarts` | bin/activity_fas_sampling.inc:546-556 | a gap of more than a second restarts it |
| `FrameLaws.ForgottenIff` | bin/activity_fas_sampling.inc:411-440 | up to 24 surfaces none is forgotten; beyond that those silent for five seconds are, and of the others one only when 24 are kept that were signalled no earlier |
| `FasEngine.BaselineInvariant` | bin/fas/fas_engine.cpp:305-315 | in every run a stable or degraded engine has a base interval of 1 to 500 ms, and its frame rate is the one of that interval, between 2 and 1000 |
| `FasEngine.DegradeNeedsHold` | bin/fas/fas_engine.cpp:349-361 | a switch to degraded ends an unbroken run of usable ticks at least 2 fps under an unchanged base that spans the hold time |
| `FasEngine.DegradesIff` | bin/fas/fas_engine.cpp:349-361 | in every run a tick of a stable engine switches to degraded exactly when it is usable and ends such a run |
| `FasEngine.DegradedUnderThreeSeconds` | bin/fas/fas_engine.cpp:416-457 | a tick that reports degraded comes less than 3000 ms after the tick that entered the phase |
| `FasEngine.StableEpisode` | bin/fas/fas_engine.cpp:361-393 | within a stable episode the base frame rate never falls and slow drops are at least 200 ms apart |
| `FasEngine.KthSlowDrop` | bin/fas/fas_engine.cpp:399-405 | the k-th slow drop of an episode comes at least 200 k ms after its entry |
| `FasEngine.UnderMeans` | bin/fas/fas_engine.cpp:350 | the tolerance of 1.2 fps means two whole frames per second below the base |
| `FasEngine.FreqScaleBounds` | bin/fas/fas_engine.cpp:395-437 | every factor lies between one slow drop and four times the base with its margin; a degraded one raises, and only a due slow drop of a stable engine lowers |
| `FasEngine.MedianSplits` | bin/fas/fas_engine.cpp:102-110 | at least half of the samples are at most the median and at least half are at least it |
| `FasEngine.AverageBounds` | bin/fas/fas_sampling.cpp:50-87 | a window average of filtered frames stays between 1 and 500 ms |
| `FasEngine.FpsBounds` | bin/fas/fas_engine.cpp:93-99 | an interval of 1 to 500 ms is a frame rate between 2 and 1000 |
| `FasLaws.SnapshotMeans` | bin/fas/fas_sampling.cpp:50-178 | what a tick sees: the mean of the newest tenth of a second of frames, 8 to 18 of them, and the rate nearest to that of the newest 60 |
| `FasLaws.BaseRate` | bin/fas/fas_engine.cpp:93-99 | the base frame rate is the whole number nearest to that of the base interval |
| `FasLaws.UsableIff` | bin/fas/fas_sampling.cpp:143-164 | frames are usable exactly when there are six, the last at most 250 ms old, and a second has passed since they were found unusable |
| `FasLaws.MedianOfSorted` | bin/fas/fas_engine.cpp:102-110 | twice the median is the sum of the two middle values of any ascending arrangement, or twice the middle one |
| `FasLaws.RaisesInProportion` | bin/fas/fas_engine.cpp:432-437 | every tick of every run that reports degraded asks for the short mean over the base interval, with a margin of four hundredths, between the base and four times it |
| `FasLaws.LongerAsksMore` | bin/fas/fas_engine.cpp:432-437 | so a longer mean in between asks for strictly more |
| `FasEpisodes.QuietUnlessWarm` | bin/fas/fas_engine.cpp:235-285 | a tick without usable frames asks for nothing, and any other reports the rate it sees |
| `FasEpisodes.HoldsWhileCalibrating` | bin/fas/fas_engine.cpp:287-302 | a calibrating tick holds the sweet spot and asks for no change |
| `FasEpisodes.LowersWhileStable` | bin/fas/fas_engine.cpp:395-413 | a stable tick goes to the floor exactly with quick drop, else takes 8 percent off when 200 ms have passed, and raises by 15 percent exactly while an important thread is busy |
| `FasEpisodes.EpisodeFactor` | bin/fas/fas_engine.cpp:399-405 | in every run a stable episode without busy threads multiplies the frequency by 0.92 once for every slow drop |
| `FasEpisodes.DropsKeepComing` | bin/fas/fas_engine.cpp:399-405 | and with usable ticks at most a gap apart the drops come at most 200 ms and a gap apart |
| `FasEpisodes.SwitchesIff` | bin/fas/fas_engine.cpp:349-361 | the switch to degraded needs 150 ms under the base, times the conservative setting if that is above one |
| `FasEpisodes.UpshiftNeedsHold` | bin/fas/fas_engine.cpp:364-393 | in every run a stable base rises only after one raised rate was seen for half a second, and to the shorter of short mean and calibration median |
| `FasEpisodes.UpshiftComes` | bin/fas/fas_engine.cpp:364-393 | and it does rise then, when the window was quicker than the base all along |
| `FasEpisodes.RecoversIff` | bin/fas/fas_engine.cpp:416-457 | a degraded engine goes back to stable exactly when the base rate is reached again, with its base, or three seconds after the switch, with the short mean as the new base |
| `FasEpisodes.PauseForgets` | bin/fas/fas_engine.cpp:263-279 | in every run a pause leaves phase and base as they are until two seconds after it began, and from then on there is neither |
| `FasEpisodes.WarmsUpAfresh` | bin/fas/fas_sampling.cpp:156-164 | and no tick is usable within a second of its beginning |
| `FasEpisodes.AppForgets` | bin/fas/fas_engine.cpp:173-201 | after a change of app equal events lead to equal engines, whatever came before |
| `FasEpisodes.PushMeans` | bin/fas/fas_engine.cpp:160-166 | intervals of 1 to 500 ms are taken, and five seconds of frames kept, 1440 at most |
| `FasEpisodes.NewestFrames` | bin/fas/fas_sampling.cpp:30-44 | so in every run the frames held are the newest ones taken |
| `FasEpisodes.UsageIsKept` | bin/fas/fas_engine.cpp:168-171 | a reported usage is kept between 0 and 100, or as unknown |
| `FasCalibration.CalibrationMeasures` | bin/fas/fas_engine.cpp:287-315 | an engine leaves calibration only with a base that is the median of at least 20 samples of one calibration, none skipped, over at least 2.5 s, or 20 s when the median is above 50 ms |
| `FasCalibration.MeasuredInRuns` | bin/fas/fas_engine.cpp:294-311 | in every run a calibrating engine holds exactly the samples since its calibration began or was started over, and no earlier tick could have ended it |
| `FasCalibration.CalibrationEndsIff` | bin/fas/fas_engine.cpp:304-315 | in every run a usable tick of a calibrating engine ends the calibration exactly when its samples are enough, old enough, and fast enough or past the limit |
| `FasCalibration.BranchesNeverTaken` | bin/fas/fas_engine.cpp:308-339 | in every run neither the lost-baseline fallback nor the abnormal-median branch is taken: a calibrated engine has a positive base, and the median of the samples a tick leaves, also when the buffer was full, is above 0.5 ms |
| `FasCalibration.SlowEndsIff` | bin/fas/fas_engine.cpp:305-315 | with samples above 50 ms a calibration ends exactly when its first tick with 20 samples and 2.5 s comes 20 s or more after its start |
| `FasCalibration.LimitNeverReached` | bin/fas/fas_engine.cpp:308-311 | with usable ticks less than a second apart no base above 50 ms comes out, so the limit of 20 s does nothing |
| `FasCalibration.SlowGameStuck` | bin/fas/fas_engine.cpp:305-315 | and a game whose samples stay above 50 ms stays without a baseline for the whole run |
| `FasSlowGame.SlowGamesExist` | bin/fas/fas_engine.cpp:305-315 | for every tick period below a second there is such a run, with frames of 60 ms and 19 samples in its calibration |
| `FasSlowGame.GapIsTight` | bin/fas/fas_engine.cpp:308-315 | with usable ticks exactly a second apart a run of the same game starts over once and then ends with a base of 60 ms |
| `FasController.ComputeWindows` | bin/fas/fas_sampling.cpp:50-87 | one loop from the newest frame back computes both window averages |
| `FasController.Controller.PushFrame` | bin/fas/fas_engine.cpp:160-166 | the fixed buffer, moved down when full and trimmed to five seconds of frames, holds the filtered newest frames |
| `FasController.Controller.OnAppChange` | bin/fas/fas_engine.cpp:173-201 | a change of app resets everything but the configuration |
| `FasController.Controller.Tick` | bin/fas/fas_engine.cpp:224-503 | a tick updates every field and puts out what the phase machine of the model does |
| `FasController.Controller.Watch` | bin/fas/fas_engine.cpp:349-393 | the candidate timers of a stable engine |
| `ConfigReload.NothingLost` | bin/activity_mode_watch.inc:797-856 | over every run from startup in which the watch is added when that is safe, a watched file that differs from the committed content is marked, announced in the queue by an event or an overflow, or still being written; and the program runs with the committed content |
| `ConfigReload.CommitOnlyOnSuccess` | bin/activity_mode_watch.inc:834-856 | only a successful load changes the committed content, and to the content it loaded; a failed one leaves it and stays marked |
| `ConfigTiming.RetriedInTime` | bin/activity_mode_watch.inc:797-856 | over runs with inotify, ticks at most a gap apart and no further notice of the file, a failed load is tried again, or the file found as committed, within 30 s (1.5 s and a gap if that is longer) and one gap, whatever is written meanwhile |
| `ConfigTiming.AnnouncedInTime` | bin/activity_mode_watch.inc:1137-1213 | over every run from startup the same holds from the reading of a notice on |
| `ConfigTiming.PendingLoadsIff` | bin/activity_mode_watch.inc:797-831 | over runs with inotify in which a marked file keeps the content that differs, though it may be saved again, a load is tried exactly when some tick outside the cool-down comes 1.5 s or more after the mark in force: the last notice of the file, or the first tick after a failed load |
| `ConfigTiming.NoticesStarve` | bin/activity_mode_watch.inc:755-760 | so no load is ever tried when every tick comes less than 1.5 s after some notice of the file |
| `ConfigTiming.SavedForever` | bin/activity_mode_watch.inc:755-760 | from startup there are such runs of any length: a file changed once and then saved every second is never loaded |
| `ConfigTiming.RetryWaits` | bin/activity_mode_watch.inc:834-856 | in every run from startup the next try comes no sooner than 3 s after a load that succeeded, and 2, 4, 8, 16 and then 30 s after the first, second and further failures |
| `ConfigTiming.PolledInTime` | bin/activity_mode_watch.inc:894-936 | while polling with ticks at most half a second apart, a file that differs is tried within two seconds, or the rest of the cool-down, and 1.5 s and two gaps |
| `ConfigTiming.RetriedWhilePolling` | bin/activity_mode_watch.inc:848-936 | so is a file whose load failed, within 31.5 s and two gaps |
| `ConfigTiming.PollingLoadsIff` | bin/activity_mode_watch.inc:894-936 | over runs that poll for a changed file, a load is tried exactly when some tick outside the cool-down comes 1.5 s or more and less than 2 s after the last poll |
| `ConfigTiming.PollingReloads` | bin/activity_mode_watch.inc:894-936 | and when loads succeed, the file is reloaded exactly then |
| `ConfigTiming.PeriodicPollingLoadsIff` | bin/activity_mode_watch.inc:894-936 | with ticks one period apart that is when some multiple of the period lies in that half second |
| `ConfigReload.LoadsSpaced` | bin/activity_mode_watch.inc:697-698 | successful loads are at least 3 s apart in every run |
| `ConfigReload.BackoffDoubles` | bin/activity_mode_watch.inc:848-851 | the retry delay is 2 s after the first failure, doubles up to the fourth and is 30 s from the fifth on |
| `ConfigReload.MarkedIff` | bin/activity_mode_watch.inc:1137-1213 | reading the queue marks the file exactly when it holds an event of the file or an overflow, and takes off what it read |
| `ConfigReload.UnchangedNotLoaded` | bin/activity_mode_watch.inc:797-831 | a file with the committed content is never loaded |
| `ConfigReload.GapIsSafeWhenUnchanged` | bin/activity_main_loop.inc:74-74 | in every run the first watch loses nothing exactly when the file is still what was loaded at startup, or is open for writing |
| `ConfigReload.StartupGap` | bin/activity_main_loop.inc:282-284 | a file replaced between priming and adding the watch is missed |
| `ConfigReload.GapIsLost` | bin/activity_main_loop.inc:282-284 | and stays missed until a later change is noticed |
| `ConfigReload.UnreadForever` | bin/activity_main_loop.inc:56-74 | over every run that leaves its content, a file changed between loading and priming is never loaded |
| `ConfigReload.ReloadWatch.TakePending` | bin/activity_mode_watch.inc:797-831 | cool-down, debounce, deletion, unreadable and unchanged files, field by field |
| `ConfigReload.ReloadWatch.FinishReload` | bin/activity_mode_watch.inc:834-856 | commit or back off, field by field |
| `ConfigReload.ReloadWatch.HandleNotices` | bin/activity_mode_watch.inc:1137-1213 | one read of the queue marks the file exactly when it holds an event of the file or an overflow |
| `RuleMatch.CacheAgrees` | 线程源码/main.Rt.c:726-775 | the cached lookup gives the same rule as the scan exactly when the name is not cached, or the name matches itself and no other literal thread name matches it through escapes |
| `RuleMatch.GlobIsFnmatch` | 线程源码/main.Rt.c:744-762 | a matcher of stars, question marks and backslashes, with any brackets, has all that is asked of fnmatch |
| `RuleMatch.NoBackslashAgrees` | 线程源码/main.Rt.c:726-775 | with no backslash in the rules the cache never changes an answer |
| `RuleMatch.BackslashDisagrees` | 线程源码/main.Rt.c:317-336 | an escaped pattern outranks the exact name in the scan only |
| `RuleMatch.FirstMaxMeaning` | 线程源码/main.Rt.c:739-773 | the scan finds a rule exactly when one applies, and then the first of the highest priority |
| `RuleMatch.TiesExact` | 线程源码/main.Rt.c:564-576 | of equally good rules of the exact package the latest line wins, and they win over package patterns |
| `RuleMatch.TiesGlob` | 线程源码/main.Rt.c:577-585 | of equally good rules of package patterns the earliest line wins |
| `RuleMatch.LiteralsOutrank` | 线程源码/main.Rt.c:289-309 | below the length limit every literal outranks every pattern, and a longer literal a shorter one |
| `RuleLaws.PriorityOrder` | 线程源码/main.Rt.c:289-309 | of two patterns within the length limits one has the higher priority exactly when it is more specific: a name, then brackets, question marks, stars only, and within a class by the number of plain characters |
| `RuleLaws.ScanIff` | 线程源码/main.Rt.c:726-775 | for any fnmatch the scan finds exactly the rule that applies, matches and is the most specific, ties going to exact packages from the last line back and then to package patterns from the first line on; without a thread rule the same among rules for the whole package; and none exactly when none applies |
| `RuleLaws.FindBestIff` | 线程源码/main.Rt.c:726-775 | so does the lookup with its cache when no thread name has a backslash |
| `RuleLaws.MorePlainWins` | 线程源码/main.Rt.c:298-308 | of two matching patterns of one class the one with fewer plain characters is never found, whatever the lines |
| `RuleMatch.CacheMeaning` | 线程源码/main.Rt.c:317-336 | the cache holds exactly the literal thread names of a list, each with its first rule |
| `RuleMatch.RuleSet.AddRule` | 线程源码/main.Rt.c:561-585 | loading a line puts an exact rule at the front of its package list and a pattern rule at the end of the pattern list |
| `RuleMatch.RuleSet.BuildThreadCache` | 线程源码/main.Rt.c:317-336 | every package list gets its cache |
| `RuleMatch.RuleSet.RulePriority` | 线程源码/main.Rt.c:289-309 | the counting loop computes the priority of a pattern |
| `RuleMatch.RuleSet.FindBestRule` | 线程源码/main.Rt.c:726-775 | the two loops with their running best and fallback find the rule of the model |
| `CpuSet.PrintParse` | 线程源码/main.Rt.c:220-260 | printing any nonempty set and parsing the text gives the set and reports success, for every size bound and every present set that contains it |
| `CpuSet.RunsMaximal` | 线程源码/main.Rt.c:242-260 | the printed runs ascend and a gap separates them, so each is maximal |
| `CpuSet.RunsCover` | 线程源码/main.Rt.c:242-260 | the printed runs make up exactly the set |
| `CpuSet.StrtoulDigits` | 线程源码/main.Rt.c:226-229 | the number conversion reads a printed number back, in base ten or with the base taken from the text |
| `CpuSet.ParseCpuRanges` | 线程源码/main.Rt.c:220-240 | the loops over text and CPUs compute the meaning of the text, for malformed text as well |
| `CpuSet.TextFits` | 线程源码/main.Rt.c:242-258 | text and NUL fit the buffer of eight bytes per CPU, for all sizes up to ten digits |
| `CpuLaws.ListParsed` | 线程源码/main.Rt.c:220-240 | a list of CPUs and ranges, in any order, overlapping, backwards, or beyond the number of CPUs, puts in every CPU it names, except, when checked, those not present, and is valid exactly when there are none of these |
| `CpuLaws.JunkIsSkipped` | 线程源码/main.Rt.c:224-227 | bytes that begin no number are passed over |
| `CpuLaws.StrtoulAny` | 线程源码/main.Rt.c:226-229 | numbers beyond 64 bits are read as the largest |
| `CpuLaws.PrefixedRead` | 线程源码/main.Rt.c:226 | a first number after 0x is read in base sixteen, and after 0 in base eight |
| `CpuLaws.PrintedList` | 线程源码/main.Rt.c:242-260 | a set is printed as the list of its runs |
| `CpuSet.CpuSetToStr` | 线程源码/main.Rt.c:242-260 | the loop with its open run writes the runs of the set, and what remains of the buffer never falls below zero |
| `RenderBand.BandFalls` | bin/activity_dynamic_tuning.inc:176-225 | for every band asked for and every sorted table, a lower ceiling waits 120 ms after a raise and the hold time after a release; then it falls by at least one step or to the goal, never below it |
| `RenderBand.BandRises` | bin/activity_dynamic_tuning.inc:176-224 | a higher band is applied at once and in full |
| `RenderBand.BandReached` | bin/activity_dynamic_tuning.inc:176-225 | over every run that asks for one band, the ceiling reaches it after one tick from below, and from above after at most the distance divided by the step, rounded up, releases, never more, and is never below it |
| `RenderBand.BandReachedInTime` | bin/activity_dynamic_tuning.inc:176-225 | with ticks at most a gap apart a lower band is reached within 120 ms and, for every step to it, the hold time and a gap |
| `RampLaws.BandTick` | bin/activity_dynamic_tuning.inc:176-225 | every tick on a sorted table, exactly: the ceiling asked for is the least of band, limit and hardware rounded down, the floor the greatest rounded up; a higher ceiling is applied at once; a lower one not within 120 ms of a raise or the hold time of a release, and else falls to the entry just below one step, or to the ceiling asked for; the step is a share of the range, at least 64 MHz |
| `RampLaws.AskedFor` | bin/activity_dynamic_tuning.inc:185-216 | ceiling, floor and step are these for every band asked for |
| `RampLaws.BandFallsGradually` | bin/activity_dynamic_tuning.inc:214-221 | in every run k releases lower the ceiling by at most k steps and k gaps of the table |
| `RenderBand.RoundDownMeaning` | bin/activity_freq_utils.inc:15-23 | in a sorted table the result is the largest entry not above the target, or the first entry |
| `RenderBand.RoundUpMeaning` | bin/activity_dynamic_tuning.inc:18-28 | the smallest entry not below the target is found exactly when there is one |
| `RenderBand.YieldsToPlatform` | bin/activity_dynamic_tuning.inc:112-137 | in yielding mode nothing is written for 400 ms after a foreign change was seen |
| `RenderBand.ClampIsNotForeign` | bin/activity_dynamic_tuning.inc:104-111 | a platform that only clamps what is written is never taken for another writer |
| `RenderBand.ClampKeepsRewriting` | bin/activity_dynamic_tuning.inc:137-155 | so every tick that finds the nodes off the band writes it again |
| `RampLaws.WantedIs` | bin/activity_dynamic_tuning.inc:88-92 | the band written is raised and lowered to the limits, the ceiling never below the floor |
| `RampLaws.WritesIff` | bin/activity_dynamic_tuning.inc:108-155 | a tick writes exactly when the nodes hold another band and, for a writer that yields, nobody else has written and its 400 ms are over; and what it remembers of them |
| `RenderBand.ClusterBand.EnforceBand` | bin/activity_dynamic_tuning.inc:83-168 | whether a tick writes, and every remembered value, as in the model |
| `RenderBand.ClusterBand.ApplyRenderBand` | bin/activity_dynamic_tuning.inc:176-231 | the ramp and the write that follows it, as in the model |
| `DailyBand.BandInRange` | bin/activity_dynamic_tuning.inc:1007-1041 | for every load and every accepted stage table fmin <= floor <= ceiling <= fmax before holding |
| `DailyBand.BandMonotone` | bin/activity_dynamic_tuning.inc:984-1041 | with rising stages both bounds are nondecreasing in the load, softening and truncation included |
| `DailyBand.MeetsBreakpoints` | bin/activity_dynamic_tuning.inc:1010-1023 | at the load of a stage the shares are those of the stage |
| `DailyLaws.BandIs` | bin/activity_dynamic_tuning.inc:1007-1041 | between the loads of two stages the shares lie on the straight line between theirs, but for less than two thousandths, and give the floor and the raw ceiling, which is softened but stays above the floor |
| `DailyLaws.TickIs` | bin/activity_dynamic_tuning.inc:984-1061 | one tick: the first stage reached, unless hysteresis keeps the last one; its band, which is put out unless it only narrows the one held within the hold time |
| `DailyLaws.FirstTickOnLine` | bin/activity_dynamic_tuning.inc:1010-1041 | the first tick between two stages puts out a band on the line, through all of this |
| `DailyLaws.NarrowingsSpaced` | bin/activity_dynamic_tuning.inc:1043-1061 | in every run a tick that only narrows the band comes at least the hold time after each that narrowed it |
| `DailyBand.LimitedInRange` | bin/activity_dynamic_tuning.inc:349-364 | whatever band comes in, the limiter puts out fmin <= floor <= ceiling <= fmax, and it leaves a band within all limits alone |
| `DailyLaws.LimitIs` | bin/activity_dynamic_tuning.inc:349-364 | it lowers the ceiling to its maximum and the limit, and raises the floor to its minimum and the limit, though not above that ceiling |
| `DailyBand.HeldInRange` | bin/activity_dynamic_tuning.inc:1043-1061 | without the limiter the band put out is within the limits exactly when it is not held back or the held band lies within them |
| `DailyBand.RunInRange` | bin/activity_dynamic_tuning.inc:984-1061 | while the limits do not change, the band of every tick of every run lies within them |
| `DailyBand.StaleBandAboveMaximum` | bin/activity_dynamic_tuning.inc:1043-1061 | three ticks from startup at which the maximum drops put out, and write, a band above the maximum |
| `DailyBand.WrittenInRange` | bin/activity_dynamic_tuning.inc:88-92 | what is finally written stays below the maximum exactly when the floor does |
| `DailyBand.DailyTuner.Tune` | bin/activity_dynamic_tuning.inc:984-1061 | stage search, hysteresis, interpolation and holding, as in the model |
| `DailyBand.ClampBand` | bin/activity_dynamic_tuning.inc:349-364 | the clamping statements compute the limited band |
| `RuntimeAccounting.ChargedIsSlice` | 线程源码/monitor.bpf.c:116-131 | over every run with changing targets the time charged at a switch is exactly the slice it completes if and only if the switch that began the slice was handled with a target |
| `RuntimeAccounting.ChargedSinceStamp` | 线程源码/monitor.bpf.c:116-131 | in every case the time since the CPU's last handled switch is charged: more than the slice after a gap, and nothing when there was none |
| `RuntimeAccounting.ChargedWithinTime` | 线程源码/monitor.bpf.c:107-136 | in every run, whatever the targets do, a CPU is charged no more than the time from its first switch to its last handled one |
| `RuntimeAccounting.TotalsAreSlices` | 线程源码/monitor.bpf.c:107-136 | in any interleaving of the CPUs, when every charged slice began handled, each thread totals the sum of its completed slices |
| `RuntimeAccounting.AlwaysTargeted` | 线程源码/monitor.bpf.c:116-119 | that is so whenever there is always a target, the same one or not |
| `RuntimeAccounting.CpuTimeTelescopes` | 线程源码/monitor.bpf.c:107-136 | on every CPU what the handler has charged and the slices charged to nobody add up to its last minus its first time stamp |
| `RuntimeAccounting.ThreadsEqualCpus` | 线程源码/monitor.bpf.c:121-131 | in every run the totals of all threads add up to what all CPUs have charged |
| `RuntimeAccounting.GapOvercharges` | 线程源码/monitor.bpf.c:116-119 | a run in which a slice of 10 ns after a gap is charged 20 ns |
| `RuntimeAccounting.GapUndercharges` | 线程源码/monitor.bpf.c:116-119 | and one in which it is charged nothing |
| `RuntimeAccounting.Accounting.HandleSchedSwitch` | 线程源码/monitor.bpf.c:107-136 | the handler updates both maps as in the model |

## Left out

- Allocation failure and the lifetime of memory: every allocation succeeds and nothing is freed.
- Hash values, counters and time stamps are unbounded: wrap-around is modelled only for the staleness test of a surface.
- The bloom filter, HASH_SELECT, HASH_REPLACE and the hash functions of uthash.h; a hash is any function of the key.
- UtHash.HashTable.Add: takes only keys that are not in the table; a second element under a present key would shadow the first.
- UtHash.HashTable.AddInorder: the same.
- JsonList.Item.AddItem: takes only items that are not children of the list yet; the source would link one in again.
- JsonList.Item.InsertItem: the same, and not the list itself.
- JsonList.Item.Replace: the replacement is the item itself or no child of the list, and not the list.
- Printing non-integer numbers: `%1.15g` and `%1.17g` are not modelled. The number conversion reads them without rounding.
- JsonLoose.ValueTaken: what a number outside the grammar, such as one with leading zeros, is read as is not said, nor that every such form is accepted.
- JsonGrammar.NumberAccepted: the value is the exact real; rounding and overflow of the double are not modelled.
- JsonPrinter.PrintBuffer.EmitNumber: whole 32-bit numbers only.
- Raw items, references and string constants in printing, and the error position the parser reports.
- cJSON_Minify, and cJSON_Compare with names compared without case or with the same item given twice.
- JsonParser.ParseBuffer.ReadValue: the tree is a value, so the linking of children while parsing is not part of it; the lists themselves are in JsonList.
- JsonParser.ParseBuffer.ReadArray: the same.
- JsonParser.ParseBuffer.ReadObject: the same.
- JsonCompare.CompareTrees: Raw items, missing strings and the shortcut for one item compared with itself are not modelled.
- FasController.ComputeWindows: the two averages the engine uses; the last, 4-frame, 8-frame and slope values are only logged.
- FasController.Controller.Tick: the output fields the executor acts on, not those that only logs show.
- Frame counters kept only for diagnostics, and collect_queuebuffer_frametimes.
- The thread usage collector, the targets and budgets in the engine output that only logs show, and the log itself.
- FasEngine.DegradeNeedsHold: says nothing of the upshift, whose candidate survives ticks under the base.
- Removal of a watched configuration directory: the watch mask does not ask for it, so no event tells of it.
- ConfigReload.NothingLost: the hash and the load are one step and the hash is injective; a change that is undone between the two is not seen by the code.
- What the loaders do with each file; a load succeeds or fails by a parameter.
- The priority rules, reference counts and the reallocated rule array of main.Rt.c; rules are values.
- CpuSet.CpuSetToStr: takes no empty set, for which the source returns an unwritten buffer.
- RuleMatch.CacheAgrees: a thread name of 31 bytes, which main.Rt.c:539 copies without a terminating NUL, is taken as terminated.
- RenderBand.ClampIsNotForeign: the nodes are readable at every tick; an unreadable node is read as the last written value and can look like a change.
- How the target of the FAS path and the load of a cluster are computed, screen and scene limits, GPU and DDR, and all sysfs, proc and cgroup access.
- RuntimeAccounting.TotalsAreSlices: the maps never fill up, and user space does not clear the totals during the run.
- Concurrency below the steps named: handlers under one mutex, or on one CPU, are single steps.
