# Verification model of the Overwatch desk bridge

A Dafny 4.11 model of the parts of the bridge where state, loops and formats meet,
with proofs of what they promise. Each file holds the module of its name
(`Crc32c.dfy` also holds the small `ByteWidth`); `Wrappers` holds the option type.
`dafny verify dfyconfig.toml` checks everything.

* **Reading another program's database** — `Bytes` (slices, little-endian numbers,
  capped varints), `Crc32c` (the table loop against the bit-serial Castagnoli
  register of section 12.1 of RFC 3720, and the masked form), `Wal` (32 KiB-block log
  records), `Batch` (write batches), `Snappy` (the decompressor against a denotation
  of element streams), `Table` (prefix-compressed tables), `V8` (the structured-clone
  reader), `Replay` (the two scans), `Listing` (the order of the files) and `Cache` (the
  parsed-file cache under every interleaving with rewrites). Writers are specification
  functions; the readers are proved to invert them, and where a reader also refuses
  things the refusal is exact.
* **The log** — `Lines` (cutting streams into lines, for every reader that does it)
  and `Journal` (the online compressor of repeated blocks).
* **Updates from the board** — `Consent` (a tap, two installs, a restart between them,
  the note on disk) with its stateful form in `OtaBridge`, and `Swap` (rotating the
  program directory by interruptible file operations).
* **Files that belong to somebody else** — `Statusline` (one slot, a marker and a chain
  file), `HookGroups` and `Hooks` (nested hook lists, two products).
* **What the board is told, and where it is** — `Normalizer` (field-by-field recency
  over a window rollover, and the countdown), `Push` (heartbeat and change-only ticks),
  `Panels` (pages within a line budget), `PortSearch` (the search for the port).

Code that works by changing things is a method or a class proved equal to a
specification function; what the source promises is then proved of that function,
mostly as invariants over every run. Environments are parameters: feed answers,
clocks, what opening a file gives, which file operation fails, what a port says.

## Where the code and its words differ

The model follows the code. Each difference has a lemma with the input that shows it,
or an if-and-only-if saying exactly when the words hold.

* `scan` returns one pair per key only if no surviving key was put, deleted and put
  again (`Replay.ScanOnePerKey`, `Replay.ReturningKeyComesTwice`).
* The journal loses the matched beginning of a block when a run breaks in the middle of
  one; otherwise it loses nothing (`Journal.LosslessIff`, `Journal.BrokenPassIsLost`,
  `Journal.BreakDrops`).
* The guard against a board that speaks a newer protocol is asked when an update is
  offered and not again at the tap, so an image staged for a board found already
  running, before its number is known, is written (`Consent.AheadIsWrittenIff`,
  `Consent.FoundRunningStages`, `Consent.AheadStaysUnwritten`).
* A displaced status line comes back verbatim only if it was an object holding nothing
  but its type and a trimmed command; a `padding` member is lost
  (`Statusline.RoundTripIff`). An uninstall over a key its owner had already cleared
  leaves the marker, and the watchdog puts the hook back
  (`Statusline.UninstallIsFinalIff`).
* Uninstalling hooks restores the file's shape only if it had no empty `hooks` object,
  no empty list under a registered event and no group there with an empty hook list
  (`Hooks.RoundTripIff`).
* Every source's frame with evidence of a reset carries 0 or nothing for that window,
  and so a forgiven reading never returns (`Normalizer.ForgivenNeverReturns`). Over
  arbitrary frames it returns exactly under `Normalizer.ForgivenReturnsIff`; a merged
  frame merged again is such a frame (`Normalizer.MergedAgainReturns`), which the
  program does not do today.
* A board that restarts while nothing can be read stays blank through every fast tick
  that reads what was last pushed before the restart (`Push.BlankAfterStartIff`).
* `<bin>.old` is deleted before anything is renamed, so only a good `<bin>` makes an
  update safe (`Swap.DroppingRollbackIsSafeIff`).

## Model

| member | source | states |
|---|---|---|
| Bytes.ReadVarint | pc/leveldb.py:50-68 | the shifting loop computes the ten-byte little-endian base-128 number at a position, or refuses |
| Bytes.ReadVarintInverts | pc/leveldb.py:50-68 | a written number is read back exactly when ten groups of seven bits hold it, and refused otherwise |
| Bytes.ReadVarintExact | pc/leveldb.py:50-68 | on every byte string a number is returned exactly where one is spelled in at most ten groups of seven bits, in any spelling, and it is that number |
| Crc32c.BuildTable | pc/leveldb.py:28-33 | the 256-entry table holds each byte clocked through the Castagnoli register |
| Crc32c.Crc | pc/leveldb.py:36-41 | the table-driven loop equals the bit-serial Castagnoli CRC on every byte string |
| Crc32c.TableStep | pc/leveldb.py:36-41 | one table lookup feeds exactly the eight bits of a byte, for any linear feedback |
| Crc32c.UnmaskInvertsMask | pc/leveldb.py:44-47 | masking and unmasking a CRC are inverse both ways on all 32-bit words |
| Crc32c.CheckValues | pc/leveldb.py:28-47 | the checksums of nothing and of the byte "1", and two unmasked words |
| Crc32c.BurstChangesCrc | pc/leveldb.py:36-41 | replacing up to four adjacent bytes by different ones always changes the CRC, whatever surrounds them |
| Wal.WalPayloads | pc/leveldb.py:134-169 | the position loop returns the parse and reassembly of the whole file |
| Wal.LogRecovers | pc/leveldb.py:134-169 | from any truncation of a log any of whose fragment bodies are damaged, exactly the payloads written whole and undamaged come back, in order |
| Wal.LogRoundTrip | pc/leveldb.py:134-169 | every list of payloads laid out by the log format is read back as that list |
| Wal.LogTruncated | pc/leveldb.py:134-169 | a log cut anywhere gives a prefix of its payloads, never part of one |
| Wal.BurstCostsOnePayload | pc/leveldb.py:134-169 | damage to up to four adjacent bytes of one fragment body costs that payload and no other |
| Wal.AssembleRecords | pc/leveldb.py:134-169 | whatever fragments are damaged, reassembly yields the payloads all of whose fragments are intact |
| Wal.AssembleExact | pc/leveldb.py:134-169 | of any fragments, good or bad and of whatever kinds, exactly the good whole ones and the good last ones behind an open first one come out, joined with the middles between |
| Wal.ParseMeets | pc/leveldb.py:134-169 | of any bytes exactly the fragments a walk meets: none past a cut one, a block with no room for a header left for the next, kind 0 no fragment |
| Wal.ZerosSayNothing | pc/leveldb.py:134-169 | zeros from a position on yield nothing |
| Wal.FragmentsStayInBlocks | pc/leveldb.py:134-169 | the writer the reader is inverted against never lets a fragment straddle two blocks |
| Batch.BatchEntries | pc/leveldb.py:172-198 | the entry loop decodes a batch payload, stopping where it goes wrong |
| Batch.EntriesInvert | pc/leveldb.py:172-198 | entries laid end to end come back one by one, whatever follows them |
| Batch.EntriesExact | pc/leveldb.py:172-198 | of any payload exactly the entries spelled behind the twelve header bytes come out, up to the first place where none is |
| Batch.WalEntries | pc/leveldb.py:201-206 | the loop over payloads gives the entries of each, in order |
| Batch.LogOfBatches | pc/leveldb.py:201-206 | every entry of every batch written to a log comes back, in file order |
| Snappy.AppendCopy | pc/leveldb.py:71-125 | the byte-at-a-time copy appends the periodic extension of the output so far |
| Snappy.Decompress | pc/leveldb.py:71-125 | the element loop computes the decompression of the buffer |
| Snappy.DecompressExact | pc/leveldb.py:71-125 | a buffer is accepted exactly when it declares a length and spells a well-formed stream denoting that many bytes, and then that is the result |
| Snappy.DecompressInverts | pc/leveldb.py:71-125 | every well-formed stream of literals and copies behind its length decodes to its denotation |
| Snappy.DecodeSound | pc/leveldb.py:71-125 | whatever decodes was spelled by a well-formed stream meaning just that |
| Table.BlockBody | pc/leveldb.py:213-223 | a block is its bytes raw or decompressed, by the type byte behind it |
| Table.BlockPairs | pc/leveldb.py:226-252 | the loop over shared, unshared and value lengths completes each key from the one before |
| Table.BlockRoundTrip | pc/leveldb.py:226-252 | a block gives back its pairs whatever was shared and wherever it restarts |
| Table.BlockPairsExact | pc/leveldb.py:226-252 | of any block exactly the pairs spelled up to the restart array come out, up to the first place where none is, and nothing of one too short for its restart array |
| Table.BlockExact | pc/leveldb.py:213-223 | a body is returned exactly where the block and its type byte are there and the byte is 0 or 1, raw or decompressed |
| Table.TableExact | pc/leveldb.py:255-295 | of any file exactly what the blocks behind its index say, in order, and nothing without magic number, handles or index block |
| Table.TableEntries | pc/leveldb.py:255-295 | the walk through footer, index and handles gives the entries of each readable block |
| Table.TableRoundTrip | pc/leveldb.py:255-295 | every entry of every block of every proper table comes back in order, raw or compressed, put or deleted |
| Table.EveryTableCanBeWritten | pc/leveldb.py:255-295 | whatever data blocks, sharing, restarts and packing, a table of them can be laid out, and all its entries come back |
| V8.Parse | pc/v8_clone.py:158-181 | skipping envelopes and reading one value computes the parse, with None for every refusal |
| V8.ReadValue | pc/v8_clone.py:49-155 | the recursive reader with its loops computes the value at a position and where it ends |
| V8.Read | pc/v8_clone.py:49-155 | on every byte string reading ends, further on than it started and inside the buffer |
| V8.ParseInverts | pc/v8_clone.py:158-181 | behind any envelopes a serialized tree of up to 64 levels comes back normalized and a deeper one is refused |
| V8.Inverts | pc/v8_clone.py:49-155 | a serialized value is read whole exactly when its height fits under the depth limit |
| V8.ReadExact | pc/v8_clone.py:49-155 | on every byte string a value is returned exactly where a tree that fits under the depth limit is spelled, in any spelling of its numbers, and it is what that tree means |
| V8.ParseExact | pc/v8_clone.py:158-181 | a parse is a value exactly when behind the envelopes a tree of up to 64 levels is spelled that means it; all else is None |
| V8.UnknownTagIsNone | pc/v8_clone.py:155-181 | a value starting with none of the thirteen tags is refused at every depth, and behind any envelopes parses to None |
| V8.PairsAreLastWrites | pc/v8_clone.py:90-148 | objects have exactly the string keys written and sparse arrays exactly the whole numbers, each with the value written last |
| V8.InOrderAscends | pc/v8_clone.py:49-155 | a sparse array keeps each index once, in ascending order |
| Replay.Scan | pc/leveldb.py:477-500 | the dict and order list compute the last-write-wins replay |
| Replay.ScanIsLastWrites | pc/leveldb.py:477-500 | as a set of pairs the result is the last-write-wins map |
| Replay.LastWritesAre | pc/leveldb.py:477-500 | a key has a value there exactly when that was put under it and nothing later wrote or deleted it |
| Replay.ScanKeepsOrder | pc/leveldb.py:477-500 | the pairs come in the order in which their keys arrived |
| Replay.ScanCounts | pc/leveldb.py:477-500 | each surviving pair comes as many times as its key arrived, and nothing else comes |
| Replay.ScanOnePerKey | pc/leveldb.py:477-500 | one pair per key holds exactly when no surviving key was put, deleted and put again |
| Replay.ReturningKeyComesTwice | pc/leveldb.py:477-500 | a put, a delete and a put of one key come back as two pairs |
| Replay.ScanAll | pc/leveldb.py:503-530 | the slots with their positions compute every live put |
| Replay.ScanAllIsSinceDelete | pc/leveldb.py:503-530 | per key and in order, exactly the puts after its last deletion |
| Replay.LastCopyIsLastWrite | pc/leveldb.py:503-530 | both scans agree on the keys, and the last value one gives is the value the other gives |
| Cache.EveryRunIsTransparent | pc/leveldb.py:397-427 | over every run of waits, rewrites, removals, stats and reads, an answer is what parsing gave at some moment between stat and read, exactly the fresh parse if nothing was written between, with the byte count, limits and recency order kept |
| Cache.NextKeeps | pc/leveldb.py:386-427 | every step of the world keeps the cache sound |
| Cache.EvictsFewest | pc/leveldb.py:386-394 | eviction drops from the least recent end, exactly as far as the limits need |
| Cache.LookKeepsRecency | pc/leveldb.py:397-427 | the slots stay in the order of their last use |
| Cache.LookAccounted | pc/leveldb.py:386-427 | the byte count stays the sum of the sizes kept, within 16 files and 4 MiB, no file twice |
| Cache.LookExact | pc/leveldb.py:386-427 | a kept file is answered from its slot, which moves to the end; any other answer is the parse, kept if the file was still for two seconds, and of the rest the longest end within 16 files and 4 MiB |
| Cache.StoreReplaces | pc/leveldb.py:386-394 | a file stored again replaces what was kept of it |
| Cache.WalkIsFresh | pc/leveldb.py:448-474 | over a still directory a poll through the cache yields the wanted entries of fresh parses, in file order |
| Cache.ParseCache.Put | pc/leveldb.py:386-394 | the eviction loop computes the stored and evicted cache |
| Cache.ParseCache.ParsedFile | pc/leveldb.py:397-427 | a hit moves to the end, a settled miss is stored, an unreadable file is neither |
| Cache.ParseCache.IterEntries | pc/leveldb.py:448-474 | the walk over the listed tables and then the logs, each in the order of the numbers, yields the wanted entries through the cache |
| Listing.StatFiles | pc/leveldb.py:430-445 | the loop gives the files of one suffix in order, but those gone before they were stat'ed |
| Listing.SortedIsInOrder | pc/leveldb.py:312-329 | the sort loses and repeats nothing and puts no file before one of a smaller number, however many digits, nor any oddly named one before a numbered one |
| Listing.ListingOrderDoesNotMatter | pc/leveldb.py:430-445 | files of different numbers are read in the same order however the directory lists them |
| Listing.NamesAreNumbers | pc/leveldb.py:312-329 | a number counts by its value, padded or not, whatever the extension; anything but digits before the first dot is no number |
| Listing.FilesListed | pc/leveldb.py:430-445 | exactly the files with the suffix that could be stat'ed are read, and none of a directory that cannot be listed |
| Lines.LineReader.Feed | pc/protocol.py:139-150 | the loop gives the messages of the completed lines and keeps the unfinished one |
| Lines.ChunksDoNotMatter | pc/protocol.py:133-150 | any cutting of the stream gives the messages and the buffer of one feed |
| Lines.Tap.Console | claude_usage_bridge.py:161-177 | each completed line is recorded without its carriage returns |
| Lines.TapCut | claude_usage_bridge.py:161-177 | two reads record what one would, on all bytes |
| Lines.ConsoleEcho.Feed | pc/logbook.py:263-281 | the lines that are neither blank nor protocol JSON, and at most the limit kept |
| Lines.EchoedIff | pc/logbook.py:263-281 | a line is echoed exactly when its first character that is no white space is no opening brace |
| Lines.EchoCut | pc/logbook.py:263-281 | two feeds leave the buffer one would; they cut the same lines exactly when no line already over the limit was finished after the cut |
| Lines.EchoIsChunkless | pc/logbook.py:263-281 | while no unfinished line is over the limit two feeds echo what one does |
| Lines.WriteCut | pc/logbook.py:181-198 | two writes offer what one does exactly when the first left no text over 8192 characters or the second was empty |
| Lines.JoinedIsText | pc/protocol.py:139-150 | the cut lines and the rest, joined again, are the text |
| Journal.RunConserves | pc/logbook.py:150-211 | after any run of lines and flushes, the expanded output and what is held are the offered lines but the dropped ones |
| Journal.StepConserves | pc/logbook.py:150-179 | one offered line keeps conservation, and a block suppresses only what was written twice |
| Journal.BreakDrops | pc/logbook.py:150-179 | a break drops the matched beginning of the block, at most 15 lines, and nothing else |
| Journal.OthersDropNothing | pc/logbook.py:150-211 | no other event drops a line |
| Journal.LosslessIff | pc/logbook.py:150-211 | nothing is lost exactly when no line broke a run in the middle of its block |
| Journal.BrokenPassIsLost | pc/logbook.py:163-168 | the run a b a b a c loses a line |
| Journal.TakesUpShortest | pc/logbook.py:136-144 | the block taken up is the shortest that has just come twice, and one is taken up whenever there is one |
| Journal.OfferWrites | pc/logbook.py:150-179 | what one line writes: nothing while it continues the block, but for a report when a pass ends an interval after the last; else the report of the passes held and the line, with only lines since a break counting towards the next block |
| Journal.FlushReports | pc/logbook.py:200-211 | a flush reports the passes held, and holds none |
| Journal.TrimKeeps | pc/logbook.py:150-179 | of the lines since a break the last are kept, twice the window at the most |
| Journal.Stream.Period | pc/logbook.py:136-144 | the loop finds the shortest period in the window |
| Journal.Stream.Offer | pc/logbook.py:150-179 | the fields step as one offered line demands, keeping conservation |
| Journal.Stream.Write | pc/logbook.py:181-198 | every line the text completes is offered in order, and over-long unfinished text |
| Journal.Stream.Flush | pc/logbook.py:200-211 | the pending line goes out and the held run is reported |
| Consent.ConsentIsConserved | pc/bridge.py:431-581 | over every interleaving of messages, answers, self-updates, reconnects and deaths at any moment: per version and in total, installs and the pending note never exceed taps; what is flashed matches its manifest's size and hash and its protocol floor; each self-update rises; tries stay below three |
| Consent.NextKeeps | pc/bridge.py:140-199 | every event keeps the consent invariant |
| Consent.FlashNowKeeps | pc/bridge.py:501-581 | with a tap in hand the app update, the note and the flash spend it once |
| Consent.ResumeKeeps | pc/bridge.py:431-499 | resuming spends the note once, and only on the tapped version |
| Consent.OfferedIff | pc/bridge.py:286-429 | when exactly a release is offered and staged, and what every query is answered |
| Consent.NewerIs | pc/ota.py:187-203 | a version is newer exactly when both have three parts and at the first that differs it has the larger |
| Consent.QueryRemembers | pc/bridge.py:286-362 | a query leaves when it was asked and the firmware first named, and comes back exactly if a newer release could not be offered or none may be |
| Consent.SelfUpdatesEnd | pc/update.py:215-227 | over every run, only versions the signed answers of that run named are installed as the app, each at most once, so there are no more self-updates than versions named |
| Consent.ApprovalIsResolved | pc/bridge.py:431-499 | over every run of messages, feed answers, self-updates, reconnects and deaths, the pick-ups of an approval and those its note still allows are at most three for each version named and each death in mid-event |
| Consent.PickUpsBounded | pc/bridge.py:431-499 | the same from any reachable moment: at most the tries left, and three more after each self-update or such a death |
| Consent.NoteWaits | pc/bridge.py:140-199 | nothing but a tap or a pick-up changes the note |
| Consent.ResumeResolves | pc/bridge.py:431-499 | a resume drops the note, counts one more try, or hands it to a later program |
| Consent.ResumeOutcome | pc/bridge.py:431-499 | which outcome comes when, from the answers alone: one try older while nothing can be offered, dropped when the tries are out or another version is served, else installed, or handed to the app it updates to |
| Consent.SilenceCounts | pc/bridge.py:431-499 | over every run of messages without a tap, new links and ticks, an approval outlives a feed that does not answer, each pick-up counting one try and nothing else any |
| Consent.SilenceThenInstall | pc/bridge.py:431-499 | and when the feed answers before the third try is out, the tapped version is what is installed |
| Consent.Greeted | pc/bridge.py:103-137 | a greeted board is welcomed, told what the last link could not tell it, and only then is an approval picked up |
| Consent.AsksIff | pc/bridge.py:243-284 | a board that names its firmware is asked about once a minute at the most, and once more two minutes after a failure |
| Consent.FailureComesBack | pc/bridge.py:229-284 | a failed update is offered again two minutes later, and not before |
| Consent.NothingBehindAnEnd | pc/bridge.py:103-199 | nothing is asked or said behind an install or a self-update that takes the board or the program away |
| Consent.TapIsAnswered | pc/bridge.py:501-581 | every approval ends in an error told, an install begun, or a restart |
| Consent.AheadIsWrittenIff | pc/bridge.py:226-227 | exactly when a message from a board ahead of the app installs something |
| Consent.AheadStaysUnwritten | pc/bridge.py:286-310 | with nothing staged when its number is learnt such a board is never written, over every run in which it greets first, whatever it and the feed say, across reconnects and deaths |
| Consent.FoundRunningStages | pc/bridge.py:243-263 | an image can be staged before the number is known |
| OtaBridge.PendingFirmware.BumpTries | pc/update.py:545-555 | one more try on a readable note, nothing on an unreadable one |
| OtaBridge.PendingFirmware.Take | pc/update.py:560-563 | the note is cleared whatever it held, and its version returned if readable |
| OtaBridge.Bridge.OnMessage | pc/bridge.py:140-191 | the fields step as the protocol demands for each message |
| OtaBridge.Bridge.RetryOfferIfFailed | pc/bridge.py:265-284 | one retry, two minutes after a failure, on the version the board named |
| OtaBridge.Bridge.OnOtaQuery | pc/bridge.py:286-362 | refusal, nothing newer, not paired, or an offer |
| OtaBridge.Bridge.OnOtaFlash | pc/bridge.py:501-581 | app first with the note set, then the checks and the flash |
| OtaBridge.Bridge.ResumePending | pc/bridge.py:431-499 | re-query, then give up, count, drop or install |
| Swap.Disk.SwapIn | pc/update.py:337-383 | from <bin>.new or another directory and a good program, no state on the way lacks one to start or put back; True means the tested program is in place, and comes whenever it passes and no file operation failed |
| Swap.Disk.Apply | pc/update.py:386-406 | the same for a staged archive; without a failed operation it succeeds exactly when the archive passes the self-test |
| Swap.Disk.Recover | pc/update.py:409-431 | from a safe disk only safe states, a good program unless an operation failed, and no change to a healthy one |
| Swap.Disk.Cleanup | pc/update.py:463-469 | dropping the rollback copy of a good program passes safe states only |
| Swap.Disk.Replace | pc/update.py:591-620 | ten tries, one atomic rename or none |
| Swap.Disk.RemoveTree | pc/update.py:573-574 | deletion stops anywhere, leaving part of the tree, and is complete if nothing failed |
| Swap.Disk.Life | pc/update.py:337-469 | over any number of starts, updates to any versions and cleanups cut short anywhere the disk always holds a program to start or to put back |
| Swap.DroppingRollbackIsSafeIff | pc/update.py:366-367 | deleting the rollback copy leaves something to start exactly when the current program is good |
| Swap.ChecksAre | pc/update.py:262-268 | the executable is there and not empty; it runs and the version stands somewhere in what it says |
| Swap.BetweenRenames | pc/update.py:366-371 | between the two renames the old program can be put back, after them it is the rollback copy |
| Statusline.NothingIsLost | pc/install_statusline.py:279-399 | after any run, failed saves included, an uninstall of ours restores the last foreign command an install set out to displace, or removes the key; the slot holds ours only if it is the marker; the chain never holds ours; what is not ours is left alone |
| Statusline.IsOursIsExact | pc/install_statusline.py:252-276 | in every reachable state the test recognises exactly our commands |
| Statusline.NextKeeps | pc/install_statusline.py:279-546 | installs, uninstalls, drift checks and the owner's edits keep the invariant |
| Statusline.RoundTripIff | pc/install_statusline.py:279-399 | install then uninstall gives back the very value exactly when the key was absent or held only a trimmed command |
| Statusline.ReinstallKeepsDisplaced | pc/install_statusline.py:279-341 | installing again at any path keeps what was displaced |
| Statusline.UninstallIsFinalIff | pc/install_statusline.py:344-399 | exactly when the watchdog stays quiet after an uninstall |
| Statusline.OthersStay | pc/install_statusline.py:279-399 | no key but ours changes |
| Statusline.GivesUp | pc/install_statusline.py:591-653 | the hook is put back at most three times in one life of the daemon |
| Statusline.Installer.DoInstall | pc/install_statusline.py:279-341 | chain, slot and marker after an install, a refusal or a failed save |
| Statusline.Installer.DoUninstall | pc/install_statusline.py:344-399 | slot, chain and marker after an uninstall, or all as before when the save fails |
| Statusline.Installer.CheckDrift | pc/install_statusline.py:496-546 | the check as the specification has it, whose effect is Statusline.CheckRepairs |
| Statusline.CheckRepairs | pc/install_statusline.py:496-546 | unless hands are off the slot and the marker hold our command at today's path afterwards; the report is exactly what was in the slot: nothing, ours at another path, or another's, which the chain then holds; a failed save changes neither |
| Statusline.TickChecks | pc/install_statusline.py:617-653 | a tick that is due is such a check, due again an interval later, giving up with the third find |
| Statusline.InstallWrites | pc/install_statusline.py:279-341 | slot, marker, chain and report of every install |
| Statusline.UninstallWrites | pc/install_statusline.py:344-399 | exactly a command that is recorded or would be written now is taken out, for the chained one or nothing |
| Statusline.DriftWatchdog.DoTick | pc/install_statusline.py:617-653 | interval, count and give-up step together |
| HookGroups.MergeRespects | pc/install_hooks.py:140-209 | merging into one event keeps every foreign hook under its matcher and never makes a second of ours |
| HookGroups.MergeWrites | pc/install_hooks.py:140-209 | a group of ours is added where none was ours; else the first hook of ours names the new command, and its group takes the matcher exactly when it stands there alone |
| HookGroups.StripRespects | pc/install_hooks.py:212-271 | stripping one event keeps every foreign hook and leaves none of ours |
| HookGroups.StripIsIdentityIff | pc/install_hooks.py:239-263 | stripping changes nothing exactly when nothing is ours and no group's list is empty |
| Hooks.InstallRespects | pc/install_hooks.py:140-209 | under every event every foreign hook, its order and its matcher stay, and every other key |
| Hooks.UninstallRespects | pc/install_hooks.py:212-271 | the same for the uninstall, with none of ours left under a registered event |
| Hooks.UninstallCodexRespects | pc/install_codex_hooks.py:362-517 | the same for the other product's file, which is left alone with its marker when refused, and untouched when nothing in it is ours, a null included |
| Hooks.InstallTwice | pc/install_codex_hooks.py:272-359 | a second install changes nothing, the marker included |
| Hooks.InstallMoved | pc/install_hooks.py:140-209 | where nothing was ours, an install after a move leaves what the new path alone would |
| Hooks.RoundTripIff | pc/install_hooks.py:212-271 | exactly when install and either uninstall give the very file back |
| Hooks.NothingOursIff | pc/install_hooks.py:212-271 | over a file with none of ours, exactly when the first tool's uninstall changes nothing; the other's never changes anything |
| Hooks.Registrar.DoInstall | pc/install_hooks.py:140-209 | the event loop merges every event or refuses the file |
| Hooks.Registrar.DoUninstall | pc/install_hooks.py:212-271 | the event loop strips every event and drops emptied keys |
| Hooks.Registrar.DoUninstallCodex | pc/install_codex_hooks.py:384-517 | the same, written back only if something of ours came out |
| Hooks.FindOurs | pc/install_codex_hooks.py:290-316 | the nested loops find the first hook of ours |
| Normalizer.PickLoop | pc/normalizer.py:35-49 | the loop finds the freshest frame with the field, the earlier of equals |
| Normalizer.RolledLoop | pc/normalizer.py:52-72 | the loop finds the latest rollover seen |
| Normalizer.PickIsFreshest | pc/normalizer.py:35-49 | the picked frame has the field and none with it is fresher; None means none has it |
| Normalizer.MergeIgnoresOrder | pc/normalizer.py:88-217 | frames of distinct moments merge the same in any order and multiplicity |
| Normalizer.MergeTwice | pc/normalizer.py:88-217 | a merged frame merged alone comes back unchanged |
| Normalizer.ForgivenNeverReturns | pc/normalizer.py:52-133 | whatever frames are merged and however many of them saw a reset, the merged percentage is 0, unknown or read since the latest one, and so is a burn rate |
| Normalizer.StatuslineAccounts | pc/statusline_source.py:89-184 | at every moment a status line relays what it read until the window ends, and from then carries the evidence, no reset, and 0 or unknown |
| Normalizer.EndedWindowStaysForgiven | pc/statusline_source.py:89-184 | at every moment since a status line's window ended nothing read before that end comes back |
| Normalizer.MergedComesFrom | pc/normalizer.py:75-133 | every merged percentage and rate comes from a frame that survives the latest rollover |
| Normalizer.MergedFields | pc/normalizer.py:88-217 | field by field, without the loop: each percentage and reset is the freshest there is, the state comes with its own counts and label, source, moment and staleness are those of the session dial's frame or else the weekly one's, and there is a merged frame exactly when some unforgiven percentage is known |
| Normalizer.ForgivenReturnsIff | pc/normalizer.py:75-85 | over arbitrary frames, exactly when a forgiven reading comes back: a frame with evidence, a percentage above 0 and an older moment than the latest reset, than which no believed frame is fresher |
| Normalizer.MergedAgainReturns | pc/normalizer.py:75-85 | a merged frame merged again brings back what one merge of all three frames does not |
| Normalizer.BurnExcludesCountdown | pc/normalizer.py:148-166 | a merged frame with a burn rate has no session reset, so the countdown beside it is -1 |
| Normalizer.CountdownIsNeverZero | pc/protocol.py:91-118 | a countdown is -1 exactly when unknown or past, else exactly the seconds rounded up, or the cap 999999 when that is less |
| Normalizer.SelectPairIsBest | pc/normalizer.py:220-243 | the rings show the best and second best providers by preference then freshness, and are blank only when nothing is left |
| PortSearch.Search | claude_usage_bridge.py:956-1056 | a search ends within twice as many opens as candidates, waits only after each was asked once in each pass and stayed silent, passes by no port it may reset, resets no port that answered and none it may not; a named port is settled by one open |
| PortSearch.ResetIff | claude_usage_bridge.py:322-337 | among steady ports: a named port is reset exactly when silent; otherwise the remembered port is reset exactly when attached, everything was silent quickly and it was silent patiently, no other port ever is, and the search waits exactly when it is not attached and everything was silent both times |
| PortSearch.RememberedIsRecovered | claude_usage_bridge.py:907-932 | however the ports answer, with the remembered port attached a search connects, and a reset is of that port on the first patient open |
| PortSearch.OthersKeepOrder | claude_usage_bridge.py:907-920 | behind the remembered port the others keep their order and number |
| PortSearch.Wait | claude_usage_bridge.py:1037-1050 | nothing is opened until a look shows another layout with a candidate |
| Push.WireIsCurrent | pc/bridge.py:607-746 | after any poll that read something the wire's last usage agrees on every key but the clocks, and the last session message is the current pair |
| Push.WireSaysTheReading | pc/protocol.py:487-502 | after any poll that read something the last usage on the wire has every member of the reading but the seven clocks, with its value, and no other |
| Push.NewsIsWrittenIff | pc/bridge.py:639-690 | a fast tick writes a usage exactly when its reading differs from the one before in a member that is not a clock; a heartbeat and a greeting always do |
| Push.HeartbeatSays | pc/bridge.py:607-637 | the time first, then the reading, or the failure in at most 80 characters, or nothing |
| Push.RefinesResending | pc/bridge.py:607-746 | since each greeted start, and across new links to the same board or another, the panel shows what a daemon that resends everything would, at every moment |
| Push.UnchangedIsSilent | pc/bridge.py:639-690 | a second look at an unchanged desk writes nothing |
| Push.BlankAfterStartIff | pc/bridge.py:103-137 | after a start with nothing to read, exactly when the fast ticks fill the panel |
| Push.RunKeeps | pc/bridge.py:692-746 | what is remembered of the last push and pair is what is on the wire, over every run of polls, starts and new links |
| Push.Pusher.DoPollOnce | pc/bridge.py:607-637 | the heartbeat's writes and what it remembers |
| Push.Pusher.DoPollIfChanged | pc/bridge.py:639-690 | the fast tick's writes and what it remembers |
| Push.Pusher.DoGreet | pc/bridge.py:103-126 | the greeting, of a board that started or was found running, forgets the pair and polls |
| Panels.Built | V2/panel.py:103-119 | nothing kept on a page is longer or more than the glass has room for |
| Panels.BuiltKeeps | V2/panel.py:103-119 | exactly the first rows and tiles there is room for, in order, every text cut to what fits |
| Panels.PageReadsBack | V2/panel.py:121-141 | the board reads off a page's flat keys the very page and its slot, each label beside its value and tone |
| Panels.SendableSays | V2/panel.py:184-212 | a page whose line fits is sent as it is, another as its title and one row that says by how many bytes it does not |
| Panels.DecimalReads | V2/panel.py:206-206 | that number, in decimal |
| Panels.EncodedIsJson | pc/protocol.py:39-57 | the length a line is judged by is that of its compact JSON text |
| Panels.SendableFits | V2/panel.py:121-153 | every line sent for a page, the too-long notice included, is within 480 bytes for all strings |
| Panels.GlassIsCurrent | V2/panel.py:184-221 | over every run each slot's last message since its board started is its current page |
| Panels.SlotsShow | V2/panel.py:184-212 | over every run a tick leaves on each slot the page that was built, or one that names its failure, or what was there |
| Panels.RoundSends | V2/panel.py:184-212 | only lines within the budget are sent, and none a slot shows already |
| Panels.UnchangedIsSilent | V2/panel.py:184-212 | a second round over unchanged pages sends nothing |
| Panels.PanelSet.Messages | V2/panel.py:184-212 | the slot loop computes the round |
| Panels.PanelSet.Add | V2/panel.py:169-182 | slots are handed out in order, and none when the board is full |

## Left out

- Serial ports, HTTP, subprocesses, service managers, esptool, signatures and archive formats: parameters, or outside the model.
- JSON parsing and printing, and UTF-16 and UTF-8 decoding: parameters; of printing only the text of a panel's line is modelled, with what is written for a character a parameter of up to six bytes.
- `pc/providers/*`, the weekly anchor, the ingest cooldown, the fleet gate and the audit tools: short arithmetic or guard lists that would only add easy members.
- The other V2 panels, the launcher, the web page, the command line and the firmware.
- The unattended update check (`claude_usage_bridge.py:694-726`): before the download it names a variable that is not defined there, so it reports the error and installs nothing.
- Percentages and epochs are reals, without NaN; the rounding and field packing of the usage line and its ages are not modelled.
- Bytes.ReadVarint: the source's bitwise or is an addition, the bits never overlapping.
- Wal.LogRecovers: damage is to fragment bodies; a damaged kind or length is not covered, since a fragment of kind 0 is skipped before its CRC is looked at.
- V8.ParseInverts: doubles are their eight raw bytes and texts go through the decoder parameters; None stands for null and for every refusal, as in the source.
- Cache.EveryRunIsTransparent: assumes a clock that never goes back and a write stamped less than the settling time before it happened.
- Listing.SortedIsInOrder: only ASCII digits make a number.
- Journal.Stream.Write: one reading of the clock per offered line, where the source may take two; time stamps on lines are left out, and a report is a record of its own, so a text line that looks like one is not confused with it.
- Consent.ConsentIsConserved: assumes note writes and removals succeed and a disk that began without a note.
- Consent.AheadIsWrittenIff: of a message that carries a number, the one the board already gave if it gave one.
- Consent.AheadStaysUnwritten: of a board whose every message carries a number; where one is found running, `Consent.FoundRunningStages` says what happens.
- Swap.Disk.Life: a rename is atomic; what the self-test runs is a function of the files.
- Statusline.DriftWatchdog.DoTick: the rewriting of outdated shim files in the same tick is not modelled.
- Statusline.NothingIsLost: assumes the owner never saves an older command of ours, and does not cover a wiped marker or a death between saving the settings and writing the marker.
- Hooks.RoundTripIff: the order of members in an object is not modelled.
- PortSearch.Search: assumes the layout holds still and every open succeeds.
- Push.RefinesResending: assumes every write is accepted and each start of the board found something to read; the other case is `Push.BlankAfterStartIff`.
