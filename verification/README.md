# Verified models of MDSplus components

Dafny models of the MDSplus code in which small arithmetic or pointer details decide
whether the result is right, with proofs of what that code is for.

* **128-bit integers** (`_include/int128.h`): `Basics.dfy`, `Words.dfy`, `Int128.dfy`, `Int128Multiply.dfy`,
  `Int128Divide.dfy`, `Int128Decimal.dfy`.  The objects are pairs of 64-bit words that the operations
  overwrite; every operation may be given the same object as input and output.  Wrap-around,
  truncation and two's complement are written out over unbounded integers.
* **The CAMAC module and crate databases** (`camshr/`): `CStrings.dfy`, `InsertionSort.dfy`,
  `CamacRecords.dfy`, `SortedFile.dfy`, `CamacFile.dfy`, `CamacRemoval.dfy`, `CamacDatabase.dfy`.
  `CamacDatabase` is the memory-mapped character array with the commands that edit it in place.
  `SortedFile` is the file as a sequence of records, for any kind of record that obeys a few laws;
  `CamacFile` shows that modules and crates obey them, and that every run of commands does to a
  finite set of records what it should.
* **The action monitor** (`actions/`): `EventQueue.dfy` (the linked queue, and the same operations as
  threads that interleave at every read and write of shared memory), `EventAccount.dfy` (what becomes of
  every event under these threads), `ServerList.dfy` (the sorted list and its widget).
* **The scope** (`dwscope/`): `ScopeText.dfy` (newline codec), `ScopePanel.dfy` (panel selections).
* **HDF5** (`hdf5/`): `Hdf5Tree.dfy` (the item tree: list, find, free), `Hdf5File.dfy` (what a file should
  list), `Hdf5Open.dfy` (building the tree from a file), `NodeNames.dfy` (unique node names).
* **The parallel test scheduler** (`deploy/build.py`): `TestScheduler.dfy`.

Where the C code works on memory, a class or an array is edited by methods, and the methods'
`ensures` tie the new state to a function of the old one; the lemmas then prove what that function
is good for.  `dafny verify dfyconfig.toml` checks everything.

Some properties hold only under a condition.  There the code is modelled as it is and the exact
condition is proved:

* The flags of `uint128_add` and `uint128_sub` miss an overflow exactly when the high word of `b` is all
  ones and the low words carry or borrow.
* The flag of `uint128_mul` looks only at the columns that are kept.
* Removing from a database file without a free slot copies in the record behind the file's end:
  `delete crate` and `deassign` are right exactly when nothing was to be removed, or there was a free
  slot, or that record happened to be blank.
* A crate name of fewer than six characters gives a malformed record and spoils the sorted file.
* A text comes back from the setup file exactly when it has no "|||" and no bar before a newline.
* A panel selection is accepted exactly when no text is longer than 32767 characters.
* `FindItem` drops trailing blanks, so a listed path that ends in one is never found by its own name.
* The attributes of a group are attached to its first member (`hdf5/hdf5tdi.c:208-210`), so they are
  listed under that member, and those of an empty group are not listed at all.

## Model

| member | source | states |
|---|---|---|
| Int128.ULt | _include/int128.h:185-211 | the word-wise unsigned comparison is `<` on 128-bit numbers |
| Int128.SGt | _include/int128.h:185-211 | the word-wise signed comparison is `>` on two's-complement numbers |
| Int128.Add | _include/int128.h:213-223 | the sum modulo 2^128 for all inputs, aliased or not; the flag is right exactly unless b.high is all ones and the low words carry |
| Int128.Sub | _include/int128.h:237-247 | the difference modulo 2^128; the flag is right exactly unless b.high is all ones and the low words borrow |
| Int128.Minus | _include/int128.h:44-51 | two's-complement negation of the signed number |
| Int128.Abs | _include/int128.h:53-63 | the magnitude and the sign, the most negative value included |
| Int128.ShiftCount | _include/int128.h:65-99 | truncating remainder and correction give n mod 128 |
| Int128.LeftShift | _include/int128.h:65-81 | multiplication by 2^(n mod 128) modulo 2^128, for counts not divisible by 128 |
| Int128.RightShift | _include/int128.h:83-99 | floor division by 2^(n mod 128) |
| Int128.Shift | _include/int128.h:135-141 | left for positive counts, right for negative ones |
| Int128.ShiftRoundTrip | _include/int128.h:65-99 | shifting left and right again by n keeps exactly the low 128-n bits |
| Int128Multiply.SplitLimbs | _include/int128.h:263-276 | the four 32-bit limbs stand for the number |
| Int128Multiply.AddColumn | _include/int128.h:278-288 | the 64-bit accumulator and the carry count are together the true column sum |
| Int128Multiply.CarryOut | _include/int128.h:289-290 | a column's digit and what moves to the next column lose nothing |
| Int128Multiply.ProductByColumns | _include/int128.h:261-295 | the limb columns kept by the loop are the product modulo 2^128 |
| Int128Multiply.Mul | _include/int128.h:263-295 | the product modulo 2^128 for all inputs, whichever objects coincide; the returned flag says exactly that what the columns keep of the product is below 2^160 |
| Int128Multiply.FlagNeverDeniesAFit | _include/int128.h:263-295 | a product that fits is never reported as too large |
| Int128Multiply.MissedOverflow | _include/int128.h:294 | an overflow that the flag misses, because only dropped columns hold it |
| Int128Multiply.SMul | _include/int128.h:297-306 | the two's-complement product modulo 2^128 |
| Int128Divide.ScaleUp | _include/int128.h:328-341 | the first loop ends with d = y*2^p, d <= x < 2d kept as x-d, so that doubling d never overflows |
| Int128Divide.QuotientBits | _include/int128.h:342-363 | the second loop ends with ans*y + n = x and n < y |
| Int128Divide.Div | _include/int128.h:308-371 | floor(x/y) for every x and y >= 1, 0 for y = 0; the flag says "y divides x" for x >= y |
| Int128Divide.TruncDivRemainder | _include/int128.h:373-382 | the signed quotient leaves a remainder smaller than the divisor, with the dividend's sign |
| Int128Divide.TruncDivRange | _include/int128.h:373-382 | only the most negative value over -1 wraps, and it wraps to itself |
| Int128Divide.SDiv | _include/int128.h:373-382 | signed division truncates toward zero, modulo 2^128 |
| Int128Decimal.DoubleDigits | _include/int128.h:153-167 | one pass over the buffer doubles the decimal number and adds the carry |
| Int128Decimal.NoCarryOut | _include/int128.h:153-167 | no carry ever leaves the 43-digit buffer |
| Int128Decimal.CanonicalNumeral | _include/int128.h:169-172 | digits without a superfluous leading zero are the numeral of their value |
| Int128Decimal.DecimalDenotes | _include/int128.h:144-173 | the reference numeral denotes its argument |
| Int128Decimal.FourLeadingZeros | _include/int128.h:144-183 | a 128-bit number leaves four places free before its numeral |
| Int128Decimal.Deco | _include/int128.h:144-173 | the returned offset starts the canonical decimal numeral of the input |
| Int128Decimal.SDeco | _include/int128.h:175-183 | the signed numeral down to the most negative value; the sign stays inside the buffer |
| CStrings.StrncmpNocase | camshr/compare_str.c:87-136 | its sign is the order of the upper-cased strings up to the first NUL |
| CStrings.CompareStr | camshr/compare_str.c:78-137 | -1, 0 or 1 by the order of the upper-cased C strings |
| CStrings.CaseIsAllThatIsLost | camshr/compare_str.c:87-136 | changing the case identifies the two cases of a letter and keeps all other characters apart |
| InsertionSort.SortIsStable | camshr/issort.c:70-101 | for any total preorder the result is sorted and equal elements keep their order |
| InsertionSort.SortKeepsElements | camshr/issort.c:70-101 | the result is a permutation |
| InsertionSort.StableSortUnique | camshr/issort.c:70-101 | a sorted stable rearrangement is unique, so the two properties determine the result |
| CamacDatabase.Database.InsertSlot | camshr/issort.c:82-95 | taking a record out, moving greater ones up and putting it down is insertion, in place on the byte array, if the comparison routine agrees with an order on the records whatever lies behind them |
| CamacDatabase.Database.Issort | camshr/issort.c:70-101 | the in-place sort of the first records equals the reference sort and leaves the rest alone, for every comparison routine on memory that agrees with an order on the records it compares |
| CamacRecords.PaddedOrderIsNameOrder | camshr/compare_str.c:87-136 | comparing space-padded records (the sort) is comparing trimmed names (the search) |
| CamacRecords.ComparedInMemory | camshr/compare_str.c:87-136 | two different records, one of them without a NUL, compare as the records do, whatever lies behind them in memory |
| CamacRecords.FollowingMemoryIsIrrelevant | camshr/compare_str.c:87-136 | for records with different names, what lies behind them has no influence, and they compare as their names do |
| CamacRecords.ModuleLineWellFormed | camshr/verbs.c:201-215 | the line `assign` prints is a well-formed record of that name, with "(null)" comments blanked |
| CamacRecords.ModuleLineSays | camshr/verbs.c:201-215 | every column of the line `assign` prints: the upper-cased names and the comment in their fields, blanks behind them, and the first six columns of the comment blank if they were "(null)" |
| CamacRecords.ModuleReadBack | camshr/verbs.c:201-215 | a reader that cuts the fields of such a record and drops trailing blanks gets back each name and the comment, unless it ends in a blank |
| CamacRecords.CrateLineWellFormed | camshr/verbs.c:796-797 | the line `add crate` prints is a well-formed record exactly for six or more characters |
| CamacRecords.CrateLineSays | camshr/verbs.c:796-797 | every column of the line `add crate` prints |
| CamacFile.ProbeFinds | camshr/bisearch.c:109-160 | on ascending keys the probes find an equal key or there is none |
| CamacFile.LookupFinds | camshr/bisearch.c:69-172 | on sorted entries the search returns a matching entry if one exists, else -1; four-character crate targets match by prefix |
| CamacFile.EveryEntryIsFound | camshr/bisearch.c:109-160 | the search for the name of an entry of a sorted file returns the index of that entry |
| CamacFile.MatchesMeans | camshr/bisearch.c:123-135 | what a match is, in characters: the whole name, or the first four characters for a four-character crate target |
| CamacFile.OddCrateNameIsNeverFound | camshr/bisearch.c:123-126 | a crate target with neither four nor six characters is never found |
| CamacDatabase.Database.Bisearch | camshr/bisearch.c:69-172 | the loop over the mapped records computes that search |
| CamacDatabase.Database.LookupEntry | camshr/lookup_entry.c:84-105 | count plus search, -2 for an empty file |
| CamacDatabase.Database.GetFileCount | camshr/get_file_count.c:73-142 | the length of the prefix of slots that do not start with a space |
| CamacDatabase.Database.AddEntry | camshr/add_entry.c:117-132 | shift up, put first, sort with `compare_str` on the mapping: if the records can be told apart, the file becomes the sorted one with the line in it |
| CamacDatabase.AllEntriesToldApart | camshr/verbs.c:168-215 | the entries of a valid file and a line that was not found are told apart, a malformed crate line included |
| CamacDatabase.Database.CopyTo | camshr/copy.c:72-157 | the first records arrive in order in the new file, blanks behind them |
| CamacDatabase.Database.RemoveEntry | camshr/remove_entry.c:135-143 | slots move down by one, the slot behind the last one read is blanked, everything else stays |
| CamacDatabase.Database.ExpandDb | camshr/expand_db.c:96-118 | the new file has the next multiple of ten slots, the old entries first and blanks behind |
| CamacDatabase.Database.constructor | camshr/create_tmp_file.c:70-138 | a valid file of the given number of blank records |
| CamacRemoval.RemovalExactly | camshr/remove_entry.c:135-143 | one removal is right if and only if there was a free slot or the record behind the file was blank |
| CamacRemoval.SoundPasses | camshr/verbs.c:392-427 | as many passes as there are matches leave exactly the other entries, although each pass skips the record after a deletion |
| CamacRemoval.SpoiledPasses | camshr/verbs.c:392-427 | once the record from behind the file has come in, no later pass removes it |
| CamacRemoval.DeassignExactly | camshr/verbs.c:366-427 | deassign is right if and only if there was a free slot, or a blank behind the file, or no match |
| CamacDatabase.FullFileKeepsItsCount | camshr/remove_entry.c:135-143 | removing from a full file with zeros behind it does not lower the number of entries |
| SortedFile.PassProgress | camshr/verbs.c:394-424 | a pass loses nothing that should stay and deletes at least one match if there is one |
| SortedFile.PassReducesMatches | camshr/verbs.c:392-427 | every pass lowers the number of matches until it is zero |
| SortedFile.AddRefines | camshr/verbs.c:168-221 | adding a new name adds exactly that record and keeps strict order, growth included |
| SortedFile.AddedIsLive | camshr/add_entry.c:117-132 | the added line is an entry of the new file, whatever it looks like |
| SortedFile.RemovedRefines | camshr/remove_entry.c:135-143 | removing takes exactly one record from the set |
| SortedFile.StepRefines | camshr/verbs.c:117-871 | every command keeps the file valid and does to the set of records what it is for, failures included |
| CamacFile.LayoutIsLawful | camshr/bisearch.c:69-172 | module and crate records, their sort and their search obey the laws the refinement needs |
| CamacFile.DatabaseRunRefines | camshr/verbs.c:117-871 | over every run of commands the file stays sorted and duplicate-free and stands for the set the commands make |
| CamacFile.BlankFileIsValid | camshr/create_tmp_file.c:70-138 | the file every run can start from is valid and stands for no record |
| CamacFile.MalformedLineSpoils | camshr/verbs.c:796-805 | a malformed line leaves an invalid file |
| CamacDatabase.Database.Assign | camshr/verbs.c:117-250 | the mapped file and the status are those of the abstract add command; after a success the file holds a record that says the upper-cased names and the comment |
| CamacDatabase.Database.AddCrate | camshr/verbs.c:718-813 | the same for crates, with the record after a success; the file stays valid exactly if the add failed or the name has six characters |
| CamacDatabase.Database.DelCrate | camshr/verbs.c:818-871 | the status always, and the file exactly under the removal condition, are those of the abstract delete command |
| CamacDatabase.Database.DeletePass | camshr/verbs.c:394-424 | the loop that deletes while iterating is one scan |
| CamacDatabase.Database.Deassign | camshr/verbs.c:325-433 | the status always, and the file exactly under the removal condition, are those of deleting all matches |
| EventQueue.Queue.QEvent | actions/actlogp.h:183-193 | appends the event; head and tail stay right |
| EventQueue.Queue.GetQEvent | actions/actlogp.h:159-169 | delivers the oldest event, or nothing from an empty queue |
| EventQueue.Queue.DoTimer | actions/actlogp.h:171-181 | handles all queued events in order |
| EventThreads.QSeenStep | actions/actlogp.h:183-193 | linking an event behind the tail that was read keeps the invariant while the tail lags |
| EventThreads.GNextStep | actions/actlogp.h:159-169 | moving the head to the next pointer that was read delivers exactly the first event |
| EventThreads.NextInv | actions/actlogp.h:159-193 | every read, write and lock operation of every thread keeps the invariant |
| EventThreads.EventsArriveInOrder | actions/actlogp.h:159-193 | under any interleaving the events taken off the queue are a prefix of those put on it, none lost or repeated |
| EventThreads.MutualExclusion | actions/actlogp.h:159-193 | at most one thread is between lock and unlock |
| EventThreads.NoDanglingPointer | actions/actlogp.h:159-193 | no thread is ever about to dereference a freed event |
| EventAccount.NoEventLeaks | actions/actlogp.h:159-193 | in every reachable state an allocated event is either in the queue or held by exactly one thread |
| EventAccount.DeliveredIsHandledOrTaken | actions/actlogp.h:168-180 | the events taken off the queue are exactly those handled and those in the hands of a consumer |
| EventAccount.EveryEventIsAccountedFor | actions/actlogp.h:159-193 | every event ever made has been handled or is still in memory, carries the message it was made with, and is neither delivered nor handled twice |
| EventAccount.HandledInOrder | actions/actlogp.h:171-181 | with one consumer the events are handled in the order of delivery: what was delivered is what was handled and then the event in hand |
| EventAccount.SomeoneCanGoOn | actions/actlogp.h:159-193 | no deadlock: a thread can go on unless it waits for the lock, and then the holder can |
| ServerList.RegisteredSorted | actions/actmon.c:397-425 | a look-up keeps the list strictly sorted ignoring case |
| ServerList.AfterRequests | actions/actmon.c:397-425 | after any sequence of look-ups the list holds exactly the names asked for, up to case |
| ServerList.LoggedMirrored | actions/actmon.c:453-475 | a log event keeps line k of the widget with server k |
| ServerList.WidgetMirrorsList | actions/actmon.c:397-475 | over every run of log events the list is strictly sorted and line k of the widget shows the name of server k |
| ServerList.BusyLineShows | actions/actmon.c:457-459 | the line of a busy server has the first 20 characters of its name, blank-filled, then a blank and the given text |
| ServerList.BusyLineShowsOne | actions/actmon.c:459 | a busy line shows another name only if the two agree, up to case, in these 20 columns |
| ServerList.RunTells | actions/actmon.c:453-475 | over every run of log events the path and the line of each server are those the events of that server alone leave |
| ServerList.ActionComesAndGoes | actions/actmon.c:453-475 | after a DOING, whatever happens to other servers, the line has the name and ends with the given text; the DONE with the same path leaves the bare name |
| ServerList.Monitor.FindServer | actions/actmon.c:397-425 | the node and the 1-based position of the name; a new name is linked in and shown at its place |
| ServerList.Monitor.PutLog | actions/actmon.c:453-475 | the list and the widget change as the log function says, whose effect on each line `RunTells` states |
| ServerList.Monitor.SetKillTarget | actions/actmon.c:209-227 | the target is the server that the selected line shows |
| ScopeText.TextRoundTrip | dwscope/dwscopesubs.c:1087-1138 | reading back what was written restores a text if and only if it is clean |
| ScopeText.LineRoundTrip | dwscope/dwscopesubs.c:1087-1138 | writing back what was read restores a line if and only if it has no newline |
| ScopeText.TextsThatAreLost | dwscope/dwscopesubs.c:1087-1138 | two smallest texts that are not restored |
| ScopeText.FixupLFS | dwscope/dwscopesubs.c:1087-1110 | the output is the encoding and exactly fills its allocation |
| ScopeText.FixupBARS | dwscope/dwscopesubs.c:1112-1138 | the output is the decoding and exactly fills its allocation; the remaining count never stops it early |
| ScopePanel.AcceptedExactly | dwscope/dwscopesubs.c:167-180 | the receiver's check passes if and only if no text is longer than 32767 |
| ScopePanel.PanelRoundTrip | dwscope/dwscopesubs.c:163-226 | an accepted selection restores the flags and all thirteen texts |
| ScopePanel.TextAt | dwscope/dwscopesubs.c:228-235 | the running offset is the sum of the lengths consumed, where text k lies |
| ScopePanel.ConvertWaveToSelection | dwscope/dwscopesubs.c:451-517 | the header and the texts of the selection; the texts exactly fill their part |
| ScopePanel.ConvertSelectionToWave | dwscope/dwscopesubs.c:167-205 | an accepted selection sets flags and texts to its pieces, any other changes nothing |
| Hdf5Tree.FoundIffListed | hdf5/hdf5tdi.c:259-328 | a path is found if and only if it is listed, and what is found is the first entry with it |
| Hdf5Tree.ListOne | hdf5/hdf5tdi.c:259-287 | appends the paths of everything reachable: self, attributes, children, brothers |
| Hdf5Tree.FindOne | hdf5/hdf5tdi.c:296-328 | returns the first item with the path in listing order |
| Hdf5Tree.ListedPathIsRead | hdf5/hdf5tdi.c:330-343 | with trailing blanks dropped, a listed path finds its first item if it does not end in a blank; otherwise something is found if and only if the trimmed path is listed too, and it is never the item itself |
| Hdf5Tree.EveryItemFreedOnce | hdf5/hdf5tdi.c:597-613 | the order of freeing contains every item of the tree exactly once |
| Hdf5Tree.EveryHandleClosed | hdf5/hdf5tdi.c:597-613 | every handle the tree holds is closed as often as it is held |
| Hdf5Tree.HandlesAreHeld | hdf5/hdf5tdi.c:597-606 | the handles to close are those of the data sets, attributes and the file of the tree, each as often as it is held |
| Hdf5Tree.Resources.FreeObj | hdf5/hdf5tdi.c:597-613 | frees in that order; no item is read or freed after it was freed |
| Hdf5File.ListedExactly | hdf5/hdf5tdi.c:148-235 | an entry is listed if and only if a data set or an attribute lies at that path in the file with that handle (0 if it could not be opened); groups are never listed, what lies in an opened group is |
| Hdf5File.ListedOnce | hdf5/hdf5tdi.c:183-235 | there are as many entries as data sets and attributes, so nothing is listed twice |
| Hdf5File.ListedInOrder | hdf5/hdf5tdi.c:191-200 | the members of a group are listed one after the other |
| Hdf5File.SmallFile | hdf5/hdf5tdi.c:259-287 | the listing of a small file: a data set, then its attributes, then the next member |
| Hdf5File.FoundWhereItLies | hdf5/hdf5tdi.c:296-328 | what is found under a path lies there in the file, and something is found if anything lies there |
| Hdf5Open.DrawnLinked | hdf5/hdf5tdi.c:164-173 | linking an item behind the last brother appends its tree and disturbs nothing else |
| Hdf5Open.FindAttr | hdf5/hdf5tdi.c:148-181 | the attribute chain grows by one entry at its end |
| Hdf5Open.FindObjs | hdf5/hdf5tdi.c:183-235 | the child chain grows by one item, whose listing is that of the file's member |
| Hdf5Open.GroupAttributesGoToFirstMember | hdf5/hdf5tdi.c:208-210 | a group's attributes are listed under its first member only, those of an empty group not at all |
| Hdf5Open.Session.Open | hdf5/hdf5tdi.c:622-653 | a failed open changes nothing; otherwise the old tree is freed, the new one lists exactly what lies in the file, and the handle of the file is among those to close |
| Hdf5Open.Session.List | hdf5/hdf5tdi.c:289-294 | the paths of the open file |
| Hdf5Open.Session.FindItem | hdf5/hdf5tdi.c:330-343 | the first item with the trimmed path; it succeeds if and only if that path is listed |
| Hdf5Open.Session.Close | hdf5/hdf5tdi.c:615-620 | frees and closes the whole tree |
| NodeNames.CleanedIsNodeName | hdf5/hdf5ToMds.c:76-107 | the cleaned name is a valid node name for every input |
| NodeNames.CleanedSays | hdf5/hdf5ToMds.c:78-103 | the first name tried, character by character: "." for a structure and ":" otherwise, then from the first letter on at most twelve characters, letters in upper case, "_" for what is not allowed; ITEM if there is no letter |
| NodeNames.ValidNameIsKept | hdf5/hdf5ToMds.c:61-73 | a name that is valid already is tried as it is, in upper case |
| NodeNames.AttemptIsNodeName | hdf5/hdf5ToMds.c:107-135 | every name the retry loop tries is a valid node name |
| NodeNames.AttemptsAreNumbered | hdf5/hdf5ToMds.c:107-129 | a short name is first filled up with zeros and a final 1; from then on attempt after attempt the next number, from 1, is written over the end |
| NodeNames.FourDigitAttemptsDiffer | hdf5/hdf5ToMds.c:126-129 | different four-digit numbers give different names |
| NodeNames.ManyNames | hdf5/hdf5ToMds.c:130-134 | giving up means that the tree has at least nine thousand names |
| NodeNames.SearchEnds | hdf5/hdf5ToMds.c:104-135 | at most 10000 further attempts; a name that is taken in was new to the tree and all tried before it were not |
| NodeNames.AddNode | hdf5/hdf5ToMds.c:58-137 | the loop over the character buffer performs that search, starting from the cleaned name |
| TestScheduler.RoundKeeps | deploy/build.py:1087-1151 | a round keeps every test in exactly one place and at most `parallel` running, although it edits the list it iterates over |
| TestScheduler.InitialInv | deploy/build.py:1036-1087 | a queue of tests with distinct names is such a state |
| TestScheduler.RunKeeps | deploy/build.py:1087-1151 | every point of every run is such a state |
| TestScheduler.AllTestsAccountedFor | deploy/build.py:1087-1151 | at exit every test not skipped has exactly one result |
| TestScheduler.ResultsAreExitCodes | deploy/build.py:1089-1130 | a result is recorded only because in some round of the run the process was found ended, with the code that the result says |
| TestScheduler.PassedExactly | deploy/build.py:1087-1151 | at the end a test that was not skipped is recorded as passed if and only if its process ended with code 0, else as failed |
| TestScheduler.RoundProgress | deploy/build.py:1087-1151 | a round gets work done or waits for the first running test, which the edited iteration never steps over |
| TestScheduler.RunEnds | deploy/build.py:1087-1151 | if every process ends, however late it is started and however long it lasts, the loop ends |
| TestScheduler.RunEndsWithin | deploy/build.py:1087-1151 | if no process lasts longer than d rounds, the loop ends within a stated number of rounds |
| TestScheduler.RunEndsExactly | deploy/build.py:1087-1151 | when every process ends, the loop ends if and only if there is a worker or nothing is queued |
| TestScheduler.QueueWaitsWithoutWorkers | deploy/build.py:1120-1151 | without workers the queue stays as it is for ever |
| TestScheduler.RunSelection | deploy/build.py:1119-1151 | at every point of every run only tests the pattern selects are running or have a result, and exactly the others that left the queue are skipped, in its order |
| TestScheduler.SelectedTestsHaveResults | deploy/build.py:1087-1151 | at the end of a run exactly the tests the pattern selects have a result, and the skipped ones are the others in the order of the queue |
| TestScheduler.WithoutPatternAllAreRun | deploy/build.py:1124-1127 | without a pattern every test has a result and none is skipped |
| TestScheduler.NoIdleWorker | deploy/build.py:1120-1121 | a round leaves no worker idle while tests are queued |
| TestScheduler.Scheduler.RunTests | deploy/build.py:1087-1151 | the loop over the mutable lists performs such a run and ends with nothing queued or running |

## Left out

- Int128: the flags of `int128_add` and `int128_sub` (their values are those of `Add` and `Sub`), and
  `int128_rshft`, which does not extend the sign for counts above 63.
- Int128: shift counts divisible by 128, which shift a word by 64 (undefined in C, section 6.5.7 of ISO C11).
- CAMAC: locking, `msync`, file creation and the start from an empty file, the environment, messages;
  system calls succeed and one process uses the file.
- CAMAC: the mapping is taken to reach two slots beyond the file's last record, as whole pages do except when
  the file ends close to a page's end; what those slots hold is arbitrary.  Somewhere behind the mapping, and
  behind the scratch record of the sort, memory holds a NUL.
- CAMAC: `parse_cts_db` and `StrMatchWild` are an arbitrary predicate on records.
- CamacDatabase.Database.AddCrate: describes the file before `Autoconfig`, which scans the hardware and may
  then rewrite crate records (camshr/verbs.c:806-808).
- CamacDatabase.Database.AddEntry: says nothing of the order of records that cannot be told apart, which
  depends on the memory behind them; no command adds such a record.
- CamacFile.DatabaseRunRefines: leaves out deletions that hit something in a full file, and malformed lines that
  are not refused; `Deassign`, `DelCrate` and `AddCrate` say exactly what these do.
- SortedFile.StepRefines: leaves out the same commands.
- CamacDatabase.Database.Assign: names are 1 to 32 visible characters and the other fields fit the columns the
  record has for them.
- The nested loops of `issort` and `uint128_mul` are methods of their own (`InsertSlot`, `AddColumn`).
- Actions: in the line of a busy server the time, the shot and the path are one given text; parsing of
  messages, `EventUpdate`, the positions in the list of running actions, and the Motif calls behind the
  widget are left out.
- Scope: `WaveToText`, `RemoveZeros`, the other selection targets and error texts.
- ScopePanel.ConvertSelectionToWave: leaves out selections whose sum of lengths fits although single lengths are
  negative or reach beyond the text, for which copying the pieces is not defined.
- ScopePanel.PanelRoundTrip: the selection has to fit the address space, as the sender's allocation does.
- HDF5: the library is a value that says what a file holds; a file whose links form a cycle, and members whose
  information cannot be read, are not modelled; an object of unknown kind is listed
  as an attribute without a handle, as in the code.  `current` is set before the callbacks run in C and
  after them here, which the callbacks do not look at.
- HDF5: `hdf5read` and the conversion of data, and the tree library, of which only the set of existing names
  and the acceptance of a new one are modelled.
- Scheduler: the interrupt handler, time limits, log files and reports; a process is what polling it says.
