# Verified model of python-ethtool

This project models the stateful parts of python-ethtool in Dafny and proves what they
guarantee. `dafny verify dfyconfig.toml` checks all of it. There are four components.

**The shared NETLINK session** (`NetlinkSession`, `NetlinkSafety`, `NetlinkLeaks`,
`NetlinkCache`, `NetlinkQueries`, `EtherInfo`). All etherinfo objects of a process share one
connection and one unsigned user counter; every object carries an `nlc_active` tag and caches an
interface index and a hardware address. `NetlinkSession` is this as a state machine on values,
whose steps are creation, the link query, the IPv4 and IPv6 queries, deallocation, and a change
of the kernel's tables; `EtherInfo` has the classes whose methods update the fields as the C
code does, each proved to be one step of that machine; the assertion in `get_nlc` is a
precondition there and discharged at every call. Entry points are atomic because no file
releases the interpreter lock. What the C library answers during a call (is there a socket, does
it connect, do the dumps succeed) is a parameter of the step. The main results hold in every
run: sockets are opened and closed strictly in turn; connection and counter agree if and only if
no connect fails; the counter never exceeds the number of tagged live objects, hence nothing
leaks; it equals that number if and only if no object is born tagged and no untagged object dies
while the connection is up. The hypotheses are shown to be needed by concrete runs, among them
the overflow after 2^32 objects; and for a failed connect it is told exactly in which runs its
socket leaks.

**The struct codec and its client** (`StructCodec`, `EthtoolTables`, `Pethtool`, `PethtoolRuns`,
`PethtoolOptions`, `PethtoolScript`). A table of (name, offset, size) rows drives both the
struct-to-dictionary and the dictionary-to-struct loop over raw bytes, in either byte order. The
round trips and the frame are proved for every table with distinct names and disjoint words, and
both concrete tables are shown to be such tables. Values pass through a machine long of 64 bits
on their way to a word, so they are stored modulo 2^32 only if they are machine longs or happen
to be -1 modulo 2^32; the theorems say so both ways. On top of it stand `send_command`, an
abstract driver that stores the struct it is sent, and the argument loops of `scripts/pethtool`,
up to the effect of a whole run and of its repetition on a device, told both by the program's
own tables and by the spelling of the options and the bytes of their words.

**The ifconfig parser** (`Scanner`, `IfconfigPatterns`, `IfconfigParser`, `IfconfigPrinter`,
`IfconfigRoundTrip`, `IfconfigText`, `IfconfigMunch`, `IfconfigGrammar`, `IfconfigOldGrammar`,
`IfconfigCaptures`, `IfconfigOldCaptures`, `IfconfigRefusals`, `IfconfigOldFlags`,
`IfconfigOldPrinter`, `IfconfigFormats`, `IfconfigMixed`, `IfconfigDevices`,
`IfconfigOldDevices`, `IfconfigScript`). The patterns are written out one by one; `Scanner`
models the regular expression matcher's greedy repetitions and its backtracking where it decides
a field boundary. `IfconfigGrammar` and `IfconfigOldGrammar` state the languages of all the line
expressions, with every repetition free to end anywhere, and show that the parser takes exactly
those lines; from this `IfconfigRefusals` derives which texts fail. `IfconfigCaptures` and
`IfconfigOldCaptures` show that what is read stands in the line at its place, with any white
space between. `IfconfigScript` has the `Device` and `IfConfig` objects with the line loop and
the attribute assignments; they are proved against the functions of `IfconfigPatterns` and
`IfconfigParser`. Printers for the lines of both formats are the inverse side: printing any
devices and parsing the text gives the devices back, on the parser's own attribute sets and for
texts that mix the two formats. Where an old-format line is not read as it states, the exact
condition is proved.

**Text and bit codecs** (`ProcNetDev`, `Flags`, `Prefixes`, with `Numerals`, `Words` and
`Wrappers`). The `/proc/net/dev` reader works in place on its 256-byte buffer and is compared
with a reader of whole lines; the flag printer is inverted; prefix lengths, netmasks and bit
counts are related in both directions.

Where the code and what is written about it differ, the model follows the code:

- The comment above `open_netlink` speaks of one file descriptor per object. There is one per
  process.
- The usage text and the manual page of pethtool offer `rx-frames-low`, `tx-frames-low`,
  `rx-frames-high` and `tx-frames-high`. The table spells them `rx-frame-low` and so on, so the
  script ignores them without a message (`Pethtool.DocumentedOptions`).
- Four entries of that table are bare newline strings, not tuples, so an option named by a
  newline raises IndexError (`Pethtool.NewlineRaises`, `PethtoolRuns.LeavesLoopIff`).
- An integer that no C `long` holds is stored as 2^32 - 1, and the set command has reached the
  driver by the time the overflow shows (`PethtoolRuns.OutcomeIff`,
  `PethtoolRuns.BeyondLongFails`).
- The old-format parser reads base address, memory and DMA channel only behind an interrupt on
  the same line, because only the first of the four patterns allows for the indentation
  (`IfconfigOldPrinter.HardwareReadsIff`).
- The title of a link that ifconfig prints as "Point-to-Point Protocol" is cut at its first
  hyphen (`IfconfigFormats.PointToPointIsCut`).
- Old-format flags that look like an address are read as one
  (`IfconfigOldPrinter.AddressLikeFlags`).
- A device whose name holds anything but letters, digits and underscores, like those of bridges
  and VLANs, is no device to the ifconfig parser: its line is ignored in front of the first
  device and an error behind one in the new format (`IfconfigRefusals.OddNameIsNoHeader`,
  `IfconfigRefusals.LinesFailIff`).
- A link that the kernel numbers 0 is reported as missing once and accepted ever after
  (`NetlinkCache.ZeroIndexSticks`).
- After a failed `nl_connect` the connection pointer stays set with no user counted
  (`NetlinkSafety.FailedConnectLeaks`, `NetlinkLeaks.FailedConnectLeaksIff`).

## Model

| member | source | states |
|---|---|---|
| EtherInfo.PyEtherInfo.constructor | python-ethtool/ethtool.c:276-285 | a new object has index -1 and no hardware address, and its tag is whatever the allocator left there |
| EtherInfo.Session.OpenNetlink | python-ethtool/netlink.c:42-83 | an existing connection is shared and an untagged caller counted once; otherwise a socket is allocated and connected; success implies a connection; in all four outcomes globals and tag are those of the state machine |
| EtherInfo.Session.CloseNetlink | python-ethtool/netlink.c:103-124 | with a connection the caller is untagged and the counter goes down whatever the tag was; at zero the socket is released; without a connection nothing happens |
| EtherInfo.Session.SetDeviceIndex | python-ethtool/etherinfo.c:125-160 | a cached index is kept, otherwise the name is looked up; a failed lookup leaves the index alone, an index of zero or less is stored and reported as an error |
| EtherInfo.Session.CallbackNlLink | python-ethtool/etherinfo.c:57-73 | the hardware address is set once and never overwritten |
| EtherInfo.Session.GetEtherinfoLink | python-ethtool/etherinfo.c:177-217 | in place, one query-link step of the state machine, for the object asked and for no other |
| EtherInfo.Session.GetEtherinfoAddress | python-ethtool/etherinfo.c:232-296 | in place, one query-address step, answering with the selected table entries |
| EtherInfo.Session.GetIpv4Addr | python-ethtool/etherinfo_obj.c:232-253 | one query step; the answer is the local address of the last IPv4 entry, or none |
| EtherInfo.Session.GetIpv4Mask | python-ethtool/etherinfo_obj.c:255-272 | one query step; the answer is the prefix length of the last IPv4 entry, or 0 |
| EtherInfo.Session.GetIpv4Bcast | python-ethtool/etherinfo_obj.c:274-294 | one query step; the answer is the broadcast address of the last IPv4 entry, or 0.0.0.0 |
| EtherInfo.Session.NewEtherInfo | python-ethtool/ethtool.c:276-289 | creation is the create step: no other object and no global changes |
| EtherInfo.Session.EtherinfoDealloc | python-ethtool/etherinfo_obj.c:41-49 | deallocation is the dealloc step |
| NetlinkQueries.LinkQueryIff | python-ethtool/etherinfo.c:125-217 | how a link query ends, each way with its exact condition: no connection can be had, the name's first link is missing or has no positive index, a dump fails, success |
| NetlinkQueries.QueriesAlike | python-ethtool/etherinfo.c:232-296 | an address query ends as a link query would, moves connection, counter, tag and index alike, and leaves the hardware address alone |
| NetlinkQueries.LinkQueryStores | python-ethtool/etherinfo.c:57-73 | after a successful link query the index is the cached one or that of the first link of the name; an address cached before stays; otherwise it is the address of the first link at that index, and none exactly if there is no such link |
| NetlinkQueries.FailedLinkQuery | python-ethtool/etherinfo.c:125-203 | a failed link query leaves the hardware address alone, and the index unless the first link of the name was found, whose index is then cached whatever it is; the object is tagged if the connection was reached |
| NetlinkQueries.AddressHasOrigin | python-ethtool/etherinfo.c:57-73 | in every visited state of every run, a cached hardware address was put there by an earlier link query of that object, and is that of the link which was then the first with the index the object still has |
| NetlinkSafety.SocketsAlternate | python-ethtool/netlink.c:42-124 | in every run whatsoever sockets are opened and closed strictly in turn, and a connection exists exactly while an opening is unanswered |
| NetlinkSafety.OpeningsMinusClosings | python-ethtool/netlink.c:42-124 | openings minus closings is 1 while connected and 0 otherwise, in every visited state of every run |
| NetlinkSafety.StepIsSafe | python-ethtool/netlink.c:49-123 | one step without a failed connect keeps the invariant: connected exactly if users > 0, and users at most the number of tagged live objects |
| NetlinkSafety.RunIsSafe | python-ethtool/netlink.c:42-124 | that invariant holds after any prefix of a run, from any initial tags, as long as fewer than 2^32 objects live |
| NetlinkSafety.ConnectionAgreesIff | python-ethtool/netlink.c:49-82 | connected exactly if users > 0 in every visited state, if and only if no connect of the run fails |
| NetlinkSafety.CounterNeverWraps | python-ethtool/netlink.c:109-118 | the counter moves by at most one per step, down only at a deallocation and never up at one, so neither increment nor decrement wraps |
| NetlinkSafety.NoLeak | python-ethtool/netlink.c:42-124 | once no object is left the counter is 0, the connection closed, and every opened socket closed |
| NetlinkSafety.StepExactness | python-ethtool/netlink.c:51-57 | from a state with users equal to the tagged objects, a step keeps the equality if and only if it is not undisciplined |
| NetlinkSafety.DisciplineKeepsExact | python-ethtool/netlink.c:42-124 | a disciplined run keeps users equal to the number of tagged live objects |
| NetlinkSafety.ExactIffDisciplined | python-ethtool/netlink.c:42-124 | users equals the number of tagged live objects in every visited state, if and only if no object is born tagged and no untagged one is deallocated under a connection |
| NetlinkSafety.ClosesWithLastUser | python-ethtool/netlink.c:103-123 | in a disciplined run a deallocation closes the connection exactly if it takes the last tagged object away |
| NetlinkSafety.FailedConnectLeaks | python-ethtool/netlink.c:61-65 | a run with a failed connect ends without objects, with counter 2^32 - 1 and a socket that was never closed |
| NetlinkLeaks.IdleCounterIsZero | python-ethtool/netlink.c:42-124 | in every run whatsoever the counter is 0 while there is no connection |
| NetlinkLeaks.FailedConnectLeaksIff | python-ethtool/netlink.c:61-118 | the socket of a failed connect is still open at a later moment if and only if no deallocation since has brought the number of newly tagged objects less that of deallocated ones to a multiple of 2^32 |
| NetlinkLeaks.LeakedForGoodIff | python-ethtool/netlink.c:61-118 | within 2^32 steps and once every object is gone, that socket has leaked if and only if at no moment since the failure more objects had been newly tagged than deallocated |
| NetlinkLeaks.TaggingRepairs | python-ethtool/netlink.c:51-57 | a query of an untagged object before any deallocation restores the invariant after a failed connect |
| NetlinkSafety.EarlyClose | python-ethtool/netlink.c:109-118 | deallocating an object that never queried closes the connection under a tagged one |
| NetlinkSafety.GarbageTagCloses | python-ethtool/ethtool.c:283-285 | an object born with a set tag closes the connection under another, tagged one |
| NetlinkSafety.CrowdCounts | python-ethtool/netlink.c:51-57 | after n creations each followed by a query the counter is n modulo 2^32, under a connection if n > 0 |
| NetlinkSafety.CounterOverflow | python-ethtool/netlink.c:51-57 | the bound on live objects is tight: with 2^32 of them the counter is 0 under a connection |
| NetlinkCache.CacheIsStable | python-ethtool/etherinfo.c:125-160 | between any two states of a run in which an object lives, a cached index and a cached hardware address are the same, however the kernel's tables changed |
| NetlinkCache.IndexIsUnresolvedOrPositive | python-ethtool/etherinfo.c:134-154 | with kernels that number links from 1, every cached index is -1 or positive in every visited state |
| NetlinkCache.RetriesIff | python-ethtool/etherinfo.c:140-153 | after a query found no device, the next one looks the name up again if and only if the failed lookup did not find a link with index 0 |
| NetlinkCache.LaterLinkResolves | python-ethtool/etherinfo.c:134-148 | a name unknown to the kernel fails and succeeds once a link of that name has appeared, also for the first query of a process, before there is any connection |
| NetlinkCache.ZeroIndexSticks | python-ethtool/etherinfo.c:147-153 | a link listed with index 0 is an error at the first query and an empty answer at the second |
| NetlinkCache.SelectIsExact | python-ethtool/etherinfo.c:285-291 | an answer is the subsequence of the table at exactly the positions with the object's index and the asked family, in table order |
| NetlinkCache.AnswersFollowFirstIndex | python-ethtool/etherinfo.c:232-296 | every later successful query of an object returns the current entries of the index that its first successful query used |
| NetlinkCache.FamiliesPartition | python-ethtool/etherinfo.c:272-291 | the IPv4 and the IPv6 answer together are the interface's entries in those families, as multisets |
| NetlinkCache.LastOfAnswer | python-ethtool/etherinfo_obj.c:60-82 | the last element of an IPv4 answer is the last IPv4 entry of the interface in the table, and the answer is empty only if there is none |
| NetlinkCache.SameAnswer | python-ethtool/etherinfo.c:232-296 | between two changes of the tables every successful IPv4 query of an object returns the same list |
| NetlinkCache.GettersCohere | python-ethtool/etherinfo_obj.c:232-294 | for three getter calls on one object anywhere in a run, with other steps between them but no change of the tables, address, prefix length and broadcast come from one and the same entry, the last, or are none, 0 and 0.0.0.0 together |
| StructCodec.LoadStore | python-ethtool/ethtool.c:738-740 | a stored word reads back as the same number, in either byte order |
| StructCodec.StoreLoad | python-ethtool/ethtool.c:784-785 | a word's bytes are reproduced by storing what was read |
| StructCodec.StructDescCreateDict | python-ethtool/ethtool.c:723-758 | the loop fails exactly if a row has another size than four, and otherwise returns the dictionary the rows describe |
| StructCodec.StructDescFromDict | python-ethtool/ethtool.c:763-796 | in place, the rows before the first bad one are written; the error names that row, its size if that is not four and else its missing entry, and there is none exactly if no row is bad; then an overflow is pending exactly if some value is no machine long |
| StructCodec.PackedFrame | python-ethtool/ethtool.c:769-793 | packing changes no byte outside the words of its rows |
| StructCodec.PackedWord | python-ethtool/ethtool.c:784-784 | with disjoint rows every row's word holds its value, converted to a machine long and then to 32 bits, after the whole table |
| StructCodec.UnpackedEntry | python-ethtool/ethtool.c:732-755 | with distinct names every row's entry is the word at its offset |
| StructCodec.UnpackedKeys | python-ethtool/ethtool.c:732-755 | the dictionary's keys are exactly the table's names |
| StructCodec.PackingFailsExactly | python-ethtool/ethtool.c:763-796 | packing fails if and only if a row has a size other than four or a name the dictionary lacks; then the fields before the first such row are written and no other byte has changed |
| StructCodec.CommandWordIsOutside | python-ethtool/ethtool.c:525-529 | overwriting the first four bytes does not change what is unpacked |
| StructCodec.DictRoundTrip | python-ethtool/ethtool.c:723-796 | for every table with distinct names and disjoint words, dictionary to bytes to dictionary gives exactly the table's names with their converted values; these are the values modulo 2^32 if and only if each is a machine long or -1 modulo 2^32 |
| StructCodec.SentRoundTrip | python-ethtool/ethtool.c:518-529 | the same after the command word has been written, for tables whose rows lie behind it |
| StructCodec.ToWordIff | python-ethtool/ethtool.c:784-784 | the stored word is the integer modulo 2^32 if and only if the integer is a machine long or -1 modulo 2^32 |
| StructCodec.TruncatedIsModuloIff | python-ethtool/ethtool.c:784-784 | the same for a whole dictionary |
| StructCodec.BeyondLong | python-ethtool/ethtool.c:784-784 | 2^64 is stored as 2^32 - 1, although it is 0 modulo 2^32 |
| StructCodec.BytesRoundTrip | python-ethtool/ethtool.c:723-796 | bytes to dictionary to bytes reproduces every covered byte and leaves every other byte of the target |
| EthtoolTables.CoalesceTable | python-ethtool/ethtool-copy.h:85-178 | the 22 rows are distinct, disjoint, in bounds, and cover everything but the command word |
| EthtoolTables.RingparamTable | python-ethtool/ethtool-copy.h:181-200 | the 8 rows are distinct, disjoint, in bounds, and cover everything but the command word |
| Pethtool.GetCoalesceDictEntry | scripts/pethtool:118-129 | the search returns the field of the first entry of that name, after the two adaptive names |
| Pethtool.RecognisedAreFields | scripts/pethtool:118-129 | every recognised option of either command is a field of its struct; the search raises if and only if the command is set-coalesce and the option is "\n", and then IndexError |
| Pethtool.NewlineRaises | scripts/pethtool:124-127 | the option "\n" makes the search raise IndexError |
| Pethtool.DocumentedOptions | scripts/pethtool:70-115 | of the documented coalesce options exactly four are not recognised |
| PethtoolRuns.PlayComputes | scripts/pethtool:168-185 | the loop ends normally exactly if no pair raises; then every field holds the last value given to it, and `changed` is set exactly if some pair differed at its turn |
| PethtoolRuns.SkipsHaveNoEffect | scripts/pethtool:171-182 | unknown names and unparseable values have no effect |
| PethtoolRuns.ZeroesDoNotMatter | python-ethtool/ethtool.c:811-827 | what reaches the driver does not depend on the uninitialised struct on the stack |
| PethtoolRuns.StoredImage | python-ethtool/ethtool.c:801-866 | a get after a set returns the set dictionary with its values converted through long, which is modulo 2^32 when all of them are machine longs |
| PethtoolRuns.LeavesLoopIff | scripts/pethtool:170-171 | the loop is left by an exception, IndexError, if and only if coalesce parameters are set and some pair's option is "\n" |
| PethtoolRuns.OutcomeIff | scripts/pethtool:161-190 | each of the six outcomes of a run with the exact condition under which it occurs: not supported, IndexError for an odd number of arguments or the option "\n", nothing to do, refused by the driver, OverflowError for a last value that is no machine long, done |
| PethtoolRuns.WritesIff | scripts/pethtool:183-190 | every run whatsoever issues one set command or none; it issues one, and the device changes, if and only if the command is supported, the arguments are paired without the option "\n", and some pair differs at its turn from the values before it |
| PethtoolRuns.RunUpdates | scripts/pethtool:161-190 | get, loop and set of an accepted run: with machine longs for the last values the run ends with Done or NothingToDo and every field holds its last value modulo 2^32 or what it held; for all integers that is what the fields hold if and only if every last value is a machine long or -1 modulo 2^32; the other command's struct stays |
| PethtoolRuns.RunStores | scripts/pethtool:161-190 | get, loop and set of an accepted run on all integers: every field holds its last value converted through long to 32 bits, or what it held, and the other command's struct stays |
| PethtoolRuns.BeyondLongFails | scripts/pethtool:161-190 | setting rx-usecs to 2^64 leaves 2^32 - 1 in the device and ends with OverflowError |
| PethtoolRuns.UnnamedBytesStay | scripts/pethtool:161-190 | the bytes of a field that no pair names survive every run, whatever its outcome |
| PethtoolRuns.RepetitionKeepsState | scripts/pethtool:161-190 | a second identical run never changes a stored struct |
| PethtoolRuns.DiffersIffUnsettled | scripts/pethtool:183-185 | on a device that holds the last values, some pair differs at its turn exactly if a field is given two values or one outside a word |
| PethtoolRuns.RepetitionWritesIff | scripts/pethtool:161-190 | a second identical run of a supported and accepted command without the option "\n" issues no set command if and only if no field is given two different values and all values lie in 0 to 2^32 - 1 |
| PethtoolOptions.RecognisedIff | scripts/pethtool:70-129 | the recognised names are exactly the 22 and the four options listed with the byte offsets of their words |
| PethtoolOptions.LastPairDecides | scripts/pethtool:161-190 | in every accepted run the last pair spelled as an option, in any capitals, puts what its value says into the word at the option's offset, byte by byte in either order: 1 for "on" and 0 for "off" among coalesce parameters, otherwise the integer, if a machine long, modulo 2^32 |
| PethtoolOptions.OtherBytesStay | scripts/pethtool:161-190 | in every run a byte behind the command word stays unless some pair is spelled as the option whose word holds it |
| PethtoolOptions.OneOption | scripts/pethtool:161-190 | one option with a value: its word holds the value, every other byte behind the command word and the other struct stay |
| PethtoolOptions.SwitchesLeaveTheRing | scripts/pethtool:295-319 | "on" and "off", in any capitals, change nothing for ring parameters |
| PethtoolOptions.PassedOverChangesNothing | scripts/pethtool:171-182 | a run all of whose pairs have a name that is no option, or a value that is neither an integer nor a switch word where those count, leaves the device alone |
| PethtoolOptions.StoredCommand | python-ethtool/ethtool.c:518-529 | the struct a set leaves in the device starts with command 0x0f or 0x11 |
| PethtoolOptions.FieldsShow | python-ethtool/ethtool.c:801-858 | what the two get functions return, by literal field names: the words in the order of the struct |
| PethtoolScript.Ethtool.SendCommand | python-ethtool/ethtool.c:518-546 | the command word is written into the struct before the device sees it, and the answer is the device's |
| PethtoolScript.Ethtool.GetParams | python-ethtool/ethtool.c:801-809 | the dictionary of the stored struct, or an error exactly if the device does not support the command |
| PethtoolScript.Ethtool.SetParams | python-ethtool/ethtool.c:811-827 | a dictionary that lacks a field is refused without touching the device; otherwise the device receives the struct that the dictionary alone determines, with an error exactly if the driver refuses it or a value is no machine long |
| PethtoolScript.Ethtool.SetCoalesce | scripts/pethtool:161-190 | in place, exactly the run that the theorems are about, for coalesce parameters, with all six outcomes |
| PethtoolScript.Ethtool.SetRingparam | scripts/pethtool:295-319 | in place, exactly the run that the theorems are about, for ring parameters, with all six outcomes |
| Numerals.PyIntOfNumeral | scripts/pethtool:179-182 | int() of a decimal numeral, with or without a minus sign, is the number |
| Numerals.PyIntReads | scripts/pethtool:179-182 | int() reads white space, at most one sign, digits with single underscores between them, and white space as the number of the bare digits |
| Numerals.PyIntAccepts | scripts/pethtool:179-182 | int() accepts nothing else |
| Numerals.FirstDigit | tests/parse_ifconfig.py:42-49 | the first digit of a number weighs the base to the number of digits behind it |
| Scanner.MaximalMunch | tests/parse_ifconfig.py:36-57 | where what follows a run cannot start with a character of its class, backtracking finds what the longest run leaves or nothing |
| IfconfigMunch.NewHeaderMunch | tests/parse_ifconfig.py:98-98 | the new header pattern with its name allowed to give characters back reads what the parser reads with the longest name |
| IfconfigMunch.OldHeaderMunch | tests/parse_ifconfig.py:99-99 | the same for the old header pattern |
| IfconfigMunch.CounterMunch | tests/parse_ifconfig.py:303-358 | the same for one counter and whatever follows it, as long as that cannot start with a digit |
| IfconfigMunch.RxErrorsMunch | tests/parse_ifconfig.py:315-319 | the same for the RX errors pattern with all its eight repetitions |
| Scanner.ClassMembers | tests/parse_ifconfig.py:36-49 | the members of the digit and white-space classes, listed |
| Scanner.WordMembers | tests/parse_ifconfig.py:98-99 | the members of the word class, listed |
| IfconfigGrammar.NewReadsIff | tests/parse_ifconfig.py:242-394 | for every line: it is understood in the new format if and only if one of the nine expressions matches it with every repetition free to end anywhere |
| IfconfigGrammar.OpensIff | tests/parse_ifconfig.py:98-114 | for every line: it opens a device in either format, or is refused, or is no first line, exactly by the expressions for first lines, with every repetition free |
| IfconfigOldGrammar.ChainIff | tests/parse_ifconfig.py:396-519 | for every line: one of the eight branches of the old format takes it if and only if one of their expressions matches it |
| IfconfigOldGrammar.PassedOverIff | tests/parse_ifconfig.py:396-546 | for every line: the old format passes it over in silence if and only if none of the twelve expressions matches it |
| IfconfigOldGrammar.OptionalPartsIff | tests/parse_ifconfig.py:440-509 | outfill and keepalive of a flags line, compressed and queue length of a collisions line are read if and only if they are there, with any white space |
| IfconfigCaptures.InetParts | tests/parse_ifconfig.py:243-248 | in every matched line, whatever its white space, the two addresses read stand behind their words |
| IfconfigCaptures.PeersIff | tests/parse_ifconfig.py:252-260 | broadcast and destination are read if and only if they are there, with any white space |
| IfconfigCaptures.BroadcastParts | tests/parse_ifconfig.py:252-256 | the broadcast address read stands behind its word |
| IfconfigCaptures.DestinationParts | tests/parse_ifconfig.py:257-260 | the destination read stands behind its word and ends at white space or with the line |
| IfconfigCaptures.Inet6Parts | tests/parse_ifconfig.py:263-273 | address, prefix length and scope read stand behind their words |
| IfconfigCaptures.HwWithParts | tests/parse_ifconfig.py:275-289 | name and address read are the two words in front of the queue part |
| IfconfigCaptures.HwWithoutParts | tests/parse_ifconfig.py:291-301 | the name read is the word in front of the queue part |
| IfconfigCaptures.QueueParts | tests/parse_ifconfig.py:275-301 | queue length and title read stand behind "txqueuelen", the title reaching to the last closing parenthesis |
| IfconfigCaptures.PacketsParts | tests/parse_ifconfig.py:303-313 | both counters read stand behind their words, for RX and TX |
| IfconfigCaptures.RxErrorsParts | tests/parse_ifconfig.py:315-328 | the four counters read stand behind their words |
| IfconfigCaptures.TxErrorsParts | tests/parse_ifconfig.py:342-358 | the five counters read stand behind their words |
| IfconfigCaptures.PartsIff | tests/parse_ifconfig.py:366-390 | interrupt, base and dma of a device line are read if and only if they are there |
| IfconfigCaptures.MemoryPartIff | tests/parse_ifconfig.py:378-384 | so is the memory range |
| IfconfigCaptures.MemoryParts | tests/parse_ifconfig.py:378-384 | start and end read are the hexadecimal numbers behind "memory 0x" |
| IfconfigCaptures.OutfillIff | tests/parse_ifconfig.py:224-232 | outfill and keepalive of a first line are read if and only if they are there, with any white space |
| IfconfigCaptures.OutfillParts | tests/parse_ifconfig.py:224-232 | both numbers read stand behind their words |
| IfconfigCaptures.LabelledIff | tests/parse_ifconfig.py:397-419 | the addresses of an old inet line are read if and only if they are there, with any white space |
| IfconfigOldCaptures.FlagsParts | tests/parse_ifconfig.py:215-222 | flags and MTU read stand in the first line, the flags reaching to the last place behind which an MTU fits |
| IfconfigOldCaptures.Inet6OldParts | tests/parse_ifconfig.py:421-431 | address, prefix length and scope read stand in the old inet6 line |
| IfconfigOldCaptures.FlagsOldParts | tests/parse_ifconfig.py:433-444 | flags, MTU and metric read stand in the old flags line |
| IfconfigOldCaptures.CountersParts | tests/parse_ifconfig.py:455-493 | the five counters read stand behind their words |
| IfconfigOldCaptures.CollisionsParts | tests/parse_ifconfig.py:495-499 | the counter read stands behind its word |
| IfconfigOldCaptures.BytesParts | tests/parse_ifconfig.py:511-519 | both counters read stand behind their words |
| IfconfigOldCaptures.InterruptOldParts | tests/parse_ifconfig.py:521-528 | the interrupt read stands behind its word, and all white space behind it is skipped |
| IfconfigOldCaptures.MemoryOldParts | tests/parse_ifconfig.py:536-541 | start and end read are the hexadecimal numbers behind "Memory:" |
| Scanner.BacktrackFindsLast | tests/parse_ifconfig.py:216-216 | a greedy repetition ends at the last place from which the rest of the pattern matches |
| Scanner.Ip4Step | tests/parse_ifconfig.py:54-57 | the address pattern takes exactly an address that stands before no digit |
| IfconfigParser.IndentedIsNoHeader | tests/parse_ifconfig.py:98-99 | a line that starts with white space never opens a device |
| IfconfigParser.FlagSetBeforeRead | tests/parse_ifconfig.py:100-124 | whenever there is a current device the format flag has been set |
| IfconfigParser.ParseIsBlockwise | tests/parse_ifconfig.py:85-124 | the parse fails exactly if a block does on its own; otherwise there is one device per block, made from that block alone, in either format |
| IfconfigParser.DeviceCount | tests/parse_ifconfig.py:100-114 | as many devices as header lines |
| IfconfigParser.PreambleIgnored | tests/parse_ifconfig.py:116-119 | lines before the first header have no effect |
| IfconfigParser.BodySucceedsIff | tests/parse_ifconfig.py:91-92 | a block's lines are understood exactly if each non-empty one is on its own |
| IfconfigRefusals.LinesFailIff | tests/parse_ifconfig.py:85-124 | for all lines: the parse fails if and only if some line only starts like a first line, or some line between a first line in the new format and the next first line is matched by no expression |
| IfconfigRefusals.TextFailsIff | tests/parse_ifconfig.py:85-124 | the same for every text |
| IfconfigRefusals.UnderstoodStarts | tests/parse_ifconfig.py:242-394 | an understood line is indented and starts with one of seven literal keywords or holds "txqueuelen" behind one or two words |
| IfconfigRefusals.FlagsMissing | tests/parse_ifconfig.py:215-218 | a name and a colon with anything but "flags=" behind them are refused |
| IfconfigRefusals.EncapMissing | tests/parse_ifconfig.py:234-237 | a name and white space with anything but "Link encap:" behind them are refused |
| IfconfigRefusals.UnitThenPuzzle | tests/parse_ifconfig.py:394-394 | any printed device followed by a line that is neither a first line nor matched by an expression makes the parse fail |
| IfconfigRefusals.OddNameIsNoHeader | tests/parse_ifconfig.py:98-99 | a line "name: ..." with no white space or colon in the name starts a device if and only if the name has letters, digits and underscores alone, and is otherwise not understood as any other line, as for the names of bridges and VLANs |
| IfconfigParser.LastLineWins | tests/parse_ifconfig.py:242-546 | an attribute holds what the last line assigning it gave it, or what it held before |
| IfconfigParser.OrderIsImmaterial | tests/parse_ifconfig.py:242-546 | lines that assign different attributes may stand in any order |
| IfconfigPatterns.UnsetIsTotal | tests/parse_ifconfig.py:138-188 | a new device has every attribute, all of them None |
| IfconfigPrinter.Ipv4Step | tests/parse_ifconfig.py:243-261 | an inet line with any combination of broadcast and destination gives back its addresses |
| IfconfigPrinter.Ipv6Step | tests/parse_ifconfig.py:263-273 | an inet6 line gives back address, prefix length and scope |
| IfconfigPrinter.HardwareStep | tests/parse_ifconfig.py:275-301 | a hardware line with or without an address gives back its four attributes |
| IfconfigPrinter.PacketsStep | tests/parse_ifconfig.py:303-313 | a packets line gives back both counters, whatever stands in its parentheses |
| IfconfigPrinter.ReceiveErrorsStep | tests/parse_ifconfig.py:315-328 | an RX errors line gives back its four counters |
| IfconfigPrinter.SendErrorsStep | tests/parse_ifconfig.py:342-358 | a TX errors line gives back its five counters |
| IfconfigPrinter.PartsStep | tests/parse_ifconfig.py:360-392 | all sixteen combinations of interrupt, base, memory and dma give back exactly the parts that are there |
| IfconfigPrinter.NoEarlierPattern | tests/parse_ifconfig.py:242-365 | a printed line matches no pattern that precedes its own in the chain |
| IfconfigPrinter.DispatchesToItsKind | tests/parse_ifconfig.py:242-394 | a printed line reaches the branch of its kind, which assigns exactly what the line states |
| IfconfigRoundTrip.MtuIsLast | tests/parse_ifconfig.py:216-222 | the flags reach to the last '>  mtu ' however many stand inside them |
| IfconfigRoundTrip.HeaderStep | tests/parse_ifconfig.py:215-232 | a printed first line opens a device with its name, flags, MTU and optional outfill and keepalive |
| IfconfigRoundTrip.UnitStep | tests/parse_ifconfig.py:100-124 | a printed block parses to the device it describes |
| IfconfigText.SplitJoin | tests/parse_ifconfig.py:87-87 | splitlines() undoes joining lines that hold no line break |
| IfconfigText.SplitAtBreak | tests/parse_ifconfig.py:87-87 | each of the listed line breaks ends a line, a return with a newline counting once |
| IfconfigText.LastLineCounts | tests/parse_ifconfig.py:87-87 | a last line without a break counts unless it is empty |
| IfconfigDevices.MeaningInGroup | tests/parse_ifconfig.py:247-390 | lines of different kinds assign different attributes |
| IfconfigDevices.ReorderingIsHarmless | tests/parse_ifconfig.py:242-394 | permuting printed lines of pairwise distinct kinds within a block does not change the parsed device |
| IfconfigDevices.UnitDescribes | tests/parse_ifconfig.py:138-188 | what is printed for a well-formed device states exactly its attributes |
| IfconfigDevices.DevicesRoundTrip | tests/parse_ifconfig.py:85-124 | for every list of well-formed devices, parsing what is printed for them gives back the same devices in the same order with every attribute |
| IfconfigOldPrinter.InetAddrStep | tests/parse_ifconfig.py:397-419 | an old inet line with any combination of peer, broadcast and mask gives back its addresses |
| IfconfigOldPrinter.Inet6AddrStep | tests/parse_ifconfig.py:421-431 | the address reaches to the last slash from which a prefix length and a scope follow |
| IfconfigOldPrinter.FlagsStep | tests/parse_ifconfig.py:433-453 | every old flags line is read by its pattern: flags without the white space at their start, MTU, metric and the optional pair, also when there are no flags and the white space before them has to give two blanks back |
| IfconfigOldPrinter.CountersStep | tests/parse_ifconfig.py:455-493 | an old RX or TX line gives back its five counters |
| IfconfigOldPrinter.CollisionsStep | tests/parse_ifconfig.py:495-509 | a collisions line with any combination of the optional counters gives them back |
| IfconfigOldPrinter.BytesStep | tests/parse_ifconfig.py:511-519 | every bytes line matches its pattern, whatever stands in its parentheses: the first counter as printed, the second unless the last parentheses themselves end and start another one |
| IfconfigOldPrinter.IndentedReadsNothing | tests/parse_ifconfig.py:521-546 | an indented line without an interrupt assigns nothing at the end of the chain |
| IfconfigOldPrinter.HardwareReadsIff | tests/parse_ifconfig.py:521-546 | a hardware line is read as it states if and only if it has an interrupt or states nothing |
| IfconfigOldPrinter.NoEarlierOld | tests/parse_ifconfig.py:396-519 | a line whose guards hold matches no pattern that precedes its own |
| IfconfigOldPrinter.DispatchesToItsOldKind | tests/parse_ifconfig.py:396-546 | a line whose guards hold, and every line of resources, reaches the branch of its kind and assigns what that reads |
| IfconfigOldPrinter.OldReadsIff | tests/parse_ifconfig.py:396-546 | a printed line of any kind is read as it states if and only if its guard holds: flags that neither begin with white space nor look like an address; byte texts in which no MTU and no other counter is found; resources behind an interrupt; every other line always |
| IfconfigOldPrinter.PlainBytesAreReadable | tests/parse_ifconfig.py:433-519 | byte texts without a capital U and a last one without a closing parenthesis meet that guard |
| IfconfigOldPrinter.AddressLikeFlags | tests/parse_ifconfig.py:397-410 | the flags "inet addr:" with an address do not |
| IfconfigOldPrinter.TxTextTaken | tests/parse_ifconfig.py:511-519 | a text in the last parentheses that ends them and starts another counter hides the real counter |
| IfconfigOldFlags.AddressLikeIff | tests/parse_ifconfig.py:397-431 | a flags line matches an address pattern if and only if the flags alone do, whatever MTU part follows |
| IfconfigFormats.EncapStep | tests/parse_ifconfig.py:234-240 | titles of one or two words and the optional hardware address are given back, although the pattern takes one blank too many |
| IfconfigFormats.EncapReadsIff | tests/parse_ifconfig.py:234-240 | title and optional address are read back if and only if the title is one word or two with a blank between them |
| IfconfigFormats.PointToPointIsCut | tests/parse_ifconfig.py:235-240 | the title "Point-to-Point Protocol" is read as "Point" |
| IfconfigFormats.OldHeaderStep | tests/parse_ifconfig.py:99-114 | a printed old-format first line opens a device in the old format and is not mistaken for a new-format one |
| IfconfigFormats.OldUnitStep | tests/parse_ifconfig.py:108-122 | a block printed in the old format whose lines meet their guards parses to the device it describes |
| IfconfigFormats.OldReorderingIsHarmless | tests/parse_ifconfig.py:396-546 | permuting printed old-format lines of pairwise distinct kinds does not change the attributes |
| IfconfigMixed.MixedRoundTrip | tests/parse_ifconfig.py:85-124 | text in which each device is printed in either format parses to the described devices in order, and the format flag is the last device's |
| IfconfigMixed.RoundTrip | tests/parse_ifconfig.py:87-124 | the case of a text all in the new format, for any list of printed devices |
| IfconfigOldDevices.OldUnitDescribes | tests/parse_ifconfig.py:138-188 | what is printed in the old format for a device well-formed for it states exactly its attributes |
| IfconfigOldDevices.MixedDevicesRoundTrip | tests/parse_ifconfig.py:85-124 | for every list of devices, each well-formed for the format chosen for it, parsing what is printed gives back the same devices in the same order with every attribute, and the last device's format |
| IfconfigScript.Device.ParseRestOfFirstLine | tests/parse_ifconfig.py:215-232 | in place, the first line's attributes are assigned and no others; failure leaves the device alone |
| IfconfigScript.Device.ParseRestOfFirstLineOld | tests/parse_ifconfig.py:234-240 | the same for the old format |
| IfconfigScript.Device.ParseInet | tests/parse_ifconfig.py:243-261 | in place, the inet branch |
| IfconfigScript.Device.ParseDeviceParts | tests/parse_ifconfig.py:366-390 | in place, the chain of optional parts, each looked for where the one before it ended |
| IfconfigScript.Device.ParseLine | tests/parse_ifconfig.py:242-394 | in place, the first matching pattern's attributes are assigned and no others; false exactly if none matches |
| IfconfigScript.Device.ParseLineOld | tests/parse_ifconfig.py:396-546 | in place, the same for the old format, which never fails |
| IfconfigScript.Device.GetNetmaskBits | tests/parse_ifconfig.py:190-204 | the number of one bits of the netmask attribute, 0 without one |
| IfconfigScript.IfConfig.Begin | tests/parse_ifconfig.py:100-114 | a header line appends a fresh device, sets the flag and leaves the other devices alone |
| IfconfigScript.IfConfig.Continue | tests/parse_ifconfig.py:121-124 | a body line changes the last device only, by the flag's format |
| IfconfigScript.IfConfig.TakeLine | tests/parse_ifconfig.py:87-124 | one round of the loop is one step of the parser on values |
| IfconfigScript.IfConfig.Init | tests/parse_ifconfig.py:85-124 | the loop ends with the devices and the flag that the parser on values computes, or fails exactly when that does |
| IfconfigScript.IfConfig.GetDeviceByName | tests/parse_ifconfig.py:126-130 | the first device of the name, or an error exactly if there is none |
| ProcNetDev.Stream.Fgets | python-ethtool/ethtool.c:94-107 | fgets as the C library defines it: at most 255 characters, through the first newline, terminated, and end of file noted |
| ProcNetDev.NextName | python-ethtool/ethtool.c:106-120 | one round of the loop: the name of the next filling, or none exactly at the end of the file |
| ProcNetDev.TakeName | python-ethtool/ethtool.c:108-115 | both scans stay inside the buffer whatever it holds, and yield the text before the first colon without leading spaces |
| ProcNetDev.NameIsBetween | python-ethtool/ethtool.c:108-115 | the name stands behind the leading blanks and before the first colon; without a colon the rest of the line is a name, newline and all |
| ProcNetDev.GetDevices | python-ethtool/ethtool.c:83-121 | the loop returns one name per buffer filling after the first two, in order, or an error with fewer than two |
| ProcNetDev.ChunksAreFillings | python-ethtool/ethtool.c:94-107 | every line takes as many buffer fillings as its length needs |
| ProcNetDev.ReadsLinesIff | python-ethtool/ethtool.c:83-121 | the buffered reader returns what a reader of whole lines would, errors included, if and only if every line with its newline has at most 255 characters |
| ProcNetDev.RowName | python-ethtool/ethtool.c:108-113 | from a row as the kernel prints it the name is taken |
| ProcNetDev.RowsReadBack | python-ethtool/ethtool.c:83-121 | the names of a file with two heading lines come back in order |
| Flags.Flags2Str | scripts/pifconfig:31-66 | the sixteen tests and appends produce the names of the set flags |
| Flags.PrintedSplits | scripts/pifconfig:31-66 | splitting at spaces gives the names of the set flags in order; no leading, trailing or doubled spaces |
| Flags.NamesAreBits | scripts/pifconfig:31-66 | for every integer, each of the sixteen literal names is among the printed words if and only if the bit of its literal value is set |
| Flags.FlagsReadBack | scripts/pifconfig:31-66 | splitting the text and adding up the named bits gives the flags modulo 2^16, for every integer |
| Flags.PrintedAlikeIff | python-ethtool/ethtool.c:325-325 | two flag words print alike if and only if they agree modulo 2^16, so the sign of the short does not matter |
| Prefixes.MaskBits | scripts/pifconfig:27-27 | for every width w and prefix b up to w, 2^w - (2^w >> b) is below 2^w and has exactly its b leading bits set |
| Prefixes.MaskOnes | scripts/pifconfig:27-27 | that number has b one bits |
| Prefixes.ContiguousIsMask | scripts/pifconfig:27-27 | the words without a clear bit above a set one are exactly those masks |
| Prefixes.OnesOfIsCount | tests/parse_ifconfig.py:196-204 | halving every byte until nothing is left meets each one bit exactly once |
| Prefixes.CountBits | tests/parse_ifconfig.py:196-204 | the nested loops return the number of one bits of any byte string |
| Prefixes.AtonNtoa | tests/parse_ifconfig.py:60-62 | reading a printed dotted quad gives the four bytes back |
| Prefixes.AtonParts | tests/parse_ifconfig.py:60-62 | a quad is refused if and only if some part is no byte, otherwise the parts are its bytes in order; no netmask has no bits |
| Prefixes.OctalParts | tests/parse_ifconfig.py:60-62 | a leading zero makes a part octal |
| Prefixes.CountUndoesNetmask | scripts/pifconfig:26-28 | bits2netmask succeeds exactly from 0 to 32, and counting its netmask gives the prefix length back |
| Prefixes.NetmaskOctets | scripts/pifconfig:26-28 | bits2netmask in numbers: the four parts in order, the leading one first, and which error it raises below 0 and above 32 |
| Prefixes.NetmaskUndoesCountIff | tests/parse_ifconfig.py:190-204 | a dotted quad comes back from its bit count if and only if its one bits are contiguous |

## Left out

- The kernel, libnl, sockets, ioctl and getifaddrs: replaced by tables of links and addresses, answers per call, and a stored struct per command.
- Allocation failures other than `nl_socket_alloc`, the fcntl warning of `open_netlink`, and reference counts; the address lists that the ipv4 getters do not release are not modelled.
- Threads: the mutex guards only the arithmetic on the counter, and entry points are atomic in the model.
- The lookup and filtering of names in `get_interfaces_info`, `get_active_devices`, and the simple getters and setters: only the creation of objects matters to the session.
- `show_*`, option parsing, `str()` and `repr()` of the objects, the module table: formatting and wiring.
- Text outside ASCII: `\w`, `\s`, `\d`, `lower()`, `strip()`, `int()` and `splitlines()` are modelled on ASCII.
- PethtoolScript.Ethtool.SetParams: the pending error of a value that no C `long` holds is reported as OverflowError at the end of the set command; in which later call and under which name an interpreter notices it is not modelled. A `long` has 64 bits.
- PethtoolScript.Ethtool.Ioctl: the driver stores any struct it accepts; a driver that rounds or refuses single fields is not modelled.
- IfconfigDevices.DevicesRoundTrip: devices whose attributes no new-format text can state (a netmask without an address, line breaks in a flag string) are excluded by its condition.
- IfconfigOldDevices.MixedDevicesRoundTrip: devices whose attributes no old-format text can state are excluded likewise; which of its lines are read as they state is told exactly by `IfconfigOldPrinter.OldReadsIff`.
- Prefixes.Aton: the notations of inet_aton with fewer than four parts or in hexadecimal, which the ifconfig patterns cannot capture.
- ProcNetDev.GetDevices: a name that is not valid UTF-8, for which no Python string can be made.
- Running the `ifconfig` command itself: the parser starts from its output.
- Flags.Flags2Str: proved in four parts of four tests each, which the source has in one function.
