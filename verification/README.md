# Desktop hypervisor server: a verified model

The server drives VirtualBox and VMware from one tool surface. Most of it starts other
programs; between those calls it edits configuration text, moves files, and chooses among
candidates. This project models that part in Dafny and proves what it promises.

- **`.vmx` editor** (`VmxEditor`, `VmxLaws`, `VmxOrder`, `VmxBytes`, `VmxCounts`, `VmxDuplicates`, `VmxConfig`,
  `VmxGuestinfo`, `VmxCases`, `VmxRequests`): `setVMXKeys` and `vmxKey`, from characters up. Running an edit twice gives the bytes of running
  it once exactly when its pairs are *repeatable*; it adds a duplicate line for no key, on any file, exactly when
  they are *tidy*; their order leaves the same lines exactly when they keep *apart*; a whole run of requests is one
  edit with everything the run wrote.
- **Running guard** (`RunningGuard`, on top of `Inventory`): `configure` refuses the file of a VM that `vmrun list` names
  exactly when the request is *careful*, that is, spells the path as the report does; over runs in which VMs start
  and stop, such requests leave no trace in the file.
- **VM index** (`Inventory`): `List`, `Running`, `resolveVMX` over a directory tree and `filepath.Glob`.
- **Lease scan** (`Leases`): the regular expression of the DHCP lease files, as leftmost lazy matching.
- **GRUB patch** (`GrubPatch`): the line rewrite of `RepackISO`.
- **Environment** (`Environment`): `normalizeEnv`.
- **Download** (`Hashing`, `HostFiles`, `Download`): `fetchHTTPS` as a sequence of disk states, so that a crash can fall after
  any of them. The hash is an unspecified byte-at-a-time machine.
- **Box extraction** (`Paths`, `BoxArchive`): lexical path cleaning, `extractBox`, confinement.
- **Selection and fetch** (`Provider`, `Selection`, `Artifacts`, `Checksums`, `CacheNames`, `Fetching`,
  `FetchPlans`, `FetchedFormats`, `Destinations`): `pick`, `Resolve`, `vagrantVersion.provider`, `findSHA256Sum`, the cache key, and `Fetch` tying the pieces together.
- **Text** (`Text`): the functions of Go's `strings` package that all of this rests on, with their meaning character
  by character.

Text is a sequence of characters; case folding and white space are ASCII; paths are slash paths.
What the operating system, the network and the hypervisor tools decide is an argument of the
operation it affects. Methods over `HostFiles.Host` follow the code's loops and updates and are tied
by their `ensures` to specification functions; the laws are lemmas about those functions.

Where the code does less than its comments or documentation say:

- A `.vmx` edit is idempotent exactly when every key is trimmed and holds no `=` and no newline, and no value
  that holds a newline is the last of its key class (`VmxBytes.IdempotentIffRepeatable`).
- It adds a duplicate line for no key, on any file, exactly when every key is so, and no value that is the last of
  its key class has an `=` after its first newline (`VmxDuplicates.NoDuplicatesIff`, and over runs
  `VmxConfig.RunAddsNoDuplicatesIff`). The same condition is exact for every written class having its line and every
  other class keeping its count (`VmxCounts.CountLawIff`). `SetGuestinfo` checks neither its keys nor its values for
  that, and `AttachISO` neither its slot nor its path.
- What a guestinfo map leaves depends on the iteration order when the line of one entry carries the key of another:
  keys that are equal up to case, and also keys such as `a=b` beside `a` (`VmxGuestinfo.LinesOrderIndependentIff`,
  `VmxGuestinfo.EqualsKeyDependsOnOrder`); what it reads as, when entries that can decide one class read differently
  (`VmxGuestinfo.ReadingOrderIndependentIff`).
- `ensureOff` compares the text of a path, not the file it names: a request that spells a running VM's path with
  a doubled slash, a `.` or a `..` gets through (`RunningGuard.AliasEscapes`, `RunningGuard.RunningIsRefusedIff`).
- `ensureOff` and the marks of `List` look for a path anywhere in the report: a VM whose path occurs inside that of
  a running one is refused and marked too (`Inventory.MarksExactIff`).
- `ensureOff` lets an edit through when `vmrun list` itself fails (`RunningGuard.FailedListIsOpen`).
- The names `.` and `..` resolve to files the index does not list (`Inventory.DotNamesEscape`).
- "Keep repacks idempotent" holds exactly when the boot arguments are on one line (`GrubPatch.FixpointIff`).
- A published checksum of white space is reported as verified but compared with nothing
  (`Fetching.BlankChecksumVerifiesNothing`, `Fetching.ReportHoldsIff`).
- A box is accepted for the format its provider's boxes should have, and reported with the format it turns out to
  have. The provider accepts that whatever the box holds exactly when it accepts both OVF and VMX
  (`FetchedFormats.FetchedFormatFitsIff`); VMware without ovftool and the image `ubuntu` are an input for which it
  need not (`FetchedFormats.UbuntuMayNotFit`).
- A tag or version that climbs above where it starts, as `v1/../../x` does, makes `Fetch` write outside the directory
  it is given (`Destinations.DestinationStaysIff`, `Destinations.TwoStepsUpLeave`).

## Model

| member | source | states |
|---|---|---|
| VmxConfig.EditLines | provider/vmware/ops.go:91-104 | the nested loops over pairs and lines compute `SetKeys`: each pair overwrites the first line of its key class or is appended |
| VmxConfig.SetVmxKeys | provider/vmware/ops.go:85-106 | succeeds exactly when the file is there and the write is whole; changes that one file to its edited bytes, to a prefix of them when the write stops halfway, and nothing when it is denied |
| HostFiles.LandedIs | provider/vmware/ops.go:105 | a write that goes through leaves the bytes given, a stopped one leaves their first bytes |
| VmxConfig.VmxKey | provider/vmware/ops.go:108-119 | returns what the specification reader finds, "" for a missing file |
| Text.FoldIffRecased | provider/vmware/ops.go:95 | two texts fold to each other exactly when they have the same length and at each place the same character or the two cases of one of the 26 letters |
| Text.TrimSpaceIs | provider/vmware/ops.go:95 | trimming takes off spaces, tabs, line breaks, vertical tabs and form feeds at both ends, and nothing else |
| Text.FieldsIs | provider/repackiso.go:58 | fields are the runs between those same characters |
| VmxCases.MatchesIffSpells | provider/vmware/ops.go:95 | a key finds a line exactly when the line is white space, the key with some letters in the other case, white space, `=` and anything |
| VmxCases.RecasedIsReplaced | provider/vmware/ops.go:82-104 | in every file with a line for some spelling of the key, the edit adds no line and puts `key = "value"` in place of the first such line; else it appends that line |
| VmxCases.FirstSpellingIsRead | provider/vmware/ops.go:113-117 | the reader finds the value on the first line that spells the key, quoted or not, less the quotes and white space around it |
| VmxEditor.LineReadsBack | provider/vmware/ops.go:92-95 | the line written for an addressable key belongs to exactly that key's fold class and reads back as the value less quotes at its ends |
| VmxEditor.NeverMatches | provider/vmware/ops.go:95 | no line carries a key that is untrimmed or holds `=`, and no file line carries one that spans lines |
| VmxEditor.SetKeyAbsorbs | provider/vmware/ops.go:91-104 | a later pair of the same class makes the earlier one disappear |
| VmxEditor.SetKeyCommutes | provider/vmware/ops.go:91-104 | pairs of different classes commute once one of them has its line |
| VmxLaws.GetAfterPut | provider/vmware/ops.go:85-119 | put then get on lines: the last value of the class, or what was read before for a class no pair names |
| VmxLaws.SetKeysIdempotent | provider/vmware/ops.go:91-104 | repeating an edit of addressable keys, however often classes repeat in it, changes no line |
| VmxLaws.EditInPlace | provider/vmware/ops.go:94-100 | an original line changes only if it is the first line of a written class, and then holds that class's last value |
| VmxLaws.EditAppends | provider/vmware/ops.go:101-103 | each appended line is the one line of a class that had none, with its last value |
| VmxLaws.CountAfterEdit | provider/vmware/ops.go:82-84 | a written class ends with max(old count, 1) lines; every other class keeps its count |
| VmxOrder.LookupAfterAny | provider/vmware/ops.go:85-119 | put then get for pairs of any kind: the last value of the class, or what was read before, or the first line that carries the key unasked |
| VmxOrder.OrderIndependent | provider/vmware/ops.go:462-471 | entries of a map that keep apart leave the same original lines and the same appended lines up to order, in every order |
| VmxOrder.ApartIffDistinct | provider/vmware/ops.go:95 | on trimmed keys without `=`, keeping apart is being fold-distinct |
| VmxOrder.AlikeIffClassesAgree | provider/vmware/ops.go:95 | on such keys, reading alike is that keys equal up to case have values that read the same |
| VmxBytes.PrintParses | provider/vmware/ops.go:90-105 | splitting the trimmed file text undoes joining lines and adding the final newline |
| VmxBytes.LookupIgnoresTrailingNewlines | provider/vmware/ops.go:113 | the reader, which does not trim the file, finds the same as on the trimmed lines |
| VmxBytes.IdempotentIffRepeatable | provider/vmware/ops.go:85-106 | for every file and pair list, running the edit twice gives the bytes of running it once if and only if the pairs are repeatable |
| VmxBytes.LookupAfterEdit | provider/vmware/ops.go:85-119 | put then get on bytes, and when the value comes back unchanged: exactly when it neither starts nor ends with a quote |
| VmxBytes.ReadsBackIff | provider/vmware/ops.go:85-119 | exactly which key and value, written to any file, read back as given |
| VmxBytes.UnsettableKeyLeaks | provider/vmware/ops.go:92-95 | a key holding `=` is lost and makes another key, which no pair names, read as something else |
| VmxCounts.CountLawIff | provider/vmware/ops.go:82-106 | for every file and pair list, every key class keeps its line count, or gets one line where it had none and is written, if and only if the pairs are tidy |
| VmxCounts.CountInFile | provider/vmware/ops.go:90-106 | how many lines of a class the edited file has: what the law asks for, and those that values spill past their first newline |
| VmxCounts.TidyIsWeaker | provider/vmware/ops.go:92 | a value that spans lines can be tidy without being repeatable |
| VmxDuplicates.NoDuplicatesIff | provider/vmware/ops.go:82-106 | on every file, no key ends with more than one line and more than it had, if and only if the pairs are tidy |
| VmxDuplicates.UntidyDuplicates | provider/vmware/ops.go:82-84 | a file that has a line for all that untidy pairs could write gets one more line for some key it had |
| VmxConfig.GoodRequestIffRepeatable | provider/vmware/ops.go:422-471 | resource and nested-virtualisation requests are always repeatable; attach and guestinfo requests exactly when their text is good |
| VmxRequests.ResourcesRead | provider/vmware/ops.go:422-434 | after SetResources, `numvcpus` and `memsize` read as the numbers given in decimal; a number that is not positive leaves its key, and every other key reads as before |
| VmxRequests.NestedVirtReads | provider/vmware/ops.go:436-442 | after SetNestedVirt, `vhv.enable` reads TRUE or FALSE as asked; every other key as before |
| VmxRequests.AttachReads | provider/vmware/ops.go:444-460 | after attaching, the slot's four keys read as a connected CD-ROM image with that path, the slot being `sata0:1` unless named; every other key as before |
| VmxRequests.DetachReads | provider/vmware/ops.go:444-453 | without a path the slot's `present` reads FALSE; with a path that is not there nothing changes |
| VmxRequests.GuestinfoReads | provider/vmware/ops.go:462-471 | after SetGuestinfo every entry reads as given, less quotes at its ends; no entries, no change |
| VmxConfig.TidyRequestIff | provider/vmware/ops.go:422-471 | resource and nested-virtualisation requests are always tidy; attach and guestinfo requests exactly when their text is |
| VmxConfig.RunIsOneEdit | provider/vmware/ops.go:85-106 | a run of requests on one file leaves exactly the bytes of one edit with all the pairs the run wrote, or the untouched file |
| VmxConfig.RunKeepsCountLaw | provider/vmware/ops.go:82-84 | after any run of tidy requests a written class has max(old count, 1) lines and any other class its old count |
| VmxConfig.RunCountLawIff | provider/vmware/ops.go:82-106 | that holds at every point of a run on any file, for every key, if and only if every request of the run is tidy |
| VmxConfig.RunAddsNoDuplicatesIff | provider/vmware/ops.go:82-106 | at no point of a run, on any file, does a key get a duplicate line, if and only if every request of the run is tidy |
| VmxConfig.RunChangesInPlace | provider/vmware/ops.go:90-105 | over runs, only the first line of a written class is replaced; duplicates and all other lines keep their bytes and places |
| VmxConfig.RunAppends | provider/vmware/ops.go:101-103 | over runs, each new line is the only line of a class that was absent, with the last value written |
| VmxConfig.RunReads | provider/vmware/ops.go:85-119 | over runs, every key reads as the last value written, or as before the run |
| VmxGuestinfo.LinesOrderIndependentIff | provider/vmware/ops.go:462-471 | for any map without newlines, every iteration order leaves the same original lines and the same appended lines up to order, in every file, if and only if no entry's line carries the key of another |
| VmxGuestinfo.ReadingOrderIndependentIff | provider/vmware/ops.go:462-471 | for any map without newlines, every iteration order reads the same, for every file and key, if and only if entries that can decide one class read the same |
| VmxGuestinfo.EqualsKeyDependsOnOrder | provider/vmware/ops.go:462-471 | the fold-distinct map with keys `a=b` and `a` leaves lines that depend on the order |
| RunningGuard.Configure | provider/vmware/ops.go:404-420 | writes the file that the resolved path names exactly when the guard is open, the file is there and the write is not denied, and nothing else |
| RunningGuard.Serve | provider/vmware/ops.go:422-471 | a request with no pairs is refused; any other is configured with its pairs |
| RunningGuard.GuardClosesIff | provider/vmware/ops.go:75-80 | the guard closes on every report that names the file of a path if and only if the path's spelling occurs in the file's rooted, cleaned path, or that path spans lines |
| RunningGuard.RunningIsRefusedIff | provider/vmware/ops.go:404-411 | a request is refused under every report that names its file as running if and only if it is careful |
| RunningGuard.RootedIsGuardableIff | provider/vmware/ops.go:59-60 | for a request that gives a rooted path, that means the path is cleaned |
| RunningGuard.NamesAreCareful | provider/vmware/ops.go:55-73 | requests that give a name, of any characters, are careful in a rooted VM directory |
| RunningGuard.AliasEscapes | provider/vmware/ops.go:75-80 | any rooted spelling that is not cleaned gets the running VM's file rewritten |
| RunningGuard.DoubledSlashEscapes | provider/vmware/ops.go:75-80 | such a spelling exists for every running VM: its path with a second slash in front |
| RunningGuard.ShieldedIsUntouched | provider/vmware/ops.go:75-80 | at any point of any run, a careful request whose report names a file as running leaves that file alone |
| RunningGuard.RunIgnoresShielded | provider/vmware/ops.go:404-414 | over any run, with VMs starting and stopping, a file ends as if the requests whose report named it as running had not been made |
| RunningGuard.RunningKeepsItsFile | provider/vmware/ops.go:404-414 | a VM reported running throughout keeps its file byte for byte |
| RunningGuard.GuardedRunIsRun | provider/vmware/ops.go:404-471 | a run over many VMs, with its refusals, is for each file the plain run of just the requests written to it, from the last write on that stopped halfway |
| RunningGuard.GuardedRunIsOneEdit | provider/vmware/ops.go:404-471 | and so leaves each file with the bytes of a single edit with everything written to it since then |
| RunningGuard.GuardedRunAddsNoDuplicates | provider/vmware/ops.go:82-84 | and since then with the line counts of the law, when the requests written to it are tidy |
| RunningGuard.EditsIff | provider/vmware/ops.go:75-80 | for a request giving a `.vmx` path, the exact condition on the report under which the file is written |
| RunningGuard.FailedListIsOpen | provider/vmware/ops.go:76 | when the list command fails the file is edited whatever is running |
| Inventory.List | provider/vmware/ops.go:123-149 | the loop with its seen set computes the first occurrences of all globbed paths with name and state |
| Inventory.Running | provider/vmware/ops.go:151-165 | returns a running entry for each trimmed output line ending in `.vmx`, or the error of the list command |
| Inventory.ListsEachOnce | provider/vmware/ops.go:139-147 | the listing holds no path twice, and, for a VM directory without glob characters, exactly the `.vmx` files two levels below it |
| Inventory.VmxFileIsListed | provider/vmware/ops.go:126-147 | a file two levels down ending in `.vmx` is listed under its directory's name less `.vmwarevm` |
| Inventory.ListedIsVmxFile | provider/vmware/ops.go:139-147 | and nothing else is |
| Inventory.RunningNamesLines | provider/vmware/ops.go:157-163 | Running names the lines that, trimmed, end in `.vmx` |
| Inventory.LayoutsInOrder | provider/vmware/ops.go:47-70 | a name is looked for as a bundle first on macOS and as a plain directory first elsewhere, then the other way |
| Inventory.WildNames | provider/vmware/ops.go:55-73 | a pattern is read as one exactly when the directory or the name has one of `*`, `?`, `[`, `\`, and then the host's answer for the spelled pattern is taken |
| Inventory.ListedNameResolvesIff | provider/vmware/ops.go:55-73 | a listed VM's name resolves to its path if and only if its directory holds one `.vmx` and either is the platform's own layout or its sibling layout does not |
| Inventory.ResolvedIsListedIff | provider/vmware/ops.go:55-73 | what a separator-free name resolves to is listed, in every tree, exactly when the name is not `.` or `..` |
| Inventory.DotNamesEscape | provider/vmware/ops.go:62-70 | for `.` and `..` there is a tree in which the name resolves to a file the listing lacks |
| Inventory.ReportedIsRefused | provider/vmware/ops.go:75-80 | every path taken from a report occurs in it, so the guard refuses it |
| Inventory.ReportsAgree | provider/vmware/ops.go:123-165 | for one report, Running, List and the guard agree on a path's name and that it is running |
| Inventory.MarksExactIff | provider/vmware/ops.go:75-80 | whichever of a set of VMs run, "running" in the listing and refusal by the guard mean that a report line is the path, if and only if none of their paths occurs inside another |
| Leases.FindIsLeftmostLazy | provider/vmware/ops.go:199 | the finder returns the leftmost match with the greedy address and the lazy body, and none only when the expression matches nowhere |
| Leases.MatchHereReads | provider/vmware/ops.go:199 | a record at the front is read back as its own address and body |
| Leases.FindAllPrinted | provider/vmware/ops.go:224 | the non-overlapping matches of a printed file are exactly its records, in order |
| Leases.ScanFile | provider/vmware/ops.go:223-228 | the loop ends with the address of the last block that mentions the MAC, or "" |
| Leases.ScanFiles | provider/vmware/ops.go:218-232 | the first readable file that yields an address decides |
| Leases.PrintedLeaseIsFound | provider/vmware/ops.go:199-232 | on a printed file the result is the address of the last record mentioning the MAC, and nothing exactly when there is none |
| Leases.SpelledLeaseIsFound | provider/vmware/ops.go:199-228 | one record spelled out: its address is found exactly when the body holds "hardware ethernet" and the MAC in any case |
| Leases.FirstFileDecides | provider/vmware/ops.go:218-232 | no address is found exactly when no readable file holds one; else it is that of a readable file with none before it |
| GrubPatch.PatchInPlace | provider/repackiso.go:64-83 | the in-place loop leaves the patched lines and counts the positions that changed |
| GrubPatch.PatchConfig | provider/repackiso.go:64-89 | the rewritten file text, or the error when nothing changed |
| GrubPatch.PatchLineChanges | provider/repackiso.go:70-82 | a line changes exactly when it is a kernel line without the arguments |
| GrubPatch.KernelLineIff | provider/repackiso.go:55-61 | a kernel line is white space, `linux` or `linuxefi`, and behind it nothing or more white space, tabs included |
| GrubPatch.DifferencesIsCount | provider/repackiso.go:54-73 | the count kept by the loop is the number of line positions that changed |
| GrubPatch.PatchedLine | provider/repackiso.go:74-81 | the arguments go right before the last ` ---`, which stays the last with its suffix; the directive stays; cutting them out restores the line |
| GrubPatch.FailsIff | provider/repackiso.go:84-86 | the error path is taken exactly when no line needs the arguments |
| GrubPatch.OutputLines | provider/repackiso.go:64-83 | in the output every kernel line carries the arguments and keeps its directive; other lines are byte-identical |
| GrubPatch.DeletingRestores | provider/repackiso.go:77-81 | deleting the inserted arguments from the patched lines restores the input file byte for byte, whatever the arguments |
| GrubPatch.FixpointIff | provider/repackiso.go:74-86 | after a successful patch a second one finds nothing to patch if and only if the arguments hold no newline |
| Environment.NormalizeEnv | provider/env.go:35-68 | the two loops compute the specification: last entry wins, then filter and append, or inherit |
| Environment.LookupEntry | provider/env.go:36-50 | an entry `name=value` decides a lookup unless a later one does; other entries say nothing of it |
| Environment.WithoutEntry | provider/env.go:56-62 | filtering drops entries by the text before `=`, or by the whole entry when it has none |
| Environment.InheritsIff | provider/env.go:51-53 | nil is returned exactly when USER and LOGNAME are the user and HOME is set |
| Environment.EffectiveEnvironment | provider/env.go:30-34 | reading nil as inherit: USER and LOGNAME are the user, HOME is the old value or the supplied one, other entries stay in order |
| Environment.NormalizeIsFixpoint | provider/env.go:35-68 | normalising the effective environment again gives nil or the very same list |
| Environment.NormalizedIsConsistentIff | provider/env.go:51-53 | the result is already consistent exactly when a home was set or supplied |
| Hashing.FeedConcat | core/artifact/fetch.go:284-286 | hashing the pieces as they are copied is hashing the whole body |
| Download.FetchHttps | core/artifact/fetch.go:251-306 | the call returns the specified outcome and drives the disk through exactly the specified states, including what a failing MkdirAll made |
| Download.CopyBody | core/artifact/fetch.go:284-286 | every piece reaches the file and the running hash |
| Download.Finish | core/artifact/fetch.go:287-303 | close, compare, rename; the temporary file is removed on each failing path |
| Download.TraceIsSafe | core/artifact/fetch.go:251-306 | in every state of a call a path other than its temporary file holds its old content or one whole body that passed the comparison |
| Download.SuccessIff | core/artifact/fetch.go:256-261 | with a checksum, the call succeeds exactly when the destination ends up holding a file with that digest; save that an unreadable file that had it already does not spare the download |
| Download.OutcomeBySpelling | core/artifact/fetch.go:256-299 | what an undisturbed call does, for every text of the checksum: the digest in any case with white space around it is that digest, white space alone is none, anything else is a mismatch |
| Download.DownloadedIff | core/artifact/fetch.go:251-306 | a call downloads exactly when the address is https, the file is not held already and every step goes through; it finds the file present exactly when that is readable and held |
| Download.SuccessInstalls | core/artifact/fetch.go:300-305 | success leaves the wanted bytes at the destination |
| Download.FailureKeeps | core/artifact/fetch.go:288-303 | a failed call leaves every path but its temporary file as it was |
| Download.NoPartLeft | core/artifact/fetch.go:279-303 | a returning call that created its temporary file leaves none behind, given that removals succeed |
| Download.StalePartIsIrrelevant | core/artifact/fetch.go:279-283 | bytes left by an earlier crash change neither the outcome nor any state from the creation of the file on |
| Download.RunIsSafe | core/artifact/fetch.go:251-306 | in every state of any run of calls with arbitrary pieces, failures and crashes, a path holds its first content or one whole verified body of some call to it |
| Download.CrashLeavesPieces | core/artifact/fetch.go:279-286 | why temporary names must differ from destinations: a crash leaves just the pieces that arrived, at the destination's name with `.part` |
| Paths.CleanIsIdempotent | core/artifact/fetch.go:497 | cleaning a cleaned path changes nothing |
| Paths.CleanRules | core/artifact/fetch.go:497 | a doubled slash, an element `.`, and an element with the `..` behind it can be left out of a path |
| Paths.CleanFronts | core/artifact/fetch.go:497 | so can `..` behind the root, `./` in front and a slash at the end; the empty path is `.`; a path to which no rule applies is clean |
| Paths.NoDotDotPrefix | core/artifact/fetch.go:498 | a cleaned relative name not starting with `..` has no `..` element anywhere |
| Paths.JoinConcatenates | core/artifact/fetch.go:501 | joining such a name concatenates its elements to the directory's |
| Paths.DirOfClean | core/artifact/fetch.go:508 | the directory of a cleaned path drops its last element, which is its base |
| BoxArchive.ExtractBox | core/artifact/fetch.go:484-531 | the member loop leaves the disk and the machine file of the specified fold |
| BoxArchive.ExtractMember | core/artifact/fetch.go:497-526 | one member: name test, directories, also those a failing MkdirAll made, file, and the machine choice |
| BoxArchive.ExtractionIsConfined | core/artifact/fetch.go:497-517 | whatever the names and wherever extraction stops, every file written lies below the destination, and every directory made too or is its ancestor |
| BoxArchive.TargetsDiffer | core/artifact/fetch.go:501 | two safe members share a target exactly when their cleaned names are equal |
| BoxArchive.ContentsAreLastBodies | core/artifact/fetch.go:507-519 | each path holds the body of the last regular member with that target; other paths are untouched |
| BoxArchive.MachineIsExtracted | core/artifact/fetch.go:520-531 | the returned file is the last `.ovf`, else the first `.vmx`, and is on disk with the last body written to it |
| BoxArchive.SucceedsIff | core/artifact/fetch.go:487-531 | with good system calls, extraction succeeds exactly when no name is rooted or has a first element starting with `..`, no path is both file and directory, and an `.ovf` or `.vmx` exists |
| BoxArchive.RefusedIff | core/artifact/fetch.go:497-500 | with nothing in the way, a member fails the extraction exactly when its name is rooted or its first element starts with `..` |
| BoxArchive.DotSlashIsAccepted | core/artifact/fetch.go:497-500 | the names `./` and `./name` are accepted |
| BoxArchive.ChosenByName | core/artifact/fetch.go:520-531 | the machine file is the last regular member ending in `.ovf`, else the first ending in `.vmx`, else none |
| BoxArchive.NoSilentFailure | core/artifact/fetch.go:487-531 | success means that the archive was read to its end and every member made: each directory, and each file whole |
| BoxArchive.AncestorDirsAre | core/artifact/fetch.go:502-508 | MkdirAll makes the cleaned path and all above it |
| BoxArchive.DirectoriesAreMade | core/artifact/fetch.go:502-508 | after an extraction that has not failed, every directory member and the directory of every file is there |
| Selection.Pick | core/artifact/resolve.go:251-280 | the one-pass ladder returns the earliest variant of maximal specificity, none exactly when none applies |
| Selection.ChoiceIsOnLadder | core/artifact/resolve.go:250-280 | the choice is the first variant for the family and architecture, else the first for the family alone, else for the architecture alone, else for any |
| Selection.ProviderEntry | core/artifact/fetch.go:410-425 | an exact architecture anywhere wins over the first entry from before multi-arch |
| Selection.EntryIsUsable | core/artifact/fetch.go:405-425 | an entry is never for another provider or a different known architecture, and none is returned only when none is usable |
| Selection.EntryIsFirst | core/artifact/fetch.go:410-425 | the entry is the first with the architecture, else the first without one or with "unknown" |
| Selection.VersionsAsked | core/artifact/fetch.go:451-464 | "" and "latest" ask for the current version, anything else for the first numbered so |
| Selection.ResolveBox | core/artifact/fetch.go:451-464 | the version search returns the current version for "latest", else the first with the number, and its usable entry, or an error |
| Artifacts.Resolve | core/artifact/resolve.go:182-248 | the search and field updates compute the specified resolution or error |
| Artifacts.PickIsBest | core/artifact/resolve.go:250-280 | the variant used is the earliest best match |
| Artifacts.CatalogIsServiceable | core/artifact/resolve.go:77-147 | every catalog entry comes to a kind that Fetch handles |
| Artifacts.ResolvedFeedsFetch | core/artifact/resolve.go:182-248 | a success has a kind Fetch handles, a registry name exactly when it is a box, and, from the catalog, an accepted format |
| Artifacts.UnknownIff | core/artifact/resolve.go:168-177 | "unknown image" is told apart from a capability gap: it means neither a registry name nor in the catalog |
| Artifacts.FusionAndWorkstationAgree | core/artifact/resolve.go:182-248 | both VMware products resolve every image to the same result |
| Artifacts.TalosPerFamily | core/artifact/resolve.go:85-97 | Talos is the metal ISO on VirtualBox and the factory OVA on VMware, for the host architecture, or an error exactly when that format is not accepted |
| Artifacts.NamedBoxPerKind | core/artifact/resolve.go:189-199 | a `vagrant:` image resolves, kind by kind, to the box named, the host's architecture, `virtualbox` with OVF or `vmware_desktop` with VMX, or no variant |
| Artifacts.CatalogBoxPerKind | core/artifact/resolve.go:215-248 | a box of the catalog likewise, with the best variant's locator, and an error exactly when its format is not accepted |
| Artifacts.CatalogBoxes | core/artifact/resolve.go:131-138 | the names and locators of the catalog's boxes |
| Artifacts.PlainImages | core/artifact/resolve.go:99-127 | what `talos-iso`, `ubuntu-cloud` and `turnkey-core` resolve to on every host |
| Artifacts.WindowsPerFamily | core/artifact/resolve.go:106-114 | `windows-dev` has one image per family, for amd64 only |
| Checksums.FindSha256Sum | core/artifact/fetch.go:570-578 | the loop returns the specified sum |
| Checksums.FoundIsListed | core/artifact/fetch.go:570-578 | a sum found is a word on a line that lists the file, and "" means no line does |
| Checksums.PrintedSumIsFound | core/artifact/fetch.go:568-578 | on a printed list the result is the hash of the first entry with the name, "" exactly when there is none |
| Checksums.SpelledSumIsFound | core/artifact/fetch.go:568-574 | a line of two words lists the second, with or without `*` in front |
| CacheNames.NameDecodes | core/artifact/fetch.go:179-181 | the cache name splits back into dashed locator, version, provider and architecture |
| CacheNames.NameIsSpelled | core/artifact/fetch.go:181 | the name is locator, version, provider and architecture with hyphens between, and in place of the locator's slashes |
| CacheNames.NamesDiffer | core/artifact/fetch.go:179-183 | equal cache names mean equal version, provider, architecture and dashed locator |
| CacheNames.HyphenCollides | core/artifact/fetch.go:181 | with a hyphen in the version two different boxes share a name |
| CacheNames.VersionToldApartIff | core/artifact/fetch.go:179-183 | a slash-free version has another name than every other hyphen-free version, whatever the locators, if and only if it holds no hyphen |
| Fetching.FindAsset | core/artifact/fetch.go:368-378 | the loop returns the first asset with the name |
| Fetching.MakePlan | core/artifact/fetch.go:59-185 | the switch, with its searches, computes the specified destination, checksum and report, or the error |
| FetchPlans.AssetPlan | core/artifact/fetch.go:61-83 | a release asset, spelled out: destination, address, checksum, version |
| FetchPlans.TalosPlan | core/artifact/fetch.go:85-119 | Image Factory: the tag with its "v", the address, the destination |
| FetchPlans.CloudPlan | core/artifact/fetch.go:121-142 | an Ubuntu cloud image: 24.04 and amd64 unless named, the file name, the address, the listed sum |
| FetchPlans.UrlPlan | core/artifact/fetch.go:144-162 | a plain address: named by source and format, without a checksum |
| FetchPlans.BoxPlan | core/artifact/fetch.go:164-197 | a box: its two places below `boxes`, its address, its sha256 if it has one, the version found |
| FetchPlans.DryRunForetells | core/artifact/fetch.go:51-55 | a dry run reports the version, checksum and verification a real run then reports, and for anything but a box the very same result |
| FetchPlans.BoxReportsItsMachine | core/artifact/fetch.go:199-204 | a box is reported with the path and format of the machine file its archive holds |
| Fetching.Fetch | core/artifact/fetch.go:55-212 | plans, downloads and extracts as specified; a dry run leaves the disk and its history alone |
| Fetching.PlanIsHonest | core/artifact/fetch.go:59-185 | a result says verified exactly when it carries a checksum, and the address and checksum are the ones published together: for the first asset with the name, the first listing of the image, the earliest best entry of the version |
| Fetching.BoxIsOutside | core/artifact/fetch.go:181-183 | the box file is never inside its extraction directory, whatever version the registry reports |
| Fetching.VerifiedIsTrue | core/artifact/fetch.go:55-212 | a verified, non-blank result means the downloaded file is on disk at the end and hashes to the checksum, extraction included |
| Fetching.VerifiedIsTrueIff | core/artifact/fetch.go:55-212 | in every run reported as verified, boxes included, the file hashes to the reported checksum if and only if that checksum is not blank |
| Fetching.ReportHoldsIff | core/artifact/fetch.go:55-212 | what a source publishes makes every successful run on it truly verified, on every disk and however the transfer goes, if and only if its checksum is not blank |
| Fetching.UbuntuIsVerified | core/artifact/fetch.go:121-142 | an Ubuntu cloud image is always truly verified |
| Fetching.BlankChecksumVerifiesNothing | core/artifact/fetch.go:71-79 | a checksum of white space is reported as verified while any complete body is installed, for boxes too |
| Fetching.BoxFormatIsTrue | core/artifact/fetch.go:199-204 | a box is reported as OVF exactly when it holds an `.ovf`, else as VMX, never as the fallback; its path has that extension and is a file on disk |
| FetchedFormats.FetchedFormatFitsIff | core/artifact/fetch.go:199-204 | every successful fetch of a resolved image, on every disk and in every world, reports a format the provider accepts, if and only if it is no box or the provider accepts both OVF and VMX |
| FetchedFormats.FetchedAs | core/artifact/fetch.go:149-205 | for either format there is a successful fetch of a box that reports it |
| FetchedFormats.UbuntuMayNotFit | provider/vmware/detect.go:149-151 | VMware without ovftool accepts the image `ubuntu` as VMX, and may then fetch an OVF it does not accept |
| Destinations.NameStaysIff | core/artifact/fetch.go:69 | a name joined to any directory stays in it if and only if its elements never climb above where they start |
| Destinations.DestinationStaysIff | core/artifact/fetch.go:59-185 | Fetch writes inside the directory it is given, whichever it is, if and only if the elements of the tag or version it uses never climb above where they start |
| Destinations.TwoStepsUpLeave | core/artifact/fetch.go:99-103 | a version with two steps up does not |

## Left out

- Inventory.ListsEachOnce, the resolver and the guard: filepath.Glob is not interpreted for a VM directory or a name that holds
  glob characters; its result is then arbitrary, and only the guard's laws cover such names.
- RunningGuard.Configure: the check and the write are one step; a VM that starts between the two is not modelled.
- VmxGuestinfo.LinesOrderIndependentIff, VmxGuestinfo.ReadingOrderIndependentIff: for maps whose keys and values hold no newline.
- RunningGuard.NamesRunning: `vmrun list` is taken to name files by their rooted, cleaned paths.
- Download.RunIsSafe: calls run one after another; two concurrent fetches to one destination share a temporary file and are not covered.
- Process execution, timeouts and the hypervisor tools: command output is an arbitrary text.
- HTTP, DNS, JSON, gzip and tar decoding: responses are pieces that may fail, archives are sequences of members.
- Symbolic links and other links (two cleaned paths are two files), permissions and free space on the host; archive members other than files and directories are skipped, as in the code.
- Windows paths, Unicode case folding and Unicode white space.
- VMware `Create`: it calls the editor on a `.vmx` nobody has written, and the editor fails on a missing file.
- An accepted-format guarantee for the `vagrant:` passthrough: the code returns before that test.
- The guest-tools branch and the MAC lookup of `IP`; the scan starts from a lowercase MAC.
- Summary and error texts, tool dispatch, detection, the VirtualBox adapter, packaging.
