# SecureOS kernel models

A Dafny model of the state machines and arithmetic cores of the SecureOS kernel, with
proofs of what they keep over every run. Code that works in place is modelled in place:
classes for the service objects and tables, arrays for fixed buffers, loops with
invariants; each such method is proved against a specification function or predicate
whose own properties are then proved as lemmas.

**File system** (`Fs*`). Directories and files are cluster chains in a FAT. `FsVolume`
and `FsDirs` state what a consistent volume is: every used cluster lies on exactly one
acyclic, ended chain of exactly one object, chains cover file sizes, names are unique in
a directory, unused slots are only at the end of a directory's last cluster, and every
object hangs below the root. `FsTree` reads such a volume as a map from paths to values.
`FsService` is the service itself on a block device: each operation is proved to refine
an operation on that map, with its exact result code, the exact number of clusters it
takes or returns, and what a failure leaves behind. `FsUnseen` and `FsCapacity` settle
the one case in which a create is not seen, by a condition on the map alone. `FsRuns`
draws the conclusions for whole runs of calls, failed ones included, and for a client
that makes them. What a text names is stated without the parser: two texts name one path
exactly when their components are equal up to case.

**Ed25519 and SHA-512** (`Limbs`, `*25519`, `Sha512*`). Limbs are a 64-bit type, so that
verification of a method is also the proof that nothing in it overflows. Field
operations are proved modulo 2^255-19, packing yields the least residue, point addition
computes the formula of RFC 8032 and keeps points on the curve, the ladders compute
double-and-add of the scalar, which adds up as many copies of the point as the scalar
counts, and the scalar reduction yields the residue modulo the group order. What
decoding a key answers is proved from Fermat's theorem for 2^255-19, which is stated as
a hypothesis (`Roots25519.Fermat`). The curve's constant is a parameter of the algebra
and is otherwise known by its limbs only: Z3's nonlinear arithmetic is not reliable on
polynomials with 255-bit literal coefficients, from which it can derive a contradiction
that is not there, so such literals must stay out of these proofs. The streaming hash is
proved equal to the function of FIPS 180-4 for every way of cutting a message. That the
function is the standard's is shown three ways: what its parts do to the bits of a word,
where its constants come from, and the digest of the published example, worked out round
by round.

**Ports and scheduler** (`Handles`, `Ipc*`). `IpcModel` is a step system: the running
process performs one action, a coroutine suspended inside a call is the operation it
will retry, and capability decisions and buffer bounds are inputs of an action.
`IpcRuns`, `IpcSources`, `IpcTakers`, `IpcWake` and `IpcTwoSenders` prove what every
interleaving keeps, who supplied and who took each envelope, and show by a concrete run
what two senders on one port can lose. A process may be destroyed at any point; its
scheduler entry is then left behind. `IpcKernel` holds the tables and the ready ring as
they are updated in place and refines the step system.

**Capabilities** (`CapTable`, `CapHandles`, `AuditLog`, `CapBroker`). The bitset as a
set of pairs, the handle table with its generations and subtree revocation, the audit
ring with seals and checkpoints, and the audited operations and share workflow, whose
log replays to the table and shows by what right each capability was given and taken.

**Heap, container, clock** (`Kheap`, `Sof`, `SofFile`, `Clock`). The heap keeps its
block headers as bytes of the arena, between the payloads. The container is parsed and
verified with the 32-bit sums of the code, so that hostile headers are part of the
model.

Where the code and its comments differ, the code is modelled. The scheduler wakes the
lowest table entry blocked on a port, not the longest waiting one
(`kernel/proc/proc_sched.h` speaks of first-in first-out order). Grants advance a
capability handle's generation as well as revokes, so a 14-bit generation comes round
after 8192 re-grants. The handle table accepts subject 0 as an owner, although a comment
in `kernel/ipc/ipc_ops.c` says that it does not. A heap request above 2^32 - 16 bytes is
rounded to its size modulo 2^32, because the mask is a 32-bit constant, and can succeed.
A directory takes at most 2048 entries; one more is created with OK and is never found.
The root-only rule for the admin capability does not cover shares.

## Model

| member | source | states |
|---|---|---|
| `FsService.FileService.WriteFileBytes` | kernel/fs/fs_service.c:1275-1370 | From every consistent volume: the exact result code, as a function of the path-to-value map and of the number of free clusters; on success the file holds the new bytes (or old then new), every other path keeps its value and the free clusters drop by exactly what was needed; on failure the stored table and all directory clusters are byte-identical and at most the bytes of an overwritten file can have changed. The one exception, stated exactly, is a create whose entry lookups do not see (FsCapacity.HiddenIff): it returns OK, the entry is not found, every other lookup answers as before and every path holds what it held. |
| `FsService.FileService.ReadFileBytes` | kernel/fs/fs_service.c:1181-1265 | The buffer receives exactly the bytes the map holds at the path, nothing behind them changes, and each error code is returned in exactly its case; the volume is not changed. |
| `FsService.FileService.MkDir` | kernel/fs/fs_service.c:1372-1450 | Adds exactly one empty directory, with exact result codes and cluster accounting, and keeps the volume consistent, unless lookups do not see the new entry; then every other lookup and every path is as before. |
| `FsService.FileService.Unlink` | kernel/fs/fs_service.c:1452-1513 | Removes exactly the path of a file and returns its clusters to the free ones; in every error case the map is unchanged. |
| `FsService.FileService.RmDir` | kernel/fs/fs_service.c:1515-1580 | Removes exactly the path of a directory with nothing below it in the map; a non-empty directory, a file and the root are refused with their own codes. |
| `FsService.FileService.ListDir` | kernel/fs/fs_service.c:1083-1161 | Writes one line for each name that lookups find in the directory, each once and marked as file or directory, and nothing else; reports lack of room exactly when the lines do not fit. |
| `FsService.FileService.EnsureInitialized` | kernel/fs/fs_service.c:710-726 | A volume with a valid boot sector is left alone; any other becomes a fresh consistent one that holds only the root. |
| `FsService.FileService.constructor` | kernel/fs/fs_service.c:613-726 | A service on a device without a valid boot sector starts as the bare root, with every other cluster free. |
| `FsFormat.Format` | kernel/fs/fs_service.c:613-683 | The boot sector is the one given byte by byte below and is valid, the table holds only the two reserved and the root entries, and the root directory is empty. |
| `FsFormat.FreshInv` | kernel/fs/fs_service.c:613-683 | The fresh layout satisfies the whole volume invariant with the root as its only object. |
| `FsFormat.BootStart` | kernel/fs/fs_service.c:618-641 | The first fields of the boot sector that is written, byte by byte. |
| `FsFormat.BootMiddle` | kernel/fs/fs_service.c:642-648 | Its size and root fields. |
| `FsFormat.BootLabel` | kernel/fs/fs_service.c:649-666 | Its label, type and signature. |
| `FsFormat.BootZeros` | kernel/fs/fs_service.c:618-666 | Every other byte of it is zero. |
| `FsMap.UsedClusterReached` | kernel/fs/fs_service.c:359-413 | No leaks and no cross-links: on a consistent volume every cluster that is not free lies on the chain of exactly one object, at one place, and some path from the root leads to that object. |
| `FsTree.PathUnique` | kernel/fs/fs_service.c:518-557 | Two paths that resolve to the same object are the same path. |
| `FsTree.PathOfResolves` | kernel/fs/fs_service.c:518-557 | Every object of the tree is reached from the root by the path its parent links spell. |
| `FsTree.ContentsUpdate` | kernel/fs/fs_service.c:730-850 | Rewriting one object changes the map at its path and nowhere else. |
| `FsTree.ContentsAdded` | kernel/fs/fs_service.c:1275-1450 | Adding an object under a directory adds exactly its path to the map. |
| `FsTree.ContentsRemoved` | kernel/fs/fs_service.c:1452-1580 | Removing an object with nothing below it removes exactly its path from the map. |
| `FsVolume.FreeCount` | kernel/fs/fs_service.c:359-376 | A free cluster exists exactly while fewer than all clusters are owned by chains. |
| `FsVolume.Grow` | kernel/fs/fs_service.c:826-842 | Linking a free cluster to the end of a chain keeps every chain acyclic, ended and disjoint from the others. |
| `FsVolume.Start` | kernel/fs/fs_service.c:1329-1341 | Starting a chain at a free cluster keeps the table invariant and owns exactly one cluster more. |
| `FsVolume.Truncate` | kernel/fs/fs_service.c:759-770 | Cutting a chain back to its first cluster frees exactly the rest. |
| `FsVolume.Release` | kernel/fs/fs_service.c:852-875 | Freeing a whole chain frees exactly its clusters and leaves every other chain intact. |
| `FsDirs.CreateEntry` | kernel/fs/fs_service.c:1275-1450 | Writing an entry for a new object into a slot without a live entry keeps the whole volume invariant. |
| `FsDirs.ResizeEntry` | kernel/fs/fs_service.c:1275-1370 | Rewriting the size of a file entry, with its chain changed, keeps the whole volume invariant. |
| `FsDirs.DeleteEntry` | kernel/fs/fs_service.c:1452-1580 | Marking the entry of an object with nothing below it deleted, with its chain freed, keeps the whole volume invariant. |
| `FsDirs.ExtendDirectory` | kernel/fs/fs_service.c:378-413 | Chaining a zeroed cluster to a directory none of whose slots is unused keeps the invariant that unused slots are only at the very end. |
| `FsDirs.DataFrame` | kernel/fs/fs_service.c:730-850 | Writes that avoid all directory clusters keep the whole volume invariant. |
| `FsScan.LookChild` | kernel/fs/fs_service.c:419-507 | The directory walk of at most 128 clusters finds a name exactly when the tree has such a child, reports the first reusable slot otherwise, and reports a full directory exactly when every slot is live. |
| `FsScan.OverflowScan` | kernel/fs/fs_service.c:419-507 | When a directory already has as many clusters as the walk visits, nothing chained behind them is ever found. |
| `FsLookup.FindEntryInDir` | kernel/fs/fs_service.c:419-507 | The loop over clusters and slots computes the lookup function and leaves the cluster of the reported slot in the buffer. |
| `FsLookup.ExtendDirectory` | kernel/fs/fs_service.c:378-413 | Chains one zeroed cluster behind the directory when one is free, and reports lack of space exactly when none is. |
| `FsLookup.DirectoryIsEmpty` | kernel/fs/fs_service.c:877-925 | True exactly when the directory has no children in the tree. |
| `FsLookup.Commit` | kernel/fs/fs_service.c:329-349 | Stores the table image and then the directory cluster; nothing else on the device changes. |
| `FsMap.ResolveParentAndLeaf` | kernel/fs/fs_service.c:559-611 | Finds the parent directory and the padded leaf name that the map-level resolution of the path gives, with its error codes. |
| `FsMap.ResolveDir` | kernel/fs/fs_service.c:518-557 | Finds exactly the directory that the path names in the map, or reports that there is none. |
| `FsPath.ParseName` | kernel/fs/fs_service.c:190-234 | Accepts a component exactly when it is a short name of at most eight and three characters, and yields the padded upper-case form, which FsPath.ShortNameIff and FsPath.SameNameIff describe. |
| `FsPath.ShortNameIff` | kernel/fs/fs_service.c:190-234 | A component is accepted exactly when it is a base of one to eight characters, or such a base, a dot and at most three more, none of them a dot or a separator. |
| `FsPath.SameNameIff` | kernel/fs/fs_service.c:190-234 | Two components without spaces and without a dot at the end get the same padded name exactly when they are equal up to the case of the letters a to z, character by character, extension included. |
| `FsPath.UnreadableNames` | kernel/fs/fs_service.c:190-234 | Counterexample for the others: a dot at the end, or a space at the end of the base, is lost in the padded name. |
| `FsPath.MarkedName` | kernel/fs/fs_service.c:190-234 | Counterexample: the one-byte component 0xE5 is accepted and its padded name starts with the deletion mark. |
| `FsPath.NextComponent` | kernel/fs/fs_service.c:163-188 | Yields the next component of fewer than sixteen characters; a longer one ends the path. |
| `FsPath.Splits` | kernel/fs/fs_service.c:152-188 | A text made of components and runs of slashes and backslashes is read as exactly those components, up to the first that is longer than fifteen characters. |
| `FsChain.FindFreeCluster` | kernel/fs/fs_service.c:359-376 | Returns the lowest free cluster, or nothing exactly when all are used. |
| `FsChain.FreeClusterChain` | kernel/fs/fs_service.c:852-875 | Following the links from the given place frees exactly the rest of that chain. |
| `FsChain.NextOrExtend` | kernel/fs/fs_service.c:774-842 | Yields the next cluster of the chain, or links the lowest free one when the chain ends; fails exactly when none is free. |
| `FsChain.FlattenWrite` | kernel/fs/fs_service.c:797-820 | Writing a piece into one cluster of a chain puts exactly those bytes at that place of the file. |
| `FsLayout.FatSetView` | kernel/fs/fs_service.c:351-357 | Writing one 28-bit link changes that link of the table and no other. |
| `FsLayout.LinkBytes` | kernel/fs/fs_service.c:329-357 | The link of cluster c is four little-endian bytes of block 1 + c / 128, without the upper four bits. |
| `FsLayout.LbaIs` | kernel/fs/fs_service.c:148-150 | Cluster c lies in block 65 + (c - 2). |
| `FsLayout.BootValidIff` | kernel/fs/fs_service.c:685-708 | The bytes that make a boot sector valid. |
| `FsLayout.FillSlotFields` | kernel/fs/fs_service.c:1336-1341 | Where name, attribute, both halves of the first cluster and the size lie in a slot. |
| `FsLayout.FatStored` | kernel/fs/fs_service.c:329-349 | Writing back every sector of a table image makes it the stored table. |
| `FsLayout.ClusterWrite` | kernel/fs/fs_service.c:315-327 | A cluster write changes that cluster and leaves boot sector, table and other clusters alone. |
| `FsLayout.FillSlotReads` | kernel/fs/fs_service.c:1336-1341 | A filled directory slot reads back as the entry written, except when its first name byte is the deletion mark; other slots are untouched. |
| `FsWrite.Device.WriteEntryContent` | kernel/fs/fs_service.c:730-850 | Streams content across clusters, extending the chain as needed: exact success condition in free clusters, exact bytes, and on every outcome only the file's own or free clusters are written and the stored table is untouched. |
| `FsWrite.Device.TruncateChain` | kernel/fs/fs_service.c:759-770 | Cuts the chain of a file back to its first cluster in the table buffer. |
| `FsUpdate.StoreContent` | kernel/fs/fs_service.c:1355-1369 | Content first, then the size in the entry, then table and directory cluster: the order that keeps a failed write invisible. |
| `FsUpdate.Rewritten` | kernel/fs/fs_service.c:1275-1370 | A completed write leaves a consistent volume whose map differs from the old one only at the file's path, where the new bytes are. |
| `FsUpdate.FailedAppend` | kernel/fs/fs_service.c:730-850 | An append that runs out of space leaves the whole map as it was. |
| `FsUpdate.OffWrites` | kernel/fs/fs_service.c:730-850 | Writes to a file's own clusters keep the volume consistent and every other path's value. |
| `FsUpdate.FileMade` | kernel/fs/fs_service.c:1322-1370 | A new file appears in the map with its content, unless its entry is out of sight. |
| `FsUpdate.FailedCreate` | kernel/fs/fs_service.c:1322-1358 | A create that runs out of space has written only to clusters that were free. |
| `FsCreate.FindOrExtend` | kernel/fs/fs_service.c:1302-1320 | Finds an entry or makes a slot ready for it, extending a full directory; on failure nothing stored has changed. |
| `FsCreate.HiddenAfter` | kernel/fs/fs_service.c:388-441 | If the padded name starts with the deletion mark, or the directory was full with 128 clusters, the new entry is not found, every lookup of another name answers as before, and every path still holds its value. FsCreate.DirectoryMade and FsUpdate.FileMade give the converse: in every other case the new path is in the map. |
| `FsUnseen.LookAlike` | kernel/fs/fs_service.c:419-507 | Lookups in a directory answer as before when the links still follow its clusters and its live slots are unchanged. |
| `FsUnseen.ValuesKept` | kernel/fs/fs_service.c:419-507 | Files hold what they held when their own clusters keep their bytes and links. |
| `FsCapacity.HiddenIff` | kernel/fs/fs_service.c:388-441 | Exact condition, on the map alone, of a created entry staying invisible: its padded name starts with the deletion mark, or its directory already has 2048 entries. |
| `FsCapacity.Capacity` | kernel/fs/fs_service.c:378-413 | A directory never has more than 2048 visible entries, nor more than 16 for each of its clusters, and every slot is taken exactly when it has 16 for each. |
| `FsCapacity.ChildCount` | kernel/fs/fs_service.c:419-507 | Children and live slots of a directory correspond one to one. |
| `FsCapacity.LostFile` | kernel/fs/fs_service.c:1275-1370 | Counterexample that is reached: on a fresh device 2048 files can be made in the root, and making one more returns OK and is not found. |
| `FsCreate.MarkedHidden` | kernel/fs/fs_service.c:419-507 | A name that starts with the deletion mark is never found, wherever it is written. |
| `FsCreate.OverflowHidden` | kernel/fs/fs_service.c:388-441 | An entry in a cluster chained behind the 128th is never found. |
| `FsCreate.DirectoryMade` | kernel/fs/fs_service.c:1372-1450 | A new directory appears in the map with nothing below it, unless its entry is out of sight. |
| `FsCreate.BuildDirectory` | kernel/fs/fs_service.c:1372-1450 | Allocates a cluster, records it in the slot, stores table and entry and zeroes the new directory's cluster. |
| `FsList.ListingExact` | kernel/fs/fs_service.c:1083-1161 | The entries that a listing walks over are exactly the children that lookups find, each once. |
| `FsList.ListEntries` | kernel/fs/fs_service.c:1083-1161 | The buffer holds the lines of exactly those entries, terminated by a zero byte, or lack of room is reported. |
| `FsList.LineIff` | kernel/fs/fs_service.c:236-280 | Two entries print the same line exactly when they agree on the letters before the first space of each part, on having an extension and on being directories. |
| `FsList.ListedAs` | kernel/fs/fs_service.c:236-280 | The line of a component without spaces and without a dot at the end is that component in lower case. |
| `FsList.LineDetermines` | kernel/fs/fs_service.c:236-280 | Between names whose spaces are only padding a line determines its entry. |
| `FsList.SameLine` | kernel/fs/fs_service.c:236-280 | Counterexample: two short names with an inner space print the same line. |
| `FsRuns.OthersKept` | kernel/fs/fs_service.c:1275-1580 | In every run of writes, appends, mkdirs and removals, failed ones included, a path keeps its value while no call names it. |
| `FsRuns.ReadBack` | kernel/fs/fs_service.c:1181-1370 | After an overwrite that returned OK, and whatever calls follow, failed or not, that do not overwrite or remove the file, reading the path gives the bytes written and those of exactly the appends that returned OK. |
| `FsRuns.Client.ReadWritten` | kernel/fs/fs_service.c:1181-1265 | The same on the device: the buffer that the service fills holds those bytes. |
| `FsRuns.Client.Write` | kernel/fs/fs_service.c:1275-1370 | Every client of the service is in the last state of a run: each call adds one event with its code and the state it leaves. |
| `FsRuns.Client.MakeDir` | kernel/fs/fs_service.c:1372-1450 | The same for mkdir. |
| `FsRuns.Client.Unlink` | kernel/fs/fs_service.c:1452-1513 | The same for unlink. |
| `FsRuns.Client.RmDir` | kernel/fs/fs_service.c:1515-1580 | The same for rmdir. |
| `FsRuns.Client.Read` | kernel/fs/fs_service.c:1181-1265 | Reads answer from the last state of the run. |
| `FsRuns.Client.constructor` | kernel/fs/fs_service.c:613-726 | A client of a fresh device starts a run with the bare root. |
| `FsRuns.StepAt` | kernel/fs/fs_service.c:1275-1580 | One call, whatever it returns, changes at most the value at the path its text names, and that value as the call says; only an overwrite that runs out of space can change bytes without returning OK, and it keeps their number. |
| `FsRuns.RunClosed` | kernel/fs/fs_service.c:1275-1580 | In every state of every run each path lies in a directory of the map. |
| `FsRuns.NamedTarget` | kernel/fs/fs_service.c:518-557 | In such a map a text that names a path of the map leads there. |
| `FsRuns.SamePathIff` | kernel/fs/fs_service.c:152-234 | Two texts name one path exactly when their components are equal up to case, whatever separators stand between them. |
| `FsRuns.LocatedIff` | kernel/fs/fs_service.c:559-611 | A text that names a path is located there when every link above it is a directory; otherwise the first link that is not decides the code, by being absent or a file. |
| `FsRuns.CodeIs` | kernel/fs/fs_service.c:1275-1580 | Below directories, the code of each call follows from what its path holds, the clusters free and held (clusters of 512 bytes, at least one), and the free slots of the directory. |
| `FsRuns.ReadIs` | kernel/fs/fs_service.c:1181-1265 | The code and the bytes of a read, from what the text names and what that path holds. |
| `FsRuns.DirLocatedIff` | kernel/fs/fs_service.c:518-557 | A text leads to a directory exactly when it names a path that is one, as are all above it. |
| `Field25519.Car25519` | kernel/crypto/ed25519.c:59-68 | For limbs up to 2^62: no overflow, all limbs but the first become 16-bit digits, and the value changes by a stated multiple of 2^256 - 38. |
| `Field25519.CarriedTwice` | kernel/crypto/ed25519.c:145-146 | After two passes the limbs are digits up to 38 and the value is below 2^256 with the same residue. |
| `Field25519.Mul` | kernel/crypto/ed25519.c:137-147 | For factors with limbs up to 2^26: no overflow, and the result is the product modulo 2^255-19 with carried limbs. |
| `Field25519.Product` | kernel/crypto/ed25519.c:138-142 | The 31 sums of limb products have the value of the product. |
| `Field25519.Fold` | kernel/crypto/ed25519.c:143-144 | Folding the upper limbs back, times 38, keeps the residue. |
| `Field25519.Add` | kernel/crypto/ed25519.c:127-130 | Limbwise sum: the values add, without overflow. |
| `Field25519.Sub` | kernel/crypto/ed25519.c:132-135 | Limbwise difference: the values subtract, without overflow. |
| `Packing25519.Sel25519` | kernel/crypto/ed25519.c:70-77 | Exchanges the two elements when the bit is one and leaves them otherwise. |
| `Packing25519.MaskedSwap` | kernel/crypto/ed25519.c:70-77 | The masked exclusive-or on 64-bit words is that exchange. |
| `Packing25519.SubtractPrime` | kernel/crypto/ed25519.c:88-95 | The borrow loop subtracts the prime exactly, and its last borrow bit is one exactly when the value was smaller. |
| `Packing25519.Canonical` | kernel/crypto/ed25519.c:87-97 | Two conditional subtractions always reach the least residue. |
| `Packing25519.Pack25519` | kernel/crypto/ed25519.c:79-102 | For every element with limbs up to 2^62 the bytes are the little-endian least residue in [0, 2^255-19). |
| `Packing25519.Neq25519` | kernel/crypto/ed25519.c:104-112 | True exactly when the two elements differ modulo 2^255-19. |
| `Packing25519.Par25519` | kernel/crypto/ed25519.c:114-118 | The lowest bit of the least residue. |
| `Packing25519.Unpack25519` | kernel/crypto/ed25519.c:120-125 | The value of the bytes modulo 2^255, as 16-bit digits. |
| `Packing25519.LeValUnique` | kernel/crypto/ed25519.c:98-101 | Byte strings of one length are determined by their number, so packed elements can be compared byte by byte. |
| `Points25519.AddPoints` | kernel/crypto/ed25519.c:181-202 | Computes the unified addition of section 5.1.4 of RFC 8032 on residues, with limb bounds that every further step can rely on. |
| `Points25519.DomainParameters` | kernel/crypto/ed25519.c:26-41 | d is -121665/121666, and the base point has y = 4/5, lies on the curve and is the one of the two such points whose x is even. |
| `Points25519.ConstantsAre` | kernel/crypto/ed25519.c:30-41 | The limb tables hold 2d and the base point coordinates. |
| `Points25519.DValue` | kernel/crypto/ed25519.c:30-41 | The limbs of d have the value that RFC 8032 gives. |
| `Curve25519.PlusOnCurve` | kernel/crypto/ed25519.c:181-202 | The sum of two points of the curve is a point of the curve (curve equation and x y = z t), for every value of the constant d. |
| `Curve25519.PlusIsEdwards` | kernel/crypto/ed25519.c:181-202 | The computed coordinates satisfy the affine Edwards addition law, cross-multiplied. |
| `Curve25519.TimesOnCurve` | kernel/crypto/ed25519.c:262-315 | Every intermediate point of the 256-step ladder is on the curve. |
| `Curve25519.TimesExtended` | kernel/crypto/ed25519.c:262-315 | x y = z t holds after every ladder step, for any operand. |
| `Curve25519.TimesZero` | kernel/crypto/ed25519.c:293-315 | Leading zero bits keep the neutral element. |
| `Curve25519.TimesOne` | kernel/crypto/ed25519.c:293-315 | The multiple by one is the point itself, after any number of leading zero bits. |
| `Curve25519.TimesAdds` | kernel/crypto/ed25519.c:262-315 | Double-and-add over k bits adds up exactly n copies of the point, for every n of k bits. |
| `Ladder25519.ScalarMult` | kernel/crypto/ed25519.c:293-315 | The 256 steps compute double-and-add over the bits of the little-endian scalar, without overflow at any step. |
| `Ladder25519.ScalarMultBase` | kernel/crypto/ed25519.c:262-291 | The same ladder on the base point. |
| `Ladder25519.BaseMultiplesOnCurve` | kernel/crypto/ed25519.c:262-291 | Every multiple of the base point that is computed lies on the curve. |
| `Ladder25519.HighBytes` | kernel/crypto/ed25519.c:300-303 | The bits that the ladder reads spell the little-endian number of the scalar. |
| `Ladder25519.LadderAdds` | kernel/crypto/ed25519.c:293-315 | What the ladder leaves for a 32-byte scalar is the sum of as many copies of the point as the scalar counts. |
| `Keys25519.Inv25519` | kernel/crypto/ed25519.c:153-162 | Computes the (p-2)-th power. |
| `Keys25519.Pow2523` | kernel/crypto/ed25519.c:164-173 | Computes the ((p-5)/8)-th power. |
| `Keys25519.PackPoint` | kernel/crypto/ed25519.c:204-211 | The encoding is y/z in 255 bits with the lowest bit of x/z on top, division being by the (p-2)-th power. |
| `Keys25519.UnpackNeg` | kernel/crypto/ed25519.c:213-247 | On success the decoded point is on the curve, has the encoded y, and the sign opposite to the encoded one; given Fermat's theorem for p as a hypothesis, decoding fails exactly when no point of the curve has the encoded y. |
| `Keys25519.Reencode` | kernel/crypto/ed25519.c:204-247 | Given the same hypothesis, packing a point of the curve and decoding the bytes gives its negative back. |
| `Roots25519.Decodes` | kernel/crypto/ed25519.c:223-241 | The candidate, or the candidate times the root of minus one, is a square root of the quotient whenever there is one. |
| `Roots25519.InverseIs` | kernel/crypto/ed25519.c:153-162 | The (p-2)-th power is the inverse, under the same hypothesis. |
| `Roots25519.UpToSign` | kernel/crypto/ed25519.c:213-247 | Two square roots of one quotient with a non-zero denominator are the same up to sign, under the same hypothesis. |
| `Roots25519.AffineX` | kernel/crypto/ed25519.c:204-211 | Dividing the coordinates of a point of the curve by z gives an x for its y. |
| `Roots25519.PointOf` | kernel/crypto/ed25519.c:213-247 | An x for y makes a point of the curve. |
| `Scalar25519.Columns` | kernel/crypto/ed25519.c:323-328 | The twenty columns of one step subtract 16 x[i] times the low bytes of L at the right place, keep the digits balanced, and bound the carry. |
| `Scalar25519.Sweep` | kernel/crypto/ed25519.c:322-331 | One step takes away a multiple of L, clears limb i and keeps the bounds that the next step needs. |
| `Scalar25519.LastQuotient` | kernel/crypto/ed25519.c:332-337 | The quotient of the top limb by 16 leaves a remainder strictly between -L and L. |
| `Scalar25519.OrderIs` | kernel/crypto/ed25519.c:47-52 | The group order is 2^252 + 27742317777372353535851937790883648493. |
| `Scalar25519.ModL` | kernel/crypto/ed25519.c:318-343 | For every 64 limbs up to 2^21 in absolute value: no overflow, and the 32 bytes are the residue in [0, L). |
| `Scalar25519.Reduce` | kernel/crypto/ed25519.c:345-351 | A 64-byte number is replaced by its residue modulo L. |
| `Scalar25519.SignScalar` | kernel/crypto/ed25519.c:430-439 | The scalar of a signature is (nonce + hash * key) mod L; the column sums stay within the bounds of the reduction. |
| `Sha512.Transform` | kernel/crypto/sha512.c:97-140 | One block is absorbed as section 6.4.2 of FIPS 180-4 prescribes; that the function this is stated by is the one of the standard is pinned by Sha512Example.DigestOfAbc, Sha512Constants and Sha512Bits. |
| `Sha512.Schedule` | kernel/crypto/sha512.c:97-109 | The 80 words are the message schedule. |
| `Sha512.Context.Update` | kernel/crypto/sha512.c:161-207 | After any update the state has absorbed every whole block of all bytes fed, the buffer holds the rest, and the two counters hold the length modulo 2^128. |
| `Sha512.Context.Final` | kernel/crypto/sha512.c:209-248 | The digest is the hash of everything that was fed, for every message below 2^125 bytes. |
| `Sha512.HashOnce` | kernel/crypto/sha512.c:250-256 | The one-shot digest is the hash function of sections 5.1.2 and 6.4 of FIPS 180-4, whose value on the published example is Sha512Example.DigestOfAbc. |
| `Sha512.HashPieces` | kernel/crypto/sha512.c:161-248 | However a message is cut into updates, the digest is that of the whole. |
| `Sha512.AbsorbConcat` | kernel/crypto/sha512.c:197-201 | Absorbing whole blocks first and the rest later is absorbing all of it. |
| `Sha512.PadBlocks` | kernel/crypto/sha512.c:223-242 | The padded tail is one block, or two when the length field does not fit. |
| `Sha512.LengthField` | kernel/crypto/sha512.c:220-221 | The two words written are the 128-bit bit count for every length below 2^125 bytes. |
| `Sha512Example.DigestOfAbc` | tests/ed25519_test.c:67-85 | The digest of the message "abc", byte by byte, through its schedule and the registers after every eighth of the 80 rounds. |
| `Sha512Example.PadIs` | kernel/crypto/sha512.c:209-242 | Padding keeps the message and adds a one bit, the fewest zeros that fill whole blocks, and the length in bits as a 128-bit big-endian number. |
| `Sha512Example.WordBytesBack` | kernel/crypto/sha512.c:78-95 | The bytes written for a word are those it is loaded from, most significant first. |
| `Sha512Constants.KFromCubeRoot` | kernel/crypto/sha512.c:24-45 | Round constant t is the first 64 bits of the fraction of the cube root of prime number t, as an integer inequality. |
| `Sha512Constants.InitialFromSquareRoots` | kernel/crypto/sha512.c:144-159 | The initial values are the first 64 bits of the fractions of the square roots of the first eight primes. |
| `Sha512Constants.PrimesAre` | kernel/crypto/sha512.c:24-45 | The table of primes that these refer to holds exactly the primes up to 409, in order: the first eighty. |
| `Sha512Bits.ChOnes` | kernel/crypto/sha512.c:53-55 | Ch takes the bits of y where x has ones. |
| `Sha512Bits.ChZeros` | kernel/crypto/sha512.c:53-55 | Ch takes the bits of z where x has zeros. |
| `Sha512Bits.MajOnes` | kernel/crypto/sha512.c:57-59 | Maj has ones where two arguments have ones. |
| `Sha512Bits.MajZeros` | kernel/crypto/sha512.c:57-59 | Maj has zeros where two arguments have zeros. |
| `Sha512Bits.MajAnyOrder` | kernel/crypto/sha512.c:57-59 | Maj does not depend on the order of its arguments. |
| `Sha512Bits.Rotr28` | kernel/crypto/sha512.c:49-51 | A rotation puts the upper bits at the bottom and the lower bits at the top; there is one such lemma for each of the ten distances that are used. |
| `IpcRuns.RunFlow` | kernel/ipc/ipc_ops.c:65-109 | In every state of every run, for each live port, the envelopes received followed by the one in the slot are exactly the envelopes accepted by send, in order and once each, and the slot never holds a malformed one. |
| `IpcRuns.ConsumeFlow` | kernel/ipc/ipc_ops.c:266-321 | A receive never takes an envelope out of the slot and then rejects it as malformed. |
| `IpcRuns.SendAdds` | kernel/ipc/ipc_ops.c:227-264 | What a send adds to the history is its own envelope with the authenticated non-zero sender, at once or when its suspended call succeeds. |
| `IpcRuns.RetryAdds` | kernel/ipc/ipc_ops.c:65-86 | A resumed send adds exactly the envelope it was suspended with. |
| `IpcRuns.OpKept` | kernel/ipc/ipc_ops.c:65-109 | A suspended call stays as it is until its own process resumes. |
| `IpcSources.RunSources` | kernel/ipc/ipc_ops.c:65-264 | In every state of every run each envelope a port has accepted, and each one waiting in a suspended send, comes from a send of the run that passed every check, with its authenticated sender, and no two come from the same send. |
| `IpcSources.Delivered` | kernel/ipc/ipc_ops.c:65-321 | So every envelope received from a live port was supplied by a send of the run. |
| `IpcTakers.TakenByOwner` | kernel/ipc/ipc_ops.c:266-321 | In every state of every run each envelope taken from a port since it was opened was taken by a receive of its own, direct or resumed, that the port's owner made with the capability and a buffer in bounds. |
| `IpcTakers.RunOwner` | kernel/ipc/ipc_port.c:159-202 | The owner of a live port is the subject that the action which opened it named. |
| `IpcTakers.RecvByOwner` | kernel/ipc/ipc_ops.c:266-321 | A receive that changes anything, or answers anything but a refusal, was made by the owner of the port its handle names, allowed and in bounds. |
| `IpcTakers.EntersRecv` | kernel/ipc/ipc_ops.c:88-109 | A process is inside a receive only by having made one that passed every check. |
| `IpcTakers.RecvLeaves` | kernel/ipc/ipc_ops.c:88-109 | A turn of a receive that is not suspended ends the call, so that it takes no second envelope. |
| `IpcRuns.StageAnswers` | kernel/ipc/ipc_ops.c:65-86 | What a turn of a send answers, by the handle, the slot and whether a process runs. |
| `IpcRuns.ConsumeAnswers` | kernel/ipc/ipc_ops.c:88-109 | What a turn of a receive answers, by the same. |
| `IpcRuns.RunSched` | kernel/proc/proc_sched.c:99-133 | In every state of every run the ready ring has no repeats and holds every ready entry and nothing else but entries of destroyed processes, and at most one process runs. |
| `IpcRuns.RingFits` | kernel/proc/proc_sched.c:99-104 | So a push never overflows the ring. |
| `IpcRuns.QueueStep` | kernel/proc/proc_sched.c:337-402 | The ring is a queue: each step takes its head, adds one entry at the end, or leaves it alone. |
| `IpcRuns.OutcomeMeans` | kernel/proc/proc_sched.c:337-353 | The scheduler stops with OK exactly when every registered process has exited or was destroyed, and with DEADLOCK only when every other one is blocked. |
| `IpcRuns.ExitSched` | kernel/proc/proc_sched.c:261-274 | Dropping an exiting process from the ring never removes anything. |
| `IpcWake.RunWake` | kernel/ipc/ipc_ops.c:65-109 | With one sending and one receiving process per port and no port closed, in every state of every run a blocked receiver faces an empty slot and a blocked sender a full one: no wake-up is lost. |
| `IpcWake.NeverBothBlocked` | kernel/proc/proc_sched.c:276-312 | At most one process is blocked on a port in such runs. |
| `IpcWake.Rendezvous` | kernel/proc/proc_sched.c:292-312 | Filling or emptying a slot and waking its only waiter settles every wait. |
| `IpcTwoSenders.SendWakesIff` | kernel/proc/proc_sched.c:292-312 | Exact condition of the wake-up after a send reaching a waiting receiver: no entry before it is blocked on the same port. |
| `IpcTwoSenders.ConsumeWakesIff` | kernel/proc/proc_sched.c:292-312 | The same exact condition for a receive and a waiting sender. |
| `IpcTwoSenders.LostWakeUp` | kernel/proc/proc_sched.c:292-312 | Counterexample with two senders: a reachable state in which nothing can run, an envelope is in the slot and its receiver is blocked. |
| `IpcModel.SendsAgree` | kernel/ipc/ipc_ops.c:368-426 | The handle-keyed send makes the same step as the plain one with the handle's owner as sender; the refusal differs only when the sender is unknown and the buffer is out of bounds. |
| `IpcKernel.Kernel.constructor` | kernel/proc/process.c:146-171 | The tables after their first initialisation are a fresh state of the step system, from which its runs start. |
| `IpcKernel.Kernel.Send` | kernel/ipc/ipc_ops.c:227-264 | The checks in their order and the first turn of the retry loop, as the step of the model; it is done or suspended only for a resolving handle, an allowed and known sender, a buffer in bounds and an envelope of the right form. |
| `IpcKernel.Kernel.Recv` | kernel/ipc/ipc_ops.c:266-321 | The checks in their order and the first turn of the retry loop; it is done or suspended only for the owner of the port that the handle names, allowed and in bounds, and the envelope returned is the one that was staged. |
| `IpcKernel.Kernel.StageTurn` | kernel/ipc/ipc_ops.c:65-86 | One turn of the staging loop on the tables is the model's step. |
| `IpcKernel.Kernel.ConsumeTurn` | kernel/ipc/ipc_ops.c:88-109 | One turn of the consuming loop on the tables is the model's step. |
| `IpcKernel.Kernel.WakeOne` | kernel/proc/proc_sched.c:292-312 | The scan of the entry table wakes the lowest entry blocked on the port, or none. |
| `IpcKernel.Kernel.BlockCurrent` | kernel/proc/proc_sched.c:276-290 | The running process is suspended on the port and nothing else changes. |
| `IpcKernel.Kernel.ReadyPush` | kernel/proc/proc_sched.c:99-104 | The circular buffer appends to the queue. |
| `IpcKernel.Kernel.ReadyPop` | kernel/proc/proc_sched.c:106-114 | The circular buffer yields the head of the queue, or nothing when empty. |
| `IpcKernel.Kernel.ReadyDrop` | kernel/proc/proc_sched.c:119-133 | The queue without the given entry, order kept. |
| `IpcKernel.Kernel.Register` | kernel/proc/proc_sched.c:212-237 | Succeeds exactly for a live process without an entry while an entry is free, and makes it ready at the end of the queue. |
| `IpcKernel.Kernel.Yield` | kernel/proc/proc_sched.c:248-259 | The running process goes to the end of the queue. |
| `IpcKernel.Kernel.Exit` | kernel/proc/proc_sched.c:261-274 | The running process becomes exited and nothing else runs. |
| `IpcKernel.Kernel.DispatchOne` | kernel/proc/proc_sched.c:337-402 | One turn of the dispatch loop on the tables is the model's step, including the stale and unsound-window branches. |
| `IpcKernel.Kernel.Drained` | kernel/proc/proc_sched.c:326-353 | The count of processes that have not exited decides the outcome. |
| `IpcKernel.Kernel.CreatePort` | kernel/ipc/ipc_port.c:159-187 | Opens the first free slot; the handle returned resolves to it. |
| `IpcKernel.Kernel.DestroyPort` | kernel/ipc/ipc_port.c:189-202 | Closes the port and advances the generation of its slot; a stale handle changes nothing. |
| `IpcKernel.Kernel.ResetPorts` | kernel/ipc/ipc_port.c:139-157 | Empties the table and advances the generation of exactly the slots that were in use. |
| `IpcKernel.Kernel.CreateProcess` | kernel/proc/process.c:173-202 | Takes the first free slot; the pid returned resolves to it, and no entry is affected unless one of a destroyed process holds this very pid. |
| `IpcKernel.Kernel.DestroyProcess` | kernel/proc/process.c:204-224 | Frees the slot and advances its generation; the entry of a registered process is left behind as the model's step says; an invalid pid changes nothing. |
| `Handles.ResolveEncode` | kernel/ipc/ipc_port.c:71-97 | The handle made for a live slot is not the null handle, resolves to it, and is the only 32-bit handle that does: generation in the upper half, index in the lower. |
| `Handles.GenAfter` | kernel/ipc/ipc_port.c:189-202 | The generation of a slot after any sequence of uses, in closed form. |
| `Handles.StaleUntilWrap` | kernel/proc/process.c:118-224 | Whatever is allocated meanwhile, a handle whose slot was freed resolves again exactly when the slot is live and its generation has advanced a multiple of 65535 times. |
| `CapHandles.Unpack` | kernel/cap/cap_handle.c:193-219 | Slot, 14-bit generation and tag of a packed handle come back, and no kernel handle is the null one. |
| `CapHandles.RunInv` | kernel/cap/cap_handle.c:99-344 | In every run without reset a row is live exactly when its generation is odd and no (owner, capability) pair has two live rows. |
| `CapHandles.Generations` | kernel/cap/cap_handle.c:99-344 | From a live row on, the 32-bit generation is the old one plus two for each re-grant, plus one while revoked. |
| `CapHandles.HandleReuse` | kernel/cap/cap_handle.c:264-287 | A handle is accepted later exactly when its row is live again after a multiple of 8192 re-grants and the capability matches. |
| `CapHandles.RevokedStaysRefused` | kernel/cap/cap_handle.c:264-312 | A revoked handle is refused through the next 8191 re-grants of its slot. |
| `CapHandles.GateIff` | kernel/cap/cap_handle.c:264-287 | The gate accepts exactly the handles of live rows with that capability: slot, the low 14 bits of the generation, and the kernel tag. |
| `CapHandles.SubtreeIff` | kernel/cap/cap_handle.c:400-428 | A row is in the subtree of a slot exactly when a chain of parent handles leads there, each not null and naming the next slot by its low 16 bits, whether the rows on the way are live or revoked. |
| `CapHandles.ThroughRevoked` | kernel/cap/cap_handle.c:400-428 | Witness: a live row under a revoked child of a live row is in that row's subtree and is revoked with it. |
| `CapHandles.GenStep` | kernel/cap/cap_handle.c:99-344 | One event: a grant makes a dead row exactly the granted one, a revoke makes a live row of its set a revoked one with owner, capability and parent kept, each advancing the generation by one; nothing else changes. |
| `CapHandles.MarksAreSubtree` | kernel/cap/cap_handle.c:400-428 | Marks that are sound, closed and hold the root are exactly the subtree of the root, which CapHandles.SubtreeIff describes by chains of parents through live and revoked rows. |
| `CapHandles.Table.Mark` | kernel/cap/cap_handle.c:400-428 | The sweep reaches its fixed point within 64 passes. |
| `CapHandles.Table.Pass` | kernel/cap/cap_handle.c:406-424 | One pass marks only rows below the root, and when it marks none the marks are closed. |
| `CapHandles.Table.RevokeSubtree` | kernel/cap/cap_handle.c:377-444 | Revokes exactly the live rows of the subtree of the handle's row (CapHandles.SubtreeIff), advancing each generation once, and touches nothing else; exact error codes. |
| `CapHandles.Table.Grant` | kernel/cap/cap_handle.c:99-132 | Grants once: exact result codes, one fresh row at most, with the given owner and granter and no parent, and the pair is granted afterwards. |
| `CapHandles.Table.GrantChild` | kernel/cap/cap_handle.c:221-262 | Returns a handle that the gate accepts for the pair, or the null handle exactly when arguments are invalid or the table is full; a fresh row has the owner as its granter and the given parent. |
| `CapHandles.Table.RevokeHandle` | kernel/cap/cap_handle.c:293-312 | Revokes exactly the row that a current handle names; a stale one changes nothing. |
| `CapHandles.Table.RevokePair` | kernel/cap/cap_handle.c:134-153 | Revokes the pair's only live row, so that the pair is no longer granted. |
| `CapHandles.Table.RevokeSubject` | kernel/cap/cap_handle.c:326-344 | Revokes exactly the live rows of an owner and returns their number. |
| `CapHandles.Table.FindFree` | kernel/cap/cap_handle.c:65-81 | A row never used is preferred to a revoked one, and nothing is found only when every row is live. |
| `CapTable.Table.Grant` | kernel/cap/cap_table.c:64-79 | Setting one bit adds exactly one pair to the granted set, for subjects 0 to 7 and capabilities 1 to 19. |
| `CapTable.Table.Revoke` | kernel/cap/cap_table.c:81-96 | Clearing one bit removes exactly one pair from the granted set, for the same arguments. |
| `CapTable.Table.Check` | kernel/cap/cap_table.c:98-116 | Answers exactly whether the pair is in the granted set, after the argument checks. |
| `AuditLog.Log.Record` | kernel/cap/capability.c:79-111 | Appends one event: the ring holds the last 32 events, the seal is the fold of the whole log, and every eighth event adds a checkpoint. |
| `AuditLog.Log.Get` | kernel/cap/capability.c:143-156 | The ring returns exactly the last min(n, 32) events in order. |
| `AuditLog.Log.GetPoint` | kernel/cap/capability.c:162-176 | Each kept checkpoint is one of the last eight, and its seal is the fold of the log prefix it ends. |
| `AuditLog.SealDetects` | kernel/cap/capability.c:38-109 | Two logs that differ in one word of one event, anywhere, have different seals, because every mixing step is a bijection of the running value and of the word. |
| `AuditLog.PointDetects` | kernel/cap/capability.c:59-77 | The same change shows in the seal of every checkpoint taken after the changed event. |
| `AuditLog.DigestMixes` | kernel/cap/capability.c:43-57 | The digest of an event mixes number, operation, actor, subject, capability and result, in this order, from the offset basis on. |
| `AuditLog.KnownSeal` | kernel/cap/capability.c:38-109 | The seal of one given event, worked out. |
| `AuditLog.PointIs` | kernel/cap/capability.c:59-77 | Checkpoint c covers the eight events from 8 c on, with the seal of the log up to there and the number of events that the ring of 32 has lost by then. |
| `AuditLog.RingPush` | kernel/cap/capability.c:84-100 | Overwriting the next slot keeps a ring that holds the end of the list. |
| `CapBroker.ReplayMeans` | kernel/cap/capability.c:210-265 | A subject holds a capability exactly when a successful grant of it is in the log with no successful revoke after it. |
| `CapBroker.System.GrantAs` | kernel/cap/capability.c:210-243 | Exact authorisation rule (admin holders, and only the root for the admin capability), one event, and replaying the log still gives the table. |
| `CapBroker.System.RevokeAs` | kernel/cap/capability.c:245-265 | Exact authorisation rule, one event, and replaying the log still gives the table. |
| `CapBroker.System.CheckCap` | kernel/cap/capability.c:267-271 | The answer is what the table says, it is logged, and nothing else changes. |
| `CapBroker.System.RequestShare` | kernel/cap/cap_broker.c:95-145 | A request is recorded exactly when the subjects are valid and different, the owner holds the capability, the name is proper and a slot is free; errors in that order. |
| `CapBroker.System.Approve` | kernel/cap/cap_broker.c:147-177 | Only the owner can approve a requested share; the recipient then holds the capability, the grant is logged, and replay still gives the table. |
| `CapBroker.System.Deny` | kernel/cap/cap_broker.c:179-205 | Only the owner can deny a requested share; the refusal is logged and the table is unchanged. |
| `CapBroker.System.RevokeShare` | kernel/cap/cap_broker.c:207-235 | Owner or recipient can revoke an approved share; the capability is taken back, logged, and replay still gives the table. |
| `CapBroker.System.RecipientCheck` | kernel/cap/cap_broker.c:237-267 | A recipient passes exactly when an approved share names it, the capability and the resource, and the table holds the capability. |
| `CapBroker.RootOnlyIff` | kernel/cap/cap_broker.c:147-177 | Nobody but the root has passed the admin capability on exactly when no share of it was approved by another owner; every state of the system meets the condition this rests on. |
| `CapBroker.MayGrantIff` | kernel/cap/capability.c:210-243 | A grant is allowed exactly to the root for the admin capability, and to a valid holder of the admin capability for every other. |
| `CapBroker.GivenByRight` | kernel/cap/cap_broker.c:95-177 | In every state of the system, whoever gave a capability was the root giving the admin capability, or held the admin capability just before, or had held what it gave when the share was asked for. |
| `CapBroker.TakenByRight` | kernel/cap/cap_broker.c:207-235 | In every state of the system, whoever took a capability away held the admin capability just before, or had given it or got it by a share. |
| `CapBroker.AdminPassedOn` | kernel/cap/cap_broker.c:147-177 | Counterexample: a holder of the admin capability other than the root passes it on by a share. |
| `Kheap.Heap.Kmalloc` | kernel/mem/kheap.c:77-124 | Fails exactly when no free block holds the rounded size; otherwise the first fitting block is used, exactly one block more is in use, its payload is zero and every payload that was in use reads as before, although headers are written between them; blocks keep tiling the arena with no two free neighbours. |
| `Kheap.Heap.Kfree` | kernel/mem/kheap.c:126-158 | Exactly the given block is no longer in use, free neighbours are merged completely, and every payload still in use reads as before; foreign pointers are ignored. |
| `Kheap.Heap.FreeAll` | kernel/mem/kheap.c:126-158 | Freeing every block in use, in any order, restores the single initial block. |
| `Kheap.Heap.Coalesce` | kernel/mem/kheap.c:145-157 | The forward pass leaves no two adjacent free blocks, keeps every block in use and every byte of their payloads. |
| `Kheap.Heap.FreeBytes` | kernel/mem/kheap.c:160-176 | Free bytes, bytes in use and headers together make up the arena. |
| `Kheap.Heap.Init` | kernel/mem/kheap.c:66-75 | One free block that spans the arena. |
| `Kheap.LiveDisjoint` | kernel/mem/kheap.c:77-124 | A payload in use is 16-aligned, inside the arena, and disjoint from every other block, free or in use, headers included. |
| `Kheap.HeadersWritten` | kernel/mem/kheap.c:93-157 | Writing the headers of blocks of the list changes no payload in use, and the arena then stores the new list. |
| `Kheap.PayloadWritten` | kernel/mem/kheap.c:108-115 | Whatever is written into one payload in use, all headers and other payloads stay. |
| `Kheap.AllFree` | kernel/mem/kheap.c:126-158 | With nothing in use, a coalesced list is the initial block. |
| `Kheap.Conserved` | kernel/mem/kheap.c:160-176 | Sizes and headers along the list add up to the offset reached. |
| `Kheap.GrantedSize` | kernel/mem/kheap.c:54-56 | A block that is handed out holds the size asked for exactly up to 2^32 - 16 bytes: the 32-bit mask rounds a larger request to its size modulo 2^32. |
| `Kheap.HeaderSize` | kernel/mem/kheap.c:30-56 | A header is its fields rounded up to the alignment, 32 bytes, and the arena is two megabytes. |
| `Kheap.Oversized` | kernel/mem/kheap.c:77-124 | Counterexample: a fresh heap of two megabytes hands out a block for a request of 2^32 bytes. |
| `Sof.BuildParse` | kernel/format/sof.c:131-230 | Parsing a built file gives back its type, its entries in order and its payload, as long as payload and place of the payload fit the 32-bit fields. |
| `Sof.ParseIff` | kernel/format/sof.c:98-230 | The bytes that parsing accepts: magic, version 1, type 1 to 3, sizes within the data by 32-bit sums, a payload, and at most twelve entries that can be read. |
| `Sof.HeadersAre` | kernel/format/sof.c:288-423 | The header of a built and of a signed file, field by field with its place. |
| `Sof.EntriesAre` | kernel/format/sof.c:288-423 | One entry for each string that is given, under its own key, in the order of the keys. |
| `Sof.PayloadWhole` | kernel/format/sof.c:131-230 | The payload comes back exactly when its length fits the 32-bit field. |
| `Sof.PayloadInside` | kernel/format/sof.c:167-174 | A file that parses has its payload inside if the 32-bit sum of place and size does not wrap around, and below 4 gigabytes only then. |
| `Sof.PayloadOutside` | kernel/format/sof.c:167-174 | Counterexample: a file of 36 bytes parses with a payload at 2^32 - 1. |
| `Sof.SignParse` | kernel/format/sof.c:526-591 | The same for a signed file, and the signature section is found where the header says. |
| `Sof.MetasRoundTrip` | kernel/format/sof.c:185-219 | Entries are read back wherever they lie. |
| `Sof.StoredWhole` | kernel/format/sof.c:205-216 | A metadata string comes back whole exactly when it is at most 63 bytes; of a longer one the first 63 bytes come back, with its length up to 255. |
| `SofFile.Build` | kernel/format/sof.c:288-423 | Exact error codes; on success the buffer holds the file image, entry by entry; on failure it is untouched. |
| `SofFile.BuildSigned` | kernel/format/sof.c:526-591 | Exact error codes; on success the buffer holds the signed image: the patched header, the same contents, the certificate and the signature of the payload hash. |
| `SofFile.Parse` | kernel/format/sof.c:131-230 | The checks in their order, with 32-bit sums, and the entries that the walk finds. |
| `SofFile.GetMeta` | kernel/format/sof.c:232-251 | The first entry with the key, or none. |
| `SofFile.VerifySignature` | kernel/format/sof.c:444-524 | For any file and header fields: the checks in their order with 32-bit sums, and where the code would read outside the data; what it accepts is SofFile.VerdictBytes. |
| `SofFile.VerdictMeans` | kernel/format/sof.c:444-524 | For a parsed file whose sums do not wrap around, verification stays inside the data and passes exactly an unsigned file, or one whose certificate names and is signed by the root and whose subject key signs the payload hash. |
| `SofFile.VerdictBytes` | kernel/format/sof.c:444-524 | On the bytes of the file: a signed file passes exactly when the 196-byte section and the payload lie in it, the section starts with the magic and the first half of the root key's hash, the root's signature verifies over the first 68 bytes, subject key included, and the subject key's signature over the hash of the payload. |
| `SofFile.CertBytes` | kernel/crypto/cert.c:119-150 | The bytes of a built certificate: magic, first half of the issuer key's hash, subject key, and the issuer's signature of exactly those 68 bytes. |
| `SofFile.OutsideWraps` | kernel/format/sof.c:462-471 | Verification of a parsed file reads outside the data only if one of its two sums wraps around. |
| `SofFile.SignatureOutside` | kernel/format/sof.c:462-474 | Counterexample: a file of 37 bytes parses, and its verification reads outside of it under any key. |
| `SofFile.SignedAccepted` | kernel/format/sof.c:444-591 | A file signed with a key that the root certified passes verification, assuming only that verifying accepts what signing produces. |
| `SofFile.CertRoundTrip` | kernel/crypto/cert.c:43-163 | Parsing a serialized certificate gives it back. |
| `SofFile.BuiltCert` | kernel/crypto/cert.c:119-150 | A built certificate names its issuer and is accepted under the issuer's key. |
| `Clock.Service.SetThenRead` | kernel/clock/clock_service.c:114-167 | After a permitted set to t, a read d hardware seconds later gives the calendar date d seconds after t, weekday aside. |
| `Clock.Service.GetTime` | kernel/clock/clock_service.c:114-141 | Without an offset the hardware's fields are passed on; with one, any fields, well-formed or not, give the valid date of their count moved by the offset, no earlier than 2000, with the hardware's weekday; failures of the hardware are passed on. |
| `Clock.Service.SetTime` | kernel/clock/clock_service.c:143-167 | For a permitted subject the offset becomes the difference of the counts of the two sets of fields, well-formed or not; otherwise nothing changes. |
| `Clock.TimeToEpoch` | kernel/clock/clock_service.c:54-69 | The loops count any fields without 32-bit overflow as long as the count itself fits; of a valid date the count is the seconds since 2000. |
| `Clock.EpochToTime` | kernel/clock/clock_service.c:71-106 | The loops find the valid date with that count; a negative count is taken as zero. |
| `Clock.RoundTrip` | kernel/clock/clock_service.c:54-106 | Converting to seconds and back gives the date exactly when it is valid, and otherwise the valid date with the same count. |
| `Clock.TickCounts` | kernel/clock/clock_service.c:37-69 | The count goes up by one each second of the Gregorian calendar. |
| `Clock.MonthStartIs` | kernel/clock/clock_service.c:34-49 | Where each month starts in the year, in closed form with the leap-year rule. |
| `Clock.YearStartIs` | kernel/clock/clock_service.c:37-61 | Where each year starts: 365 days each since 2000 and one for each leap year, in closed form. |
| `Clock.RawIs` | kernel/clock/clock_service.c:54-69 | The count of any fields, well-formed or not, in closed form. |
| `Clock.SameTime` | kernel/clock/clock_service.c:71-106 | Two valid dates with the same count are the same. |

## Left out

- FsService.FileService: the device never fails and has at least 8255 blocks; the error returns of a failing device, and the guards against cluster numbers out of range, which a consistent volume never reaches, are not modelled.
- FsService.FileService: after an operation creates an entry that lookups do not see, its clusters are lost; lookups and contents are shown to be as before, but further operations on such a volume are not modelled.
- FsRuns.Client: a run ends with a create whose entry lookups do not see.
- FsService.FileService.ListDir: bytes of multi-character encodings are bytes like any other.
- Seeding the volume with built-in script binaries, signing keys and sample files (`fs_service_init` and its helpers).
- Packing25519.Sel25519: exchanges limbs directly; the masked exclusive-or form is proved equal to it on 64-bit words.
- Keys25519.UnpackNeg: when decoding fails, and that the (p-2)-th power is the inverse, is proved from Fermat's theorem for p, which is a hypothesis; the primality of p is not proved.
- The group law of the curve (associativity, order of the base point), key generation, and the assembly of sign and verify from hash, ladder and reduction.
- Sha512: big-endian loads and stores are written as sums and quotients instead of shifts.
- IpcModel: coroutine stacks and context switches are replaced by the state change; entry functions are arbitrary sequences of actions; a failing `getcontext` and a failing stack allocation do not occur.
- IpcModel: `ipc_call` is a send followed by a receive of the same process and has no step of its own; `ipc_recv_h` is a receive whose receiver is the handle's owner.
- IpcKernel.Kernel.DestroyProcess: the bulk revocation of the owner's capability handles is CapHandles.Table.RevokeSubject and is not repeated here.
- Resetting the scheduler or the process table while processes are registered.
- Deny markers written to the console, and the address-space bounds check itself, which is an input.
- CapHandles: resetting the table, after which generations start again.
- AuditLog.Log: event numbers and the count of lost events are unbounded; the 64-bit wrap after 2^64 events is not modelled. The text form of events.
- CapBroker.System: changes to the table that bypass the log (boot grants), the cascade events of the broker service, and the test inspectors.
- Kheap.Heap.Kfree: pointers into the arena that are not payload starts are outside the contract.
- SofFile.VerifySignature: what a read outside the data returns is not modelled; the answer is then absent.
- The application bundle stub, and the fallback between cached and built-in root keys, which is an input.
- Clock.Service.SetTime: counts that do not fit 32 bits, from 2068 on, are outside the contract, because signed overflow is undefined; so is a difference that does not fit.
- Formatting of dates and of the tick counter, and the hardware clock, which is an input.
- Console, sessions, framebuffer, mouse and other device code, module registry, system call stub and boot wiring.
