# OWFS and USFS: a verified model of the storage engines

OWFS and USFS are two small block filesystems over a caller-supplied device of
4096-byte blocks.  This project models their storage engines and the codecs and
checksums they share, and proves what their design depends on: that a file is a
sequence of bytes although it is scattered over direct and indirect blocks, is
encrypted block by block or moves when it grows; that no two files ever share a
block; that no operation makes the allocation accounting more or less right than
it was; that a catalog is a finite map; that every run of operations on a volume is
a run of an abstract filesystem, answer by answer; and that a crash after a mount
is noticed by the next mount, unless something settled the volume in between.

All of it is checked with

    dafny verify dfyconfig.toml

## How the model is built

A volume is a class that holds the device's blocks and the superblock in memory,
field by field, and whose methods and the methods working on it change them in
place.  Every device call may fail unless the volume is `healthy`; a failed write
leaves the block as it was.  A contract that does not mention `healthy` holds
under any failures.  Integers are unbounded in Dafny, so 32-bit arithmetic that
can wrap is written out.  The caller is the superuser.

- Shared: `Words` (bits, bytes, little-endian words), `Crc32c`, `Fletcher64`,
  `ChaCha20`, `Ciphers` (a block encrypted under its own number), `Sutf8`,
  `Bitmap`, `Layout`, the sequence helpers `Splice`, `Records`, `Ranges`, and the
  codecs on machine words: `WordBits` (integers as bit vectors), `ChaChaWords`
  (RFC 8439 with `+`, `^` and rotation) and `CrcWords` (the shift register).
- OWFS: `OwfsTypes` (records and their bytes), `OwfsVolume` (device, superblock,
  and the abstract state they stand for: used blocks, inode table, data),
  `OwfsBitmap`, `OwfsOwnership` (which blocks an inode owns), `OwfsBlockmap`,
  `OwfsContent`, `OwfsFile`, `OwfsInode`, `OwfsDirectory` (slots as a finite map),
  `OwfsCatalog`, `OwfsObjects` (the abstract filesystem), `OwfsEffects` (from the
  contracts of the operations to it), `OwfsState` (the flags as a state machine),
  `OwfsSync`, `OwfsFormat`, `OwfsRuns`, `OwfsAtRest` (where each byte of a file lies,
  masked or not), `OwfsAnswers` and `OwfsOnDevice`.
- USFS: `UsfsTypes` (entries and their bytes), `UsfsVolume`, `UsfsBitmap`,
  `UsfsContent`, `UsfsFile`, `UsfsEntry`, `UsfsObjects` (the abstract filesystem),
  `UsfsEffects`, `UsfsRuns`, `UsfsAtRest`, `UsfsAnswers` and `UsfsOnDevice`.
- `Veils` keeps large definitions closed to the verifier until a proof opens them:
  a closed predicate `P` means `PInFull`, and the lemma `OpenP` says so.

The heart of OWFS is the relation `StepOn(fs, fs', g, i)`: an operation on inode
`i` leaves every other inode and every used block that `i` did not own alone, and
whatever `i` owns afterwards it owned before or was free.  Every operation is
proved to be such a step, and `StepKeepsSound` shows that steps keep all maps
sound and pairwise disjoint.

None of this needs the free count to be right.  A volume is `Valid` whatever the
difference between the superblock's free count and the number of clear bits, its
`drift`; operations answer by both numbers (`Room` is the lesser), change both alike
and so keep the drift.  `Exact` says that it is zero.

`OwfsRuns` and `UsfsRuns` quantify over whole runs, from formatting on.  A volume
stands for a state of an abstract filesystem: for OWFS the flags, both counters, the
number of clear bits, and per inode number nothing, a file with every byte its blocks
hold, or a directory with its names, each bound to a number and a kind; for USFS the entry table, with the place of
every run, and what the runs hold.  `Next` computes what an operation answers and
leaves, and `Play` a whole run; one operation on a volume is one `Next`
(`Perform`), and a run is a `Play` (`RunAll`), determined by where it starts
(`Determined`).  What blocks appended to an encrypted file show depends on where they
lie, and blocks appended to a USFS file are not cleared; these bytes are a parameter
of `Next`, and `NextAlike` shows that nothing else depends on them.

`OwfsAnswers` and `UsfsAnswers` say what `Next` answers and leaves without the
functions it is made of: each refusal and each success by the flag, bit, number or
count that decides it, and the state afterwards field by field.  `OwfsOnDevice` and
`UsfsOnDevice` say the same of the abstract state: which bytes and bits of which block
each part of it is, and what every stored record holds.

Crashes come in twice.  `OwfsState` is the state machine of the flags, with crashes
anywhere between its events.  In `OwfsSync` and `OwfsRuns` a crash is
`LoseMemory`: the device keeps its blocks and everything in memory becomes
arbitrary.  No file operation touches the superblock's block, whatever device calls
fail, so the two views meet in `OwfsRuns.MountRunCrash`.  A crashed volume that
mounts is in order for further runs, with the counters of the last superblock write
(`OwfsRuns.CrashAndMount`).

## What the proofs turned up

- Taking or giving back one block, or one inode, makes the superblock in memory fail
  its own validation, because allocation does not refresh the checksum: any change of
  one header word is noticed (`OwfsTypes.WordChangeNoticed`).  A check before the next
  superblock write then answers CORRUPT_SUPERBLOCK and stores ERROR
  (`OwfsSync.AllocateThenCheck`).  When both counters have changed the checksums may
  agree by accident; a volume passes exactly when the superblock in memory is
  authentic, its free count exact and its bitmap checksum absent or current
  (`OwfsSync.CheckVolume`).  After a sync only the free count matters
  (`OwfsSync.SyncThenCheck`).
- Catalog insertion takes any failure of its lookup for the absence of the name.  When
  the name is bound, the lookup's read fails and the write of the new slot succeeds, the
  catalog ends up with two live entries of that name.  Under any failures, a successful
  insertion leaves the catalog tidy if and only if the name was not bound before, and a
  failed one changes no name (`OwfsCatalog.CatalogInsert`).
- File operations do not set DIRTY again after a sync.  A crash after a mount is
  noticed exactly when nothing was synced since; otherwise the next mount succeeds,
  with every file as it was but with both counters as of the last sync
  (`OwfsRuns.MountRunCrash`).  A sync, one allocation and a crash give a volume that
  mounts without complaint and whose free count is wrong (`OwfsSync.AllocateThenCrash`).
- A wrong free count never heals and never spreads: every operation keeps the
  difference, no block is ever shared because of it, and it changes only whether there
  is room: an allocation is refused when the count or the bitmap has run out
  (`OwfsBitmap.BitmapAlloc`, `OwfsObjects.NextKeeps`).  Syncing does not help: the check
  then finds exactly that one fault (`OwfsSync.SyncThenCheck`).
- An OWFS write that runs out of space keeps the blocks it took: they are marked used
  and belong to no file, and the volume is left without a free block, or with one,
  exactly when that one could not be both the eleventh data block and the indirect
  block (`OwfsFile.FileWrite`, `OwfsFile.Wasted`, `OwfsFile.Leftover`).
- A USFS write sets the size to the end of the write in 32 bits, and positions past
  2^32 - 1 go on at the start of the file (`UsfsFile.FileWrite`).  What was written
  reads back exactly when the end is below 2^32 (`UsfsFile.ReadsBackIff`).
- `usfs_block_free` does not look at the bits: the free count stays exact if and
  only if the whole run was in use (`UsfsBitmap.BlockFree`).
- Freeing a USFS entry that is already deleted decrements the entry count again;
  the count stays right exactly for live entries (`UsfsEntry.EntryFree`), over a run
  it lags behind by at most the number of such frees, and a run without them keeps it
  exact (`UsfsRuns.RunAll`).
- A USFS operation on a failing device may leave the accounting wrong, but no block
  that was marked used has changed, except the operated file's own; so every other
  file still reads the same (`UsfsContent.MarkedReadTheSame`, `UsfsRuns.Perform`).
- OWFS truncation does not clear the last block; the tail stays zero exactly when
  what was cut off inside that block was zero (`OwfsFile.TruncateZeroTail`).
- The USFS layout loop finds the least bitmap exactly for totals with
  `total <= 32786` or `(total - 19) % 32768 + 2 > (total - 19) / 32768`; at 65555 it
  does not.  Above 2^32 - 32750 blocks its bitmap does not
  cover the data region (`Layout.UsfsLayoutBitmapBlocks`, `Layout.UsfsLayoutNotLeast`).
- A write beyond the end of an unencrypted OWFS file fills the gap with zeros if and
  only if the file's blocks held zeros there (`OwfsFile.WriteFillsGaps`,
  `OwfsObjects.OverwrittenReads`).
- The OWFS inode counter is one more than the number of vacant slots from
  formatting on, and stays so (`OwfsRuns.Lifetime`).
- Formatting works on a superblock of its own and leaves the caller's alone, so the
  volume has to be mounted before it is used (`OwfsFormat.FormatVolume`).

## Model

| member | source | states |
|---|---|---|
| Crc32c.OwCrc32c | common/src/ow_checksum.c:17-24 | the byte loop computes the bit-serial reflected CRC with the Castagnoli polynomial |
| Crc32c.OwCrc32cStruct | common/src/ow_checksum.c:54-65 | the struct CRC is the CRC of the record with its checksum field zeroed |
| Crc32c.StructCrcIs | common/src/ow_checksum.c:54-65 | written out: zeros in four bytes, then the CRC of the whole |
| CrcWords.ShiftValue | common/src/ow_checksum.c:7-13 | one step is the shift of a 32-bit register, with 0x82F63B78 laid over it when the bit shifted out is one |
| CrcWords.ByteAtOnce | common/src/ow_checksum.c:5-15 | laying a byte over the register and shifting eight times feeds its bits in one by one |
| CrcWords.Polynomial | common/src/ow_checksum.c:9 | the exponents of the Castagnoli polynomial, in reflected order |
| CrcWords.CheckValue | common/src/ow_checksum.c:17-24 | the CRC of the nine digits 1 to 9 is 0xE3069283 |
| Crc32c.CrcChains | common/src/ow_checksum.c:17-24 | continuing a CRC over a second buffer is the CRC of the concatenation |
| Crc32c.StepInjective | common/src/ow_checksum.c:5-15 | the bit step is injective on 32-bit states |
| Crc32c.BurstDetected | common/src/ow_checksum.c:5-24 | two buffers that differ only within four consecutive bytes have different CRCs |
| Crc32c.StampVerifies | common/src/ow_checksum.c:54-65 | a record whose computed checksum is stored in it verifies, whatever the field held before |
| Crc32c.CorruptionNoticed | common/src/ow_checksum.c:54-65 | a change within four consecutive bytes outside the checksum field makes a verifying record fail |
| Fletcher64.OwFletcher64 | common/src/ow_checksum.c:26-52 | the loop with its padded last word computes both running sums |
| Fletcher64.RunClosedForm | common/src/ow_checksum.c:26-52 | the two sums are the plain and the weighted sum of the words modulo 2^32 - 1 |
| Fletcher64.FletcherIs | common/src/ow_checksum.c:26-52 | so the result is the weighted sum modulo 0xFFFFFFFF above, the plain sum modulo 0xFFFFFFFF below |
| Fletcher64.WordIs | common/src/ow_checksum.c:33-50 | four bytes to a word, least significant first, and zeros for the bytes missing at the end |
| Fletcher64.FletcherExample | common/src/ow_checksum.c:26-52 | eight bytes and their checksum in numbers |
| Fletcher64.FletcherHoldsBoth | common/src/ow_checksum.c:26-52 | both sums stay below 2^32 - 1 and two results are equal exactly when both sums are |
| Fletcher64.FlipDetected | owfs/src/owfs_bitmap.c:34-59 | flipping any one bit changes the checksum |
| Fletcher64.MoveDetected | owfs/src/owfs_bitmap.c:34-59 | moving one set bit to any clear position changes the checksum |
| ChaCha20.ChachaQr | common/src/ow_crypto.c:29-34 | the in-place quarter round of section 2.1 of RFC 8439 |
| ChaCha20.ChaCha20Block | common/src/ow_crypto.c:53-76 | the block function of section 2.3 of RFC 8439 |
| ChaCha20.InitialStateIs | common/src/ow_crypto.c:36-51 | the state the block starts from: the four constants, eight words of the key, the counter, three words of the nonce |
| WordBits.SumValue | common/src/ow_crypto.c:30-33 | the wrapping sum of two numbers is `+` on 32-bit words |
| WordBits.XorValue | common/src/ow_crypto.c:30-33 | the exclusive or of two numbers is `^` on 32-bit words |
| WordBits.Left16Value | common/src/ow_crypto.c:11-13 | quotient and remainder put together the other way round are the rotation of the word by 16 |
| WordBits.Left12Value | common/src/ow_crypto.c:11-13 | the same by 12 |
| WordBits.Left8Value | common/src/ow_crypto.c:11-13 | the same by 8 |
| WordBits.Left7Value | common/src/ow_crypto.c:11-13 | the same by 7 |
| ChaChaWords.QuarterValue | common/src/ow_crypto.c:29-34 | the quarter round is the one of section 2.1 of RFC 8439 on 32-bit words |
| ChaChaWords.MatrixOf | common/src/ow_crypto.c:36-51 | every state is the numbers of sixteen words, so this holds of all states |
| ChaChaWords.QuarterExample | common/src/ow_crypto.c:29-34 | it gives the values of section 2.1.1 |
| ChaChaWords.BlockValue | common/src/ow_crypto.c:53-76 | the block is the state after ten double rounds on 32-bit words plus the state before, word by word |
| ChaChaWords.BlockExample | common/src/ow_crypto.c:53-76 | for the key, counter and nonce of section 2.3.2 it is the keystream printed there |
| ChaCha20.ChaCha20Xor | common/src/ow_crypto.c:78-95 | the in-place loop is the exclusive or with the keystream, counter wrapping at 2^32 |
| ChaCha20.CryptByte | common/src/ow_crypto.c:78-95 | byte `k` is masked with byte `k % 64` of the key block `counter + k / 64`, in 32 bits |
| ChaCha20.CryptInvolution | common/src/ow_crypto.c:78-95 | applied twice it is the identity, for every length and counter |
| ChaCha20.CryptSplits | common/src/ow_crypto.c:78-95 | it splits at any multiple of 64 bytes with the counter advanced by the block count modulo 2^32 |
| Sutf8.DecodeEncoded | common/src/ow_string.c:20-90 | every code point's encoding decodes to it, whatever follows |
| Sutf8.DecodedWasEncoded | common/src/ow_string.c:20-90 | whatever decodes is the one encoding of its code point |
| Sutf8.EncodedLength | common/src/ow_string.c:20-90 | which code points take one to six bytes, the boundary at 0x110000 and the reserved top included |
| Sutf8.EncodedBytes | common/src/ow_string.c:20-90 | the one to four bytes of a code point below 0x110000 |
| Sutf8.EncodedLongBytes | common/src/ow_string.c:20-90 | the five or six bytes of the others |
| Sutf8.CodePoints | common/src/ow_string.c:20-90 | which numbers have an encoding |
| Sutf8.Validate | common/src/ow_string.c:92-106 | accepts exactly the valid names |
| Sutf8.ValidIsEncoding | common/src/ow_string.c:92-106 | a valid name is the concatenation of the encodings of its code points |
| Sutf8.EncodingIsValid | common/src/ow_string.c:92-106 | every concatenation of encodings is valid and decodes to its code points |
| Sutf8.OwNameCmp | common/src/ow_string.c:108-132 | the position-advancing loop computes the recursive comparison |
| Sutf8.NameCmpIsLexCmp | common/src/ow_string.c:108-132 | on valid names the comparison is bytewise lexicographic order |
| Sutf8.NameCmpZero | common/src/ow_string.c:108-132 | on any two byte strings it is zero exactly for equal valid names |
| Sutf8.NameCmpTotalOrder | common/src/ow_string.c:108-132 | on valid names it is a total order |
| Ciphers.CryptoXform | owfs/src/owfs_file.c:18-23 | with encryption on, byte `k` of the result is byte `k` of the block, exclusive or byte `k % 64` of the keystream block `b + k / 64`, in 32 bits; without it the block is unchanged |
| OwfsAtRest.ByteOnDevice | owfs/src/owfs_file.c:13-23 | a byte of a file lies on the device in the block of its page, masked with the keystream at that block's number if volume and inode are both encrypted, in the clear otherwise |
| OwfsAtRest.WriteAtRest | owfs/src/owfs_file.c:131-168 | after a write every byte of the buffer lies on the device so |
| UsfsAtRest.ByteOnDevice | usfs/src/usfs_file.c:10-29 | the same for the run of a USFS file |
| UsfsAtRest.WriteAtRest | usfs/src/usfs_file.c:150-172 | after a write that ends below 2^32 every byte of the buffer lies on the device so |
| Layout.OwfsAcceptsExactly | owfs/src/owfs_format.c:36-68 | formatting accepts exactly the sizes from 275 up to where the bitmap size wraps, and there it wraps to zero |
| Layout.OwfsLayoutLeast | owfs/src/owfs_format.c:40-68 | the bitmap is the least that covers the nonempty data region it leaves, and no bit index leaves 32 bits |
| Layout.UsfsLayoutBitmapBlocks | usfs/src/usfs_format.c:11-28 | the loop increases at most once, never returns 0 from 19 blocks on, covers the data region exactly up to 2^32 - 32750 blocks, and there is least exactly for the snug totals |
| Layout.LeastIffSnug | usfs/src/usfs_format.c:11-28 | for every total, no smaller bitmap covers the data region it leaves if and only if a condition on quotient and remainder of the total holds |
| Layout.UsfsLayoutNotLeast | usfs/src/usfs_format.c:11-28 | run at 65555 blocks, a total that is not snug, the loop settles on 3 bitmap blocks where 2 cover |
| OwfsTypes.InodeRoundTrip | owfs/include/owfs_inode.h:11-30 | reading a stored inode gives the inode that was stored |
| OwfsTypes.EntryRoundTrip | owfs/include/owfs_catalog.h:8-15 | reading a stored catalog entry gives the entry that was stored |
| OwfsTypes.SuperRoundTrip | owfs/src/owfs_superblock.c:31-58 | reading a stored superblock gives the superblock that was stored |
| OwfsTypes.SuperWritten | owfs/src/owfs_superblock.c:31-58 | storing the superblock read from a block gives the block back, whatever it holds |
| OwfsOnDevice.SuperOnDevice | owfs/include/owfs_superblock.h:6-28 | every field of the superblock and its place in block 16; it is authentic exactly by magic number, block size and the CRC of the block |
| OwfsOnDevice.RegionsOnDevice | owfs/src/owfs_format.c:44-68 | where bitmap, inode table and data lie |
| OwfsOnDevice.InodeOnDevice | owfs/include/owfs_inode.h:11-30 | every field of an inode and its place in the slot of its number; a slot in use has the right CRC |
| OwfsOnDevice.EntryOnDevice | owfs/include/owfs_catalog.h:8-15 | every field of a catalog entry and its place in the blocks of the catalog |
| OwfsOnDevice.BitOnDevice | owfs/src/owfs_bitmap.c:98-126 | a data block is used exactly if its bit is set: from block 17 on, eight to a byte, least significant first |
| OwfsOnDevice.StockOnDevice | owfs/src/owfs_bitmap.c:88-128 | the free count of the superblock, and the data blocks that are not used |
| OwfsOnDevice.BlockOnDevice | owfs/src/owfs_blockmap.c:24-53 | the block behind an index: a direct pointer, or four little-endian bytes of the indirect block; it lies in the data region |
| OwfsTypes.SealVerifies | owfs/src/owfs_inode.c:29-41 | an inode sealed with its checksum verifies |
| OwfsTypes.WordChangeNoticed | owfs/src/owfs_superblock.c:14-29 | a superblock that verifies fails once any one word of its header changes |
| OwfsTypes.CountChangeNoticed | owfs/src/owfs_superblock.c:14-29 | so one changed counter, of free blocks or of free inodes, fails validation |
| OwfsVolume.SlotRead | owfs/src/owfs_inode.c:52-78 | a slot is read and its checksum tested, whatever the device holds |
| OwfsVolume.InodeRead | owfs/src/owfs_inode.c:52-78 | on a valid volume the read is the table entry and never a checksum mismatch |
| OwfsVolume.InodeWrite | owfs/src/owfs_inode.c:80-112 | exactly one table entry changes, sealed; all other regions keep their meaning |
| OwfsBitmap.FirstClear | owfs/src/owfs_bitmap.c:98-126 | the nested scan finds the first clear bit, or every bit is set |
| OwfsBitmap.BitmapAlloc | owfs/src/owfs_bitmap.c:88-128 | allocates the lowest free data block; NO_FREE_BLOCKS exactly when the count is zero or no bit is clear; count and clear bits both drop by one, whether they agree or not |
| OwfsBitmap.BitmapFree | owfs/src/owfs_bitmap.c:130-162 | removes one block from the used set and counts it, in 32 bits, only if it was in it |
| OwfsBitmap.ComputeFletcher | owfs/src/owfs_bitmap.c:34-59 | the block-streamed sum is the checksum of the concatenated bitmap |
| OwfsBitmap.CountFree | owfs/src/owfs_bitmap.c:61-86 | the recount is the number of clear bits over the data region |
| OwfsBitmap.RecountAgrees | owfs/src/owfs_bitmap.c:61-86 | it equals the superblock's count exactly when the accounting is exact |
| OwfsOwnership.StepKeepsSound | owfs/src/owfs_blockmap.c:71-192 | every step on one inode keeps all maps sound, in the data region, marked used and pairwise disjoint, and leaves the others' blocks alone |
| OwfsOnDevice.BlocksApart | owfs/src/owfs_blockmap.c:71-130 | on a sound volume two different places in files or directories are two different blocks, and both are used |
| OwfsOwnership.OwnedSize | owfs/src/owfs_blockmap.c:71-130 | an inode with n mapped blocks owns exactly n blocks, and past ten one more for the indirect block |
| OwfsBlockmap.BlockmapGet | owfs/src/owfs_blockmap.c:24-53 | the translation through direct pointers or the indirect block |
| OwfsBlockmap.AllocAndZero | owfs/src/owfs_blockmap.c:55-69 | a fresh zeroed block, or the allocation is undone |
| OwfsBlockmap.BlockmapEnsure | owfs/src/owfs_blockmap.c:71-130 | maps the next block and creates the indirect block for the eleventh; a failure leaves the inode as it was, and the used set and free count too but for the blocks whose giving back failed, at most as many as were needed |
| OwfsBlockmap.BlockmapRelease | owfs/src/owfs_blockmap.c:132-192 | frees exactly what the inode owned from an index on, the indirect block included when no more than ten remain; count and clear bits grow by exactly that many |
| OwfsBlockmap.GrowThenRelease | owfs/src/owfs_blockmap.c:71-192 | growing by any number of blocks and releasing restores the inode and the used set |
| OwfsFile.EnsureBlocks | owfs/src/owfs_file.c:25-35 | appends zeroed blocks, taking exactly the demanded number of free blocks; when they are missing it stops with none left, or with one exactly when that one could not be both the eleventh block and the indirect block |
| OwfsFile.EnsureThenRelease | owfs/src/owfs_blockmap.c:71-192 | the two methods in sequence restore inode, used set and free count |
| OwfsFile.FileRead | owfs/src/owfs_file.c:37-85 | returns exactly the file's bytes at the offset, cut off at the size |
| Splice.SliceIs | owfs/src/owfs_file.c:52-57 | which bytes a read returns: from the offset on, as many as asked for if the file has them |
| OwfsFile.FileWrite | owfs/src/owfs_file.c:87-185 | on a working device OK exactly for a file on a volume without LOCKED and ERROR, both security words without bit 1, an end of at most 4235264 bytes and enough free blocks, and for any other case its own refusal; the piece laid over the file with zeroed blocks appended; size the maximum; free count and clear bits fall by exactly the blocks taken, and on NO_FREE_BLOCKS by exactly what is wasted, with the file's bytes and blocks unchanged; a step on its inode alone under any failures |
| OwfsFile.WriteReadsBack | owfs/src/owfs_file.c:87-185 | the written range reads back and every other byte below the old size is unchanged |
| OwfsFile.WriteFillsGaps | owfs/src/owfs_file.c:87-185 | an unencrypted file becomes the byte sequence with a zero-filled gap if and only if its blocks held zeros in the gap |
| OwfsFile.WriteZeroTail | owfs/src/owfs_file.c:87-185 | the tail past the new end is zero if and only if the old blocks held zeros there |
| OwfsFile.WriteThenRead | owfs/src/owfs_file.c:37-185 | after a write that reports every byte, reading the range returns the buffer |
| OwfsFile.FileTruncate | owfs/src/owfs_file.c:187-227 | on a working device OK exactly for a file on a volume without LOCKED and ERROR, both security words without bit 1; the blocks past the new end are freed and counted, and nothing of other inodes changes |
| OwfsFile.TruncateKeepsPrefix | owfs/src/owfs_file.c:187-227 | the bytes below the new size are kept |
| OwfsFile.TruncateZeroTail | owfs/src/owfs_file.c:215-226 | the tail is zero afterwards exactly when the bytes cut off inside the last block were |
| OwfsFile.OthersReadTheSame | owfs/src/owfs_file.c:87-227 | no operation on one inode changes a byte that another reads, under any cipher |
| OwfsInode.InodeAlloc | owfs/src/owfs_inode.c:114-170 | takes the first vacant slot for an empty inode; exact refusals; counter and vacant slots both drop by one |
| OwfsInode.InodeFree | owfs/src/owfs_inode.c:172-212 | deletes a live inode and gives back exactly its blocks, as many as its block count and one more past ten; counter and vacant slots both grow by one; a deleted one is left alone |
| OwfsOnDevice.NewIs | owfs/src/owfs_inode.c:145-158 | the record of a new inode, field by field |
| OwfsOnDevice.AllocatedIs | owfs/src/owfs_inode.c:138-166 | it goes into the first slot that is empty or deleted, and no other changes |
| OwfsOnDevice.FreedIs | owfs/src/owfs_inode.c:199-209 | what deletion leaves of an inode, field by field |
| OwfsDirectory.DirFill | owfs/src/owfs_catalog.c:145-164 | filling a vacant slot with a new name adds one binding, to the entry's number and kind, keeps all others and keeps names unique |
| OwfsDirectory.DirKill | owfs/src/owfs_catalog.c:221-236 | killing a slot removes exactly its binding |
| OwfsDirectory.DirExtend | owfs/src/owfs_catalog.c:168-184 | a fresh block with one entry adds one binding, to its number and kind |
| OwfsDirectory.DirAmbiguous | owfs/src/owfs_catalog.c:119-122 | a second live slot under a bound name, reused or fresh, makes the name ambiguous |
| OwfsDirectory.ListIsDir | owfs/src/owfs_catalog.c:259-286 | the live entries are exactly the bindings, numbers and kinds included, each name once |
| OwfsDirectory.LiveOnesAt | owfs/src/owfs_catalog.c:259-286 | a listing is in slot order: a live entry comes after as many as are live before it |
| OwfsOnDevice.NamesOnDevice | owfs/src/owfs_catalog.c:80-96 | a name is bound exactly if a live slot carries it, to that slot's number and kind |
| OwfsCatalog.CatalogLookup | owfs/src/owfs_catalog.c:53-99 | the value of the map, or NOT_FOUND exactly when it has none |
| OwfsCatalog.CatalogInsert | owfs/src/owfs_catalog.c:101-185 | on a working device adds one binding, to the given number and kind, or ALREADY_EXISTS, or CATALOG_FULL exactly when no slot and no block is left; a success takes blocks exactly when every slot was live, and as many as the next block of the catalog needs; under any failures a success leaves names unique if and only if the name was unbound, and a failure changes no name; the record goes into the first vacant slot and no other slot changes |
| OwfsCatalog.CatalogRemove | owfs/src/owfs_catalog.c:187-240 | removes exactly one binding, or NOT_FOUND; one record is marked and resealed, no other slot changes |
| OwfsOnDevice.EnteredIs | owfs/src/owfs_catalog.c:143-184 | which slot an insertion changes and what its record then holds, field by field |
| OwfsOnDevice.StruckIs | owfs/src/owfs_catalog.c:219-236 | which slot a removal changes, and how |
| OwfsCatalog.CatalogList | owfs/src/owfs_catalog.c:242-286 | the live entries in slot order, as many as fit |
| OwfsDirectory.TakeIs | owfs/src/owfs_catalog.c:276-281 | a listing that does not fit is cut off |
| OwfsCatalog.ListFindsAll | owfs/src/owfs_catalog.c:242-286 | with enough room the listing is what lookup finds, each name once |
| OwfsCatalog.StepKeepsTidy | owfs/src/owfs_catalog.c:101-240 | a step on one inode keeps every other catalog tidy |
| OwfsObjects.CreateUndone | owfs/src/owfs_catalog.c:288-328 | a creation that fails leaves both counters, the blocks, every file and every name as they were; only the kind of a vacant slot may differ |
| OwfsObjects.CreateBinds | owfs/src/owfs_catalog.c:288-328 | under a live directory creation answers ALREADY_EXISTS exactly for a bound name and otherwise whether there is room; it adds one empty object under the least vacant number and one name for it |
| OwfsAnswers.CreateAnswers | owfs/src/owfs_catalog.c:288-328 | in a live directory, every answer of a creation by what decides it |
| OwfsAnswers.CreateLeaves | owfs/src/owfs_catalog.c:288-328 | what a creation leaves, counters, blocks, the new object and its binding to number and kind included |
| OwfsAnswers.WriteAnswers | owfs/src/owfs_file.c:87-125 | every answer of a write by the flag, bit, size or count that decides it |
| OwfsAnswers.WriteLeaves | owfs/src/owfs_file.c:127-185 | what a write leaves: blocks taken, size, and every byte of the file's blocks |
| OwfsAnswers.WriteRunsOut | owfs/src/owfs_file.c:25-35 | what a write leaves that runs out of blocks: no object changed, and no free block, or one before the indirect block |
| OwfsAnswers.TruncateAnswers | owfs/src/owfs_file.c:187-209 | every answer of a truncation |
| OwfsAnswers.TruncateLeaves | owfs/src/owfs_file.c:214-227 | what it leaves: blocks given back, size, and the bytes kept |
| OwfsAnswers.AllocateAnswers | owfs/src/owfs_inode.c:114-170 | every answer of an allocation |
| OwfsAnswers.AllocateLeaves | owfs/src/owfs_inode.c:138-166 | the first vacant number stands for an empty file or directory |
| OwfsAnswers.FreeAnswers | owfs/src/owfs_inode.c:172-198 | every answer of a deletion |
| OwfsAnswers.FreeLeaves | owfs/src/owfs_inode.c:199-212 | what it leaves: kind marked, body empty, blocks and number counted in 32 bits |
| OwfsAnswers.BindAnswers | owfs/src/owfs_catalog.c:101-172 | every answer of an insertion |
| OwfsAnswers.BindLeaves | owfs/src/owfs_catalog.c:135-184 | one more name with its number and kind; one more block, or two with the indirect one, if no slot was vacant |
| OwfsAnswers.UnbindAnswers | owfs/src/owfs_catalog.c:187-240 | every answer of a removal |
| OwfsAnswers.UnbindLeaves | owfs/src/owfs_catalog.c:219-236 | one name less, nothing else |
| OwfsAnswers.NextIs | owfs/src/owfs_catalog.c:288-328 | which of these each operation of a run is; syncing clears DIRTY and LOCKED |
| OwfsObjects.BindThenUnbind | owfs/src/owfs_catalog.c:101-240 | unbinding a name just bound succeeds and gives back the names there were |
| OwfsObjects.OverwrittenReads | owfs/src/owfs_file.c:87-185 | a written file reads back the buffer and keeps every other byte; a clear file has zeros in the gap if and only if its blocks held zeros there |
| OwfsObjects.CutReads | owfs/src/owfs_file.c:187-227 | a truncated file reads as the prefix |
| OwfsObjects.NextAlike | owfs/src/owfs_file.c:25-35 | answers, counters, names, sizes and the bytes of clear files do not depend on what encrypted files hold |
| OwfsObjects.NextKeeps | owfs/src/owfs_bitmap.c:88-162 | no operation changes how far either counter of the superblock is from the truth, in 32 bits |
| OwfsObjects.PlayKeeps | owfs/src/owfs_bitmap.c:88-162 | and no run does |
| OwfsEffects.StepEffect | owfs/src/owfs_blockmap.c:71-192 | a step on one inode changes no other file's bytes and no other directory's names |
| OwfsEffects.WriteEffect | owfs/src/owfs_file.c:87-185 | a write does to the volume what the abstract write does to the state, counters and every byte the blocks hold included |
| OwfsEffects.TruncateEffect | owfs/src/owfs_file.c:187-227 | so does a truncation: the file keeps the whole of its last block |
| OwfsEffects.BindEffect | owfs/src/owfs_catalog.c:101-185 | so does an insertion, the growing of a full directory included |
| OwfsEffects.AllocateEffect | owfs/src/owfs_inode.c:114-170 | so does an allocation, under the least vacant number |
| OwfsEffects.FreeEffect | owfs/src/owfs_inode.c:172-212 | so does a deletion, with the exact number of blocks given back |
| OwfsOnDevice.NowIs | owfs/src/owfs_sync.c:16-27 | the flags, security word and counters of the abstract state are those of the volume |
| OwfsOnDevice.ObjectIs | owfs/src/owfs_file.c:13-16 | what an inode number stands for, by the bits of its kind and of the security words |
| OwfsOnDevice.HeldRests | owfs/src/owfs_file.c:37-85 | what a file holds are the bytes of its blocks on the device, unmasked |
| OwfsState.ErrorIsSticky | owfs/src/owfs_sync.c:29-174 | in every run, ERROR is cleared only by a check without findings or a reformat |
| OwfsState.CrashIsNoticed | owfs/src/owfs_sync.c:76-174 | after a mount, after marking a volume without ERROR, or from the start of a scan, a crash makes the next mount answer VOLUME_DIRTY with LOCKED on the device, unless something settled the volume first |
| OwfsState.MarkingFlags | owfs/src/owfs_sync.c:29-74 | the flags after marking, syncing and unmounting, each written out, and the answers |
| OwfsState.CheckingFlags | owfs/src/owfs_sync.c:76-131 | the flags from the start of a scan to its end, and the answers |
| OwfsState.MountingFlags | owfs/src/owfs_sync.c:133-155 | the flags after mounting: any of the three forbids it, and LOCKED is then set unless ERROR is |
| OwfsState.LosingFlags | owfs/src/owfs_format.c:26-128 | formatting writes no flag; it and a crash lose what was in memory |
| OwfsState.SettledMounts | owfs/src/owfs_sync.c:37-74 | a volume settled without ERROR mounts again |
| OwfsSync.SuperWrite | owfs/src/owfs_superblock.c:45-58 | the device then holds the superblock in memory, sealed; nothing else changes |
| OwfsSync.SuperRead | owfs/src/owfs_superblock.c:31-43 | memory then holds what the device does, and the answer says whether it is authentic |
| OwfsSync.MarkVolumeDirty | owfs/src/owfs_sync.c:29-35 | DIRTY is set and no other flag changes, in memory and on the device; the state machine's event; the whole superblock in memory is then on the device |
| OwfsSync.MarkVolumeClean | owfs/src/owfs_sync.c:37-54 | DIRTY and LOCKED are cleared, refused under ERROR; the state machine's event; the whole superblock in memory is then on the device |
| OwfsSync.SyncChanges | owfs/src/owfs_sync.c:56-74 | DIRTY and LOCKED are cleared and ERROR is kept; the state machine's event; the stored checksum is then that of the bitmap |
| OwfsSync.ConsistencyCheck | owfs/src/owfs_sync.c:76-131 | on any device contents the findings are counted exactly; OK clears the three flags, any other answer sets ERROR and LOCKED; the state machine's events, through the lock |
| OwfsSync.HeldFindings | owfs/src/owfs_sync.c:97-115 | on a volume whose blocks stand for files at all the scan finds at most two things: a stale bitmap checksum and a wrong free count |
| OwfsOnDevice.FindingsAre | owfs/src/owfs_sync.c:97-115 | a check finds the slots in use with a wrong CRC, a bitmap checksum that is neither zero nor right, a free count that is not the number of clear bits |
| OwfsOnDevice.SumIs | owfs/src/owfs_bitmap.c:34-59 | the bitmap checksum is Fletcher-64 of the blocks from 17 on |
| OwfsSync.BadSlot | owfs/src/owfs_inode.c:52-78 | a slot counts as bad if its kind is not zero and its last four bytes are not the CRC of its record |
| OwfsSync.CheckVolume | owfs/src/owfs_sync.c:76-131 | passes if and only if the superblock in memory is authentic, the free count exact and the bitmap checksum absent or current; otherwise the answer, the exact number of findings and the flags ERROR and LOCKED |
| OwfsSync.AllocateThenCheck | owfs/src/owfs_sync.c:82-88 | one block taken and a check before syncing end in CORRUPT_SUPERBLOCK with ERROR and LOCKED on the device |
| OwfsSync.SyncThenCheck | owfs/src/owfs_sync.c:56-131 | syncing and checking answers OK with zero findings and clears every flag if and only if the free count is right; otherwise the wrong count is the one finding |
| OwfsSync.FlipMakesStale | owfs/src/owfs_sync.c:107-110 | any single-bit change of the bitmap makes the stored checksum stale |
| OwfsSync.MoveMakesStale | owfs/src/owfs_sync.c:107-110 | so does freeing one block and allocating another |
| OwfsSync.MountVolume | owfs/src/owfs_sync.c:133-155 | succeeds exactly on an authentic superblock with none of the flags; the state machine's event; memory then holds the device's superblock; a volume whose blocks stand for files is valid again, and exact exactly when the free count on the device is right |
| OwfsSync.AllocateThenCrash | owfs/src/owfs_sync.c:56-155 | after a sync, one allocation and a crash the mount succeeds, with files intact, and the free count is one too high |
| OwfsSync.UnmountVolume | owfs/src/owfs_sync.c:157-174 | the state machine's event, refused under ERROR; the whole superblock in memory is then on the device |
| OwfsFormat.FormatVolume | owfs/src/owfs_format.c:26-128 | accepts exactly the sizes whose layout works; the device then holds an empty root, its record given field by field, an authentic superblock with the label, the nonce, no keys, a mount count of zero and the regions of the layout, and the flags the state machine says, while the caller's superblock is as before |
| OwfsRuns.CatalogCreate | owfs/src/owfs_catalog.c:288-328 | is the abstract creation: the first vacant inode, made new and bound to the name, or freed again; a failure spares every live inode |
| OwfsRuns.Perform | owfs/src/owfs_catalog.c:101-328 | every operation on a volume in order, whatever its free count, answers and leaves exactly what the abstract one does, keeps the volume in order and spares every inode it is not about; only syncing touches the superblock's block |
| OwfsRuns.Determined | owfs/src/owfs_inode.c:114-212 | two runs of the same operations from states that differ only in what encrypted files hold give the same answers, and such states all the way |
| OwfsRuns.RunAll | owfs/src/owfs_inode.c:114-212 | every run is the abstract run from the state the volume was in: the same answers, counters, names, sizes and clear bytes, with every state in between given by the one before; it keeps maps disjoint and catalogs tidy, and spares what it does not name; the device's superblock is that of the last sync, with the counters the abstract run then had |
| OwfsRuns.Lifetime | owfs/src/owfs_sync.c:56-131 | formatting, mounting, any run, sync and check: the answers, files, directories and counters are those of the abstract run from an empty root; both counters are right, the inode counter with its offset of one; the check answers OK with zero findings |
| OwfsOnDevice.NewStateIs | owfs/src/owfs_format.c:44-128 | the abstract state it starts from: an empty root of one block, every other number never used |
| OwfsOnDevice.TouchedIs | owfs/src/owfs_catalog.c:101-328 | a run is about exactly the inodes that its operations name |
| OwfsRuns.Remount | owfs/src/owfs_sync.c:133-174 | unmounting and mounting a volume in order without ERROR gives it back in order with the same files, names and counts |
| OwfsRuns.CrashAndMount | owfs/src/owfs_sync.c:133-155 | after a crash the mount answers by the flags on the device; the volume is in order, with every file and name as it was and both counters those on the device; it is exact if and only if that free count is the number of clear bits |
| OwfsRuns.MountRunCrash | owfs/src/owfs_sync.c:37-155 | after a mount, any run and a crash the next mount answers VOLUME_DIRTY and locks the volume exactly when the run did not sync; every file and name is as the run left it, and both counters are those the abstract run had at its last sync, or at the mount |
| OwfsOnDevice.LastSyncIs | owfs/src/owfs_sync.c:56-74 | up to where a run is covered by its last sync |
| UsfsTypes.EntryRoundTrip | usfs/src/usfs_entry.c:30-42 | reading a stored entry record gives the entry back, and its checksum verifies |
| UsfsOnDevice.EntryOnDevice | usfs/include/usfs_entry.h:7-25 | every field of an entry and its place in the slot of its number; a slot in use has the right CRC |
| UsfsOnDevice.BitOnDevice | usfs/src/usfs_bitmap.c:13-27 | a data block is used exactly if its bit is set; the free count counts the others |
| UsfsOnDevice.RunsOnDevice | usfs/src/usfs_bitmap.c:52-160 | on a volume in order the used blocks are exactly those of the entries' runs, each of one entry |
| UsfsVolume.Volume.SlotRead | usfs/src/usfs_entry.c:53-81 | a slot of the entry table is read and its checksum tested, whatever the device holds |
| UsfsVolume.Volume.EntryRead | usfs/src/usfs_entry.c:53-81 | on a volume in shape the read is the entry of the table and never a checksum mismatch |
| UsfsVolume.Volume.EntryWrite | usfs/src/usfs_entry.c:83-115 | exactly one entry changes, its record sealed; bitmap and data stay |
| UsfsBitmap.FindRun | usfs/src/usfs_bitmap.c:67-96 | the scan finds the least start of enough clear bits, or there is none |
| UsfsBitmap.PaintRun | usfs/src/usfs_bitmap.c:98-115 | exactly the bits of a run are set or cleared, across bitmap blocks |
| UsfsBitmap.BlockAlloc | usfs/src/usfs_bitmap.c:52-120 | allocates the first free run; NO_FREE_BLOCKS exactly when there is none; the count stays exact |
| UsfsBitmap.BlockFree | usfs/src/usfs_bitmap.c:122-160 | frees the run; the count stays exact if and only if the whole run was in use |
| UsfsContent.Reassign | usfs/src/usfs_bitmap.c:122-160 | giving one slot another run of free blocks or its own keeps the used set the exact disjoint union of all runs |
| UsfsContent.MarkedReadTheSame | usfs/src/usfs_file.c:31-227 | whatever device calls failed, if of the blocks marked used only those of one file changed, every other file reads the same under any key |
| UsfsFile.GrowFile | usfs/src/usfs_file.c:31-72 | moves to a run disjoint from every used block; old blocks read the same under new numbers; the free count changes by old minus new count; fails exactly when no run is free; under any failures no block marked used changes |
| UsfsFile.FileRead | usfs/src/usfs_file.c:74-116 | returns exactly the file's bytes at the offset, cut off at the size |
| UsfsFile.FileWrite | usfs/src/usfs_file.c:118-178 | on a working device OK exactly for a file of kind 1 on a volume without LOCKED and ERROR, both security words without bit 1, if it is empty or there is room, and for any other case its own refusal; every position of the grown run, wrapping at 2^32, holds its byte of the buffer and every other byte is kept; the size is the end in 32 bits; under any failures no block marked used changes but the file's own, and no other entry |
| UsfsFile.WriteReadsBack | usfs/src/usfs_file.c:118-178 | below 2^32 the range reads back and the bytes before it are unchanged |
| UsfsFile.ReadsBackIff | usfs/src/usfs_file.c:144-177 | the range reads back if and only if the write ends below 2^32 |
| UsfsFile.FileTruncate | usfs/src/usfs_file.c:180-227 | on a working device OK exactly for a file of kind 1 on a volume without LOCKED and ERROR, both security words without bit 1, if it does not grow or there is room; what both runs have room for reads the same; freed or taken blocks are accounted for; under any failures no block marked used and no other entry changes |
| UsfsEntry.EntryAlloc | usfs/src/usfs_entry.c:129-236 | the first vacant slot gets the new entry, with one zeroed block for a catalog; exact refusals; counts grow by one; under any failures no live entry and no block marked used changes |
| UsfsEntry.EntryFree | usfs/src/usfs_entry.c:238-278 | slot and run are given back; the entry count stays right exactly for a live entry; under any failures no other entry and no data block changes |
| UsfsObjects.OverwrittenReads | usfs/src/usfs_file.c:118-178 | below 2^32 what is written reads back and the bytes before it are kept |
| UsfsObjects.AllocateThenFree | usfs/src/usfs_entry.c:129-278 | freeing a new entry again leaves the entry count and all other slots as they were |
| UsfsObjects.NextAlike | usfs/src/usfs_file.c:31-227 | answers, entries, the places of all runs and the entry count do not depend on what files hold |
| UsfsAnswers.WriteAnswers | usfs/src/usfs_file.c:118-149 | every answer of a write by the flag, bit, kind or gap that decides it |
| UsfsAnswers.WriteLeaves | usfs/src/usfs_file.c:144-177 | what a write leaves: the first gap if the run has to move, the size in 32 bits, and every byte of the run, wrapped at 2^32 |
| UsfsAnswers.TruncateAnswers | usfs/src/usfs_file.c:180-212 | every answer of a truncation |
| UsfsAnswers.TruncateLeaves | usfs/src/usfs_file.c:202-227 | what it leaves: where the run lies, its length, and the bytes kept |
| UsfsAnswers.AllocateAnswers | usfs/src/usfs_entry.c:129-205 | every answer of an allocation |
| UsfsAnswers.AllocateLeaves | usfs/src/usfs_entry.c:175-235 | the first vacant slot holds the new record, field by field; a catalog has the first free block, zeroed |
| UsfsAnswers.FreeAnswers | usfs/src/usfs_entry.c:238-260 | every answer of a deletion |
| UsfsAnswers.FreeLeaves | usfs/src/usfs_entry.c:262-278 | what it leaves of the entry, and the entry count |
| UsfsAnswers.NextIs | usfs/src/usfs_file.c:118-227 | which of these each operation of a run is |
| UsfsEffects.StepEffect | usfs/src/usfs_file.c:118-227 | a step on one slot, failing or not, changes no other slot's bytes |
| UsfsEffects.WriteEffect | usfs/src/usfs_file.c:118-178 | a write does to the volume what the abstract write does to the state, the place of a moved run included |
| UsfsEffects.TruncateEffect | usfs/src/usfs_file.c:180-227 | so does a truncation |
| UsfsEffects.AllocateEffect | usfs/src/usfs_entry.c:129-236 | so does an allocation |
| UsfsOnDevice.NowIs | usfs/src/usfs_sync.c:15-26 | the flags, security word, counter and table of the abstract state are those of the volume |
| UsfsOnDevice.HeldRests | usfs/src/usfs_file.c:74-116 | what a slot holds are the bytes of its blocks on the device, unmasked |
| UsfsRuns.CountFree | usfs/src/usfs_bitmap.c:200-225 | the recount is the number of clear bits, and the free count of a valid volume |
| UsfsRuns.FormatVolume | usfs/src/usfs_format.c:30-99 | establishes the invariants; key and nonce are the given ones and no flag or security bit is set; the volume is then the abstract one with a root catalog of one block and nothing else |
| UsfsOnDevice.NewStateIs | usfs/src/usfs_format.c:30-99 | the abstract volume it starts from, field by field: the root catalog in slot 0 with the first data block, zeroed, and nothing else |
| UsfsRuns.Perform | usfs/src/usfs_file.c:118-227 | whatever fails, every live entry an operation is not about is as it was and reads the same; on a working device it answers and leaves what the abstract operation does |
| UsfsRuns.Determined | usfs/src/usfs_file.c:118-227 | two runs of the same operations from states that differ only in what files hold give the same answers, and such states all the way |
| UsfsRuns.RunAll | usfs/src/usfs_bitmap.c:122-160 | every run keeps the set bits the exact disjoint union of the entries' runs and the free count exact, and spares every entry it does not name; it is the abstract run from the state the volume was in: the same answers, entries and places of all runs, with every state in between given by the one before; the entry count lags by at most the frees that hit a slot deleted already, and not at all without them |
| UsfsOnDevice.TouchedIs | usfs/src/usfs_entry.c:238-278 | a run is about exactly the entries that its operations name |
| UsfsOnDevice.AgainIs | usfs/src/usfs_entry.c:238-278 | the frees of deleted slots that a run is charged with: those that succeed on a slot that is not live |
| UsfsRuns.Lifetime | usfs/src/usfs_format.c:30-99 | from formatting on, any run is the abstract run from a volume with a root catalog and nothing else; the recount then equals the superblock's count, and the entry count lags at most by the frees of deleted slots |

## Left out

- UsfsRuns.FormatVolume: does not model totals above 2^32 - 32750, because the bitmap then does not cover the data region (the layout method states that bound exactly), nor totals beyond the device, which the code accepts as long as the blocks it writes exist; the superblock it writes is taken into use at once, since USFS mounting is not modelled.
- UsfsRuns.Lifetime: does not run the USFS consistency check, which is the OWFS one with entries in place of inodes and a signature that only formatting and an explicit call refresh.
- OwfsCatalog.CatalogLookup: for an entry whose recorded name length exceeds the 128-byte field, the comparison stops at the field; the code would read past it, but such an entry is never written.
- OwfsFile.FileWrite: after a failed growth the caller's copy of the inode has grown but the stored one has not; operations are stated for the stored inode.
- OwfsFile.FileTruncate: after a device failure in the middle only the other inodes are guaranteed; the code frees blocks before it stores the inode.
- OwfsFormat.FormatVolume: the device knows its size; a device that reports size zero is not modelled.
- Driver callbacks, cache, entropy and clocks: a successful write is durable; nonces are parameters.
- Permissions, ownership tests and hidden entries: the caller is the superuser.
- Key-slot installation, purging, scrubbing and quick formatting: straight overwrites.
- USFS mount, unmount, marking, flushing, signature and lookup: the same shape as their OWFS counterparts.
- Timestamps, labels beyond their bytes, null-pointer tests.
