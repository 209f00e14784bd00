# bfsgen in Dafny

`bfsgen` builds a boot file system (BFS) image. It takes command-line
specifiers `NAME=SOURCE` and lays each source file out in 512-byte blocks. It
also writes a directory table of sixteen packed 32-byte nodes. Each node gives a
16-byte name, the first block of its file and that file's block count. The
reserved source `bfs` stands for the directory table itself. The table is written
at the blocks of every entry whose source is `bfs`. A warning is raised when no
entry's source is `bfs`.

The project has three modules:

- `Bfs` (`bfs.dfy`) covers the on-disk format from `include/kernel/bfs.h`:
  - the block size, name length and node count;
  - `bfs_block_t` as a 32-bit unsigned type;
  - the node record as a datatype;
  - a byte-exact encoding of a node and of the table, with decoders and round
    trips.
- `BfsGen` (`bfsgen.dfy`) covers `util/bfsgen/bfsgen.c` in its own imperative
  form:
  - the argument loop fills a zeroed `array<Node>` slot by slot while a block
    cursor advances;
  - the shift loop updates the offsets in place;
  - the write loop seeks and copies byte by byte into an output `Sink` object.

  Each method is proved against a specification function. `StepArg`, `Parse`,
  `Shifted`, `WriteEntries` and `GenerateSpec` describe each loop as a value.
  `Generate` is proved to return exactly `GenerateSpec`.
- `Layout` (`layout.dfy`) proves what the program promises about those
  specification functions:
  - slot k describes the k-th file specifier;
  - offsets are prefix sums of the block counts;
  - the shift is uniform;
  - at most sixteen specifiers are accepted;
  - an option value starts with its own letter;
  - every file reads back from its blocks, zero-padded, and the table reads
    back from its block;
  - the warning is raised exactly when no source is `bfs`.

How the environment is modelled:

- Source files are a map from path to contents. A missing key is a file that
  cannot be opened.
- The output paths that cannot be created are a set.
- The output file is a map from byte position to byte. A position that was never
  written is absent.
- Paths, arguments and names are byte strings.
- The 32-bit fields are encoded little-endian.
- Every `unsigned` calculation is written out modulo 2^32: the cursor, the
  shift, the conversion of a file's block count, and the seek position
  `block_offset * 512`.

The help text (`util/bfsgen/bfsgen.c:14` and the usage line at :17) calls the
part after `=` of a `bfs-file=actual-file` specifier the actual file, and an
actual file of `bfs` specifies the superblock. The code agrees: `bfs` is
reserved only as that part (`NAME=bfs`), and a bare `bfs` argument has no `=`
and is rejected as malformed, as `BfsGen.BareSuperblockRefused` states.

## Model

| member | source | states |
|---|---|---|
| Bfs.TableFillsOneBlock | include/kernel/bfs.h:9-12 | a node is 32 bytes and there are 16 of them, so the table is exactly one 512-byte block (the assertion `main` makes before anything else) |
| Bfs.ZeroTable | util/bfsgen/bfsgen.c:78 | the table after `memset`: sixteen zero nodes |
| Bfs.EncodeU32 | include/kernel/bfs.h:14 | a 32-bit field takes exactly 4 bytes of the record; that they are its little-endian digits is the round trip `Bfs.DecodeEncodeU32` |
| Bfs.DecodeU32 | include/kernel/bfs.h:14 | the first of the 4 bytes is the low byte of the value and the last the high byte |
| Bfs.DecodeEncodeU32 | include/kernel/bfs.h:14 | every 32-bit field value is recovered from its 4 little-endian bytes |
| Bfs.EncodeDecodeU32 | include/kernel/bfs.h:14 | every 4 bytes are the encoding of the value they decode to |
| Bfs.EncodeNode | include/kernel/bfs.h:16-22 | the packed record is 32 bytes: name at 0-15, block_offset at 16-19, block_count at 20-23, res1 at 24-27, res2 at 28-31 |
| Bfs.DecodeEncodeNode | include/kernel/bfs.h:16-22 | decoding a node's 32 bytes gives back the node |
| Bfs.EncodeDecodeNode | include/kernel/bfs.h:16-22 | every 32 bytes are the encoding of the node they decode to |
| Bfs.ZeroNodeEncoding | util/bfsgen/bfsgen.c:78 | a zeroed node is 32 zero bytes |
| Bfs.EncodeTable | util/bfsgen/bfsgen.c:141 | the table as written is 32 bytes per node |
| Bfs.EncodeTableSlot | util/bfsgen/bfsgen.c:141 | node k occupies bytes [32k, 32k+32) of the written table |
| Bfs.DecodeEncodeTable | util/bfsgen/bfsgen.c:141 | the written table decodes back to the node table |
| Bfs.TableIsOneBlock | util/bfsgen/bfsgen.c:141 | a table of sixteen nodes is exactly 512 bytes, which `fwrite(nodes, BFS_BLOCK_SIZE, 1, f)` emits |
| BfsGen.BlocksFor | util/bfsgen/bfsgen.c:45 | the count is the least number of 512-byte blocks that hold the size |
| BfsGen.BlocksForExamples | util/bfsgen/bfsgen.c:45 | 0 bytes need 0 blocks, 1, 511 and 512 bytes need 1, 513 and 1024 bytes need 2 |
| BfsGen.BlocksForFit | util/bfsgen/bfsgen.c:45 | a file the copy loop can handle needs fewer than 2^22 blocks |
| BfsGen.CountBlocks | util/bfsgen/bfsgen.c:27-46 | `bfs` is 1 block without any file being opened; a missing file is an error; an existing file needs the ceiling of its size over 512, truncated to 32 bits, which is the exact ceiling for a file the copy loop can handle; it succeeds exactly for `bfs` and files that open |
| BfsGen.FirstIndex | util/bfsgen/bfsgen.c:98 | `strchr`: none exactly when the byte is absent, otherwise the first position holding it |
| BfsGen.ParseSpecifier | util/bfsgen/bfsgen.c:98-110 | no `=` is an error; a name of more than 16 bytes before the first `=` is an error; otherwise the argument is name, `=`, source, with no `=` in the name |
| BfsGen.ParseSpecifierJoin | util/bfsgen/bfsgen.c:98-110 | every name of at most 16 bytes without `=`, the empty name included, is accepted with any source and split back into the two |
| BfsGen.BareSuperblockRefused | util/bfsgen/bfsgen.c:100-103 | the argument `bfs` alone is rejected as having no `=` |
| BfsGen.Atol | util/bfsgen/bfsgen.c:86 | `atol` of a string that starts with neither white space, a sign nor a digit is 0 |
| BfsGen.AtolExamples | util/bfsgen/bfsgen.c:86 | `atol` skips leading white space, takes one sign and stops at the first non-digit: " 42" is 42, "-7" is -7, "+3x" is 3, "b5" is 0 |
| BfsGen.CopyName | util/bfsgen/bfsgen.c:111 | the name bytes are copied to the front of the field with no terminator, and the rest of the field is kept |
| BfsGen.StepArg | util/bfsgen/bfsgen.c:82-120 | one iteration of the argument loop; a step that goes on keeps the sixteen slots and at most sixteen used ones |
| BfsGen.StepEffects | util/bfsgen/bfsgen.c:82-120 | only `-h` stops without an error; every other stop is an error; a file specifier that goes on appends exactly its source and changes no slot but the next free one |
| BfsGen.StepOption | util/bfsgen/bfsgen.c:82-94 | an option never touches the node table, the sources or the cursor |
| BfsGen.Parse | util/bfsgen/bfsgen.c:81-121 | the whole argument loop from the zeroed table stops only with help or an error, and otherwise leaves sixteen slots with at most sixteen used |
| BfsGen.Padded | util/bfsgen/bfsgen.c:59-61 | what `write_file` emits: the file's bytes, then fewer than 512 zeros, ending at a multiple of 512 |
| BfsGen.ShiftNode | util/bfsgen/bfsgen.c:125 | `block_offset += start_block` moves the offset by the start block, wrapping at most once past 2^32, and changes no other field |
| BfsGen.Shifted | util/bfsgen/bfsgen.c:123-126 | the shifted table has the same slots; only offsets change; each used offset moves by the start block, wrapping at most once; unused slots are unchanged |
| BfsGen.SeekPosition | util/bfsgen/bfsgen.c:136 | the unsigned product `block_offset * 512` is always a block boundary below 2^32, and it is the true byte position exactly when the offset is below 2^23 |
| BfsGen.Payload | util/bfsgen/bfsgen.c:138-142 | the write loop emits the encoded table, 32 bytes per node, for `bfs`; for a file its bytes, then zeros, up to its block count times 512 |
| BfsGen.OverlayAt | util/bfsgen/bfsgen.c:136-141 | writing bytes at a position covers exactly that range, reads back there and keeps every other byte |
| BfsGen.WriteEntries | util/bfsgen/bfsgen.c:135-144 | the write loop as a value: it can fail only with a not-found error naming one of its sources that is neither `bfs` nor an existing file |
| BfsGen.WriteEntriesSucceeds | util/bfsgen/bfsgen.c:135-144 | the first i iterations succeed exactly when each of their sources is `bfs` or a file that opens |
| BfsGen.WriteEntriesStaysFailed | util/bfsgen/bfsgen.c:53-57 | a failed copy ends the run: later iterations do not change the error |
| BfsGen.GenerateSpec | util/bfsgen/bfsgen.c:64-154 | the whole program as a value: an image is written only when the arguments parse, to the parsed output, which must be creatable; the warning flag is set exactly when no parsed source is `bfs` |
| BfsGen.Sink.constructor | util/bfsgen/bfsgen.c:129 | a newly created output is empty, positioned at 0 |
| BfsGen.Sink.Seek | util/bfsgen/bfsgen.c:136 | a seek moves the position and changes no byte |
| BfsGen.Sink.Put | util/bfsgen/bfsgen.c:59 | `fputc` stores one byte at the position and advances it |
| BfsGen.Sink.Write | util/bfsgen/bfsgen.c:141 | `fwrite` stores its bytes from the position on and advances past them |
| BfsGen.WriteFile | util/bfsgen/bfsgen.c:48-62 | a missing file changes nothing; otherwise the output gets the file's bytes and the zero padding from the current position, which advances by the padded length (for a file within the `int` counter's range) |
| BfsGen.CopyBytes | util/bfsgen/bfsgen.c:59 | the copy loop writes every byte of the file in order and leaves the counter at its size |
| BfsGen.PadToBlock | util/bfsgen/bfsgen.c:61 | the padding loop writes zeros until the counter is the next multiple of 512 |
| BfsGen.PaddingEnds | util/bfsgen/bfsgen.c:61 | the first multiple of 512 at or after the size is the padded length |
| BfsGen.ShiftOffsets | util/bfsgen/bfsgen.c:124-126 | the in-place loop leaves the array equal to the shifted table |
| BfsGen.WriteEntry | util/bfsgen/bfsgen.c:136-143 | one pass seeks to the entry's block and writes the table or the file; it fails exactly when the file is missing |
| BfsGen.WriteImage | util/bfsgen/bfsgen.c:135-144 | the write loop produces the image of `WriteEntries` or its error; the flag is set exactly when some used source is `bfs` |
| BfsGen.ApplyOption | util/bfsgen/bfsgen.c:82-94 | `-b` sets the start block from `atol` of the text after the dash, `-h` stops with help, `-o` sets the output to the text after the dash, any other letter is ignored |
| BfsGen.FillSlot | util/bfsgen/bfsgen.c:97-115 | a file specifier changes the arrays, the count and the cursor exactly as one step of the argument loop does, or stops as it does |
| BfsGen.ApplyArgument | util/bfsgen/bfsgen.c:82-120 | one pass of the argument loop changes the variables of `main` exactly as `StepArg` describes; a specifier after sixteen fails |
| BfsGen.ParseArguments | util/bfsgen/bfsgen.c:81-121 | the argument loop on a zeroed table ends exactly as `Parse` describes, with the arrays holding its final state |
| BfsGen.Generate | util/bfsgen/bfsgen.c:64-154 | the whole program returns `GenerateSpec`: help, the first error, or the image with the warning flag (when the sources it copies fit the `int` counter) |
| Layout.ParsedLayout | util/bfsgen/bfsgen.c:97-115 | for a parse that goes on: slot k holds the k-th file specifier's name zero-filled to 16 bytes, its source's block count and zero reserved fields; its source is that specifier's source; the slots past them are untouched zero nodes |
| Layout.OffsetsArePrefixSums | util/bfsgen/bfsgen.c:112-115 | when the parsed sources fit the copy loop, before the shift entry k starts at the sum of the counts before it; entry 0 starts at 0, each entry starts where the previous one ends, and the cursor is the total |
| Layout.SeventeenthSpecifierFails | util/bfsgen/bfsgen.c:97-118 | once sixteen slots are used, any further file specifier fails with the too-many-files error |
| Layout.TooManySpecifiersNeverWritten | util/bfsgen/bfsgen.c:97-118 | arguments with more than sixteen file specifiers never reach the output stage |
| Layout.StepKeepsStartZero | util/bfsgen/bfsgen.c:86 | a step never makes a zero start block non-zero |
| Layout.ParsedStartBlockIsZero | util/bfsgen/bfsgen.c:86 | the start block after parsing is always 0, because `atol` reads the value from the letter `b` on |
| Layout.OutputKeepsOptionLetter | util/bfsgen/bfsgen.c:92 | `-ofoo` names the output `ofoo` |
| Layout.ShiftMovesUsedOffsets | util/bfsgen/bfsgen.c:123-126 | each used offset moves by the start block modulo 2^32; names, counts and reserved fields are unchanged; unused slots are unchanged; without wrap-around every gap between used offsets is kept |
| Layout.ShiftedIsPlaced | util/bfsgen/bfsgen.c:123-126 | if the parsed sources fit the copy loop and the image ends within 4 GiB, the shifted used entries lie back to back from the start block, each sized for its source |
| Layout.WrittenTableSlots | util/bfsgen/bfsgen.c:78 | in the table that is written every reserved field is zero, and the slots past the used ones are zero nodes |
| Layout.OverlayHolds | util/bfsgen/bfsgen.c:136-141 | bytes written at a position read back from there |
| Layout.OverlayKeeps | util/bfsgen/bfsgen.c:136-141 | a later write at or past the end of a region keeps that region |
| Layout.EntryEnds | util/bfsgen/bfsgen.c:112-114 | entry k of a contiguous table ends where entry k+1 starts, no later than any later entry starts |
| Layout.SeekLands | util/bfsgen/bfsgen.c:136 | in a placed table the unsigned seek position of a non-empty entry is its offset times 512 |
| Layout.WriteStep | util/bfsgen/bfsgen.c:135-144 | writing the next entry keeps every earlier payload and adds its own |
| Layout.WrittenRegions | util/bfsgen/bfsgen.c:135-144 | on a placed table the write loop never fails, and every entry's payload reads back from its region afterwards |
| Layout.RegionSplit | util/bfsgen/bfsgen.c:59-61 | a region holding the file followed by its padding holds the file, then the zeros |
| Layout.PayloadWritten | util/bfsgen/bfsgen.c:59-61 | an entry's payload in its region means its file's bytes are there, followed by zeros to the end of its last block (or the table, for `bfs`) |
| Layout.ParsedSourcesOpen | util/bfsgen/bfsgen.c:32-37 | every source of a parse that goes on is `bfs` or a file that opens, since sizing it would have stopped the run otherwise |
| Layout.ParsedRunWrites | util/bfsgen/bfsgen.c:128-151 | for any arguments that parse and a creatable output, whatever the file sizes and offsets, the run writes an image to that output, with the warning exactly when no source is `bfs` |
| Layout.GeneratedImage | util/bfsgen/bfsgen.c:128-151 | with sources that fit the copy loop, creatable output and an image within 4 GiB, the run writes the image. The warning is raised exactly when no source is `bfs`. Entry k starts at the start block plus the blocks before it. It holds its file's bytes then zeros, or the full shifted table for `bfs` |

## Left out

- `help` and its usage text: only the `ShowHelp` outcome is modelled.
- Diagnostics and exit codes: an error is an `Error` value and the warning is a flag of the outcome.
- The stdio calls are replaced by the `Sink` object and the map of source contents. Neither `fclose` nor the `fseek`/`ftell` used for sizing is modelled.
- Host byte order of the 32-bit fields: the model fixes little-endian.
- A source that changes between being sized and being copied. The map of sources is the same in both passes, so in the model the second `fopen` of a source that was sized always succeeds. This includes the case where the program changes a source itself: if the output path is also a source path (for example `x=bfs.iso` with the default output), `fopen(output, "wb")` at `util/bfsgen/bfsgen.c:129` truncates that source before `write_file` reads it, whereas the model copies the contents it sized.
- The bytes of regions the program never writes, for example the gap before a non-zero start block. They are absent from the image map; the file system decides what they read as.
- BfsGen.WriteFile: requires the file it copies to be at most 2^31 - 512 bytes. Beyond that the `int` counter would overflow, which is undefined behaviour in C. `BfsGen.WriteEntry` and `BfsGen.WriteImage` require the same of the sources they copy, and `BfsGen.Generate` only of the sources of arguments that parse with a creatable output, the only runs that reach `write_file`. Files no argument names, and runs that stop earlier, are unconstrained.
- BfsGen.Generate: see the line above; the bound is on the parsed sources only.
- Layout.GeneratedImage: the placement and read-back properties assume the parsed sources fit the copy loop, as `Layout.OffsetsArePrefixSums` and `Layout.ShiftedIsPlaced` do. Success and the warning do not need it: `Layout.ParsedRunWrites` proves them for every run that parses with a creatable output.
- BfsGen.Atol: does not model overflow of `long` for very long digit strings. The `-b` value always starts with the letter `b`, so `atol` returns 0 from the command line anyway.
- Layout.GeneratedImage: the placement and read-back properties are also proved only when the image ends within 4 GiB. `GenerateSpec` does model the unsigned wrap-around of the cursor, the shift and the seek position beyond that, but the model proves nothing about overlapping regions there.
- Layout.OffsetsArePrefixSums: proved only when every parsed source fits the copy loop. In that case the cursor cannot wrap, since sixteen files of fewer than 2^22 blocks each stay below 2^32 blocks.
- The program name `argv[0]` and the NUL terminators of arguments: arguments are the byte strings after the program name.
- The C `assert` on the table size is the lemma `Bfs.TableFillsOneBlock` rather than a run-time check.
