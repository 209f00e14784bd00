/**
 * bfsgen: builds a BFS image from command-line specifiers `NAME=SOURCE`.
 *
 * The program runs in three passes over fixed-size state: the argument loop
 * fills a zeroed table of sixteen nodes slot by slot while a block cursor
 * advances; a second loop shifts every used offset by the start block; a third
 * loop seeks to each entry's block and copies the source file (zero-padded to a
 * block boundary) or the directory table itself.
 *
 * Source files are an input map from path to contents (a missing key is a file
 * that cannot be opened), the output file is a `Sink` holding the bytes written
 * at each position, and the set of output paths that cannot be created is an
 * input as well.
 */
module BfsGen {
  import opened Bfs

  /** The bytes of a C string, without its terminating NUL. */
  type CStr = seq<Byte>

  const Nul: Byte := 0x00
  const Plus: Byte := 0x2B
  const Dash: Byte := 0x2D
  const EqualsSign: Byte := 0x3D
  const LetterB: Byte := 0x62
  const LetterH: Byte := 0x68
  const LetterO: Byte := 0x6F

  /** "bfs": as a source it stands for the directory table itself. */
  const SuperblockName: CStr := [0x62, 0x66, 0x73]

  /** "bfs.iso": the output path when no `-o` option is given. */
  const DefaultOutput: CStr := [0x62, 0x66, 0x73, 0x2E, 0x69, 0x73, 0x6F]

  /** The largest source whose copy keeps `write_file`'s `int` byte counter in range. */
  const MaxFileSize: nat := 0x8000_0000 - BlockSize

  datatype Option<T> = None | Some(value: T)

  datatype Error =
    | SourceNotFound(path: CStr)
    | SinkUnwritable(path: CStr)
    | MissingSeparator(arg: CStr)
    | NameTooLong(arg: CStr)
    | TooManyEntries(arg: CStr)

  datatype Result<T> = Ok(value: T) | Err(error: Error)

  /** How one run ends: help shown, a fatal error, or an image written (with the
      warning flag for an image that holds no directory table). */
  datatype Outcome =
    | ShowHelp
    | Failed(error: Error)
    | Written(output: CStr, image: map<nat, Byte>, superblockMissing: bool)

  /** A source that `write_file` copies is small enough for its `int` byte
      counter; the reserved source and a missing file are never copied. */
  predicate FileFits(source: CStr, files: map<CStr, seq<Byte>>)
  {
    source != SuperblockName && source in files ==> |files[source]| <= MaxFileSize
  }

  /** Every one of `sources` fits the copy loop. */
  predicate SourcesFit(sources: seq<CStr>, files: map<CStr, seq<Byte>>)
  {
    forall k :: 0 <= k < |sources| ==> FileFits(sources[k], files)
  }

  /** A source the write loop can emit: the table, or a file that opens. */
  predicate Openable(source: CStr, files: map<CStr, seq<Byte>>)
  {
    source == SuperblockName || source in files
  }

  // ----- count_blocks -----

  /** Blocks occupied by `size` bytes: the least multiple of 512 that holds them. */
  function BlocksFor(size: nat): (r: nat)
    ensures r * BlockSize >= size
    ensures r == 0 || (r - 1) * BlockSize < size
  {
    if size % BlockSize != 0 then size / BlockSize + 1 else size / BlockSize
  }

  lemma BlocksForExamples()
    ensures BlocksFor(0) == 0 && BlocksFor(1) == 1 && BlocksFor(511) == 1
    ensures BlocksFor(512) == 1 && BlocksFor(513) == 2 && BlocksFor(1024) == 2
  {
  }

  /** A source that may be copied never needs more than 2^22 - 1 blocks. */
  lemma BlocksForFit(size: nat)
    requires size <= MaxFileSize
    ensures BlocksFor(size) < 0x40_0000
  {
  }

  /** `count_blocks`: the reserved source is one block and opens nothing; any
      other source must exist, and needs the ceiling of its size over 512,
      truncated to an `unsigned` (which changes nothing for a file that fits the
      copy loop). */
  function CountBlocks(source: CStr, files: map<CStr, seq<Byte>>): (r: Result<U32>)
    ensures source == SuperblockName ==> r == Ok(1)
    ensures source != SuperblockName && source !in files ==> r == Err(SourceNotFound(source))
    ensures source != SuperblockName && source in files ==> r == Ok(BlocksFor(|files[source]|) % U32Modulus)
    ensures source != SuperblockName && source in files && |files[source]| <= MaxFileSize
            ==> r == Ok(BlocksFor(|files[source]|))
    ensures r.Ok? <==> Openable(source, files)
  {
    if source == SuperblockName then Ok(1)
    else if source !in files then Err(SourceNotFound(source))
    else Ok(BlocksFor(|files[source]|) % U32Modulus)
  }

  // ----- specifiers -----

  /** `strchr`: the position of the first occurrence of `b`. */
  function FirstIndex(s: CStr, b: Byte): (r: Option<nat>)
    ensures r.None? <==> b !in s
    ensures r.Some? ==> r.value < |s| && s[r.value] == b && b !in s[..r.value]
  {
    if |s| == 0 then None
    else if s[0] == b then Some(0)
    else match FirstIndex(s[1..], b)
      case None => None
      case Some(i) =>
        assert s[..i + 1] == [s[0]] + s[1..][..i];
        Some(i + 1)
  }

  datatype Specifier = Specifier(name: CStr, source: CStr)

  /** A file specifier splits at its first '='; the name before it may not exceed
      16 bytes (it may be empty); the source is everything after it. */
  function ParseSpecifier(arg: CStr): (r: Result<Specifier>)
    ensures r.Ok? ==> arg == r.value.name + [EqualsSign] + r.value.source
                      && EqualsSign !in r.value.name && |r.value.name| <= NameLength
    ensures r == Err(MissingSeparator(arg)) <==> EqualsSign !in arg
    ensures r == Err(NameTooLong(arg))
            <==> EqualsSign in arg && |arg| > NameLength && EqualsSign !in arg[..NameLength + 1]
    ensures r.Ok? || r == Err(MissingSeparator(arg)) || r == Err(NameTooLong(arg))
  {
    match FirstIndex(arg, EqualsSign)
    case None => Err(MissingSeparator(arg))
    case Some(k) =>
      if k > NameLength then
        assert arg[..NameLength + 1] == arg[..k][..NameLength + 1];
        Err(NameTooLong(arg))
      else
        assert arg == arg[..k] + [EqualsSign] + arg[k + 1..];
        assert |arg| > NameLength ==> arg[..NameLength + 1][k] == EqualsSign;
        Ok(Specifier(arg[..k], arg[k + 1..]))
  }

  /** Every name without '=' of at most 16 bytes, the empty one included, joined
      to any source, is accepted and split back into the two. */
  lemma ParseSpecifierJoin(name: CStr, source: CStr)
    requires EqualsSign !in name && |name| <= NameLength
    ensures ParseSpecifier(name + [EqualsSign] + source) == Ok(Specifier(name, source))
  {
    var arg := name + [EqualsSign] + source;
    assert arg[|name|] == EqualsSign;
    var k := FirstIndex(arg, EqualsSign).value;
    assert forall t :: 0 <= t < |name| ==> arg[t] == name[t];
    assert forall t :: |name| < t <= |arg| ==> arg[..t][|name|] == EqualsSign;
    assert arg[..k] == name && arg[k + 1..] == source;
  }

  /** The reserved source is spelt `NAME=bfs`; a bare `bfs` has no '=' and is refused. */
  lemma BareSuperblockRefused()
    ensures ParseSpecifier(SuperblockName) == Err(MissingSeparator(SuperblockName))
  {
  }

  /** `memcpy` of a name into a node's name field: the copied bytes, then what the
      field held before. */
  function CopyName(field: Name, name: CStr): (r: Name)
    requires |name| <= NameLength
    ensures r[..|name|] == name && r[|name|..] == field[|name|..]
  {
    name + field[|name|..]
  }

  // ----- options -----

  predicate IsSpace(c: Byte)
  {
    c == 0x20 || 0x09 <= c <= 0x0D
  }

  predicate IsDigit(c: Byte)
  {
    0x30 <= c <= 0x39
  }

  /** The decimal value of the leading digits of `s`, appended to `acc`. */
  function LeadingDigits(s: CStr, acc: nat): nat
  {
    if |s| > 0 && IsDigit(s[0]) then LeadingDigits(s[1..], acc * 10 + (s[0] - 0x30)) else acc
  }

  /** C `atol`: leading white space, an optional sign, then decimal digits; a
      string that starts with anything else is 0. */
  function Atol(s: CStr): (r: int)
    ensures |s| == 0 || !(IsSpace(s[0]) || s[0] == Dash || s[0] == Plus || IsDigit(s[0])) ==> r == 0
  {
    if |s| > 0 && IsSpace(s[0]) then Atol(s[1..])
    else if |s| > 0 && s[0] == Dash then -(LeadingDigits(s[1..], 0) as int)
    else if |s| > 0 && s[0] == Plus then LeadingDigits(s[1..], 0)
    else LeadingDigits(s, 0)
  }

  /** " 42" is 42, "-7" is -7, "+3x" is 3 and "b5" is 0. */
  lemma AtolExamples()
    ensures Atol([0x20, 0x34, 0x32]) == 42
    ensures Atol([Dash, 0x37]) == -7
    ensures Atol([Plus, 0x33, 0x78]) == 3
    ensures Atol([LetterB, 0x35]) == 0
  {
    assert [0x20, 0x34, 0x32][1..] == [0x34, 0x32];
    assert [0x34, 0x32][1..] == [0x32];
    assert LeadingDigits([0x32], 4) == 42;
    assert [Plus, 0x33, 0x78][1..] == [0x33, 0x78];
    assert [0x33, 0x78][1..] == [0x78];
    assert [Dash, 0x37][1..] == [0x37];
    assert [0x37][1..] == [];
  }

  predicate IsOption(arg: CStr)
  {
    |arg| > 0 && arg[0] == Dash
  }

  /** The letter of an option argument: its second byte, or the terminator. */
  function OptionLetter(arg: CStr): Byte
  {
    if |arg| > 1 then arg[1] else Nul
  }

  // ----- the argument loop -----

  /** The variables of the argument loop: output path, start block, the node
      table, the sources of the used slots (`j` is their number) and the cursor. */
  datatype ArgState = ArgState(output: CStr, startBlock: U32, nodes: seq<Node>, sources: seq<CStr>, cursor: U32)

  predicate Shaped(st: ArgState)
  {
    |st.nodes| == NodeCount && |st.sources| <= NodeCount
  }

  /** Before the first argument: default output, start block 0, zeroed nodes. */
  const InitialState: ArgState := ArgState(DefaultOutput, 0, ZeroTable(), [], 0)

  datatype Step = Continue(st: ArgState) | Stop(outcome: Outcome)

  /** One iteration of the argument loop.  An option's value is taken from the
      second byte on, so it starts with the option letter itself. */
  function StepArg(st: ArgState, arg: CStr, files: map<CStr, seq<Byte>>): (r: Step)
    requires Shaped(st)
    ensures r.Continue? ==> Shaped(r.st)
  {
    if IsOption(arg) then
      var letter := OptionLetter(arg);
      if letter == LetterB then Continue(st.(startBlock := Atol(arg[1..]) % U32Modulus))
      else if letter == LetterH then Stop(ShowHelp)
      else if letter == LetterO then Continue(st.(output := arg[1..]))
      else Continue(st)
    else if |st.sources| < NodeCount then
      match ParseSpecifier(arg)
      case Err(e) => Stop(Failed(e))
      case Ok(spec) =>
        match CountBlocks(spec.source, files)
        case Err(e) => Stop(Failed(e))
        case Ok(count) =>
          var j := |st.sources|;
          var node := st.nodes[j].(name := CopyName(st.nodes[j].name, spec.name),
                                   blockOffset := st.cursor, blockCount := count);
          Continue(ArgState(st.output, st.startBlock, st.nodes[j := node], st.sources + [spec.source],
                            (st.cursor + count) % U32Modulus))
    else Stop(Failed(TooManyEntries(arg)))
  }

  /** What one iteration can do: only `-h` stops without an error; a file
      specifier that goes on appends its source and fills the next slot, leaving
      every other slot alone. */
  lemma StepEffects(st: ArgState, arg: CStr, files: map<CStr, seq<Byte>>)
    requires Shaped(st)
    ensures StepArg(st, arg, files) == Stop(ShowHelp) <==> IsOption(arg) && OptionLetter(arg) == LetterH
    ensures StepArg(st, arg, files).Stop? ==>
              StepArg(st, arg, files).outcome == ShowHelp || StepArg(st, arg, files).outcome.Failed?
    ensures StepArg(st, arg, files).Continue? && !IsOption(arg) ==>
              var next := StepArg(st, arg, files).st;
              && |next.sources| == |st.sources| + 1 && next.sources[..|st.sources|] == st.sources
              && next.nodes == st.nodes[|st.sources| := next.nodes[|st.sources|]]
  {
    if !IsOption(arg) && StepArg(st, arg, files).Continue? {
      var spec := ParseSpecifier(arg).value;
      assert (st.sources + [spec.source])[..|st.sources|] == st.sources;
    }
  }

  /** The argument loop from argument `i` on. */
  function ParseFrom(args: seq<CStr>, i: nat, st: ArgState, files: map<CStr, seq<Byte>>): (r: Step)
    requires i <= |args| && Shaped(st)
    ensures r.Continue? ==> Shaped(r.st)
    ensures r.Stop? ==> r.outcome == ShowHelp || r.outcome.Failed?
    decreases |args| - i
  {
    if i == |args| then Continue(st)
    else
      StepEffects(st, args[i], files);
      match StepArg(st, args[i], files)
      case Stop(o) => Stop(o)
      case Continue(next) => ParseFrom(args, i + 1, next, files)
  }

  lemma ParseFromContinue(args: seq<CStr>, i: nat, st: ArgState, next: ArgState, files: map<CStr, seq<Byte>>)
    requires i < |args| && Shaped(st)
    requires StepArg(st, args[i], files) == Continue(next)
    ensures ParseFrom(args, i, st, files) == ParseFrom(args, i + 1, next, files)
  {
  }

  lemma ParseFromStop(args: seq<CStr>, i: nat, st: ArgState, files: map<CStr, seq<Byte>>)
    requires i < |args| && Shaped(st)
    requires StepArg(st, args[i], files).Stop?
    ensures ParseFrom(args, i, st, files) == StepArg(st, args[i], files)
  {
  }

  /** An option changes at most the output name and the start block. */
  lemma StepOption(st: ArgState, arg: CStr, files: map<CStr, seq<Byte>>)
    requires Shaped(st) && IsOption(arg)
    ensures StepArg(st, arg, files).Continue? ==>
              && StepArg(st, arg, files).st.nodes == st.nodes
              && StepArg(st, arg, files).st.sources == st.sources
              && StepArg(st, arg, files).st.cursor == st.cursor
  {
  }

  /** A file specifier that parses and whose source can be sized fills slot `j`. */
  lemma StepFileSpecifier(st: ArgState, arg: CStr, files: map<CStr, seq<Byte>>, spec: Specifier, count: U32)
    requires Shaped(st) && !IsOption(arg) && |st.sources| < NodeCount
    requires ParseSpecifier(arg) == Ok(spec) && CountBlocks(spec.source, files) == Ok(count)
    ensures var j := |st.sources|;
            StepArg(st, arg, files)
            == Continue(ArgState(st.output, st.startBlock,
                                 st.nodes[j := st.nodes[j].(name := CopyName(st.nodes[j].name, spec.name),
                                                            blockOffset := st.cursor, blockCount := count)],
                                 st.sources + [spec.source], (st.cursor + count) % U32Modulus))
  {
  }

  /** The argument loop from the zeroed table: it stops only with help or an
      error, and otherwise leaves sixteen slots of which at most sixteen are used. */
  function Parse(args: seq<CStr>, files: map<CStr, seq<Byte>>): (r: Step)
    ensures r.Continue? ==> Shaped(r.st)
    ensures r.Stop? ==> r.outcome == ShowHelp || r.outcome.Failed?
  {
    ParseFrom(args, 0, InitialState, files)
  }

  // ----- the shift loop -----

  /** `block_offset += start_block` on one node: the offset moves by `start`,
      wrapping at most once, and no other field changes. */
  function ShiftNode(n: Node, start: U32): (r: Node)
    ensures r.name == n.name && r.blockCount == n.blockCount && r.res1 == n.res1 && r.res2 == n.res2
    ensures r.blockOffset == n.blockOffset + start || r.blockOffset == n.blockOffset + start - U32Modulus
  {
    n.(blockOffset := (n.blockOffset + start) % U32Modulus)
  }

  /** Every used slot's offset moves by `start` (in `unsigned` arithmetic);
      nothing else changes. */
  function Shifted(nodes: seq<Node>, j: nat, start: U32): (r: seq<Node>)
    ensures |r| == |nodes|
    ensures forall k :: 0 <= k < |nodes| ==>
              && r[k].name == nodes[k].name && r[k].blockCount == nodes[k].blockCount
              && r[k].res1 == nodes[k].res1 && r[k].res2 == nodes[k].res2
    ensures forall k :: 0 <= k < j && k < |nodes| ==>
              r[k].blockOffset == nodes[k].blockOffset + start || r[k].blockOffset == nodes[k].blockOffset + start - U32Modulus
    ensures forall k :: j <= k < |nodes| ==> r[k] == nodes[k]
  {
    seq(|nodes|, k requires 0 <= k < |nodes| => if k < j then ShiftNode(nodes[k], start) else nodes[k])
  }

  // ----- the write loop -----

  /** `nodes[i].block_offset * BFS_BLOCK_SIZE`, an `unsigned` product: always on a
      block boundary, and the true byte position exactly when the offset is below
      2^23 blocks. */
  function SeekPosition(offset: U32): (r: nat)
    ensures r < U32Modulus && r % BlockSize == 0
    ensures r == offset * BlockSize <==> offset < 0x80_0000
  {
    (offset * BlockSize) % U32Modulus
  }

  /** What `write_file` emits: the whole file, then zeros to the next block boundary. */
  function Padded(content: seq<Byte>): (r: seq<Byte>)
    ensures |r| == BlocksFor(|content|) * BlockSize
    ensures r[..|content|] == content
    ensures forall t :: |content| <= t < |r| ==> r[t] == 0
    ensures |r| - |content| < BlockSize
  {
    content + Zeros(BlocksFor(|content|) * BlockSize - |content|)
  }

  /** `m` after writing `s` byte by byte from position `at`. */
  function Overlay(m: map<nat, Byte>, at: nat, s: seq<Byte>): map<nat, Byte>
    decreases |s|
  {
    if s == [] then m else Overlay(m, at, s[..|s| - 1])[at + |s| - 1 := s[|s| - 1]]
  }

  /** Writing `s` at `at` covers exactly [at, at + |s|), where it reads back as `s`,
      and keeps every other byte. */
  lemma {:induction false} OverlayAt(m: map<nat, Byte>, at: nat, s: seq<Byte>, p: nat)
    ensures p in Overlay(m, at, s) <==> p in m || at <= p < at + |s|
    ensures at <= p < at + |s| ==> Overlay(m, at, s)[p] == s[p - at]
    ensures p in m && !(at <= p < at + |s|) ==> Overlay(m, at, s)[p] == m[p]
    decreases |s|
  {
    if s != [] {
      OverlayAt(m, at, s[..|s| - 1], p);
    }
  }

  lemma OverlayStep(m: map<nat, Byte>, at: nat, s: seq<Byte>, i: nat)
    requires i < |s|
    ensures Overlay(m, at, s[..i + 1]) == Overlay(m, at, s[..i])[at + i := s[i]]
  {
    assert s[..i + 1][..i] == s[..i];
  }

  /** The bytes the write loop emits for a source: the encoded table for `bfs`,
      otherwise the file's bytes, then zeros to a block boundary. */
  function Payload(table: seq<Node>, source: CStr, files: map<CStr, seq<Byte>>): (r: seq<Byte>)
    requires Openable(source, files)
    ensures source == SuperblockName ==> |r| == |table| * NodeSize
    ensures source != SuperblockName ==>
              && |r| == BlocksFor(|files[source]|) * BlockSize
              && r[..|files[source]|] == files[source]
              && forall t :: |files[source]| <= t < |r| ==> r[t] == 0
  {
    if source == SuperblockName then EncodeTable(table) else Padded(files[source])
  }

  /** The image after the first `i` iterations of the write loop, each seeking to
      its entry's block; a source that cannot be opened ends the loop. */
  function WriteEntries(m: map<nat, Byte>, table: seq<Node>, sources: seq<CStr>,
                        files: map<CStr, seq<Byte>>, i: nat): (r: Result<map<nat, Byte>>)
    requires i <= |sources| <= |table|
    ensures r.Err? ==> r.error.SourceNotFound? && !Openable(r.error.path, files)
                       && exists k :: 0 <= k < i && sources[k] == r.error.path
  {
    if i == 0 then Ok(m)
    else match WriteEntries(m, table, sources, files, i - 1)
      case Err(e) => Err(e)
      case Ok(prev) =>
        var source := sources[i - 1];
        if source != SuperblockName && source !in files then Err(SourceNotFound(source))
        else Ok(Overlay(prev, SeekPosition(table[i - 1].blockOffset), Payload(table, source, files)))
  }

  /** Iteration i of the write loop succeeds exactly when its source is the
      table or an existing file. */
  lemma WriteEntriesNext(m: map<nat, Byte>, table: seq<Node>, sources: seq<CStr>, files: map<CStr, seq<Byte>>,
                         i: nat, prev: map<nat, Byte>)
    requires i < |sources| <= |table|
    requires WriteEntries(m, table, sources, files, i) == Ok(prev)
    ensures sources[i] == SuperblockName || sources[i] in files ==>
              WriteEntries(m, table, sources, files, i + 1)
              == Ok(Overlay(prev, SeekPosition(table[i].blockOffset), Payload(table, sources[i], files)))
    ensures sources[i] != SuperblockName && sources[i] !in files ==>
              WriteEntries(m, table, sources, files, i + 1) == Err(SourceNotFound(sources[i]))
  {
  }

  /** The write loop gets through its first `i` iterations exactly when each of
      their sources is the table or a file that opens. */
  lemma {:induction false} WriteEntriesSucceeds(m: map<nat, Byte>, table: seq<Node>, sources: seq<CStr>,
                                                files: map<CStr, seq<Byte>>, i: nat)
    requires i <= |sources| <= |table|
    ensures WriteEntries(m, table, sources, files, i).Ok? <==> forall k :: 0 <= k < i ==> Openable(sources[k], files)
  {
    if i > 0 {
      WriteEntriesSucceeds(m, table, sources, files, i - 1);
      assert (forall k :: 0 <= k < i ==> Openable(sources[k], files))
             <==> (forall k :: 0 <= k < i - 1 ==> Openable(sources[k], files)) && Openable(sources[i - 1], files);
    }
  }

  lemma {:induction false} WriteEntriesStaysFailed(m: map<nat, Byte>, table: seq<Node>, sources: seq<CStr>,
                                                   files: map<CStr, seq<Byte>>, i: nat, n: nat)
    requires i <= n <= |sources| <= |table|
    requires WriteEntries(m, table, sources, files, i).Err?
    ensures WriteEntries(m, table, sources, files, n) == WriteEntries(m, table, sources, files, i)
    decreases n - i
  {
    if i < n {
      WriteEntriesStaysFailed(m, table, sources, files, i, n - 1);
    }
  }

  /** The whole program: argument loop, shift, opening the output, write loop and
      warning.  An image is written only for arguments that parse, to an output
      that can be created, with the warning exactly when no source is `bfs`. */
  function GenerateSpec(args: seq<CStr>, files: map<CStr, seq<Byte>>, unwritable: set<CStr>): (r: Outcome)
    ensures r.Written? ==>
              && Parse(args, files).Continue?
              && r.output == Parse(args, files).st.output && r.output !in unwritable
              && (r.superblockMissing <==> SuperblockName !in Parse(args, files).st.sources)
  {
    match Parse(args, files)
    case Stop(o) => o
    case Continue(st) =>
      var table := Shifted(st.nodes, |st.sources|, st.startBlock);
      if st.output in unwritable then Failed(SinkUnwritable(st.output))
      else match WriteEntries(map[], table, st.sources, files, |st.sources|)
        case Err(e) => Failed(e)
        case Ok(image) => Written(st.output, image, SuperblockName !in st.sources)
  }

  // ----- the program -----

  /** The output file: the bytes written so far at each position and the file position. */
  class Sink {
    var pos: nat
    var data: map<nat, Byte>

    /** `fopen(output, "wb")`: an empty file. */
    constructor ()
      ensures pos == 0 && data == map[]
    {
      pos := 0;
      data := map[];
    }

    /** `fseek(f, p, SEEK_SET)`. */
    method Seek(p: nat)
      modifies this
      ensures pos == p && data == old(data)
    {
      pos := p;
    }

    /** `fputc(b, f)`. */
    method Put(b: Byte)
      modifies this
      ensures data == old(data)[old(pos) := b] && pos == old(pos) + 1
    {
      data := data[pos := b];
      pos := pos + 1;
    }

    /** `fwrite(bytes, |bytes|, 1, f)`. */
    method Write(bytes: seq<Byte>)
      modifies this
      ensures data == Overlay(old(data), old(pos), bytes) && pos == old(pos) + |bytes|
    {
      var i := 0;
      while i < |bytes|
        invariant 0 <= i <= |bytes|
        invariant pos == old(pos) + i
        invariant data == Overlay(old(data), old(pos), bytes[..i])
      {
        OverlayStep(old(data), old(pos), bytes, i);
        Put(bytes[i]);
        i := i + 1;
      }
      assert bytes[..i] == bytes;
    }
  }

  /** `write_file`: copy the source byte by byte, then pad with zeros until the
      count is a multiple of 512.  The counter never leaves the range of a C `int`
      because the source is at most `MaxFileSize` bytes. */
  method WriteFile(source: CStr, files: map<CStr, seq<Byte>>, sink: Sink) returns (ok: bool)
    requires source in files ==> |files[source]| <= MaxFileSize
    modifies sink
    ensures ok == (source in files)
    ensures ok ==> sink.data == Overlay(old(sink.data), old(sink.pos), Padded(files[source]))
                   && sink.pos == old(sink.pos) + |Padded(files[source])|
    ensures !ok ==> sink.data == old(sink.data) && sink.pos == old(sink.pos)
  {
    if source !in files {
      return false;
    }
    var content := files[source];
    var i := CopyBytes(content, sink);
    PadToBlock(content, sink, old(sink.data), old(sink.pos));
    ok := true;
  }

  /** The `fgetc`/`fputc` loop of `write_file`; returns the byte counter. */
  method CopyBytes(content: seq<Byte>, sink: Sink) returns (i: nat)
    modifies sink
    ensures i == |content| && sink.pos == old(sink.pos) + i
    ensures sink.data == Overlay(old(sink.data), old(sink.pos), Padded(content)[..i])
  {
    i := 0;
    while i < |content|
      invariant 0 <= i <= |content|
      invariant sink.pos == old(sink.pos) + i
      invariant sink.data == Overlay(old(sink.data), old(sink.pos), Padded(content)[..i])
    {
      CopyStep(old(sink.data), old(sink.pos), content, i);
      sink.Put(content[i]);
      i := i + 1;
    }
  }

  /** The padding loop of `write_file`: zeros until the counter, `|content|` on
      entry, is a multiple of 512.  `m` and `at` are the image and position
      before the copy began. */
  method PadToBlock(content: seq<Byte>, sink: Sink, ghost m: map<nat, Byte>, ghost at: nat)
    requires sink.pos == at + |content|
    requires sink.data == Overlay(m, at, Padded(content)[..|content|])
    modifies sink
    ensures sink.pos == at + |Padded(content)|
    ensures sink.data == Overlay(m, at, Padded(content))
  {
    var i := |content|;
    while i % BlockSize != 0
      invariant |content| <= i <= |Padded(content)|
      invariant sink.pos == at + i
      invariant sink.data == Overlay(m, at, Padded(content)[..i])
      decreases |Padded(content)| - i
    {
      PadStep(m, at, content, i);
      sink.Put(0);
      i := i + 1;
    }
    PaddingEnds(|content|, i);
    assert Padded(content)[..i] == Padded(content);
  }

  /** Copying byte i of the source extends the padded image by that byte. */
  lemma CopyStep(m: map<nat, Byte>, at: nat, content: seq<Byte>, i: nat)
    requires i < |content|
    ensures Overlay(m, at, Padded(content)[..i + 1]) == Overlay(m, at, Padded(content)[..i])[at + i := content[i]]
  {
    var padded := Padded(content);
    assert padded[i] == padded[..|content|][i];
    OverlayStep(m, at, padded, i);
  }

  /** Short of a block boundary the padding goes on, one zero at a time. */
  lemma PadStep(m: map<nat, Byte>, at: nat, content: seq<Byte>, i: nat)
    requires |content| <= i <= |Padded(content)| && i % BlockSize != 0
    ensures i < |Padded(content)|
    ensures Overlay(m, at, Padded(content)[..i + 1]) == Overlay(m, at, Padded(content)[..i])[at + i := 0]
  {
    assert (BlocksFor(|content|) * BlockSize) % BlockSize == 0;
    OverlayStep(m, at, Padded(content), i);
  }

  /** The first multiple of 512 at or after `n` is where the padding ends. */
  lemma PaddingEnds(n: nat, i: nat)
    requires n <= i <= BlocksFor(n) * BlockSize && i % BlockSize == 0
    ensures i == BlocksFor(n) * BlockSize
  {
    var b := BlocksFor(n);
    var q := i / BlockSize;
    assert i == q * BlockSize;
    if b > 0 {
      assert (b - 1) * BlockSize < q * BlockSize;
    }
  }

  /** The shift loop, in place on the node table. */
  method ShiftOffsets(nodes: array<Node>, j: nat, start: U32)
    requires j <= nodes.Length
    modifies nodes
    ensures nodes[..] == Shifted(old(nodes[..]), j, start)
  {
    var i := 0;
    while i < j
      invariant 0 <= i <= j
      invariant forall k :: 0 <= k < i ==>
        nodes[k] == old(nodes[k]).(blockOffset := (old(nodes[k]).blockOffset + start) % U32Modulus)
      invariant forall k :: i <= k < nodes.Length ==> nodes[k] == old(nodes[k])
    {
      nodes[i] := nodes[i].(blockOffset := (nodes[i].blockOffset + start) % U32Modulus);
      i := i + 1;
    }
  }

  /** One pass of the write loop: seek to entry i's block, then emit the table
      for the reserved source or copy the file.  `m0` is the image before the
      loop and `used` the sources of the used slots. */
  method WriteEntry(sink: Sink, table: array<Node>, i: nat, source: CStr, files: map<CStr, seq<Byte>>,
                    ghost m0: map<nat, Byte>, ghost used: seq<CStr>)
    returns (ok: bool)
    requires i < |used| <= table.Length && used[i] == source && SourcesFit(used, files)
    requires WriteEntries(m0, table[..], used, files, i) == Ok(sink.data)
    modifies sink
    ensures ok == (source == SuperblockName || source in files)
    ensures ok ==> WriteEntries(m0, table[..], used, files, i + 1) == Ok(sink.data)
    ensures !ok ==> WriteEntries(m0, table[..], used, files, i + 1) == Err(SourceNotFound(source))
  {
    WriteEntriesNext(m0, table[..], used, files, i, sink.data);
    assert FileFits(used[i], files);
    sink.Seek(SeekPosition(table[i].blockOffset));
    if source != SuperblockName {
      ok := WriteFile(source, files, sink);
    } else {
      sink.Write(EncodeTable(table[..]));
      ok := true;
    }
  }

  /** The write loop: seek to each used entry's block and emit its payload. */
  method WriteImage(sink: Sink, table: array<Node>, sources: array<CStr>, j: nat,
                    files: map<CStr, seq<Byte>>) returns (err: Option<Error>, wroteSuperblock: bool)
    requires j <= sources.Length && j <= table.Length
    requires SourcesFit(sources[..j], files)
    modifies sink
    ensures err.None? ==> WriteEntries(old(sink.data), table[..], sources[..j], files, j) == Ok(sink.data)
    ensures err.None? ==> wroteSuperblock == (SuperblockName in sources[..j])
    ensures err.Some? ==> WriteEntries(old(sink.data), table[..], sources[..j], files, j) == Err(err.value)
  {
    ghost var m0 := sink.data;
    ghost var t := table[..];
    ghost var used := sources[..j];
    assert SourcesFit(used, files);
    wroteSuperblock := false;
    var i := 0;
    while i < j
      invariant 0 <= i <= j
      invariant WriteEntries(m0, t, used, files, i) == Ok(sink.data)
      invariant wroteSuperblock == (SuperblockName in used[..i])
    {
      InPrefixStep(used, i, SuperblockName);
      var ok := WriteEntry(sink, table, i, sources[i], files, m0, used);
      if !ok {
        WriteEntriesStaysFailed(m0, t, used, files, i + 1, j);
        return Some(SourceNotFound(sources[i])), wroteSuperblock;
      }
      if sources[i] == SuperblockName {
        wroteSuperblock := true;
      }
      i := i + 1;
    }
    assert used[..i] == used;
    err := None;
  }

  lemma InPrefixStep(s: seq<CStr>, i: nat, x: CStr)
    requires i < |s|
    ensures (x in s[..i + 1]) == (x in s[..i] || s[i] == x)
  {
    assert s[..i + 1] == s[..i] + [s[i]];
  }

  /** An option argument: `-b` sets the start block, `-h` asks for help, `-o`
      sets the output path, any other letter is ignored. */
  method ApplyOption(arg: CStr, output: CStr, startBlock: U32, ghost st: ArgState, ghost files: map<CStr, seq<Byte>>)
    returns (stop: Option<Outcome>, output': CStr, startBlock': U32)
    requires IsOption(arg) && Shaped(st) && st.output == output && st.startBlock == startBlock
    ensures stop.Some? ==> StepArg(st, arg, files) == Stop(stop.value)
    ensures stop.None? ==> StepArg(st, arg, files) == Continue(st.(output := output', startBlock := startBlock'))
  {
    output', startBlock' := output, startBlock;
    stop := None;
    var letter := OptionLetter(arg);
    if letter == LetterB {
      startBlock' := Atol(arg[1..]) % U32Modulus;
    } else if letter == LetterH {
      stop := Some(ShowHelp);
    } else if letter == LetterO {
      output' := arg[1..];
    }
  }

  /** A file specifier while a slot is free: split it, record its source, name
      the slot, place it at the cursor and size it. */
  method FillSlot(arg: CStr, files: map<CStr, seq<Byte>>, nodes: array<Node>, sources: array<CStr>,
                  j: nat, offset: U32, ghost st: ArgState)
    returns (stop: Option<Outcome>, offset': U32)
    requires nodes.Length == NodeCount && sources.Length == NodeCount && j < NodeCount
    requires !IsOption(arg)
    requires st.nodes == nodes[..] && st.sources == sources[..j] && st.cursor == offset
    modifies nodes, sources
    ensures stop.Some? ==> StepArg(st, arg, files) == Stop(stop.value)
    ensures stop.None? ==> StepArg(st, arg, files)
                           == Continue(st.(nodes := nodes[..], sources := sources[..j + 1], cursor := offset'))
  {
    stop := None;
    offset' := offset;
    var spec := ParseSpecifier(arg);
    if spec.Err? {
      return Some(Failed(spec.error)), offset';
    }
    sources[j] := spec.value.source;
    nodes[j] := nodes[j].(name := CopyName(nodes[j].name, spec.value.name), blockOffset := offset);
    var count := CountBlocks(spec.value.source, files);
    if count.Err? {
      return Some(Failed(count.error)), offset';
    }
    nodes[j] := nodes[j].(blockCount := count.value);
    StepFileSpecifier(st, arg, files, spec.value, count.value);
    assert nodes[..] == st.nodes[j := st.nodes[j].(name := CopyName(st.nodes[j].name, spec.value.name),
                                                   blockOffset := offset, blockCount := count.value)];
    assert sources[..j + 1] == st.sources + [spec.value.source];
    offset' := (offset + count.value) % U32Modulus;
  }

  /** One pass of the argument loop over the variables of `main`: an option
      updates the output path or start block (or asks for help); a file
      specifier fills slot `j` of the node table. */
  method ApplyArgument(arg: CStr, files: map<CStr, seq<Byte>>, nodes: array<Node>, sources: array<CStr>,
                       output: CStr, startBlock: U32, j: nat, offset: U32)
    returns (stop: Option<Outcome>, output': CStr, startBlock': U32, j': nat, offset': U32)
    requires nodes.Length == NodeCount && sources.Length == NodeCount && j <= NodeCount
    modifies nodes, sources
    ensures j' <= NodeCount
    ensures stop.Some? ==> StepArg(ArgState(output, startBlock, old(nodes[..]), old(sources[..j]), offset), arg, files)
                           == Stop(stop.value)
    ensures stop.None? ==> StepArg(ArgState(output, startBlock, old(nodes[..]), old(sources[..j]), offset), arg, files)
                           == Continue(ArgState(output', startBlock', nodes[..], sources[..j'], offset'))
  {
    ghost var st := ArgState(output, startBlock, nodes[..], sources[..j], offset);
    output', startBlock', j', offset' := output, startBlock, j, offset;
    if IsOption(arg) {
      stop, output', startBlock' := ApplyOption(arg, output, startBlock, st, files);
    } else if j < NodeCount {
      stop, offset' := FillSlot(arg, files, nodes, sources, j, offset, st);
      if stop.None? {
        j' := j + 1;
      }
    } else {
      stop := Some(Failed(TooManyEntries(arg)));
    }
  }

  /** The argument loop of `main`, over a zeroed node table. */
  method ParseArguments(args: seq<CStr>, files: map<CStr, seq<Byte>>, nodes: array<Node>, sources: array<CStr>)
    returns (stop: Option<Outcome>, output: CStr, startBlock: U32, j: nat, offset: U32)
    requires nodes.Length == NodeCount && sources.Length == NodeCount
    requires nodes[..] == ZeroTable()
    modifies nodes, sources
    ensures j <= NodeCount
    ensures stop.Some? ==> Parse(args, files) == Stop(stop.value)
    ensures stop.None? ==> Parse(args, files)
                           == Continue(ArgState(output, startBlock, nodes[..], sources[..j], offset))
  {
    output, startBlock, offset, j := DefaultOutput, 0, 0, 0;
    stop := None;
    var i := 0;
    while i < |args|
      invariant 0 <= i <= |args| && 0 <= j <= NodeCount && stop.None?
      invariant Parse(args, files)
             == ParseFrom(args, i, ArgState(output, startBlock, nodes[..], sources[..j], offset), files)
    {
      ghost var st := ArgState(output, startBlock, nodes[..], sources[..j], offset);
      stop, output, startBlock, j, offset := ApplyArgument(args[i], files, nodes, sources, output, startBlock, j, offset);
      if stop.Some? {
        assert StepArg(st, args[i], files) == Stop(stop.value);
        ParseFromStop(args, i, st, files);
        return;
      }
      ParseFromContinue(args, i, st, ArgState(output, startBlock, nodes[..], sources[..j], offset), files);
      i := i + 1;
    }
  }

  /** The program's `main` without help text and diagnostics. */
  method Generate(args: seq<CStr>, files: map<CStr, seq<Byte>>, unwritable: set<CStr>) returns (outcome: Outcome)
    requires Parse(args, files).Continue? && Parse(args, files).st.output !in unwritable
             ==> SourcesFit(Parse(args, files).st.sources, files)
    ensures outcome == GenerateSpec(args, files, unwritable)
  {
    var nodes := new Node[NodeCount](_ => ZeroNode);
    var sources := new CStr[NodeCount](_ => []);
    assert nodes[..] == ZeroTable();
    var stop, output, startBlock, j, offset := ParseArguments(args, files, nodes, sources);
    if stop.Some? {
      return stop.value;
    }
    ShiftOffsets(nodes, j, startBlock);
    if output in unwritable {
      return Failed(SinkUnwritable(output));
    }
    var sink := new Sink();
    var err, wroteSuperblock := WriteImage(sink, nodes, sources, j, files);
    if err.Some? {
      return Failed(err.value);
    }
    outcome := Written(output, sink.data, !wroteSuperblock);
  }
}
