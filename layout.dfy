/**
 * What bfsgen promises about the image it builds, proved about the
 * specification functions of module BfsGen (which `BfsGen.Generate` is proved
 * to compute):
 *  - slot k of the directory table describes the k-th file specifier;
 *  - before the shift the offsets are prefix sums of the block counts, so the
 *    ranges are contiguous in argument order;
 *  - the shift moves every used offset by the same amount;
 *  - at most sixteen specifiers are accepted;
 *  - every file reads back from its blocks, zero-padded, and the table from its
 *    block; the warning is raised exactly when no source is `bfs`.
 */
module Layout {
  import opened Bfs
  import opened BfsGen

  // ----- positions in the argument list -----

  /** The arguments that are file specifiers, in order. */
  function FileArgs(args: seq<CStr>): seq<CStr>
  {
    if args == [] then []
    else FileArgs(args[..|args| - 1]) + (if IsOption(args[|args| - 1]) then [] else [args[|args| - 1]])
  }

  /** Sum of the block counts of the first `n` nodes. */
  function PrefixSum(nodes: seq<Node>, n: nat): nat
    requires n <= |nodes|
  {
    if n == 0 then 0 else PrefixSum(nodes, n - 1) + nodes[n - 1].blockCount
  }

  lemma {:induction false} PrefixSumMonotone(nodes: seq<Node>, a: nat, b: nat)
    requires a <= b <= |nodes|
    ensures PrefixSum(nodes, a) <= PrefixSum(nodes, b)
    decreases b - a
  {
    if a < b {
      PrefixSumMonotone(nodes, a, b - 1);
    }
  }

  /** Prefix sums depend on the counts alone. */
  lemma {:induction false} PrefixSumSameCounts(s: seq<Node>, t: seq<Node>, n: nat)
    requires n <= |s| && n <= |t|
    requires forall k :: 0 <= k < n ==> s[k].blockCount == t[k].blockCount
    ensures PrefixSum(s, n) == PrefixSum(t, n)
  {
    if n > 0 {
      PrefixSumSameCounts(s, t, n - 1);
    }
  }

  // ----- what the argument loop builds -----

  /** Slot k was filled from specifier `arg`: the source after '=', the name
      before it zero-filled to 16 bytes, the block count of that source, and
      reserved fields still zero. */
  predicate EntryMatches(arg: CStr, node: Node, source: CStr, files: map<CStr, seq<Byte>>)
  {
    && ParseSpecifier(arg).Ok?
    && source == ParseSpecifier(arg).value.source
    && node.name == ParseSpecifier(arg).value.name + Zeros(NameLength - |ParseSpecifier(arg).value.name|)
    && CountBlocks(source, files) == Ok(node.blockCount)
    && node.res1 == 0 && node.res2 == 0
  }

  /** The used slots and the sources match the file specifiers one by one. */
  predicate EntriesMatch(fileArgs: seq<CStr>, nodes: seq<Node>, sources: seq<CStr>, files: map<CStr, seq<Byte>>)
  {
    && |fileArgs| == |sources| <= |nodes|
    && forall k :: 0 <= k < |fileArgs| ==> EntryMatches(fileArgs[k], nodes[k], sources[k], files)
  }

  /** Slots from `n` on are as `memset` left them. */
  predicate UnusedZero(nodes: seq<Node>, n: nat)
  {
    forall k :: n <= k < |nodes| ==> nodes[k] == ZeroNode
  }

  /** The block offset of slot k.  Contiguity is stated on this name so that its
      quantifier fires only where a proof asks for an offset, not on every slot
      the prefix sums unfold. */
  function Offset(nodes: seq<Node>, k: nat): U32
    requires k < |nodes|
  {
    nodes[k].blockOffset
  }

  /** The first `n` slots lie back to back from block `start`. */
  predicate Contiguous(nodes: seq<Node>, n: nat, start: nat)
  {
    && n <= |nodes|
    && forall k {:trigger Offset(nodes, k)} :: 0 <= k < n ==> Offset(nodes, k) == start + PrefixSum(nodes, k)
  }

  lemma ContiguousAt(nodes: seq<Node>, n: nat, start: nat, k: nat)
    requires Contiguous(nodes, n, start) && k < n
    ensures nodes[k].blockOffset == start + PrefixSum(nodes, k)
  {
    assert Offset(nodes, k) == start + PrefixSum(nodes, k);
  }

  /** The first `n` slots lie back to back from block 0, each under 2^22 blocks,
      and the cursor is just past them. */
  predicate Placement(st: ArgState, n: nat)
  {
    && Contiguous(st.nodes, n, 0)
    && st.cursor == PrefixSum(st.nodes, n)
    && PrefixSum(st.nodes, n) <= n * 0x40_0000
  }

  /** The state of the argument loop after the file specifiers `fileArgs`; when
      every source so far fits the copy loop, the offsets never wrap. */
  predicate LayoutMatches(fileArgs: seq<CStr>, st: ArgState, files: map<CStr, seq<Byte>>)
  {
    && Shaped(st)
    && EntriesMatch(fileArgs, st.nodes, st.sources, files)
    && UnusedZero(st.nodes, |fileArgs|)
    && (SourcesFit(st.sources, files) ==> Placement(st, |fileArgs|))
  }

  lemma ModSmall(x: nat)
    requires x < U32Modulus
    ensures x % U32Modulus == x
  {
  }

  /** A source that fits the copy loop needs fewer than 2^22 blocks. */
  lemma CountFits(source: CStr, files: map<CStr, seq<Byte>>, count: U32)
    requires FileFits(source, files) && CountBlocks(source, files) == Ok(count)
    ensures count < 0x40_0000
  {
    if source != SuperblockName {
      BlocksForFit(|files[source]|);
    }
  }

  lemma EntriesStep(fileArgs: seq<CStr>, nodes: seq<Node>, sources: seq<CStr>, files: map<CStr, seq<Byte>>,
                    arg: CStr, node: Node, source: CStr)
    requires EntriesMatch(fileArgs, nodes, sources, files) && |fileArgs| < |nodes|
    requires EntryMatches(arg, node, source, files)
    ensures EntriesMatch(fileArgs + [arg], nodes[|fileArgs| := node], sources + [source], files)
  {
  }

  lemma UnusedStep(nodes: seq<Node>, n: nat, node: Node)
    requires UnusedZero(nodes, n) && n < |nodes|
    ensures UnusedZero(nodes[n := node], n + 1)
  {
  }

  lemma ContiguousStep(nodes: seq<Node>, n: nat, node: Node)
    requires Contiguous(nodes, n, 0) && n < |nodes|
    requires node.blockOffset == PrefixSum(nodes, n)
    ensures Contiguous(nodes[n := node], n + 1, 0)
    ensures PrefixSum(nodes[n := node], n + 1) == PrefixSum(nodes, n) + node.blockCount
  {
    var next := nodes[n := node];
    forall k | 0 <= k < n + 1
      ensures Offset(next, k) == PrefixSum(next, k)
    {
      if k < n {
        ContiguousAt(nodes, n, 0, k);
      }
      PrefixSumSameCounts(next, nodes, k);
    }
    PrefixSumSameCounts(next, nodes, n);
  }

  /** A new slot placed at the cursor extends the placement by one, and the
      cursor's `unsigned` sum does not wrap. */
  lemma PlacementStep(st: ArgState, node: Node, next: ArgState, count: U32)
    requires Shaped(st) && Placement(st, |st.sources|) && |st.sources| < NodeCount
    requires node.blockOffset == st.cursor && node.blockCount == count && count < 0x40_0000
    requires next.nodes == st.nodes[|st.sources| := node]
    requires next.cursor == (st.cursor + count) % U32Modulus
    ensures Placement(next, |st.sources| + 1)
  {
    var j := |st.sources|;
    ContiguousStep(st.nodes, j, node);
    ModSmall(st.cursor + count);
  }

  lemma StepKeepsLayout(fileArgs: seq<CStr>, st: ArgState, arg: CStr, files: map<CStr, seq<Byte>>)
    requires LayoutMatches(fileArgs, st, files)
    requires StepArg(st, arg, files).Continue?
    ensures LayoutMatches(fileArgs + (if IsOption(arg) then [] else [arg]), StepArg(st, arg, files).st, files)
  {
    if IsOption(arg) {
      StepOption(st, arg, files);
      SameDirectoryKeepsLayout(fileArgs, st, StepArg(st, arg, files).st, files);
      assert fileArgs + [] == fileArgs;
    } else {
      FileArgKeepsLayout(fileArgs, st, arg, files);
    }
  }

  lemma FileArgKeepsLayout(fileArgs: seq<CStr>, st: ArgState, arg: CStr, files: map<CStr, seq<Byte>>)
    requires LayoutMatches(fileArgs, st, files) && !IsOption(arg)
    requires StepArg(st, arg, files).Continue?
    ensures LayoutMatches(fileArgs + [arg], StepArg(st, arg, files).st, files)
  {
    var spec := ParseSpecifier(arg).value;
    var count := CountBlocks(spec.source, files).value;
    StepFileSpecifier(st, arg, files, spec, count);
    var j := |st.sources|;
    var node := st.nodes[j].(name := CopyName(st.nodes[j].name, spec.name), blockOffset := st.cursor, blockCount := count);
    FileStepKeepsLayout(fileArgs, st, arg, files, spec, count, node, StepArg(st, arg, files).st);
  }

  /** An option leaves the directory, the sources and the cursor alone. */
  lemma SameDirectoryKeepsLayout(fileArgs: seq<CStr>, st: ArgState, next: ArgState, files: map<CStr, seq<Byte>>)
    requires LayoutMatches(fileArgs, st, files)
    requires next.nodes == st.nodes && next.sources == st.sources && next.cursor == st.cursor
    ensures LayoutMatches(fileArgs, next, files)
  {
  }

  /** The node a file specifier writes into a zeroed slot matches the specifier. */
  lemma FilledSlotMatches(arg: CStr, files: map<CStr, seq<Byte>>, spec: Specifier, count: U32, slot: Node, node: Node)
    requires ParseSpecifier(arg) == Ok(spec) && CountBlocks(spec.source, files) == Ok(count)
    requires slot == ZeroNode
    requires node == slot.(name := CopyName(slot.name, spec.name), blockOffset := node.blockOffset, blockCount := count)
    ensures EntryMatches(arg, node, spec.source, files)
  {
    assert CopyName(ZeroNode.name, spec.name) == spec.name + Zeros(NameLength - |spec.name|);
  }

  lemma FileStepKeepsLayout(fileArgs: seq<CStr>, st: ArgState, arg: CStr, files: map<CStr, seq<Byte>>,
                            spec: Specifier, count: U32, node: Node, next: ArgState)
    requires LayoutMatches(fileArgs, st, files) && |st.sources| < NodeCount
    requires ParseSpecifier(arg) == Ok(spec) && CountBlocks(spec.source, files) == Ok(count)
    requires node == st.nodes[|st.sources|].(name := CopyName(st.nodes[|st.sources|].name, spec.name),
                                             blockOffset := st.cursor, blockCount := count)
    requires next == ArgState(st.output, st.startBlock, st.nodes[|st.sources| := node], st.sources + [spec.source],
                              (st.cursor + count) % U32Modulus)
    ensures LayoutMatches(fileArgs + [arg], next, files)
  {
    var j := |st.sources|;
    assert st.nodes[j] == ZeroNode;
    FilledSlotMatches(arg, files, spec, count, st.nodes[j], node);
    EntriesStep(fileArgs, st.nodes, st.sources, files, arg, node, spec.source);
    UnusedStep(st.nodes, j, node);
    if SourcesFit(next.sources, files) {
      assert forall k :: 0 <= k < j ==> next.sources[k] == st.sources[k];
      assert FileFits(next.sources[j], files);
      CountFits(spec.source, files, count);
      PlacementStep(st, node, next, count);
    }
  }

  lemma FileArgsStep(args: seq<CStr>, i: nat)
    requires i < |args|
    ensures FileArgs(args[..i + 1]) == FileArgs(args[..i]) + (if IsOption(args[i]) then [] else [args[i]])
  {
    assert args[..i + 1][..i] == args[..i];
  }

  lemma {:induction false} ParseFromKeepsLayout(args: seq<CStr>, i: nat, st: ArgState, files: map<CStr, seq<Byte>>)
    requires i <= |args| && LayoutMatches(FileArgs(args[..i]), st, files)
    requires ParseFrom(args, i, st, files).Continue?
    ensures LayoutMatches(FileArgs(args), ParseFrom(args, i, st, files).st, files)
    decreases |args| - i
  {
    if i == |args| {
      assert args[..i] == args;
    } else {
      var step := StepArg(st, args[i], files);
      assert step.Continue?;
      var next := step.st;
      ParseFromContinue(args, i, st, next, files);
      StepKeepsLayout(FileArgs(args[..i]), st, args[i], files);
      FileArgsStep(args, i);
      ParseFromKeepsLayout(args, i + 1, next, files);
    }
  }

  lemma InitialLayout(files: map<CStr, seq<Byte>>)
    ensures LayoutMatches([], InitialState, files)
  {
  }

  /** Directory fidelity: after the argument loop, slot k holds the k-th file
      specifier's name, source and block count, and every slot past the last is
      all zero; when every file fits the copy loop, the slots also lie back to
      back from block 0, in argument order. */
  lemma ParsedLayout(args: seq<CStr>, files: map<CStr, seq<Byte>>, st: ArgState)
    requires Parse(args, files) == Continue(st)
    ensures LayoutMatches(FileArgs(args), st, files)
  {
    InitialLayout(files);
    assert args[..0] == [];
    ParseFromKeepsLayout(args, 0, InitialState, files);
  }

  lemma ParsedPlacement(args: seq<CStr>, files: map<CStr, seq<Byte>>, st: ArgState)
    requires Parse(args, files) == Continue(st) && SourcesFit(st.sources, files)
    ensures Placement(st, |st.sources|)
  {
    ParsedLayout(args, files, st);
  }

  /** With sources of a size the copy loop can handle, the cursor never wraps:
      the offsets are exact prefix sums, entry 0 starts at block 0 and each entry
      starts where the previous one ends. */
  lemma OffsetsArePrefixSums(args: seq<CStr>, files: map<CStr, seq<Byte>>, st: ArgState)
    requires Parse(args, files) == Continue(st)
    requires SourcesFit(st.sources, files)
    ensures forall k :: 0 <= k < |st.sources| ==> st.nodes[k].blockOffset == PrefixSum(st.nodes, k)
    ensures |st.sources| > 0 ==> st.nodes[0].blockOffset == 0
    ensures forall k :: 0 <= k < |st.sources| - 1 ==>
              st.nodes[k + 1].blockOffset == st.nodes[k].blockOffset + st.nodes[k].blockCount
    ensures st.cursor == PrefixSum(st.nodes, |st.sources|)
  {
    ParsedPlacement(args, files, st);
    forall k | 0 <= k < |st.sources|
      ensures st.nodes[k].blockOffset == PrefixSum(st.nodes, k)
    {
      ContiguousAt(st.nodes, |st.sources|, 0, k);
    }
    forall k | 0 <= k < |st.sources| - 1
      ensures st.nodes[k + 1].blockOffset == st.nodes[k].blockOffset + st.nodes[k].blockCount
    {
      EntryEnds(st.nodes, |st.sources|, 0, k, k + 1);
      ContiguousAt(st.nodes, |st.sources|, 0, k + 1);
    }
  }

  // ----- the entry limit -----

  lemma {:induction false} ParseFromAppend(args: seq<CStr>, arg: CStr, i: nat, st: ArgState,
                                           files: map<CStr, seq<Byte>>)
    requires i <= |args| && Shaped(st)
    ensures ParseFrom(args + [arg], i, st, files)
            == match ParseFrom(args, i, st, files)
               case Stop(o) => Stop(o)
               case Continue(last) => StepArg(last, arg, files)
    decreases |args| - i
  {
    if i < |args| {
      assert (args + [arg])[i] == args[i];
      match StepArg(st, args[i], files)
      case Stop(o) =>
      case Continue(next) => ParseFromAppend(args, arg, i + 1, next, files);
    } else {
      assert (args + [arg])[i] == arg;
      match StepArg(st, arg, files)
      case Stop(o) =>
      case Continue(next) => assert ParseFrom(args + [arg], i + 1, next, files) == Continue(next);
    }
  }

  /** Once sixteen slots are used, the next file specifier fails, whatever it is. */
  lemma SeventeenthSpecifierFails(args: seq<CStr>, arg: CStr, files: map<CStr, seq<Byte>>, st: ArgState)
    requires Parse(args, files) == Continue(st) && |st.sources| == NodeCount
    requires !IsOption(arg)
    ensures Parse(args + [arg], files) == Stop(Failed(TooManyEntries(arg)))
  {
    ParseFromAppend(args, arg, 0, InitialState, files);
  }

  /** More than sixteen file specifiers never reach the output stage. */
  lemma TooManySpecifiersNeverWritten(args: seq<CStr>, files: map<CStr, seq<Byte>>)
    requires |FileArgs(args)| > NodeCount
    ensures Parse(args, files).Stop?
  {
    if Parse(args, files).Continue? {
      ParsedLayout(args, files, Parse(args, files).st);
    }
  }

  // ----- options -----

  /** One step keeps a zero start block: a `-b` value starts with 'b', where
      `atol` stops at once. */
  lemma StepKeepsStartZero(st: ArgState, arg: CStr, files: map<CStr, seq<Byte>>)
    requires Shaped(st) && st.startBlock == 0
    requires StepArg(st, arg, files).Continue?
    ensures StepArg(st, arg, files).st.startBlock == 0
  {
    if IsOption(arg) && |arg| > 1 && arg[1] == LetterB {
      assert Atol(arg[1..]) == LeadingDigits(arg[1..], 0) == 0;
    }
  }

  lemma {:induction false} ParseFromKeepsStartZero(args: seq<CStr>, i: nat, st: ArgState, files: map<CStr, seq<Byte>>)
    requires i <= |args| && Shaped(st) && st.startBlock == 0
    requires ParseFrom(args, i, st, files).Continue?
    ensures ParseFrom(args, i, st, files).st.startBlock == 0
    decreases |args| - i
  {
    if i < |args| {
      var step := StepArg(st, args[i], files);
      assert step.Continue?;
      ParseFromContinue(args, i, st, step.st, files);
      StepKeepsStartZero(st, args[i], files);
      ParseFromKeepsStartZero(args, i + 1, step.st, files);
    }
  }

  /** `-b` parses its value from the option letter on, and `atol` of a string
      that starts with 'b' is 0: the start block is always 0 from the command line. */
  lemma ParsedStartBlockIsZero(args: seq<CStr>, files: map<CStr, seq<Byte>>)
    requires Parse(args, files).Continue?
    ensures Parse(args, files).st.startBlock == 0
  {
    ParseFromKeepsStartZero(args, 0, InitialState, files);
  }

  /** Likewise `-ofoo` names the output `ofoo`. */
  lemma OutputKeepsOptionLetter(st: ArgState, path: CStr, files: map<CStr, seq<Byte>>)
    requires Shaped(st)
    ensures StepArg(st, [Dash, LetterO] + path, files) == Continue(st.(output := [LetterO] + path))
  {
    assert ([Dash, LetterO] + path)[1..] == [LetterO] + path;
  }

  // ----- the shift -----

  /** The shift moves each used offset by `start` and changes nothing else; with
      no wrap-around it keeps every gap between used offsets. */
  lemma ShiftMovesUsedOffsets(nodes: seq<Node>, j: nat, start: U32)
    requires j <= |nodes|
    ensures forall k :: 0 <= k < j ==> Shifted(nodes, j, start)[k].blockOffset == (nodes[k].blockOffset + start) % U32Modulus
    ensures forall k :: 0 <= k < |nodes| ==>
              Shifted(nodes, j, start)[k].name == nodes[k].name
              && Shifted(nodes, j, start)[k].blockCount == nodes[k].blockCount
              && Shifted(nodes, j, start)[k].res1 == nodes[k].res1
              && Shifted(nodes, j, start)[k].res2 == nodes[k].res2
    ensures forall k :: j <= k < |nodes| ==> Shifted(nodes, j, start)[k] == nodes[k]
    ensures forall a, b :: (0 <= a < j && 0 <= b < j && nodes[a].blockOffset + start < U32Modulus
                            && nodes[b].blockOffset + start < U32Modulus) ==>
              Shifted(nodes, j, start)[b].blockOffset - Shifted(nodes, j, start)[a].blockOffset
              == nodes[b].blockOffset - nodes[a].blockOffset
  {
  }

  // ----- the image -----

  /** The image holds `s` from position `at` on. */
  ghost predicate RegionHolds(image: map<nat, Byte>, at: nat, s: seq<Byte>)
  {
    forall p: nat :: at <= p < at + |s| ==> p in image && image[p] == s[p - at]
  }

  /** Writing `s` at `at` leaves it readable there. */
  lemma OverlayHolds(m: map<nat, Byte>, at: nat, s: seq<Byte>)
    ensures RegionHolds(Overlay(m, at, s), at, s)
  {
    forall p: nat | at <= p < at + |s|
      ensures p in Overlay(m, at, s) && Overlay(m, at, s)[p] == s[p - at]
    {
      OverlayAt(m, at, s, p);
    }
  }

  /** Writing at or past the end of a region keeps it. */
  lemma OverlayKeeps(m: map<nat, Byte>, at: nat, s: seq<Byte>, from: nat, r: seq<Byte>)
    requires RegionHolds(m, from, r) && from + |r| <= at
    ensures RegionHolds(Overlay(m, at, s), from, r)
  {
    forall p: nat | from <= p < from + |r|
      ensures p in Overlay(m, at, s) && Overlay(m, at, s)[p] == r[p - from]
    {
      OverlayAt(m, at, s, p);
    }
  }

  /** A count that suits the source: one block for the table, the ceiling of the
      file size for a file. */
  predicate Sized(source: CStr, files: map<CStr, seq<Byte>>, count: nat)
  {
    if source == SuperblockName then count == 1
    else source in files && count == BlocksFor(|files[source]|)
  }

  predicate AllSized(table: seq<Node>, sources: seq<CStr>, files: map<CStr, seq<Byte>>)
  {
    && |sources| <= |table|
    && forall k :: 0 <= k < |sources| ==> Sized(sources[k], files, table[k].blockCount)
  }

  /** A table whose used entries lie back to back from block `start`, each sized
      for its source, all below the 4 GiB that `unsigned` byte positions reach. */
  predicate Placed(table: seq<Node>, sources: seq<CStr>, files: map<CStr, seq<Byte>>, start: nat)
  {
    && |table| == NodeCount && |sources| <= NodeCount
    && Contiguous(table, |sources|, start)
    && AllSized(table, sources, files)
    && (start + PrefixSum(table, |sources|)) * BlockSize <= U32Modulus
  }

  lemma PayloadLength(table: seq<Node>, source: CStr, files: map<CStr, seq<Byte>>, count: nat)
    requires |table| == NodeCount && Sized(source, files, count)
    ensures source == SuperblockName || source in files
    ensures |Payload(table, source, files)| == count * BlockSize
  {
  }

  /** Entry k of a contiguous table ends where entry k + 1 starts, no later than
      entry i starts for any later i. */
  lemma EntryEnds(table: seq<Node>, n: nat, start: nat, k: nat, i: nat)
    requires Contiguous(table, n, start) && k < i <= n
    ensures table[k].blockOffset + table[k].blockCount == start + PrefixSum(table, k + 1)
    ensures start + PrefixSum(table, k + 1) <= start + PrefixSum(table, i)
  {
    ContiguousAt(table, n, start, k);
    PrefixSumMonotone(table, k + 1, i);
  }

  /** The seek of entry `i - 1` lands on its block when its region is not empty. */
  lemma SeekLands(table: seq<Node>, sources: seq<CStr>, files: map<CStr, seq<Byte>>, start: nat, i: nat)
    requires Placed(table, sources, files, start) && 0 < i <= |sources| && table[i - 1].blockCount > 0
    ensures SeekPosition(table[i - 1].blockOffset) == table[i - 1].blockOffset * BlockSize
  {
    EntryEnds(table, |sources|, start, i - 1, |sources|);
    var at := table[i - 1].blockOffset * BlockSize;
    assert at < (start + PrefixSum(table, i)) * BlockSize <= U32Modulus;
    ModSmall(at);
  }

  /** The first `n` payloads read back from their entries' regions. */
  ghost predicate PayloadsHeld(image: map<nat, Byte>, table: seq<Node>, sources: seq<CStr>,
                               files: map<CStr, seq<Byte>>, n: nat)
    requires n <= |sources| <= |table|
  {
    forall k :: 0 <= k < n ==>
      && (sources[k] == SuperblockName || sources[k] in files)
      && RegionHolds(image, table[k].blockOffset * BlockSize, Payload(table, sources[k], files))
  }

  /** Writing entry `i - 1` keeps the payload of an earlier entry `k`, which ends
      where the next entry starts. */
  lemma WriteKeepsEarlier(prev: map<nat, Byte>, table: seq<Node>, sources: seq<CStr>,
                          files: map<CStr, seq<Byte>>, start: nat, i: nat, k: nat)
    requires Placed(table, sources, files, start) && k < i - 1 && i <= |sources|
    requires sources[i - 1] == SuperblockName || sources[i - 1] in files
    requires sources[k] == SuperblockName || sources[k] in files
    requires RegionHolds(prev, table[k].blockOffset * BlockSize, Payload(table, sources[k], files))
    ensures RegionHolds(Overlay(prev, SeekPosition(table[i - 1].blockOffset), Payload(table, sources[i - 1], files)),
                        table[k].blockOffset * BlockSize, Payload(table, sources[k], files))
  {
    var payload := Payload(table, sources[i - 1], files);
    assert Sized(sources[i - 1], files, table[i - 1].blockCount);
    PayloadLength(table, sources[i - 1], files, table[i - 1].blockCount);
    if table[i - 1].blockCount == 0 {
      assert payload == [];
    } else {
      SeekLands(table, sources, files, start, i);
      assert Sized(sources[k], files, table[k].blockCount);
      PayloadLength(table, sources[k], files, table[k].blockCount);
      EntryEnds(table, |sources|, start, k, i - 1);
      ContiguousAt(table, |sources|, start, i - 1);
      OverlayKeeps(prev, table[i - 1].blockOffset * BlockSize, payload,
                   table[k].blockOffset * BlockSize, Payload(table, sources[k], files));
    }
  }

  /** Writing entry `i - 1` leaves its payload in its region. */
  lemma WriteLands(prev: map<nat, Byte>, table: seq<Node>, sources: seq<CStr>,
                   files: map<CStr, seq<Byte>>, start: nat, i: nat)
    requires Placed(table, sources, files, start) && 0 < i <= |sources|
    requires sources[i - 1] == SuperblockName || sources[i - 1] in files
    ensures RegionHolds(Overlay(prev, SeekPosition(table[i - 1].blockOffset), Payload(table, sources[i - 1], files)),
                        table[i - 1].blockOffset * BlockSize, Payload(table, sources[i - 1], files))
  {
    assert Sized(sources[i - 1], files, table[i - 1].blockCount);
    PayloadLength(table, sources[i - 1], files, table[i - 1].blockCount);
    if table[i - 1].blockCount > 0 {
      SeekLands(table, sources, files, start, i);
      OverlayHolds(prev, table[i - 1].blockOffset * BlockSize, Payload(table, sources[i - 1], files));
    }
  }

  /** One more write keeps the payloads already in place and adds the next one. */
  lemma WriteStep(prev: map<nat, Byte>, table: seq<Node>, sources: seq<CStr>, files: map<CStr, seq<Byte>>,
                  start: nat, i: nat)
    requires Placed(table, sources, files, start) && 0 < i <= |sources|
    requires PayloadsHeld(prev, table, sources, files, i - 1)
    requires sources[i - 1] == SuperblockName || sources[i - 1] in files
    ensures PayloadsHeld(Overlay(prev, SeekPosition(table[i - 1].blockOffset), Payload(table, sources[i - 1], files)),
                         table, sources, files, i)
  {
    var next := Overlay(prev, SeekPosition(table[i - 1].blockOffset), Payload(table, sources[i - 1], files));
    forall k | 0 <= k < i
      ensures && (sources[k] == SuperblockName || sources[k] in files)
              && RegionHolds(next, table[k].blockOffset * BlockSize, Payload(table, sources[k], files))
    {
      if k < i - 1 {
        WriteKeepsEarlier(prev, table, sources, files, start, i, k);
      } else {
        WriteLands(prev, table, sources, files, start, i);
      }
    }
  }

  /** The write loop on a placed table never fails, and afterwards every entry's
      payload reads back from its region, because later regions do not overlap it. */
  lemma {:induction false} WrittenRegions(m: map<nat, Byte>, table: seq<Node>, sources: seq<CStr>,
                                          files: map<CStr, seq<Byte>>, start: nat, i: nat)
    requires Placed(table, sources, files, start) && i <= |sources|
    ensures WriteEntries(m, table, sources, files, i).Ok?
    ensures PayloadsHeld(WriteEntries(m, table, sources, files, i).value, table, sources, files, i)
  {
    if i > 0 {
      WrittenRegions(m, table, sources, files, start, i - 1);
      var prev := WriteEntries(m, table, sources, files, i - 1).value;
      assert Sized(sources[i - 1], files, table[i - 1].blockCount);
      WriteEntriesNext(m, table, sources, files, i - 1, prev);
      WriteStep(prev, table, sources, files, start, i);
    }
  }

  /** A region holding `a + b` holds `a`, then `b` right after it. */
  lemma RegionSplit(image: map<nat, Byte>, at: nat, a: seq<Byte>, b: seq<Byte>)
    requires RegionHolds(image, at, a + b)
    ensures RegionHolds(image, at, a) && RegionHolds(image, at + |a|, b)
  {
    forall p: nat | at <= p < at + |a|
      ensures p in image && image[p] == a[p - at]
    {
      assert (a + b)[p - at] == a[p - at];
    }
    forall p: nat | at + |a| <= p < at + |a| + |b|
      ensures p in image && image[p] == b[p - (at + |a|)]
    {
      assert (a + b)[p - at] == b[p - (at + |a|)];
    }
  }

  /** What the image holds for one entry: the table itself for the reserved
      source, otherwise the file's bytes followed by zeros to the end of its
      last block. */
  ghost predicate EntryWritten(image: map<nat, Byte>, table: seq<Node>, source: CStr,
                               files: map<CStr, seq<Byte>>, node: Node)
  {
    var at := node.blockOffset * BlockSize;
    if source == SuperblockName then RegionHolds(image, at, EncodeTable(table))
    else source in files && |files[source]| <= node.blockCount * BlockSize
         && RegionHolds(image, at, files[source])
         && RegionHolds(image, at + |files[source]|, Zeros(node.blockCount * BlockSize - |files[source]|))
  }

  lemma PayloadWritten(image: map<nat, Byte>, table: seq<Node>, source: CStr,
                       files: map<CStr, seq<Byte>>, node: Node)
    requires |table| == NodeCount && Sized(source, files, node.blockCount)
    requires RegionHolds(image, node.blockOffset * BlockSize, Payload(table, source, files))
    ensures EntryWritten(image, table, source, files, node)
  {
    if source != SuperblockName {
      var content := files[source];
      assert Payload(table, source, files) == content + Zeros(node.blockCount * BlockSize - |content|);
      RegionSplit(image, node.blockOffset * BlockSize, content, Zeros(node.blockCount * BlockSize - |content|));
    }
  }

  /** The used entries of a file-fitting parse are sized for their sources. */
  lemma EntriesSized(fileArgs: seq<CStr>, nodes: seq<Node>, sources: seq<CStr>, files: map<CStr, seq<Byte>>)
    requires EntriesMatch(fileArgs, nodes, sources, files) && SourcesFit(sources, files)
    ensures AllSized(nodes, sources, files)
  {
    forall k | 0 <= k < |sources|
      ensures Sized(sources[k], files, nodes[k].blockCount)
    {
      assert EntryMatches(fileArgs[k], nodes[k], sources[k], files);
      assert FileFits(sources[k], files);
    }
  }

  /** The shift keeps every block count, so every prefix sum. */
  lemma ShiftKeepsSum(nodes: seq<Node>, j: nat, start: U32, n: nat)
    requires n <= |nodes|
    ensures PrefixSum(Shifted(nodes, j, start), n) == PrefixSum(nodes, n)
  {
    var table := Shifted(nodes, j, start);
    assert forall k :: 0 <= k < n ==> table[k].blockCount == nodes[k].blockCount;
    PrefixSumSameCounts(table, nodes, n);
  }

  /** The shift keeps the counts, so the sums and the sizing. */
  lemma ShiftKeepsCounts(nodes: seq<Node>, sources: seq<CStr>, files: map<CStr, seq<Byte>>, j: nat, start: U32)
    requires j <= |nodes| && AllSized(nodes, sources, files)
    ensures AllSized(Shifted(nodes, j, start), sources, files)
    ensures forall k :: 0 <= k <= |nodes| ==> PrefixSum(Shifted(nodes, j, start), k) == PrefixSum(nodes, k)
  {
    forall k | 0 <= k <= |nodes|
      ensures PrefixSum(Shifted(nodes, j, start), k) == PrefixSum(nodes, k)
    {
      ShiftKeepsSum(nodes, j, start, k);
    }
  }

  /** Shifting contiguous offsets from 0 by `start`, without wrap-around, makes
      them contiguous from `start`. */
  lemma ShiftKeepsContiguous(nodes: seq<Node>, j: nat, start: U32)
    requires Contiguous(nodes, j, 0) && start + PrefixSum(nodes, j) < U32Modulus
    ensures Contiguous(Shifted(nodes, j, start), j, start)
  {
    forall k | 0 <= k < j
      ensures Offset(Shifted(nodes, j, start), k) == start + PrefixSum(Shifted(nodes, j, start), k)
    {
      ShiftedOffset(nodes, j, start, k);
      ShiftKeepsSum(nodes, j, start, k);
    }
  }

  /** A used offset that is a prefix sum below the end moves by `start` exactly. */
  lemma ShiftedOffset(nodes: seq<Node>, j: nat, start: U32, k: nat)
    requires Contiguous(nodes, j, 0) && start + PrefixSum(nodes, j) < U32Modulus && k < j
    ensures Shifted(nodes, j, start)[k].blockOffset == start + PrefixSum(nodes, k)
  {
    ContiguousAt(nodes, j, 0, k);
    PrefixSumMonotone(nodes, k, j);
    ModSmall(nodes[k].blockOffset + start);
  }

  /** The shifted table of a parsed state whose image ends within 4 GiB is placed
      from the start block. */
  lemma ShiftedIsPlaced(args: seq<CStr>, files: map<CStr, seq<Byte>>, st: ArgState)
    requires Parse(args, files) == Continue(st)
    requires SourcesFit(st.sources, files)
    requires (st.startBlock + PrefixSum(st.nodes, |st.sources|)) * BlockSize <= U32Modulus
    ensures Placed(Shifted(st.nodes, |st.sources|, st.startBlock), st.sources, files, st.startBlock)
  {
    ParsedLayout(args, files, st);
    var j := |st.sources|;
    EntriesSized(FileArgs(args), st.nodes, st.sources, files);
    ShiftKeepsCounts(st.nodes, st.sources, files, j, st.startBlock);
    ShiftKeepsContiguous(st.nodes, j, st.startBlock);
  }

  /** The table that is written: every slot's reserved fields are zero, and the
      slots past the used ones are zero throughout, as `memset` left them. */
  lemma WrittenTableSlots(args: seq<CStr>, files: map<CStr, seq<Byte>>, st: ArgState)
    requires Parse(args, files) == Continue(st)
    ensures forall k :: 0 <= k < NodeCount ==>
              Shifted(st.nodes, |st.sources|, st.startBlock)[k].res1 == 0
              && Shifted(st.nodes, |st.sources|, st.startBlock)[k].res2 == 0
    ensures forall k :: |st.sources| <= k < NodeCount ==> Shifted(st.nodes, |st.sources|, st.startBlock)[k] == ZeroNode
  {
    ParsedLayout(args, files, st);
    var table := Shifted(st.nodes, |st.sources|, st.startBlock);
    forall k | 0 <= k < NodeCount
      ensures table[k].res1 == 0 && table[k].res2 == 0
    {
      if k < |st.sources| {
        assert EntryMatches(FileArgs(args)[k], st.nodes[k], st.sources[k], files);
      }
    }
  }

  /** Every source of a parse that goes on was sized, so it is the table or a
      file that opens. */
  lemma ParsedSourcesOpen(args: seq<CStr>, files: map<CStr, seq<Byte>>, st: ArgState)
    requires Parse(args, files) == Continue(st)
    ensures forall k :: 0 <= k < |st.sources| ==> Openable(st.sources[k], files)
  {
    ParsedLayout(args, files, st);
    forall k | 0 <= k < |st.sources|
      ensures Openable(st.sources[k], files)
    {
      assert EntryMatches(FileArgs(args)[k], st.nodes[k], st.sources[k], files);
    }
  }

  /** When the arguments parse and the output can be created, the run writes an
      image to that output, whatever the sizes and offsets: every source was
      opened once already, so the write loop cannot fail.  The warning is raised
      exactly when no source is `bfs`. */
  lemma ParsedRunWrites(args: seq<CStr>, files: map<CStr, seq<Byte>>, unwritable: set<CStr>, st: ArgState)
    requires Parse(args, files) == Continue(st) && st.output !in unwritable
    ensures GenerateSpec(args, files, unwritable).Written?
    ensures GenerateSpec(args, files, unwritable).output == st.output
    ensures GenerateSpec(args, files, unwritable).superblockMissing <==> SuperblockName !in st.sources
  {
    ParsedSourcesOpen(args, files, st);
    WriteEntriesSucceeds(map[], Shifted(st.nodes, |st.sources|, st.startBlock), st.sources, files, |st.sources|);
  }

  /** The image the program writes, when its arguments parse to `st`, every
      source fits the copy loop, the output can be created and the image ends
      within 4 GiB: the run succeeds; the warning is raised exactly when no
      source is `bfs`; entry k starts at block `start_block` plus the blocks
      before it; it holds the file's bytes then zeros, or the full shifted table
      for `bfs`. */
  lemma GeneratedImage(args: seq<CStr>, files: map<CStr, seq<Byte>>, unwritable: set<CStr>, st: ArgState)
    requires Parse(args, files) == Continue(st)
    requires SourcesFit(st.sources, files)
    requires st.output !in unwritable
    requires (st.startBlock + PrefixSum(st.nodes, |st.sources|)) * BlockSize <= U32Modulus
    ensures GenerateSpec(args, files, unwritable).Written?
    ensures GenerateSpec(args, files, unwritable).output == st.output
    ensures GenerateSpec(args, files, unwritable).superblockMissing <==> SuperblockName !in st.sources
    ensures forall k :: 0 <= k < |st.sources| ==>
              Shifted(st.nodes, |st.sources|, st.startBlock)[k].blockOffset
              == st.startBlock + PrefixSum(st.nodes, k)
    ensures forall k :: 0 <= k < |st.sources| ==>
              EntryWritten(GenerateSpec(args, files, unwritable).image,
                           Shifted(st.nodes, |st.sources|, st.startBlock), st.sources[k], files,
                           Shifted(st.nodes, |st.sources|, st.startBlock)[k])
  {
    var j := |st.sources|;
    var table := Shifted(st.nodes, j, st.startBlock);
    ParsedRunWrites(args, files, unwritable, st);
    ShiftedIsPlaced(args, files, st);
    ShiftKeepsCounts(st.nodes, st.sources, files, j, st.startBlock);
    forall k | 0 <= k < j
      ensures table[k].blockOffset == st.startBlock + PrefixSum(st.nodes, k)
    {
      ContiguousAt(table, j, st.startBlock, k);
    }
    WrittenRegions(map[], table, st.sources, files, st.startBlock, j);
    var image := WriteEntries(map[], table, st.sources, files, j).value;
    forall k | 0 <= k < j
      ensures EntryWritten(image, table, st.sources[k], files, table[k])
    {
      assert Sized(st.sources[k], files, table[k].blockCount);
      PayloadWritten(image, table, st.sources[k], files, table[k]);
    }
  }
}
