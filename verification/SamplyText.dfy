/** `scripts/samply_to_text.py`: symbol lookup, memoised stack paths and folding. */
module SamplyText {
  import opened Wrappers
  import opened Text
  import opened Sorting

  // ----- the profile's tables

  datatype Frame = Frame(func: nat, address: Option<int>)

  datatype Func = Func(name: nat, resource: Option<int>)

  datatype Thread = Thread(
    frames: seq<Frame>,
    funcs: seq<Func>,
    resourceLibs: seq<Option<int>>,
    strings: seq<string>,
    stackPrefix: seq<Option<nat>>,
    stackFrame: seq<nat>,
    samples: seq<Option<nat>>)

  /** Every index in the tables refers to something, and stack links go strictly downward. */
  predicate WellFormed(t: Thread) {
    && (forall i :: 0 <= i < |t.frames| ==> t.frames[i].func < |t.funcs|)
    && (forall i :: 0 <= i < |t.funcs| ==>
          && t.funcs[i].name < |t.strings|
          && (t.funcs[i].resource.Some? ==> t.funcs[i].resource.value < |t.resourceLibs|))
    && |t.stackPrefix| == |t.stackFrame|
    && (forall i :: 0 <= i < |t.stackFrame| ==> t.stackFrame[i] < |t.frames|)
    && (forall i :: 0 <= i < |t.stackPrefix| && t.stackPrefix[i].Some? ==> t.stackPrefix[i].value < i)
    && (forall i :: 0 <= i < |t.samples| && t.samples[i].Some? ==> t.samples[i].value < |t.stackFrame|)
  }

  // ----- symbols

  datatype Range = Range(start: int, end: int, name: string)

  datatype Resolver = Resolver(known: map<int, string>, ranges: seq<Range>)

  /** A row of the sidecar's symbol table; `size` defaults to 0. */
  datatype SymbolRow = SymbolRow(rva: int, size: nat, symbol: int)

  datatype SymsEntry = SymsEntry(codeId: string, knownAddresses: seq<(int, int)>, symbolTable: seq<SymbolRow>)

  function NameAt(stringTable: seq<string>, index: int): string {
    if 0 <= index < |stringTable| then stringTable[index] else "0x?"
  }

  /** Tuple comparison of (start, end, name). */
  predicate RangeLe(a: Range, b: Range) {
    if a.start != b.start then a.start < b.start
    else if a.end != b.end then a.end < b.end
    else StringLe(a.name, b.name)
  }

  function KnownNames(stringTable: seq<string>, pairs: seq<(int, int)>): map<int, string> {
    if pairs == [] then map[]
    else
      var (address, index) := pairs[|pairs| - 1];
      KnownNames(stringTable, pairs[..|pairs| - 1])[address := NameAt(stringTable, index)]
  }

  function RangesOf(stringTable: seq<string>, rows: seq<SymbolRow>): (r: seq<Range>)
    ensures |r| == |rows|
    ensures forall i :: 0 <= i < |r| ==>
      r[i] == Range(rows[i].rva, rows[i].rva + rows[i].size, NameAt(stringTable, rows[i].symbol))
  {
    seq(|rows|, i requires 0 <= i < |rows| =>
      Range(rows[i].rva, rows[i].rva + rows[i].size, NameAt(stringTable, rows[i].symbol)))
  }

  function ResolverOf(stringTable: seq<string>, entry: SymsEntry): Resolver {
    Resolver(KnownNames(stringTable, entry.knownAddresses), Sort(RangesOf(stringTable, entry.symbolTable), RangeLe))
  }

  /** `{entry["code_id"]: entry for entry in syms["data"]}`: the last entry with an id wins. */
  function EntryFor(entries: seq<SymsEntry>, codeId: string): Option<SymsEntry> {
    if entries == [] then None
    else if entries[|entries| - 1].codeId == codeId then Some(entries[|entries| - 1])
    else EntryFor(entries[..|entries| - 1], codeId)
  }

  /** The last pair of an address names it; an index outside the table is printed as "0x?". */
  lemma {:induction false} KnownIsLastPair(stringTable: seq<string>, pairs: seq<(int, int)>, i: nat)
    requires i < |pairs| && forall j :: i < j < |pairs| ==> pairs[j].0 != pairs[i].0
    ensures pairs[i].0 in KnownNames(stringTable, pairs)
    ensures KnownNames(stringTable, pairs)[pairs[i].0]
         == if 0 <= pairs[i].1 < |stringTable| then stringTable[pairs[i].1] else "0x?"
  {
    if i < |pairs| - 1 {
      KnownIsLastPair(stringTable, pairs[..|pairs| - 1], i);
    }
  }

  lemma {:induction false} KnownWasListed(stringTable: seq<string>, pairs: seq<(int, int)>, address: int)
    requires address in KnownNames(stringTable, pairs)
    ensures exists i :: 0 <= i < |pairs| && pairs[i].0 == address
  {
    var init, last := pairs[..|pairs| - 1], pairs[|pairs| - 1];
    if address != last.0 {
      KnownWasListed(stringTable, init, address);
      var i :| 0 <= i < |init| && init[i].0 == address;
      assert pairs[i].0 == address;
    } else {
      assert pairs[|pairs| - 1].0 == address;
    }
  }

  /** Position `i` holds the last entry with the code id. */
  predicate LastWithId(entries: seq<SymsEntry>, codeId: string, i: nat) {
    i < |entries| && entries[i].codeId == codeId && forall j :: i < j < |entries| ==> entries[j].codeId != codeId
  }

  /** The entry for a code id is the last one with it. */
  lemma {:induction false} EntryForIsLast(entries: seq<SymsEntry>, codeId: string)
    ensures EntryFor(entries, codeId).None? ==> forall i :: 0 <= i < |entries| ==> entries[i].codeId != codeId
    ensures EntryFor(entries, codeId).Some? ==>
      exists i: nat :: LastWithId(entries, codeId, i) && entries[i] == EntryFor(entries, codeId).value
  {
    if entries != [] {
      var init, last := entries[..|entries| - 1], entries[|entries| - 1];
      if last.codeId == codeId {
        assert LastWithId(entries, codeId, |entries| - 1);
      } else {
        EntryForIsLast(init, codeId);
        if EntryFor(init, codeId).Some? {
          var i: nat :| LastWithId(init, codeId, i) && init[i] == EntryFor(init, codeId).value;
          assert LastWithId(entries, codeId, i);
        }
      }
    }
  }

  /** A resolver's ranges are those of the symbol table's rows, each from its start to start plus size. */
  lemma ResolverHoldsRows(stringTable: seq<string>, entry: SymsEntry)
    ensures multiset(ResolverOf(stringTable, entry).ranges) == multiset(RangesOf(stringTable, entry.symbolTable))
    ensures ResolverOf(stringTable, entry).known == KnownNames(stringTable, entry.knownAddresses)
  {
    SortPermutes(RangesOf(stringTable, entry.symbolTable), RangeLe);
  }

  /** `build_symbolicator`: a resolver for every library whose code id has an entry. */
  method BuildSymbolicator(libs: seq<Option<string>>, entries: seq<SymsEntry>, stringTable: seq<string>)
    returns (resolvers: map<int, Resolver>)
    ensures forall i :: i in resolvers <==> 0 <= i < |libs| && libs[i].Some? && EntryFor(entries, libs[i].value).Some?
    ensures forall i :: i in resolvers ==>
      resolvers[i] == ResolverOf(stringTable, EntryFor(entries, libs[i].value).value)
  {
    resolvers := map[];
    for n := 0 to |libs|
      invariant forall i :: i in resolvers <==> 0 <= i < n && libs[i].Some? && EntryFor(entries, libs[i].value).Some?
      invariant forall i :: i in resolvers ==>
        resolvers[i] == ResolverOf(stringTable, EntryFor(entries, libs[i].value).value)
    {
      var entry := if libs[n].Some? then EntryFor(entries, libs[n].value) else None;
      if entry.Some? {
        resolvers := resolvers[n := ResolverOf(stringTable, entry.value)];
      }
    }
  }

  /** `bisect.bisect_right` on the range starts, between `lo` and `hi`. */
  function BisectRight(ranges: seq<Range>, address: int, lo: nat, hi: nat): (pos: nat)
    requires lo <= hi <= |ranges|
    ensures lo <= pos <= hi
    decreases hi - lo
  {
    if lo == hi then lo
    else
      var mid := (lo + hi) / 2;
      if address < ranges[mid].start then BisectRight(ranges, address, lo, mid)
      else BisectRight(ranges, address, mid + 1, hi)
  }

  predicate Covers(r: Range, address: int) {
    r.start <= address < r.end
  }

  /** The lookup in one library's table. */
  function LookUp(resolver: Resolver, address: int): Option<string> {
    if address in resolver.known then Some(resolver.known[address])
    else
      var pos := BisectRight(resolver.ranges, address, 0, |resolver.ranges|) - 1;
      if 0 <= pos < |resolver.ranges| && Covers(resolver.ranges[pos], address) then Some(resolver.ranges[pos].name)
      else None
  }

  /** The lookup a linear scan would make. */
  function ScanRanges(ranges: seq<Range>, address: int): Option<string> {
    if ranges == [] then None
    else if Covers(ranges[0], address) then Some(ranges[0].name)
    else ScanRanges(ranges[1..], address)
  }

  predicate StartsAscend(ranges: seq<Range>) {
    forall i, j :: 0 <= i < j < |ranges| ==> ranges[i].start <= ranges[j].start
  }

  predicate NoOverlap(ranges: seq<Range>) {
    forall i :: 0 <= i < |ranges| - 1 ==> ranges[i].end <= ranges[i + 1].start
  }

  lemma {:induction false} BisectSplits(ranges: seq<Range>, address: int, lo: nat, hi: nat)
    requires lo <= hi <= |ranges| && StartsAscend(ranges)
    requires forall i :: 0 <= i < lo ==> ranges[i].start <= address
    requires forall i :: hi <= i < |ranges| ==> address < ranges[i].start
    ensures var pos := BisectRight(ranges, address, lo, hi);
            && (forall i :: 0 <= i < pos ==> ranges[i].start <= address)
            && (forall i :: pos <= i < |ranges| ==> address < ranges[i].start)
    decreases hi - lo
  {
    if lo < hi {
      var mid := (lo + hi) / 2;
      if address < ranges[mid].start {
        BisectSplits(ranges, address, lo, mid);
      } else {
        BisectSplits(ranges, address, mid + 1, hi);
      }
    }
  }

  lemma {:induction false} EndsPrecedeLaterStarts(ranges: seq<Range>, i: nat, j: nat)
    requires NoOverlap(ranges) && StartsAscend(ranges) && i < j < |ranges|
    ensures ranges[i].end <= ranges[j].start
  {
    if i + 1 < j {
      EndsPrecedeLaterStarts(ranges, i, j - 1);
      assert ranges[i + 1].start <= ranges[j].start;
      assert ranges[i].end <= ranges[i + 1].start;
    }
  }

  /** With ranges that do not overlap, an address lies in at most one. */
  lemma AtMostOneCovers(ranges: seq<Range>, address: int, i: nat, j: nat)
    requires NoOverlap(ranges) && StartsAscend(ranges) && i < |ranges| && j < |ranges|
    requires Covers(ranges[i], address) && Covers(ranges[j], address)
    ensures i == j
  {
    if i < j {
      EndsPrecedeLaterStarts(ranges, i, j);
    } else if j < i {
      EndsPrecedeLaterStarts(ranges, j, i);
    }
  }

  lemma {:induction false} ScanFindsCover(ranges: seq<Range>, address: int)
    ensures match ScanRanges(ranges, address)
            case None => forall i :: 0 <= i < |ranges| ==> !Covers(ranges[i], address)
            case Some(name) => exists i :: 0 <= i < |ranges| && Covers(ranges[i], address) && ranges[i].name == name
  {
    if ranges != [] && !Covers(ranges[0], address) {
      ScanFindsCover(ranges[1..], address);
      match ScanRanges(ranges[1..], address)
      case None =>
        forall i | 0 <= i < |ranges| ensures !Covers(ranges[i], address) {
          assert i > 0 ==> ranges[i] == ranges[1..][i - 1];
        }
      case Some(name) =>
        var i :| 0 <= i < |ranges[1..]| && Covers(ranges[1..][i], address) && ranges[1..][i].name == name;
        assert ranges[i + 1] == ranges[1..][i];
    }
  }

  /** The bisecting lookup gives the known name first, and otherwise what the linear scan gives. */
  lemma BisectAgreesWithScan(resolver: Resolver, address: int)
    requires StartsAscend(resolver.ranges) && NoOverlap(resolver.ranges)
    ensures LookUp(resolver, address)
         == if address in resolver.known then Some(resolver.known[address]) else ScanRanges(resolver.ranges, address)
  {
    hide BisectRight, ScanRanges;
    var ranges := resolver.ranges;
    BisectSplits(ranges, address, 0, |ranges|);
    ScanFindsCover(ranges, address);
    var pos := BisectRight(ranges, address, 0, |ranges|);
    if i :| 0 <= i < |ranges| && Covers(ranges[i], address) {
      assert i < pos;
      if i < pos - 1 {
        EndsPrecedeLaterStarts(ranges, i, pos - 1);
      }
      assert i == pos - 1;
      var name := ScanRanges(ranges, address).value;
      var j :| 0 <= j < |ranges| && Covers(ranges[j], address) && ranges[j].name == name;
      AtMostOneCovers(ranges, address, i, j);
    }
  }

  lemma RangeLeIsPreorder()
    ensures TotalPreorder(RangeLe)
  {
    forall a: Range, b: Range ensures RangeLe(a, b) || RangeLe(b, a) {
      StringLeIsTotal(a.name, b.name);
    }
    forall a: Range, b: Range, c: Range | RangeLe(a, b) && RangeLe(b, c) ensures RangeLe(a, c) {
      if StringLe(a.name, b.name) && StringLe(b.name, c.name) {
        StringLeIsTransitive(a.name, b.name, c.name);
      }
    }
  }

  /** Tuples compare by start, then end, then name. */
  lemma RangeLeIsTupleOrder(a: Range, b: Range)
    ensures a.start < b.start ==> RangeLe(a, b) && !RangeLe(b, a)
    ensures a.start == b.start && a.end < b.end ==> RangeLe(a, b) && !RangeLe(b, a)
    ensures a.start == b.start && a.end == b.end ==> (RangeLe(a, b) <==> StringLe(a.name, b.name))
    ensures RangeLe(a, b) && RangeLe(b, a) ==> a == b
  {
    StringLeIsTotal(a.name, b.name);
  }

  /** The ranges a resolver is built with have ascending starts, as the bisection needs. */
  lemma ResolverStartsAscend(stringTable: seq<string>, entry: SymsEntry)
    ensures StartsAscend(ResolverOf(stringTable, entry).ranges)
  {
    var ranges := ResolverOf(stringTable, entry).ranges;
    RangeLeIsPreorder();
    SortSorts(RangesOf(stringTable, entry.symbolTable), RangeLe);
    forall i, j | 0 <= i < j < |ranges| ensures ranges[i].start <= ranges[j].start {
      assert RangeLe(ranges[i], ranges[j]);
    }
  }

  /** `resolve_frame_name`. */
  function ResolveFrameName(t: Thread, frame: nat, resolvers: Option<map<int, Resolver>>): string
    requires WellFormed(t) && frame < |t.frames|
  {
    var func := t.funcs[t.frames[frame].func];
    var fallback := t.strings[func.name];
    var address := t.frames[frame].address;
    if resolvers.None? || address.None? || address.value < 0 then fallback
    else if func.resource.None? || func.resource.value < 0 then fallback
    else
      var lib := t.resourceLibs[func.resource.value];
      if lib.None? || lib.value !in resolvers.value then fallback
      else match LookUp(resolvers.value[lib.value], address.value)
        case Some(name) => name
        case None => fallback
  }

  /** The resolver a frame is looked up in: its library's, if the frame has an address and a library at all. */
  predicate LookedUpIn(t: Thread, frame: nat, resolvers: map<int, Resolver>, address: int, lib: int)
    requires WellFormed(t) && frame < |t.frames|
  {
    var resource := t.funcs[t.frames[frame].func].resource;
    && t.frames[frame].address == Some(address) && address >= 0
    && resource.Some? && resource.value >= 0 && t.resourceLibs[resource.value] == Some(lib)
    && lib in resolvers
  }

  /**
   * A frame gets the known name of its address, else the name of whichever range holds the address, else
   * the profile's own name for it, as it also does when it has no address, library or resolver.
   */
  lemma FrameNameIsFound(t: Thread, frame: nat, resolvers: map<int, Resolver>)
    requires WellFormed(t) && frame < |t.frames|
    requires forall lib :: lib in resolvers ==> StartsAscend(resolvers[lib].ranges) && NoOverlap(resolvers[lib].ranges)
    ensures var name, raw := ResolveFrameName(t, frame, Some(resolvers)), t.strings[t.funcs[t.frames[frame].func].name];
            && ((forall address, lib :: !LookedUpIn(t, frame, resolvers, address, lib)) ==> name == raw)
            && forall address, lib | LookedUpIn(t, frame, resolvers, address, lib) ::
                 var resolver := resolvers[lib];
                 if address in resolver.known then name == resolver.known[address]
                 else
                   && (forall i :: 0 <= i < |resolver.ranges| && Covers(resolver.ranges[i], address) ==>
                         name == resolver.ranges[i].name)
                   && ((forall i :: 0 <= i < |resolver.ranges| ==> !Covers(resolver.ranges[i], address)) ==>
                         name == raw)
  {
    hide LookUp, StartsAscend, NoOverlap;
    var name := ResolveFrameName(t, frame, Some(resolvers));
    if address, lib :| LookedUpIn(t, frame, resolvers, address, lib) {
      LookUpFindsCover(resolvers[lib], address);
    } else {
      NotLookedUp(t, frame, resolvers);
    }
  }

  /** Without a sidecar every frame keeps the profile's own name. */
  lemma NoResolversNoLookup(t: Thread, frame: nat)
    requires WellFormed(t) && frame < |t.frames|
    ensures ResolveFrameName(t, frame, None) == t.strings[t.funcs[t.frames[frame].func].name]
  {}

  lemma NotLookedUp(t: Thread, frame: nat, resolvers: map<int, Resolver>)
    requires WellFormed(t) && frame < |t.frames|
    requires forall address, lib :: !LookedUpIn(t, frame, resolvers, address, lib)
    ensures ResolveFrameName(t, frame, Some(resolvers)) == t.strings[t.funcs[t.frames[frame].func].name]
  {
    hide LookUp;
    var address, resource := t.frames[frame].address, t.funcs[t.frames[frame].func].resource;
    if address.Some? && address.value >= 0 && resource.Some? && resource.value >= 0 {
      var lib := t.resourceLibs[resource.value];
      assert lib.Some? ==> !LookedUpIn(t, frame, resolvers, address.value, lib.value);
    }
  }

  lemma LookUpFindsCover(resolver: Resolver, address: int)
    requires StartsAscend(resolver.ranges) && NoOverlap(resolver.ranges)
    ensures address in resolver.known ==> LookUp(resolver, address) == Some(resolver.known[address])
    ensures address !in resolver.known ==>
      && (forall i :: 0 <= i < |resolver.ranges| && Covers(resolver.ranges[i], address) ==>
            LookUp(resolver, address) == Some(resolver.ranges[i].name))
      && ((forall i :: 0 <= i < |resolver.ranges| ==> !Covers(resolver.ranges[i], address)) ==>
            LookUp(resolver, address) == None)
  {
    hide LookUp;
    var ranges := resolver.ranges;
    BisectAgreesWithScan(resolver, address);
    ScanFindsCover(ranges, address);
    forall i | address !in resolver.known && 0 <= i < |ranges| && Covers(ranges[i], address)
      ensures LookUp(resolver, address) == Some(ranges[i].name)
    {
      var j :| 0 <= j < |ranges| && Covers(ranges[j], address) && ranges[j].name == ScanRanges(ranges, address).value;
      AtMostOneCovers(ranges, address, i, j);
    }
  }

  // ----- stacks

  /** The plain recursion: the root-to-leaf names of a stack. */
  function Path(t: Thread, stack: nat, resolvers: Option<map<int, Resolver>>): (names: seq<string>)
    requires WellFormed(t) && stack < |t.stackFrame|
    ensures names != []
  {
    var leaf := [ResolveFrameName(t, t.stackFrame[stack], resolvers)];
    if t.stackPrefix[stack].None? then leaf else Path(t, t.stackPrefix[stack].value, resolvers) + leaf
  }

  /** The stacks from one without a prefix up to `stack`, each the prefix of the next. */
  predicate IsChain(t: Thread, chain: seq<nat>, stack: nat) {
    && |t.stackPrefix| == |t.stackFrame| && chain != [] && chain[|chain| - 1] == stack
    && (forall i :: 0 <= i < |chain| ==> chain[i] < |t.stackFrame|)
    && t.stackPrefix[chain[0]] == None
    && (forall i :: 0 < i < |chain| ==> t.stackPrefix[chain[i]] == Some(chain[i - 1]))
  }

  /** The names are those of the chain's frames, root first. */
  predicate NamesChain(t: Thread, chain: seq<nat>, names: seq<string>, resolvers: Option<map<int, Resolver>>)
    requires WellFormed(t) && forall i :: 0 <= i < |chain| ==> chain[i] < |t.stackFrame|
  {
    |names| == |chain|
    && forall i :: 0 <= i < |names| ==> names[i] == ResolveFrameName(t, t.stackFrame[chain[i]], resolvers)
  }

  ghost predicate IsRootToLeaf(t: Thread, stack: nat, names: seq<string>, resolvers: Option<map<int, Resolver>>)
    requires WellFormed(t)
  {
    exists chain :: IsChain(t, chain, stack) && NamesChain(t, chain, names, resolvers)
  }

  /** The plain recursion lists the chain of a stack from its root to the stack itself. */
  lemma {:induction false} PathFollowsChain(t: Thread, stack: nat, resolvers: Option<map<int, Resolver>>)
    returns (chain: seq<nat>)
    requires WellFormed(t) && stack < |t.stackFrame|
    ensures IsChain(t, chain, stack) && NamesChain(t, chain, Path(t, stack, resolvers), resolvers)
    decreases stack
  {
    hide ResolveFrameName;
    if t.stackPrefix[stack].None? {
      chain := [stack];
    } else {
      chain := PathFollowsChain(t, t.stackPrefix[stack].value, resolvers);
      chain := chain + [stack];
    }
  }

  lemma ChainInit(t: Thread, stack: nat, chain: seq<nat>)
    requires WellFormed(t) && IsChain(t, chain, stack)
    ensures if t.stackPrefix[stack].None? then |chain| == 1
            else IsChain(t, chain[..|chain| - 1], t.stackPrefix[stack].value)
  {
    if |chain| > 1 {
      assert t.stackPrefix[chain[|chain| - 1]] == Some(chain[|chain| - 2]);
    }
  }

  /** A stack has only one such chain, so only one list of names. */
  lemma {:induction false} ChainIsUnique(t: Thread, stack: nat, a: seq<nat>, b: seq<nat>)
    requires WellFormed(t) && IsChain(t, a, stack) && IsChain(t, b, stack)
    ensures a == b
    decreases |a|
  {
    var p, q := a[..|a| - 1], b[..|b| - 1];
    assert a == p + [stack] && b == q + [stack];
    ChainInit(t, stack, a);
    ChainInit(t, stack, b);
    if t.stackPrefix[stack].Some? {
      ChainIsUnique(t, t.stackPrefix[stack].value, p, q);
    }
  }

  lemma RootToLeafIff(t: Thread, stack: nat, names: seq<string>, resolvers: Option<map<int, Resolver>>)
    requires WellFormed(t) && stack < |t.stackFrame|
    ensures IsRootToLeaf(t, stack, names, resolvers) <==> names == Path(t, stack, resolvers)
  {
    hide ResolveFrameName, Path;
    var chain := PathFollowsChain(t, stack, resolvers);
    if other :| IsChain(t, other, stack) && NamesChain(t, other, names, resolvers) {
      ChainIsUnique(t, stack, chain, other);
    }
  }

  /** A stack's names are its prefix's and then its own. */
  lemma PathNext(t: Thread, stack: nat, resolvers: Option<map<int, Resolver>>)
    requires WellFormed(t) && stack < |t.stackFrame|
    ensures Path(t, stack, resolvers)
         == (match t.stackPrefix[stack] case None => [] case Some(prefix) => Path(t, prefix, resolvers))
            + [ResolveFrameName(t, t.stackFrame[stack], resolvers)]
  {
    hide ResolveFrameName;
  }

  /** The dict shared by every call of `stack_frames` for one thread. */
  class FrameCache {
    const thread: Thread
    const resolvers: Option<map<int, Resolver>>
    var cache: map<nat, seq<string>>

    ghost predicate Valid()
      reads this
    {
      && WellFormed(thread)
      && forall stack :: stack in cache ==>
           stack < |thread.stackFrame| && cache[stack] == Path(thread, stack, resolvers)
    }

    constructor (thread: Thread, resolvers: Option<map<int, Resolver>>)
      requires WellFormed(thread)
      ensures Valid() && this.thread == thread && this.resolvers == resolvers && cache == map[]
    {
      this.thread, this.resolvers, cache := thread, resolvers, map[];
    }

    /** `stack_frames`: whatever is cached already, the result is the plain recursion's. */
    method StackFrames(stack: Option<nat>) returns (names: seq<string>)
      requires Valid() && (stack.Some? ==> stack.value < |thread.stackFrame|)
      modifies this
      ensures Valid()
      ensures names == if stack.None? then [] else Path(thread, stack.value, resolvers)
      ensures stack.Some? ==> IsRootToLeaf(thread, stack.value, names, resolvers)
      ensures forall s :: s in old(cache) ==> s in cache && cache[s] == old(cache)[s]
      ensures stack.Some? ==> stack.value in cache
      decreases if stack.None? then 0 else stack.value + 1
    {
      if stack.None? {
        return [];
      }
      hide ResolveFrameName, IsRootToLeaf, Path;
      PathNext(thread, stack.value, resolvers);
      RootToLeafIff(thread, stack.value, Path(thread, stack.value, resolvers), resolvers);
      if stack.value in cache {
        return cache[stack.value];
      }
      var name := ResolveFrameName(thread, thread.stackFrame[stack.value], resolvers);
      var before := StackFrames(thread.stackPrefix[stack.value]);
      names := before + [name];
      cache := cache[stack.value := names];
    }
  }

  // ----- folding

  /** `counter[key] += 1`. */
  function Bump(counter: map<string, nat>, key: string): map<string, nat> {
    counter[key := (if key in counter then counter[key] else 0) + 1]
  }

  function CountAt(counter: map<string, nat>, key: string): nat {
    if key in counter then counter[key] else 0
  }

  /** The stacks that were sampled: the null samples carry none. */
  function Sampled(samples: seq<Option<nat>>): seq<nat> {
    if samples == [] then []
    else
      var last := samples[|samples| - 1];
      Sampled(samples[..|samples| - 1]) + if last.Some? then [last.value] else []
  }

  function FoldedName(t: Thread, stack: nat, resolvers: Option<map<int, Resolver>>): string
    requires WellFormed(t) && stack < |t.stackFrame|
  {
    Join(Path(t, stack, resolvers), ";")
  }

  function LeafName(t: Thread, stack: nat, resolvers: Option<map<int, Resolver>>): string
    requires WellFormed(t) && stack < |t.stackFrame|
  {
    var path := Path(t, stack, resolvers);
    path[|path| - 1]
  }

  /** The text after the last `;`. */
  function LastSegment(s: string): string {
    if ';' !in s then s
    else if s[0] == ';' && ';' !in s[1..] then s[1..]
    else LastSegment(s[1..])
  }

  // ----- sums over a counter

  /** The sum of the counts whose key satisfies `p`. */
  ghost function SumOver(counter: map<string, nat>, keys: set<string>, p: string -> bool): nat
    requires keys <= counter.Keys
  {
    if keys == {} then 0
    else
      var key :| key in keys;
      SumOver(counter, keys - {key}, p) + if p(key) then counter[key] else 0
  }

  ghost function SumWhere(counter: map<string, nat>, p: string -> bool): nat {
    SumOver(counter, counter.Keys, p)
  }

  /** The sum does not depend on the order in which keys are taken. */
  lemma {:induction false} SumTakesAnyKey(counter: map<string, nat>, keys: set<string>, p: string -> bool, key: string)
    requires keys <= counter.Keys && key in keys
    ensures SumOver(counter, keys, p) == SumOver(counter, keys - {key}, p) + if p(key) then counter[key] else 0
  {
    var first :| first in keys
      && SumOver(counter, keys, p) == SumOver(counter, keys - {first}, p) + if p(first) then counter[first] else 0;
    if first != key {
      SumTakesAnyKey(counter, keys - {first}, p, key);
      SumTakesAnyKey(counter, keys - {key}, p, first);
      assert keys - {first} - {key} == keys - {key} - {first};
    }
  }

  lemma {:induction false} SumIgnoresOthers(
      a: map<string, nat>, b: map<string, nat>, keys: set<string>, p: string -> bool)
    requires keys <= a.Keys && keys <= b.Keys && forall key :: key in keys ==> a[key] == b[key]
    ensures SumOver(a, keys, p) == SumOver(b, keys, p)
  {
    if keys != {} {
      var key :| key in keys;
      SumTakesAnyKey(a, keys, p, key);
      SumTakesAnyKey(b, keys, p, key);
      SumIgnoresOthers(a, b, keys - {key}, p);
    }
  }

  /** One more of a key adds one to the sum if the key counts. */
  lemma BumpAddsOne(counter: map<string, nat>, key: string, p: string -> bool)
    ensures SumWhere(Bump(counter, key), p) == SumWhere(counter, p) + if p(key) then 1 else 0
  {
    var bumped, others := Bump(counter, key), counter.Keys - {key};
    SumTakesAnyKey(bumped, bumped.Keys, p, key);
    assert bumped.Keys - {key} == others;
    SumIgnoresOthers(bumped, counter, others, p);
    if key in counter {
      SumTakesAnyKey(counter, counter.Keys, p, key);
    } else {
      assert others == counter.Keys;
    }
  }

  // ----- what the counters hold

  function FoldedNames(t: Thread, stacks: seq<nat>, resolvers: Option<map<int, Resolver>>): (r: seq<string>)
    requires WellFormed(t) && forall i :: 0 <= i < |stacks| ==> stacks[i] < |t.stackFrame|
    ensures |r| == |stacks| && forall i :: 0 <= i < |r| ==> r[i] == FoldedName(t, stacks[i], resolvers)
  {
    seq(|stacks|, i requires 0 <= i < |stacks| => FoldedName(t, stacks[i], resolvers))
  }

  function LeafNames(t: Thread, stacks: seq<nat>, resolvers: Option<map<int, Resolver>>): (r: seq<string>)
    requires WellFormed(t) && forall i :: 0 <= i < |stacks| ==> stacks[i] < |t.stackFrame|
    ensures |r| == |stacks| && forall i :: 0 <= i < |r| ==> r[i] == LeafName(t, stacks[i], resolvers)
  {
    seq(|stacks|, i requires 0 <= i < |stacks| => LeafName(t, stacks[i], resolvers))
  }

  /** The counter that counting `names` one by one builds. */
  function Tally(names: seq<string>): map<string, nat> {
    if names == [] then map[] else Bump(Tally(names[..|names| - 1]), names[|names| - 1])
  }

  lemma {:induction false} SampledAreStacks(t: Thread, n: nat)
    requires WellFormed(t) && n <= |t.samples|
    ensures forall i :: 0 <= i < |Sampled(t.samples[..n])| ==> Sampled(t.samples[..n])[i] < |t.stackFrame|
  {
    if n > 0 {
      SampledAreStacks(t, n - 1);
      assert t.samples[..n][..n - 1] == t.samples[..n - 1];
    }
  }

  /** One more sampled stack bumps one folded name and one leaf. */
  lemma TallyNext(t: Thread, stacks: seq<nat>, stack: nat, resolvers: Option<map<int, Resolver>>)
    requires WellFormed(t) && stack < |t.stackFrame| && forall i :: 0 <= i < |stacks| ==> stacks[i] < |t.stackFrame|
    ensures Tally(FoldedNames(t, stacks + [stack], resolvers))
         == Bump(Tally(FoldedNames(t, stacks, resolvers)), FoldedName(t, stack, resolvers))
    ensures Tally(LeafNames(t, stacks + [stack], resolvers))
         == Bump(Tally(LeafNames(t, stacks, resolvers)), LeafName(t, stack, resolvers))
  {
    NamesNext(t, stacks, stack, resolvers);
    TallyAppend(FoldedNames(t, stacks, resolvers), FoldedName(t, stack, resolvers));
    TallyAppend(LeafNames(t, stacks, resolvers), LeafName(t, stack, resolvers));
  }

  lemma NamesNext(t: Thread, stacks: seq<nat>, stack: nat, resolvers: Option<map<int, Resolver>>)
    requires WellFormed(t) && stack < |t.stackFrame| && forall i :: 0 <= i < |stacks| ==> stacks[i] < |t.stackFrame|
    ensures FoldedNames(t, stacks + [stack], resolvers)
         == FoldedNames(t, stacks, resolvers) + [FoldedName(t, stack, resolvers)]
    ensures LeafNames(t, stacks + [stack], resolvers)
         == LeafNames(t, stacks, resolvers) + [LeafName(t, stack, resolvers)]
  {}

  lemma TallyAppend(names: seq<string>, name: string)
    ensures Tally(names + [name]) == Bump(Tally(names), name)
  {
    assert (names + [name])[..|names|] == names;
  }

  lemma SampledNext(samples: seq<Option<nat>>, n: nat)
    requires n < |samples|
    ensures Sampled(samples[..n + 1]) == Sampled(samples[..n]) + if samples[n].Some? then [samples[n].value] else []
  {
    assert samples[..n + 1][..n] == samples[..n];
  }

  lemma LeafIsOwnFrame(t: Thread, stack: nat, resolvers: Option<map<int, Resolver>>)
    requires WellFormed(t) && stack < |t.stackFrame|
    ensures LeafName(t, stack, resolvers) == ResolveFrameName(t, t.stackFrame[stack], resolvers)
  {
    hide ResolveFrameName;
  }

  /** The stacks whose own frame has the name. */
  function OwnFrame(t: Thread, resolvers: Option<map<int, Resolver>>, name: string): nat -> bool
    requires WellFormed(t)
  {
    (stack: nat) => stack < |t.stackFrame| && ResolveFrameName(t, t.stackFrame[stack], resolvers) == name
  }

  /** The stacks whose names, joined from root to leaf, make the text. */
  ghost function Folding(t: Thread, resolvers: Option<map<int, Resolver>>, text: string): nat -> bool
    requires WellFormed(t)
  {
    (stack: nat) => exists names :: IsRootToLeaf(t, stack, names, resolvers) && Join(names, ";") == text
  }

  /** Which of the first `n` samples are of such stacks. */
  ghost function SamplesOf(t: Thread, n: nat, p: nat -> bool): set<nat>
    requires n <= |t.samples|
  {
    set i | 0 <= i < n && t.samples[i].Some? && p(t.samples[i].value)
  }

  lemma SamplesNext(t: Thread, n: nat, p: nat -> bool)
    requires n < |t.samples|
    ensures |SamplesOf(t, n + 1, p)|
         == |SamplesOf(t, n, p)| + if t.samples[n].Some? && p(t.samples[n].value) then 1 else 0
  {
    var before, after := SamplesOf(t, n, p), SamplesOf(t, n + 1, p);
    assert n !in before;
    assert after == before + if t.samples[n].Some? && p(t.samples[n].value) then {n} else {};
  }

  lemma NothingSampled(samples: seq<Option<nat>>)
    ensures Sampled(samples[..0]) == []
  {}

  lemma NobodyCounted(name: string)
    ensures Count([], name) == 0
  {}

  lemma LeafCountNext(
      t: Thread, stacks: seq<nat>, stack: nat, resolvers: Option<map<int, Resolver>>, name: string)
    requires WellFormed(t) && stack < |t.stackFrame| && forall i :: 0 <= i < |stacks| ==> stacks[i] < |t.stackFrame|
    ensures Count(LeafNames(t, stacks + [stack], resolvers), name)
         == Count(LeafNames(t, stacks, resolvers), name) + if OwnFrame(t, resolvers, name)(stack) then 1 else 0
  {
    hide LeafName, LeafNames, ResolveFrameName, Count;
    NamesNext(t, stacks, stack, resolvers);
    CountAppend(LeafNames(t, stacks, resolvers), LeafName(t, stack, resolvers), name);
    LeafIsOwnFrame(t, stack, resolvers);
  }

  lemma FoldCountNext(
      t: Thread, stacks: seq<nat>, stack: nat, resolvers: Option<map<int, Resolver>>, text: string)
    requires WellFormed(t) && stack < |t.stackFrame| && forall i :: 0 <= i < |stacks| ==> stacks[i] < |t.stackFrame|
    ensures Count(FoldedNames(t, stacks + [stack], resolvers), text)
         == Count(FoldedNames(t, stacks, resolvers), text) + if Folding(t, resolvers, text)(stack) then 1 else 0
  {
    hide FoldedName, FoldedNames, Folding, Count;
    NamesNext(t, stacks, stack, resolvers);
    CountAppend(FoldedNames(t, stacks, resolvers), FoldedName(t, stack, resolvers), text);
    FoldsToItsName(t, stack, resolvers, text);
  }

  lemma {:induction false} LeavesCountSamples(t: Thread, resolvers: Option<map<int, Resolver>>, n: nat, name: string)
    requires WellFormed(t) && n <= |t.samples|
    ensures var stacks := Sampled(t.samples[..n]);
            && (forall i :: 0 <= i < |stacks| ==> stacks[i] < |t.stackFrame|)
            && Count(LeafNames(t, stacks, resolvers), name) == |SamplesOf(t, n, OwnFrame(t, resolvers, name))|
  {
    hide SamplesOf, LeafName, LeafNames, ResolveFrameName, Sampled, Count, OwnFrame;
    SampledAreStacks(t, n);
    NothingSampled(t.samples);
    if n == 0 {
      NoSamples(t, OwnFrame(t, resolvers, name));
      NobodyCounted(name);
      assert LeafNames(t, [], resolvers) == [];
    } else {
      LeavesCountSamples(t, resolvers, n - 1, name);
      SampledNext(t.samples, n - 1);
      SamplesNext(t, n - 1, OwnFrame(t, resolvers, name));
      var stacks, sample := Sampled(t.samples[..n - 1]), t.samples[n - 1];
      if sample.Some? {
        LeafCountNext(t, stacks, sample.value, resolvers, name);
      } else {
        assert stacks + [] == stacks;
      }
    }
  }

  lemma NoSamples(t: Thread, p: nat -> bool)
    ensures SamplesOf(t, 0, p) == {}
  {}

  lemma FoldsToItsName(t: Thread, stack: nat, resolvers: Option<map<int, Resolver>>, text: string)
    requires WellFormed(t) && stack < |t.stackFrame|
    ensures Folding(t, resolvers, text)(stack) <==> FoldedName(t, stack, resolvers) == text
  {
    hide Join, IsRootToLeaf, Path;
    RootToLeafIff(t, stack, Path(t, stack, resolvers), resolvers);
    if names :| IsRootToLeaf(t, stack, names, resolvers) && Join(names, ";") == text {
      RootToLeafIff(t, stack, names, resolvers);
    }
  }

  lemma {:induction false} FoldsCountSamples(t: Thread, resolvers: Option<map<int, Resolver>>, n: nat, text: string)
    requires WellFormed(t) && n <= |t.samples|
    ensures var stacks := Sampled(t.samples[..n]);
            && (forall i :: 0 <= i < |stacks| ==> stacks[i] < |t.stackFrame|)
            && Count(FoldedNames(t, stacks, resolvers), text) == |SamplesOf(t, n, Folding(t, resolvers, text))|
  {
    hide SamplesOf, FoldedName, FoldedNames, Folding, Sampled, Count;
    SampledAreStacks(t, n);
    NothingSampled(t.samples);
    if n == 0 {
      NoSamples(t, Folding(t, resolvers, text));
      NobodyCounted(text);
      assert FoldedNames(t, [], resolvers) == [];
    } else {
      FoldsCountSamples(t, resolvers, n - 1, text);
      SampledNext(t.samples, n - 1);
      SamplesNext(t, n - 1, Folding(t, resolvers, text));
      var stacks, sample := Sampled(t.samples[..n - 1]), t.samples[n - 1];
      if sample.Some? {
        FoldCountNext(t, stacks, sample.value, resolvers, text);
      } else {
        assert stacks + [] == stacks;
      }
    }
  }

  lemma NothingTallied(t: Thread, resolvers: Option<map<int, Resolver>>)
    requires WellFormed(t)
    ensures Tally(FoldedNames(t, [], resolvers)) == map[] && Tally(LeafNames(t, [], resolvers)) == map[]
  {}

  lemma PathSpellsNames(t: Thread, stack: nat, resolvers: Option<map<int, Resolver>>)
    requires WellFormed(t) && stack < |t.stackFrame|
    ensures var names := Path(t, stack, resolvers);
            Join(names, ";") == FoldedName(t, stack, resolvers) && names[|names| - 1] == LeafName(t, stack, resolvers)
  {}

  // ----- conservation

  predicate Any(s: string) { true }

  /** The keys whose last segment is `name`. */
  function EndsIn(name: string): string -> bool {
    s => LastSegment(s) == name
  }

  lemma {:induction false} TallyCounts(names: seq<string>, name: string)
    ensures CountAt(Tally(names), name) == Count(names, name)
  {
    if names != [] {
      TallyCounts(names[..|names| - 1], name);
    }
  }

  /** Sums over a tally count list elements. */
  lemma {:induction false} TallyTotals(names: seq<string>)
    ensures SumWhere(Tally(names), Any) == |names|
  {
    if names != [] {
      TallyTotals(names[..|names| - 1]);
      BumpAddsOne(Tally(names[..|names| - 1]), names[|names| - 1], Any);
    }
  }

  /** Folded totals and self-time totals both equal the number of samples that are not null. */
  lemma TotalsAreSampleCounts(t: Thread, stacks: seq<nat>, resolvers: Option<map<int, Resolver>>)
    requires WellFormed(t) && forall i :: 0 <= i < |stacks| ==> stacks[i] < |t.stackFrame|
    ensures SumWhere(Tally(FoldedNames(t, stacks, resolvers)), Any) == |stacks|
    ensures SumWhere(Tally(LeafNames(t, stacks, resolvers)), Any) == |stacks|
  {
    TallyTotals(FoldedNames(t, stacks, resolvers));
    TallyTotals(LeafNames(t, stacks, resolvers));
  }

  lemma {:induction false} LastSegmentHasNoSemicolon(s: string)
    ensures ';' !in LastSegment(s)
    decreases |s|
  {
    if ';' in s && !(s[0] == ';' && ';' !in s[1..]) {
      LastSegmentHasNoSemicolon(s[1..]);
    }
  }

  lemma {:induction false} LastSegmentAfter(before: string, last: string)
    requires ';' !in last
    ensures LastSegment(before + ";" + last) == last
  {
    var s := before + ";" + last;
    if before == "" {
      assert s == ";" + last && s[1..] == last;
    } else {
      assert s[1..] == before[1..] + ";" + last;
      assert s[1..][|before| - 1] == ';';
      LastSegmentAfter(before[1..], last);
    }
  }

  lemma {:induction false} JoinEndsWithLast(names: seq<string>)
    requires |names| >= 2
    ensures exists before :: Join(names, ";") == before + ";" + names[|names| - 1]
  {
    if |names| == 2 {
      assert Join(names[1..], ";") == names[1];
      assert Join(names, ";") == names[0] + ";" + names[1];
    } else {
      JoinEndsWithLast(names[1..]);
      var before :| Join(names[1..], ";") == before + ";" + names[1..][|names| - 2];
      assert Join(names, ";") == (names[0] + (";" + before)) + ";" + names[|names| - 1];
    }
  }

  /** The last segment of a folded stack is its leaf, if the leaf has no `;`. */
  lemma FoldedNameEndsInLeaf(t: Thread, stack: nat, resolvers: Option<map<int, Resolver>>)
    requires WellFormed(t) && stack < |t.stackFrame| && ';' !in LeafName(t, stack, resolvers)
    ensures LastSegment(FoldedName(t, stack, resolvers)) == LeafName(t, stack, resolvers)
  {
    var path := Path(t, stack, resolvers);
    if |path| >= 2 {
      JoinEndsWithLast(path);
      var before :| Join(path, ";") == before + ";" + path[|path| - 1];
      LastSegmentAfter(before, path[|path| - 1]);
    }
  }

  lemma EmptySums(t: Thread, resolvers: Option<map<int, Resolver>>, name: string)
    requires WellFormed(t)
    ensures SelfTimeMatches(Tally(FoldedNames(t, [], resolvers)), Tally(LeafNames(t, [], resolvers)), name)
  {
    NothingTallied(t, resolvers);
  }

  lemma {:induction false} SelfTimeSums(
      t: Thread, stacks: seq<nat>, resolvers: Option<map<int, Resolver>>, name: string)
    requires WellFormed(t) && forall i :: 0 <= i < |stacks| ==> stacks[i] < |t.stackFrame|
    requires forall i :: 0 <= i < |stacks| ==> ';' !in LeafName(t, stacks[i], resolvers)
    ensures SelfTimeMatches(Tally(FoldedNames(t, stacks, resolvers)), Tally(LeafNames(t, stacks, resolvers)), name)
  {
    hide FoldedName, FoldedNames, LeafNames, LeafName, LastSegment, SumWhere, Tally;
    if stacks == [] {
      EmptySums(t, resolvers, name);
    } else {
      var init, last := stacks[..|stacks| - 1], stacks[|stacks| - 1];
      SelfTimeSums(t, init, resolvers, name);
      assert stacks == init + [last];
      TallyNext(t, init, last, resolvers);
      FoldedNameEndsInLeaf(t, last, resolvers);
      BumpAddsOne(Tally(FoldedNames(t, init, resolvers)), FoldedName(t, last, resolvers), EndsIn(name));
    }
  }

  /** The self-time of `name` is the sum of the folded counts ending in it. */
  ghost predicate SelfTimeMatches(folded: map<string, nat>, selfTime: map<string, nat>, name: string) {
    CountAt(selfTime, name) == SumWhere(folded, EndsIn(name))
  }

  lemma {:induction false} SumOfNothing(counter: map<string, nat>, keys: set<string>, name: string)
    requires keys <= counter.Keys && ';' in name
    ensures SumOver(counter, keys, EndsIn(name)) == 0
  {
    if keys != {} {
      var key :| key in keys;
      SumTakesAnyKey(counter, keys, EndsIn(name), key);
      LastSegmentHasNoSemicolon(key);
      SumOfNothing(counter, keys - {key}, name);
    }
  }

  /** A sampled leaf with a `;` has self-time, but no folded stack ends in it. */
  lemma SemicolonBreaksSelfTime(
      t: Thread, stacks: seq<nat>, resolvers: Option<map<int, Resolver>>, i: nat)
    requires WellFormed(t) && forall i :: 0 <= i < |stacks| ==> stacks[i] < |t.stackFrame|
    requires i < |stacks| && ';' in LeafName(t, stacks[i], resolvers)
    ensures !SelfTimeMatches(
              Tally(FoldedNames(t, stacks, resolvers)), Tally(LeafNames(t, stacks, resolvers)),
              LeafName(t, stacks[i], resolvers))
  {
    var name, leaves := LeafName(t, stacks[i], resolvers), LeafNames(t, stacks, resolvers);
    var folded := Tally(FoldedNames(t, stacks, resolvers));
    assert leaves[i] == name;
    TallyCounts(leaves, name);
    CountIsMembership(leaves, name);
    SumOfNothing(folded, folded.Keys, name);
  }

  /**
   * Every self-time count is the sum of the folded counts ending in that name if and only if no sampled
   * leaf has a `;` in its name.
   */
  lemma SelfTimeMatchesIffNoSemicolon(t: Thread, stacks: seq<nat>, resolvers: Option<map<int, Resolver>>)
    requires WellFormed(t) && forall i :: 0 <= i < |stacks| ==> stacks[i] < |t.stackFrame|
    ensures (forall name ::
               SelfTimeMatches(Tally(FoldedNames(t, stacks, resolvers)), Tally(LeafNames(t, stacks, resolvers)), name))
       <==> (forall i :: 0 <= i < |stacks| ==> ';' !in LeafName(t, stacks[i], resolvers))
  {
    if i :| 0 <= i < |stacks| && ';' in LeafName(t, stacks[i], resolvers) {
      SemicolonBreaksSelfTime(t, stacks, resolvers, i);
    } else {
      forall name
        ensures SelfTimeMatches(Tally(FoldedNames(t, stacks, resolvers)), Tally(LeafNames(t, stacks, resolvers)), name)
      {
        SelfTimeSums(t, stacks, resolvers, name);
      }
    }
  }

  /** Each counter counts the samples of its stacks. */
  lemma CountersCountSamples(t: Thread, resolvers: Option<map<int, Resolver>>)
    requires WellFormed(t)
    ensures forall i :: 0 <= i < |Sampled(t.samples)| ==> Sampled(t.samples)[i] < |t.stackFrame|
    ensures forall name ::
      CountAt(Tally(LeafNames(t, Sampled(t.samples), resolvers)), name)
        == |SamplesOf(t, |t.samples|, OwnFrame(t, resolvers, name))|
    ensures forall text ::
      CountAt(Tally(FoldedNames(t, Sampled(t.samples), resolvers)), text)
        == |SamplesOf(t, |t.samples|, Folding(t, resolvers, text))|
  {
    hide SamplesOf, OwnFrame, Folding, Tally, CountAt, LeafNames, FoldedNames;
    var n := |t.samples|;
    assert t.samples[..n] == t.samples;
    SampledAreStacks(t, n);
    var stacks := Sampled(t.samples);
    forall name
      ensures CountAt(Tally(LeafNames(t, stacks, resolvers)), name) == |SamplesOf(t, n, OwnFrame(t, resolvers, name))|
    {
      TallyCounts(LeafNames(t, stacks, resolvers), name);
      LeavesCountSamples(t, resolvers, n, name);
    }
    forall text
      ensures CountAt(Tally(FoldedNames(t, stacks, resolvers)), text) == |SamplesOf(t, n, Folding(t, resolvers, text))|
    {
      TallyCounts(FoldedNames(t, stacks, resolvers), text);
      FoldsCountSamples(t, resolvers, n, text);
    }
  }

  // ----- the loop

  /**
   * `collapse_thread`: both counters tally the samples that are not null, so each adds up to their number,
   * and every self-time is the sum of the folded counts ending in that name if and only if no sampled leaf
   * has a `;` in its name.
   */
  method CollapseThread(t: Thread, resolvers: Option<map<int, Resolver>>)
    returns (folded: map<string, nat>, selfTime: map<string, nat>)
    requires WellFormed(t)
    ensures forall i :: 0 <= i < |Sampled(t.samples)| ==> Sampled(t.samples)[i] < |t.stackFrame|
    ensures folded == Tally(FoldedNames(t, Sampled(t.samples), resolvers))
    ensures selfTime == Tally(LeafNames(t, Sampled(t.samples), resolvers))
    ensures forall name :: CountAt(selfTime, name) == |SamplesOf(t, |t.samples|, OwnFrame(t, resolvers, name))|
    ensures forall text :: CountAt(folded, text) == |SamplesOf(t, |t.samples|, Folding(t, resolvers, text))|
    ensures SumWhere(folded, Any) == |Sampled(t.samples)| && SumWhere(selfTime, Any) == |Sampled(t.samples)|
    ensures (forall name :: SelfTimeMatches(folded, selfTime, name))
       <==> forall i :: 0 <= i < |Sampled(t.samples)| ==> ';' !in LeafName(t, Sampled(t.samples)[i], resolvers)
  {
    hide Bump, Join, Path, Tally, SumWhere, SelfTimeMatches, CountAt, IsRootToLeaf;
    hide SamplesOf, OwnFrame, Folding, FoldedName, FoldedNames, LeafName, LeafNames;
    folded, selfTime := map[], map[];
    NothingTallied(t, resolvers);
    var cache := new FrameCache(t, resolvers);
    ghost var stacks: seq<nat> := [];
    for n := 0 to |t.samples|
      invariant fresh(cache) && cache.Valid() && cache.thread == t && cache.resolvers == resolvers
      invariant stacks == Sampled(t.samples[..n])
      invariant forall i :: 0 <= i < |stacks| ==> stacks[i] < |t.stackFrame|
      invariant folded == Tally(FoldedNames(t, stacks, resolvers))
      invariant selfTime == Tally(LeafNames(t, stacks, resolvers))
    {
      SampledNext(t.samples, n);
      var sample := t.samples[n];
      if sample.Some? {
        var names := cache.StackFrames(sample);
        if names != [] {
          TallyNext(t, stacks, sample.value, resolvers);
          PathSpellsNames(t, sample.value, resolvers);
          folded := Bump(folded, Join(names, ";"));
          selfTime := Bump(selfTime, names[|names| - 1]);
          stacks := stacks + [sample.value];
        }
      }
    }
    assert t.samples[..|t.samples|] == t.samples;
    TotalsAreSampleCounts(t, stacks, resolvers);
    SelfTimeMatchesIffNoSemicolon(t, stacks, resolvers);
    CountersCountSamples(t, resolvers);
  }
}
