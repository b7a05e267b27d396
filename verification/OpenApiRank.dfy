/**
 * `compute_presence`, `rank_key` and the cut in `main` of `generate_openapi.py`: candidates are ranked,
 * the best `TOP_N_PER_VERSION` are kept, and of those each path keeps one.
 */
module OpenApiRank {
  import opened Wrappers
  import opened Sorting
  import opened Text
  import opened SqlStatement
  import opened ApiClient
  import opened OpenApiMerge

  const TOP_N_PER_VERSION: nat := 500

  // ----- presence

  /** One version's data directory: the identities in its three object dumps. */
  datatype VersionData = VersionData(version: string, objects: seq<Identity>)

  /** The versions whose dumps hold `id`. */
  function PresentIn(versions: seq<VersionData>, id: Identity): set<string> {
    set v | v in versions && id in v.objects :: v.version
  }

  /** `compute_presence`: identity to the set of versions it exists in. */
  method ComputePresence(versions: seq<VersionData>) returns (presence: map<Identity, set<string>>)
    ensures forall id :: id in presence <==> PresentIn(versions, id) != {}
    ensures forall id :: id in presence ==> presence[id] == PresentIn(versions, id)
  {
    hide AddVersion, PresentIn;
    presence := map[];
    NoPresence();
    for i := 0 to |versions|
      invariant PresenceOf(presence, versions[..i])
    {
      var seen := set id | id in versions[i].objects;
      AddVersionFollows(presence, seen, versions[..i], versions[i]);
      presence := AddVersion(presence, seen, versions[i].version);
      assert versions[..i + 1] == versions[..i] + [versions[i]];
    }
    assert versions[..|versions|] == versions;
  }

  /** `presence.setdefault(key, set()).add(v)` for every key in `seen`. */
  function AddVersion(presence: map<Identity, set<string>>, seen: set<Identity>, version: string)
    : map<Identity, set<string>>
  {
    map id | id in presence.Keys + seen ::
      (if id in presence then presence[id] else {}) + if id in seen then {version} else {}
  }

  ghost predicate PresenceOf(presence: map<Identity, set<string>>, versions: seq<VersionData>) {
    && (forall id :: id in presence <==> PresentIn(versions, id) != {})
    && (forall id :: id in presence ==> presence[id] == PresentIn(versions, id))
  }

  lemma PresenceNext(versions: seq<VersionData>, v: VersionData)
    ensures forall id ::
      PresentIn(versions + [v], id) == PresentIn(versions, id) + if id in v.objects then {v.version} else {}
  {
    forall id
      ensures PresentIn(versions + [v], id) == PresentIn(versions, id) + if id in v.objects then {v.version} else {}
    {
      assert forall w :: w in versions + [v] <==> w in versions || w == v;
    }
  }

  lemma NoPresence()
    ensures PresenceOf(map[], [])
  {}

  lemma AddVersionFollows(
      presence: map<Identity, set<string>>, seen: set<Identity>, versions: seq<VersionData>, v: VersionData)
    requires PresenceOf(presence, versions) && forall id :: id in seen <==> id in v.objects
    ensures PresenceOf(AddVersion(presence, seen, v.version), versions + [v])
  {
    hide PresentIn;
    var added := AddVersion(presence, seen, v.version);
    PresenceNext(versions, v);
    forall id ensures id in added <==> PresentIn(versions + [v], id) != {} {}
    forall id | id in added ensures added[id] == PresentIn(versions + [v], id) {}
  }

  /** `len(presence.get(key, {version}))`. */
  function PresenceCount(presence: map<Identity, set<string>>, id: Identity): nat {
    if id in presence then |presence[id]| else 1
  }

  lemma {:induction false} PresenceIsBounded(versions: seq<VersionData>, id: Identity)
    ensures |PresentIn(versions, id)| <= |versions|
  {
    if versions == [] {
      assert PresentIn(versions, id) == {};
    } else {
      var init, last := versions[..|versions| - 1], versions[|versions| - 1];
      PresenceIsBounded(init, id);
      PresenceNext(init, last);
      assert versions == init + [last];
    }
  }

  // ----- the rank

  /** An operation with its presence count. */
  datatype Candidate = Candidate(op: Operation, presenceCount: nat)

  function TypeTier(typeDesc: string): nat {
    if typeDesc in {"SQL_STORED_PROCEDURE", "CLR_STORED_PROCEDURE", "EXTENDED_STORED_PROCEDURE"} then 0
    else if typeDesc in {"SQL_SCALAR_FUNCTION", "SQL_INLINE_TABLE_VALUED_FUNCTION", "SQL_TABLE_VALUED_FUNCTION",
                         "CLR_SCALAR_FUNCTION", "CLR_TABLE_VALUED_FUNCTION"} then 1
    else if typeDesc == "VIEW" then 2
    else 3
  }

  function Completeness(op: Operation): nat {
    if op.HasParams() && op.HasColumns() then 0
    else if op.HasColumns() then 1
    else if op.HasParams() then 2
    else 3
  }

  datatype RankKey = RankKey(presenceRank: int, completeness: nat, typeTier: nat, schemaName: string, name: string)

  function KeyOf(c: Candidate): RankKey {
    RankKey(0 - c.presenceCount, Completeness(c.op), TypeTier(c.op.id.typeDesc), c.op.id.schemaName, c.op.id.name)
  }

  /** Tuple comparison: the first component that differs decides. */
  predicate KeyLe(a: RankKey, b: RankKey) {
    if a.presenceRank != b.presenceRank then a.presenceRank < b.presenceRank
    else if a.completeness != b.completeness then a.completeness < b.completeness
    else if a.typeTier != b.typeTier then a.typeTier < b.typeTier
    else if a.schemaName != b.schemaName then StringLe(a.schemaName, b.schemaName)
    else StringLe(a.name, b.name)
  }

  predicate RankLe(a: Candidate, b: Candidate) {
    KeyLe(KeyOf(a), KeyOf(b))
  }

  lemma KeyLeIsTotal(a: RankKey, b: RankKey)
    ensures KeyLe(a, b) || KeyLe(b, a)
  {
    StringLeIsTotal(a.schemaName, b.schemaName);
    StringLeIsTotal(a.name, b.name);
  }

  lemma KeyLeIsTransitive(a: RankKey, b: RankKey, c: RankKey)
    requires KeyLe(a, b) && KeyLe(b, c)
    ensures KeyLe(a, c)
  {
    StringLeIsTotal(a.schemaName, b.schemaName);
    StringLeIsTotal(b.schemaName, c.schemaName);
    if StringLe(a.schemaName, b.schemaName) && StringLe(b.schemaName, c.schemaName) {
      StringLeIsTransitive(a.schemaName, b.schemaName, c.schemaName);
    }
    if StringLe(a.name, b.name) && StringLe(b.name, c.name) {
      StringLeIsTransitive(a.name, b.name, c.name);
    }
  }

  lemma RankLeIsPreorder()
    ensures TotalPreorder(RankLe)
  {
    forall a: Candidate, b: Candidate ensures RankLe(a, b) || RankLe(b, a) {
      KeyLeIsTotal(KeyOf(a), KeyOf(b));
    }
    forall a: Candidate, b: Candidate, c: Candidate | RankLe(a, b) && RankLe(b, c) ensures RankLe(a, c) {
      KeyLeIsTransitive(KeyOf(a), KeyOf(b), KeyOf(c));
    }
  }

  // ----- what the rank prefers

  predicate BothKnown(op: Operation) {
    ColumnsKnown(op) && InputsKnown(op)
  }

  predicate ColumnsKnown(op: Operation) {
    op.resultSet.Described? || op.resultSet.Fmtonly?
  }

  predicate InputsKnown(op: Operation) {
    exists p :: p in op.params && !p.isOutput
  }

  lemma KnownIsHad(op: Operation)
    ensures op.HasColumns() == ColumnsKnown(op) && op.HasParams() == InputsKnown(op)
  {
    if p :| p in op.params && !p.isOutput {
      var i :| 0 <= i < |op.params| && op.params[i] == p;
      assert !op.params[i].isOutput;
    }
  }

  /**
   * `a` documents more than `b`: both parameters and columns before one of them, columns before parameters,
   * and either before neither.
   */
  predicate DocumentsMore(a: Operation, b: Operation) {
    || (BothKnown(a) && !BothKnown(b))
    || (ColumnsKnown(a) && !ColumnsKnown(b))
    || (InputsKnown(a) && !InputsKnown(b) && !ColumnsKnown(b))
  }

  predicate DocumentsAsMuch(a: Operation, b: Operation) {
    ColumnsKnown(a) == ColumnsKnown(b) && InputsKnown(a) == InputsKnown(b)
  }

  predicate IsProcedure(typeDesc: string) {
    typeDesc in {"SQL_STORED_PROCEDURE", "CLR_STORED_PROCEDURE", "EXTENDED_STORED_PROCEDURE"}
  }

  predicate IsListedFunction(typeDesc: string) {
    typeDesc in {"SQL_SCALAR_FUNCTION", "CLR_SCALAR_FUNCTION", "SQL_TABLE_VALUED_FUNCTION",
                 "CLR_TABLE_VALUED_FUNCTION", "SQL_INLINE_TABLE_VALUED_FUNCTION"}
  }

  /** Procedures come before functions, functions before views, views before anything else. */
  predicate KindBefore(a: string, b: string) {
    || (IsProcedure(a) && !IsProcedure(b))
    || (IsListedFunction(a) && !IsProcedure(b) && !IsListedFunction(b))
    || (a == "VIEW" && !IsProcedure(b) && !IsListedFunction(b) && b != "VIEW")
  }

  /** What the rank prefers, first thing first; among equals the schema and then the name decides. */
  ghost predicate Prefers(a: Candidate, b: Candidate) {
    var x, y := a.op.id, b.op.id;
    if a.presenceCount != b.presenceCount then a.presenceCount > b.presenceCount
    else if DocumentsMore(a.op, b.op) || DocumentsMore(b.op, a.op) then DocumentsMore(a.op, b.op)
    else if KindBefore(x.typeDesc, y.typeDesc) || KindBefore(y.typeDesc, x.typeDesc) then
      KindBefore(x.typeDesc, y.typeDesc)
    else if x.schemaName != y.schemaName then TextBefore(x.schemaName, y.schemaName)
    else TextBefore(x.name, y.name)
  }

  /** Dictionary order: a proper beginning comes first, else the first difference decides. */
  ghost predicate TextBefore(a: string, b: string) {
    || a < b
    || exists k :: 0 <= k < |a| && k < |b| && a[..k] == b[..k] && a[k] < b[k]
  }

  lemma CompletenessOrder(a: Operation, b: Operation)
    ensures Completeness(a) < Completeness(b) <==> DocumentsMore(a, b)
  {
    hide ColumnsKnown, InputsKnown;
    KnownIsHad(a);
    KnownIsHad(b);
  }

  lemma TypeTierOrder(a: string, b: string)
    ensures TypeTier(a) < TypeTier(b) <==> KindBefore(a, b)
  {
    TypeTierOf(a);
    TypeTierOf(b);
    hide TypeTier, IsProcedure, IsListedFunction;
  }

  lemma TypeTierOf(kind: string)
    ensures IsProcedure(kind) ==> TypeTier(kind) == 0
    ensures IsListedFunction(kind) ==> TypeTier(kind) == 1 && !IsProcedure(kind)
    ensures kind == "VIEW" ==> TypeTier(kind) == 2 && !IsProcedure(kind) && !IsListedFunction(kind)
    ensures !IsProcedure(kind) && !IsListedFunction(kind) && kind != "VIEW" ==> TypeTier(kind) == 3
  {}

  lemma {:induction false} TextOrder(a: string, b: string)
    ensures StringLe(a, b) && a != b <==> TextBefore(a, b)
  {
    if a == "" || b == "" {
    } else if a[0] != b[0] {
      if a[0] < b[0] {
        assert a[..0] == b[..0];
      }
    } else {
      TextOrder(a[1..], b[1..]);
      TextBeforeTail(a, b);
      assert a == [a[0]] + a[1..] && b == [b[0]] + b[1..];
    }
  }

  lemma TextBeforeTail(a: string, b: string)
    requires a != "" && b != "" && a[0] == b[0]
    ensures TextBefore(a, b) <==> TextBefore(a[1..], b[1..])
  {
    var x, y := a[1..], b[1..];
    assert a == [a[0]] + x && b == [b[0]] + y;
    if k :| 0 <= k < |a| && k < |b| && a[..k] == b[..k] && a[k] < b[k] {
      assert x[..k - 1] == a[..k][1..] && y[..k - 1] == b[..k][1..];
      assert x[k - 1] < y[k - 1];
    }
    if k :| 0 <= k < |x| && k < |y| && x[..k] == y[..k] && x[k] < y[k] {
      assert a[..k + 1] == [a[0]] + x[..k] && b[..k + 1] == [b[0]] + y[..k];
      assert a[k + 1] < b[k + 1];
    }
  }

  /** A key is strictly better exactly when the operation is preferred. */
  lemma BetterIffPreferred(a: Candidate, b: Candidate)
    ensures StrictlyBetter(a, b) <==> Prefers(a, b)
  {
    hide Completeness, DocumentsMore, TypeTier, KindBefore, StringLe, TextBefore;
    CompletenessOrder(a.op, b.op);
    CompletenessOrder(b.op, a.op);
    TypeTierOrder(a.op.id.typeDesc, b.op.id.typeDesc);
    TypeTierOrder(b.op.id.typeDesc, a.op.id.typeDesc);
    TextOrder(a.op.id.schemaName, b.op.id.schemaName);
    TextOrder(a.op.id.name, b.op.id.name);
    StringLeIsTotal(a.op.id.schemaName, b.op.id.schemaName);
    StringLeIsTotal(a.op.id.name, b.op.id.name);
  }

  // ----- the cut and the paths

  function Ranked(candidates: seq<Candidate>): seq<Candidate> {
    Sort(candidates, RankLe)
  }

  /** `operations[:TOP_N_PER_VERSION]`. */
  function Kept(candidates: seq<Candidate>): seq<Candidate> {
    var ranked := Ranked(candidates);
    if |ranked| <= TOP_N_PER_VERSION then ranked else ranked[..TOP_N_PER_VERSION]
  }

  function RankedOut(candidates: seq<Candidate>): seq<Candidate> {
    var ranked := Ranked(candidates);
    if |ranked| <= TOP_N_PER_VERSION then [] else ranked[TOP_N_PER_VERSION..]
  }

  function PathOf(c: Candidate): string {
    "/" + c.op.id.schemaName + "/" + c.op.id.name
  }

  /** Element `i` is the first of `kept` on its path. */
  predicate FirstOnPath(kept: seq<Candidate>, i: nat) {
    i < |kept| && forall j :: 0 <= j < i ==> PathOf(kept[j]) != PathOf(kept[i])
  }

  /** The loop over `kept`: a path already taken counts as a collision. */
  method EmitPaths(kept: seq<Candidate>) returns (paths: map<string, Candidate>, collisions: nat)
    ensures |paths| + collisions == |kept|
    ensures forall i :: 0 <= i < |kept| ==> "/" + kept[i].op.id.schemaName + "/" + kept[i].op.id.name in paths
    ensures forall path :: path in paths ==>
      path == "/" + paths[path].op.id.schemaName + "/" + paths[path].op.id.name
    ensures forall i :: 0 <= i < |kept| ==> PathOf(kept[i]) in paths
    ensures forall path :: path in paths ==>
      exists i: nat :: FirstOnPath(kept, i) && PathOf(kept[i]) == path && paths[path] == kept[i]
  {
    hide PathOf;
    paths, collisions := map[], 0;
    for n := 0 to |kept|
      invariant |paths| + collisions == n
      invariant forall i :: 0 <= i < n ==> PathOf(kept[i]) in paths
      invariant forall path :: path in paths ==>
        exists i :: 0 <= i < n && FirstOnPath(kept, i) && PathOf(kept[i]) == path && paths[path] == kept[i]
    {
      var path := PathOf(kept[n]);
      if path in paths {
        collisions := collisions + 1;
      } else {
        assert FirstOnPath(kept, n);
        assert paths[path := kept[n]].Keys == paths.Keys + {path};
        paths := paths[path := kept[n]];
      }
    }
    forall i | 0 <= i < |kept| ensures PathOf(kept[i]) == "/" + kept[i].op.id.schemaName + "/" + kept[i].op.id.name {
      PathSpells(kept[i]);
    }
  }

  lemma PathSpells(c: Candidate)
    ensures PathOf(c) == "/" + c.op.id.schemaName + "/" + c.op.id.name
  {}

  /** Two operations share a path iff they share schema and name, unless a schema has a slash in it. */
  lemma SharePathIff(a: Candidate, b: Candidate)
    requires '/' !in a.op.id.schemaName && '/' !in b.op.id.schemaName
    ensures PathOf(a) == PathOf(b) <==> a.op.id.schemaName == b.op.id.schemaName && a.op.id.name == b.op.id.name
  {
    var x, y := a.op.id.schemaName + ['/'] + a.op.id.name, b.op.id.schemaName + ['/'] + b.op.id.name;
    assert PathOf(a) == "/" + x && PathOf(b) == "/" + y;
    SplitOnceFindsFirst(a.op.id.schemaName, '/', a.op.id.name);
    SplitOnceFindsFirst(b.op.id.schemaName, '/', b.op.id.name);
    if PathOf(a) == PathOf(b) {
      assert x == PathOf(a)[1..] && y == PathOf(b)[1..];
    }
  }

  predicate StrictlyBetter(a: Candidate, b: Candidate) {
    RankLe(a, b) && !RankLe(b, a)
  }

  /** Keeping and ranking out only split the candidates. */
  lemma CutSplitsCandidates(candidates: seq<Candidate>)
    ensures Kept(candidates) + RankedOut(candidates) == Ranked(candidates)
    ensures |Ranked(candidates)| == |candidates| && multiset(Ranked(candidates)) == multiset(candidates)
    ensures |RankedOut(candidates)| > 0 ==> |Kept(candidates)| == TOP_N_PER_VERSION
  {
    SortPermutes(candidates, RankLe);
  }

  /** No operation ranked out has a strictly better key than one that is kept. */
  lemma CutIsByRank(candidates: seq<Candidate>, i: nat, j: nat)
    requires i < |Kept(candidates)| && j < |RankedOut(candidates)|
    ensures RankLe(Kept(candidates)[i], RankedOut(candidates)[j])
    ensures !StrictlyBetter(RankedOut(candidates)[j], Kept(candidates)[i])
    ensures !Prefers(RankedOut(candidates)[j], Kept(candidates)[i])
  {
    BetterIffPreferred(RankedOut(candidates)[j], Kept(candidates)[i]);
    RankLeIsPreorder();
    SortSorts(candidates, RankLe);
    var ranked := Ranked(candidates);
    assert Kept(candidates)[i] == ranked[i];
    assert RankedOut(candidates)[j] == ranked[TOP_N_PER_VERSION + j];
  }

  /** A path holds the best of the kept operations on it. */
  lemma FirstOnPathIsBest(candidates: seq<Candidate>, i: nat, j: nat)
    requires FirstOnPath(Kept(candidates), i) && j < |Kept(candidates)|
    requires PathOf(Kept(candidates)[j]) == PathOf(Kept(candidates)[i])
    ensures RankLe(Kept(candidates)[i], Kept(candidates)[j])
  {
    RankLeIsPreorder();
    SortSorts(candidates, RankLe);
    var ranked := Ranked(candidates);
    assert Kept(candidates)[i] == ranked[i] && Kept(candidates)[j] == ranked[j];
    assert i <= j;
  }

  // ----- full presence

  /** How many candidates exist on all of `versions` versions. */
  function FullCount(s: seq<Candidate>, versions: nat): nat {
    if s == [] then 0
    else FullCount(s[..|s| - 1], versions) + if s[|s| - 1].presenceCount == versions then 1 else 0
  }

  lemma FullCountAppend(s: seq<Candidate>, c: Candidate, versions: nat)
    ensures FullCount(s + [c], versions) == FullCount(s, versions) + if c.presenceCount == versions then 1 else 0
  {
    assert (s + [c])[..|s|] == s;
  }

  lemma {:induction false} InsertKeepsFullCount(s: seq<Candidate>, c: Candidate, versions: nat)
    ensures FullCount(Insert(s, c, RankLe), versions) == FullCount(s + [c], versions)
  {
    FullCountAppend(s, c, versions);
    if s != [] && !RankLe(s[|s| - 1], c) {
      InsertKeepsFullCount(s[..|s| - 1], c, versions);
      FullCountAppend(s[..|s| - 1], c, versions);
      FullCountAppend(Insert(s[..|s| - 1], c, RankLe), s[|s| - 1], versions);
    }
  }

  lemma {:induction false} SortKeepsFullCount(s: seq<Candidate>, versions: nat)
    ensures FullCount(Sort(s, RankLe), versions) == FullCount(s, versions)
  {
    if s != [] {
      SortKeepsFullCount(s[..|s| - 1], versions);
      InsertKeepsFullCount(Sort(s[..|s| - 1], RankLe), s[|s| - 1], versions);
      FullCountAppend(Sort(s[..|s| - 1], RankLe), s[|s| - 1], versions);
    }
  }

  /** From the first candidate that is not everywhere on, none is. */
  lemma {:induction false} FullCandidatesComeFirst(s: seq<Candidate>, versions: nat, n: nat)
    requires Sorted(s, RankLe) && n < |s| && s[n].presenceCount < versions
    requires forall i :: 0 <= i < |s| ==> s[i].presenceCount <= versions
    ensures FullCount(s, versions) <= n
    decreases |s|
  {
    var init, last := s[..|s| - 1], s[|s| - 1];
    if n == |s| - 1 {
      FullCountIsBounded(init, versions);
    } else {
      assert RankLe(s[n], last);
      FullCandidatesComeFirst(init, versions, n);
    }
  }

  lemma {:induction false} FullCountIsBounded(s: seq<Candidate>, versions: nat)
    ensures FullCount(s, versions) <= |s|
  {
    if s != [] {
      FullCountIsBounded(s[..|s| - 1], versions);
    }
  }

  /** If enough candidates exist on every version, nothing else is kept. */
  lemma EnoughFullPresence(candidates: seq<Candidate>, versions: nat, i: nat)
    requires forall k :: 0 <= k < |candidates| ==> candidates[k].presenceCount <= versions
    requires FullCount(candidates, versions) >= TOP_N_PER_VERSION && i < |Kept(candidates)|
    ensures Kept(candidates)[i].presenceCount == versions
  {
    var ranked := Ranked(candidates);
    RankLeIsPreorder();
    SortSorts(candidates, RankLe);
    SortPermutes(candidates, RankLe);
    SortKeepsFullCount(candidates, versions);
    forall k | 0 <= k < |ranked| ensures ranked[k].presenceCount <= versions {
      assert ranked[k] in ranked && ranked[k] in candidates;
    }
    assert Kept(candidates)[i] == ranked[i];
    if ranked[i].presenceCount < versions {
      FullCandidatesComeFirst(ranked, versions, i);
    }
  }

  lemma PresenceFits(versions: seq<VersionData>, c: Candidate)
    requires versions != [] && CountsPresence(versions, c)
    ensures c.presenceCount <= |versions|
  {
    PresenceIsBounded(versions, c.op.id);
  }

  /**
   * If at least `TOP_N_PER_VERSION` candidates exist on every scanned version, every operation that is
   * kept does.
   */
  lemma FullPresenceSurvivesTheCut(versions: seq<VersionData>, candidates: seq<Candidate>)
    requires versions != [] && forall c :: c in candidates ==> CountsPresence(versions, c)
    requires FullCount(candidates, |versions|) >= TOP_N_PER_VERSION
    ensures forall i :: 0 <= i < |Kept(candidates)| ==> Kept(candidates)[i].presenceCount == |versions|
  {
    forall k | 0 <= k < |candidates| ensures candidates[k].presenceCount <= |versions| {
      PresenceFits(versions, candidates[k]);
    }
    forall i | 0 <= i < |Kept(candidates)| ensures Kept(candidates)[i].presenceCount == |versions| {
      EnoughFullPresence(candidates, |versions|, i);
    }
  }

  // ----- the whole of it

  function Counted(operations: seq<Operation>, presence: map<Identity, set<string>>): (r: seq<Candidate>)
    ensures |r| == |operations|
    ensures forall i :: 0 <= i < |r| ==> r[i] == Candidate(operations[i], PresenceCount(presence, operations[i].id))
  {
    seq(|operations|, i requires 0 <= i < |operations| =>
      Candidate(operations[i], PresenceCount(presence, operations[i].id)))
  }

  /** What `EmitPaths` promises about `paths`, for the candidates' kept part. */
  ghost predicate HoldsFirsts(paths: map<string, Candidate>, kept: seq<Candidate>) {
    && (forall i :: 0 <= i < |kept| ==> PathOf(kept[i]) in paths)
    && (forall path :: path in paths ==>
          exists i: nat :: FirstOnPath(kept, i) && PathOf(kept[i]) == path && paths[path] == kept[i])
  }

  /** The emitted operation is a candidate, and no kept operation on its path ranks above it. */
  lemma EmittedIsBest(paths: map<string, Candidate>, candidates: seq<Candidate>, path: string)
    requires HoldsFirsts(paths, Kept(candidates)) && path in paths
    ensures path == PathOf(paths[path]) && paths[path] in candidates
    ensures forall j :: 0 <= j < |Kept(candidates)| && PathOf(Kept(candidates)[j]) == path ==>
      RankLe(paths[path], Kept(candidates)[j]) && !Prefers(Kept(candidates)[j], paths[path])
  {
    var kept := Kept(candidates);
    var i: nat :| FirstOnPath(kept, i) && PathOf(kept[i]) == path && paths[path] == kept[i];
    SortPermutes(candidates, RankLe);
    assert kept[i] == Ranked(candidates)[i] && Ranked(candidates)[i] in Ranked(candidates);
    forall j | 0 <= j < |kept| && PathOf(kept[j]) == path
      ensures RankLe(kept[i], kept[j]) && !Prefers(kept[j], kept[i])
    {
      FirstOnPathIsBest(candidates, i, j);
      BetterIffPreferred(kept[j], kept[i]);
    }
  }

  /**
   * `main` up to the output: every identity of the dumps is emitted, a path collision, ranked out or a
   * dropped extended procedure, and an emitted path holds a documented operation that no other kept
   * operation on that path outranks.
   */
  method RankAndEmit(dumps: seq<Dump>, versions: seq<VersionData>)
    returns (candidates: seq<Candidate>, paths: map<string, Candidate>,
             collisions: nat, droppedByRank: nat, extendedDropped: nat)
    requires |dumps| == |DATABASES|
    ensures |paths| + collisions + droppedByRank == |candidates|
    ensures |candidates| + extendedDropped == |Identities(dumps)|
    ensures |paths| + collisions == |Kept(candidates)| && droppedByRank == |RankedOut(candidates)|
    ensures HoldsFirsts(paths, Kept(candidates))
    ensures forall c :: c in candidates ==> Documents(dumps, c.op) && CountsPresence(versions, c)
    ensures forall path :: path in paths ==> paths[path] in candidates
    ensures forall path :: path in paths ==>
      var id := paths[path].op.id;
      && path == "/" + id.schemaName + "/" + id.name
      && (ParsePath(path) == Ok((id.schemaName, id.name)) <==> ValidIdent(id.schemaName) && ValidIdent(id.name))
  {
    hide ParsePath, ValidIdent;
    var operations;
    operations, extendedDropped := BuildOperations(dumps);
    var presence := ComputePresence(versions);
    candidates := Counted(operations, presence);
    CutSplitsCandidates(candidates);
    paths, collisions := EmitPaths(Kept(candidates));
    droppedByRank := |Ranked(candidates)| - |Kept(candidates)|;
    forall path | path in paths ensures paths[path] in candidates {
      EmittedIsBest(paths, candidates, path);
    }
    CandidatesAreDocumented(dumps, versions, operations, presence);
    forall path | path in paths
      ensures ParsePath(path) == Ok((paths[path].op.id.schemaName, paths[path].op.id.name))
         <==> ValidIdent(paths[path].op.id.schemaName) && ValidIdent(paths[path].op.id.name)
    {
      PathRoundTripIffSafe(paths[path].op.id.schemaName, paths[path].op.id.name);
    }
  }

  /** On how many versions the operation exists; 1 when no version's data mentions it. */
  predicate CountsPresence(versions: seq<VersionData>, c: Candidate) {
    var present := PresentIn(versions, c.op.id);
    c.presenceCount == if present == {} then 1 else |present|
  }

  lemma CandidatesAreDocumented(
      dumps: seq<Dump>, versions: seq<VersionData>, operations: seq<Operation>, presence: map<Identity, set<string>>)
    requires |dumps| == |DATABASES| && DocumentsAll(dumps, operations) && PresenceOf(presence, versions)
    ensures forall c :: c in Counted(operations, presence) ==> Documents(dumps, c.op) && CountsPresence(versions, c)
  {
    forall c | c in Counted(operations, presence) ensures Documents(dumps, c.op) && CountsPresence(versions, c) {
      var k :| 0 <= k < |operations| && Counted(operations, presence)[k] == c;
      assert c.op == operations[k];
    }
  }
}
