/**
 * `resolve_store_path` of `data/store.rs`: write a uniquely named sibling file, then rename it onto the
 * published path.  A run is any sequence of steps of any number of callers in any number of processes
 * sharing one directory, including processes that die half way and process ids that are used again; a
 * step that is not enabled changes nothing.
 */
module StorePublishing {
  import opened Wrappers
  import opened Digits

  type Bytes = seq<bv8>

  /** `VERSION_STORE_FILES`. */
  function StoreFile(apiVersion: string): Option<string> {
    if apiVersion == "2025" then Some("mcp_store.db")
    else if apiVersion == "2022" then Some("mcp_store_v2022.db")
    else if apiVersion == "2019" then Some("mcp_store_v2019.db")
    else if apiVersion == "2017" then Some("mcp_store_v2017.db")
    else None
  }

  /** Four versions have a file, each its own, named after the version but for the newest. */
  lemma StoreFileNamesVersion(apiVersion: string)
    ensures StoreFile(apiVersion).Some? <==> apiVersion in {"2025", "2022", "2019", "2017"}
    ensures StoreFile(apiVersion).Some? ==>
      StoreFile(apiVersion).value
        == "mcp_store" + (if apiVersion == "2025" then "" else "_v" + apiVersion) + ".db"
  {
    assert "mcp_store" + "" + ".db" == "mcp_store.db";
    assert "mcp_store" + ("_v" + "2022") + ".db" == "mcp_store_v2022.db";
    assert "mcp_store" + ("_v" + "2019") + ".db" == "mcp_store_v2019.db";
    assert "mcp_store" + ("_v" + "2017") + ".db" == "mcp_store_v2017.db";
  }

  predicate IsPublished(path: string) {
    path in {"mcp_store.db", "mcp_store_v2022.db", "mcp_store_v2019.db", "mcp_store_v2017.db"}
  }

  /** `{file}.{pid}.{n}.tmp`. */
  function TempName(file: string, pid: nat, n: nat): string {
    file + "." + ToDecimal(pid) + "." + ToDecimal(n) + ".tmp"
  }

  datatype Progress =
    | Named
    | Writing(written: nat)
    | Renamed
    | Opened(seen: Option<Bytes>)

  /** One call in flight: its process, its target, its decompressed payload and its temp file. */
  datatype Writer = Writer(pid: nat, ticket: nat, file: string, payload: Bytes, progress: Progress) {
    function Temp(): string { TempName(file, pid, ticket) }
  }

  /**
   * `counters` holds each live process's `UNIQUE`; `payloads` records, for specification only, every
   * complete payload there has ever been for a file.
   */
  datatype State = State(
    files: map<string, Bytes>,
    counters: map<nat, nat>,
    writers: map<nat, Writer>,
    payloads: set<(string, Bytes)>)

  datatype Step =
    | Spawn(pid: nat)
    | Crash(pid: nat)
    | Begin(id: nat, pid: nat, apiVersion: string, payload: Bytes)
    | Create(id: nat)
    | WriteChunk(id: nat, size: nat)
    | Rename(id: nat)
    | Open(id: nat)
    | GiveUp(id: nat)

  /** Overwrites `content` from `offset` on, as a write through an open file does. */
  function WriteAt(content: Bytes, offset: nat, chunk: Bytes): Bytes {
    if offset > |content| then content
    else if offset + |chunk| >= |content| then content[..offset] + chunk
    else content[..offset] + chunk + content[offset + |chunk|..]
  }

  function Advance(s: State, id: nat, progress: Progress): State
    requires id in s.writers
  {
    s.(writers := s.writers[id := s.writers[id].(progress := progress)])
  }

  function Next(s: State, step: Step): State {
    match step
    case Spawn(pid) =>
      if pid in s.counters then s else s.(counters := s.counters[pid := 0])
    case Crash(pid) =>
      s.(counters := s.counters - {pid},
         writers := map id | id in s.writers && s.writers[id].pid != pid :: s.writers[id])
    case Begin(id, pid, apiVersion, payload) =>
      if id in s.writers || pid !in s.counters || StoreFile(apiVersion).None? then s
      else
        var file := StoreFile(apiVersion).value;
        s.(counters := s.counters[pid := s.counters[pid] + 1],
           writers := s.writers[id := Writer(pid, s.counters[pid], file, payload, Named)],
           payloads := s.payloads + {(file, payload)})
    case Create(id) =>
      if id !in s.writers || !s.writers[id].progress.Named? then s
      else Advance(s, id, Writing(0)).(files := s.files[s.writers[id].Temp() := []])
    case WriteChunk(id, size) =>
      if id !in s.writers || !s.writers[id].progress.Writing? then s
      else
        var w := s.writers[id];
        if w.Temp() !in s.files || w.progress.written + size > |w.payload| then s
        else
          var chunk := w.payload[w.progress.written..w.progress.written + size];
          Advance(s, id, Writing(w.progress.written + size)).(
            files := s.files[w.Temp() := WriteAt(s.files[w.Temp()], w.progress.written, chunk)])
    case Rename(id) =>
      if id !in s.writers || s.writers[id].progress != Writing(|s.writers[id].payload|)
         || s.writers[id].Temp() !in s.files then s
      else
        var w := s.writers[id];
        Advance(s, id, Renamed).(files := s.files[w.file := s.files[w.Temp()]] - {w.Temp()})
    case Open(id) =>
      if id !in s.writers || !s.writers[id].progress.Renamed? then s
      else
        var file := s.writers[id].file;
        Advance(s, id, Opened(if file in s.files then Some(s.files[file]) else None))
    case GiveUp(id) =>
      s.(writers := s.writers - {id})
  }

  function Run(s: State, steps: seq<Step>): State {
    if steps == [] then s else Next(Run(s, steps[..|steps| - 1]), steps[|steps| - 1])
  }

  /** Any directory left behind by earlier runs: stale temp files of any name, published files complete. */
  predicate Init(s: State) {
    && s.counters == map[] && s.writers == map[]
    && (forall path :: path in s.files && IsPublished(path) ==> (path, s.files[path]) in s.payloads)
  }

  // ----- temp names

  lemma LastDotIsNoEarlier(x: string, a: string, y: string, b: string)
    requires AllDigits(a) && x + "." + a == y + "." + b
    ensures |x| >= |y|
  {
    var s := x + "." + a;
    assert s == y + "." + b;
    assert s[|y|] == '.';
    assert forall k :: |x| < k < |s| ==> s[k] == a[k - |x| - 1];
  }

  lemma LastDot(x: string, a: string, y: string, b: string)
    requires AllDigits(a) && AllDigits(b) && x + "." + a == y + "." + b
    ensures x == y && a == b
  {
    LastDotIsNoEarlier(x, a, y, b);
    LastDotIsNoEarlier(y, b, x, a);
    var s := x + "." + a;
    assert s == y + "." + b;
    assert x == s[..|x|] && y == s[..|y|];
    assert a == s[|x| + 1..] && b == s[|y| + 1..];
  }

  /** File, process id and counter can all be read back from a temp name. */
  lemma TempNameIsInjective(file: string, pid: nat, n: nat, file': string, pid': nat, n': nat)
    requires TempName(file, pid, n) == TempName(file', pid', n')
    ensures file == file' && pid == pid' && n == n'
  {
    var x, y := file + "." + ToDecimal(pid), file' + "." + ToDecimal(pid');
    var s, t := x + "." + ToDecimal(n), y + "." + ToDecimal(n');
    assert TempName(file, pid, n) == s + ".tmp" && TempName(file', pid', n') == t + ".tmp";
    assert s == (s + ".tmp")[..|s|] && t == (t + ".tmp")[..|t|];
    LastDot(x, ToDecimal(n), y, ToDecimal(n'));
    LastDot(file, ToDecimal(pid), file', ToDecimal(pid'));
    DecimalIsInjective(pid, pid');
    DecimalIsInjective(n, n');
  }

  lemma TempNameIsNotPublished(file: string, pid: nat, n: nat)
    ensures !IsPublished(TempName(file, pid, n))
  {
    var name := TempName(file, pid, n);
    assert name[|name| - 1] == 'p';
  }

  // ----- the invariant

  /** Each call holds a ticket its live process has given out, for a published file and a recorded payload. */
  predicate ValidTicket(s: State, w: Writer) {
    && w.pid in s.counters && w.ticket < s.counters[w.pid]
    && IsPublished(w.file) && (w.file, w.payload) in s.payloads
  }

  predicate TicketsAreValid(s: State) {
    forall id :: id in s.writers ==> ValidTicket(s, s.writers[id])
  }

  predicate SameTicket(v: Writer, w: Writer) {
    v.pid == w.pid && v.ticket == w.ticket
  }

  predicate TicketsDiffer(s: State) {
    forall a, b :: a in s.writers && b in s.writers && a != b ==> !SameTicket(s.writers[a], s.writers[b])
  }

  predicate TicketsAreTaken(s: State) {
    TicketsAreValid(s) && TicketsDiffer(s)
  }

  /** An unfinished temp file holds exactly what its writer has written. */
  predicate HoldsPrefix(files: map<string, Bytes>, w: Writer) {
    w.progress.Writing? ==>
      && w.progress.written <= |w.payload|
      && w.Temp() in files && files[w.Temp()] == w.payload[..w.progress.written]
  }

  predicate TempsHoldPrefixes(s: State) {
    forall id :: id in s.writers ==> HoldsPrefix(s.files, s.writers[id])
  }

  predicate PublishedIsComplete(s: State) {
    && (forall path :: path in s.files && IsPublished(path) ==> (path, s.files[path]) in s.payloads)
    && (forall id :: id in s.writers && s.writers[id].progress.Renamed? ==> s.writers[id].file in s.files)
    && (forall id :: id in s.writers && s.writers[id].progress.Opened? ==>
          && s.writers[id].progress.seen.Some?
          && (s.writers[id].file, s.writers[id].progress.seen.value) in s.payloads)
  }

  predicate Inv(s: State) {
    TicketsAreTaken(s) && TempsHoldPrefixes(s) && PublishedIsComplete(s)
  }

  /** The call is the same one, only further on. */
  predicate Advanced(v: Writer, w: Writer) {
    w == v.(progress := w.progress)
  }

  /** No call is new, and no live counter has gone back. */
  predicate OnlyAdvances(s: State, t: State) {
    && (forall id :: id in t.writers ==>
          id in s.writers && Advanced(s.writers[id], t.writers[id]) && t.writers[id].pid in t.counters)
    && (forall pid :: pid in t.counters && pid in s.counters ==> s.counters[pid] <= t.counters[pid])
    && s.payloads <= t.payloads
  }

  lemma AdvancingKeepsTickets(s: State, t: State)
    requires TicketsAreTaken(s) && OnlyAdvances(s, t)
    ensures TicketsAreTaken(t)
  {
    forall id | id in t.writers ensures ValidTicket(t, t.writers[id]) {
      assert ValidTicket(s, s.writers[id]);
    }
    forall a, b | a in t.writers && b in t.writers && a != b ensures !SameTicket(t.writers[a], t.writers[b]) {
      assert !SameTicket(s.writers[a], s.writers[b]);
    }
  }

  lemma BeginTakesATicket(s: State, step: Step)
    requires TicketsAreTaken(s) && step.Begin?
    ensures TicketsAreTaken(Next(s, step))
  {}

  lemma StepOnlyAdvances(s: State, step: Step)
    requires TicketsAreTaken(s) && !step.Begin?
    ensures OnlyAdvances(s, Next(s, step))
  {
    hide TempName, WriteAt, IsPublished, StoreFile, TicketsDiffer;
  }

  lemma StepKeepsTickets(s: State, step: Step)
    requires TicketsAreTaken(s)
    ensures TicketsAreTaken(Next(s, step))
  {
    hide Next, TicketsAreTaken, OnlyAdvances;
    if step.Begin? {
      BeginTakesATicket(s, step);
    } else {
      StepOnlyAdvances(s, step);
      AdvancingKeepsTickets(s, Next(s, step));
    }
  }

  /** Two calls in flight never share a temp name. */
  lemma TempNamesAreDistinct(s: State, a: nat, b: nat)
    requires TicketsAreTaken(s) && a in s.writers && b in s.writers && a != b
    ensures s.writers[a].Temp() != s.writers[b].Temp()
  {
    var v, w := s.writers[a], s.writers[b];
    if v.Temp() == w.Temp() {
      TempNameIsInjective(v.file, v.pid, v.ticket, w.file, w.pid, w.ticket);
    }
  }

  lemma AllTempNamesAreDistinct(s: State)
    requires TicketsAreTaken(s)
    ensures forall a, b :: a in s.writers && b in s.writers && a != b ==>
      s.writers[a].Temp() != s.writers[b].Temp()
    ensures forall a :: a in s.writers ==> !IsPublished(s.writers[a].Temp())
  {
    forall a, b | a in s.writers && b in s.writers && a != b ensures s.writers[a].Temp() != s.writers[b].Temp() {
      TempNamesAreDistinct(s, a, b);
    }
    forall a | a in s.writers ensures !IsPublished(s.writers[a].Temp()) {
      TempNameIsNotPublished(s.writers[a].file, s.writers[a].pid, s.writers[a].ticket);
    }
  }

  /** Overwriting at the end of what has been written extends it. */
  lemma ChunkExtendsPrefix(payload: Bytes, written: nat, size: nat)
    requires written + size <= |payload|
    ensures WriteAt(payload[..written], written, payload[written..written + size]) == payload[..written + size]
  {}

  /** A step of one call leaves the temp file of every other call alone. */
  lemma StepSparesOtherTemps(s: State, step: Step, id: nat)
    requires Inv(s) && id in s.writers && id in Next(s, step).writers
    requires step.Create? || step.WriteChunk? || step.Rename?
    requires id != step.id
    ensures HoldsPrefix(Next(s, step).files, s.writers[id])
  {
    hide TempName, WriteAt, TicketsDiffer, PublishedIsComplete;
    var w := s.writers[id];
    if step.id in s.writers {
      TempNamesAreDistinct(s, id, step.id);
      TempNameIsNotPublished(w.file, w.pid, w.ticket);
      assert ValidTicket(s, s.writers[step.id]);
      assert HoldsPrefix(s.files, w);
    }
  }

  lemma WriteKeepsOwnPrefix(s: State, id: nat, size: nat)
    requires TempsHoldPrefixes(s) && id in s.writers
    ensures var t := Next(s, WriteChunk(id, size)); HoldsPrefix(t.files, t.writers[id])
  {
    var w := s.writers[id];
    assert HoldsPrefix(s.files, w);
    if Next(s, WriteChunk(id, size)) != s {
      ChunkExtendsPrefix(w.payload, w.progress.written, size);
    }
  }

  lemma StepKeepsTemp(s: State, step: Step, id: nat)
    requires Inv(s) && id in Next(s, step).writers
    ensures HoldsPrefix(Next(s, step).files, Next(s, step).writers[id])
  {
    hide TempName, WriteAt, TicketsAreTaken, PublishedIsComplete;
    if (step.Create? || step.WriteChunk? || step.Rename?) && id != step.id {
      StepSparesOtherTemps(s, step, id);
    } else if step.WriteChunk? {
      WriteKeepsOwnPrefix(s, id, step.size);
    } else {
      assert id in s.writers ==> HoldsPrefix(s.files, s.writers[id]);
    }
  }

  lemma StepKeepsTemps(s: State, step: Step)
    requires Inv(s)
    ensures TempsHoldPrefixes(Next(s, step))
  {
    forall id | id in Next(s, step).writers
      ensures HoldsPrefix(Next(s, step).files, Next(s, step).writers[id])
    {
      StepKeepsTemp(s, step, id);
    }
  }

  lemma RenameKeepsPublished(s: State, id: nat)
    requires Inv(s)
    ensures PublishedIsComplete(Next(s, Rename(id)))
  {
    hide TempName, WriteAt, TicketsDiffer;
    if Next(s, Rename(id)) != s {
      var w := s.writers[id];
      assert ValidTicket(s, w) && HoldsPrefix(s.files, w);
      assert w.payload[..|w.payload|] == w.payload;
      TempNameIsNotPublished(w.file, w.pid, w.ticket);
    }
  }

  lemma StepKeepsPublished(s: State, step: Step)
    requires Inv(s)
    ensures PublishedIsComplete(Next(s, step))
  {
    hide TempName, WriteAt, TicketsDiffer, TempsHoldPrefixes;
    if step.Rename? {
      RenameKeepsPublished(s, step.id);
    } else if (step.Create? || step.WriteChunk?) && step.id in s.writers {
      var w := s.writers[step.id];
      TempNameIsNotPublished(w.file, w.pid, w.ticket);
    } else if step.Open? && step.id in s.writers {
      assert ValidTicket(s, s.writers[step.id]);
    }
  }

  lemma {:induction false} RunKeepsInv(s: State, steps: seq<Step>)
    requires Inv(s)
    ensures Inv(Run(s, steps))
  {
    if steps != [] {
      var before, step := Run(s, steps[..|steps| - 1]), steps[|steps| - 1];
      RunKeepsInv(s, steps[..|steps| - 1]);
      StepKeepsTickets(before, step);
      StepKeepsTemps(before, step);
      StepKeepsPublished(before, step);
    }
  }

  /**
   * Over every interleaving: no two calls in flight share a temp name, every published path is absent
   * or holds a complete payload, and a caller that opens the path after its own rename sees one.
   */
  lemma PublicationIsSafe(s: State, steps: seq<Step>)
    requires Init(s)
    ensures var t := Run(s, steps);
            && (forall a, b :: a in t.writers && b in t.writers && a != b ==>
                  t.writers[a].Temp() != t.writers[b].Temp())
            && (forall path :: path in t.files && IsPublished(path) ==> (path, t.files[path]) in t.payloads)
            && (forall id :: id in t.writers && t.writers[id].progress.Opened? ==>
                  && t.writers[id].progress.seen.Some?
                  && (t.writers[id].file, t.writers[id].progress.seen.value) in t.payloads)
  {
    RunKeepsInv(s, steps);
    AllTempNamesAreDistinct(Run(s, steps));
  }

  /** Payloads are only ever recorded by a call that extracts them, or were there at the start. */
  lemma {:induction false} PayloadsComeFromCalls(s: State, steps: seq<Step>, file: string, payload: Bytes)
    requires (file, payload) in Run(s, steps).payloads
    ensures (file, payload) in s.payloads
         || exists i :: 0 <= i < |steps| && steps[i].Begin? && steps[i].payload == payload
                        && StoreFile(steps[i].apiVersion) == Some(file)
  {
    if steps != [] {
      var before, step := steps[..|steps| - 1], steps[|steps| - 1];
      if (file, payload) in Run(s, before).payloads {
        PayloadsComeFromCalls(s, before, file, payload);
        if (file, payload) !in s.payloads {
          var i :| 0 <= i < |before| && before[i].Begin? && before[i].payload == payload
                   && StoreFile(before[i].apiVersion) == Some(file);
          assert steps[i] == before[i];
        }
      } else {
        assert steps[|steps| - 1] == step;
      }
    }
  }

  // ----- one uninterrupted call

  /** The directory and one process's counter. */
  class StoreDirectory {
    const pid: nat
    var files: map<string, Bytes>
    var unique: nat

    constructor (pid: nat, files: map<string, Bytes>)
      ensures this.pid == pid && this.files == files && unique == 0
    {
      this.pid, this.files, unique := pid, files, 0;
    }

    method ResolveStorePath(apiVersion: string, payload: Bytes) returns (result: Result<string, string>)
      modifies this
      ensures match StoreFile(apiVersion)
              case None => result.Err? && files == old(files) && unique == old(unique)
              case Some(file) =>
                && result == Ok(file) && unique == old(unique) + 1
                && files == old(files)[file := payload] - {TempName(file, pid, old(unique))}
    {
      var file := StoreFile(apiVersion);
      if file.None? {
        return Err("unknown api_version");
      }
      var temp := TempName(file.value, pid, unique);
      TempNameIsNotPublished(file.value, pid, unique);
      unique := unique + 1;
      files := files[temp := payload];
      files := files[file.value := files[temp]] - {temp};
      return Ok(file.value);
    }
  }

  lemma RunOfFour(s: State, a: Step, b: Step, c: Step, d: Step)
    ensures Run(s, [a, b, c, d]) == Next(Next(Next(Next(s, a), b), c), d)
  {
    assert [a, b, c, d][..3] == [a, b, c] && [a, b, c][..2] == [a, b] && [a, b][..1] == [a] && [a][..0] == [];
    assert Run(s, [a]) == Next(Run(s, []), a);
    assert Run(s, [a, b]) == Next(Run(s, [a]), b);
    assert Run(s, [a, b, c]) == Next(Run(s, [a, b]), c);
  }

  lemma FileIsPublished(apiVersion: string)
    requires StoreFile(apiVersion).Some?
    ensures IsPublished(StoreFile(apiVersion).value)
  {}

  lemma BeginAndCreate(s: State, id: nat, pid: nat, apiVersion: string, payload: Bytes)
    requires pid in s.counters && id !in s.writers && StoreFile(apiVersion).Some?
    ensures var w := Writer(pid, s.counters[pid], StoreFile(apiVersion).value, payload, Writing(0));
            var t := Next(Next(s, Begin(id, pid, apiVersion, payload)), Create(id));
            && id in t.writers && t.writers[id] == w && t.files == s.files[w.Temp() := []]
            && pid in t.counters && t.counters[pid] == s.counters[pid] + 1
  {}

  lemma WriteAndRename(s: State, id: nat)
    requires id in s.writers && s.writers[id].progress == Writing(0)
    requires s.writers[id].Temp() in s.files && s.files[s.writers[id].Temp()] == []
    ensures var w := s.writers[id];
            var t := Next(Next(s, WriteChunk(id, |w.payload|)), Rename(id));
            && t.files == s.files[w.Temp() := w.payload][w.file := w.payload] - {w.Temp()}
            && t.counters == s.counters && id in t.writers && t.writers[id] == w.(progress := Renamed)
  {
    var w := s.writers[id];
    assert w.payload[0..|w.payload|] == w.payload && WriteAt([], 0, w.payload) == w.payload;
  }

  lemma OpenSeesFile(s: State, id: nat)
    requires id in s.writers && s.writers[id].progress.Renamed? && s.writers[id].file in s.files
    ensures id in Next(s, Open(id)).writers
    ensures Next(s, Open(id)).writers[id].progress == Opened(Some(s.files[s.writers[id].file]))
  {}

  /** The steps of one call, run without interruption, do to the directory what the method does. */
  lemma UninterruptedCallPublishes(s: State, id: nat, pid: nat, apiVersion: string, payload: Bytes)
    requires pid in s.counters && id !in s.writers && StoreFile(apiVersion).Some?
    ensures var file := StoreFile(apiVersion).value;
            var t := Run(s, [Begin(id, pid, apiVersion, payload), Create(id), WriteChunk(id, |payload|), Rename(id)]);
            && t.files == s.files[file := payload] - {TempName(file, pid, s.counters[pid])}
            && pid in t.counters && t.counters[pid] == s.counters[pid] + 1
            && id in t.writers && t.writers[id] == Writer(pid, s.counters[pid], file, payload, Renamed)
            && Next(t, Open(id)).writers[id].progress == Opened(Some(payload))
  {
    hide Next, TempName, WriteAt, StoreFile;
    var temp := TempName(StoreFile(apiVersion).value, pid, s.counters[pid]);
    BeginAndCreate(s, id, pid, apiVersion, payload);
    var created := Next(Next(s, Begin(id, pid, apiVersion, payload)), Create(id));
    WriteAndRename(created, id);
    RunOfFour(s, Begin(id, pid, apiVersion, payload), Create(id), WriteChunk(id, |payload|), Rename(id));
    FileIsPublished(apiVersion);
    TempNameIsNotPublished(StoreFile(apiVersion).value, pid, s.counters[pid]);
    assert s.files[temp := []][temp := payload] == s.files[temp := payload];
    OpenSeesFile(Next(Next(created, WriteChunk(id, |payload|)), Rename(id)), id);
  }

  /** A call that gives up is forgotten, and nothing else changes. */
  lemma GivingUpForgetsTheCall(s: State, id: nat)
    ensures Next(s, GiveUp(id)).writers == s.writers - {id}
    ensures Next(s, GiveUp(id)).(writers := s.writers) == s
  {}

  /** A process that dies loses its calls, not its files; the next one with its id counts from 0 again. */
  lemma CrashAndRespawn(s: State, pid: nat)
    ensures var t := Next(Next(s, Crash(pid)), Spawn(pid));
            && t.files == s.files && t.payloads == s.payloads
            && t.counters == s.counters[pid := 0]
            && (forall id :: id in t.writers <==> id in s.writers && s.writers[id].pid != pid)
            && (forall id :: id in t.writers ==> t.writers[id] == s.writers[id])
  {}
}
