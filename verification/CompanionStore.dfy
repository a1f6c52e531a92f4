// Staged analysis of open papers and the client that polls for changes
// (crates/key-desktop-host/src/backend.rs, apps/key/src/pdfjs/reader-model.ts).
module CompanionStore {
  import opened Options

  datatype Reference = Reference(number: nat, text: string, metadata: Option<string>, metadataError: Option<string>)
  datatype Analysis = Analysis(document: string, pageCount: nat, references: seq<Reference>)
  datatype Stage = Analyzing | Enriching | Ready | Failed

  datatype Record = Record(
    generation: nat,
    revision: nat,
    analysisRevision: nat,
    stage: Stage,
    document: string,
    analysis: Option<Analysis>,
    documentHash: string,
    semanticStatus: string,
    semanticCompleted: nat,
    semanticTotal: nat,
    textPages: seq<string>,
    nativeTextReady: bool,
    inMemory: bool,
    completed: nat,
    total: nat,
    error: Option<string>)

  /** `drawn` holds the generations handed out to an opening that has not inserted its record yet. */
  datatype Store = Store(records: map<string, Record>, generations: nat, drawn: set<nat>)

  predicate IsComplete(reference: Reference) {
    reference.metadata.Some? || reference.metadataError.Some?
  }

  function CompleteCount(references: seq<Reference>): nat {
    if references == [] then 0 else (if IsComplete(references[0]) then 1 else 0) + CompleteCount(references[1..])
  }

  /** The first reference with a number. */
  function IndexOf(references: seq<Reference>, number: nat): (r: Option<nat>)
    ensures r.Some? ==> r.value < |references| && references[r.value].number == number
    ensures r.Some? ==> forall i :: 0 <= i < r.value ==> references[i].number != number
    ensures r.None? ==> forall i :: 0 <= i < |references| ==> references[i].number != number
  {
    if references == [] then None
    else if references[0].number == number then Some(0)
    else
      var rest := IndexOf(references[1..], number);
      if rest.None? then None else Some(rest.value + 1)
  }

  // ---------- operations on one record ----------

  datatype Update =
    | SetDocumentHash(hash: string)
    | KeepInMemory
    | SetSemanticProgress(status: string, completed: nat, total: nat)
    | InstallLocalAnalysis(analysis: Analysis, textPages: seq<string>, inMemory: bool)
    | InstallSemanticAnalysis
    | UpdateReference(reference: Reference)
    | Finish
    | Fail(error: string)

  function NewRecord(generation: nat, document: string): Record {
    Record(generation, 1, 0, Analyzing, document, None, "", "pending", 0, 0, [], false, false, 0, 0, None)
  }

  function Failure(r: Record, error: string): Record {
    r.(stage := Stage.Failed, error := Some(error), revision := r.revision + 1)
  }

  /** The commit of an installation; `keptInMemory` was read before saving, so it may be out of date. */
  function Installed(r: Record, library: bool, analysis: Analysis, textPages: seq<string>, keptInMemory: bool): Record {
    var inMemory := !library || keptInMemory;
    r.(
      document := analysis.document,
      total := |analysis.references|,
      completed := CompleteCount(analysis.references),
      nativeTextReady := textPages != [] || (!inMemory && analysis.pageCount > 0),
      analysis := Some(analysis),
      analysisRevision := r.analysisRevision + 1,
      textPages := if inMemory then textPages else r.textPages,
      stage := if analysis.references == [] then Stage.Ready else Stage.Enriching,
      error := None,
      revision := r.revision + 1)
  }

  function WithReference(r: Record, reference: Reference, at: nat): Record
    requires r.analysis.Some? && at < |r.analysis.value.references|
  {
    var analysis := r.analysis.value;
    var finishes := !IsComplete(analysis.references[at]) && IsComplete(reference);
    r.(
      analysis := Some(analysis.(references := analysis.references[at := reference])),
      analysisRevision := r.analysisRevision + 1,
      completed := if finishes then r.completed + 1 else r.completed,
      revision := r.revision + 1)
  }

  /** The new record, and what the operation answers. */
  function Updated(r: Record, library: bool, update: Update): (Record, bool) {
    match update
    case SetDocumentHash(hash) => (r.(documentHash := hash, revision := r.revision + 1), true)
    case KeepInMemory => (r.(inMemory := true), true)
    case SetSemanticProgress(status, completed, total) =>
      (r.(semanticStatus := status, semanticCompleted := completed, semanticTotal := total,
          revision := r.revision + 1), true)
    case InstallLocalAnalysis(analysis, textPages, inMemory) =>
      (Installed(r, library, analysis, textPages, inMemory), true)
    case InstallSemanticAnalysis =>
      (r.(semanticStatus := "ready", semanticCompleted := r.semanticTotal, revision := r.revision + 1), true)
    case UpdateReference(reference) =>
      var at := if r.analysis.Some? then IndexOf(r.analysis.value.references, reference.number) else None;
      if at.None? then (r, false) else (WithReference(r, reference, at.value), true)
    case Finish => (r.(stage := Stage.Ready, revision := r.revision + 1), true)
    case Fail(error) => (Failure(r, error), true)
  }

  // ---------- operations on the store ----------

  /**
   * One critical section each. An opening draws its generation before it takes the lock; an installation
   * saves between its check and its commit, and fails the record in a section of its own.
   */
  datatype Operation =
    | Draw
    | Insert(id: string, generation: nat, document: string)
    | Amend(id: string, generation: nat, update: Update)
    | Release(id: string)

  predicate IsCurrent(records: map<string, Record>, id: string, generation: nat) {
    id in records && records[id].generation == generation
  }

  predicate Releasable(r: Record) {
    r.semanticStatus in ["ready", "indexed", "failed", "no_text"] && (r.stage.Ready? || r.stage.Failed?)
  }

  function Apply(s: Store, library: bool, op: Operation): Store {
    match op
    case Draw => s.(generations := s.generations + 1, drawn := s.drawn + {s.generations + 1})
    case Insert(id, generation, document) =>
      if generation !in s.drawn then s
      else s.(records := s.records[id := NewRecord(generation, document)], drawn := s.drawn - {generation})
    case Amend(id, generation, update) =>
      if IsCurrent(s.records, id, generation) then
        s.(records := s.records[id := Updated(s.records[id], library, update).0])
      else s
    case Release(id) =>
      if id in s.records && Releasable(s.records[id]) then s.(records := s.records - {id}) else s
  }

  datatype Snapshot = Snapshot(
    generation: nat,
    revision: nat,
    analysisRevision: nat,
    stage: Stage,
    document: string,
    analysis: Option<Analysis>,
    documentHash: string,
    semanticStatus: string,
    semanticCompleted: nat,
    semanticTotal: nat,
    hasNativeText: bool,
    completed: nat,
    total: nat,
    error: Option<string>)

  /** What a poll answers: the progress, and the analysis only if it is not the one asked about. */
  function SnapshotOf(r: Record, after: Option<nat>): Snapshot {
    Snapshot(
      r.generation, r.revision, r.analysisRevision, r.stage, r.document,
      if after == Some(r.analysisRevision) then None else r.analysis,
      r.documentHash, r.semanticStatus, r.semanticCompleted, r.semanticTotal, r.nativeTextReady,
      r.completed, r.total, r.error)
  }

  /** The snapshot shows where the record stands, whatever becomes of its analysis. */
  predicate ShowsProgress(snapshot: Snapshot, r: Record) {
    && snapshot.generation == r.generation && snapshot.revision == r.revision
    && snapshot.analysisRevision == r.analysisRevision
    && snapshot.stage == r.stage && snapshot.document == r.document && snapshot.documentHash == r.documentHash
    && snapshot.semanticStatus == r.semanticStatus && snapshot.semanticCompleted == r.semanticCompleted
    && snapshot.semanticTotal == r.semanticTotal && snapshot.hasNativeText == r.nativeTextReady
    && snapshot.completed == r.completed && snapshot.total == r.total && snapshot.error == r.error
  }

  class MemoryCompanionStorage {
    var records: map<string, Record>
    var nextGeneration: nat
    ghost var drawn: set<nat>
    const library: bool

    constructor (hasLibrary: bool)
      ensures Value() == Store(map[], 0, {}) && library == hasLibrary
    {
      records, nextGeneration, drawn, library := map[], 0, {}, hasLibrary;
    }

    ghost function Value(): Store
      reads this
    {
      Store(records, nextGeneration, drawn)
    }

    method DrawGeneration() returns (generation: nat)
      modifies this
      ensures Value() == Apply(old(Value()), library, Draw) && generation == old(nextGeneration) + 1
    {
      nextGeneration := nextGeneration + 1;
      generation := nextGeneration;
      drawn := drawn + {generation};
    }

    method InsertRecord(id: string, generation: nat, document: string)
      requires generation in drawn
      modifies this
      ensures Value() == Apply(old(Value()), library, Insert(id, generation, document))
    {
      records := records[id := NewRecord(generation, document)];
      drawn := drawn - {generation};
    }

    /** Both halves of an opening; other threads may act between them. */
    method StartGeneration(id: string, document: string) returns (generation: nat)
      modifies this
      ensures generation == old(nextGeneration) + 1
      ensures Value() == Run(old(Value()), library, [Draw, Insert(id, generation, document)])
    {
      ghost var before := Value();
      generation := DrawGeneration();
      ghost var between := Value();
      InsertRecord(id, generation, document);
      RunOfTwo(before, library, Draw, Insert(id, generation, document));
    }

    method SnapshotSince(id: string, after: Option<nat>) returns (snapshot: Option<Snapshot>)
      ensures snapshot.Some? <==> id in records
      ensures snapshot.Some? ==> ShowsProgress(snapshot.value, records[id])
      ensures snapshot.Some? ==>
        (snapshot.value.analysis.None? <==> records[id].analysis.None? || after == Some(records[id].analysisRevision))
      ensures snapshot.Some? && snapshot.value.analysis.Some? ==> snapshot.value.analysis == records[id].analysis
    {
      snapshot := if id in records then Some(SnapshotOf(records[id], after)) else None;
    }

    method InMemory(id: string) returns (inMemory: bool)
      ensures inMemory <==> id in records && records[id].inMemory
    {
      inMemory := id in records && records[id].inMemory;
    }

    method Advance(id: string, generation: nat, record: Record)
      requires IsCurrent(records, id, generation)
      modifies this`records
      ensures records == old(records)[id := record]
    {
      records := records[id := record];
    }

    /** The last section of an installation, with the flag that was read before saving. */
    method CommitAnalysis(id: string, generation: nat, analysis: Analysis, textPages: seq<string>, inMemory: bool)
      returns (installed: bool)
      modifies this
      ensures Value()
        == Apply(old(Value()), library, Amend(id, generation, InstallLocalAnalysis(analysis, textPages, inMemory)))
      ensures installed == old(IsCurrent(records, id, generation))
    {
      if !IsCurrent(records, id, generation) {
        return false;
      }
      var record := records[id];
      var completed := 0;
      for i := 0 to |analysis.references|
        invariant completed + CompleteCount(analysis.references[i..]) == CompleteCount(analysis.references)
      {
        assert analysis.references[i..][1..] == analysis.references[i + 1..];
        if IsComplete(analysis.references[i]) {
          completed := completed + 1;
        }
      }
      var ready := textPages != [] || (library && !inMemory && analysis.pageCount > 0);
      record := record.(document := analysis.document, total := |analysis.references|, completed := completed,
          nativeTextReady := ready);
      record := record.(analysis := Some(analysis), analysisRevision := record.analysisRevision + 1);
      if !library || inMemory {
        record := record.(textPages := textPages);
      }
      record := record.(stage := if record.total == 0 then Stage.Ready else Stage.Enriching, error := None,
          revision := record.revision + 1);
      Advance(id, generation, record);
      installed := true;
    }

    /** Saves to the library before the commit; a failed save fails the record. Undisturbed, it is one update. */
    method InstallAnalysis(id: string, generation: nat, analysis: Analysis, textPages: seq<string>,
        saveError: Option<string>)
      returns (installed: bool)
      modifies this
      ensures !old(IsCurrent(records, id, generation)) ==> Value() == old(Value()) && !installed
      ensures old(IsCurrent(records, id, generation)) ==>
        && installed == (!library || old(records)[id].inMemory || saveError.None?)
        && Value() == Apply(old(Value()), library, Amend(id, generation,
             if installed then InstallLocalAnalysis(analysis, textPages, old(records)[id].inMemory)
                 else Fail(saveError.value)))
    {
      var snapshot := SnapshotSince(id, None);
      if snapshot.None? || snapshot.value.generation != generation {
        return false;
      }
      var inMemory := InMemory(id);
      if library && !inMemory && saveError.Some? {
        SetFields(id, generation, Fail(saveError.value));
        return false;
      }
      installed := CommitAnalysis(id, generation, analysis, textPages, inMemory);
    }

    method UpdateOne(id: string, generation: nat, reference: Reference) returns (updated: bool)
      modifies this
      ensures Value() == Apply(old(Value()), library, Amend(id, generation, UpdateReference(reference)))
      ensures updated == (
        old(IsCurrent(records, id, generation)) && Updated(old(records)[id], library, UpdateReference(reference)).1)
    {
      if !IsCurrent(records, id, generation) || records[id].analysis.None? {
        assert id in records ==> records[id := records[id]] == records;
        return false;
      }
      var record := records[id];
      var references := record.analysis.value.references;
      var at := 0;
      while at < |references| && references[at].number != reference.number
        invariant at <= |references| && forall i :: 0 <= i < at ==> references[i].number != reference.number
      {
        at := at + 1;
      }
      if at == |references| {
        assert records[id := records[id]] == records;
        return false;
      }
      var wasComplete := IsComplete(references[at]);
      record := record.(analysis := Some(record.analysis.value.(references := references[at := reference])));
      record := record.(analysisRevision := record.analysisRevision + 1);
      if !wasComplete && IsComplete(reference) {
        record := record.(completed := record.completed + 1);
      }
      record := record.(revision := record.revision + 1);
      Advance(id, generation, record);
      updated := true;
    }

    /** The operations that only set fields of a current record; none touches its analysis or any other record. */
    method SetFields(id: string, generation: nat, update: Update)
      requires !update.InstallLocalAnalysis? && !update.UpdateReference?
      modifies this
      ensures Value() == Apply(old(Value()), library, Amend(id, generation, update))
      ensures !old(IsCurrent(records, id, generation)) ==> Value() == old(Value())
      ensures records.Keys == old(records.Keys)
      ensures forall other :: other in records && other != id ==> records[other] == old(records)[other]
      ensures id in records ==>
        && records[id].analysis == old(records)[id].analysis
        && records[id].analysisRevision == old(records)[id].analysisRevision
        && records[id].completed == old(records)[id].completed && records[id].total == old(records)[id].total
        && records[id].textPages == old(records)[id].textPages && records[id].generation == old(records)[id].generation
    {
      if !IsCurrent(records, id, generation) {
        return;
      }
      var record := records[id];
      match update {
        case SetDocumentHash(hash) =>
          record := record.(documentHash := hash);
        case KeepInMemory =>
          record := record.(inMemory := true);
        case SetSemanticProgress(status, completed, total) =>
          record := record.(semanticStatus := status, semanticCompleted := completed, semanticTotal := total);
        case InstallSemanticAnalysis =>
          record := record.(semanticStatus := "ready", semanticCompleted := record.semanticTotal);
        case Finish =>
          record := record.(stage := Stage.Ready);
        case Fail(error) =>
          record := record.(stage := Stage.Failed, error := Some(error));
      }
      if !update.KeepInMemory? {
        record := record.(revision := record.revision + 1);
      }
      Advance(id, generation, record);
    }

    method Forget(id: string)
      modifies this
      ensures Value() == Apply(old(Value()), library, Release(id))
      ensures forall other :: other in old(records) && other !in records <==>
        && other == id && id in old(records) && (old(records)[id].stage.Ready? || old(records)[id].stage.Failed?)
        && old(records)[id].semanticStatus in ["ready", "indexed", "failed", "no_text"]
    {
      if id in records && Releasable(records[id]) {
        records := records - {id};
      }
    }
  }

  // ---------- generations ----------

  function Run(s: Store, library: bool, ops: seq<Operation>): Store
    decreases |ops|
  {
    if ops == [] then s else Run(Apply(s, library, ops[0]), library, ops[1..])
  }

  /** Generations are handed out once: no two records or openings share one, and none is ahead of the counter. */
  predicate GenerationsAreUnique(s: Store) {
    && (forall id :: id in s.records ==>
        s.records[id].generation <= s.generations && s.records[id].generation !in s.drawn)
    && (forall a, b :: a in s.records && b in s.records && s.records[a].generation == s.records[b].generation ==>
        a == b)
    && forall g :: g in s.drawn ==> g <= s.generations
  }

  lemma RunOfTwo(s: Store, library: bool, first: Operation, second: Operation)
    ensures Run(s, library, [first, second]) == Apply(Apply(s, library, first), library, second)
  {
    hide Apply;
    assert [first, second][1..] == [second] && [second][1..] == [];
    var next := Apply(s, library, first);
    assert Run(next, library, [second]) == Run(Apply(next, library, second), library, []);
  }

  lemma UpdateKeepsGeneration(r: Record, library: bool, update: Update)
    ensures var next := Updated(r, library, update).0;
      && next.generation == r.generation && r.revision <= next.revision && r.analysisRevision <= next.analysisRevision
      && next.analysisRevision - r.analysisRevision <= next.revision - r.revision
      && (next.analysisRevision == r.analysisRevision ==> next.analysis == r.analysis)
  {
  }

  lemma ApplyKeepsGenerations(s: Store, library: bool, op: Operation)
    requires GenerationsAreUnique(s)
    ensures GenerationsAreUnique(Apply(s, library, op)) && s.generations <= Apply(s, library, op).generations
  {
    hide Updated;
    if op.Amend? && IsCurrent(s.records, op.id, op.generation) {
      UpdateKeepsGeneration(s.records[op.id], library, op.update);
    }
  }

  lemma {:induction false} RunKeepsGenerations(s: Store, library: bool, ops: seq<Operation>)
    requires GenerationsAreUnique(s)
    ensures GenerationsAreUnique(Run(s, library, ops)) && s.generations <= Run(s, library, ops).generations
    decreases |ops|
  {
    hide Apply, GenerationsAreUnique;
    if ops != [] {
      ApplyKeepsGenerations(s, library, ops[0]);
      RunKeepsGenerations(Apply(s, library, ops[0]), library, ops[1..]);
    }
  }

  /** A generation whose record was replaced or released is dead: whatever still runs under it changes nothing. */
  lemma {:induction false} StaleGenerationIsInert(s: Store, library: bool, ops: seq<Operation>, id: string,
      generation: nat, update: Update)
    requires GenerationsAreUnique(s) && generation <= s.generations && generation !in s.drawn
      && !IsCurrent(s.records, id, generation)
    ensures var later := Run(s, library, ops);
      Apply(later, library, Amend(id, generation, update)) == later
    decreases |ops|
  {
    hide Updated;
    if ops != [] {
      var op := ops[0];
      ApplyKeepsGenerations(s, library, op);
      if op.Amend? && IsCurrent(s.records, op.id, op.generation) {
        UpdateKeepsGeneration(s.records[op.id], library, op.update);
      }
      StaleGenerationIsInert(Apply(s, library, op), library, ops[1..], id, generation, update);
    }
  }

  /** A record goes back to an older generation exactly when an opening inserts after a later one did. */
  lemma GenerationFallsExactly(s: Store, library: bool, op: Operation, id: string)
    requires GenerationsAreUnique(s) && id in s.records
    ensures var next := Apply(s, library, op);
      id in next.records && next.records[id].generation < s.records[id].generation
      <==> op.Insert? && op.id == id && op.generation in s.drawn && op.generation < s.records[id].generation
  {
    hide Updated;
    if op.Amend? && IsCurrent(s.records, op.id, op.generation) {
      UpdateKeepsGeneration(s.records[op.id], library, op.update);
    }
  }

  /** Two openings of one document at once: the earlier generation can win, and the later one is then dead for ever. */
  lemma LaterOpeningCanLose(library: bool, id: string, first: string, second: string, ops: seq<Operation>,
      update: Update)
    ensures var race := [Draw, Draw, Insert(id, 2, second), Insert(id, 1, first)];
      var raced := Run(Store(map[], 0, {}), library, race);
      && raced.records == map[id := NewRecord(1, first)]
      && Apply(Run(raced, library, ops), library, Amend(id, 2, update)) == Run(raced, library, ops)
  {
    hide Updated;
    var s0 := Store(map[], 0, {});
    var race := [Draw, Draw, Insert(id, 2, second), Insert(id, 1, first)];
    var raced := Run(s0, library, race);
    var s2 := Store(map[], 2, {1, 2});
    assert race[1..][1..] == race[2..];
    assert {1} + {2} == s2.drawn;
    assert Apply(Apply(s0, library, Draw), library, Draw) == s2;
    assert raced == Run(Apply(s0, library, Draw), library, race[1..]);
    assert race[1..][0] == Draw && raced == Run(s2, library, race[2..]);
    RunOfTwo(s2, library, race[2], race[3]);
    assert race[2..] == [race[2], race[3]];
    assert raced == Store(map[id := NewRecord(1, first)], 2, {});
    RunKeepsGenerations(s0, library, race);
    StaleGenerationIsInert(raced, library, ops, id, 2, update);
  }

  // ---------- the stage ----------

  /** The last update that says how far the work is. */
  function LastStep(updates: seq<Update>): Option<Update> {
    if updates == [] then None
    else
      var last := updates[|updates| - 1];
      if last.InstallLocalAnalysis? || last.Finish? || last.Fail? then Some(last)
          else LastStep(updates[..|updates| - 1])
  }

  /** The stage that an update leaves: the last installation, finish or failure decides. */
  predicate StageAfter(before: Record, step: Option<Update>, after: Record) {
    match step
    case Some(Finish) => after.stage == Stage.Ready
    case Some(Fail(error)) => after.stage == Stage.Failed && after.error == Some(error)
    case Some(InstallLocalAnalysis(analysis, _, _)) =>
      after.error == None && after.stage == (if analysis.references == [] then Stage.Ready else Stage.Enriching)
    case _ => after.stage == before.stage && after.error == before.error
  }

  lemma StageStep(r: Record, library: bool, update: Update)
    ensures StageAfter(r, Some(update), Updated(r, library, update).0)
  {
    hide CompleteCount;
  }

  /** After any updates the last installation, finish or failure decides the stage, and a failure keeps its error. */
  lemma {:induction false} LastStepDecides(r: Record, library: bool, updates: seq<Update>)
    ensures StageAfter(r, LastStep(updates), Updates(r, library, updates))
    decreases |updates|
  {
    hide Updated, Updates;
    if updates == [] {
      NoUpdates(r, library);
    } else {
      var front, last := updates[..|updates| - 1], updates[|updates| - 1];
      LastStepDecides(r, library, front);
      UpdatesAfter(r, library, front, last);
      StageStep(Updates(r, library, front), library, last);
      assert updates == front + [last];
      DecidingStep(front);
    }
  }

  lemma NoUpdates(r: Record, library: bool)
    ensures Updates(r, library, []) == r
  {
  }

  lemma {:induction false} DecidingStep(updates: seq<Update>)
    ensures var step := LastStep(updates);
      step.None? || step.value.InstallLocalAnalysis? || step.value.Finish? || step.value.Fail?
  {
    if updates != [] {
      DecidingStep(updates[..|updates| - 1]);
    }
  }

  /** What the fields say after any updates, each by the last update that concerns it. */
  function LastInstall(updates: seq<Update>): Option<Update> {
    if updates == [] then None
    else if updates[|updates| - 1].InstallLocalAnalysis? then Some(updates[|updates| - 1])
    else LastInstall(updates[..|updates| - 1])
  }

  function LastHash(updates: seq<Update>, before: string): string {
    if updates == [] then before
    else
      match updates[|updates| - 1]
      case SetDocumentHash(hash) => hash
      case _ => LastHash(updates[..|updates| - 1], before)
  }

  /** The installation that a record shows: its document, its number of references and its text. */
  predicate ShowsInstall(before: Record, library: bool, install: Option<Update>, after: Record) {
    match install
    case Some(InstallLocalAnalysis(analysis, textPages, keptInMemory)) =>
      && after.document == analysis.document && after.total == |analysis.references| && after.analysis.Some?
      && after.nativeTextReady == (textPages != [] || (library && !keptInMemory && analysis.pageCount > 0))
      && (!library || keptInMemory ==> after.textPages == textPages)
    case _ =>
      && after.document == before.document && after.total == before.total && after.textPages == before.textPages
      && after.nativeTextReady == before.nativeTextReady && (after.analysis.None? <==> before.analysis.None?)
  }

  lemma InstallStep(r: Record, library: bool, update: Update)
    ensures var next := Updated(r, library, update).0;
      && (update.InstallLocalAnalysis? ==> ShowsInstall(r, library, Some(update), next))
      && (!update.InstallLocalAnalysis? ==> ShowsInstall(r, library, None, next))
      && next.inMemory == (r.inMemory || update.KeepInMemory?)
      && next.documentHash == if update.SetDocumentHash? then update.hash else r.documentHash
  {
    hide CompleteCount;
  }

  lemma {:induction false} FieldsFollow(r: Record, library: bool, updates: seq<Update>)
    ensures var after := Updates(r, library, updates);
      && ShowsInstall(r, library, LastInstall(updates), after)
      && after.inMemory == (r.inMemory || KeepInMemory in updates)
      && after.documentHash == LastHash(updates, r.documentHash)
    decreases |updates|
  {
    hide Updated, Updates;
    if updates == [] {
      NoUpdates(r, library);
    } else {
      var front, last := updates[..|updates| - 1], updates[|updates| - 1];
      FieldsFollow(r, library, front);
      UpdatesAfter(r, library, front, last);
      InstallStep(Updates(r, library, front), library, last);
      assert updates == front + [last];
      InstallOnly(front);
    }
  }

  lemma {:induction false} InstallOnly(updates: seq<Update>)
    ensures LastInstall(updates).Some? ==> LastInstall(updates).value.InstallLocalAnalysis?
  {
    if updates != [] {
      InstallOnly(updates[..|updates| - 1]);
    }
  }

  lemma {:induction false} UpdatesAfter(r: Record, library: bool, front: seq<Update>, last: Update)
    ensures Updates(r, library, front + [last]) == Updated(Updates(r, library, front), library, last).0
    decreases |front|
  {
    hide Updated;
    if front == [] {
      assert front + [last] == [last] && [last][1..] == [];
      assert Updates(Updated(r, library, last).0, library, []) == Updated(r, library, last).0;
    } else {
      assert (front + [last])[1..] == front[1..] + [last];
      UpdatesAfter(Updated(r, library, front[0]).0, library, front[1..], last);
    }
  }

  // ---------- the count of completed references ----------

  function Updates(r: Record, library: bool, updates: seq<Update>): Record
    decreases |updates|
  {
    if updates == [] then r else Updates(Updated(r, library, updates[0]).0, library, updates[1..])
  }

  /** How many complete references were replaced by incomplete ones since the last installation. */
  function Regressions(r: Record, library: bool, updates: seq<Update>, before: nat): nat
    decreases |updates|
  {
    if updates == [] then before
    else
      var next := Updated(r, library, updates[0]).0;
      Regressions(next, library, updates[1..],
        if Regresses(r, updates[0]) then before + 1
        else if updates[0].InstallLocalAnalysis? then 0
        else before)
  }

  predicate Regresses(r: Record, update: Update) {
    && update.UpdateReference? && r.analysis.Some? && !IsComplete(update.reference)
    && match IndexOf(r.analysis.value.references, update.reference.number)
       case Some(at) => IsComplete(r.analysis.value.references[at])
       case None => false
  }

  /** The counter is ahead of the references by a given number. */
  predicate CountIsOff(r: Record, excess: nat) {
    r.analysis.Some? ==>
      r.completed == CompleteCount(r.analysis.value.references) + excess && r.total == |r.analysis.value.references|
  }

  lemma {:induction false} CountAfterUpdate(references: seq<Reference>, at: nat, reference: Reference)
    requires at < |references|
    ensures CompleteCount(references[at := reference]) + (if IsComplete(references[at]) then 1 else 0)
      == CompleteCount(references) + (if IsComplete(reference) then 1 else 0)
  {
    var after := references[at := reference];
    if at == 0 {
      assert after[1..] == references[1..];
    } else {
      assert after[1..] == references[1..][at - 1 := reference];
      CountAfterUpdate(references[1..], at - 1, reference);
    }
  }

  lemma CountStep(r: Record, library: bool, update: Update, excess: nat)
    requires CountIsOff(r, excess)
    ensures CountIsOff(Updated(r, library, update).0,
      if Regresses(r, update) then excess + 1 else if update.InstallLocalAnalysis? then 0 else excess)
  {
    hide CompleteCount;
    if update.UpdateReference? && r.analysis.Some? {
      var references := r.analysis.value.references;
      var at := IndexOf(references, update.reference.number);
      if at.Some? {
        CountAfterUpdate(references, at.value, update.reference);
      }
    }
  }

  /** The counter exceeds the number of complete references by exactly the regressions so far. */
  lemma {:induction false} CountIsOffByRegressions(r: Record, library: bool, updates: seq<Update>, before: nat)
    requires CountIsOff(r, before)
    ensures CountIsOff(Updates(r, library, updates), Regressions(r, library, updates, before))
    decreases |updates|
  {
    hide CountIsOff, Updated, Regresses;
    if updates != [] {
      CountStep(r, library, updates[0], before);
      var after :=
        if Regresses(r, updates[0]) then before + 1
        else if updates[0].InstallLocalAnalysis? then 0
        else before;
      CountIsOffByRegressions(Updated(r, library, updates[0]).0, library, updates[1..], after);
    }
  }

  lemma {:induction false} CompleteUpdatesNeverRegress(r: Record, library: bool, updates: seq<Update>)
    requires forall i :: 0 <= i < |updates| && updates[i].UpdateReference? ==> IsComplete(updates[i].reference)
    ensures Regressions(r, library, updates, 0) == 0
    decreases |updates|
  {
    hide Updated;
    if updates != [] {
      CompleteUpdatesNeverRegress(Updated(r, library, updates[0]).0, library, updates[1..]);
    }
  }

  /** When every update carries metadata or an error, progress is exact. */
  lemma ProgressIsExact(generation: nat, document: string, library: bool, updates: seq<Update>)
    requires forall i :: 0 <= i < |updates| && updates[i].UpdateReference? ==> IsComplete(updates[i].reference)
    ensures CountIsOff(Updates(NewRecord(generation, document), library, updates), 0)
  {
    hide Updated;
    CompleteUpdatesNeverRegress(NewRecord(generation, document), library, updates);
    CountIsOffByRegressions(NewRecord(generation, document), library, updates, 0);
  }

  /** An update replaces the first reference with its number and no other, and counts it once it is complete. */
  lemma ReferenceIsReplaced(r: Record, library: bool, reference: Reference)
    ensures var (next, done) := Updated(r, library, UpdateReference(reference));
      && (done <==> r.analysis.Some? && HasNumber(r.analysis.value.references, reference.number))
      && (!done ==> next == r)
      && (done ==>
            && next.analysis.Some? && |next.analysis.value.references| == |r.analysis.value.references|
            && next == r.(analysis := next.analysis, analysisRevision := r.analysisRevision + 1,
                 completed := next.completed, revision := r.revision + 1)
            && ReplacedOnce(r.analysis.value.references, next.analysis.value.references, reference,
                 next.completed - r.completed))
  {
    if r.analysis.Some? {
      var references := r.analysis.value.references;
      var found := IndexOf(references, reference.number);
      if found.Some? {
        assert ReplacesFirst(references, references[found.value := reference], found.value, reference);
      }
    }
  }

  predicate HasNumber(references: seq<Reference>, number: nat) {
    exists i :: 0 <= i < |references| && references[i].number == number
  }

  /** The replacement, and by how much it raises the count of complete references. */
  predicate ReplacedOnce(before: seq<Reference>, after: seq<Reference>, reference: Reference, counted: int)
    requires |before| == |after|
  {
    exists at :: 0 <= at < |before| && ReplacesFirst(before, after, at, reference)
      && counted == if !IsComplete(before[at]) && IsComplete(reference) then 1 else 0
  }

  predicate ReplacesFirst(before: seq<Reference>, after: seq<Reference>, at: nat, reference: Reference)
    requires at < |before| == |after|
  {
    && before[at].number == reference.number && after[at] == reference
    && (forall i :: 0 <= i < at ==> before[i].number != reference.number)
    && forall i :: 0 <= i < |before| && i != at ==> after[i] == before[i]
  }

  // ---------- the polling client ----------

  /** What the client remembers, the analysis it shows, and whether it has stopped polling. */
  datatype Client = Client(
    revision: Option<nat>,
    analysisRevision: Option<nat>,
    analysis: Option<Analysis>,
    stopped: bool)

  const FRESH := Client(None, None, None, false)

  /** The answer after which a client does not ask again. */
  predicate Ended(stage: Stage, semanticStatus: string) {
    (stage.Ready? || stage.Failed?) && semanticStatus in ["ready", "indexed", "failed", "paused", "no_text"]
  }

  /** A poll; the listener runs only for a new revision and keeps its analysis when none is sent. */
  function Polled(c: Client, r: Record): Client {
    if c.stopped then c
    else
      var snapshot := SnapshotOf(r, c.analysisRevision);
      var heard := c.revision != Some(snapshot.revision);
      Client(
        Some(snapshot.revision),
        Some(snapshot.analysisRevision),
        if heard && snapshot.analysis.Some? then snapshot.analysis else c.analysis,
        Ended(snapshot.stage, snapshot.semanticStatus))
  }

  /** The client is behind or equal, and equal revisions mean an equal analysis. */
  predicate InStep(c: Client, r: Record) {
    match c.analysisRevision
    case None => c.revision.None? && c.analysis.None?
    case Some(seen) =>
      && c.revision.Some? && c.revision.value <= r.revision && seen <= r.analysisRevision
      && r.analysisRevision - seen <= r.revision - c.revision.value
      && (seen == r.analysisRevision ==> c.analysis == r.analysis)
      && (c.analysis.Some? ==> r.analysis.Some?)
  }

  lemma UpdateKeepsStep(c: Client, r: Record, library: bool, update: Update)
    requires InStep(c, r)
    ensures InStep(c, Updated(r, library, update).0)
  {
    UpdateKeepsGeneration(r, library, update);
  }

  lemma PollKeepsStep(c: Client, r: Record)
    requires InStep(c, r) && !c.stopped
    ensures InStep(Polled(c, r), r) && Polled(c, r).analysis == r.analysis
    ensures Polled(c, r).stopped <==> Ended(r.stage, r.semanticStatus)
  {
  }

  datatype Event = Changed(update: Update) | Poll

  function Watch(c: Client, r: Record, library: bool, events: seq<Event>): (Client, Record)
    decreases |events|
  {
    if events == [] then (c, r)
    else
      match events[0]
      case Changed(update) => Watch(c, Updated(r, library, update).0, library, events[1..])
      case Poll => Watch(Polled(c, r), r, library, events[1..])
  }

  /** The record after some events; polls do not change it. */
  function RecordAfter(r: Record, library: bool, events: seq<Event>): Record
    decreases |events|
  {
    if events == [] then r
    else
      match events[0]
      case Changed(update) => RecordAfter(Updated(r, library, update).0, library, events[1..])
      case Poll => RecordAfter(r, library, events[1..])
  }

  /** The first poll that finds the work ended; no client asks after it. */
  function LastPoll(r: Record, library: bool, events: seq<Event>): (at: Option<nat>)
    ensures at.Some? ==> at.value < |events| && events[at.value].Poll?
    decreases |events|
  {
    if events == [] then None
    else if events[0].Poll? && Ended(r.stage, r.semanticStatus) then Some(0)
    else
      var later := LastPoll(RecordAfter(r, library, events[..1]), library, events[1..]);
      if later.None? then None else Some(later.value + 1)
  }

  lemma {:induction false} StoppedWatch(c: Client, r: Record, library: bool, events: seq<Event>)
    requires c.stopped
    ensures Watch(c, r, library, events) == (c, RecordAfter(r, library, events))
    decreases |events|
  {
    hide Updated;
    if events != [] {
      var next := if events[0].Poll? then r else Updated(r, library, events[0].update).0;
      StoppedWatch(c, next, library, events[1..]);
    }
  }

  lemma RecordAfterOne(r: Record, library: bool, events: seq<Event>)
    requires events != []
    ensures RecordAfter(r, library, events[..1])
      == if events[0].Poll? then r else Updated(r, library, events[0].update).0
  {
    hide Updated;
    assert events[..1][1..] == [];
  }

  /** A client in step stays so until the last poll, whose analysis it keeps from then on. */
  lemma {:induction false} WatchExactly(c: Client, r: Record, library: bool, events: seq<Event>)
    requires InStep(c, r) && !c.stopped
    ensures var (c', r') := Watch(c, r, library, events);
      && r' == RecordAfter(r, library, events)
      && match LastPoll(r, library, events)
         case None => !c'.stopped && InStep(c', r')
         case Some(at) => c'.stopped && c'.analysis == RecordAfter(r, library, events[..at]).analysis
    decreases |events|
  {
    hide InStep, Updated, Polled, Ended;
    if events != [] {
      RecordAfterOne(r, library, events);
      var next := RecordAfter(r, library, events[..1]);
      var c' := if events[0].Poll? then Polled(c, r) else c;
      if events[0].Poll? {
        PollKeepsStep(c, r);
      } else {
        UpdateKeepsStep(c, r, library, events[0].update);
      }
      if c'.stopped {
        StoppedWatch(c', next, library, events[1..]);
      } else {
        WatchExactly(c', next, library, events[1..]);
        var later := LastPoll(next, library, events[1..]);
        if later.Some? {
          assert events[..later.value + 1][1..] == events[1..][..later.value];
        }
      }
    }
  }

  /**
   * Within one generation, for every interleaving of updates and polls that a new client sees: another poll
   * leaves it with the latest analysis exactly when no earlier poll made it stop, or when the analysis is
   * still the one which that last poll found.
   */
  lemma PollIsCurrent(r: Record, library: bool, events: seq<Event>)
    ensures var (c, after) := Watch(FRESH, r, library, events);
      var last := LastPoll(r, library, events);
      && after == RecordAfter(r, library, events)
      && (Polled(c, after).analysis == after.analysis
          <==> last.None? || RecordAfter(r, library, events[..last.value]).analysis == after.analysis)
  {
    hide Updated;
    WatchExactly(FRESH, r, library, events);
    var (c, after) := Watch(FRESH, r, library, events);
    if !c.stopped {
      PollKeepsStep(c, after);
    }
  }

  /** After this update the stage is final, unless references are installed once more. */
  predicate Settles(update: Update) {
    update.Finish? || update.Fail? || (update.InstallLocalAnalysis? && update.analysis.references == [])
  }

  predicate ChangesAnalysis(update: Update) {
    update.InstallLocalAnalysis? || update.UpdateReference?
  }

  /** No analysis is installed or amended once the stage is final. */
  predicate Orderly(events: seq<Event>) {
    forall i, j :: 0 <= i < j < |events| && events[i].Changed? && events[j].Changed? && Settles(events[i].update) ==>
      !ChangesAnalysis(events[j].update)
  }

  lemma {:induction false} QuietEvents(r: Record, library: bool, events: seq<Event>)
    requires forall i :: 0 <= i < |events| && events[i].Changed? ==> !ChangesAnalysis(events[i].update)
    ensures RecordAfter(r, library, events).analysis == r.analysis
    decreases |events|
  {
    if events != [] {
      RecordAfterOne(r, library, events);
      QuietEvents(RecordAfter(r, library, events[..1]), library, events[1..]);
    }
  }

  lemma {:induction false} OrderlyKeepsAnalysis(r: Record, library: bool, events: seq<Event>)
    requires !r.stage.Ready? && !r.stage.Failed? && Orderly(events) && LastPoll(r, library, events).Some?
    ensures var at := LastPoll(r, library, events).value;
      RecordAfter(r, library, events[..at]).analysis == RecordAfter(r, library, events).analysis
    decreases |events|
  {
    hide Updated;
    RecordAfterOne(r, library, events);
    var next := RecordAfter(r, library, events[..1]);
    var later := LastPoll(next, library, events[1..]);
    assert events[..later.value + 1][1..] == events[1..][..later.value];
    if events[0].Changed? && Settles(events[0].update) {
      QuietEvents(next, library, events[1..]);
      QuietEvents(next, library, events[1..][..later.value]);
    } else {
      if events[0].Changed? {
        UnsettledUpdate(r, library, events[0].update);
      }
      OrderlyKeepsAnalysis(next, library, events[1..]);
    }
  }

  lemma UnsettledUpdate(r: Record, library: bool, update: Update)
    requires !r.stage.Ready? && !r.stage.Failed? && !Settles(update)
    ensures var next := Updated(r, library, update).0; !next.stage.Ready? && !next.stage.Failed?
  {
  }

  /** When nothing changes the analysis after the work was called finished or failed, every poll is current. */
  lemma OrderlyPollIsCurrent(generation: nat, document: string, library: bool, events: seq<Event>)
    requires Orderly(events)
    ensures var (c, r) := Watch(FRESH, NewRecord(generation, document), library, events);
      Polled(c, r).analysis == r.analysis
  {
    hide Updated, Polled, Orderly;
    var start := NewRecord(generation, document);
    PollIsCurrent(start, library, events);
    if LastPoll(start, library, events).Some? {
      OrderlyKeepsAnalysis(start, library, events);
    }
  }

  /** One worker fails the record while another still has a reference to store: the client never sees it. */
  lemma LateReferenceIsMissed(r: Record, library: bool, analysis: Analysis, reference: Reference, error: string)
    requires var at := IndexOf(analysis.references, reference.number);
      at.Some? && analysis.references[at.value] != reference
    ensures var events := [
        Changed(InstallLocalAnalysis(analysis, [], false)), Changed(SetSemanticProgress("no_text", 0, 0)),
        Changed(Fail(error)), Poll, Changed(UpdateReference(reference))];
      var (c, after) := Watch(FRESH, r, library, events);
      && Polled(c, after).analysis == Some(analysis)
      && after.analysis.Some? && reference in after.analysis.value.references && after.analysis != Some(analysis)
  {
    hide CompleteCount, IndexOf;
    var at := IndexOf(analysis.references, reference.number).value;
    var install, progress := InstallLocalAnalysis(analysis, [], false), SetSemanticProgress("no_text", 0, 0);
    var events := [Changed(install), Changed(progress), Changed(Fail(error)), Poll,
      Changed(UpdateReference(reference))];
    var r1 := Updated(r, library, install).0;
    var r2 := Updated(r1, library, progress).0;
    var r3 := Updated(r2, library, Fail(error)).0;
    var references := analysis.references[at := reference];
    assert references[at] == reference;
    assert Watch(FRESH, r, library, events) == Watch(FRESH, r3, library, events[3..]) by {
      assert events[1..][1..] == events[2..] && events[2..][1..] == events[3..];
      assert Watch(FRESH, r1, library, events[1..]) == Watch(FRESH, r2, library, events[2..]);
    }
    var c := Polled(FRESH, r3);
    assert c.stopped && c.analysis == Some(analysis);
    assert events[3..][1..] == events[4..] == [events[4]] && events[4..][1..] == [];
    StoppedWatch(c, r3, library, events[4..]);
  }

  /** Across generations equal revisions say nothing: the client keeps the old analysis. */
  lemma EqualRevisionsAcrossGenerations(a: Analysis, b: Analysis)
    requires a != b && a.references != [] && b.references != []
    ensures var old1 := Installed(NewRecord(1, "doc"), false, a, [], false);
      var new2 := Installed(NewRecord(2, "doc"), false, b, [], false);
      Polled(Polled(FRESH, old1), new2).analysis == Some(a) && new2.analysis == Some(b)
  {
    hide CompleteCount;
  }

  /** Exactly when a poll of a new generation shows its analysis. */
  lemma PollOfOtherGeneration(c: Client, r: Record)
    requires r.analysis.Some?
    ensures Polled(c, r).analysis == r.analysis <==>
        c.analysis == r.analysis
        || (!c.stopped && c.analysisRevision != Some(r.analysisRevision) && c.revision != Some(r.revision))
  {
  }
}
