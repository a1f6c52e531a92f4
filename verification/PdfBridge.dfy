// The supervised PDF process: an LRU of at most four resident documents in front of a helper that
// may crash (crates/key-desktop-host/src/native_process.rs), with the helper's behaviour taken
// from run_pdfium_owner (crates/key-desktop-host/src/backend.rs).
module PdfBridge {
  import opened Collections
  import opened Options

  type Id = string
  type Path = string
  type Data = string

  /** Where an open document's pages come from. */
  datatype Source = FromFile(path: Path) | FromBytes(data: Data)

  datatype Request =
    | Preprocess(id: Id, data: Data)
    | OpenFile(id: Id, path: Path)
    | OpenBytes(id: Id, data: Data)
    | Render(id: Id, cancelled: bool)
    | Text(id: Id)
    | Search(id: Id)
    | Hibernate(id: Id)
    | Close(id: Id)

  /** Replies with page content name the document that served them. */
  datatype Reply =
    | Preprocessed
    | Opened
    | Content(source: Source)
    | NoMatches
    | Hibernated
    | Closed
    | Refusal
    | Cancelled
    | SpoolFailed
    | ProcessFailed
  {
    predicate IsOk() {
      Preprocessed? || Opened? || Content? || NoMatches? || Hibernated? || Closed?
    }
  }

  // ---------- the helper process ----------

  /** A hibernated document keeps its entry but has neither pages nor cached text. */
  datatype HelperDoc = HelperDoc(source: Source, pages: nat, live: bool)

  type Docs = map<Id, HelperDoc>

  /** Fate of one exchange: the pipe breaks or times out, the helper refuses, or it complies. */
  datatype Outcome = Lost | Refused | Complies(pages: nat)

  /** The helper's answer to one request that reached it. */
  function Serve(docs: Docs, request: Request, outcome: Outcome): (Docs, Reply)
    requires !outcome.Lost?
  {
    match request
    case Preprocess(id, data) =>
      if outcome.Refused? then (docs, Refusal)
      else (docs[id := HelperDoc(FromBytes(data), outcome.pages, true)], Preprocessed)
    case OpenFile(id, path) =>
      if outcome.Refused? then (docs, Refusal)
      else (docs[id := HelperDoc(FromFile(path), outcome.pages, true)], Opened)
    case OpenBytes(id, data) =>
      if outcome.Refused? then (docs, Refusal)
      else (docs[id := HelperDoc(FromBytes(data), outcome.pages, true)], Opened)
    case Render(id, _) => (docs, ReadPage(docs, id, outcome))
    case Text(id) => (docs, ReadPage(docs, id, outcome))
    case Search(id) =>
      // A search reads every page; without pages it succeeds whatever the document's state.
      if id in docs && !outcome.Refused? && docs[id].pages == 0 then (docs, NoMatches)
      else (docs, ReadPage(docs, id, outcome))
    case Hibernate(id) =>
      if id !in docs then (docs, Refusal) else (docs[id := docs[id].(live := false)], Hibernated)
    case Close(id) => (docs - {id}, Closed)
  }

  function ReadPage(docs: Docs, id: Id, outcome: Outcome): Reply {
    if id !in docs || !docs[id].live || outcome.Refused? then Refusal else Content(docs[id].source)
  }

  // ---------- the bridge ----------

  const CAPACITY: nat := 4

  datatype Bridge = Bridge(
    child: Option<Docs>,           // the helper, when one runs
    sources: map<Id, Path>,        // where to find a document again
    temporary: map<Id, Path>,      // spool files of documents given as bytes
    resident: seq<Id>)             // least recently used first

  const START := Bridge(None, map[], map[], [])

  /** Everything about one request that the environment decides. */
  datatype Fate = Fate(spawns: bool, spool: Option<Path>, restore: Outcome, main: Outcome, evict: nat -> Outcome)

  predicate IsRead(request: Request) {
    request.Render? || request.Text? || request.Search?
  }

  /** The helper is killed; its handles are gone. */
  function Fail(b: Bridge): (Bridge, Reply) {
    (b.(child := None), ProcessFailed)
  }

  /** Starts a helper if none runs; a new helper has no documents. */
  function Spawn(b: Bridge): Bridge {
    if b.child.None? then b.(child := Some(map[]), resident := []) else b
  }

  /** Reopens the requested document after an eviction or a crash, and marks it most recently used. */
  function Restore(b: Bridge, id: Id, outcome: Outcome): Option<Bridge>
    requires b.child.Some?
  {
    if id !in b.resident && id in b.sources then
      if outcome.Lost? then None
      else
        var (docs, reply) := Serve(b.child.value, OpenFile(id, b.sources[id]), outcome);
        if !reply.IsOk() then None
        else Some(b.(child := Some(docs), resident := Without(b.resident + [id], id) + [id]))
    else Some(b.(resident := Without(b.resident, id) + [id]))
  }

  /** What a successful reply changes in the bridge's own tables. */
  function Record(b: Bridge, request: Request): Bridge {
    match request
    case OpenFile(id, path) => b.(resident := Without(b.resident, id) + [id], sources := b.sources[id := path])
    case Close(id) => b.(sources := b.sources - {id}, temporary := b.temporary - {id},
      resident := Without(b.resident, id))
    case Hibernate(id) => b.(sources := b.sources - {id}, temporary := b.temporary - {id},
      resident := Without(b.resident, id))
    case _ => b
  }

  /** Closes least recently used documents until at most four remain; false when the pipe breaks. */
  function Evict(b: Bridge, fate: nat -> Outcome, k: nat): (bool, Bridge)
    requires b.child.Some?
    decreases |b.resident|
  {
    if |b.resident| <= CAPACITY then (true, b)
    else
      var popped := b.(resident := b.resident[1..]);
      if fate(k).Lost? then (false, popped)
      else Evict(popped.(child := Some(Serve(b.child.value, Close(b.resident[0]), fate(k)).0)), fate, k + 1)
  }

  /** From the sending of the request to the client's reply. */
  function Answer(b: Bridge, request: Request, fate: Fate): (Bridge, Reply)
    requires b.child.Some?
  {
    if fate.main.Lost? then Fail(b)
    else
      var (docs, reply) := Serve(b.child.value, request, fate.main);
      var served := b.(child := Some(docs));
      var recorded := if reply.IsOk() then Record(served, request) else served;
      var (kept, evicted) := Evict(recorded, fate.evict, 0);
      if kept then (evicted, reply) else Fail(evicted)
  }

  /** One request from the helper's start to the client's reply. */
  function Exchange(b0: Bridge, request: Request, fate: Fate): (Bridge, Reply)
    requires !request.OpenBytes?
  {
    if b0.child.None? && !fate.spawns then Fail(b0)
    else
      var b1 := Spawn(b0);
      var restored := if IsRead(request) then Restore(b1, request.id, fate.restore) else Some(b1);
      if restored.None? then Fail(b1)
      else
        var b2 := restored.value;
        Answer(b2, request, fate)
  }

  /** The whole loop body: cancelled renders are dropped, bytes are spooled to a file. */
  function Step(b: Bridge, request: Request, fate: Fate): (Bridge, Reply) {
    if request.Render? && request.cancelled then (b, Cancelled)
    else if request.OpenBytes? then
      if fate.spool.None? then (b, SpoolFailed)
      else Exchange(b.(temporary := b.temporary[request.id := fate.spool.value]),
        OpenFile(request.id, fate.spool.value), fate)
    else Exchange(b, request, fate)
  }

  // ---------- what a client may believe ----------

  /** For each document ID, the sources its pages can come from, judging by replies alone. */
  type Belief = map<Id, set<Source>>

  function Believed(belief: Belief, id: Id): set<Source> {
    if id in belief then belief[id] else {}
  }

  /** The path that a request opens, if it opens one. */
  function OpenedPath(request: Request, fate: Fate): Option<Path> {
    match request
    case OpenFile(_, path) => Some(path)
    case OpenBytes(_, _) => fate.spool
    case _ => None
  }

  function Learn(belief: Belief, request: Request, fate: Fate, reply: Reply): Belief {
    var id := request.id;
    var path := OpenedPath(request, fate);
    if path.Some? && reply == Opened then belief[id := {FromFile(path.value)}]
    // The file may have been opened before the process failed.
    else if path.Some? && reply == ProcessFailed then belief[id := Believed(belief, id) + {FromFile(path.value)}]
    else if request.Preprocess? && reply == Preprocessed
      then belief[id := Believed(belief, id) + {FromBytes(request.data)}]
    else if (request.Close? || request.Hibernate?) && reply.IsOk() then belief[id := {}]
    else belief
  }

  // ---------- invariant ----------

  /** Known sources and live documents are among what the client believes. */
  ghost predicate Explained(b: Bridge, belief: Belief) {
    && (forall id :: id in b.sources ==> FromFile(b.sources[id]) in Believed(belief, id))
    && (b.child.Some? ==>
          forall id :: id in b.child.value && b.child.value[id].live ==>
            b.child.value[id].source in Believed(belief, id))
  }

  /** Resident documents with a known source are open and live in the helper; every live document
      opened from a file is resident. */
  ghost predicate Tracked(b: Bridge) {
    b.child.Some? ==>
      && NoDuplicates(b.resident)
      && (forall id :: id in b.resident && id in b.sources ==> id in b.child.value && b.child.value[id].live)
      && (forall id :: id in b.child.value && b.child.value[id].live && b.child.value[id].source.FromFile? ==>
          id in b.resident)
  }

  ghost predicate Inv(b: Bridge, belief: Belief) {
    Explained(b, belief) && Tracked(b) && (b.child.Some? ==> |b.resident| <= CAPACITY)
  }

  /** The same beliefs about every other ID. */
  ghost predicate SameElsewhere(a: Belief, b: Belief, id: Id) {
    forall x :: x != id ==> Believed(a, x) == Believed(b, x)
  }

  /** The bridge after the helper opened a file and the bridge recorded it. */
  function AfterOpen(b: Bridge, id: Id, path: Path, pages: nat): Bridge
    requires b.child.Some?
  {
    b.(child := Some(b.child.value[id := HelperDoc(FromFile(path), pages, true)]),
       resident := Without(b.resident, id) + [id], sources := b.sources[id := path])
  }

  lemma OpenKeeps(b: Bridge, id: Id, path: Path, pages: nat, belief: Belief, learnt: Belief)
    requires b.child.Some? && Explained(b, belief) && Tracked(b)
    requires SameElsewhere(belief, learnt, id) && FromFile(path) in Believed(learnt, id)
    ensures Explained(AfterOpen(b, id, path, pages), learnt) && Tracked(AfterOpen(b, id, path, pages))
  {
    hide Believed, NoDuplicates, Without;
    WithoutNoDuplicates(b.resident, id);
    var r := AfterOpen(b, id, path, pages);
    forall x | x in r.sources ensures FromFile(r.sources[x]) in Believed(learnt, x) {
      if x != id {
        assert FromFile(b.sources[x]) in Believed(belief, x);
      }
    }
    forall x | x in r.child.value && r.child.value[x].live ensures r.child.value[x].source in Believed(learnt, x) {
      if x != id {
        assert b.child.value[x].source in Believed(belief, x);
      }
    }
  }

  lemma RestoreKeeps(b: Bridge, id: Id, outcome: Outcome, belief: Belief)
    requires b.child.Some? && Inv(b, belief) && Restore(b, id, outcome).Some?
    ensures var r := Restore(b, id, outcome).value;
            r.child.Some? && Explained(r, belief) && Tracked(r)
  {
    hide Believed, NoDuplicates, Without, Tracked, Explained;
    if id !in b.resident && id in b.sources {
      WithoutAbsent(b.resident, id);
      KnownSource(b, id, belief);
      OpenKeeps(b, id, b.sources[id], outcome.pages, belief, belief);
      assert b.sources[id := b.sources[id]] == b.sources;
    } else {
      TouchKeeps(b, id, belief);
    }
  }

  lemma KnownSource(b: Bridge, id: Id, belief: Belief)
    requires Explained(b, belief) && id in b.sources
    ensures FromFile(b.sources[id]) in Believed(belief, id)
  {
  }

  lemma TouchKeeps(b: Bridge, id: Id, belief: Belief)
    requires b.child.Some? && Explained(b, belief) && Tracked(b) && (id in b.resident || id !in b.sources)
    ensures var r := b.(resident := Without(b.resident, id) + [id]); Explained(r, belief) && Tracked(r)
  {
    WithoutNoDuplicates(b.resident, id);
  }

  lemma {:induction false} EvictKeeps(b: Bridge, fate: nat -> Outcome, k: nat, belief: Belief)
    requires b.child.Some? && Explained(b, belief) && Tracked(b)
    ensures var (kept, r) := Evict(b, fate, k);
            && r.child.Some? && Explained(r, belief)
            && r.sources == b.sources && r.temporary == b.temporary
            && (kept ==> Inv(r, belief))
    decreases |b.resident|
  {
    if |b.resident| > CAPACITY && !fate(k).Lost? {
      var first := b.resident[0];
      var next := b.(resident := b.resident[1..], child := Some(b.child.value - {first}));
      assert first !in next.resident;
      EvictKeeps(next, fate, k + 1, belief);
    }
  }

  /** Bytes analysed by the helper, an insertion the bridge does not track. */
  lemma PreprocessKeeps(b: Bridge, id: Id, data: Data, pages: nat, belief: Belief, learnt: Belief)
    requires b.child.Some? && Explained(b, belief) && Tracked(b)
    requires SameElsewhere(belief, learnt, id)
    requires Believed(learnt, id) == Believed(belief, id) + {FromBytes(data)}
    ensures var r := b.(child := Some(b.child.value[id := HelperDoc(FromBytes(data), pages, true)]));
            Explained(r, learnt) && Tracked(r)
  {
    hide Believed, NoDuplicates;
  }

  /** Closing or hibernating a document and forgetting it. */
  lemma ForgetKeeps(b: Bridge, docs: Docs, id: Id, belief: Belief, learnt: Belief)
    requires b.child.Some? && Explained(b, belief) && Tracked(b)
    requires SameElsewhere(belief, learnt, id)
    requires forall x :: x != id ==>
      ((x in docs <==> x in b.child.value) && (x in docs ==> docs[x] == b.child.value[x]))
    requires id in docs ==> !docs[id].live
    ensures var r := b.(child := Some(docs), sources := b.sources - {id}, temporary := b.temporary - {id},
                        resident := Without(b.resident, id));
            Explained(r, learnt) && Tracked(r)
  {
    hide Believed;
    WithoutNoDuplicates(b.resident, id);
  }

  /** The main exchange: what the helper did and what the bridge records agree with what the client learns. */
  lemma ServeKeeps(b: Bridge, request: Request, fate: Fate, belief: Belief)
    requires b.child.Some? && Explained(b, belief) && Tracked(b) && !fate.main.Lost? && !request.OpenBytes?
    ensures var (docs, reply) := Serve(b.child.value, request, fate.main);
            var b3 := b.(child := Some(docs));
            var b4 := if reply.IsOk() then Record(b3, request) else b3;
            var learnt := Learn(belief, request, fate, reply);
            && Explained(b4, learnt) && Tracked(b4)
            && (reply.Content? ==> IsRead(request) && reply.source in Believed(belief, request.id))
  {
    hide Explained, Tracked, Without, NoDuplicates;
    var (docs, reply) := Serve(b.child.value, request, fate.main);
    var learnt := Learn(belief, request, fate, reply);
    assert b.(child := Some(b.child.value)) == b;
    match request
    case OpenFile(id, path) =>
      if reply == Opened {
        OpenKeeps(b, id, path, fate.main.pages, belief, learnt);
      }
    case Preprocess(id, data) =>
      if reply == Preprocessed {
        PreprocessKeeps(b, id, data, fate.main.pages, belief, learnt);
      }
    case Close(id) => ForgetKeeps(b, docs, id, belief, learnt);
    case Hibernate(id) =>
      if reply.IsOk() {
        ForgetKeeps(b, docs, id, belief, learnt);
      }
    case Render(id, _) => ReadIsExplained(b, id, fate.main, belief);
    case Text(id) => ReadIsExplained(b, id, fate.main, belief);
    case Search(id) => ReadIsExplained(b, id, fate.main, belief);
    case OpenBytes(_, _) =>
  }

  lemma ReadIsExplained(b: Bridge, id: Id, outcome: Outcome, belief: Belief)
    requires b.child.Some? && Explained(b, belief)
    ensures var reply := ReadPage(b.child.value, id, outcome);
            reply.Content? ==> reply.source in Believed(belief, id)
  {
  }

  /** A request that failed cannot have changed anything but an opened file's source. */
  lemma ExchangeKeeps(b0: Bridge, request: Request, fate: Fate, belief: Belief)
    requires Inv(b0, belief) && !request.OpenBytes?
    ensures var (r, reply) := Exchange(b0, request, fate);
            && Inv(r, Learn(belief, request, fate, reply))
            && (reply.Content? ==> IsRead(request) && reply.source in Believed(belief, request.id))
  {
    hide Serve, Restore, Record, Evict, Tracked, Without;
    if b0.child.Some? || fate.spawns {
      var b1 := Spawn(b0);
      SpawnKeeps(b0, belief);
      if IsRead(request) && Restore(b1, request.id, fate.restore).Some? {
        RestoreKeeps(b1, request.id, fate.restore, belief);
      }
      var restored := if IsRead(request) then Restore(b1, request.id, fate.restore) else Some(b1);
      if restored.None? {
        FailKeeps(b1, request, fate, belief);
      } else if fate.main.Lost? {
        FailKeeps(restored.value, request, fate, belief);
      } else {
        AfterServe(b0, restored.value, request, fate, belief);
      }
    } else {
      FailKeeps(b0, request, fate, belief);
    }
  }

  lemma SpawnKeeps(b: Bridge, belief: Belief)
    requires Inv(b, belief)
    ensures Inv(Spawn(b), belief) && Spawn(b).child.Some?
  {
  }

  lemma FailKeeps(b: Bridge, request: Request, fate: Fate, belief: Belief)
    requires Explained(b, belief)
    ensures Inv(Fail(b).0, Learn(belief, request, fate, ProcessFailed))
  {
  }

  lemma DeadKeeps(b: Bridge, belief: Belief)
    requires forall id :: id in b.sources ==> FromFile(b.sources[id]) in Believed(belief, id)
    ensures Inv(Fail(b).0, belief)
  {
  }

  lemma AfterServe(b0: Bridge, b2: Bridge, request: Request, fate: Fate, belief: Belief)
    requires b2.child.Some? && Explained(b2, belief) && Tracked(b2) && !fate.main.Lost? && !request.OpenBytes?
    ensures var (docs, reply) := Serve(b2.child.value, request, fate.main);
            var b3 := b2.(child := Some(docs));
            var b4 := if reply.IsOk() then Record(b3, request) else b3;
            var (kept, b5) := Evict(b4, fate.evict, 0);
            && (kept ==> Inv(b5, Learn(belief, request, fate, reply)))
            && (!kept ==> Inv(Fail(b5).0, Learn(belief, request, fate, ProcessFailed)))
            && (reply.Content? ==> IsRead(request) && reply.source in Believed(belief, request.id))
  {
    hide Evict, Tracked, NoDuplicates, Without, Serve, Learn;
    var (docs, reply) := Serve(b2.child.value, request, fate.main);
    var b3 := b2.(child := Some(docs));
    var b4 := if reply.IsOk() then Record(b3, request) else b3;
    ServeKeeps(b2, request, fate, belief);
    EvictKeeps(b4, fate.evict, 0, Learn(belief, request, fate, reply));
    SourcesExplained(b3, request, fate, belief, reply);
    DeadKeeps(Evict(b4, fate.evict, 0).1, Learn(belief, request, fate, ProcessFailed));
  }

  /** Even when the process fails after the exchange, recorded sources are explained. */
  lemma SourcesExplained(b: Bridge, request: Request, fate: Fate, belief: Belief, reply: Reply)
    requires !request.OpenBytes? && forall id :: id in b.sources ==> FromFile(b.sources[id]) in Believed(belief, id)
    ensures var r := if reply.IsOk() then Record(b, request) else b;
            forall id :: id in r.sources ==>
              FromFile(r.sources[id]) in Believed(Learn(belief, request, fate, ProcessFailed), id)
  {
    hide Without;
  }

  // ---------- runs ----------

  /** Every step keeps the invariant, and content served for an ID comes from a believed source. */
  lemma StepKeeps(b: Bridge, request: Request, fate: Fate, belief: Belief)
    requires Inv(b, belief)
    ensures var (r, reply) := Step(b, request, fate);
            && Inv(r, Learn(belief, request, fate, reply))
            && (reply.Content? ==> IsRead(request) && reply.source in Believed(belief, request.id))
  {
    hide Exchange, Tracked, Explained;
    if request.OpenBytes? {
      if fate.spool.Some? {
        var spooled := b.(temporary := b.temporary[request.id := fate.spool.value]);
        TemporaryIsFree(b, spooled, belief);
        ExchangeKeeps(spooled, OpenFile(request.id, fate.spool.value), fate, belief);
      }
    } else if !(request.Render? && request.cancelled) {
      ExchangeKeeps(b, request, fate, belief);
    }
  }

  lemma TemporaryIsFree(a: Bridge, b: Bridge, belief: Belief)
    requires Inv(a, belief) && b == a.(temporary := b.temporary)
    ensures Inv(b, belief)
  {
  }

  datatype Event = Event(request: Request, fate: Fate)

  /** Bridge and belief after a run. */
  function Run(events: seq<Event>): (r: (Bridge, Belief))
  {
    if events == [] then (START, map[])
    else
      var (b, belief) := Run(events[..|events| - 1]);
      var Event(request, fate) := events[|events| - 1];
      var (next, reply) := Step(b, request, fate);
      (next, Learn(belief, request, fate, reply))
  }

  /** The reply to the last request of a run. */
  function LastReply(events: seq<Event>): Reply
    requires events != []
  {
    Step(Run(events[..|events| - 1]).0, events[|events| - 1].request, events[|events| - 1].fate).1
  }

  /** In every reachable state: at most four resident documents without repetition, known ones open in
      the helper, live file documents resident. */
  lemma {:induction false} RunKeeps(events: seq<Event>)
    ensures Inv(Run(events).0, Run(events).1)
    decreases |events|
  {
    hide Step, Learn, Inv;
    if events == [] {
      StartKeeps();
    } else {
      var before := events[..|events| - 1];
      var last := events[|events| - 1];
      RunKeeps(before);
      StepKeeps(Run(before).0, last.request, last.fate, Run(before).1);
    }
  }

  lemma StartKeeps()
    ensures Inv(START, map[])
  {
  }

  /** Over every run with evictions and crashes, page content served for an ID comes from a source
      that the client's own replies explain. */
  lemma ContentIsBelieved(events: seq<Event>)
    requires events != [] && LastReply(events).Content?
    ensures LastReply(events).source in Believed(Run(events[..|events| - 1]).1, events[|events| - 1].request.id)
    ensures IsRead(events[|events| - 1].request)
  {
    hide Step, Learn, Inv;
    var before := events[..|events| - 1];
    var last := events[|events| - 1];
    RunKeeps(before);
    StepKeeps(Run(before).0, last.request, last.fate, Run(before).1);
  }

  // ---------- the helper that never forgets ----------

  predicate Forgets(request: Request, reply: Reply) {
    (request.Close? || request.Hibernate?) && reply.IsOk()
  }

  /** The path that `id` was last successfully opened from and not closed or hibernated since. */
  function LastOpened(events: seq<Event>, id: Id): Option<Path>
  {
    if events == [] then None
    else
      var last := events[|events| - 1];
      var before := LastOpened(events[..|events| - 1], id);
      var reply := LastReply(events);
      if last.request.id != id then before
      else if reply == Opened then OpenedPath(last.request, last.fate)
      else if Forgets(last.request, reply) then None
      else before
  }

  /** Since it was last opened, closed or hibernated, `id` was neither preprocessed nor involved in
      an opening that ended in a process failure. */
  predicate Undisturbed(events: seq<Event>, id: Id)
  {
    if events == [] then true
    else
      var last := events[|events| - 1];
      var reply := LastReply(events);
      if last.request.id != id then Undisturbed(events[..|events| - 1], id)
      else if reply == Opened || Forgets(last.request, reply) then true
      else if last.request.Preprocess? && reply == Preprocessed then false
      else if OpenedPath(last.request, last.fate).Some? && reply == ProcessFailed then false
      else Undisturbed(events[..|events| - 1], id)
  }

  lemma {:induction false} UndisturbedBelief(events: seq<Event>, id: Id)
    requires Undisturbed(events, id)
    ensures Believed(Run(events).1, id) == var p := LastOpened(events, id); if p.Some? then {FromFile(p.value)} else {}
    decreases |events|
  {
    hide Exchange, Inv;
    if events != [] {
      var before := events[..|events| - 1];
      var last := events[|events| - 1];
      OpenedHasPath(Run(before).0, last.request, last.fate);
      if Undisturbed(before, id) {
        UndisturbedBelief(before, id);
      }
    }
  }

  /** Only a request that opens a path is answered with Opened. */
  lemma OpenedHasPath(b: Bridge, request: Request, fate: Fate)
    ensures Step(b, request, fate).1 == Opened ==> OpenedPath(request, fate).Some?
  {
    hide Restore, Record, Evict;
  }

  /** The next read of `id` comes from `p`, if it gives content: the source on record when the document
      must be reopened first, else the helper's live document. */
  predicate Serves(b: Bridge, id: Id, p: Path) {
    if id in b.sources && (b.child.None? || id !in b.resident) then b.sources[id] == p
    else b.child.Some? && id in b.child.value && b.child.value[id].live ==> b.child.value[id].source == FromFile(p)
  }

  /** Whatever the next read of `id` is and whatever its fate, content is that of `p`. */
  ghost predicate EveryReadIs(b: Bridge, id: Id, p: Path) {
    forall request, fate :: IsRead(request) && request.id == id && Step(b, request, fate).1.Content? ==>
      Step(b, request, fate).1 == Content(FromFile(p))
  }

  lemma ServedRead(b: Bridge, request: Request, fate: Fate, p: Path)
    requires IsRead(request) && Serves(b, request.id, p) && Step(b, request, fate).1.Content?
    ensures Step(b, request, fate).1 == Content(FromFile(p))
  {
    hide Evict, Without;
  }

  lemma {:induction false} SmoothEviction(b: Bridge, k: nat)
    requires b.child.Some?
    ensures Evict(b, Smooth().evict, k).0
    decreases |b.resident|
  {
    if |b.resident| > CAPACITY {
      var popped := b.(resident := b.resident[1..]);
      SmoothEviction(popped.(child := Some(Serve(b.child.value, Close(b.resident[0]), Complies(1)).0)), k + 1);
    }
  }

  /** A smooth reading of the text shows what would be served otherwise. */
  lemma UnservedRead(b: Bridge, id: Id, p: Path)
    requires !Serves(b, id, p)
    ensures var reply := Step(b, Text(id), Smooth()).1; reply.Content? && reply != Content(FromFile(p))
  {
    hide Evict, Without;
    var b1 := Spawn(b);
    var b2 := Restore(b1, id, Complies(1)).value;
    var (docs, reply) := Serve(b2.child.value, Text(id), Complies(1));
    SmoothEviction(b2.(child := Some(docs)), 0);
  }

  /** In every state, reached or not, every read of `id` is faithful to `p` exactly when `Serves` says so. */
  lemma ServesExactly(b: Bridge, id: Id, p: Path)
    ensures EveryReadIs(b, id, p) <==> Serves(b, id, p)
  {
    hide Step, Serves;
    if Serves(b, id, p) {
      forall request, fate | IsRead(request) && request.id == id && Step(b, request, fate).1.Content?
        ensures Step(b, request, fate).1 == Content(FromFile(p))
      {
        ServedRead(b, request, fate, p);
      }
    } else {
      UnservedRead(b, id, p);
      assert IsRead(Text(id));
    }
  }

  /** An undisturbed document is served from the path it was last opened from. */
  lemma UndisturbedServes(events: seq<Event>, id: Id)
    requires Undisturbed(events, id) && LastOpened(events, id).Some?
    ensures Serves(Run(events).0, id, LastOpened(events, id).value)
  {
    hide Run, Undisturbed, LastOpened, Tracked;
    RunKeeps(events);
    UndisturbedBelief(events, id);
  }

  /** For an undisturbed ID the bridge serves exactly what a helper that never evicts or crashes
      would: the file last successfully opened and not closed or hibernated since. */
  lemma RefinesFaithfulHelper(events: seq<Event>)
    requires events != [] && LastReply(events).Content?
    requires Undisturbed(events[..|events| - 1], events[|events| - 1].request.id)
    ensures var p := LastOpened(events[..|events| - 1], events[|events| - 1].request.id);
            p.Some? && LastReply(events).source == FromFile(p.value)
  {
    hide Step, Learn, Inv, LastOpened, Undisturbed, Run, Serves;
    var before, last := events[..|events| - 1], events[|events| - 1];
    ContentIsBelieved(events);
    UndisturbedBelief(before, last.request.id);
    UndisturbedServes(before, last.request.id);
    ServedRead(Run(before).0, last.request, last.fate, LastOpened(before, last.request.id).value);
  }

  /** After any run, every read of a document is faithful to its last opening exactly when the state serves that
      path. */
  lemma RunServesExactly(events: seq<Event>, id: Id)
    requires LastOpened(events, id).Some?
    ensures var p := LastOpened(events, id).value;
      (forall request, fate ::
          IsRead(request) && request.id == id && LastReply(events + [Event(request, fate)]).Content? ==>
        LastReply(events + [Event(request, fate)]) == Content(FromFile(p))) <==> Serves(Run(events).0, id, p)
  {
    hide Step, Run, Serves, LastReply, LastOpened;
    var p := LastOpened(events, id).value;
    ServesExactly(Run(events).0, id, p);
    forall request, fate
      ensures LastReply(events + [Event(request, fate)]) == Step(Run(events).0, request, fate).1
    {
      RunStep(events, request, fate);
    }
  }

  // ---------- why the condition is needed ----------

  function Smooth(): Fate {
    Fate(true, None, Complies(1), Complies(1), (k: nat) => Complies(1))
  }

  lemma RunStep(events: seq<Event>, request: Request, fate: Fate)
    ensures Run(events + [Event(request, fate)]).0 == Step(Run(events).0, request, fate).0
    ensures LastReply(events + [Event(request, fate)]) == Step(Run(events).0, request, fate).1
    ensures (events + [Event(request, fate)])[..|events|] == events
  {
    assert (events + [Event(request, fate)])[..|events|] == events;
  }

  /** A helper with the one document `a`, opened from `path` and now served from `source`. */
  function OneDocument(a: Id, path: Path, source: Source): Bridge {
    Bridge(Some(map[a := HelperDoc(source, 1, true)]), map[a := path], map[], [a])
  }

  lemma OneDocumentSteps(a: Id, path: Path, data: Data)
    ensures Step(START, OpenFile(a, path), Smooth()) == (OneDocument(a, path, FromFile(path)), Opened)
    ensures Step(OneDocument(a, path, FromFile(path)), Preprocess(a, data), Smooth())
            == (OneDocument(a, path, FromBytes(data)), Preprocessed)
    ensures Step(OneDocument(a, path, FromBytes(data)), Text(a), Smooth()).1 == Content(FromBytes(data))
  {
    var none: Docs, nowhere: map<Id, Path> := map[], map[];
    var file, bytes := HelperDoc(FromFile(path), 1, true), HelperDoc(FromBytes(data), 1, true);
    assert none[a := file] == map[a := file] && nowhere[a := path] == map[a := path];
    assert (map[a := file])[a := bytes] == map[a := bytes];
    assert Without([], a) + [a] == [a];
    assert Step(START, OpenFile(a, path), Smooth()).0 == OneDocument(a, path, FromFile(path));
  }

  /** Preprocessing an open ID replaces its document in the helper behind the bridge's back. */
  lemma PreprocessDisturbs(a: Id, path: Path, data: Data)
    ensures var events := [Event(OpenFile(a, path), Smooth()), Event(Preprocess(a, data), Smooth())];
            && LastReply(events + [Event(Text(a), Smooth())]) == Content(FromBytes(data))
            && LastOpened(events, a) == Some(path)
  {
    hide Run, LastReply, Step;
    var e0: seq<Event> := [];
    var e1 := e0 + [Event(OpenFile(a, path), Smooth())];
    var e2 := e1 + [Event(Preprocess(a, data), Smooth())];
    EmptyRun();
    OneDocumentSteps(a, path, data);
    RunStep(e0, OpenFile(a, path), Smooth());
    RunStep(e1, Preprocess(a, data), Smooth());
    RunStep(e2, Text(a), Smooth());
    assert e2 == [Event(OpenFile(a, path), Smooth()), Event(Preprocess(a, data), Smooth())];
  }

  lemma EmptyRun()
    ensures Run([]) == (START, map[])
  {
  }

  /** An opening whose eviction breaks the pipe is reported as failed, yet the file is served afterwards. */
  lemma FailedOpenDisturbs(b: Bridge, a: Id, path: Path)
    requires b.child.Some? && |b.resident| == CAPACITY && a !in b.resident
    ensures var broken := Smooth().(evict := (k: nat) => Lost);
            var (next, reply) := Step(b, OpenFile(a, path), broken);
            && reply == ProcessFailed
            && Step(next, Text(a), Smooth()).1 == Content(FromFile(path))
  {
    WithoutAbsent(b.resident, a);
    var broken := Smooth().(evict := (k: nat) => Lost);
    var docs := b.child.value[a := HelperDoc(FromFile(path), 1, true)];
    var recorded := Record(b.(child := Some(docs)), OpenFile(a, path));
    assert |recorded.resident| == CAPACITY + 1;
    assert Evict(recorded, broken.evict, 0) == (false, recorded.(resident := recorded.resident[1..]));
    var next := Step(b, OpenFile(a, path), broken).0;
    assert next.child == None && next.sources[a] == path;
  }

  lemma OpensSmoothly(b: Bridge, id: Id, path: Path)
    requires b == START || (b.child.Some? && |b.resident| < CAPACITY && id !in b.resident)
    ensures var (next, reply) := Step(b, OpenFile(id, path), Smooth());
      reply == Opened && next.child.Some? && next.resident == b.resident + [id]
  {
    WithoutAbsent(b.resident, id);
  }

  function FourOpenings(path: Path): seq<Event> {
    [Event(OpenFile("a", path), Smooth())] + [Event(OpenFile("b", path), Smooth())]
    + [Event(OpenFile("c", path), Smooth())] + [Event(OpenFile("d", path), Smooth())]
  }

  lemma FourAreResident(path: Path)
    ensures var b := Run(FourOpenings(path)).0; b.child.Some? && b.resident == ["a", "b", "c", "d"]
    ensures LastOpened(FourOpenings(path), "e") == None
  {
    hide Run, Step, LastReply, Without;
    var e0: seq<Event> := [];
    var e1 := [Event(OpenFile("a", path), Smooth())];
    var e2 := e1 + [Event(OpenFile("b", path), Smooth())];
    var e3 := e2 + [Event(OpenFile("c", path), Smooth())];
    var e4 := e3 + [Event(OpenFile("d", path), Smooth())];
    assert e0 + e1 == e1;
    EmptyRun();
    RunStep(e0, OpenFile("a", path), Smooth());
    OpensSmoothly(START, "a", path);
    RunStep(e1, OpenFile("b", path), Smooth());
    OpensSmoothly(Run(e1).0, "b", path);
    RunStep(e2, OpenFile("c", path), Smooth());
    OpensSmoothly(Run(e2).0, "c", path);
    RunStep(e3, OpenFile("d", path), Smooth());
    OpensSmoothly(Run(e3).0, "d", path);
    assert LastOpened(e0, "e") == None && LastOpened(e1, "e") == None && LastOpened(e2, "e") == None
      && LastOpened(e3, "e") == None;
  }

  /** From the start: a fifth opening that breaks on its eviction is no opening to the client, yet its file is
      served. */
  lemma FailedOpenDisturbsRun(path: Path)
    ensures var broken := Smooth().(evict := (k: nat) => Lost);
      var events := FourOpenings(path) + [Event(OpenFile("e", path), broken)];
      && LastReply(events) == ProcessFailed && LastOpened(events, "e") == None
      && LastReply(events + [Event(Text("e"), Smooth())]) == Content(FromFile(path))
  {
    hide Run, Step, LastReply, FourOpenings;
    var broken := Smooth().(evict := (k: nat) => Lost);
    var four := FourOpenings(path);
    FourAreResident(path);
    FailedOpenDisturbs(Run(four).0, "e", path);
    RunStep(four, OpenFile("e", path), broken);
    RunStep(four + [Event(OpenFile("e", path), broken)], Text("e"), Smooth());
  }

  // ---------- the loop as the program runs it ----------

  /** The bridge's own variables, updated request by request. */
  class BridgeLoop {
    var child: Option<Docs>
    var sources: map<Id, Path>
    var temporary: map<Id, Path>
    var resident: seq<Id>

    constructor ()
      ensures State() == START
    {
      child, sources, temporary, resident := None, map[], map[], [];
    }

    ghost function State(): Bridge
      reads this
    {
      Bridge(child, sources, temporary, resident)
    }

    /** Kills the helper after any broken exchange. */
    method Kill()
      modifies this`child
      ensures State() == Fail(old(State())).0
    {
      child := None;
    }

    /** One request sent and its one reply received; false when the pipe broke. */
    method Send(request: Request, outcome: Outcome) returns (received: bool, reply: Reply)
      requires child.Some?
      modifies this`child
      ensures received <==> !outcome.Lost?
      ensures received ==> child.Some? && (child.value, reply) == Serve(old(child).value, request, outcome)
      ensures !received ==> child == old(child) && reply == ProcessFailed
    {
      if outcome.Lost? {
        return false, ProcessFailed;
      }
      var (docs, answer) := Serve(child.value, request, outcome);
      child := Some(docs);
      return true, answer;
    }

    method EvictOldest(fate: nat -> Outcome) returns (kept: bool)
      requires child.Some?
      modifies this`child, this`resident
      ensures child.Some? && (kept, State()) == Evict(old(State()), fate, 0)
    {
      var k: nat := 0;
      while |resident| > CAPACITY
        invariant child.Some? && sources == old(sources) && temporary == old(temporary)
        invariant Evict(State(), fate, k) == Evict(old(State()), fate, 0)
        decreases |resident|
      {
        hide Without;
        var id := resident[0];
        resident := resident[1..];
        var received, reply := Send(Close(id), fate(k));
        if !received {
          return false;
        }
        k := k + 1;
      }
      return true;
    }

    method RestoreRequested(id: Id, outcome: Outcome) returns (restored: bool)
      requires child.Some?
      modifies this`child, this`resident
      ensures restored <==> Restore(old(State()), id, outcome).Some?
      ensures restored ==> child.Some? && State() == Restore(old(State()), id, outcome).value
      ensures !restored ==> sources == old(sources) && temporary == old(temporary) && resident == old(resident)
    {
      hide Without;
      if id !in resident && id in sources {
        var received, reply := Send(OpenFile(id, sources[id]), outcome);
        if !received || !reply.IsOk() {
          return false;
        }
        resident := resident + [id];
      }
      resident := Without(resident, id);
      resident := resident + [id];
      return true;
    }

    /** What a successful reply changes in the tables. */
    method RecordReply(request: Request)
      modifies this`sources, this`temporary, this`resident
      ensures State() == Record(old(State()), request)
    {
      hide Without;
      match request
      case OpenFile(id, path) =>
        resident := Without(resident, id);
        resident := resident + [id];
        sources := sources[id := path];
      case Close(id) =>
        sources, temporary, resident := sources - {id}, temporary - {id}, Without(resident, id);
      case Hibernate(id) =>
        sources, temporary, resident := sources - {id}, temporary - {id}, Without(resident, id);
      case _ =>
    }

    method AnswerRequest(request: Request, fate: Fate) returns (reply: Reply)
      requires child.Some?
      modifies this
      ensures (State(), reply) == Answer(old(State()), request, fate)
    {
      hide Without, Evict, Serve, Record;
      var received;
      received, reply := Send(request, fate.main);
      if !received {
        Kill();
        return ProcessFailed;
      }
      if reply.IsOk() {
        RecordReply(request);
      }
      var kept := EvictOldest(fate.evict);
      if !kept {
        Kill();
        return ProcessFailed;
      }
    }

    /** From the helper's start to the client's reply. */
    method HandleRequest(request: Request, fate: Fate) returns (reply: Reply)
      requires !request.OpenBytes?
      modifies this
      ensures (State(), reply) == Exchange(old(State()), request, fate)
    {
      hide Without, Restore, Answer;
      if child.None? {
        if !fate.spawns {
          Kill();
          return ProcessFailed;
        }
        child, resident := Some(map[]), [];
      }
      if IsRead(request) {
        var restored := RestoreRequested(request.id, fate.restore);
        if !restored {
          Kill();
          return ProcessFailed;
        }
      }
      reply := AnswerRequest(request, fate);
    }

    /** One pass of the loop. */
    method Handle(request: Request, fate: Fate) returns (reply: Reply)
      modifies this
      ensures (State(), reply) == Step(old(State()), request, fate)
    {
      hide Exchange;
      if request.Render? && request.cancelled {
        return Cancelled;
      }
      if request.OpenBytes? {
        if fate.spool.None? {
          return SpoolFailed;
        }
        temporary := temporary[request.id := fate.spool.value];
        reply := HandleRequest(OpenFile(request.id, fate.spool.value), fate);
      } else {
        reply := HandleRequest(request, fate);
      }
    }
  }
}
