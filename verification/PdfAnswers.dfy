// Requests are answered: what a client gets when nothing goes wrong, in every state that a run reaches
// (crates/key-desktop-host/src/native_process.rs).
module PdfAnswers {
  import opened Collections
  import opened Options
  import opened PdfBridge

  /** The helper starts when needed, no pipe breaks and nothing is refused. */
  ghost predicate GoesWell(fate: Fate) {
    && fate.spawns && fate.spool.Some? && fate.restore.Complies? && fate.main.Complies?
    && forall k: nat :: !fate.evict(k).Lost?
  }

  predicate IsCancelled(request: Request) {
    request.Render? && request.cancelled
  }

  lemma {:induction false} EvictionSucceeds(b: Bridge, fate: nat -> Outcome, k: nat)
    requires b.child.Some? && forall n: nat :: !fate(n).Lost?
    ensures Evict(b, fate, k).0
    decreases |b.resident|
  {
    if |b.resident| > CAPACITY {
      var (docs, _) := Serve(b.child.value, Close(b.resident[0]), fate(k));
      EvictionSucceeds(b.(resident := b.resident[1..], child := Some(docs)), fate, k + 1);
    }
  }

  /** The reply is the helper's own, unless the process fails. */
  lemma AnswerIsServed(b: Bridge, request: Request, fate: Fate)
    requires b.child.Some?
    ensures var reply := Answer(b, request, fate).1;
      reply == ProcessFailed || (!fate.main.Lost? && reply == Serve(b.child.value, request, fate.main).1)
    ensures GoesWell(fate) ==> Answer(b, request, fate).1 == Serve(b.child.value, request, fate.main).1
  {
    hide Evict, Serve, Record;
    if GoesWell(fate) {
      var (docs, reply) := Serve(b.child.value, request, fate.main);
      var served := b.(child := Some(docs));
      RecordKeepsChild(served, request);
      EvictionSucceeds(if reply.IsOk() then Record(served, request) else served, fate.evict, 0);
    }
  }

  lemma RecordKeepsChild(b: Bridge, request: Request)
    ensures Record(b, request).child == b.child
  {
    hide Without;
  }

  // ---------- cancelled renders ----------

  lemma ServedIsNotCancelled(docs: Docs, request: Request, outcome: Outcome)
    requires !outcome.Lost?
    ensures !Serve(docs, request, outcome).1.Cancelled? && !Serve(docs, request, outcome).1.ProcessFailed?
  {
  }

  lemma ExchangeIsNotCancelled(b: Bridge, request: Request, fate: Fate)
    requires !request.OpenBytes?
    ensures !Exchange(b, request, fate).1.Cancelled?
  {
    hide Answer, Serve, Without, GoesWell;
    var b1 := Spawn(b);
    if b1.child.Some? {
      var restored := if IsRead(request) then Restore(b1, request.id, fate.restore) else Some(b1);
      if restored.Some? {
        AnswerIsServed(restored.value, request, fate);
        if !fate.main.Lost? {
          ServedIsNotCancelled(restored.value.child.value, request, fate.main);
        }
      }
    }
  }

  /** After every run, under every fate, the reply is Cancelled exactly for a render that was cancelled. */
  lemma CancelledExactly(events: seq<Event>, request: Request, fate: Fate)
    ensures LastReply(events + [Event(request, fate)]) == Cancelled <==> request.Render? && request.cancelled
    ensures request.Render? && request.cancelled ==> Run(events + [Event(request, fate)]).0 == Run(events).0
  {
    hide Exchange, Run, LastReply;
    var b := Run(events).0;
    RunStep(events, request, fate);
    if request.OpenBytes? {
      if fate.spool.Some? {
        var path := fate.spool.value;
        ExchangeIsNotCancelled(b.(temporary := b.temporary[request.id := path]), OpenFile(request.id, path), fate);
      }
    } else if !IsCancelled(request) {
      ExchangeIsNotCancelled(b, request, fate);
    }
  }

  // ---------- requests other than reads ----------

  /** Openings, preprocessing, closing and hibernating are done and acknowledged. */
  lemma ChangesAreAnswered(events: seq<Event>, request: Request, fate: Fate)
    requires GoesWell(fate) && !IsRead(request)
    ensures var child := Run(events).0.child;
      LastReply(events + [Event(request, fate)]) ==
        match request
        case Preprocess(_, _) => Preprocessed
        case Close(_) => Closed
        case Hibernate(id) => if child.Some? && id in child.value then Hibernated else Refusal
        case _ => Opened
  {
    hide Run, LastReply, Answer, Without;
    var b := Run(events).0;
    RunStep(events, request, fate);
    var sent := if request.OpenBytes? then OpenFile(request.id, fate.spool.value) else request;
    var b0 := if request.OpenBytes? then b.(temporary := b.temporary[request.id := fate.spool.value]) else b;
    AnswerIsServed(Spawn(b0), sent, fate);
  }

  // ---------- reads ----------

  lemma {:induction false} EvictKeepsSources(b: Bridge, fate: nat -> Outcome, k: nat)
    requires b.child.Some?
    ensures Evict(b, fate, k).1.sources == b.sources && (|b.resident| <= CAPACITY ==> Evict(b, fate, k).0)
    decreases |b.resident|
  {
    if |b.resident| > CAPACITY && !fate(k).Lost? {
      var (docs, _) := Serve(b.child.value, Close(b.resident[0]), fate(k));
      EvictKeepsSources(b.(resident := b.resident[1..], child := Some(docs)), fate, k + 1);
    }
  }

  /** A document stays on record until it is closed or hibernated, and is on record once it is opened. */
  lemma AnswerSources(b: Bridge, request: Request, fate: Fate, id: Id)
    requires b.child.Some? && !request.OpenBytes? && (!IsRead(request) ==> |b.resident| <= CAPACITY)
    ensures var (r, reply) := Answer(b, request, fate);
      && (id in b.sources && !(request.id == id && Forgets(request, reply)) ==> id in r.sources)
      && (reply.Opened? && request.id == id ==> id in r.sources)
  {
    hide Without, Evict;
    if !fate.main.Lost? {
      var (docs, reply) := Serve(b.child.value, request, fate.main);
      var served := b.(child := Some(docs));
      EvictKeepsSources(if reply.IsOk() then Record(served, request) else served, fate.evict, 0);
    }
  }

  lemma StepSources(b: Bridge, request: Request, fate: Fate, id: Id)
    requires b.child.Some? ==> |b.resident| <= CAPACITY
    ensures var (r, reply) := Step(b, request, fate);
      && (id in b.sources && !(request.id == id && Forgets(request, reply)) ==> id in r.sources)
      && (reply.Opened? && request.id == id ==> id in r.sources)
  {
    hide Answer, Without;
    var sent := if request.OpenBytes? && fate.spool.Some? then OpenFile(request.id, fate.spool.value) else request;
    var b1 := Spawn(if sent == request then b else b.(temporary := b.temporary[request.id := fate.spool.value]));
    var restored := if IsRead(sent) then Restore(b1, sent.id, fate.restore) else Some(b1);
    if restored.Some? && !sent.OpenBytes? {
      AnswerSources(restored.value, sent, fate, id);
    }
  }

  /** Whatever the client has open, the bridge knows a path for, through all evictions and crashes. */
  lemma {:induction false} OpenIsOnRecord(events: seq<Event>, id: Id)
    requires LastOpened(events, id).Some?
    ensures id in Run(events).0.sources
    decreases |events|
  {
    hide Step, Inv;
    var before, last := events[..|events| - 1], events[|events| - 1];
    RunKeeps(before);
    Resident(Run(before).0, Run(before).1);
    StepSources(Run(before).0, last.request, last.fate, id);
    if LastReply(events) != Opened || last.request.id != id {
      OpenIsOnRecord(before, id);
    }
  }

  lemma Resident(b: Bridge, belief: Belief)
    requires Inv(b, belief)
    ensures b.child.Some? ==> |b.resident| <= CAPACITY
  {
  }

  // ---------- reads ----------

  /** Whether the outcomes of a request tell of documents with pages. */
  predicate HasPages(fate: Fate) {
    (fate.main.Complies? ==> fate.main.pages > 0) && (fate.restore.Complies? ==> fate.restore.pages > 0)
  }

  predicate WithPages(b: Bridge, id: Id) {
    b.child.Some? && id in b.child.value ==> b.child.value[id].pages > 0
  }

  lemma {:induction false} EvictWithPages(b: Bridge, fate: nat -> Outcome, k: nat, id: Id)
    requires b.child.Some? && WithPages(b, id)
    ensures WithPages(Evict(b, fate, k).1, id)
    decreases |b.resident|
  {
    if |b.resident| > CAPACITY && !fate(k).Lost? {
      var (docs, _) := Serve(b.child.value, Close(b.resident[0]), fate(k));
      EvictWithPages(b.(resident := b.resident[1..], child := Some(docs)), fate, k + 1, id);
    }
  }

  lemma AnswerWithPages(b: Bridge, request: Request, fate: Fate, id: Id)
    requires b.child.Some? && WithPages(b, id) && (request.id == id ==> HasPages(fate))
    ensures WithPages(Answer(b, request, fate).0, id)
  {
    hide Without, Evict;
    if !fate.main.Lost? {
      var (docs, reply) := Serve(b.child.value, request, fate.main);
      var served := b.(child := Some(docs));
      RecordKeepsChild(served, request);
      assert WithPages(served, id);
      EvictWithPages(if reply.IsOk() then Record(served, request) else served, fate.evict, 0, id);
    }
  }

  lemma StepWithPages(b: Bridge, request: Request, fate: Fate, id: Id)
    requires WithPages(b, id) && (request.id == id ==> HasPages(fate))
    ensures WithPages(Step(b, request, fate).0, id)
  {
    hide Answer, Without;
    var sent := if request.OpenBytes? && fate.spool.Some? then OpenFile(request.id, fate.spool.value) else request;
    var b1 := Spawn(if sent == request then b else b.(temporary := b.temporary[request.id := fate.spool.value]));
    var restored := if IsRead(sent) then Restore(b1, sent.id, fate.restore) else Some(b1);
    if restored.Some? && !sent.OpenBytes? && b1.child.Some? {
      AnswerWithPages(restored.value, sent, fate, id);
    }
  }

  predicate AllWithPages(events: seq<Event>, id: Id) {
    forall i :: 0 <= i < |events| && events[i].request.id == id ==> HasPages(events[i].fate)
  }

  lemma {:induction false} RunWithPages(events: seq<Event>, id: Id)
    requires AllWithPages(events, id)
    ensures WithPages(Run(events).0, id)
    decreases |events|
  {
    hide Step;
    if events != [] {
      var before, last := events[..|events| - 1], events[|events| - 1];
      RunWithPages(before, id);
      StepWithPages(Run(before).0, last.request, last.fate, id);
    }
  }

  /** A read that goes well finds a document on record in the helper, reopened if need be. */
  lemma ReadGivesContent(b: Bridge, belief: Belief, request: Request, fate: Fate)
    requires Inv(b, belief) && GoesWell(fate) && IsRead(request) && !IsCancelled(request) && request.id in b.sources
    requires request.Search? ==> WithPages(b, request.id) && HasPages(fate)
    ensures Step(b, request, fate).1.Content?
  {
    hide Answer, Without, NoDuplicates, Believed;
    var b1 := Spawn(b);
    var b2 := Restore(b1, request.id, fate.restore).value;
    AnswerIsServed(b2, request, fate);
  }

  /** Every document that the client has open is read whenever nothing goes wrong, whatever went wrong before; if
      it was not disturbed, the read gives the file that it was opened from. */
  lemma OpenIsRead(events: seq<Event>, request: Request, fate: Fate)
    requires GoesWell(fate) && IsRead(request) && !(request.Render? && request.cancelled)
    requires LastOpened(events, request.id).Some?
    requires request.Search? ==> AllWithPages(events + [Event(request, fate)], request.id)
    ensures LastReply(events + [Event(request, fate)]).Content?
    ensures Undisturbed(events, request.id) ==>
      LastReply(events + [Event(request, fate)]) == Content(FromFile(LastOpened(events, request.id).value))
  {
    hide Run, Step, LastReply, Inv, LastOpened, Undisturbed, GoesWell, Serves, WithPages, HasPages;
    var all := events + [Event(request, fate)];
    RunStep(events, request, fate);
    RunKeeps(events);
    OpenIsOnRecord(events, request.id);
    if request.Search? {
      assert all[|events|] == Event(request, fate);
      assert AllWithPages(events, request.id) by {
        assert forall i :: 0 <= i < |events| ==> all[i] == events[i];
      }
      RunWithPages(events, request.id);
    }
    ReadGivesContent(Run(events).0, Run(events).1, request, fate);
    if Undisturbed(events, request.id) {
      UndisturbedServes(events, request.id);
      ServedRead(Run(events).0, request, fate, LastOpened(events, request.id).value);
    }
  }

  /** A document that the client does not have open, and that was not disturbed, is refused. */
  lemma ClosedIsRefused(events: seq<Event>, request: Request, fate: Fate)
    requires GoesWell(fate) && IsRead(request) && !(request.Render? && request.cancelled)
    requires LastOpened(events, request.id).None? && Undisturbed(events, request.id)
    ensures var reply := LastReply(events + [Event(request, fate)]);
      reply == Refusal || (request.Search? && reply == NoMatches)
  {
    hide Run, LastReply, LastOpened, Undisturbed, Answer, Without, NoDuplicates;
    var b := Run(events).0;
    RunStep(events, request, fate);
    RunKeeps(events);
    UndisturbedBelief(events, request.id);
    AnswerIsServed(Restore(Spawn(b), request.id, fate.restore).value, request, fate);
  }
}
