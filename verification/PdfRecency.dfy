// Which documents the bridge keeps open: the most recently used ones, judged by requests and replies alone
// (crates/key-desktop-host/src/native_process.rs).
module PdfRecency {
  import opened Collections
  import opened Options
  import opened PdfBridge

  /** A read that was answered, or an opening that succeeded. */
  predicate Uses(request: Request, reply: Reply) {
    || (IsRead(request) && !reply.ProcessFailed? && !reply.Cancelled?)
    || ((request.OpenFile? || request.OpenBytes?) && reply.Opened?)
  }

  /** The position of the last event that used the document, or -1. */
  function LastUse(events: seq<Event>, id: Id): (at: int)
    ensures -1 <= at < |events|
  {
    if events == [] then -1
    else
      var last := events[|events| - 1];
      if last.request.id == id && Uses(last.request, LastReply(events)) then |events| - 1
      else LastUse(events[..|events| - 1], id)
  }

  /** Each document was used before the next one. */
  predicate ByRecency(events: seq<Event>, ids: seq<Id>) {
    forall i, j :: 0 <= i < j < |ids| ==> LastUse(events, ids[i]) < LastUse(events, ids[j])
  }

  function Residents(b: Bridge): seq<Id> {
    if b.child.Some? then b.resident else []
  }

  /** The queue after a request, before the bridge cuts it to its capacity. */
  function Queue(b: Bridge, request: Request, reply: Reply): seq<Id> {
    var others := Without(Residents(b), request.id);
    if Uses(request, reply) then others + [request.id] else if Forgets(request, reply) then others else Residents(b)
  }

  function LastFour(ids: seq<Id>): seq<Id> {
    if |ids| <= CAPACITY then ids else ids[|ids| - CAPACITY..]
  }

  lemma {:induction false} EvictKeepsLastFour(b: Bridge, fate: nat -> Outcome, k: nat)
    requires b.child.Some?
    ensures var (kept, r) := Evict(b, fate, k);
      r.child.Some? && (kept ==> r.resident == LastFour(b.resident))
    decreases |b.resident|
  {
    if |b.resident| > CAPACITY && !fate(k).Lost? {
      var (docs, reply) := Serve(b.child.value, Close(b.resident[0]), fate(k));
      EvictKeepsLastFour(b.(resident := b.resident[1..], child := Some(docs)), fate, k + 1);
    }
  }

  lemma AnswerQueue(b: Bridge, request: Request, fate: Fate)
    requires b.child.Some? && !request.OpenBytes?
    ensures var (r, reply) := Answer(b, request, fate);
      && !reply.Cancelled?
      && (r.child.Some? ==> !reply.ProcessFailed?)
      && (r.child.Some? ==> r.resident == LastFour(if IsRead(request) then b.resident else Queue(b, request, reply)))
  {
    hide Evict, LastFour, Without;
    if !fate.main.Lost? {
      var (docs, reply) := Serve(b.child.value, request, fate.main);
      var served := b.(child := Some(docs));
      EvictKeepsLastFour(if reply.IsOk() then Record(served, request) else served, fate.evict, 0);
    }
  }

  lemma RestoreQueue(b: Bridge, id: Id, outcome: Outcome)
    requires b.child.Some?
    ensures var r := Restore(b, id, outcome);
      r.Some? ==> r.value.child.Some? && r.value.resident == Without(b.resident, id) + [id]
  {
    hide Without;
    if id !in b.resident {
      WithoutAbsent(b.resident, id);
    }
  }

  lemma ExchangeQueue(b: Bridge, request: Request, fate: Fate)
    requires !request.OpenBytes?
    ensures var (r, reply) := Exchange(b, request, fate);
      !reply.Cancelled? && (r.child.Some? ==> !reply.ProcessFailed? && r.resident == LastFour(Queue(b, request, reply)))
  {
    hide Answer, Restore, LastFour, Without;
    var b1 := Spawn(b);
    if b1.child.Some? {
      RestoreQueue(b1, request.id, fate.restore);
      var restored := if IsRead(request) then Restore(b1, request.id, fate.restore) else Some(b1);
      if restored.Some? {
        AnswerQueue(restored.value, request, fate);
      }
    }
  }

  /** Bytes are opened as a file, which leaves the same queue. */
  lemma SpooledQueue(b: Bridge, spooled: Bridge, id: Id, data: Data, path: Path, reply: Reply)
    requires spooled == b.(temporary := spooled.temporary)
    ensures Queue(spooled, OpenFile(id, path), reply) == Queue(b, OpenBytes(id, data), reply)
  {
    hide Without;
  }

  lemma UnsentQueue(b: Bridge, request: Request, reply: Reply)
    requires |Residents(b)| <= CAPACITY && (reply.Cancelled? || reply.SpoolFailed?)
      && (IsRead(request) ==> reply.Cancelled?)
    ensures LastFour(Queue(b, request, reply)) == Residents(b)
  {
    hide Without;
  }

  /** While a helper lives, the bridge keeps the four documents at the back of the queue. */
  lemma StepQueue(b: Bridge, request: Request, fate: Fate)
    requires |Residents(b)| <= CAPACITY
    ensures var (r, reply) := Step(b, request, fate);
      r.child.Some? ==> r.resident == LastFour(Queue(b, request, reply))
  {
    hide Exchange, Without, Queue, LastFour;
    var (r, reply) := Step(b, request, fate);
    if request.OpenBytes? {
      if fate.spool.Some? {
        var path := fate.spool.value;
        var spooled := b.(temporary := b.temporary[request.id := path]);
        ExchangeQueue(spooled, OpenFile(request.id, path), fate);
        SpooledQueue(b, spooled, request.id, request.data, path, reply);
      } else {
        UnsentQueue(b, request, reply);
      }
    } else if request.Render? && request.cancelled {
      UnsentQueue(b, request, reply);
    } else {
      ExchangeQueue(b, request, fate);
    }
  }

  lemma {:induction false} WithoutByRecency(events: seq<Event>, ids: seq<Id>, id: Id)
    requires ByRecency(events, ids)
    ensures ByRecency(events, Without(ids, id))
  {
    hide LastUse;
    if ids != [] {
      var rest := Without(ids[1..], id);
      WithoutByRecency(events, ids[1..], id);
      WithoutHead(ids, id);
      forall x | x in rest
        ensures LastUse(events, ids[0]) < LastUse(events, x)
      {
        var j :| 0 <= j < |ids[1..]| && ids[1..][j] == x;
        assert ids[j + 1] == x;
      }
    }
  }

  /** What the next event does to the times of last use. */
  lemma NextUse(events: seq<Event>, request: Request, fate: Fate, id: Id)
    ensures var reply := Step(Run(events).0, request, fate).1;
      LastUse(events + [Event(request, fate)], id)
        == if id == request.id && Uses(request, reply) then |events| else LastUse(events, id)
  {
    hide Step, Uses, Run, LastReply;
    RunStep(events, request, fate);
  }

  /** The uncut queue is in order of last use after the request too. */
  lemma QueueByRecency(events: seq<Event>, request: Request, fate: Fate)
    requires ByRecency(events, Residents(Run(events).0))
    ensures var b := Run(events).0;
      ByRecency(events + [Event(request, fate)], Queue(b, request, Step(b, request, fate).1))
  {
    hide Step, Uses, Run, LastUse, Without, Forgets;
    var b := Run(events).0;
    var reply := Step(b, request, fate).1;
    var now := events + [Event(request, fate)];
    var queue := Queue(b, request, reply);
    var others := Without(Residents(b), request.id);
    WithoutByRecency(events, Residents(b), request.id);
    forall i, j | 0 <= i < j < |queue|
      ensures LastUse(now, queue[i]) < LastUse(now, queue[j])
    {
      NextUse(events, request, fate, queue[i]);
      NextUse(events, request, fate, queue[j]);
      assert Uses(request, reply) ==> queue[i] == others[i] != request.id;
    }
  }

  /** In every run the resident documents stand in order of last use: the front is the least recently used. */
  lemma {:induction false} ResidentByRecency(events: seq<Event>)
    ensures ByRecency(events, Residents(Run(events).0)) && |Residents(Run(events).0)| <= 4
    decreases |events|
  {
    hide Step, LastUse, Queue;
    if events != [] {
      var before, last := events[..|events| - 1], events[|events| - 1];
      var b := Run(before).0;
      ResidentByRecency(before);
      StepQueue(b, last.request, last.fate);
      QueueByRecency(before, last.request, last.fate);
      assert events == before + [last];
    }
  }

  lemma StaysQueued(b: Bridge, request: Request, reply: Reply, id: Id)
    requires id in Residents(b) && !(Forgets(request, reply) && id == request.id)
    ensures id in Queue(b, request, reply)
  {
    hide Without, Forgets, Uses, Residents;
  }

  lemma CutByRecency(events: seq<Event>, queue: seq<Id>, gone: Id, kept: Id)
    requires ByRecency(events, queue) && gone in queue && gone !in LastFour(queue) && kept in LastFour(queue)
    ensures LastUse(events, gone) < LastUse(events, kept)
  {
    hide LastUse;
    var back := LastFour(queue);
    var cut := |queue| - |back|;
    assert queue == queue[..cut] + back;
    var i :| 0 <= i < cut && queue[i] == gone;
    var j :| 0 <= j < |back| && back[j] == kept;
    assert queue[cut + j] == kept;
  }

  /** What a request pushes out was used before everything that stays. */
  lemma EvictedIsLeastRecent(events: seq<Event>, request: Request, fate: Fate, gone: Id, kept: Id)
    requires var b := Run(events).0;
      var (next, reply) := Step(b, request, fate);
      && next.child.Some? && gone in Residents(b) && gone !in next.resident && kept in next.resident
      && !(Forgets(request, reply) && gone == request.id)
    ensures var now := events + [Event(request, fate)]; LastUse(now, gone) < LastUse(now, kept)
  {
    hide Step, LastUse, Forgets, Run, Queue, LastFour, ByRecency;
    var b := Run(events).0;
    var reply := Step(b, request, fate).1;
    ResidentByRecency(events);
    StepQueue(b, request, fate);
    QueueByRecency(events, request, fate);
    StaysQueued(b, request, reply, gone);
    CutByRecency(events + [Event(request, fate)], Queue(b, request, reply), gone, kept);
  }
}
