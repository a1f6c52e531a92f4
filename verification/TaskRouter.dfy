// The background-task table of the extension host (crates/key-extension-host/src/services.rs).
// Worker threads are steps of their own: a started dispatch runs, finishes into the channel, and is polled.
module TaskRouter {
  import opened Collections
  import ExtensionStorage

  datatype Task = Task(extension: string, name: string)

  /** One started task. `serial` tells starts apart; the program itself compares generation and request. */
  datatype Dispatch = Dispatch(serial: nat, task: Task, generation: nat, request: string)

  datatype Outcome = Done(value: string) | Failed(code: string)
  datatype Completion = Completion(dispatch: Dispatch, outcome: Outcome)
  datatype Reply =
    | Deferred
    | QuotaExceeded
    | Conflict
    | CapabilityUnavailable
    | TemporarilyUnavailable
    | InvalidRequest
    | Accepted

  datatype Router = Router(active: map<Task, Dispatch>, running: map<nat, Dispatch>, channel: seq<Completion>,
      died: set<nat>, cancelled: set<nat>, next: nat)

  const INITIAL := Router(map[], map[], [], {}, {}, 0)

  // ---------- the operations ----------

  datatype Start = Start(task: Task, generation: nat, request: string, operation: string, spawns: bool)

  function StartReply(r: Router, maximum: nat, handlers: set<string>, s: Start): Reply {
    if |r.active| >= maximum then QuotaExceeded
    else if s.task in r.active then Conflict
    else if s.operation !in handlers then CapabilityUnavailable
    else if !s.spawns then TemporarilyUnavailable
    else Deferred
  }

  function Started(r: Router, s: Start): Router {
    var d := Dispatch(r.next, s.task, s.generation, s.request);
    r.(active := r.active[s.task := d], running := r.running[r.next := d], next := r.next + 1)
  }

  /** Which start is refused, and for what reason: the first that applies in this order. */
  lemma StartIsRefused(r: Router, maximum: nat, handlers: set<string>, s: Start)
    ensures StartReply(r, maximum, handlers, s) == QuotaExceeded <==> |r.active| >= maximum
    ensures StartReply(r, maximum, handlers, s) == Conflict <==> |r.active| < maximum && s.task in r.active
    ensures StartReply(r, maximum, handlers, s) == CapabilityUnavailable <==>
      |r.active| < maximum && s.task !in r.active && s.operation !in handlers
    ensures StartReply(r, maximum, handlers, s) == TemporarilyUnavailable <==>
      |r.active| < maximum && s.task !in r.active && s.operation in handlers && !s.spawns
    ensures StartReply(r, maximum, handlers, s) == Deferred <==>
      |r.active| < maximum && s.task !in r.active && s.operation in handlers && s.spawns
  {
  }

  /** A worker sends its result; the router does not see it until it polls. */
  function Finished(r: Router, serial: nat, outcome: Outcome): Router {
    if serial in r.running then
      r.(running := r.running - {serial}, channel := r.channel + [Completion(r.running[serial], outcome)])
    else r
  }

  /** A worker whose handler panics ends without sending anything. */
  function Died(r: Router, serial: nat): Router {
    if serial in r.running then r.(running := r.running - {serial}, died := r.died + {serial}) else r
  }

  function CancelTask(r: Router, task: Task): Router {
    if task in r.active then r.(cancelled := r.cancelled + {r.active[task].serial}) else r
  }

  function Owned(active: map<Task, Dispatch>, extension: string): set<Task> {
    set task | task in active && task.extension == extension
  }

  function CancelExtension(r: Router, extension: string): Router {
    var owned := Owned(r.active, extension);
    r.(active := r.active - owned, cancelled := r.cancelled + set task | task in owned :: r.active[task].serial)
  }

  function CancelAll(r: Router): Router {
    r.(active := map[], cancelled := r.cancelled + set task | task in r.active :: r.active[task].serial)
  }

  predicate Matches(entry: Dispatch, d: Dispatch) {
    entry.generation == d.generation && entry.request == d.request
  }

  /** Outcome of polling: what was delivered, what was thrown away, and what remains. */
  datatype Polled = Polled(ready: seq<Completion>, dropped: seq<Completion>, active: map<Task, Dispatch>,
      channel: seq<Completion>)

  function Poll(active: map<Task, Dispatch>, channel: seq<Completion>, maximum: nat): Polled
    decreases |channel|
  {
    if maximum == 0 || channel == [] then Polled([], [], active, channel)
    else
      var c := channel[0];
      var task := c.dispatch.task;
      if task !in active then
        var p := Poll(active, channel[1..], maximum);
        p.(dropped := [c] + p.dropped)
      else if !Matches(active[task], c.dispatch) then
        var p := Poll(active - {task}, channel[1..], maximum);
        p.(dropped := [c] + p.dropped)
      else
        var p := Poll(active - {task}, channel[1..], maximum - 1);
        p.(ready := [c] + p.ready)
  }

  function AfterPoll(r: Router, maximum: nat): Router {
    var p := Poll(r.active, r.channel, maximum);
    r.(active := p.active, channel := p.channel)
  }

  // ---------- the router object ----------

  predicate ValidOperation(operation: string) {
    0 < |operation| <= 128 && forall i :: 0 <= i < |operation| ==> operation[i] as int < 0x80
  }

  class HostServiceRouter {
    var activeTasks: map<Task, Dispatch>
    var handlers: set<string>
    const maximumActiveTasks: nat
    var channel: seq<Completion>
    var running: map<nat, Dispatch>
    var died: set<nat>
    var cancelled: set<nat>
    var started: nat
    const storage: ExtensionStorage.MemoryExtensionStorage

    constructor (storage: ExtensionStorage.MemoryExtensionStorage, maximum: nat)
      ensures this.storage == storage && Value() == INITIAL && handlers == {}
        && maximumActiveTasks == (if maximum == 0 then 1 else maximum)
    {
      activeTasks, handlers, channel, running, died, cancelled, started := map[], {}, [], map[], {}, {}, 0;
      maximumActiveTasks := if maximum == 0 then 1 else maximum;
      this.storage := storage;
    }

    ghost function Value(): Router
      reads this
    {
      Router(activeTasks, running, channel, died, cancelled, started)
    }

    /** A second registration is reported, but the new handler is in place. */
    method RegisterTaskHandler(operation: string) returns (reply: Reply)
      modifies this`handlers
      ensures ValidOperation(operation) ==> handlers == old(handlers) + {operation}
      ensures !ValidOperation(operation) ==> handlers == old(handlers) && reply == InvalidRequest
      ensures reply == Conflict <==> ValidOperation(operation) && operation in old(handlers)
    {
      if !ValidOperation(operation) {
        return InvalidRequest;
      }
      reply := if operation in handlers then Conflict else Accepted;
      handlers := handlers + {operation};
    }

    method StartTask(s: Start) returns (reply: Reply)
      modifies this
      ensures handlers == old(handlers)
      ensures reply == StartReply(old(Value()), maximumActiveTasks, handlers, s)
      ensures Value() == if reply == Deferred then Started(old(Value()), s) else old(Value())
    {
      if |activeTasks| >= maximumActiveTasks {
        return QuotaExceeded;
      }
      if s.task in activeTasks {
        return Conflict;
      }
      if s.operation !in handlers {
        return CapabilityUnavailable;
      }
      if !s.spawns {
        return TemporarilyUnavailable;
      }
      var d := Dispatch(started, s.task, s.generation, s.request);
      running, started := running[started := d], started + 1;
      activeTasks := activeTasks[s.task := d];
      reply := Deferred;
    }

    method PollReady(maximum: nat) returns (ready: seq<Completion>)
      modifies this`activeTasks, this`channel
      ensures ready == Poll(old(activeTasks), old(channel), maximum).ready
      ensures Value() == AfterPoll(old(Value()), maximum)
    {
      hide Matches;
      ready := [];
      ghost var whole := Poll(activeTasks, channel, maximum);
      while |ready| < maximum && channel != []
        invariant |ready| <= maximum
        invariant var p := Poll(activeTasks, channel, maximum - |ready|);
          ready + p.ready == whole.ready && p.active == whole.active && p.channel == whole.channel
        decreases |channel|
      {
        var completion := channel[0];
        channel := channel[1..];
        var task := completion.dispatch.task;
        if task !in activeTasks {
          continue;
        }
        var entry := activeTasks[task];
        activeTasks := activeTasks - {task};
        if !Matches(entry, completion.dispatch) {
          continue;
        }
        ready := ready + [completion];
      }
    }

    method CancelOne(task: Task)
      modifies this`cancelled
      ensures Value() == CancelTask(old(Value()), task)
    {
      if task in activeTasks {
        cancelled := cancelled + {activeTasks[task].serial};
      }
    }

    /** An extension that goes loses its tasks and its ephemeral cache. */
    method CancelOwner(extension: string)
      modifies this`activeTasks, this`cancelled, storage
      ensures Value() == CancelExtension(old(Value()), extension)
      ensures storage.values == old(storage.values) - ExtensionStorage.CellsOf(old(storage.values), Cache(extension))
    {
      var owned := Owned(activeTasks, extension);
      cancelled := cancelled + set task | task in owned :: activeTasks[task].serial;
      activeTasks := activeTasks - owned;
      storage.ClearArea(Cache(extension));
    }

    method CancelEverything()
      modifies this`activeTasks, this`cancelled, storage
      ensures Value() == CancelAll(old(Value()))
      ensures forall cell :: cell in storage.values <==>
        cell in old(storage.values) && !cell.space.area.EphemeralCache?
      ensures forall cell :: cell in storage.values ==> storage.values[cell] == old(storage.values)[cell]
    {
      cancelled := cancelled + set task | task in activeTasks :: activeTasks[task].serial;
      activeTasks := map[];
      storage.ClearAll(ExtensionStorage.EphemeralCache);
    }
  }

  function Cache(extension: string): ExtensionStorage.Namespace {
    ExtensionStorage.Namespace(extension, ExtensionStorage.EphemeralCache)
  }

  // ---------- one poll ----------

  function Sent(channel: seq<Completion>): set<Dispatch> {
    set i | 0 <= i < |channel| :: channel[i].dispatch
  }

  function Count(completions: seq<Completion>, serial: nat): nat {
    if completions == [] then 0
    else (if completions[0].dispatch.serial == serial then 1 else 0) + Count(completions[1..], serial)
  }

  lemma SentTail(channel: seq<Completion>)
    requires channel != []
    ensures Sent(channel) == {channel[0].dispatch} + Sent(channel[1..])
  {
    forall d | d in Sent(channel)
      ensures d == channel[0].dispatch || d in Sent(channel[1..])
    {
      var i :| 0 <= i < |channel| && channel[i].dispatch == d;
      if i > 0 {
        assert channel[1..][i - 1].dispatch == d;
      }
    }
    forall d | d in Sent(channel[1..])
      ensures d in Sent(channel)
    {
      var i :| 0 <= i < |channel| - 1 && channel[1..][i].dispatch == d;
      assert channel[i + 1].dispatch == d;
    }
  }

  lemma SentAppend(channel: seq<Completion>, c: Completion)
    ensures Sent(channel + [c]) == Sent(channel) + {c.dispatch}
  {
    var longer := channel + [c];
    assert longer[|channel|] == c;
    forall d | d in Sent(channel)
      ensures d in Sent(longer)
    {
      var i :| 0 <= i < |channel| && channel[i].dispatch == d;
      assert longer[i].dispatch == d;
    }
  }

  /** One poll: completions come off the front, the rest stays, and an entry goes only with a completion for its
      task. */
  lemma {:induction false} PollTakesFront(active: map<Task, Dispatch>, channel: seq<Completion>, maximum: nat)
    ensures var p := Poll(active, channel, maximum);
      && |p.ready| <= maximum && |p.ready| + |p.dropped| + |p.channel| == |channel|
      && p.channel == channel[|channel| - |p.channel|..]
      && (forall task :: task in p.active ==> task in active && p.active[task] == active[task])
      && (forall task, i :: task in p.active && 0 <= i < |channel| - |p.channel| ==> channel[i].dispatch.task != task)
      && (|p.ready| == maximum || p.channel == [])
    decreases |channel|
  {
    if maximum > 0 && channel != [] {
      var c, rest := channel[0], channel[1..];
      var task := c.dispatch.task;
      var p := Poll(active, channel, maximum);
      if task !in active {
        PollTakesFront(active, rest, maximum);
      } else if !Matches(active[task], c.dispatch) {
        PollTakesFront(active - {task}, rest, maximum);
      } else {
        PollTakesFront(active - {task}, rest, maximum - 1);
      }
      forall other, i | other in p.active && 0 <= i < |channel| - |p.channel|
        ensures channel[i].dispatch.task != other
      {
        if i > 0 {
          assert channel[i] == rest[i - 1];
        }
      }
    }
  }

  /** What is delivered matched the entry of its task when it was taken; each taken entry is gone. */
  lemma {:induction false} DeliveredMatched(active: map<Task, Dispatch>, channel: seq<Completion>, maximum: nat)
    ensures var p := Poll(active, channel, maximum);
      forall i :: 0 <= i < |p.ready| ==>
        && p.ready[i] in channel && p.ready[i].dispatch.task in active
        && active[p.ready[i].dispatch.task].generation == p.ready[i].dispatch.generation
        && active[p.ready[i].dispatch.task].request == p.ready[i].dispatch.request
        && p.ready[i].dispatch.task !in p.active
    decreases |channel|
  {
    PollTakesFront(active, channel, maximum);
    if maximum > 0 && channel != [] {
      var c, rest := channel[0], channel[1..];
      var task := c.dispatch.task;
      var smaller := if task in active then active - {task} else active;
      var left := if task in active && Matches(active[task], c.dispatch) then maximum - 1 else maximum;
      DeliveredMatched(smaller, rest, left);
      PollTakesFront(smaller, rest, left);
      var p, q := Poll(active, channel, maximum), Poll(smaller, rest, left);
      assert smaller == active || smaller == active - {task};
      assert p.channel == q.channel && p.active == q.active;
    }
  }

  /** A poll hands out, throws away or leaves each completion exactly once. */
  lemma {:induction false} PollAccounts(active: map<Task, Dispatch>, channel: seq<Completion>, maximum: nat,
      serial: nat)
    ensures var p := Poll(active, channel, maximum);
      Count(channel, serial) == Count(p.ready, serial) + Count(p.dropped, serial) + Count(p.channel, serial)
    decreases |channel|
  {
    if maximum > 0 && channel != [] {
      var c, rest := channel[0], channel[1..];
      var task := c.dispatch.task;
      var smaller := if task in active then active - {task} else active;
      var left := if task in active && Matches(active[task], c.dispatch) then maximum - 1 else maximum;
      PollAccounts(smaller, rest, left, serial);
      var p, q := Poll(active, channel, maximum), Poll(smaller, rest, left);
      assert smaller == active || smaller == active - {task};
      assert ([c] + q.ready)[1..] == q.ready && ([c] + q.dropped)[1..] == q.dropped;
    }
  }

  /** Whether a queued completion is its task's first and matches the task's entry. */
  predicate FirstMatch(active: map<Task, Dispatch>, channel: seq<Completion>, i: nat)
    requires i < |channel|
  {
    var d := channel[i].dispatch;
    d.task in active && Matches(active[d.task], d) && forall j :: 0 <= j < i ==> channel[j].dispatch.task != d.task
  }

  /** A poll delivers exactly the first matching completion of each active task among those it reaches. */
  lemma {:induction false} DeliveredExactly(active: map<Task, Dispatch>, channel: seq<Completion>, maximum: nat, i: nat)
    requires i < |channel| && Count(channel, channel[i].dispatch.serial) == 1
    ensures var p := Poll(active, channel, maximum);
      channel[i] in p.ready <==> i < |channel| - |p.channel| && FirstMatch(active, channel, i)
    decreases |channel|
  {
    if maximum > 0 {
      hide FirstMatch;
      var c, rest := channel[0], channel[1..];
      var task, d := c.dispatch.task, channel[i].dispatch;
      var smaller := if task in active then active - {task} else active;
      var hit := task in active && Matches(active[task], c.dispatch);
      var left := if hit then maximum - 1 else maximum;
      var p, q := Poll(active, channel, maximum), Poll(smaller, rest, left);
      assert smaller == active || smaller == active - {task};
      assert p.ready == (if hit then [c] + q.ready else q.ready) && p.channel == q.channel;
      PollTakesFront(smaller, rest, left);
      if i == 0 {
        NotCounted(rest, c);
        if c in q.ready {
          ReadyIsQueued(smaller, rest, left, c);
        }
        assert FirstMatch(active, channel, 0) <==> hit by { FrontMatch(active, channel); }
      } else {
        assert rest[i - 1] == channel[i];
        if c.dispatch.serial == d.serial {
          NotCounted(rest, channel[i]);
        }
        DeliveredExactly(smaller, rest, left, i - 1);
        FirstMatchTail(active, channel, i, smaller);
      }
    }
  }

  lemma FrontMatch(active: map<Task, Dispatch>, channel: seq<Completion>)
    requires channel != []
    ensures var d := channel[0].dispatch;
      FirstMatch(active, channel, 0) <==> d.task in active && Matches(active[d.task], d)
  {
  }

  lemma FirstMatchTail(active: map<Task, Dispatch>, channel: seq<Completion>, i: nat, smaller: map<Task, Dispatch>)
    requires 0 < i < |channel|
    requires smaller == if channel[0].dispatch.task in active then active - {channel[0].dispatch.task} else active
    ensures FirstMatch(active, channel, i) <==> FirstMatch(smaller, channel[1..], i - 1)
  {
    var rest, d := channel[1..], channel[i].dispatch;
    assert rest[i - 1] == channel[i];
    if FirstMatch(smaller, rest, i - 1) {
      forall j | 0 <= j < i
        ensures channel[j].dispatch.task != d.task
      {
        if j > 0 {
          assert channel[j] == rest[j - 1];
        }
      }
    }
  }

  lemma {:induction false} NotCounted(completions: seq<Completion>, c: Completion)
    ensures Count(completions, c.dispatch.serial) == 0 ==> c !in completions
  {
    if completions != [] {
      NotCounted(completions[1..], c);
    }
  }

  lemma {:induction false} ReadyIsQueued(active: map<Task, Dispatch>, channel: seq<Completion>, maximum: nat,
      c: Completion)
    requires c in Poll(active, channel, maximum).ready
    ensures c in channel
    decreases |channel|
  {
    var task := channel[0].dispatch.task;
    var smaller := if task in active then active - {task} else active;
    var left := if task in active && Matches(active[task], channel[0].dispatch) then maximum - 1 else maximum;
    assert smaller == active || smaller == active - {task};
    if c != channel[0] {
      ReadyIsQueued(smaller, channel[1..], left, c);
    }
  }

  // ---------- whole runs ----------

  datatype Step =
    | RegisterStep(operation: string)
    | StartStep(start: Start)
    | FinishStep(serial: nat, outcome: Outcome)
    | DieStep(serial: nat)
    | PollStep(limit: nat)
    | CancelTaskStep(task: Task)
    | CancelExtensionStep(extension: string)
    | CancelAllStep

  /** The router with its handlers and its history: every start that was accepted, and every completion taken. */
  datatype Log = Log(router: Router, handlers: set<string>, starts: seq<Dispatch>, delivered: seq<Completion>,
      dropped: seq<Completion>)

  function Apply(l: Log, maximum: nat, step: Step): Log {
    var r := l.router;
    match step
    case RegisterStep(operation) => l.(handlers := l.handlers + if ValidOperation(operation) then {operation} else {})
    case StartStep(s) =>
      if StartReply(r, maximum, l.handlers, s) == Deferred then
        l.(router := Started(r, s), starts := l.starts + [Dispatch(r.next, s.task, s.generation, s.request)])
      else l
    case FinishStep(serial, outcome) => l.(router := Finished(r, serial, outcome))
    case DieStep(serial) => l.(router := Died(r, serial))
    case PollStep(limit) =>
      var p := Poll(r.active, r.channel, limit);
      l.(router := AfterPoll(r, limit), delivered := l.delivered + p.ready, dropped := l.dropped + p.dropped)
    case CancelTaskStep(task) => l.(router := CancelTask(r, task))
    case CancelExtensionStep(extension) => l.(router := CancelExtension(r, extension))
    case CancelAllStep => l.(router := CancelAll(r))
  }

  function Run(l: Log, maximum: nat, steps: seq<Step>): Log
    decreases |steps|
  {
    if steps == [] then l else Run(Apply(l, maximum, steps[0]), maximum, steps[1..])
  }

  const EMPTY := Log(INITIAL, {}, [], [], [])

  function Everywhere(l: Log, serial: nat): nat {
    (if serial in l.router.running then 1 else 0) + (if serial in l.router.died then 1 else 0)
    + Count(l.router.channel, serial) + Count(l.delivered, serial) + Count(l.dropped, serial)
  }

  predicate IsStart(l: Log, d: Dispatch) {
    d.serial < |l.starts| && l.starts[d.serial] == d
  }

  predicate Outstanding(r: Router, d: Dispatch) {
    (d.serial in r.running && r.running[d.serial] == d) || d in Sent(r.channel)
  }

  /** Whatever counts as active has a worker, a queued result, or a worker that died. */
  predicate SlotsAreOwned(r: Router, maximum: nat) {
    |r.active| <= maximum
    && forall task :: task in r.active ==>
         r.active[task].task == task && (Outstanding(r, r.active[task]) || r.active[task].serial in r.died)
  }

  /** Every accepted start is in exactly one place: running, died, queued, delivered or dropped. */
  ghost predicate Accounted(l: Log) {
    |l.starts| == l.router.next && forall n: nat :: Everywhere(l, n) == if n < l.router.next then 1 else 0
  }

  predicate Known(l: Log) {
    && (forall n :: 0 <= n < |l.starts| ==> l.starts[n].serial == n)
    && (forall n :: n in l.router.running ==> l.router.running[n].serial == n && IsStart(l, l.router.running[n]))
    && (forall task :: task in l.router.active ==> IsStart(l, l.router.active[task]))
    && (forall i :: 0 <= i < |l.router.channel| ==> IsStart(l, l.router.channel[i].dispatch))
    && (forall i :: 0 <= i < |l.delivered| ==> IsStart(l, l.delivered[i].dispatch))
  }

  ghost predicate Inv(l: Log, maximum: nat) {
    SlotsAreOwned(l.router, maximum) && Accounted(l) && Known(l)
  }

  lemma {:induction false} CountConcat(a: seq<Completion>, b: seq<Completion>, serial: nat)
    ensures Count(a + b, serial) == Count(a, serial) + Count(b, serial)
  {
    if a == [] {
      assert a + b == b;
    } else {
      CountConcat(a[1..], b, serial);
      assert (a + b)[1..] == a[1..] + b;
    }
  }

  lemma CountOne(c: Completion, serial: nat)
    ensures Count([c], serial) == if c.dispatch.serial == serial then 1 else 0
  {
    assert [c][1..] == [];
  }

  lemma {:induction false} CountsSent(completions: seq<Completion>, d: Dispatch)
    requires d in Sent(completions)
    ensures Count(completions, d.serial) > 0
  {
    if completions[0].dispatch != d {
      SentTail(completions);
      CountsSent(completions[1..], d);
    }
  }

  lemma StartKeepsSlots(r: Router, maximum: nat, handlers: set<string>, s: Start)
    requires SlotsAreOwned(r, maximum) && r.next !in r.running && StartReply(r, maximum, handlers, s) == Deferred
    ensures SlotsAreOwned(Started(r, s), maximum)
  {
    hide Sent;
    assert Started(r, s).active.Keys == r.active.Keys + {s.task};
  }

  lemma StartKeeps(l: Log, maximum: nat, s: Start)
    requires Inv(l, maximum)
    ensures Inv(Apply(l, maximum, StartStep(s)), maximum)
  {
    hide Sent, Count, Poll, StartReply, SlotsAreOwned;
    var after := Apply(l, maximum, StartStep(s));
    if StartReply(l.router, maximum, l.handlers, s) == Deferred {
      var n := l.router.next;
      assert Everywhere(l, n) == 0;
      StartKeepsSlots(l.router, maximum, l.handlers, s);
      forall k: nat
        ensures Everywhere(after, k) == if k < after.router.next then 1 else 0
      {
        assert Everywhere(l, k) == if k < n then 1 else 0;
      }
    }
  }

  lemma FinishKeepsSlots(l: Log, maximum: nat, serial: nat, outcome: Outcome)
    requires SlotsAreOwned(l.router, maximum) && Known(l)
    ensures SlotsAreOwned(Finished(l.router, serial, outcome), maximum)
  {
    hide Sent, Count;
    if serial in l.router.running {
      SentAppend(l.router.channel, Completion(l.router.running[serial], outcome));
    }
  }

  lemma FinishKeeps(l: Log, maximum: nat, serial: nat, outcome: Outcome)
    requires Inv(l, maximum)
    ensures Inv(l.(router := Finished(l.router, serial, outcome)), maximum)
  {
    hide Sent, Count, SlotsAreOwned;
    var r := l.router;
    var after := l.(router := Finished(r, serial, outcome));
    FinishKeepsSlots(l, maximum, serial, outcome);
    if serial in r.running {
      var c := Completion(r.running[serial], outcome);
      SentAppend(r.channel, c);
      forall k: nat
        ensures Everywhere(after, k) == if k < r.next then 1 else 0
      {
        CountConcat(r.channel, [c], k);
        CountOne(c, k);
        assert Everywhere(l, k) == if k < r.next then 1 else 0;
      }
    }
  }

  lemma DieKeepsSlots(l: Log, maximum: nat, serial: nat)
    requires SlotsAreOwned(l.router, maximum) && Known(l)
    ensures SlotsAreOwned(Died(l.router, serial), maximum)
  {
    hide Sent, Count;
  }

  lemma DieKeeps(l: Log, maximum: nat, serial: nat)
    requires Inv(l, maximum)
    ensures Inv(l.(router := Died(l.router, serial)), maximum)
  {
    hide Sent, Count, SlotsAreOwned;
    var r := l.router;
    var after := l.(router := Died(r, serial));
    DieKeepsSlots(l, maximum, serial);
    if serial in r.running {
      forall k: nat
        ensures Everywhere(after, k) == if k < r.next then 1 else 0
      {
        assert Everywhere(l, k) == if k < r.next then 1 else 0;
        assert Everywhere(l, serial) <= 1;
      }
    }
  }

  lemma SubmapSize(small: map<Task, Dispatch>, big: map<Task, Dispatch>)
    requires small.Keys <= big.Keys
    ensures |small| <= |big|
  {
    SubsetSize(small.Keys, big.Keys);
    assert |small| == |small.Keys| && |big| == |big.Keys|;
  }

  lemma PollKeepsSlots(l: Log, maximum: nat, limit: nat)
    requires Inv(l, maximum)
    ensures SlotsAreOwned(AfterPoll(l.router, limit), maximum)
  {
    hide Count, Poll;
    var r := l.router;
    var p := Poll(r.active, r.channel, limit);
    PollTakesFront(r.active, r.channel, limit);
    SubmapSize(p.active, r.active);
    forall task | task in p.active
      ensures Outstanding(AfterPoll(r, limit), p.active[task]) || p.active[task].serial in r.died
    {
      var d := r.active[task];
      if d in Sent(r.channel) {
        var i :| 0 <= i < |r.channel| && r.channel[i].dispatch == d;
        var taken := |r.channel| - |p.channel|;
        assert i >= taken;
        assert p.channel[i - taken].dispatch == d;
      }
    }
  }

  lemma PollKeeps(l: Log, maximum: nat, limit: nat)
    requires Inv(l, maximum)
    ensures Inv(Apply(l, maximum, PollStep(limit)), maximum)
  {
    hide Sent, Count, Poll, SlotsAreOwned;
    var r := l.router;
    var p := Poll(r.active, r.channel, limit);
    var after := Apply(l, maximum, PollStep(limit));
    PollKeepsSlots(l, maximum, limit);
    PollTakesFront(r.active, r.channel, limit);
    DeliveredMatched(r.active, r.channel, limit);
    forall k: nat
      ensures Everywhere(after, k) == if k < r.next then 1 else 0
    {
      PollAccounts(r.active, r.channel, limit, k);
      CountConcat(l.delivered, p.ready, k);
      CountConcat(l.dropped, p.dropped, k);
      assert Everywhere(l, k) == if k < r.next then 1 else 0;
    }
    forall i | 0 <= i < |after.delivered|
      ensures IsStart(after, after.delivered[i].dispatch)
    {
      if i >= |l.delivered| {
        assert after.delivered[i] == p.ready[i - |l.delivered|];
      }
    }
  }

  lemma CancelKeeps(l: Log, maximum: nat, r: Router)
    requires Inv(l, maximum)
    requires r == l.router.(active := r.active, cancelled := r.cancelled)
    requires forall task :: task in r.active ==> task in l.router.active && r.active[task] == l.router.active[task]
    ensures Inv(l.(router := r), maximum)
  {
    hide Sent, Count;
    SubmapSize(r.active, l.router.active);
    forall k: nat
      ensures Everywhere(l.(router := r), k) == if k < r.next then 1 else 0
    {
      assert Everywhere(l, k) == if k < r.next then 1 else 0;
    }
  }

  lemma RegisterKeeps(l: Log, maximum: nat, handlers: set<string>)
    requires Inv(l, maximum)
    ensures Inv(l.(handlers := handlers), maximum)
  {
    hide Count, SlotsAreOwned;
    forall n: nat
      ensures Everywhere(l.(handlers := handlers), n) == Everywhere(l, n)
    {
    }
  }

  lemma ApplyKeeps(l: Log, maximum: nat, step: Step)
    requires Inv(l, maximum)
    ensures Inv(Apply(l, maximum, step), maximum)
  {
    hide Inv, Started, Finished, Died, AfterPoll, StartReply;
    match step
    case RegisterStep(operation) => RegisterKeeps(l, maximum, Apply(l, maximum, step).handlers);
    case StartStep(s) => StartKeeps(l, maximum, s);
    case FinishStep(serial, outcome) => FinishKeeps(l, maximum, serial, outcome);
    case DieStep(serial) => DieKeeps(l, maximum, serial);
    case PollStep(limit) => PollKeeps(l, maximum, limit);
    case CancelTaskStep(task) => CancelKeeps(l, maximum, CancelTask(l.router, task));
    case CancelExtensionStep(extension) => CancelKeeps(l, maximum, CancelExtension(l.router, extension));
    case CancelAllStep => CancelKeeps(l, maximum, CancelAll(l.router));
  }

  /** In every run the active tasks stay within the maximum and each start is in exactly one place. */
  lemma {:induction false} RunKeeps(l: Log, maximum: nat, steps: seq<Step>)
    requires Inv(l, maximum)
    ensures Inv(Run(l, maximum, steps), maximum)
    decreases |steps|
  {
    hide Inv, Apply;
    if steps != [] {
      ApplyKeeps(l, maximum, steps[0]);
      RunKeeps(Apply(l, maximum, steps[0]), maximum, steps[1..]);
    }
  }

  lemma EmptyHolds(maximum: nat)
    ensures Inv(EMPTY, maximum)
  {
    assert Sent([]) == {};
  }

  /** In every run an active task has a worker or a result of its own exactly when its worker did not die. */
  lemma ActiveIsOutstandingUnlessDied(maximum: nat, steps: seq<Step>, task: Task)
    requires task in Run(EMPTY, maximum, steps).router.active
    ensures var r := Run(EMPTY, maximum, steps).router;
      |r.active| <= maximum && r.active[task].task == task
      && (Outstanding(r, r.active[task]) <==> r.active[task].serial !in r.died)
  {
    hide Run, Count, Sent;
    EmptyHolds(maximum);
    RunKeeps(EMPTY, maximum, steps);
    var l := Run(EMPTY, maximum, steps);
    var d := l.router.active[task];
    assert Everywhere(l, d.serial) <= 1;
    if d in Sent(l.router.channel) {
      CountsSent(l.router.channel, d);
    }
  }

  // ---------- a worker that dies ----------

  /** The task's worker died, and nothing else that could free the slot is under way. */
  predicate Stuck(r: Router, task: Task) {
    && task in r.active && r.active[task].serial in r.died
    && (forall n :: n in r.running ==> r.running[n].task != task)
    && forall i :: 0 <= i < |r.channel| ==> r.channel[i].dispatch.task != task
  }

  predicate Cancels(step: Step, task: Task) {
    step.CancelAllStep? || (step.CancelExtensionStep? && step.extension == task.extension)
  }

  lemma DeferredIsFree(r: Router, maximum: nat, handlers: set<string>, s: Start)
    requires StartReply(r, maximum, handlers, s) == Deferred
    ensures s.task !in r.active
  {
  }

  lemma StuckStays(l: Log, maximum: nat, step: Step, task: Task)
    requires Inv(l, maximum) && Stuck(l.router, task)
    ensures Stuck(Apply(l, maximum, step).router, task) <==> !Cancels(step, task)
    ensures !Cancels(step, task) ==> Apply(l, maximum, step).router.active[task] == l.router.active[task]
  {
    hide Count, Poll, Sent, Accounted, SlotsAreOwned, StartReply, Owned;
    var r := l.router;
    if step.StartStep? {
      if StartReply(r, maximum, l.handlers, step.start) == Deferred {
        DeferredIsFree(r, maximum, l.handlers, step.start);
      }
    } else if step.CancelExtensionStep? {
      CancelExtensionFreesSlots(r, step.extension);
    } else if step.PollStep? {
      var p := Poll(r.active, r.channel, step.limit);
      PollTakesFront(r.active, r.channel, step.limit);
      PollKeepsOthers(r.active, r.channel, step.limit, task);
    }
  }

  /** A poll takes no entry for which no completion is queued. */
  lemma {:induction false} PollKeepsOthers(active: map<Task, Dispatch>, channel: seq<Completion>, maximum: nat,
      task: Task)
    requires task in active && forall i :: 0 <= i < |channel| ==> channel[i].dispatch.task != task
    ensures var p := Poll(active, channel, maximum); task in p.active && p.active[task] == active[task]
    decreases |channel|
  {
    if maximum > 0 && channel != [] {
      var c, rest := channel[0], channel[1..];
      var smaller := if c.dispatch.task in active then active - {c.dispatch.task} else active;
      var left := if c.dispatch.task in active && Matches(active[c.dispatch.task], c.dispatch) then maximum - 1
        else maximum;
      assert smaller == active || smaller == active - {c.dispatch.task};
      PollKeepsOthers(smaller, rest, left, task);
    }
  }

  /** A stuck slot stays taken until its extension is cancelled, and no start of its task is accepted meanwhile. */
  lemma {:induction false} StuckSlotIsHeld(l: Log, maximum: nat, steps: seq<Step>, task: Task, s: Start)
    requires Inv(l, maximum) && Stuck(l.router, task) && s.task == task
    requires forall i :: 0 <= i < |steps| ==> !Cancels(steps[i], task)
    ensures var Log(r, handlers, _, _, _) := Run(l, maximum, steps);
      && Stuck(r, task) && r.active[task] == l.router.active[task]
      && StartReply(r, maximum, handlers, s) in {QuotaExceeded, Conflict}
    decreases |steps|
  {
    hide Inv, Apply, Stuck, Cancels;
    if steps == [] {
      assert task in l.router.active by { StuckIsActive(l.router, task); }
    } else {
      StuckStays(l, maximum, steps[0], task);
      ApplyKeeps(l, maximum, steps[0]);
      StuckSlotIsHeld(Apply(l, maximum, steps[0]), maximum, steps[1..], task, s);
    }
  }

  lemma StuckIsActive(r: Router, task: Task)
    requires Stuck(r, task)
    ensures task in r.active
  {
  }

  // ---------- outcomes ----------

  /** A worker of the run finished with that outcome. */
  ghost predicate Finishes(steps: seq<Step>, c: Completion) {
    FinishStep(c.dispatch.serial, c.outcome) in steps
  }

  /** Every completion is what its worker finished with. */
  lemma {:induction false} OutcomeIsTheWorkers(l: Log, maximum: nat, steps: seq<Step>, c: Completion)
    requires Inv(l, maximum)
    requires var last := Run(l, maximum, steps); c in last.router.channel || c in last.delivered
    ensures c in l.router.channel || c in l.delivered || Finishes(steps, c)
    decreases |steps|
  {
    hide Apply, Inv;
    if steps != [] {
      ApplyKeeps(l, maximum, steps[0]);
      OutcomeIsTheWorkers(Apply(l, maximum, steps[0]), maximum, steps[1..], c);
      if !Finishes(steps[1..], c) {
        OutcomeStep(l, maximum, steps[0], c);
      }
    }
  }

  lemma OutcomeStep(l: Log, maximum: nat, step: Step, c: Completion)
    requires Inv(l, maximum)
    requires var next := Apply(l, maximum, step); c in next.router.channel || c in next.delivered
    ensures c in l.router.channel || c in l.delivered || step == FinishStep(c.dispatch.serial, c.outcome)
  {
    hide Poll, StartReply, SlotsAreOwned, Accounted, Count;
    var r := l.router;
    if step.PollStep? {
      PollTakesFront(r.active, r.channel, step.limit);
      DeliveredMatched(r.active, r.channel, step.limit);
      var p := Poll(r.active, r.channel, step.limit);
      assert c in l.delivered + p.ready || c in p.channel;
    }
  }

  /** Each accepted start is delivered at most once, and what is delivered was started. */
  lemma DeliveredAtMostOnce(maximum: nat, steps: seq<Step>, i: nat, j: nat)
    requires i < j < |Run(EMPTY, maximum, steps).delivered|
    ensures var l := Run(EMPTY, maximum, steps);
      l.delivered[i].dispatch.serial != l.delivered[j].dispatch.serial && IsStart(l, l.delivered[i].dispatch)
  {
    hide Run, Count;
    EmptyHolds(maximum);
    RunKeeps(EMPTY, maximum, steps);
    var l := Run(EMPTY, maximum, steps);
    var n := l.delivered[j].dispatch.serial;
    assert Everywhere(l, n) <= 1;
    if l.delivered[i].dispatch.serial == n {
      assert l.delivered == l.delivered[..j] + l.delivered[j..];
      CountConcat(l.delivered[..j], l.delivered[j..], n);
      assert l.delivered[..j][i] == l.delivered[i] && l.delivered[j..][0] == l.delivered[j];
      CountsAt(l.delivered[..j], i);
      CountsAt(l.delivered[j..], 0);
    }
  }

  lemma {:induction false} CountsAt(completions: seq<Completion>, i: nat)
    requires i < |completions|
    ensures Count(completions, completions[i].dispatch.serial) > 0
  {
    if i > 0 {
      CountsAt(completions[1..], i - 1);
    }
  }

  // ---------- cancellation ----------

  /** No other accepted start shares task, generation and request with start `n`. */
  predicate IdentityIsUnique(starts: seq<Dispatch>, n: nat)
    requires n < |starts|
  {
    forall i :: 0 <= i < |starts| && i != n ==> !(starts[i].task == starts[n].task && Matches(starts[i], starts[n]))
  }

  predicate IsActive(r: Router, serial: nat) {
    exists task :: task in r.active && r.active[task].serial == serial
  }

  lemma {:induction false} StartsGrow(l: Log, maximum: nat, steps: seq<Step>)
    ensures l.starts <= Run(l, maximum, steps).starts
    decreases |steps|
  {
    hide Poll, StartReply;
    if steps != [] {
      StartsGrow(Apply(l, maximum, steps[0]), maximum, steps[1..]);
    }
  }

  lemma InactiveStays(l: Log, maximum: nat, step: Step, n: nat)
    requires Inv(l, maximum) && n < |l.starts| && IdentityIsUnique(l.starts, n)
    requires !IsActive(l.router, n) && Count(l.delivered, n) == 0
    ensures var after := Apply(l, maximum, step);
      !IsActive(after.router, n) && Count(after.delivered, n) == 0
  {
    hide Count, Poll, StartReply, Sent;
    var r := l.router;
    var after := Apply(l, maximum, step);
    if step.PollStep? {
      var p := Poll(r.active, r.channel, step.limit);
      PollTakesFront(r.active, r.channel, step.limit);
      DeliveredMatched(r.active, r.channel, step.limit);
      CountConcat(l.delivered, p.ready, n);
      forall i | 0 <= i < |p.ready|
        ensures p.ready[i].dispatch.serial != n
      {
        var d := p.ready[i].dispatch;
        var entry := r.active[d.task];
        assert IsStart(l, d) && IsStart(l, entry) && entry.task == d.task;
        assert entry.serial == n ==> IsActive(r, n);
      }
      NotCountedAll(p.ready, n);
    }
  }

  lemma {:induction false} NotCountedAll(completions: seq<Completion>, serial: nat)
    requires forall i :: 0 <= i < |completions| ==> completions[i].dispatch.serial != serial
    ensures Count(completions, serial) == 0
  {
    if completions != [] {
      NotCountedAll(completions[1..], serial);
    }
  }

  /** A start that is no longer active is never delivered, as long as no other start has its identity. */
  lemma {:induction false} CancelledIsNeverDelivered(l: Log, maximum: nat, steps: seq<Step>, n: nat)
    requires Inv(l, maximum) && n < |l.starts| && !IsActive(l.router, n) && Count(l.delivered, n) == 0
    requires n < |Run(l, maximum, steps).starts| ==> IdentityIsUnique(Run(l, maximum, steps).starts, n)
    ensures Count(Run(l, maximum, steps).delivered, n) == 0
    decreases |steps|
  {
    hide Apply, Count, IsActive, Inv;
    StartsGrow(l, maximum, steps);
    PrefixIsUnique(l.starts, Run(l, maximum, steps).starts, n);
    if steps != [] {
      InactiveStays(l, maximum, steps[0], n);
      ApplyKeeps(l, maximum, steps[0]);
      var next := Apply(l, maximum, steps[0]);
      StartsGrow(l, maximum, steps[..1]);
      assert steps[..1][1..] == [] && Run(l, maximum, steps[..1]) == next by {
        assert Run(next, maximum, []) == next;
      }
      CancelledIsNeverDelivered(next, maximum, steps[1..], n);
    }
  }

  lemma PrefixIsUnique(few: seq<Dispatch>, many: seq<Dispatch>, n: nat)
    requires few <= many && n < |few| && IdentityIsUnique(many, n)
    ensures IdentityIsUnique(few, n)
  {
  }

  /** A cancelled extension hears of none of its starts again, unless a later start repeats an identity. */
  lemma CancelledExtensionIsSilent(l: Log, maximum: nat, extension: string, steps: seq<Step>, n: nat)
    requires Inv(l, maximum) && n < |l.starts| && l.starts[n].task.extension == extension
    requires Count(l.delivered, n) == 0
    requires var last := Run(Apply(l, maximum, CancelExtensionStep(extension)), maximum, steps);
      n < |last.starts| ==> IdentityIsUnique(last.starts, n)
    ensures Count(Run(Apply(l, maximum, CancelExtensionStep(extension)), maximum, steps).delivered, n) == 0
  {
    hide Run, Count, Sent, IdentityIsUnique, CancelExtension;
    CancelExtensionFreesSlots(l.router, extension);
    ApplyKeeps(l, maximum, CancelExtensionStep(extension));
    CancelledIsNeverDelivered(Apply(l, maximum, CancelExtensionStep(extension)), maximum, steps, n);
  }

  /** Cancelling an extension frees all its slots and flags its workers; others are untouched. */
  lemma CancelExtensionFreesSlots(r: Router, extension: string)
    ensures var after := CancelExtension(r, extension);
      && (forall task :: task in after.active <==> task in r.active && task.extension != extension)
      && (forall task :: task in after.active ==> after.active[task] == r.active[task])
      && (forall task :: task in r.active && task.extension == extension ==> r.active[task].serial in after.cancelled)
  {
  }

  /** The step asks the worker of a task to stop. */
  predicate AsksToStop(step: Step, task: Task) {
    step == CancelTaskStep(task) || Cancels(step, task)
  }

  /** A worker is asked to stop exactly by a cancellation of its task, its extension or everything while it is
      active. */
  lemma FlaggedExactly(l: Log, maximum: nat, step: Step, serial: nat)
    ensures serial in Apply(l, maximum, step).router.cancelled <==>
      serial in l.router.cancelled
      || exists task :: task in l.router.active && l.router.active[task].serial == serial && AsksToStop(step, task)
  {
    hide Poll, StartReply;
    if serial in Apply(l, maximum, step).router.cancelled && serial !in l.router.cancelled {
      var task :| task in l.router.active && l.router.active[task].serial == serial
        && (step == CancelTaskStep(task) || step.CancelAllStep?
            || (step.CancelExtensionStep? && task.extension == step.extension));
      assert AsksToStop(step, task);
    }
  }

  /** Cancelling one task leaves its entry to the next poll, so its slot stays taken until then. */
  lemma CancelledTaskStaysActive(l: Log, maximum: nat, task: Task)
    ensures var after := Apply(l, maximum, CancelTaskStep(task));
      after == l.(router := l.router.(cancelled := after.router.cancelled))
  {
    hide Poll, StartReply;
  }

  /** A worker once asked to stop stays asked. */
  lemma {:induction false} FlagsStay(l: Log, maximum: nat, steps: seq<Step>)
    ensures l.router.cancelled <= Run(l, maximum, steps).router.cancelled
    decreases |steps|
  {
    hide Apply;
    if steps != [] {
      var next := Apply(l, maximum, steps[0]);
      forall serial | serial in l.router.cancelled
        ensures serial in next.router.cancelled
      {
        FlaggedExactly(l, maximum, steps[0], serial);
      }
      FlagsStay(next, maximum, steps[1..]);
    }
  }

  const T := Task("ext", "t")
  const OLD := Dispatch(0, T, 4, "a")
  const NEW := Dispatch(1, T, 4, "b")
  const OLD_DONE := Completion(OLD, Done("old"))
  const NEW_DONE := Completion(NEW, Done("new"))

  const READY := Log(INITIAL, {"op"}, [], [], [])
  const STARTED := Log(Router(map[T := OLD], map[0 := OLD], [], {}, {}, 1), {"op"}, [OLD], [], [])
  const CANCELLED := Log(Router(map[], map[0 := OLD], [], {}, {0}, 1), {"op"}, [OLD], [], [])
  const RESTARTED := Log(Router(map[T := NEW], map[0 := OLD, 1 := NEW], [], {}, {0}, 2), {"op"}, [OLD, NEW], [], [])

  lemma RegistersOne(maximum: nat)
    ensures Apply(EMPTY, maximum, RegisterStep("op")) == READY
  {
    hide Poll;
    assert ValidOperation("op");
    assert {} + {"op"} == {"op"};
  }

  lemma StartsOnce(maximum: nat)
    requires maximum > 0
    ensures Apply(READY, maximum, StartStep(Start(T, 4, "a", "op", true))) == STARTED
  {
    hide Poll;
  }

  /** The smallest input: one start whose handler panics takes the only slot for good. */
  lemma DeadWorkerTakesTheSlot(steps: seq<Step>, s: Start)
    requires forall i :: 0 <= i < |steps| ==> !Cancels(steps[i], T)
    ensures var first := [RegisterStep("op"), StartStep(Start(T, 4, "a", "op", true)), DieStep(0)];
      var Log(r, handlers, _, _, _) := Run(EMPTY, 1, first + steps);
      r.active.Keys == {T} && !Outstanding(r, OLD) && StartReply(r, 1, handlers, s) == QuotaExceeded
  {
    hide Poll, Run, Stuck, Inv, Sent;
    var start, die := StartStep(Start(T, 4, "a", "op", true)), DieStep(0);
    var dead := Apply(STARTED, 1, die);
    RegistersOne(1);
    StartsOnce(1);
    assert dead.router == Router(map[T := OLD], map[], [], {0}, {}, 1);
    assert Stuck(dead.router, T) by { StuckIs(dead.router, T); }
    RunThrice(EMPTY, 1, RegisterStep("op"), start, die, steps);
    EmptyHolds(1);
    ApplyKeeps(EMPTY, 1, RegisterStep("op"));
    ApplyKeeps(READY, 1, start);
    ApplyKeeps(STARTED, 1, die);
    StuckSlotIsHeld(dead, 1, steps, T, s.(task := T));
    RunKeeps(dead, 1, steps);
    OnlySlot(Run(dead, 1, steps), T);
  }

  lemma StuckIs(r: Router, task: Task)
    requires task in r.active && r.active[task].serial in r.died && r.running == map[] && r.channel == []
    ensures Stuck(r, task)
  {
  }

  lemma OnlySlot(l: Log, task: Task)
    requires Inv(l, 1) && Stuck(l.router, task)
    ensures l.router.active.Keys == {task} && |l.router.active| == 1 && !Outstanding(l.router, l.router.active[task])
  {
    hide Count;
    var keys := l.router.active.Keys;
    assert |keys| == |l.router.active| && task in keys;
    SubsetSize({task}, keys);
    if other :| other in keys && other != task {
      SubsetSize({task, other}, keys);
    }
    assert keys == {task};
  }

  lemma RunThrice(l: Log, maximum: nat, first: Step, second: Step, third: Step, steps: seq<Step>)
    ensures Run(l, maximum, [first, second, third] + steps)
      == Run(Apply(Apply(Apply(l, maximum, first), maximum, second), maximum, third), maximum, steps)
  {
    hide Apply;
    var all := [first, second, third] + steps;
    assert all[1..] == [second, third] + steps && all[1..][1..] == [third] + steps && all[1..][1..][1..] == steps;
    var next := Apply(l, maximum, first);
    assert Run(l, maximum, all) == Run(next, maximum, all[1..]);
    assert Run(next, maximum, all[1..]) == Run(Apply(next, maximum, second), maximum, all[1..][1..]);
  }

  lemma CancelsIt()
    ensures Apply(STARTED, 16, CancelExtensionStep("ext")) == CANCELLED
  {
    hide Poll, StartReply;
    assert Owned(STARTED.router.active, "ext") == {T};
    assert CancelExtension(STARTED.router, "ext").active == map[];
    assert CancelExtension(STARTED.router, "ext").cancelled == {0};
  }

  lemma StartsAgain()
    ensures Apply(CANCELLED, 16, StartStep(Start(T, 4, "b", "op", true))) == RESTARTED
  {
    hide Poll;
    assert [OLD] + [NEW] == [OLD, NEW];
  }

  lemma FinishesTwice()
    ensures var l4 := Apply(RESTARTED, 16, FinishStep(0, Done("old")));
      var l5 := Apply(l4, 16, FinishStep(1, Done("new")));
      l5 == RESTARTED.(router := Router(map[T := NEW], map[], [OLD_DONE, NEW_DONE], {}, {0}, 2))
  {
    hide Poll, StartReply;
    var l4 := Apply(RESTARTED, 16, FinishStep(0, Done("old")));
    assert l4.router.running == map[1 := NEW];
    assert [] + [OLD_DONE] == [OLD_DONE];
    assert l4.router.running - {1} == map[];
    assert [OLD_DONE] + [NEW_DONE] == [OLD_DONE, NEW_DONE];
  }

  lemma PollsBoth()
    ensures Poll(map[T := NEW], [OLD_DONE, NEW_DONE], 10) == Polled([], [OLD_DONE, NEW_DONE], map[], [])
  {
    assert [OLD_DONE, NEW_DONE][1..] == [NEW_DONE] && [NEW_DONE][1..] == [];
    assert map[T := NEW] - {T} == map[];
    assert Poll(map[], [], 10) == Polled([], [], map[], []);
    assert Poll(map[], [NEW_DONE], 10) == Polled([], [NEW_DONE], map[], []);
  }

  /** A completion left over from before a restart takes the new entry with it: the restarted task is never
      delivered. */
  lemma StaleCompletionDropsRestart()
    ensures var l := Run(EMPTY, 16, Restart());
      l.delivered == [] && l.dropped == [OLD_DONE, NEW_DONE] && l.router.active == map[]
  {
    hide Apply, Run;
    var steps := Restart();
    var l4 := Apply(RESTARTED, 16, steps[4]);
    var l5 := Apply(l4, 16, steps[5]);
    RegistersOne(16);
    RunsOn(EMPTY, steps);
    StartsOnce(16);
    RunsOn(READY, steps[1..]);
    CancelsIt();
    RunsOn(STARTED, steps[1..][1..]);
    StartsAgain();
    RunsOn(CANCELLED, steps[1..][1..][1..]);
    FinishesTwice();
    RunsOn(RESTARTED, steps[1..][1..][1..][1..]);
    RunsOn(l4, steps[1..][1..][1..][1..][1..]);
    RunsOn(l5, steps[1..][1..][1..][1..][1..][1..]);
    PollsLast(l5);
  }

  /** A task is started, its extension cancelled, the task started again; then both workers finish. */
  function Restart(): seq<Step> {
    [RegisterStep("op"),
     StartStep(Start(T, 4, "a", "op", true)), CancelExtensionStep("ext"), StartStep(Start(T, 4, "b", "op", true)),
     FinishStep(0, Done("old")), FinishStep(1, Done("new")), PollStep(10)]
  }

  lemma PollsLast(l: Log)
    requires l.router.active == map[T := NEW] && l.router.channel == [OLD_DONE, NEW_DONE]
    ensures var after := Apply(l, 16, PollStep(10));
      after.delivered == l.delivered && after.dropped == l.dropped + [OLD_DONE, NEW_DONE]
      && after.router.active == map[]
  {
    hide Poll;
    PollsBoth();
  }

  lemma RunsOn(l: Log, steps: seq<Step>)
    requires steps != []
    ensures Run(l, 16, steps) == Run(Apply(l, 16, steps[0]), 16, steps[1..])
    ensures |steps| == 1 ==> Run(l, 16, steps) == Apply(l, 16, steps[0])
  {
    hide Apply;
  }
}
