// Single-flight scholarly lookups in one process (crates/key-desktop-host/src/scholarly_resolver.rs)
// as a state machine over threads, the weak flight registry, the running flags with their condition
// variable, and the persisted cache. Time is a non-decreasing input.
module SingleFlight {
  import opened Collections
  import opened Options

  type Key = string          // library root and cache key together
  type Thread = nat
  type Flight = nat
  type Payload = string

  // ---------- persisted entries ----------

  datatype Failure = NoFailure | Pending | Failed(message: string)

  datatype Entry = Entry(payload: Option<Payload>, failure: Failure, expiresAt: int, retryAfter: int, attempts: nat)

  const DAY: int := 86_400_000
  const LEASE: int := 45_000

  /** The stored success or backoff (or another owner's lease) still answers lookups. */
  predicate InForce(entry: Entry, at: int) {
    entry.expiresAt > at || entry.retryAfter > at
  }

  predicate Answers(entry: Option<Entry>, at: int) {
    entry.Some? && InForce(entry.value, at)
  }

  function PayloadOf(entry: Option<Entry>): Option<Payload> {
    if entry.Some? then entry.value.payload else None
  }

  // ---------- backoff ----------

  function Power2(n: nat): nat { if n == 0 then 1 else 2 * Power2(n - 1) }

  /** Delay after the given number of failed attempts; `provider` is the delay in seconds the provider asks for. */
  function Backoff(attempts: nat, notFound: bool, provider: int): (delay: int)
    requires attempts >= 1
  {
    var own := if notFound then 12 * 60 * 60 * 1000
               else Min(60_000 * Power2(if attempts < 9 then attempts else 9), 6 * 60 * 60 * 1000);
    Max(own, Min(Max(provider, 0), 30 * DAY / 1000) * 1000)
  }

  lemma {:induction false} Power2Grows(a: nat, b: nat)
    requires a <= b
    ensures 1 <= Power2(a) <= Power2(b)
  {
    if a < b {
      Power2Grows(a, b - 1);
    } else if a > 0 {
      Power2Grows(a - 1, b - 1);
    }
  }

  /** Between two minutes and thirty days, and never shorter after more failures. */
  lemma BackoffBounds(attempts: nat, more: nat, notFound: bool, provider: int)
    requires 1 <= attempts <= more
    ensures 120_000 <= Backoff(attempts, notFound, provider) <= 30 * DAY
    ensures Backoff(attempts, notFound, provider) <= Backoff(more, notFound, provider)
    ensures 0 <= provider <= 30 * 86_400 ==> provider * 1000 <= Backoff(attempts, notFound, provider)
  {
    var a, b := if attempts < 9 then attempts else 9, if more < 9 then more else 9;
    Power2Grows(1, a);
    Power2Grows(a, b);
    assert Power2(1) == 2 * Power2(0) == 2;
  }

  // ---------- protocol state ----------

  /** Where a thread stands in resolve_with. From Owning to Stored it is inside its Owner guard. */
  datatype Pc =
    | Start
    | Lookup
    | Joined(flight: Flight)
    | Waiting(flight: Flight)
    | Owning(flight: Flight, checked: Option<Entry>, since: nat)
    | Prepared(flight: Flight, previous: Option<Entry>, since: nat, read: nat)
    | Fetching(flight: Flight, previous: Option<Entry>, leased: nat)
    | Stored(flight: Flight, alias: Option<(Key, Entry)>)
    | Done
  {
    /** The thread keeps a strong reference to its flight. */
    predicate Holds() {
      !Start? && !Lookup? && !Done?
    }

    /** Between setting the running flag and dropping the guard. */
    predicate Owns() {
      Owning? || Prepared? || Fetching? || Stored?
    }
  }

  datatype Caller = Caller(key: Key, pc: Pc)

  datatype State = State(
    callers: map<Thread, Caller>,
    registry: map<Key, Flight>,   // weak references
    running: set<Flight>,
    nextFlight: Flight,
    cache: map<Key, Entry>,
    foreign: map<Key, nat>,       // writes to a key by seeding or by lookups of other keys
    foreignEntry: map<Key, Entry>,  // the last of them
    seeds: multiset<Key>,         // seedings that found no entry and will write one
    now: int)

  const INITIAL := State(map[], map[], {}, 0, map[], map[], map[], multiset{}, 0)

  function Stored0(s: State, key: Key): Option<Entry> {
    if key in s.cache then Some(s.cache[key]) else None
  }

  function Foreign(s: State, key: Key): nat {
    if key in s.foreign then s.foreign[key] else 0
  }

  function ForeignEntry(s: State, key: Key): Option<Entry> {
    if key in s.foreignEntry then Some(s.foreignEntry[key]) else None
  }

  function ForeignWrite(s: State, key: Key, entry: Entry): State {
    s.(cache := s.cache[key := entry], foreign := s.foreign[key := Foreign(s, key) + 1],
       foreignEntry := s.foreignEntry[key := entry])
  }

  function SeededEntry(payload: Payload, at: int): Entry {
    Entry(Some(payload), NoFailure, at + 30 * DAY, 0, 0)
  }

  datatype Fetched =
    | Success(payload: Payload, alias: Option<Key>)
    | Failure(message: string, notFound: bool, provider: int)

  datatype Action =
    | Call(t: Thread, key: Key)
    | Precheck(t: Thread)
    | Register(t: Thread)
    | TryOwn(t: Thread)
    | Wake(t: Thread)
    | Abandon(t: Thread)
    | ReadPrevious(t: Thread)
    | PutLease(t: Thread)
    | Complete(t: Thread, fetched: Fetched)
    | PutAlias(t: Thread)
    | DropOwner(t: Thread)
    | SeedRead(key: Key)
    | SeedWrite(key: Key, payload: Payload)
    | Tick(elapsed: nat)

  function At(s: State, t: Thread, pc: Pc): State
    requires t in s.callers
  {
    s.(callers := s.callers[t := s.callers[t].(pc := pc)])
  }

  /** Trying to own a flight: wait while it runs, take what is stored, or own it. */
  function Tried(s: State, t: Thread, key: Key, flight: Flight): State
    requires t in s.callers
  {
    var entry := Stored0(s, key);
    if flight in s.running then At(s, t, Waiting(flight))
    else if Answers(entry, s.now) then At(s, t, Done)
    else At(s, t, Owning(flight, entry, Foreign(s, key))).(running := s.running + {flight})
  }

  /** Some thread still holds the flight, so a weak reference to it upgrades. */
  ghost predicate Alive(s: State, f: Flight) {
    exists t :: t in s.callers && s.callers[t].pc.Holds() && s.callers[t].pc.flight == f
  }

  /** The entry a lease writes: payload and attempts kept, retry blocked for the lease time. */
  function LeaseEntry(previous: Option<Entry>, now: int): Entry {
    Entry(PayloadOf(previous), Pending, 0, now + LEASE, if previous.Some? then previous.value.attempts else 0)
  }

  function FetchedEntry(previous: Option<Entry>, fetched: Fetched, now: int): Entry {
    match fetched
    case Success(payload, _) => Entry(Some(payload), NoFailure, now + 30 * DAY, 0, 0)
    case Failure(message, notFound, provider) =>
      var attempts := if previous.Some? then previous.value.attempts + 1 else 1;
      Entry(PayloadOf(previous), Failed(message), 0, now + Backoff(attempts, notFound, provider), attempts)
  }

  /** Dropping the guard clears the flag and wakes every waiter of the flight. */
  function Release(s: State, t: Thread, f: Flight): State
    requires t in s.callers
  {
    var woken := map u | u in s.callers ::
      if u == t then s.callers[u].(pc := Done)
      else if s.callers[u].pc == Waiting(f) then s.callers[u].(pc := Joined(f))
      else s.callers[u];
    s.(callers := woken, running := s.running - {f})
  }

  /** The state after an enabled action; nothing when the thread cannot take it now. */
  ghost function Apply(s: State, a: Action): Option<State> {
    match a
    case Call(t, key) => if t in s.callers then None else Some(s.(callers := s.callers[t := Caller(key, Start)]))
    case Tick(elapsed) => Some(s.(now := s.now + elapsed))
    case SeedRead(key) => if key in s.cache then None else Some(s.(seeds := s.seeds + multiset{key}))
    case SeedWrite(key, payload) =>
      if key !in s.seeds then None
      else Some(ForeignWrite(s.(seeds := s.seeds - multiset{key}), key, SeededEntry(payload, s.now)))
    case _ => if a.t in s.callers then ApplyThread(s, a, a.t, s.callers[a.t].key, s.callers[a.t].pc) else None
  }

  ghost function ApplyThread(s: State, a: Action, t: Thread, key: Key, pc: Pc): Option<State>
    requires t in s.callers && s.callers[t] == Caller(key, pc)
  {
    var entry := Stored0(s, key);
    match a
    case Precheck(_) =>
      if !pc.Start? then None
      else if entry.Some? && entry.value.failure != Pending && Answers(entry, s.now) then Some(At(s, t, Done))
      else Some(At(s, t, Lookup))
    case Register(_) =>
      if !pc.Lookup? then None
      else
        var live := Live(s);
        if key in live then Some(At(s, t, Joined(live[key])).(registry := live))
        else
          var f := s.nextFlight;
          Some(At(s, t, Joined(f)).(registry := live[key := f], nextFlight := f + 1))
    case TryOwn(_) => if !pc.Joined? then None else Some(Tried(s, t, key, pc.flight))
    case Wake(_) => if !pc.Waiting? then None else Some(At(s, t, Joined(pc.flight)))
    // The cache cannot be read before the thread owns its flight: it returns the error.
    case Abandon(_) =>
      if pc.Start? || (pc.Joined? && pc.flight !in s.running) then Some(At(s, t, Done)) else None
    case ReadPrevious(_) =>
      if !pc.Owning? then None
      else Some(At(s, t, Prepared(pc.flight, entry, pc.since, Foreign(s, key))))
    case PutLease(_) =>
      if !pc.Prepared? then None
      else
        var leased := At(s, t, Fetching(pc.flight, pc.previous, Foreign(s, key)));
        Some(leased.(cache := s.cache[key := LeaseEntry(pc.previous, s.now)]))
    case Complete(_, fetched) =>
      if !pc.Fetching? then None
      else
        var stored := FetchedEntry(pc.previous, fetched, s.now);
        var alias := if fetched.Success? && fetched.alias.Some? && fetched.alias.value != key
                     then Some((fetched.alias.value, stored)) else None;
        Some(At(s, t, Stored(pc.flight, alias)).(cache := s.cache[key := stored]))
    case PutAlias(_) =>
      if !(pc.Stored? && pc.alias.Some?) then None
      else
        var (other, stored) := pc.alias.value;
        Some(ForeignWrite(At(s, t, Stored(pc.flight, None)), other, stored))
    // The guard is dropped at the end, on every error return and on unwinding.
    case DropOwner(_) => if !pc.Owns() then None else Some(Release(s, t, pc.flight))
    case _ => None
  }

  // ---------- invariant ----------

  /** A thread's flight is the registered one for its key. */
  ghost predicate Registered(s: State) {
    && (forall t :: t in s.callers && s.callers[t].pc.Holds() ==>
          s.callers[t].key in s.registry && s.registry[s.callers[t].key] == s.callers[t].pc.flight)
    && (forall k :: k in s.registry ==> s.registry[k] < s.nextFlight)
    && (forall j, k :: j in s.registry && k in s.registry && s.registry[j] == s.registry[k] ==> j == k)
  }

  /** Threads `t` and `u` both own one flight. */
  ghost predicate OwnsFlight(s: State, t: Thread, u: Thread) {
    && t in s.callers && u in s.callers
    && s.callers[t].pc.Owns() && s.callers[u].pc.Owns()
    && s.callers[t].pc.flight == s.callers[u].pc.flight
  }

  ghost predicate Owned(s: State, f: Flight) {
    exists t :: t in s.callers && s.callers[t].pc.Owns() && s.callers[t].pc.flight == f
  }

  /** A flight runs exactly while one thread owns it, and threads wait only for running flights. */
  ghost predicate Exclusive(s: State) {
    && (forall t :: t in s.callers && s.callers[t].pc.Owns() ==> s.callers[t].pc.flight in s.running)
    && (forall t, u :: OwnsFlight(s, t, u) ==> t == u)
    && (forall f :: f in s.running ==> Owned(s, f))
    && (forall t :: t in s.callers && s.callers[t].pc.Waiting? ==> s.callers[t].pc.flight in s.running)
  }

  /** What an owner knows about its key's entry: it is what it read, or what the last foreign write left. */
  ghost predicate Knows(s: State, c: Caller) {
    var writes, stored, foreign := Foreign(s, c.key), Stored0(s, c.key), ForeignEntry(s, c.key);
    match c.pc
    case Owning(_, checked, since) =>
      since <= writes && !Answers(checked, s.now) && (if writes == since then stored == checked else stored == foreign)
    case Prepared(_, previous, since, read) =>
      && since <= read <= writes && (writes == since ==> !Answers(previous, s.now))
      && (writes == read ==> stored == previous) && (writes > since ==> stored == foreign)
    case Fetching(_, previous, leased) =>
      leased <= writes && (if writes == leased then PayloadOf(stored) == PayloadOf(previous) else stored == foreign)
    case Stored(_, alias) => alias.Some? ==> alias.value.1.payload.Some?
    case _ => true
  }

  /** Foreign writes always carry a payload. */
  ghost predicate ForeignPayloads(s: State) {
    forall k :: Foreign(s, k) > 0 ==> PayloadOf(ForeignEntry(s, k)).Some?
  }

  ghost predicate Inv(s: State) {
    Registered(s) && Exclusive(s) && ForeignPayloads(s) && forall t :: t in s.callers ==> Knows(s, s.callers[t])
  }

  // ---------- preservation ----------

  lemma SamePayloads(s: State, r: State)
    requires ForeignPayloads(s) && r.foreign == s.foreign && r.foreignEntry == s.foreignEntry
    ensures ForeignPayloads(r)
  {
    forall k
      ensures Foreign(r, k) > 0 ==> PayloadOf(ForeignEntry(r, k)).Some?
    {
      assert Foreign(s, k) == Foreign(r, k) && ForeignEntry(s, k) == ForeignEntry(r, k);
    }
  }

  lemma WrittenPayloads(s: State, key: Key, entry: Entry)
    requires ForeignPayloads(s) && entry.payload.Some?
    ensures ForeignPayloads(ForeignWrite(s, key, entry))
  {
    var r := ForeignWrite(s, key, entry);
    forall k
      ensures Foreign(r, k) > 0 ==> PayloadOf(ForeignEntry(r, k)).Some?
    {
      assert k != key ==> Foreign(s, k) == Foreign(r, k) && ForeignEntry(s, k) == ForeignEntry(r, k);
    }
  }

  lemma ThreadPayloads(s: State, a: Action, t: Thread)
    requires ForeignPayloads(s) && t in s.callers && Knows(s, s.callers[t])
    requires ApplyThread(s, a, t, s.callers[t].key, s.callers[t].pc).Some?
    ensures ForeignPayloads(ApplyThread(s, a, t, s.callers[t].key, s.callers[t].pc).value)
  {
    hide ForeignPayloads, LeaseEntry, FetchedEntry, Answers, Live;
    var r := ApplyThread(s, a, t, s.callers[t].key, s.callers[t].pc).value;
    if a.PutAlias? {
      var (other, stored) := s.callers[t].pc.alias.value;
      var moved := At(s, t, Stored(s.callers[t].pc.flight, None));
      SamePayloads(s, moved);
      WrittenPayloads(moved, other, stored);
    } else {
      SamePayloads(s, r);
    }
  }

  /** Owners of one key are one thread. */
  lemma OneOwnerPerKey(s: State, t: Thread, u: Thread)
    requires Registered(s) && Exclusive(s) && t in s.callers && u in s.callers
    requires s.callers[t].pc.Owns() && s.callers[u].pc.Owns() && s.callers[t].key == s.callers[u].key
    ensures t == u
  {
    assert OwnsFlight(s, t, u);
  }

  /** The flight structure depends on callers, registry and flags alone. */
  lemma SameFlights(s: State, r: State)
    requires Registered(s) && Exclusive(s)
    requires r.callers == s.callers && r.registry == s.registry && r.running == s.running
      && r.nextFlight == s.nextFlight
    ensures Registered(r) && Exclusive(r)
  {
    forall f | f in r.running ensures Owned(r, f) {
      assert Owned(s, f);
    }
    forall u, v | OwnsFlight(r, u, v) ensures u == v {
      assert OwnsFlight(s, u, v);
    }
  }

  /** A thread that neither owns nor waits, before and after, does not disturb the flags. */
  lemma CalmKeeps(s: State, r: State, t: Thread, c: Caller)
    requires Exclusive(s) && r.running == s.running && r.callers == s.callers[t := c]
    requires !c.pc.Owns() && !c.pc.Waiting? && (t in s.callers ==> !s.callers[t].pc.Owns())
    ensures Exclusive(r)
  {
    forall f | f in r.running ensures Owned(r, f) {
      assert Owned(s, f);
      var u :| u in s.callers && s.callers[u].pc.Owns() && s.callers[u].pc.flight == f;
      assert r.callers[u] == s.callers[u];
    }
    forall u, v | OwnsFlight(r, u, v) ensures u == v {
      assert OwnsFlight(s, u, v);
    }
  }

  /** The registry without the flights nobody holds any more. */
  ghost function Live(s: State): map<Key, Flight> {
    map k | k in s.registry && Alive(s, s.registry[k]) :: s.registry[k]
  }

  lemma HeldIsLive(s: State)
    requires Registered(s)
    ensures forall u :: u in s.callers && s.callers[u].pc.Holds() ==>
              s.callers[u].key in Live(s) && Live(s)[s.callers[u].key] == s.callers[u].pc.flight
  {
    forall u | u in s.callers && s.callers[u].pc.Holds()
      ensures s.callers[u].key in Live(s) && Live(s)[s.callers[u].key] == s.callers[u].pc.flight
    {
      assert Alive(s, s.callers[u].pc.flight);
    }
  }

  /** Joining the live flight of a key, or a new one. */
  lemma JoinKeeps(s: State, r: State, t: Thread, f: Flight)
    requires Registered(s) && t in s.callers && !s.callers[t].pc.Holds()
    requires r.callers == s.callers[t := s.callers[t].(pc := Joined(f))]
    requires
      || (s.callers[t].key in Live(s) && Live(s)[s.callers[t].key] == f && r.registry == Live(s)
          && r.nextFlight == s.nextFlight)
      || (s.callers[t].key !in Live(s) && f == s.nextFlight && r.registry == Live(s)[s.callers[t].key := f]
          && r.nextFlight == f + 1)
    ensures Registered(r)
  {
    hide Alive;
    HeldIsLive(s);
  }

  lemma RegisterKeeps(s: State, t: Thread)
    requires Inv(s) && t in s.callers && s.callers[t].pc == Lookup
    ensures Apply(s, Register(t)).Some? && Inv(Apply(s, Register(t)).value)
  {
    hide Registered, Exclusive, Knows, Alive;
    var r := Apply(s, Register(t)).value;
    var f := r.callers[t].pc.flight;
    JoinKeeps(s, r, t, f);
    CalmKeeps(s, r, t, r.callers[t]);
    SameCache(s, r, t);
    SamePayloads(s, r);
    JoinedKnows(r, r.callers[t]);
  }

  lemma JoinedKnows(s: State, c: Caller)
    requires !c.pc.Owns()
    ensures Knows(s, c)
  {
  }

  lemma ReleaseRegistered(s: State, t: Thread)
    requires Registered(s) && t in s.callers && s.callers[t].pc.Owns()
    ensures Registered(Release(s, t, s.callers[t].pc.flight))
  {
  }

  lemma ReleaseExclusive(s: State, t: Thread)
    requires Exclusive(s) && t in s.callers && s.callers[t].pc.Owns()
    ensures Exclusive(Release(s, t, s.callers[t].pc.flight))
  {
    hide Owned;
    var f := s.callers[t].pc.flight;
    var r := Release(s, t, f);
    forall g | g in r.running ensures Owned(r, g) {
      StillOwned(s, t, g);
    }
    forall u, v | OwnsFlight(r, u, v) ensures u == v {
      assert OwnsFlight(s, u, v);
    }
    forall u | u in s.callers && s.callers[u].pc.Owns() && u != t ensures s.callers[u].pc.flight != f {
      assert OwnsFlight(s, t, u) ==> t == u;
    }
  }

  lemma ReleaseKeeps(s: State, t: Thread)
    requires Inv(s) && t in s.callers && s.callers[t].pc.Owns()
    ensures Inv(Release(s, t, s.callers[t].pc.flight))
  {
    hide Knows, Registered, Exclusive;
    ReleaseRegistered(s, t);
    ReleaseExclusive(s, t);
    SamePayloads(s, Release(s, t, s.callers[t].pc.flight));
    forall u | u in s.callers
      ensures var r := Release(s, t, s.callers[t].pc.flight); Knows(r, r.callers[u])
    {
      ReleaseKnows(s, t, u);
    }
  }

  lemma StillOwned(s: State, t: Thread, g: Flight)
    requires t in s.callers && s.callers[t].pc.Owns() && g != s.callers[t].pc.flight && Owned(s, g)
    ensures Owned(Release(s, t, s.callers[t].pc.flight), g)
  {
    var u :| u in s.callers && s.callers[u].pc.Owns() && s.callers[u].pc.flight == g;
    assert Release(s, t, s.callers[t].pc.flight).callers[u] == s.callers[u];
  }

  lemma ReleaseKnows(s: State, t: Thread, u: Thread)
    requires t in s.callers && s.callers[t].pc.Owns() && u in s.callers && Knows(s, s.callers[u])
    ensures var r := Release(s, t, s.callers[t].pc.flight); Knows(r, r.callers[u])
  {
  }

  /** A thread that changes its place without touching flights keeps the flight structure. */
  lemma MoveKeeps(s: State, r: State, t: Thread, pc: Pc)
    requires Registered(s) && Exclusive(s) && t in s.callers
    requires r.callers == s.callers[t := s.callers[t].(pc := pc)] && r.registry == s.registry
      && r.nextFlight == s.nextFlight
    requires pc.Holds() ==> s.callers[t].pc.Holds() && pc.flight == s.callers[t].pc.flight
    requires
      || (r.running == s.running && pc.Owns() == s.callers[t].pc.Owns() && (pc.Waiting? ==> pc.flight in s.running))
      || (pc.Owns() && pc.flight !in s.running && r.running == s.running + {pc.flight} && !s.callers[t].pc.Owns())
    ensures Registered(r) && Exclusive(r)
  {
    forall f | f in r.running ensures Owned(r, f) {
      if f in s.running {
        assert Owned(s, f);
        var u :| u in s.callers && s.callers[u].pc.Owns() && s.callers[u].pc.flight == f;
        assert r.callers[u].pc.Owns() && r.callers[u].pc.flight == f;
      } else {
        assert r.callers[t].pc.flight == f;
      }
    }
    forall u, v | OwnsFlight(r, u, v) ensures u == v {
      assert OwnsFlight(s, u, v) || u == t || v == t;
    }
  }

  /** Writing another entry is visible only to the owner of that key, as a foreign write. */
  lemma WriteKeeps(s: State, r: State, t: Thread, key: Key)
    requires Inv(s) && t in s.callers && r.now == s.now
    requires forall u :: u in r.callers && u != t ==> u in s.callers && r.callers[u] == s.callers[u]
    requires forall k :: k != key ==>
      Stored0(r, k) == Stored0(s, k) && Foreign(r, k) == Foreign(s, k) && ForeignEntry(r, k) == ForeignEntry(s, k)
    requires (Foreign(r, key) > Foreign(s, key) && Stored0(r, key) == ForeignEntry(r, key))
      || (s.callers[t].key == key && s.callers[t].pc.Owns() && Foreign(r, key) == Foreign(s, key))
    ensures forall u :: u in r.callers && u != t ==> Knows(r, r.callers[u])
  {
    forall u | u in r.callers && u != t ensures Knows(r, r.callers[u]) {
      assert Knows(s, s.callers[u]);
      if s.callers[u].pc.Owns() && s.callers[t].pc.Owns() && s.callers[u].key == s.callers[t].key {
        OneOwnerPerKey(s, t, u);
      }
    }
  }

  /** The shape of every action that neither registers nor drops a flight. */
  ghost predicate Moved(s: State, r: State, t: Thread)
    requires t in s.callers
  {
    && t in r.callers && r.callers == s.callers[t := s.callers[t].(pc := r.callers[t].pc)]
    && r.registry == s.registry && r.nextFlight == s.nextFlight && r.now == s.now
    && (r.callers[t].pc.Holds() ==> s.callers[t].pc.Holds() && r.callers[t].pc.flight == s.callers[t].pc.flight)
    && var pc := r.callers[t].pc;
       || (r.running == s.running && pc.Owns() == s.callers[t].pc.Owns() && (pc.Waiting? ==> pc.flight in s.running))
       || (pc.Owns() && pc.flight !in s.running && r.running == s.running + {pc.flight} && !s.callers[t].pc.Owns())
  }

  lemma CheckMoves(s: State, a: Action, t: Thread)
    requires Exclusive(s) && t in s.callers && (a.Precheck? || a.TryOwn? || a.Wake? || a.Abandon?)
    requires ApplyThread(s, a, t, s.callers[t].key, s.callers[t].pc).Some?
    ensures Moved(s, ApplyThread(s, a, t, s.callers[t].key, s.callers[t].pc).value, t)
  {
    hide Exclusive, LeaseEntry, FetchedEntry, Answers, Live, Stored0, Foreign;
    OwnFacts(s, t);
  }

  lemma OwnerMoves(s: State, a: Action, t: Thread)
    requires Exclusive(s) && t in s.callers && (a.ReadPrevious? || a.PutLease? || a.Complete? || a.PutAlias?)
    requires ApplyThread(s, a, t, s.callers[t].key, s.callers[t].pc).Some?
    ensures Moved(s, ApplyThread(s, a, t, s.callers[t].key, s.callers[t].pc).value, t)
  {
    hide Exclusive, LeaseEntry, FetchedEntry, Answers, Live, Stored0, Foreign;
    OwnFacts(s, t);
  }

  lemma ThreadMoves(s: State, a: Action, t: Thread)
    requires Exclusive(s) && t in s.callers && !a.Register? && !a.DropOwner?
    requires ApplyThread(s, a, t, s.callers[t].key, s.callers[t].pc).Some?
    ensures Moved(s, ApplyThread(s, a, t, s.callers[t].key, s.callers[t].pc).value, t)
  {
    hide Exclusive, ApplyThread, Moved;
    OnlyThreadActions(s, a, t);
    if a.Precheck? || a.TryOwn? || a.Wake? || a.Abandon? {
      CheckMoves(s, a, t);
    } else {
      OwnerMoves(s, a, t);
    }
  }

  /** The entry that a lease or a fetch writes is the one of the thread's own key. */
  lemma OwnWrite(s: State, a: Action, t: Thread)
    requires t in s.callers && (a.PutLease? || a.Complete?)
    requires ApplyThread(s, a, t, s.callers[t].key, s.callers[t].pc).Some?
    ensures var r := ApplyThread(s, a, t, s.callers[t].key, s.callers[t].pc).value;
            && r.now == s.now && r.foreign == s.foreign && r.foreignEntry == s.foreignEntry && s.callers[t].pc.Owns()
            && (forall u :: u in r.callers && u != t ==> u in s.callers && r.callers[u] == s.callers[u])
            && forall k :: k != s.callers[t].key ==> Stored0(r, k) == Stored0(s, k)
  {
    hide LeaseEntry, FetchedEntry;
  }

  lemma AliasWrite(s: State, a: Action, t: Thread)
    requires t in s.callers && a.PutAlias?
    requires ApplyThread(s, a, t, s.callers[t].key, s.callers[t].pc).Some?
    ensures var pc := s.callers[t].pc;
            && pc.Stored? && pc.alias.Some?
            && ApplyThread(s, a, t, s.callers[t].key, s.callers[t].pc).value
               == ForeignWrite(At(s, t, Stored(pc.flight, None)), pc.alias.value.0, pc.alias.value.1)
  {
    hide ForeignWrite, At;
  }

  ghost predicate Quiet(s: State, r: State, t: Thread) {
    && r.now == s.now && r.foreign == s.foreign && r.foreignEntry == s.foreignEntry && r.cache == s.cache
    && forall u :: u in r.callers && u != t ==> u in s.callers && r.callers[u] == s.callers[u]
  }

  lemma CheckWritesNothing(s: State, a: Action, t: Thread)
    requires t in s.callers && (a.Precheck? || a.TryOwn?)
    requires ApplyThread(s, a, t, s.callers[t].key, s.callers[t].pc).Some?
    ensures Quiet(s, ApplyThread(s, a, t, s.callers[t].key, s.callers[t].pc).value, t)
  {
    hide Answers;
  }

  lemma ReadWritesNothing(s: State, a: Action, t: Thread)
    requires t in s.callers && (a.Wake? || a.Abandon? || a.ReadPrevious?)
    requires ApplyThread(s, a, t, s.callers[t].key, s.callers[t].pc).Some?
    ensures Quiet(s, ApplyThread(s, a, t, s.callers[t].key, s.callers[t].pc).value, t)
  {
    hide Answers;
  }

  lemma NoWrite(s: State, a: Action, t: Thread)
    requires t in s.callers && (a.Precheck? || a.TryOwn? || a.Wake? || a.Abandon? || a.ReadPrevious?)
    requires ApplyThread(s, a, t, s.callers[t].key, s.callers[t].pc).Some?
    ensures Quiet(s, ApplyThread(s, a, t, s.callers[t].key, s.callers[t].pc).value, t)
  {
    hide ApplyThread;
    if a.Precheck? || a.TryOwn? {
      CheckWritesNothing(s, a, t);
    } else {
      ReadWritesNothing(s, a, t);
    }
  }

  lemma OnlyThreadActions(s: State, a: Action, t: Thread)
    requires t in s.callers && ApplyThread(s, a, t, s.callers[t].key, s.callers[t].pc).Some?
    ensures !a.Call? && !a.Tick? && !a.SeedRead? && !a.SeedWrite?
  {
  }

  lemma ThreadWrites(s: State, a: Action, t: Thread)
    requires Inv(s) && t in s.callers && !a.Register? && !a.DropOwner?
    requires ApplyThread(s, a, t, s.callers[t].key, s.callers[t].pc).Some?
    ensures var r := ApplyThread(s, a, t, s.callers[t].key, s.callers[t].pc).value;
            forall u :: u in r.callers && u != t ==> Knows(r, r.callers[u])
  {
    hide Registered, Exclusive, Knows, ForeignPayloads, ApplyThread;
    var Caller(key, pc) := s.callers[t];
    var r := ApplyThread(s, a, t, key, pc).value;
    if a.PutLease? || a.Complete? {
      OwnWrite(s, a, t);
      WriteKeeps(s, r, t, key);
    } else if a.PutAlias? {
      AliasWrite(s, a, t);
      WriteKeeps(s, r, t, pc.alias.value.0);
    } else {
      assert a.Precheck? || a.TryOwn? || a.Wake? || a.Abandon? || a.ReadPrevious? by { OnlyThreadActions(s, a, t); }
      NoWrite(s, a, t);
      SameCache(s, r, t);
    }
  }

  lemma ThreadKeeps(s: State, a: Action, t: Thread)
    requires Inv(s) && t in s.callers && !a.Register? && !a.DropOwner?
    requires ApplyThread(s, a, t, s.callers[t].key, s.callers[t].pc).Some?
    ensures Inv(ApplyThread(s, a, t, s.callers[t].key, s.callers[t].pc).value)
  {
    hide Registered, Exclusive, Knows, ApplyThread, ForeignPayloads;
    var r := ApplyThread(s, a, t, s.callers[t].key, s.callers[t].pc).value;
    ThreadMoves(s, a, t);
    MoveKeeps(s, r, t, r.callers[t].pc);
    ThreadWrites(s, a, t);
    ThreadPayloads(s, a, t);
    SelfKnows(s, a, t);
  }

  lemma OwnFacts(s: State, t: Thread)
    requires Exclusive(s) && t in s.callers
    ensures s.callers[t].pc.Owns() ==> s.callers[t].pc.flight in s.running
    ensures s.callers[t].pc.Waiting? ==> s.callers[t].pc.flight in s.running
  {
  }

  lemma SameCache(s: State, r: State, t: Thread)
    requires forall u :: u in s.callers ==> Knows(s, s.callers[u])
    requires r.cache == s.cache && r.foreign == s.foreign && r.foreignEntry == s.foreignEntry && r.now == s.now
    requires forall u :: u in r.callers && u != t ==> u in s.callers && r.callers[u] == s.callers[u]
    ensures forall u :: u in r.callers && u != t ==> Knows(r, r.callers[u])
  {
    forall u | u in r.callers && u != t ensures Knows(r, r.callers[u]) {
      assert Knows(s, s.callers[u]);
    }
  }

  lemma SelfKnows(s: State, a: Action, t: Thread)
    requires Inv(s) && t in s.callers
    requires ApplyThread(s, a, t, s.callers[t].key, s.callers[t].pc).Some? && !a.DropOwner? && !a.Register?
    ensures var r := ApplyThread(s, a, t, s.callers[t].key, s.callers[t].pc).value; Knows(r, r.callers[t])
  {
    hide Registered, Exclusive, ForeignPayloads, Knows;
    assert Knows(s, s.callers[t]);
    match a
    case PutLease(_) => OwnKnows(s, a, t);
    case Complete(_, _) => OwnKnows(s, a, t);
    case PutAlias(_) => AliasKnows(s, a, t);
    case _ => ReadKnows(s, a, t);
  }

  lemma OwnKnows(s: State, a: Action, t: Thread)
    requires t in s.callers && (a.PutLease? || a.Complete?) && Knows(s, s.callers[t])
    requires ApplyThread(s, a, t, s.callers[t].key, s.callers[t].pc).Some?
    ensures var r := ApplyThread(s, a, t, s.callers[t].key, s.callers[t].pc).value; Knows(r, r.callers[t])
  {
    hide Answers;
  }

  lemma AliasKnows(s: State, a: Action, t: Thread)
    requires t in s.callers && a.PutAlias? && Knows(s, s.callers[t])
    requires ApplyThread(s, a, t, s.callers[t].key, s.callers[t].pc).Some?
    ensures var r := ApplyThread(s, a, t, s.callers[t].key, s.callers[t].pc).value; Knows(r, r.callers[t])
  {
    hide ApplyThread;
    AliasWrite(s, a, t);
  }

  lemma ReadKnows(s: State, a: Action, t: Thread)
    requires t in s.callers && !a.PutLease? && !a.Complete? && !a.PutAlias? && !a.DropOwner? && !a.Register?
    requires Knows(s, s.callers[t]) && ApplyThread(s, a, t, s.callers[t].key, s.callers[t].pc).Some?
    ensures var r := ApplyThread(s, a, t, s.callers[t].key, s.callers[t].pc).value; Knows(r, r.callers[t])
  {
    hide LeaseEntry, FetchedEntry;
  }

  /** Every action of every thread, in any interleaving, keeps the invariant. */
  lemma ApplyKeeps(s: State, a: Action)
    requires Inv(s) && Apply(s, a).Some?
    ensures Inv(Apply(s, a).value)
  {
    hide Registered, Exclusive, Knows, ApplyThread;
    match a
    case Call(t, key) => CallKeeps(s, t, key);
    case Tick(elapsed) => TickKeeps(s, elapsed);
    case SeedRead(key) => SeedReadKeeps(s, key);
    case SeedWrite(key, payload) => SeedWriteKeeps(s, key, payload);
    case Register(t) =>
      ThreadEnabled(s, a, t);
      RegisterKeeps(s, t);
    case DropOwner(t) =>
      ThreadEnabled(s, a, t);
      ReleaseKeeps(s, t);
    case _ => ThreadKeeps(s, a, a.t);
  }

  lemma ThreadEnabled(s: State, a: Action, t: Thread)
    requires t in s.callers && ApplyThread(s, a, t, s.callers[t].key, s.callers[t].pc).Some?
    ensures a == Register(t) ==> s.callers[t].pc == Lookup
    ensures a == DropOwner(t) ==> s.callers[t].pc.Owns()
    ensures a == DropOwner(t) ==>
              ApplyThread(s, a, t, s.callers[t].key, s.callers[t].pc) == Some(Release(s, t, s.callers[t].pc.flight))
  {
  }

  lemma CallKeeps(s: State, t: Thread, key: Key)
    requires Inv(s) && t !in s.callers
    ensures Inv(s.(callers := s.callers[t := Caller(key, Start)]))
  {
    hide Exclusive, Knows;
    var r := s.(callers := s.callers[t := Caller(key, Start)]);
    CalmKeeps(s, r, t, Caller(key, Start));
    SameCache(s, r, t);
    SamePayloads(s, r);
    JoinedKnows(r, Caller(key, Start));
  }

  lemma TickKeeps(s: State, elapsed: nat)
    requires Inv(s)
    ensures Inv(s.(now := s.now + elapsed))
  {
    hide Registered, Exclusive;
    var r := s.(now := s.now + elapsed);
    SameFlights(s, r);
    SamePayloads(s, r);
    forall u | u in r.callers ensures Knows(r, r.callers[u]) {
      assert Knows(s, s.callers[u]);
    }
  }

  lemma SeedReadKeeps(s: State, key: Key)
    requires Inv(s)
    ensures Inv(s.(seeds := s.seeds + multiset{key}))
  {
    hide Registered, Exclusive;
    var r := s.(seeds := s.seeds + multiset{key});
    SameFlights(s, r);
    SamePayloads(s, r);
    forall u | u in r.callers ensures Knows(r, r.callers[u]) {
      assert Knows(s, s.callers[u]);
    }
  }

  lemma KnowsAfterWrite(s: State, r: State, key: Key, entry: Entry, c: Caller)
    requires Knows(s, c) && r == ForeignWrite(s.(seeds := r.seeds), key, entry)
    ensures Knows(r, c)
  {
    hide Answers;
    assert c.key != key ==>
      Stored0(r, c.key) == Stored0(s, c.key) && Foreign(r, c.key) == Foreign(s, c.key)
      && ForeignEntry(r, c.key) == ForeignEntry(s, c.key);
  }

  lemma SeedWriteKeeps(s: State, key: Key, payload: Payload)
    requires Inv(s) && key in s.seeds
    ensures Inv(Apply(s, SeedWrite(key, payload)).value)
  {
    hide Registered, Exclusive, ForeignPayloads, Knows;
    var r := Apply(s, SeedWrite(key, payload)).value;
    SameFlights(s, r);
    var taken := s.(seeds := s.seeds - multiset{key});
    SamePayloads(s, taken);
    WrittenPayloads(taken, key, SeededEntry(payload, s.now));
    forall u | u in r.callers
      ensures Knows(r, r.callers[u])
    {
      KnowsAfterWrite(s, r, key, SeededEntry(payload, s.now), s.callers[u]);
    }
  }

  // ---------- runs ----------

  /** The states of a run are connected by enabled actions. */
  ghost predicate IsRun(states: seq<State>, actions: seq<Action>) {
    && |states| == |actions| + 1
    && states[0] == INITIAL
    && forall i :: 0 <= i < |actions| ==> Apply(states[i], actions[i]) == Some(states[i + 1])
  }

  lemma {:induction false} RunKeeps(states: seq<State>, actions: seq<Action>, i: nat)
    requires IsRun(states, actions) && i < |states|
    ensures Inv(states[i])
  {
    hide Inv, Apply;
    if i == 0 {
      InitialHolds();
    } else {
      RunKeeps(states, actions, i - 1);
      assert Apply(states[i - 1], actions[i - 1]) == Some(states[i]);
      ApplyKeeps(states[i - 1], actions[i - 1]);
    }
  }

  lemma InitialHolds()
    ensures Inv(INITIAL)
  {
  }

  /** In every interleaving, callers that hold a flight for a key hold the same one, and at most one
      of them is between setting the running flag and dropping its guard. */
  lemma FlightsAreShared(states: seq<State>, actions: seq<Action>, i: nat, t: Thread, u: Thread)
    requires IsRun(states, actions) && i < |states|
    requires t in states[i].callers && u in states[i].callers && states[i].callers[t].key == states[i].callers[u].key
    ensures states[i].callers[t].pc.Holds() && states[i].callers[u].pc.Holds() ==>
              states[i].callers[t].pc.flight == states[i].callers[u].pc.flight
    ensures states[i].callers[t].pc.Owns() && states[i].callers[u].pc.Owns() ==> t == u
  {
    RunKeeps(states, actions, i);
    if states[i].callers[t].pc.Owns() && states[i].callers[u].pc.Owns() {
      OneOwnerPerKey(states[i], t, u);
    }
  }

  /** A waiting thread always has an owner that can drop its guard, and that step wakes the waiter. */
  lemma NoWaiterIsLost(states: seq<State>, actions: seq<Action>, i: nat, t: Thread) returns (u: Thread)
    requires IsRun(states, actions) && i < |states|
    requires t in states[i].callers && states[i].callers[t].pc.Waiting?
    ensures u != t && u in states[i].callers && states[i].callers[u].key == states[i].callers[t].key
    ensures states[i].callers[u].pc.Owns()
    ensures Apply(states[i], DropOwner(u)).Some?
    ensures Apply(states[i], DropOwner(u)).value.callers[t].pc == Joined(states[i].callers[t].pc.flight)
  {
    hide Knows, ForeignPayloads, IsRun;
    var s := states[i];
    assert Inv(s) by { RunKeeps(states, actions, i); }
    var f := s.callers[t].pc.flight;
    assert Owned(s, f);
    u :| u in s.callers && s.callers[u].pc.Owns() && s.callers[u].pc.flight == f;
    assert s.registry[s.callers[u].key] == s.registry[s.callers[t].key];
  }

  /** The next step of a thread that is neither finished nor waiting. */
  function NextAction(s: State, t: Thread): Action
    requires t in s.callers
  {
    match s.callers[t].pc
    case Start => Precheck(t)
    case Lookup => Register(t)
    case Joined(_) => TryOwn(t)
    case Owning(_, _, _) => ReadPrevious(t)
    case Prepared(_, _, _, _) => PutLease(t)
    case Fetching(_, _, _) => Complete(t, Failure("", false, 0))
    case Stored(_, alias) => if alias.Some? then PutAlias(t) else DropOwner(t)
    case _ => Wake(t)
  }

  /** No deadlock: an unfinished thread can move, unless it waits for a thread that can. */
  lemma NoDeadlock(states: seq<State>, actions: seq<Action>, i: nat, t: Thread)
    requires IsRun(states, actions) && i < |states|
    requires t in states[i].callers && states[i].callers[t].pc != Done
    ensures states[i].callers[t].pc.Waiting? || Apply(states[i], NextAction(states[i], t)).Some?
    ensures states[i].callers[t].pc.Waiting? ==>
              exists u :: u in states[i].callers && u != t && !states[i].callers[u].pc.Waiting?
                && Apply(states[i], NextAction(states[i], u)).Some?
  {
    if states[i].callers[t].pc.Waiting? {
      var u := NoWaiterIsLost(states, actions, i, t);
      assert Apply(states[i], NextAction(states[i], u)).Some?;
    }
  }

  /** The lease replaces an entry that still answers lookups exactly when seeding or a lookup of another
      key wrote the entry after the check, and that write has not expired. */
  lemma FetchOnlyWhenNeeded(states: seq<State>, actions: seq<Action>, i: nat, t: Thread)
    requires IsRun(states, actions) && i < |actions| && actions[i] == PutLease(t)
    ensures t in states[i].callers && states[i].callers[t].pc.Prepared?
    ensures var Caller(key, pc) := states[i].callers[t];
            Foreign(states[i], key) == pc.since ==>
              Stored0(states[i], key) == pc.previous && !Answers(Stored0(states[i], key), states[i].now)
    ensures var Caller(key, pc) := states[i].callers[t];
            Answers(Stored0(states[i], key), states[i].now) <==>
              Foreign(states[i], key) > pc.since && Answers(ForeignEntry(states[i], key), states[i].now)
  {
    RunKeeps(states, actions, i);
    assert Apply(states[i], actions[i]) == Some(states[i + 1]);
    assert Knows(states[i], states[i].callers[t]);
  }

  /** A stored payload that is gone after a step. */
  predicate Loses(s: State, r: State, key: Key) {
    PayloadOf(Stored0(s, key)).Some? && PayloadOf(Stored0(r, key)).None?
  }

  /** A step by the owner of `key`, who read no payload, after a foreign write that it did not see: the
      lease, or a failed fetch. */
  predicate WritesBlindly(s: State, a: Action, key: Key) {
    (a.PutLease? || (a.Complete? && a.fetched.Failure?)) && a.t in s.callers && s.callers[a.t].key == key
    && match s.callers[a.t].pc
       case Prepared(_, previous, _, read) => a.PutLease? && PayloadOf(previous).None? && Foreign(s, key) > read
       case Fetching(_, previous, leased) => a.Complete? && PayloadOf(previous).None? && Foreign(s, key) > leased
       case _ => false
  }

  /** In every run a stored payload is lost in exactly these steps. */
  lemma PayloadIsLostExactly(states: seq<State>, actions: seq<Action>, i: nat, key: Key)
    requires IsRun(states, actions) && i < |actions|
    ensures Loses(states[i], states[i + 1], key) <==> WritesBlindly(states[i], actions[i], key)
  {
    hide Registered, Exclusive, Inv;
    RunKeeps(states, actions, i);
    assert Apply(states[i], actions[i]) == Some(states[i + 1]);
    LossOfStep(states[i], actions[i], key);
  }

  lemma LossOfStep(s: State, a: Action, key: Key)
    requires Inv(s) && Apply(s, a).Some?
    ensures Loses(s, Apply(s, a).value, key) <==> WritesBlindly(s, a, key)
  {
    hide Registered, Exclusive, Knows, ForeignPayloads, ApplyThread, Live;
    match a
    case Call(_, _) =>
    case Tick(_) =>
    case SeedRead(_) =>
    case SeedWrite(_, _) =>
    case PutLease(t) => LossOfOwnWrite(s, a, t, key);
    case Complete(t, _) => LossOfOwnWrite(s, a, t, key);
    case PutAlias(t) =>
      assert Knows(s, s.callers[t]);
      LossOfAlias(s, a, t, key);
    case Register(t) => LossOfFlight(s, a, t);
    case DropOwner(t) => LossOfFlight(s, a, t);
    case _ => NoWrite(s, a, a.t);
  }

  lemma LossOfFlight(s: State, a: Action, t: Thread)
    requires t in s.callers && (a.Register? || a.DropOwner?)
    requires ApplyThread(s, a, t, s.callers[t].key, s.callers[t].pc).Some?
    ensures ApplyThread(s, a, t, s.callers[t].key, s.callers[t].pc).value.cache == s.cache
  {
    hide Live;
  }

  lemma LossOfAlias(s: State, a: Action, t: Thread, key: Key)
    requires t in s.callers && a.PutAlias? && Knows(s, s.callers[t])
    requires ApplyThread(s, a, t, s.callers[t].key, s.callers[t].pc).Some?
    ensures !Loses(s, ApplyThread(s, a, t, s.callers[t].key, s.callers[t].pc).value, key)
  {
    hide ApplyThread;
    AliasWrite(s, a, t);
  }

  lemma LossOfOwnWrite(s: State, a: Action, t: Thread, key: Key)
    requires Inv(s) && t in s.callers && (a.PutLease? || a.Complete?) && a.t == t
    requires ApplyThread(s, a, t, s.callers[t].key, s.callers[t].pc).Some?
    ensures Loses(s, ApplyThread(s, a, t, s.callers[t].key, s.callers[t].pc).value, key) <==> WritesBlindly(s, a, key)
  {
    hide Registered, Exclusive, Answers;
    assert Knows(s, s.callers[t]);
  }

  /** A stored payload is replaced but never lost by lookups of its own key, unless seeding or a lookup of
      another key wrote the entry since the owner last saw it. */
  lemma PayloadIsKept(states: seq<State>, actions: seq<Action>, i: nat, t: Thread)
    requires IsRun(states, actions) && i < |actions|
    requires (actions[i].PutLease? || actions[i].Complete?) && actions[i].t == t
    ensures t in states[i].callers && (states[i].callers[t].pc.Prepared? || states[i].callers[t].pc.Fetching?)
    ensures var Caller(key, pc) := states[i].callers[t];
            Foreign(states[i], key) == (if pc.Prepared? then pc.read else pc.leased) ==>
              !Loses(states[i], states[i + 1], key)
  {
    assert Apply(states[i], actions[i]) == Some(states[i + 1]);
    PayloadIsLostExactly(states, actions, i, states[i].callers[t].key);
  }

  // ---------- the two races ----------

  /** One caller of one key; a seed that found no entry writes one between the caller's check and its lease,
      before or after the caller reads the previous entry. */
  function RaceStates(key: Key, payload: Payload, early: bool): seq<State> {
    var entry := SeededEntry(payload, 0);
    var s1 := INITIAL.(seeds := multiset{key});
    var s4 := s1.(callers := map[0 := Caller(key, Joined(0))], registry := map[key := 0], nextFlight := 1);
    var s5 := s4.(callers := map[0 := Caller(key, Owning(0, None, 0))], running := {0});
    var seen := if early then Some(entry) else None;
    var prepared := map[0 := Caller(key, Prepared(0, seen, 0, if early then 1 else 0))];
    var s6 := if early then ForeignWrite(s5.(seeds := multiset{}), key, entry) else s5.(callers := prepared);
    var s7 := ForeignWrite(s5.(seeds := multiset{}), key, entry).(callers := prepared);
    [ INITIAL, s1,
      s1.(callers := map[0 := Caller(key, Start)]),
      s1.(callers := map[0 := Caller(key, Lookup)]),
      s4, s5, s6, s7,
      s7.(callers := map[0 := Caller(key, Fetching(0, seen, 1))], cache := s7.cache[key := LeaseEntry(seen, 0)]) ]
  }

  function RaceActions(key: Key, payload: Payload, early: bool): seq<Action> {
    [SeedRead(key), Call(0, key), Precheck(0), Register(0), TryOwn(0)]
    + (if early then [SeedWrite(key, payload), ReadPrevious(0)] else [ReadPrevious(0), SeedWrite(key, payload)])
    + [PutLease(0)]
  }

  lemma RaceStarts(key: Key, payload: Payload, early: bool, i: nat)
    requires i < 5
    ensures Apply(RaceStates(key, payload, early)[i], RaceActions(key, payload, early)[i])
      == Some(RaceStates(key, payload, early)[i + 1])
  {
    var states := RaceStates(key, payload, early);
    if i > 1 {
      Overwrite(0, states[i].callers[0], states[i + 1].callers[0]);
    }
    assert Live(states[3]) == map[];
    assert states[4].running + {0} == {0};
    assert INITIAL.seeds + multiset{key} == multiset{key};
  }

  lemma RaceEnds(key: Key, payload: Payload, early: bool, i: nat)
    requires 5 <= i < 8
    ensures Apply(RaceStates(key, payload, early)[i], RaceActions(key, payload, early)[i])
      == Some(RaceStates(key, payload, early)[i + 1])
  {
    var states := RaceStates(key, payload, early);
    Overwrite(0, states[i].callers[0], states[i + 1].callers[0]);
    assert multiset{key} - multiset{key} == multiset{};
    assert RaceActions(key, payload, early)[7] == PutLease(0);
  }

  lemma RaceIsRun(key: Key, payload: Payload, early: bool)
    ensures IsRun(RaceStates(key, payload, early), RaceActions(key, payload, early))
    ensures RaceActions(key, payload, early)[7] == PutLease(0)
  {
    hide Apply;
    var states, actions := RaceStates(key, payload, early), RaceActions(key, payload, early);
    forall i | 0 <= i < |actions| ensures Apply(states[i], actions[i]) == Some(states[i + 1]) {
      if i < 5 {
        RaceStarts(key, payload, early, i);
      } else {
        RaceEnds(key, payload, early, i);
      }
    }
  }

  /** A seed between check and lease makes the fetch start, and the lease replace, a success that is in force. */
  lemma SeedRacesWithLookup(key: Key, payload: Payload)
    ensures IsRun(RaceStates(key, payload, true), RaceActions(key, payload, true))
      && RaceActions(key, payload, true)[7] == PutLease(0)
    ensures var s := RaceStates(key, payload, true)[7];
            0 in s.callers && s.callers[0].key == key && Answers(Stored0(s, key), s.now)
  {
    RaceIsRun(key, payload, true);
  }

  /** A seed between the owner's reading and its lease is lost. */
  lemma SeedIsLost(key: Key, payload: Payload)
    ensures IsRun(RaceStates(key, payload, false), RaceActions(key, payload, false))
    ensures PayloadOf(Stored0(RaceStates(key, payload, false)[7], key)) == Some(payload)
    ensures PayloadOf(Stored0(RaceStates(key, payload, false)[8], key)) == None
  {
    RaceIsRun(key, payload, false);
  }

  lemma Overwrite<K, V>(k: K, a: V, b: V)
    ensures (map[k := a])[k := b] == map[k := b]
  {
  }
}
