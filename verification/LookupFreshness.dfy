// How long a lookup's outcome answers further lookups, over whole runs of the single-flight protocol
// (crates/key-desktop-host/src/scholarly_resolver.rs).
module LookupFreshness {
  import opened Collections
  import opened Options
  import opened SingleFlight

  // ---------- what is stored stays until it is written ----------

  /** The action stores an entry under the key. */
  predicate Writes(s: State, a: Action, key: Key) {
    || (a.SeedWrite? && a.key == key)
    || ((a.PutLease? || a.Complete?) && a.t in s.callers && s.callers[a.t].key == key)
    || (a.PutAlias? && a.t in s.callers && s.callers[a.t].pc.Stored? && s.callers[a.t].pc.alias.Some?
        && s.callers[a.t].pc.alias.value.0 == key)
  }

  lemma UnwrittenStays(s: State, a: Action, key: Key)
    requires Apply(s, a).Some? && !Writes(s, a, key)
    ensures Stored0(Apply(s, a).value, key) == Stored0(s, key) && s.now <= Apply(s, a).value.now
  {
    hide Live, Answers, LeaseEntry, FetchedEntry, Foreign;
  }

  /** No action from `i` up to `j` stores an entry under the key. */
  ghost predicate Unwritten(states: seq<State>, actions: seq<Action>, i: nat, j: nat, key: Key)
    requires |states| == |actions| + 1 && j < |states|
  {
    forall k :: i <= k < j ==> !Writes(states[k], actions[k], key)
  }

  lemma {:induction false} StoredStays(states: seq<State>, actions: seq<Action>, i: nat, j: nat, key: Key)
    requires IsRun(states, actions) && i <= j < |states| && Unwritten(states, actions, i, j, key)
    ensures Stored0(states[j], key) == Stored0(states[i], key) && states[i].now <= states[j].now
    decreases j - i
  {
    hide Apply, Writes;
    if i < j {
      StoredStays(states, actions, i, j - 1, key);
      assert Apply(states[j - 1], actions[j - 1]) == Some(states[j]);
      UnwrittenStays(states[j - 1], actions[j - 1], key);
    }
  }

  lemma {:induction false} TimeIsNotNegative(states: seq<State>, actions: seq<Action>, i: nat)
    requires IsRun(states, actions) && i < |states|
    ensures states[i].now >= 0
  {
    hide ApplyThread;
    if i > 0 {
      TimeIsNotNegative(states, actions, i - 1);
      assert Apply(states[i - 1], actions[i - 1]) == Some(states[i]);
      TimeStep(states[i - 1], actions[i - 1]);
    }
  }

  lemma TimeStep(s: State, a: Action)
    requires Apply(s, a).Some?
    ensures s.now <= Apply(s, a).value.now
  {
    hide Live, Answers, LeaseEntry, FetchedEntry, Foreign, Stored0;
  }

  // ---------- what a lookup does with a stored entry ----------

  /** A caller that can ask now: it looks before joining a flight, or holds one that does not run. */
  predicate Asks(s: State, u: Thread, key: Key) {
    && u in s.callers && s.callers[u].key == key
    && (s.callers[u].pc.Start? || (s.callers[u].pc.Joined? && s.callers[u].pc.flight !in s.running))
  }

  /** Asking ends the lookup with the stored answer. */
  ghost predicate IsAnswered(s: State, u: Thread)
    requires u in s.callers
  {
    var r := Apply(s, if s.callers[u].pc.Start? then Precheck(u) else TryOwn(u));
    r.Some? && r.value == s.(callers := s.callers[u := s.callers[u].(pc := Done)])
  }

  /** Asking leads on: to a flight, or, with a flight in hand, to owning it, the lease and the fetch. */
  ghost predicate LeadsToFetch(s: State, u: Thread)
    requires u in s.callers
  {
    if s.callers[u].pc.Start? then
      var r := Apply(s, Precheck(u));
      r.Some? && u in r.value.callers && r.value.callers[u].pc == Lookup
    else
      var r1 := Apply(s, TryOwn(u));
      r1.Some? &&
      var r2 := Apply(r1.value, ReadPrevious(u));
      r2.Some? &&
      var r3 := Apply(r2.value, PutLease(u));
      r3.Some? && u in r3.value.callers && r3.value.callers[u].pc.Fetching?
  }

  /** Until a given time the entry answers, and from then on it leads to a fetch. */
  lemma AskedBefore(s: State, u: Thread, key: Key, until: int)
    requires Asks(s, u, key) && Stored0(s, key).Some?
    requires var entry := Stored0(s, key).value;
      entry.failure != Pending && (entry.expiresAt > s.now || entry.retryAfter > s.now <==> s.now < until)
    ensures s.now < until <==> IsAnswered(s, u)
    ensures s.now >= until <==> LeadsToFetch(s, u)
  {
    hide LeaseEntry, FetchedEntry, Live;
    assert s.callers[u := s.callers[u].(pc := Done)][u].pc == Done;
    assert s.now >= until ==> !IsAnswered(s, u) by {
      if s.now >= until && s.callers[u].pc.Start? {
        assert Apply(s, Precheck(u)).value.callers[u].pc == Lookup;
      }
    }
  }

  // ---------- a finished fetch ----------

  /** A fetched success, until its key is written again: for thirty days every lookup is answered from it, and
      after that a lookup fetches. */
  lemma SuccessAnswersThirtyDays(states: seq<State>, actions: seq<Action>, i: nat, j: nat, t: Thread, u: Thread,
      key: Key)
    requires IsRun(states, actions) && i < j < |states| && actions[i].Complete? && actions[i].fetched.Success?
    requires actions[i].t == t && t in states[i].callers && states[i].callers[t].key == key
    requires Unwritten(states, actions, i + 1, j, key) && Asks(states[j], u, key)
    ensures PayloadOf(Stored0(states[j], key)) == Some(actions[i].fetched.payload)
    ensures states[j].now < states[i].now + 30 * 86_400_000 <==> IsAnswered(states[j], u)
    ensures states[j].now >= states[i].now + 30 * 86_400_000 <==> LeadsToFetch(states[j], u)
  {
    hide IsAnswered, LeadsToFetch, Asks, Unwritten, Live, Answers;
    assert Apply(states[i], actions[i]) == Some(states[i + 1]);
    StoredStays(states, actions, i + 1, j, key);
    TimeIsNotNegative(states, actions, j);
    AskedBefore(states[j], u, key, states[i].now + 30 * 86_400_000);
  }

  predicate ActsFor(a: Action, t: Thread) {
    !a.Tick? && !a.SeedRead? && !a.SeedWrite? && a.t == t
  }

  lemma {:induction false} OwnerStays(states: seq<State>, actions: seq<Action>, i: nat, j: nat, t: Thread)
    requires IsRun(states, actions) && i <= j < |states| && t in states[i].callers && states[i].callers[t].pc.Stored?
    requires forall k :: i <= k < j ==> !ActsFor(actions[k], t)
    ensures t in states[j].callers && states[j].callers[t] == states[i].callers[t]
    decreases j - i
  {
    hide Apply;
    if i < j {
      OwnerStays(states, actions, i, j - 1, t);
      assert Apply(states[j - 1], actions[j - 1]) == Some(states[j]);
      OthersKeepOwner(states[j - 1], actions[j - 1], t);
    }
  }

  lemma OthersKeepOwner(s: State, a: Action, t: Thread)
    requires Apply(s, a).Some? && t in s.callers && s.callers[t].pc.Stored? && !ActsFor(a, t)
    ensures t in Apply(s, a).value.callers && Apply(s, a).value.callers[t] == s.callers[t]
  {
    hide Live, Answers, LeaseEntry, FetchedEntry, Foreign, Stored0;
  }

  /** The DOI under which the result is also stored answers as long as the lookup's own key does. */
  lemma AliasAnswersAsLong(states: seq<State>, actions: seq<Action>, i: nat, m: nat, j: nat, t: Thread, u: Thread)
    requires IsRun(states, actions) && i < m < j < |states| && actions[i].Complete? && actions[i].t == t
    requires actions[i].fetched.Success? && actions[i].fetched.alias.Some? && t in states[i].callers
    requires actions[i].fetched.alias.value != states[i].callers[t].key
    requires actions[m] == PutAlias(t) && forall k :: i < k < m ==> !ActsFor(actions[k], t)
    requires var other := actions[i].fetched.alias.value;
      Unwritten(states, actions, m + 1, j, other) && Asks(states[j], u, other)
    ensures PayloadOf(Stored0(states[j], actions[i].fetched.alias.value)) == Some(actions[i].fetched.payload)
    ensures states[j].now < states[i].now + 30 * 86_400_000 <==> IsAnswered(states[j], u)
    ensures states[j].now >= states[i].now + 30 * 86_400_000 <==> LeadsToFetch(states[j], u)
  {
    hide IsAnswered, LeadsToFetch, Asks, Unwritten, Live, Answers;
    assert Apply(states[i], actions[i]) == Some(states[i + 1]);
    OwnerStays(states, actions, i + 1, m, t);
    assert Apply(states[m], actions[m]) == Some(states[m + 1]);
    StoredStays(states, actions, m + 1, j, actions[i].fetched.alias.value);
    TimeIsNotNegative(states, actions, j);
    AskedBefore(states[j], u, actions[i].fetched.alias.value, states[i].now + 30 * 86_400_000);
  }

  /** A failed fetch, until its key is written again: no lookup fetches during the backoff, which is counted from
      the failures so far, lasts two minutes at least, and at least as long as the provider asked for. */
  lemma FailureBlocks(states: seq<State>, actions: seq<Action>, i: nat, j: nat, t: Thread, u: Thread, key: Key)
    returns (until: int)
    requires IsRun(states, actions) && i < j < |states| && actions[i].Complete? && actions[i].fetched.Failure?
    requires actions[i].t == t && t in states[i].callers && states[i].callers[t].key == key
    requires Unwritten(states, actions, i + 1, j, key) && Asks(states[j], u, key)
    ensures var Failure(message, notFound, provider) := actions[i].fetched;
      && states[i].callers[t].pc.Fetching?
      && var previous := states[i].callers[t].pc.previous;
         && until == states[i].now
              + Backoff(if previous.Some? then previous.value.attempts + 1 else 1, notFound, provider)
         && until >= states[i].now + 120_000
         && (0 <= provider <= 30 * 86_400 ==> until >= states[i].now + provider * 1000)
         && Stored0(states[j], key).Some?
         && Stored0(states[j], key).value.attempts == (if previous.Some? then previous.value.attempts + 1 else 1)
         && PayloadOf(Stored0(states[j], key)) == PayloadOf(previous)
    ensures states[j].now < until <==> IsAnswered(states[j], u)
    ensures states[j].now >= until <==> LeadsToFetch(states[j], u)
  {
    hide IsAnswered, LeadsToFetch, Asks, Unwritten, Live, Answers, Backoff;
    assert Apply(states[i], actions[i]) == Some(states[i + 1]);
    var previous := states[i].callers[t].pc.previous;
    var attempts := if previous.Some? then previous.value.attempts + 1 else 1;
    var Failure(message, notFound, provider) := actions[i].fetched;
    until := states[i].now + Backoff(attempts, notFound, provider);
    BackoffBounds(attempts, attempts, notFound, provider);
    StoredStays(states, actions, i + 1, j, key);
    TimeIsNotNegative(states, actions, j);
    AskedBefore(states[j], u, key, until);
  }

  /** A seed answers for thirty days as well. */
  lemma SeedAnswersThirtyDays(states: seq<State>, actions: seq<Action>, i: nat, j: nat, u: Thread, key: Key,
      payload: Payload)
    requires IsRun(states, actions) && i < j < |states| && actions[i] == SeedWrite(key, payload)
    requires Unwritten(states, actions, i + 1, j, key) && Asks(states[j], u, key)
    ensures PayloadOf(Stored0(states[j], key)) == Some(payload)
    ensures states[j].now < states[i].now + 30 * 86_400_000 <==> IsAnswered(states[j], u)
    ensures states[j].now >= states[i].now + 30 * 86_400_000 <==> LeadsToFetch(states[j], u)
  {
    hide IsAnswered, LeadsToFetch, Asks, Unwritten, Live, Answers;
    assert Apply(states[i], actions[i]) == Some(states[i + 1]);
    StoredStays(states, actions, i + 1, j, key);
    TimeIsNotNegative(states, actions, j);
    AskedBefore(states[j], u, key, states[i].now + 30 * 86_400_000);
  }

  /** A lease whose owner is gone keeps others from fetching for forty-five seconds. */
  lemma LeaseBlocks(states: seq<State>, actions: seq<Action>, i: nat, j: nat, t: Thread, u: Thread, key: Key)
    requires IsRun(states, actions) && i < j < |states| && actions[i] == PutLease(t)
    requires t in states[i].callers && states[i].callers[t].key == key
    requires Unwritten(states, actions, i + 1, j, key) && Asks(states[j], u, key)
    ensures states[j].callers[u].pc.Joined? ==> (states[j].now < states[i].now + 45_000 <==> IsAnswered(states[j], u))
    ensures states[j].callers[u].pc.Joined? ==>
      (states[j].now >= states[i].now + 45_000 <==> LeadsToFetch(states[j], u))
    ensures states[j].callers[u].pc.Start? ==> LeadsToFetch(states[j], u)
  {
    hide Live, FetchedEntry, IsAnswered, LeadsToFetch, Unwritten;
    assert Apply(states[i], actions[i]) == Some(states[i + 1]);
    StoredStays(states, actions, i + 1, j, key);
    TimeIsNotNegative(states, actions, j);
    AskedUnderLease(states[j], u, key, states[i].now + 45_000);
  }

  lemma AskedUnderLease(s: State, u: Thread, key: Key, until: int)
    requires Asks(s, u, key) && Stored0(s, key).Some?
    requires var entry := Stored0(s, key).value;
      entry.failure == Pending && (entry.expiresAt > s.now || entry.retryAfter > s.now <==> s.now < until)
    ensures s.callers[u].pc.Joined? ==> (s.now < until <==> IsAnswered(s, u))
    ensures s.callers[u].pc.Joined? ==> (s.now >= until <==> LeadsToFetch(s, u))
    ensures s.callers[u].pc.Start? ==> LeadsToFetch(s, u)
  {
    hide LeaseEntry, FetchedEntry, Live;
    assert s.callers[u := s.callers[u].(pc := Done)][u].pc == Done;
  }

  // ---------- the schedule of failures ----------

  /** Two minutes after the first failure, then doubled up to six hours; half a day when nothing was found; a longer
      wait asked for by the provider is kept, up to thirty days. */
  lemma BackoffSchedule(attempts: nat, notFound: bool, provider: int)
    requires attempts >= 1
    ensures Backoff(1, false, 0) == 2 * 60_000
    ensures Backoff(attempts + 1, false, 0) ==
      if 2 * Backoff(attempts, false, 0) <= 6 * 3_600_000 then 2 * Backoff(attempts, false, 0) else 6 * 3_600_000
    ensures Backoff(attempts, true, 0) == 12 * 3_600_000
    ensures Backoff(attempts, notFound, provider) ==
      var own := Backoff(attempts, notFound, 0);
      var asked := if provider < 0 then 0 else if provider > 30 * 86_400 then 30 * 86_400 else provider;
      if asked * 1000 > own then asked * 1000 else own
  {
    assert Power2(1) == 2 * Power2(0) == 2;
    Power2Grows(1, attempts);
    if attempts >= 8 {
      Power2Grows(8, if attempts < 9 then attempts else 9);
      assert Power2(8) == 256 by { assert Power2(4) == 16; assert Power2(6) == 64; }
    }
  }
}
