/** The registry of resident browser workers behind the worker server: a bounded least-recently-used map. */
module Registry {
  import opened Wrappers
  import opened Bytes

  datatype Profile = Profile(id: Text)

  datatype Entry = Entry(worker: nat, lastUsed: nat)

  /** How a resident worker turns out when it is asked for again. */
  datatype Residence = ReadyNow | DegradedNow(restarted: bool) | OtherNow(settledReady: bool)

  /** How making a new worker turns out. */
  datatype Spawn = IdentityRejected | SpawnRejected | StoppedEarly | SettledDegraded | SettledReady

  predicate Usable(r: Residence) {
    r.ReadyNow? || (r.DegradedNow? && r.restarted) || (r.OtherNow? && r.settledReady)
  }

  // The reference: a list of profiles, least recently used first.

  function Without(order: seq<Profile>, profile: Profile): (r: seq<Profile>)
    ensures |r| <= |order|
  {
    if order == [] then []
    else if order[0] == profile then Without(order[1..], profile)
    else [order[0]] + Without(order[1..], profile)
  }

  lemma {:induction false} WithoutMembers(order: seq<Profile>, profile: Profile)
    ensures forall p :: p in Without(order, profile) <==> p in order && p != profile
  {
    if order != [] {
      WithoutMembers(order[1..], profile);
    }
  }

  predicate NoRepeat(order: seq<Profile>) {
    forall i, j :: 0 <= i < j < |order| ==> order[i] != order[j]
  }

  function Bounded(order: seq<Profile>, limit: nat): seq<Profile> {
    if |order| >= limit && order != [] then order[1..] else order
  }

  /** One request for a profile. */
  function Access(order: seq<Profile>, profile: Profile, usable: bool, spawned: bool, limit: nat): seq<Profile> {
    var rest := Without(order, profile);
    if profile in order && usable then rest + [profile]
    else
      var kept := Bounded(rest, limit);
      if spawned then kept + [profile] else kept
  }

  lemma {:induction false} WithoutAbsent(order: seq<Profile>, profile: Profile)
    requires profile !in order
    ensures Without(order, profile) == order
  {
    if order != [] {
      WithoutAbsent(order[1..], profile);
    }
  }

  lemma {:induction false} WithoutConcat(a: seq<Profile>, b: seq<Profile>, profile: Profile)
    ensures Without(a + b, profile) == Without(a, profile) + Without(b, profile)
  {
    if a == [] {
      assert a + b == b;
    } else {
      assert (a + b)[1..] == a[1..] + b;
      WithoutConcat(a[1..], b, profile);
    }
  }

  lemma {:induction false} WithoutNoRepeat(order: seq<Profile>, profile: Profile)
    requires NoRepeat(order)
    ensures NoRepeat(Without(order, profile))
    ensures profile in order ==> |Without(order, profile)| == |order| - 1
  {
    if order != [] {
      WithoutNoRepeat(order[1..], profile);
      if order[0] == profile {
        assert profile !in order[1..];
        WithoutAbsent(order[1..], profile);
      } else {
        WithoutMembers(order[1..], profile);
        assert order[0] !in Without(order[1..], profile);
      }
    }
  }

  /** Every profile ever asked for, most recent last. */
  function Recency(history: seq<Profile>): seq<Profile> {
    if history == [] then []
    else
      var last := history[|history| - 1];
      Without(Recency(history[..|history| - 1]), last) + [last]
  }

  /** The bounded list after the same requests, all of them successful. */
  function Residents(history: seq<Profile>, limit: nat): seq<Profile> {
    if history == [] then []
    else Access(Residents(history[..|history| - 1], limit), history[|history| - 1], true, true, limit)
  }

  predicate Tail(residents: seq<Profile>, all: seq<Profile>, limit: nat) {
    residents == all[if |all| > limit then |all| - limit else 0..]
  }

  lemma RecencyStep(all: seq<Profile>, p: Profile)
    requires NoRepeat(all)
    ensures NoRepeat(Without(all, p) + [p])
    ensures |Without(all, p) + [p]| == if p in all then |all| else |all| + 1
  {
    WithoutNoRepeat(all, p);
    WithoutMembers(all, p);
    if p !in all {
      WithoutAbsent(all, p);
    }
  }

  ghost predicate TailOf(older: seq<Profile>, kept: seq<Profile>, limit: nat) {
    NoRepeat(older + kept) && if older == [] then |kept| <= limit else |kept| == limit
  }

  lemma TailOfConcat(older: seq<Profile>, kept: seq<Profile>, limit: nat)
    requires |kept| == limit || (older == [] && |kept| <= limit)
    ensures Tail(kept, older + kept, limit)
  {
  }

  lemma Shifted(older: seq<Profile>, kept: seq<Profile>, p: Profile)
    ensures older + kept + [p] == older + (kept + [p])
    ensures kept != [] ==> older + kept + [p] == (older + [kept[0]]) + (kept[1..] + [p])
  {
  }

  lemma NotOlder(older: seq<Profile>, kept: seq<Profile>, p: Profile)
    requires NoRepeat(older + kept) && p in kept
    ensures p !in older
  {
    var all := older + kept;
    var k :| 0 <= k < |kept| && kept[k] == p;
    assert forall j :: 0 <= j < |older| ==> all[j] == older[j] && all[j] != all[|older| + k];
  }

  lemma KeptNoRepeat(older: seq<Profile>, kept: seq<Profile>)
    requires NoRepeat(older + kept)
    ensures NoRepeat(kept)
  {
    var all := older + kept;
    assert forall j :: 0 <= j < |kept| ==> kept[j] == all[|older| + j];
  }

  lemma ResidentTailStep(older: seq<Profile>, kept: seq<Profile>, p: Profile, limit: nat)
    requires limit >= 1 && TailOf(older, kept, limit) && p in kept
    ensures Tail(Access(kept, p, true, true, limit), Without(older + kept, p) + [p], limit)
  {
    var rest := Without(kept, p);
    NotOlder(older, kept, p);
    KeptNoRepeat(older, kept);
    WithoutConcat(older, kept, p);
    WithoutAbsent(older, p);
    WithoutNoRepeat(kept, p);
    Shifted(older, rest, p);
    TailOfConcat(older, rest + [p], limit);
  }

  lemma AbsentTailStep(older: seq<Profile>, kept: seq<Profile>, p: Profile, limit: nat)
    requires limit >= 1 && TailOf(older, kept, limit) && p !in kept
    ensures Tail(Access(kept, p, true, true, limit), Without(older + kept, p) + [p], limit)
  {
    var front := Without(older, p);
    WithoutConcat(older, kept, p);
    WithoutAbsent(kept, p);
    Shifted(front, kept, p);
    if |kept| == limit {
      TailOfConcat(front + [kept[0]], kept[1..] + [p], limit);
    } else {
      TailOfConcat(front, kept + [p], limit);
    }
  }

  /** The residents are exactly the most recently used profiles, in order: the tail of the unbounded recency list. */
  lemma {:induction false} ResidentsAreTheMostRecent(history: seq<Profile>, limit: nat)
    requires limit >= 1
    ensures NoRepeat(Recency(history))
    ensures Tail(Residents(history, limit), Recency(history), limit)
  {
    if history != [] {
      var earlier := history[..|history| - 1];
      var p := history[|history| - 1];
      ResidentsAreTheMostRecent(earlier, limit);
      var all := Recency(earlier);
      var cut := if |all| > limit then |all| - limit else 0;
      assert all == all[..cut] + all[cut..];
      if p in all[cut..] {
        ResidentTailStep(all[..cut], all[cut..], p, limit);
      } else {
        AbsentTailStep(all[..cut], all[cut..], p, limit);
      }
      RecencyStep(all, p);
    }
  }

  // Serving one connection.

  datatype Outcome = NavigationFailed | CaptureFailed | PolicyMismatch | Unsendable | Captured

  datatype Request =
    | Capture(profile: Profile, wellFormed: bool, residence: Residence, spawn: Spawn, outcome: Outcome)
    | Health
    | Stop
    | BadFields

  datatype Status = Fine | Invalid | Unavailable | Failed | TooLarge | Malformed

  /** What the next read of the stream yields, and whether the response to it can be written. */
  datatype Inbound = Frame(request: Request, delivered: bool) | EndOfStream | BrokenFrame(delivered: bool) | ReadFailure

  /** A failed navigation or capture costs the profile its worker. */
  function Concluded(order: seq<Profile>, profile: Profile, outcome: Outcome): (seq<Profile>, Status) {
    match outcome
    case NavigationFailed => (Without(order, profile), Failed)
    case CaptureFailed => (Without(order, profile), Failed)
    case PolicyMismatch => (order, Failed)
    case Unsendable => (order, TooLarge)
    case Captured => (order, Fine)
  }

  function Answer(order: seq<Profile>, request: Request, limit: nat): (seq<Profile>, Status) {
    match request
    case BadFields => (order, Invalid)
    case Health => (order, Fine)
    case Stop => (order, Fine)
    case Capture(p, wellFormed, residence, spawn, outcome) =>
      var usable, ready := Usable(residence), spawn.SettledReady?;
      var after := Access(order, p, usable, ready, limit);
      if !wellFormed then (order, Invalid)
      else if !(p in order && usable) && !ready then (after, Unavailable)
      else Concluded(after, p, outcome)
  }

  /** The responses written on a connection, and whether it ends without an error. */
  function Served(order: seq<Profile>, inbound: seq<Inbound>, limit: nat): (seq<Status>, bool)
    decreases |inbound|
  {
    if inbound == [] || inbound[0].EndOfStream? then ([], true)
    else if inbound[0].ReadFailure? then ([], false)
    else if inbound[0].BrokenFrame? then (if inbound[0].delivered then ([Malformed], true) else ([], false))
    else
      var (after, status) := Answer(order, inbound[0].request, limit);
      if !inbound[0].delivered then ([], false)
      else if inbound[0].request.Stop? then ([status], true)
      else
        var (statuses, clean) := Served(after, inbound[1..], limit);
        ([status] + statuses, clean)
  }

  function Later(statuses: seq<Status>, rest: (seq<Status>, bool)): (seq<Status>, bool) {
    (statuses + rest.0, rest.1)
  }

  lemma ServedWhole(order: seq<Profile>, inbound: seq<Inbound>, limit: nat)
    ensures Later([], Served(order, inbound[0..], limit)) == Served(order, inbound, limit)
  {
    assert inbound[0..] == inbound;
    var served := Served(order, inbound, limit).0;
    assert [] + served == served;
  }

  lemma ServedAll(statuses: seq<Status>, order: seq<Profile>, inbound: seq<Inbound>, limit: nat)
    ensures Later(statuses, Served(order, inbound[|inbound|..], limit)) == (statuses, true)
  {
    assert statuses + [] == statuses;
  }

  lemma ServedEnd(statuses: seq<Status>, order: seq<Profile>, inbound: seq<Inbound>, i: nat, limit: nat)
    requires i < |inbound|
    ensures var goal := Later(statuses, Served(order, inbound[i..], limit));
            && (inbound[i].EndOfStream? ==> goal == (statuses, true))
            && (inbound[i].ReadFailure? ==> goal == (statuses, false))
            && (inbound[i].BrokenFrame? ==>
                  goal == (if inbound[i].delivered then statuses + [Malformed] else statuses, inbound[i].delivered))
            && (inbound[i].Frame? && !inbound[i].delivered ==> goal == (statuses, false))
  {
    assert statuses + [] == statuses;
  }

  lemma ServedStep(statuses: seq<Status>, order: seq<Profile>, inbound: seq<Inbound>, i: nat, limit: nat)
    requires i < |inbound| && inbound[i].Frame? && inbound[i].delivered
    ensures var answer := Answer(order, inbound[i].request, limit);
            var so := statuses + [answer.1];
            Later(statuses, Served(order, inbound[i..], limit)) ==
              if inbound[i].request.Stop? then (so, true) else Later(so, Served(answer.0, inbound[i + 1..], limit))
  {
    assert inbound[i..][1..] == inbound[i + 1..];
    var answer := Answer(order, inbound[i].request, limit);
    var next := Served(answer.0, inbound[i + 1..], limit);
    assert statuses + ([answer.1] + next.0) == statuses + [answer.1] + next.0;
  }

  // The registry.

  /** No two residents share a worker, and the workers alive are just theirs (see `EveryLiveWorkerIsResident`). */
  ghost predicate Owned(workers: map<Profile, Entry>, live: set<nat>) {
    && (forall p :: p in workers ==> workers[p].worker in live)
    && (forall p, q :: p in workers && q in workers && workers[p].worker == workers[q].worker ==> p == q)
    && |live| == |workers|
  }

  lemma {:induction false} EveryLiveWorkerIsResident(workers: map<Profile, Entry>, live: set<nat>, worker: nat)
    requires Owned(workers, live) && worker in live
    ensures exists p :: p in workers && workers[p].worker == worker
    decreases |workers|
  {
    if p :| p in workers && workers[p].worker != worker {
      EveryLiveWorkerIsResident(workers - {p}, live - {workers[p].worker}, worker);
      var q :| q in workers - {p} && (workers - {p})[q].worker == worker;
      assert q in workers && workers[q].worker == worker;
    } else if workers.Keys == {} {
      assert false;
    } else {
      var p :| p in workers;
    }
  }

  ghost predicate Recorded(order: seq<Profile>, workers: map<Profile, Entry>) {
    NoRepeat(order) && forall p :: p in order <==> p in workers
  }

  /** The list is in the order of last use, and no use is later than the clock. */
  ghost predicate ByUse(order: seq<Profile>, workers: map<Profile, Entry>, clock: nat)
    requires forall p :: p in order ==> p in workers
  {
    && (forall i, j :: 0 <= i < j < |order| ==> workers[order[i]].lastUsed < workers[order[j]].lastUsed)
    && (forall p :: p in order ==> workers[p].lastUsed <= clock)
  }

  lemma {:induction false} OrderSize(order: seq<Profile>, workers: map<Profile, Entry>)
    requires Recorded(order, workers)
    ensures |order| == |workers|
    decreases |order|
  {
    if order == [] {
      assert workers.Keys == {};
    } else {
      var rest := workers - {order[0]};
      assert order[0] !in order[1..];
      OrderSize(order[1..], rest);
    }
  }

  lemma FirstUsedFirst(workers: map<Profile, Entry>, order: seq<Profile>, clock: nat)
    requires order != [] && (forall p :: p in order ==> p in workers) && ByUse(order, workers, clock)
    ensures forall p :: p in order[1..] ==> workers[order[0]].lastUsed < workers[p].lastUsed
  {
    forall p | p in order[1..]
      ensures workers[order[0]].lastUsed < workers[p].lastUsed
    {
      var k :| 0 <= k < |order[1..]| && order[1..][k] == p;
      assert order[k + 1] == p;
    }
  }

  /** Leaving out one profile keeps the others in order of use. */
  lemma {:induction false} KeepsUse(workers: map<Profile, Entry>, order: seq<Profile>, profile: Profile, clock: nat)
    requires (forall p :: p in order ==> p in workers) && ByUse(order, workers, clock)
    ensures forall p :: p in Without(order, profile) ==> p in workers - {profile}
    ensures ByUse(Without(order, profile), workers - {profile}, clock)
  {
    if order != [] {
      var rest := order[1..];
      assert forall i :: 0 <= i < |rest| ==> rest[i] == order[i + 1];
      KeepsUse(workers, rest, profile, clock);
      WithoutMembers(rest, profile);
      FirstUsedFirst(workers, order, clock);
    }
  }

  lemma DropProfile(workers: map<Profile, Entry>, live: set<nat>, order: seq<Profile>, profile: Profile)
    requires Owned(workers, live) && Recorded(order, workers) && profile in workers
    ensures Owned(workers - {profile}, live - {workers[profile].worker})
    ensures Recorded(Without(order, profile), workers - {profile})
  {
    WithoutNoRepeat(order, profile);
    WithoutMembers(order, profile);
  }

  lemma AddProfile(workers: map<Profile, Entry>, live: set<nat>, order: seq<Profile>, profile: Profile, entry: Entry)
    requires Owned(workers, live) && Recorded(order, workers) && profile !in workers && entry.worker !in live
    ensures Owned(workers[profile := entry], live + {entry.worker})
    ensures Recorded(order + [profile], workers[profile := entry])
  {
  }

  lemma AddedIsLatest(workers: map<Profile, Entry>, order: seq<Profile>, profile: Profile, entry: Entry)
    requires Recorded(order, workers) && profile !in workers && 0 < entry.lastUsed
    requires ByUse(order, workers, entry.lastUsed - 1)
    ensures forall p :: p in order + [profile] ==> p in workers[profile := entry]
    ensures ByUse(order + [profile], workers[profile := entry], entry.lastUsed)
  {
  }

  lemma RemoveFirst(order: seq<Profile>)
    requires NoRepeat(order) && order != []
    ensures Without(order, order[0]) == order[1..]
  {
    assert order[0] !in order[1..];
    WithoutAbsent(order[1..], order[0]);
  }

  lemma FirstIsOldest(order: seq<Profile>, workers: map<Profile, Entry>, clock: nat, victim: Profile)
    requires Recorded(order, workers) && ByUse(order, workers, clock) && victim in workers
    requires forall p :: p in workers ==> workers[victim].lastUsed <= workers[p].lastUsed
    ensures order != [] && order[0] == victim
  {
    var k :| 0 <= k < |order| && order[k] == victim;
    assert workers[order[0]].lastUsed <= workers[order[k]].lastUsed;
  }

  /** Every browser that is alive belongs to exactly one resident, and there are at most `limit` of them. */
  ghost predicate Consistent(limit: nat, clock: nat, workers: map<Profile, Entry>, spawned: nat, order: seq<Profile>,
                             exact: bool, live: set<nat>)
  {
    && 1 <= limit && |workers| <= limit && clock <= U64_MAX
    && Owned(workers, live) && (forall w :: w in live ==> w < spawned)
    && Recorded(order, workers)
    && (exact ==> ByUse(order, workers, clock))
  }

  lemma ConsistentDrop(limit: nat, clock: nat, workers: map<Profile, Entry>, spawned: nat, order: seq<Profile>,
                       exact: bool, live: set<nat>, profile: Profile)
    requires Consistent(limit, clock, workers, spawned, order, exact, live) && profile in workers
    ensures var worker := workers[profile].worker;
            Consistent(limit, clock, workers - {profile}, spawned, Without(order, profile), exact, live - {worker})
  {
    DropProfile(workers, live, order, profile);
    if exact {
      KeepsUse(workers, order, profile, clock);
    }
  }

  lemma ConsistentAbsent(limit: nat, clock: nat, workers: map<Profile, Entry>, spawned: nat, order: seq<Profile>,
                         exact: bool, live: set<nat>, profile: Profile)
    requires Consistent(limit, clock, workers, spawned, order, exact, live) && profile !in workers
    ensures workers - {profile} == workers && Without(order, profile) == order
  {
    WithoutAbsent(order, profile);
  }

  lemma ConsistentAdd(limit: nat, clock: nat, workers: map<Profile, Entry>, spawned: nat, order: seq<Profile>,
                      exact: bool, live: set<nat>, profile: Profile, worker: nat)
    requires Consistent(limit, clock, workers, spawned, order, exact, live)
    requires profile !in workers && worker !in live && worker < spawned && |workers| < limit
    requires exact ==> 0 < clock && ByUse(order, workers, clock - 1)
    ensures Consistent(limit, clock, workers[profile := Entry(worker, clock)], spawned, order + [profile], exact,
                       live + {worker})
  {
    AddProfile(workers, live, order, profile, Entry(worker, clock));
    if exact {
      AddedIsLatest(workers, order, profile, Entry(worker, clock));
    }
  }

  lemma Readded(workers: map<Profile, Entry>, live: set<nat>, profile: Profile, entry: Entry)
    requires profile in workers && entry.worker in live
    ensures (workers - {profile})[profile := entry] == workers[profile := entry]
    ensures live - {entry.worker} + {entry.worker} == live
  {
  }

  lemma ConsistentTouch(limit: nat, clock: nat, workers: map<Profile, Entry>, spawned: nat, order: seq<Profile>,
                        exact: bool, live: set<nat>, profile: Profile)
    requires Consistent(limit, clock, workers, spawned, order, exact, live) && profile in workers
    requires exact ==> 0 < clock && ByUse(order, workers, clock - 1)
    ensures Consistent(limit, clock, workers[profile := Entry(workers[profile].worker, clock)], spawned,
                       Without(order, profile) + [profile], exact, live)
  {
    var worker := workers[profile].worker;
    ConsistentDrop(limit, clock, workers, spawned, order, exact, live, profile);
    if exact {
      KeepsUse(workers, order, profile, clock - 1);
    }
    ConsistentAdd(limit, clock, workers - {profile}, spawned, Without(order, profile), exact,
                  live - {worker}, profile, worker);
    Readded(workers, live, profile, Entry(worker, clock));
  }

  /** A request finds a worker: a usable resident, or else a new one that settles Ready. */
  predicate HasWorker(request: Request, workers: map<Profile, Entry>)
    requires request.Capture?
  {
    request.spawn == SettledReady || (request.profile in workers && Usable(request.residence))
  }

  /** What is answered, and whether the profile still has its worker: failures of the browser cost it. */
  predicate Concludes(outcome: Outcome, status: Status, kept: bool) {
    match outcome
    case NavigationFailed => status == Failed && !kept
    case CaptureFailed => status == Failed && !kept
    case PolicyMismatch => status == Failed && kept
    case Unsendable => status == TooLarge && kept
    case Captured => status == Fine && kept
  }

  class WorkerRegistry {
    const maxResident: nat
    var clock: nat
    var workers: map<Profile, Entry>
    var spawned: nat              // handles are numbered in the order of spawning
    ghost var order: seq<Profile> // the residents; in the order of last use as long as the clock has not saturated
    ghost var exact: bool         // the clock has never saturated
    ghost var live: set<nat>      // workers spawned and neither shut down nor stopped

    ghost predicate Valid()
      reads this
    {
      Consistent(maxResident, clock, workers, spawned, order, exact, live)
    }

    constructor (maxResident: nat)
      requires 1 <= maxResident
      ensures Valid() && workers == map[] && order == [] && exact && clock == 0 && live == {}
      ensures this.maxResident == maxResident
    {
      this.maxResident := maxResident;
      clock, workers, spawned := 0, map[], 0;
      order, exact, live := [], true, {};
    }

    /** A new browser process; it may start only while fewer than `maxResident` are alive. */
    method SpawnWorker() returns (worker: nat)
      requires |live| < maxResident
      modifies this`live, this`spawned
      ensures worker == old(spawned) && spawned == old(spawned) + 1 && live == old(live) + {worker}
    {
      worker := spawned;
      live := live + {worker};
      spawned := spawned + 1;
    }

    /** Takes a resident out of the map and waits until its worker has shut down. */
    method RemoveResident(profile: Profile)
      requires Valid() && profile in workers
      modifies this`workers, this`order, this`live
      ensures Valid() && workers == old(workers) - {profile} && order == Without(old(order), profile)
      ensures live == old(live) - {old(workers[profile].worker)}
    {
      var worker := workers[profile].worker;
      ConsistentDrop(maxResident, clock, workers, spawned, order, exact, live, profile);
      workers := workers - {profile};
      order := Without(order, profile);
      live := live - {worker}; // its shutdown has finished
    }

    method RemoveWorker(profile: Profile)
      requires Valid()
      modifies this`workers, this`order, this`live
      ensures Valid() && workers == old(workers) - {profile} && order == Without(old(order), profile)
      ensures live == old(live) - (if profile in old(workers) then {old(workers[profile].worker)} else {})
    {
      if profile in workers {
        RemoveResident(profile);
      } else {
        ConsistentAbsent(maxResident, clock, workers, spawned, order, exact, live, profile);
      }
    }

    /** The profile whose worker was used longest ago. */
    method Oldest() returns (victim: Profile)
      requires Valid() && workers != map[]
      ensures victim in workers && forall p :: p in workers ==> workers[victim].lastUsed <= workers[p].lastUsed
      ensures exact ==> order != [] && victim == order[0]
    {
      var rest := workers.Keys;
      victim :| victim in rest;
      rest := rest - {victim};
      while rest != {}
        invariant victim in workers && rest <= workers.Keys
        invariant forall p :: p in workers && p !in rest ==> workers[victim].lastUsed <= workers[p].lastUsed
        decreases rest
      {
        var p :| p in rest;
        rest := rest - {p};
        if workers[p].lastUsed < workers[victim].lastUsed {
          victim := p;
        }
      }
      if exact {
        FirstIsOldest(order, workers, clock, victim);
      }
    }

    method EvictIfFull()
      requires Valid()
      modifies this`workers, this`order, this`live
      ensures Valid() && |workers| < maxResident && workers.Keys <= old(workers.Keys) && live <= old(live)
      ensures exact ==> order == Bounded(old(order), maxResident)
      ensures forall p :: p in workers ==> workers[p] == old(workers)[p]
    {
      OrderSize(order, workers);
      if |workers| >= maxResident {
        var victim := Oldest();
        if exact {
          RemoveFirst(order);
        }
        RemoveResident(victim);
        assert workers.Keys == old(workers.Keys) - {victim};
      }
    }

    /** The resident worker is used again, at a clock no other use has seen. */
    method Touch(profile: Profile)
      requires Valid() && profile in workers
      requires exact ==> 0 < clock && ByUse(order, workers, clock - 1)
      modifies this`workers, this`order
      ensures Valid() && workers == old(workers)[profile := Entry(old(workers[profile].worker), clock)]
      ensures order == Without(old(order), profile) + [profile]
    {
      ConsistentTouch(maxResident, clock, workers, spawned, order, exact, live, profile);
      workers := workers[profile := Entry(workers[profile].worker, clock)];
      order := Without(order, profile) + [profile];
    }

    method Admit(profile: Profile, worker: nat)
      requires Consistent(maxResident, clock, workers, spawned, order, exact, live - {worker})
      requires |workers| < maxResident && profile !in workers && worker in live && worker < spawned
      requires exact ==> 0 < clock && ByUse(order, workers, clock - 1)
      modifies this`workers, this`order
      ensures Valid() && workers == old(workers)[profile := Entry(worker, clock)] && order == old(order) + [profile]
    {
      ConsistentAdd(maxResident, clock, workers, spawned, order, exact, live - {worker}, profile, worker);
      assert live - {worker} + {worker} == live;
      workers := workers[profile := Entry(worker, clock)];
      order := order + [profile];
    }

    /** Starts a worker and waits until it settles; only a ready one is admitted, any other is gone afterwards. */
    method Start(profile: Profile, spawn: Spawn) returns (r: Option<nat>)
      requires Valid() && |workers| < maxResident && profile !in workers
      requires exact ==> 0 < clock && ByUse(order, workers, clock - 1)
      modifies this`workers, this`order, this`live, this`spawned
      ensures Valid()
      ensures r.Some? <==> spawn.SettledReady?
      ensures r.None? ==> workers == old(workers) && order == old(order) && live == old(live)
      ensures r.Some? ==> workers == old(workers)[profile := Entry(r.value, clock)] && order == old(order) + [profile]
      ensures r.Some? ==> r.value == old(spawned) && live == old(live) + {r.value}
    {
      if spawn.IdentityRejected? || spawn.SpawnRejected? {
        return None;
      }
      var worker := SpawnWorker();
      assert live - {worker} == old(live);
      if spawn.StoppedEarly? {
        live := live - {worker}; // it stopped by itself
        return None;
      }
      if spawn.SettledDegraded? {
        live := live - {worker}; // shut down
        return None;
      }
      Admit(profile, worker);
      return Some(worker);
    }

    method Tick()
      requires Valid()
      modifies this`clock, this`exact
      ensures Valid() && clock == SaturatingSucc(old(clock)) && exact == (old(exact) && old(clock) < U64_MAX)
      ensures exact ==> 0 < clock && ByUse(order, workers, clock - 1)
    {
      exact := exact && clock < U64_MAX;
      clock := SaturatingSucc(clock);
    }

    /** The profile's own worker goes, if it has one. */
    method Forget(profile: Profile)
      requires Valid()
      requires exact ==> 0 < clock && ByUse(order, workers, clock - 1)
      modifies this`workers, this`order, this`live
      ensures Valid() && profile !in workers && order == Without(old(order), profile)
      ensures live == old(live) - (if profile in old(workers) then {old(workers[profile].worker)} else {})
      ensures exact ==> 0 < clock && ByUse(order, workers, clock - 1)
    {
      if exact {
        KeepsUse(workers, order, profile, clock - 1);
      }
      RemoveWorker(profile);
    }

    /** The oldest resident goes if the limit is reached. */
    method Shrink()
      requires Valid()
      requires exact ==> 0 < clock && ByUse(order, workers, clock - 1)
      modifies this`workers, this`order, this`live
      ensures Valid() && |workers| < maxResident && workers.Keys <= old(workers.Keys) && live <= old(live)
      ensures exact ==> order == Bounded(old(order), maxResident)
      ensures exact ==> 0 < clock && ByUse(order, workers, clock - 1)
    {
      EvictIfFull();
      if exact {
        EvictedByUse(old(workers), workers, old(order), order, clock - 1, maxResident);
      }
    }

    /** Makes room for a profile that has no usable worker: its own worker goes, and then the oldest if need be. */
    method MakeRoom(profile: Profile)
      requires Valid()
      requires exact ==> 0 < clock && ByUse(order, workers, clock - 1)
      modifies this`workers, this`order, this`live
      ensures Valid() && |workers| < maxResident && profile !in workers && live <= old(live)
      ensures profile in old(workers) ==> old(workers[profile].worker) !in live
      ensures exact ==> order == Bounded(Without(old(order), profile), maxResident)
      ensures exact ==> 0 < clock && ByUse(order, workers, clock - 1)
    {
      Forget(profile);
      Shrink();
    }

    /** A resident is asked how it is: a Degraded one is restarted, any other that is not Ready yet gets time to settle. */
    method Probe(residence: Residence) returns (usable: bool)
      ensures usable == Usable(residence)
    {
      match residence {
        case ReadyNow => usable := true;
        case DegradedNow(restarted) => usable := restarted;
        case OtherNow(settledReady) => usable := settledReady;
      }
    }

    /** A new worker, in the place of the profile's own or of the oldest one. */
    method Replace(profile: Profile, spawn: Spawn) returns (r: Option<nat>)
      requires Valid()
      requires exact ==> 0 < clock && ByUse(order, workers, clock - 1)
      modifies this`workers, this`order, this`live, this`spawned
      ensures Valid() && r == (if spawn == SettledReady then Some(old(spawned)) else None)
      ensures r.Some? ==> profile in workers && workers[profile] == Entry(r.value, clock)
      ensures r.None? ==> profile !in workers
      ensures profile in old(workers) ==> old(workers[profile].worker) !in live
      ensures exact ==> order == Bounded(Without(old(order), profile), maxResident) + if r.Some? then [profile] else []
    {
      MakeRoom(profile);
      r := Start(profile, spawn);
    }

    /** A worker for the profile: the resident one if it is usable, else a new one in its or the oldest one's place. */
    method Worker(profile: Profile, residence: Residence, spawn: Spawn) returns (r: Option<nat>)
      requires Valid()
      modifies this
      ensures Valid()
      ensures clock == SaturatingSucc(old(clock)) && exact == (old(exact) && old(clock) < U64_MAX)
      ensures exact ==> order == Access(old(order), profile, Usable(residence), spawn.SettledReady?, maxResident)
      ensures profile in old(workers) && Usable(residence) ==>
                r == Some(old(workers[profile].worker)) && live == old(live) && workers.Keys == old(workers.Keys)
      ensures !(profile in old(workers) && Usable(residence)) ==>
                && r == (if spawn == SettledReady then Some(old(spawned)) else None)
                && (profile in old(workers) ==> old(workers[profile].worker) !in live)
      ensures r.Some? ==> profile in workers && workers[profile] == Entry(r.value, clock)
      ensures r.None? ==> profile !in workers
    {
      Tick();
      var usable := Probe(residence);
      if profile in workers && usable {
        var worker := workers[profile].worker;
        Touch(profile);
        return Some(worker);
      }
      r := Replace(profile, spawn);
    }

    method Capture(request: Request) returns (status: Status)
      requires Valid() && request.Capture?
      modifies this
      ensures Valid() && (exact ==> old(exact))
      ensures exact ==> (order, status) == Answer(old(order), request, maxResident)
      ensures status.Fine? ==> request.profile in workers
      ensures !request.wellFormed ==> status == Invalid && workers == old(workers) && live == old(live)
      ensures request.wellFormed && !HasWorker(request, old(workers)) ==> status == Unavailable && request.profile !in workers
      ensures request.wellFormed && HasWorker(request, old(workers)) ==>
                Concludes(request.outcome, status, request.profile in workers)
      ensures request.wellFormed && request.profile in old(workers) && request.profile !in workers ==>
                old(workers[request.profile].worker) !in live
    {
      if !request.wellFormed {
        return Invalid;
      }
      status := CaptureWellFormed(request);
    }

    method CaptureWellFormed(request: Request) returns (status: Status)
      requires Valid() && request.Capture? && request.wellFormed
      modifies this
      ensures Valid() && (exact ==> old(exact))
      ensures exact ==> (order, status) == Answer(old(order), request, maxResident)
      ensures !HasWorker(request, old(workers)) ==> status == Unavailable && request.profile !in workers
      ensures HasWorker(request, old(workers)) ==> Concludes(request.outcome, status, request.profile in workers)
      ensures request.profile in old(workers) && request.profile !in workers ==> old(workers[request.profile].worker) !in live
    {
      assert request.profile in workers <==> request.profile in order;
      var worker := Worker(request.profile, request.residence, request.spawn);
      if worker.None? {
        return Unavailable;
      }
      status := Conclude(request.profile, request.outcome);
    }

    /** What becomes of the worker and of the request once the page was captured, or was not. */
    method Conclude(profile: Profile, outcome: Outcome) returns (status: Status)
      requires Valid() && profile in workers
      modifies this`workers, this`order, this`live
      ensures Valid() && (order, status) == Concluded(old(order), profile, outcome)
      ensures workers.Keys == if outcome.NavigationFailed? || outcome.CaptureFailed? then old(workers.Keys) - {profile}
                              else old(workers.Keys)
      ensures live == if outcome.NavigationFailed? || outcome.CaptureFailed? then old(live) - {old(workers[profile].worker)}
                      else old(live)
    {
      match outcome {
        case NavigationFailed =>
          RemoveWorker(profile);
          status := Failed;
        case CaptureFailed =>
          RemoveWorker(profile);
          status := Failed;
        case PolicyMismatch => status := Failed;
        case Unsendable => status := TooLarge;
        case Captured => status := Fine;
      }
    }

    method Respond(request: Request) returns (status: Status)
      requires Valid()
      modifies this
      ensures Valid() && (exact ==> old(exact))
      ensures exact ==> (order, status) == Answer(old(order), request, maxResident)
      ensures request.Health? || request.Stop? ==> status == Fine && workers == old(workers) && live == old(live)
      ensures request.BadFields? ==> status == Invalid && workers == old(workers) && live == old(live)
    {
      match request {
        case BadFields => status := Invalid;
        case Health => status := Fine;
        case Stop => status := Fine;
        case Capture(_, _, _, _, _) => status := Capture(request);
      }
    }

    /** Serves one connection; however it ends, every browser is gone afterwards. */
    method RunServer(inbound: seq<Inbound>) returns (statuses: seq<Status>, clean: bool)
      requires Valid()
      modifies this
      ensures Valid() && workers == map[] && live == {}
      ensures exact ==> (statuses, clean) == Served(old(order), inbound, maxResident)
    {
      statuses, clean := ServeConnection(inbound);
      ShutdownAll();
    }

    method ServeConnection(inbound: seq<Inbound>) returns (statuses: seq<Status>, clean: bool)
      requires Valid()
      modifies this
      ensures Valid() && (exact ==> old(exact))
      ensures exact ==> (statuses, clean) == Served(old(order), inbound, maxResident)
    {
      statuses := [];
      ghost var goal := Served(order, inbound, maxResident);
      ServedWhole(order, inbound, maxResident);
      var i := 0;
      while i < |inbound|
        invariant 0 <= i <= |inbound| && Valid() && (exact ==> old(exact))
        invariant exact ==> Later(statuses, Served(order, inbound[i..], maxResident)) == goal
      {
        ServedEnd(statuses, order, inbound, i, maxResident);
        match inbound[i] {
          case EndOfStream => return statuses, true;
          case ReadFailure => return statuses, false;
          case BrokenFrame(delivered) =>
            if !delivered {
              return statuses, false;
            }
            return statuses + [Malformed], true;
          case Frame(request, delivered) =>
            ghost var here := order;
            var status := Respond(request);
            if !delivered {
              return statuses, false;
            }
            ServedStep(statuses, here, inbound, i, maxResident);
            statuses := statuses + [status];
            if request.Stop? {
              return statuses, true;
            }
        }
        i := i + 1;
      }
      ServedAll(statuses, order, inbound, maxResident);
      clean := true;
    }

    /** Shuts every resident worker down: afterwards no browser is alive. */
    method ShutdownAll()
      requires Valid()
      modifies this
      ensures Valid() && workers == map[] && order == [] && live == {}
      ensures exact == old(exact) && clock == old(clock)
    {
      var drained := workers;
      workers, order := map[], [];
      var rest := drained.Keys;
      while rest != {}
        invariant rest <= drained.Keys && workers == map[] && order == [] && clock == old(clock) && exact == old(exact)
        invariant spawned == old(spawned) && maxResident >= 1
        invariant |live| == |rest| && forall p :: p in rest ==> drained[p].worker in live
        decreases rest
      {
        var p :| p in rest;
        rest := rest - {p};
        live := live - {drained[p].worker};
      }
    }
  }

  lemma EvictedByUse(workers: map<Profile, Entry>, fewer: map<Profile, Entry>, order: seq<Profile>, rest: seq<Profile>,
                     clock: nat, limit: nat)
    requires Recorded(order, workers) && ByUse(order, workers, clock)
    requires Recorded(rest, fewer) && rest == Bounded(order, limit)
    requires forall p :: p in fewer ==> p in workers && fewer[p] == workers[p]
    ensures ByUse(rest, fewer, clock)
  {
  }
}
