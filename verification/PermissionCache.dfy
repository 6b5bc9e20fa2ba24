/**
 * The permission cache as a transition system. Administrators commit a change
 * and then delete the affected cache entries one target at a time; readers
 * that miss load from the tables and store later; entries expire. Any of these
 * steps may come in any order. A reader may load although its key is cached:
 * another reader can fill it after the miss, and a cache that cannot be read
 * counts as a miss.
 *
 * A reader's load and store are two steps of `resolve_tool_permissions`, so a
 * stale load can be stored after the invalidation meant to remove it. The
 * module shows such a run, says exactly which runs stay coherent, and bounds
 * how old a cached answer can get in any run at all.
 */
module PermissionCache {
  import opened Prelude
  import opened Permissions

  /** Seconds an entry lives (`PERM_CACHE_TTL`). */
  const TTL: nat := 30

  datatype Entry = Entry(tags: set<string>, loadedAt: nat, storedAt: nat)

  /** A reader between its load and its store; `overtaken` once a change covering its key commits. */
  datatype Reader = Reader(key: Key, tags: set<string>, loadedAt: nat, overtaken: bool)

  /** A database version and the time it came into force. */
  datatype Version = Version(db: Db, since: nat)

  datatype State = State(
    db: Db,
    cache: map<Key, Entry>,
    pending: seq<set<Target>>,
    readers: seq<Reader>,
    now: nat,
    history: seq<Version>)

  datatype Step =
    | Commit(change: Change)
    | Invalidate(op: nat, target: Target)
    | Lose(op: nat, target: Target)
    | Load(key: Key)
    | Store(reader: nat)
    | Tick(seconds: nat)

  function Init(db: Db): State {
    State(db, map[], [], [], 0, [Version(db, 0)])
  }

  /** `invalidate_user_permissions` and `invalidate_org_permissions`. */
  function Delete(cache: map<Key, Entry>, t: Target): map<Key, Entry> {
    map k | k in cache && !Covers(t, k) :: cache[k]
  }

  function Unexpired(cache: map<Key, Entry>, now: nat): map<Key, Entry> {
    map k | k in cache && now < cache[k].storedAt + TTL :: cache[k]
  }

  function Overtake(readers: seq<Reader>, targets: set<Target>): seq<Reader> {
    seq(|readers|, i requires 0 <= i < |readers| =>
      readers[i].(overtaken := readers[i].overtaken || Covered(targets, readers[i].key)))
  }

  predicate Enabled(s: State, step: Step) {
    match step
    case Commit(change) => Apply(s.db, change).Committed?
    case Invalidate(op, t) => op < |s.pending| && t in s.pending[op]
    case Lose(op, t) => op < |s.pending| && t in s.pending[op]
    case Load(key) => Resolve(s.db, key).Some?
    case Store(i) => i < |s.readers|
    case Tick(_) => true
  }

  function Next(s: State, step: Step): State
    requires Enabled(s, step)
  {
    match step
    case Commit(change) =>
      var Committed(db, targets) := Apply(s.db, change);
      s.(db := db, pending := s.pending + [targets], readers := Overtake(s.readers, targets),
         history := s.history + [Version(db, s.now)])
    case Invalidate(op, t) =>
      s.(cache := Delete(s.cache, t), pending := s.pending[op := s.pending[op] - {t}])
    case Lose(op, t) =>
      s.(pending := s.pending[op := s.pending[op] - {t}])
    case Load(key) =>
      s.(readers := s.readers + [Reader(key, Resolve(s.db, key).value, s.now, false)])
    case Store(i) =>
      var r := s.readers[i];
      s.(cache := s.cache[r.key := Entry(r.tags, r.loadedAt, s.now)],
         readers := s.readers[..i] + s.readers[i + 1..])
    case Tick(seconds) =>
      s.(now := s.now + seconds, cache := Unexpired(s.cache, s.now + seconds))
  }

  /**
   * What can happen next: any change the tables accept, the deletion or the
   * loss of any target outstanding, any load the tables can answer, the store
   * of any reader, and the passing of time.
   */
  lemma StepsPossible(s: State)
    ensures forall change: Change :: Enabled(s, Commit(change)) <==> Apply(s.db, change).Committed?
    ensures forall op: nat, t: Target | op < |s.pending| && t in s.pending[op] ::
              Enabled(s, Invalidate(op, t)) && Enabled(s, Lose(op, t))
    ensures forall key: Key | Resolve(s.db, key).Some? :: Enabled(s, Load(key))
    ensures forall i: nat | i < |s.readers| :: Enabled(s, Store(i))
    ensures forall n: nat :: Enabled(s, Tick(n))
  {}

  /** Exactly which entries a step removes or writes, and which readers and deletions it leaves behind. */
  lemma StepFrame(s: State, step: Step)
    requires Enabled(s, step)
    ensures var s' := Next(s, step);
            match step
            case Commit(change) =>
              && s'.cache == s.cache && s'.pending == s.pending + [Apply(s.db, change).targets]
              && |s'.readers| == |s.readers|
              && forall i | 0 <= i < |s.readers| ::
                   s'.readers[i].overtaken ==
                     (s.readers[i].overtaken || exists t | t in Apply(s.db, change).targets ::
                        t.org == s.readers[i].key.org && (t.OrgTarget? || t.user == s.readers[i].key.user))
            case Invalidate(op, t) =>
              && (forall k :: k in s'.cache <==> k in s.cache && !(t.org == k.org && (t.OrgTarget? || t.user == k.user)))
              && (forall k | k in s'.cache :: s'.cache[k] == s.cache[k])
            case Tick(seconds) =>
              && (forall k :: k in s'.cache <==> k in s.cache && s.now + seconds < s.cache[k].storedAt + 30)
              && (forall k | k in s'.cache :: s'.cache[k] == s.cache[k])
            case Store(i) =>
              s'.cache == s.cache[s.readers[i].key := Entry(s.readers[i].tags, s.readers[i].loadedAt, s.now)]
            case Load(key) =>
              s'.cache == s.cache && s'.readers == s.readers + [Reader(key, Resolve(s.db, key).value, s.now, false)]
            case Lose(_, _) => s'.cache == s.cache
  {
    if step.Commit? {
      var targets := Apply(s.db, step.change).targets;
      forall i | 0 <= i < |s.readers|
        ensures Covered(targets, s.readers[i].key) <==>
                exists t | t in targets :: t.org == s.readers[i].key.org && (t.OrgTarget? || t.user == s.readers[i].key.user)
      {}
    }
  }

  // ------------------------------------------------------------- coherence

  /** Some in-flight operation has yet to delete the entries under this key. */
  ghost predicate Queued(s: State, key: Key) {
    exists op | 0 <= op < |s.pending| :: Covered(s.pending[op], key)
  }

  predicate Exact(s: State, key: Key, tags: set<string>) {
    Resolve(s.db, key) == Some(tags)
  }

  /** Every cached answer is the effective one, or its deletion is still to come. */
  ghost predicate Coherent(s: State) {
    forall k | k in s.cache :: Exact(s, k, s.cache[k].tags) || Queued(s, k)
  }

  /** Some other outstanding deletion would still remove the entries under this key. */
  ghost predicate QueuedElsewhere(s: State, op: nat, t: Target, key: Key) {
    exists i, u | 0 <= i < |s.pending| && u in s.pending[i] :: (i != op || u != t) && Covers(u, key)
  }

  /**
   * The condition on a step: a store must find its loaded answer still current
   * or its key queued, and an invalidation may get lost only if nothing under
   * it needed deleting by this operation.
   */
  ghost predicate StepSafe(s: State, step: Step)
    requires Enabled(s, step)
  {
    match step
    case Store(i) => Exact(s, s.readers[i].key, s.readers[i].tags) || Queued(s, s.readers[i].key)
    case Lose(op, t) =>
      forall k | k in s.cache && Covers(t, k) ::
        Exact(s, k, s.cache[k].tags) || QueuedElsewhere(s, op, t, k)
    case _ => true
  }

  lemma QueueShrinks(s: State, s': State, op: nat, t: Target, key: Key)
    requires op < |s.pending| && s'.pending == s.pending[op := s.pending[op] - {t}]
    requires Queued(s, key) && !Covers(t, key)
    ensures Queued(s', key)
  {
    var i :| 0 <= i < |s.pending| && Covered(s.pending[i], key);
    var u :| u in s.pending[i] && Covers(u, key);
    assert u in s'.pending[i];
  }

  lemma QueueGrows(s: State, change: Change, key: Key)
    requires Enabled(s, Commit(change))
    requires Queued(s, key) || Covered(Apply(s.db, change).targets, key)
    ensures Queued(Next(s, Commit(change)), key)
  {
    var s' := Next(s, Commit(change));
    if Queued(s, key) {
      var i :| 0 <= i < |s.pending| && Covered(s.pending[i], key);
      assert s'.pending[i] == s.pending[i];
    } else {
      assert s'.pending[|s.pending|] == Apply(s.db, change).targets;
    }
  }

  /** Commits keep coherence: whoever they affect is queued. */
  lemma CommitCoherent(s: State, change: Change)
    requires Coherent(s) && Enabled(s, Commit(change))
    ensures Coherent(Next(s, Commit(change)))
  {
    var s' := Next(s, Commit(change));
    forall k | k in s'.cache
      ensures Exact(s', k, s'.cache[k].tags) || Queued(s', k)
    {
      if Queued(s, k) || Covered(Apply(s.db, change).targets, k) {
        QueueGrows(s, change, k);
      } else {
        UncoveredKeysUnchanged(s.db, change, k);
      }
    }
  }

  lemma InvalidateCoherent(s: State, op: nat, t: Target)
    requires Coherent(s) && Enabled(s, Invalidate(op, t))
    ensures Coherent(Next(s, Invalidate(op, t)))
  {
    var s' := Next(s, Invalidate(op, t));
    forall k | k in s'.cache
      ensures Exact(s', k, s'.cache[k].tags) || Queued(s', k)
    {
      if Queued(s, k) {
        QueueShrinks(s, s', op, t, k);
      }
    }
  }

  lemma LoseCoherentExactly(s: State, op: nat, t: Target)
    requires Coherent(s) && Enabled(s, Lose(op, t))
    ensures Coherent(Next(s, Lose(op, t))) <==> StepSafe(s, Lose(op, t))
  {
    var s' := Next(s, Lose(op, t));
    forall k
      ensures Queued(s', k) <==> QueuedElsewhere(s, op, t, k)
    {
      if Queued(s', k) {
        var i :| 0 <= i < |s'.pending| && Covered(s'.pending[i], k);
        var u :| u in s'.pending[i] && Covers(u, k);
        assert u in s.pending[i];
      }
      if QueuedElsewhere(s, op, t, k) {
        var i, u :| 0 <= i < |s.pending| && u in s.pending[i] && (i != op || u != t) && Covers(u, k);
        assert u in s'.pending[i];
      }
    }
    forall k | k in s.cache && !Covers(t, k)
      ensures Exact(s', k, s'.cache[k].tags) || Queued(s', k)
    {
      if Queued(s, k) {
        QueueShrinks(s, s', op, t, k);
      }
    }
  }

  lemma StoreCoherentExactly(s: State, i: nat)
    requires Coherent(s) && Enabled(s, Store(i))
    ensures Coherent(Next(s, Store(i))) <==> StepSafe(s, Store(i))
  {
    var s' := Next(s, Store(i));
    var r := s.readers[i];
    assert forall k :: Queued(s', k) <==> Queued(s, k);
    assert r.key in s'.cache && s'.cache[r.key].tags == r.tags;
    assert Exact(s', r.key, r.tags) <==> Exact(s, r.key, r.tags);
    forall k | k in s'.cache && k != r.key
      ensures Exact(s', k, s'.cache[k].tags) || Queued(s', k)
    {
      assert k in s.cache && (Exact(s, k, s.cache[k].tags) || Queued(s, k));
    }
  }

  /** One step from a coherent state leads to a coherent state exactly when it is safe. */
  lemma StepCoherentExactly(s: State, step: Step)
    requires Coherent(s) && Enabled(s, step)
    ensures Coherent(Next(s, step)) <==> StepSafe(s, step)
  {
    match step
    case Commit(change) => CommitCoherent(s, change);
    case Invalidate(op, t) => InvalidateCoherent(s, op, t);
    case Lose(op, t) => LoseCoherentExactly(s, op, t);
    case Store(i) => StoreCoherentExactly(s, i);
    case Load(_) =>
      assert forall k :: Queued(Next(s, step), k) <==> Queued(s, k);
    case Tick(_) =>
      assert forall k :: Queued(Next(s, step), k) <==> Queued(s, k);
  }

  // ------------------------------------------------------------------ runs

  /** Each step is enabled in the state the ones before it lead to. */
  predicate Runs(s: State, steps: seq<Step>)
    decreases steps
  {
    steps == [] || (Enabled(s, steps[0]) && Runs(Next(s, steps[0]), steps[1..]))
  }

  function Final(s: State, steps: seq<Step>): State
    requires Runs(s, steps)
    decreases steps
  {
    if steps == [] then s else Final(Next(s, steps[0]), steps[1..])
  }

  ghost predicate AlwaysCoherent(s: State, steps: seq<Step>)
    requires Runs(s, steps)
    decreases steps
  {
    Coherent(s) && (steps != [] ==> AlwaysCoherent(Next(s, steps[0]), steps[1..]))
  }

  ghost predicate AlwaysSafe(s: State, steps: seq<Step>)
    requires Runs(s, steps)
    decreases steps
  {
    steps != [] ==> StepSafe(s, steps[0]) && AlwaysSafe(Next(s, steps[0]), steps[1..])
  }

  /** A run stays coherent at every point exactly when each of its steps is safe. */
  lemma {:induction false} RunCoherentExactly(s: State, steps: seq<Step>)
    requires Coherent(s) && Runs(s, steps)
    ensures AlwaysCoherent(s, steps) <==> AlwaysSafe(s, steps)
    decreases steps
  {
    if steps != [] {
      StepCoherentExactly(s, steps[0]);
      if StepSafe(s, steps[0]) {
        RunCoherentExactly(Next(s, steps[0]), steps[1..]);
      } else {
        var s' := Next(s, steps[0]);
        assert !Coherent(s');
      }
    }
  }

  ghost predicate NothingInFlight(s: State) {
    forall op | 0 <= op < |s.pending| :: s.pending[op] == {}
  }

  /** The cache is nothing but current answers. */
  ghost predicate CacheExact(s: State) {
    forall k | k in s.cache :: Exact(s, k, s.cache[k].tags)
  }

  lemma QuiescentIsExact(s: State)
    requires Coherent(s) && NothingInFlight(s)
    ensures CacheExact(s)
  {
    assert forall k :: !Queued(s, k);
  }

  // ---------------------------------------------- a condition on the schedule

  /** A reader no covering change has overtaken still holds the current answer. */
  ghost predicate ReadersFresh(s: State) {
    forall i | 0 <= i < |s.readers| && !s.readers[i].overtaken :: Exact(s, s.readers[i].key, s.readers[i].tags)
  }

  lemma StepKeepsReadersFresh(s: State, step: Step)
    requires ReadersFresh(s) && Enabled(s, step)
    ensures ReadersFresh(Next(s, step))
  {
    if step.Commit? {
      var s' := Next(s, step);
      forall i | 0 <= i < |s'.readers| && !s'.readers[i].overtaken
        ensures Exact(s', s'.readers[i].key, s'.readers[i].tags)
      {
        UncoveredKeysUnchanged(s.db, step.change, s.readers[i].key);
      }
    }
  }

  /**
   * No invalidation is lost, and a reader that a covering change has overtaken
   * stores only while a deletion of its key is still to come.
   */
  ghost predicate Orderly(s: State, steps: seq<Step>)
    requires Runs(s, steps)
    decreases steps
  {
    steps != [] ==>
      && !steps[0].Lose?
      && (steps[0].Store? ==> !s.readers[steps[0].reader].overtaken || Queued(s, s.readers[steps[0].reader].key))
      && Orderly(Next(s, steps[0]), steps[1..])
  }

  /** Such schedules are coherent throughout, and exact whenever nothing is in flight. */
  lemma {:induction false} OrderlyRunsAreCoherent(s: State, steps: seq<Step>)
    requires Coherent(s) && ReadersFresh(s) && Runs(s, steps) && Orderly(s, steps)
    ensures AlwaysCoherent(s, steps) && Coherent(Final(s, steps))
    ensures NothingInFlight(Final(s, steps)) ==> CacheExact(Final(s, steps))
    decreases steps
  {
    if steps == [] {
      if NothingInFlight(s) { QuiescentIsExact(s); }
    } else {
      assert StepSafe(s, steps[0]);
      StepCoherentExactly(s, steps[0]);
      StepKeepsReadersFresh(s, steps[0]);
      OrderlyRunsAreCoherent(Next(s, steps[0]), steps[1..]);
    }
  }

  /** From the start, with an empty cache and nobody at work, such schedules need nothing else. */
  lemma OrderlyFromTheStart(db: Db, steps: seq<Step>)
    requires Runs(Init(db), steps) && Orderly(Init(db), steps)
    ensures AlwaysCoherent(Init(db), steps)
    ensures NothingInFlight(Final(Init(db), steps)) ==> CacheExact(Final(Init(db), steps))
  {
    OrderlyRunsAreCoherent(Init(db), steps);
  }

  /** A load followed at once by its store is always safe: an indivisible fill would be coherent. */
  lemma IndivisibleFillIsCoherent(s: State, key: Key)
    requires Coherent(s) && Enabled(s, Load(key))
    ensures var loaded := Next(s, Load(key));
            Enabled(loaded, Store(|s.readers|)) && Coherent(Next(loaded, Store(|s.readers|)))
  {
    var loaded := Next(s, Load(key));
    StepCoherentExactly(s, Load(key));
    StepCoherentExactly(loaded, Store(|s.readers|));
  }

  const RACE_KEY: Key := Key(1, 7, "web", None)
  const REVOKE: Change := SetPermissions(5, [], None)
  const RACE: seq<Step> := [Load(RACE_KEY), Commit(REVOKE), Invalidate(0, UserTarget(1, 7)), Store(0)]

  /** One user, one group, and one row that grants one permission. */
  function OneGrant(rows: set<Row>): Db {
    Db(map[5 := Group(1, {7})], rows, map[9 := "dns:read"], {7}, {}, map[])
  }

  lemma GrantResolves()
    ensures Resolve(OneGrant({Row(5, 9, None)}), RACE_KEY).Some?
    ensures "dns:read" in Resolve(OneGrant({Row(5, 9, None)}), RACE_KEY).value
    ensures Resolve(OneGrant({}), RACE_KEY) != Resolve(OneGrant({Row(5, 9, None)}), RACE_KEY)
  {
    var db := OneGrant({Row(5, 9, None)});
    assert 5 in GroupsOf(db, RACE_KEY) && 5 in GroupsOf(OneGrant({}), RACE_KEY);
    assert ActiveProfiles(db, RACE_KEY) == {} && ActiveProfiles(OneGrant({}), RACE_KEY) == {};
    assert Row(5, 9, None) in db.rows && "dns:read" in Granted(db, RACE_KEY);
    assert Granted(OneGrant({}), RACE_KEY) == {};
    assert "dns:read" !in Resolve(OneGrant({}), RACE_KEY).value;
  }

  lemma RevokeCommits()
    ensures Apply(OneGrant({Row(5, 9, None)}), REVOKE) == Committed(OneGrant({}), {UserTarget(1, 7)})
  {
    var db := OneGrant({Row(5, 9, None)});
    assert db.rows - ScopeRows(db, 5, None) + NewRows(5, [], None) == {};
    assert UserTargets(1, {7}) == {UserTarget(1, 7)};
  }

  /**
   * The race. A reader loads, a change commits and invalidates, and the reader
   * stores: nothing is in flight, yet the cache keeps granting what was revoked.
   */
  lemma StoreAfterInvalidationIsStale()
    ensures var s := Init(OneGrant({Row(5, 9, None)}));
            && Runs(s, RACE) && NothingInFlight(Final(s, RACE))
            && !CacheExact(Final(s, RACE)) && !Coherent(Final(s, RACE))
  {
    GrantResolves();
    RevokeCommits();
    var s0 := Init(OneGrant({Row(5, 9, None)}));
    var s1 := Next(s0, RACE[0]);
    var s2 := Next(s1, RACE[1]);
    assert s2.db == OneGrant({}) && s2.pending == [{UserTarget(1, 7)}];
    var s3 := Next(s2, RACE[2]);
    assert s3.pending[0] == {};
    var s4 := Next(s3, RACE[3]);
    assert !Exact(s4, RACE_KEY, s4.cache[RACE_KEY].tags) && NothingInFlight(s4) && !Queued(s4, RACE_KEY);
    FourSteps(s0, RACE);
  }

  lemma FourSteps(s: State, steps: seq<Step>)
    requires |steps| == 4 && Enabled(s, steps[0])
    requires var s1 := Next(s, steps[0]);
             Enabled(s1, steps[1]) && var s2 := Next(s1, steps[1]);
             Enabled(s2, steps[2]) && Enabled(Next(s2, steps[2]), steps[3])
    ensures Runs(s, steps)
    ensures Final(s, steps) == Next(Next(Next(Next(s, steps[0]), steps[1]), steps[2]), steps[3])
  {
    var s1 := Next(s, steps[0]);
    var s2 := Next(s1, steps[1]);
    var s3 := Next(s2, steps[2]);
    var s4 := Next(s3, steps[3]);
    var t := steps[1..];
    var u := t[1..];
    var v := u[1..];
    assert v[1..] == [] && Runs(s4, v[1..]);
    assert v[0] == steps[3] && Runs(s3, v) && Final(s3, v) == s4;
    assert u[0] == steps[2] && Runs(s2, u) && Final(s2, u) == s4;
    assert t[0] == steps[1] && Runs(s1, t) && Final(s1, t) == s4;
  }

  // ---------------------------------------------------- how stale it can get

  /** At `time`, version `i` of the tables was in force and gave `tags`. */
  predicate WasExact(history: seq<Version>, i: nat, key: Key, tags: set<string>, time: nat) {
    && i < |history|
    && Resolve(history[i].db, key) == Some(tags)
    && (i + 1 < |history| ==> time <= history[i + 1].since)
  }

  ghost predicate OnceExact(history: seq<Version>, key: Key, tags: set<string>, time: nat) {
    exists i: nat :: WasExact(history, i, key, tags, time)
  }

  /** What holds in every run: each answer was right when it was loaded, and entries are young. */
  ghost predicate Traceable(s: State) {
    && s.history != [] && s.history[|s.history| - 1].db == s.db
    && (forall i | 0 <= i < |s.readers| ::
          s.readers[i].loadedAt <= s.now
          && OnceExact(s.history, s.readers[i].key, s.readers[i].tags, s.readers[i].loadedAt))
    && (forall k | k in s.cache ::
          s.cache[k].loadedAt <= s.cache[k].storedAt <= s.now < s.cache[k].storedAt + TTL
          && OnceExact(s.history, k, s.cache[k].tags, s.cache[k].loadedAt))
  }

  lemma HistoryGrows(history: seq<Version>, v: Version, key: Key, tags: set<string>, time: nat)
    requires OnceExact(history, key, tags, time) && time <= v.since
    ensures OnceExact(history + [v], key, tags, time)
  {
    var i: nat :| WasExact(history, i, key, tags, time);
    assert WasExact(history + [v], i, key, tags, time);
  }

  lemma StepTraceable(s: State, step: Step)
    requires Traceable(s) && Enabled(s, step)
    ensures Traceable(Next(s, step))
  {
    var s' := Next(s, step);
    if step.Commit? {
      var v := Version(s'.db, s.now);
      forall i | 0 <= i < |s.readers|
        ensures OnceExact(s'.history, s.readers[i].key, s.readers[i].tags, s.readers[i].loadedAt)
      {
        HistoryGrows(s.history, v, s.readers[i].key, s.readers[i].tags, s.readers[i].loadedAt);
      }
      forall k | k in s.cache
        ensures OnceExact(s'.history, k, s.cache[k].tags, s.cache[k].loadedAt)
      {
        HistoryGrows(s.history, v, k, s.cache[k].tags, s.cache[k].loadedAt);
      }
    } else if step.Load? {
      assert WasExact(s.history, |s.history| - 1, step.key, Resolve(s.db, step.key).value, s.now);
    }
  }

  /** Every store of the run comes at most `window` seconds after its load. */
  predicate Prompt(s: State, steps: seq<Step>, window: nat)
    requires Runs(s, steps)
    decreases steps
  {
    steps != [] ==>
      && (steps[0].Store? ==> s.now <= s.readers[steps[0].reader].loadedAt + window)
      && Prompt(Next(s, steps[0]), steps[1..], window)
  }

  ghost predicate LoadedWithin(s: State, window: nat) {
    forall k | k in s.cache :: s.cache[k].storedAt <= s.cache[k].loadedAt + window
  }

  lemma {:induction false} RunTraceable(s: State, steps: seq<Step>, window: nat)
    requires Traceable(s) && LoadedWithin(s, window) && Runs(s, steps) && Prompt(s, steps, window)
    ensures Traceable(Final(s, steps)) && LoadedWithin(Final(s, steps), window)
    decreases steps
  {
    if steps != [] {
      StepTraceable(s, steps[0]);
      RunTraceable(Next(s, steps[0]), steps[1..], window);
    }
  }

  /**
   * In every run, even one that loses invalidations, an answer in the cache is
   * the one of a version that was still in force `30 + window` seconds ago:
   * a permission revoked earlier than that is no longer granted by the cache.
   */
  lemma StalenessIsBounded(db: Db, steps: seq<Step>, window: nat, key: Key)
    requires Runs(Init(db), steps) && Prompt(Init(db), steps, window)
    requires key in Final(Init(db), steps).cache
    ensures var s := Final(Init(db), steps);
            exists i :: 0 <= i < |s.history| && Resolve(s.history[i].db, key) == Some(s.cache[key].tags)
              && (i + 1 < |s.history| ==> s.now < s.history[i + 1].since + 30 + window)
  {
    RunTraceable(Init(db), steps, window);
    var s := Final(Init(db), steps);
    var i: nat :| WasExact(s.history, i, key, s.cache[key].tags, s.cache[key].loadedAt);
    assert 0 <= i < |s.history| && Resolve(s.history[i].db, key) == Some(s.cache[key].tags);
  }
}
