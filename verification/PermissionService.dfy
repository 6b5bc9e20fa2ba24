/**
 * The administrative calls themselves: each verifies its object exists, changes
 * the tables, commits, and then deletes the affected cache entries in a loop.
 * A call run on its own leaves an exact cache exact.
 */
module PermissionService {
  import opened Prelude
  import opened Permissions
  import opened PermissionCache

  function DeleteAll(cache: map<Key, Entry>, targets: set<Target>): map<Key, Entry> {
    map k | k in cache && !Covered(targets, k) :: cache[k]
  }

  /** The cache holds current answers only. */
  ghost predicate ExactFor(db: Db, cache: map<Key, Entry>) {
    forall k | k in cache :: Resolve(db, k) == Some(cache[k].tags)
  }

  /** Committing and then deleting every target keeps an exact cache exact. */
  lemma CallKeepsCacheExact(db: Db, cache: map<Key, Entry>, change: Change)
    requires ExactFor(db, cache) && Apply(db, change).Committed?
    ensures ExactFor(Apply(db, change).db, DeleteAll(cache, Apply(db, change).targets))
  {
    forall k | k in DeleteAll(cache, Apply(db, change).targets)
      ensures Resolve(Apply(db, change).db, k) == Some(cache[k].tags)
    {
      UncoveredKeysUnchanged(db, change, k);
    }
  }

  /** Tables and cache after a call that is run on its own. */
  ghost predicate Performed(db: Db, cache: map<Key, Entry>, change: Change, db': Db, cache': map<Key, Entry>) {
    match Apply(db, change)
    case Refused => db' == db && cache' == cache
    case Committed(after, targets) => db' == after && cache' == DeleteAll(cache, targets)
  }

  /** Exactly the entries of these users in this org are gone. */
  ghost predicate UserEntriesDeleted(before: map<Key, Entry>, after: map<Key, Entry>, org: Id, users: set<Id>) {
    && (forall k :: k in after <==> k in before && !(k.org == org && k.user in users))
    && (forall k | k in after :: after[k] == before[k])
  }

  ghost predicate OrgEntriesDeleted(before: map<Key, Entry>, after: map<Key, Entry>, org: Id) {
    && (forall k :: k in after <==> k in before && k.org != org)
    && (forall k | k in after :: after[k] == before[k])
  }

  lemma UsersDeleted(cache: map<Key, Entry>, org: Id, users: set<Id>)
    ensures UserEntriesDeleted(cache, DeleteAll(cache, UserTargets(org, users)), org, users)
  {
    forall k
      ensures Covered(UserTargets(org, users), k) <==> k.org == org && k.user in users
    {
      UserTargetCovers(org, users, k);
    }
  }

  lemma OrgDeleted(cache: map<Key, Entry>, org: Id)
    ensures OrgEntriesDeleted(cache, DeleteAll(cache, {OrgTarget(org)}), org)
  {
    forall k
      ensures Covered({OrgTarget(org)}, k) <==> k.org == org
    {
      assert OrgTarget(org) in {OrgTarget(org)};
    }
  }

  /** What `create_interface_profile` stores. */
  function NewProfile(org: Id, dept: Option<Id>, iface: string, mode: string): Profile {
    Profile(org, ProfileFields(dept, iface, true, mode, {}))
  }

  class Services {
    var db: Db
    var cache: map<Key, Entry>

    constructor (db: Db)
      ensures this.db == db && cache == map[]
    {
      this.db, cache := db, map[];
    }

    /** The invalidation loop that ends every call. */
    method InvalidateEach(targets: set<Target>)
      modifies this`cache
      ensures cache == DeleteAll(old(cache), targets)
    {
      var left := targets;
      while left != {}
        invariant left <= targets
        invariant cache == DeleteAll(old(cache), targets - left)
        decreases left
      {
        var t :| t in left;
        cache := Delete(cache, t);
        left := left - {t};
        assert forall k :: Covered(targets - left, k) <==> Covered(targets - left - {t}, k) || Covers(t, k);
      }
      assert targets - {} == targets;
    }

    method SetGroupPermissions(group: Id, permissions: seq<Id>, dept: Option<Id>) returns (r: Result<bool>)
      modifies this
      ensures Performed(old(db), old(cache), SetPermissions(group, permissions, dept), db, cache)
      ensures r == Ok(false) <==> group !in old(db).groups
      ensures r == Ok(true) <==>
                && group in old(db).groups
                && (forall i, j | 0 <= i < j < |permissions| :: permissions[i] != permissions[j])
                && (forall p | p in permissions :: p in old(db).tags)
                && (permissions != [] && dept.Some? ==> dept.value in old(db).depts)
      ensures r != Ok(true) ==> db == old(db) && cache == old(cache)
      ensures r == Ok(true) ==>
                && db == old(db).(rows := db.rows)
                && (forall x: Row :: x in db.rows <==>
                      if x.group == group && x.dept == dept then x.permission in permissions else x in old(db).rows)
      ensures r == Ok(true) ==>
                var g := old(db).groups[group];
                UserEntriesDeleted(old(cache), cache, g.org, g.members)
      ensures old(ExactFor(db, cache)) ==> ExactFor(db, cache)
    {
      if group !in db.groups {
        return Ok(false);
      }
      var org, affected := db.groups[group].org, db.groups[group].members;
      if !Insertable(db, permissions, dept) {
        return Err("IntegrityError");
      }
      ghost var change := SetPermissions(group, permissions, dept);
      ghost var before, entries := db, cache;
      UsersDeleted(cache, org, affected);
      db := db.(rows := db.rows - ScopeRows(db, group, dept) + NewRows(group, permissions, dept));
      InvalidateEach(UserTargets(org, affected));
      if ExactFor(before, entries) { CallKeepsCacheExact(before, entries, change); }
      r := Ok(true);
    }

    method SetGroupUsers(group: Id, userIds: seq<Id>) returns (found: bool)
      modifies this
      ensures Performed(old(db), old(cache), SetUsers(group, userIds), db, cache)
      ensures found == (group in old(db).groups)
      ensures !found ==> db == old(db) && cache == old(cache)
      ensures found ==>
                && group in db.groups && db.groups[group].org == old(db).groups[group].org
                && db.groups[group].members == (set u | u in userIds && u in old(db).users)
                && db == old(db).(groups := old(db).groups[group := db.groups[group]])
      ensures found ==>
                var g := old(db).groups[group];
                UserEntriesDeleted(old(cache), cache, g.org, g.members + set u | u in userIds)
      ensures old(ExactFor(db, cache)) ==> ExactFor(db, cache)
    {
      if group !in db.groups {
        return false;
      }
      ghost var before, entries := db, cache;
      var grp := db.groups[group];
      var wanted := set u | u in userIds;
      UsersDeleted(cache, grp.org, grp.members + wanted);
      db := db.(groups := db.groups[group := grp.(members := wanted * db.users)]);
      InvalidateEach(UserTargets(grp.org, grp.members + wanted));
      if ExactFor(before, entries) { CallKeepsCacheExact(before, entries, SetUsers(group, userIds)); }
      found := true;
    }

    method RemoveGroup(group: Id) returns (found: bool)
      modifies this
      ensures Performed(old(db), old(cache), DeleteGroup(group), db, cache)
      ensures found == (group in old(db).groups)
      ensures group !in db.groups && (!found ==> db == old(db) && cache == old(cache))
      ensures found ==>
                && db == old(db).(groups := old(db).groups - {group}, rows := db.rows)
                && (forall x: Row :: x in db.rows <==> x in old(db).rows && x.group != group)
      ensures found ==>
                var g := old(db).groups[group];
                UserEntriesDeleted(old(cache), cache, g.org, g.members)
      ensures old(ExactFor(db, cache)) ==> ExactFor(db, cache)
    {
      if group !in db.groups {
        return false;
      }
      ghost var before, entries := db, cache;
      var org, affected := db.groups[group].org, db.groups[group].members;
      UsersDeleted(cache, org, affected);
      db := db.(groups := db.groups - {group}, rows := set r | r in db.rows && r.group != group);
      InvalidateEach(UserTargets(org, affected));
      if ExactFor(before, entries) { CallKeepsCacheExact(before, entries, DeleteGroup(group)); }
      found := true;
    }

    /**
     * A new interface profile is active and lists no tools. Creating, updating
     * and deleting profiles end in an org-wide invalidation.
     */
    method AddInterfaceProfile(id: Id, org: Id, dept: Option<Id>, iface: string, mode: string) returns (stored: bool)
      requires id !in db.profiles
      modifies this
      ensures Performed(old(db), old(cache), CreateProfile(id, NewProfile(org, dept, iface, mode)), db, cache)
      ensures stored <==> dept.None? || forall q | q in old(db).profiles ::
                !(old(db).profiles[q].org == org && old(db).profiles[q].fields.dept == dept
                  && old(db).profiles[q].fields.iface == iface)
      ensures !stored ==> db == old(db) && cache == old(cache)
      ensures stored ==>
                && db == old(db).(profiles := old(db).profiles[id := Profile(org, ProfileFields(dept, iface, true, mode, {}))])
                && OrgEntriesDeleted(old(cache), cache, org)
      ensures old(ExactFor(db, cache)) ==> ExactFor(db, cache)
    {
      var profile := NewProfile(org, dept, iface, mode);
      if ProfileClash(db, id, profile) {
        return false;
      }
      ghost var before, entries := db, cache;
      OrgDeleted(cache, org);
      db := db.(profiles := db.profiles[id := profile]);
      InvalidateEach({OrgTarget(org)});
      if ExactFor(before, entries) { CallKeepsCacheExact(before, entries, CreateProfile(id, profile)); }
      stored := true;
    }

    method ChangeInterfaceProfile(id: Id, fields: ProfileFields) returns (r: Result<Option<Profile>>)
      modifies this
      ensures Performed(old(db), old(cache), UpdateProfile(id, fields), db, cache)
      ensures r == Ok(None) <==> id !in old(db).profiles
      ensures id !in old(db).profiles ==> db == old(db) && cache == old(cache)
      ensures r.Err? <==>
                && id in old(db).profiles && fields.dept.Some?
                && exists q | q in old(db).profiles :: q != id && old(db).profiles[q].org == old(db).profiles[id].org
                     && old(db).profiles[q].fields.dept == fields.dept && old(db).profiles[q].fields.iface == fields.iface
      ensures r.Err? ==> db == old(db) && cache == old(cache)
      ensures r.Ok? && r.value.Some? ==>
                && r.value.value == Profile(old(db).profiles[id].org, fields)
                && db == old(db).(profiles := old(db).profiles[id := r.value.value])
                && OrgEntriesDeleted(old(cache), cache, old(db).profiles[id].org)
      ensures old(ExactFor(db, cache)) ==> ExactFor(db, cache)
    {
      if id !in db.profiles {
        NothingToDelete(cache);
        return Ok(None);
      }
      var profile := db.profiles[id].(fields := fields);
      if ProfileClash(db, id, profile) {
        return Err("IntegrityError");
      }
      ghost var before, entries := db, cache;
      OrgDeleted(cache, profile.org);
      db := db.(profiles := db.profiles[id := profile]);
      InvalidateEach({OrgTarget(profile.org)});
      if ExactFor(before, entries) { CallKeepsCacheExact(before, entries, UpdateProfile(id, fields)); }
      r := Ok(Some(profile));
    }

    method RemoveInterfaceProfile(id: Id) returns (found: bool)
      modifies this
      ensures Performed(old(db), old(cache), DeleteProfile(id), db, cache)
      ensures found == (id in old(db).profiles) && id !in db.profiles
      ensures !found ==> db == old(db) && cache == old(cache)
      ensures found ==>
                && db == old(db).(profiles := old(db).profiles - {id})
                && OrgEntriesDeleted(old(cache), cache, old(db).profiles[id].org)
      ensures old(ExactFor(db, cache)) ==> ExactFor(db, cache)
    {
      if id !in db.profiles {
        return false;
      }
      ghost var before, entries := db, cache;
      var org := db.profiles[id].org;
      OrgDeleted(cache, org);
      db := db.(profiles := db.profiles - {id});
      InvalidateEach({OrgTarget(org)});
      if ExactFor(before, entries) { CallKeepsCacheExact(before, entries, DeleteProfile(id)); }
      found := true;
    }

    /** A reader with nothing running beside it: the cached answer, or a fill. */
    method ResolveToolPermissions(key: Key, now: nat) returns (r: Option<set<string>>)
      modifies this`cache
      ensures key in old(cache) ==> r == Some(old(cache)[key].tags) && cache == old(cache)
      ensures key !in old(cache) ==> r == Resolve(db, key)
      ensures r.Some? ==> key in cache && cache[key].tags == r.value
      ensures cache == old(cache) || (r.Some? && cache == old(cache)[key := Entry(r.value, now, now)])
      ensures old(ExactFor(db, cache)) ==> ExactFor(db, cache) && r == Resolve(db, key)
    {
      if key in cache {
        return Some(cache[key].tags);
      }
      r := Resolve(db, key);
      if r.Some? {
        cache := cache[key := Entry(r.value, now, now)];
      }
    }
  }

  lemma NothingToDelete(cache: map<Key, Entry>)
    ensures DeleteAll(cache, {}) == cache
  {
    assert forall k :: !Covered({}, k);
  }

  function InvalidateSteps(op: nat, order: seq<Target>): seq<Step> {
    if order == [] then [] else [Invalidate(op, order[0])] + InvalidateSteps(op, order[1..])
  }

  /** An invalidation loop that nothing interrupts, as a run of the transition system. */
  lemma {:induction false} UninterruptedLoop(s: State, op: nat, order: seq<Target>)
    requires op < |s.pending| && s.pending[op] == (set t | t in order) && Distinct(order)
    ensures Runs(s, InvalidateSteps(op, order))
    ensures Final(s, InvalidateSteps(op, order))
         == s.(cache := DeleteAll(s.cache, s.pending[op]), pending := s.pending[op := {}])
    decreases order
  {
    if order == [] {
      NothingToDelete(s.cache);
      assert s.pending[op] == {};
      assert s.pending[op := {}] == s.pending;
    } else {
      var t, rest := order[0], order[1..];
      assert Enabled(s, Invalidate(op, t));
      var s' := Next(s, Invalidate(op, t));
      assert order == [t] + rest;
      assert s'.pending[op] == (set u | u in rest);
      UninterruptedLoop(s', op, rest);
      assert InvalidateSteps(op, order)[1..] == InvalidateSteps(op, rest);
      assert forall k :: Covered(s.pending[op], k) <==> Covers(t, k) || Covered(s'.pending[op], k);
      assert DeleteAll(s'.cache, s'.pending[op]) == DeleteAll(s.cache, s.pending[op]);
    }
  }

  /**
   * The calls of the class are the runs of the transition system in which
   * nothing comes between a commit and its invalidations, in any order of those.
   */
  lemma CallIsUninterruptedRun(s: State, change: Change, order: seq<Target>)
    requires Enabled(s, Commit(change)) && Distinct(order)
    requires Apply(s.db, change).targets == set t | t in order
    ensures var steps := [Commit(change)] + InvalidateSteps(|s.pending|, order);
            && Runs(s, steps)
            && Performed(s.db, s.cache, change, Final(s, steps).db, Final(s, steps).cache)
  {
    var steps := [Commit(change)] + InvalidateSteps(|s.pending|, order);
    var s' := Next(s, Commit(change));
    UninterruptedLoop(s', |s.pending|, order);
    assert steps[1..] == InvalidateSteps(|s.pending|, order);
  }
}
