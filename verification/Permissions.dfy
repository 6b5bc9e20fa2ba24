/**
 * Tool permissions: the tables behind them, how a user's effective permissions
 * are resolved (`src/mcp_server/permissions.py`), and what each administrative
 * change does to the tables and which cache entries it then invalidates
 * (`admin_console/services/group_service.py`, `tool_service.py`).
 */
module Permissions {
  import opened Prelude

  type Id = nat

  datatype Group = Group(org: Id, members: set<Id>)

  /** A row of the association table; no department means every department. */
  datatype Row = Row(group: Id, permission: Id, dept: Option<Id>)

  datatype ProfileFields = ProfileFields(
    dept: Option<Id>, iface: string, active: bool, mode: string, tools: set<string>)

  datatype Profile = Profile(org: Id, fields: ProfileFields)

  /** `tags` is the permission table; `users` and `depts` are the rows others refer to. */
  datatype Db = Db(
    groups: map<Id, Group>,
    rows: set<Row>,
    tags: map<Id, string>,
    users: set<Id>,
    depts: set<Id>,
    profiles: map<Id, Profile>)

  /** What a cache entry is stored under. */
  datatype Key = Key(org: Id, user: Id, iface: string, dept: Option<Id>)

  // ---------------------------------------------------- effective permissions

  function GroupsOf(db: Db, key: Key): set<Id> {
    set g | g in db.groups && db.groups[g].org == key.org && key.user in db.groups[g].members
  }

  /** Tags granted by global rows and by rows of the requested department. */
  function Granted(db: Db, key: Key): set<string> {
    set r | r in db.rows && r.group in GroupsOf(db, key)
            && (r.dept.None? || r.dept == key.dept) && r.permission in db.tags :: db.tags[r.permission]
  }

  function ActiveProfiles(db: Db, key: Key): set<Id> {
    set p | p in db.profiles && db.profiles[p].org == key.org
            && db.profiles[p].fields.iface == key.iface && db.profiles[p].fields.active
  }

  predicate Passes(fields: ProfileFields, tag: string) {
    if fields.mode == "allowlist" then tag in fields.tools else tag !in fields.tools
  }

  /**
   * The effective permissions. None stands for the error of the profile query,
   * which demands at most one active profile for an interface of an org.
   */
  function Resolve(db: Db, key: Key): Option<set<string>> {
    if GroupsOf(db, key) == {} then Some({})
    else if |ActiveProfiles(db, key)| > 1 then None
    else Some(set t | t in Granted(db, key)
                      && forall p | p in ActiveProfiles(db, key) :: Passes(db.profiles[p].fields, t))
  }

  // ------------------------------------------------------ administrative changes

  datatype Change =
    | CreateGroup(org: Id, id: Id)
    | DeleteGroup(group: Id)
    | SetPermissions(group: Id, permissions: seq<Id>, dept: Option<Id>)
    | SetUsers(group: Id, userIds: seq<Id>)
    | CreateProfile(id: Id, profile: Profile)
    | UpdateProfile(id: Id, fields: ProfileFields)
    | DeleteProfile(id: Id)

  /** A deletion from the cache: all entries of a user in an org, or of an org. */
  datatype Target = UserTarget(org: Id, user: Id) | OrgTarget(org: Id)

  predicate Covers(t: Target, key: Key) {
    t.org == key.org && (t.UserTarget? ==> t.user == key.user)
  }

  /** A change is refused before its commit, or commits and then invalidates `targets`. */
  datatype Outcome = Refused | Committed(db: Db, targets: set<Target>)

  function UserTargets(org: Id, users: set<Id>): set<Target> {
    set u | u in users :: UserTarget(org, u)
  }

  /** The rows of one scope of a group: a department, or the global rows. */
  function ScopeRows(db: Db, group: Id, dept: Option<Id>): set<Row> {
    set r | r in db.rows && r.group == group && r.dept == dept
  }

  function NewRows(group: Id, permissions: seq<Id>, dept: Option<Id>): set<Row> {
    set p | p in permissions :: Row(group, p, dept)
  }

  /** Unique indexes and foreign keys of the association table accept the insert. */
  predicate Insertable(db: Db, permissions: seq<Id>, dept: Option<Id>) {
    && (forall i, j | 0 <= i < j < |permissions| :: permissions[i] != permissions[j])
    && (forall p | p in permissions :: p in db.tags)
    && (permissions != [] && dept.Some? ==> dept.value in db.depts)
  }

  /** The unique index on (org, department, interface); NULL departments never clash. */
  predicate ProfileClash(db: Db, id: Id, profile: Profile) {
    profile.fields.dept.Some? &&
    exists q | q in db.profiles :: q != id && db.profiles[q].org == profile.org
      && db.profiles[q].fields.dept == profile.fields.dept && db.profiles[q].fields.iface == profile.fields.iface
  }

  function Apply(db: Db, change: Change): Outcome {
    match change
    case CreateGroup(org, id) =>
      if id in db.groups then Refused
      else Committed(db.(groups := db.groups[id := Group(org, {})]), {})
    case DeleteGroup(g) =>
      if g !in db.groups then Refused
      else Committed(
        db.(groups := db.groups - {g}, rows := set r | r in db.rows && r.group != g),
        UserTargets(db.groups[g].org, db.groups[g].members))
    case SetPermissions(g, permissions, dept) =>
      if g !in db.groups || !Insertable(db, permissions, dept) then Refused
      else Committed(
        db.(rows := db.rows - ScopeRows(db, g, dept) + NewRows(g, permissions, dept)),
        UserTargets(db.groups[g].org, db.groups[g].members))
    case SetUsers(g, userIds) =>
      if g !in db.groups then Refused
      else
        var grp := db.groups[g];
        var wanted := set u | u in userIds;
        Committed(
          db.(groups := db.groups[g := grp.(members := wanted * db.users)]),
          UserTargets(grp.org, grp.members + wanted))
    case CreateProfile(id, profile) =>
      if id in db.profiles || ProfileClash(db, id, profile) then Refused
      else Committed(db.(profiles := db.profiles[id := profile]), {OrgTarget(profile.org)})
    case UpdateProfile(id, fields) =>
      if id !in db.profiles then Committed(db, {})
      else
        var profile := db.profiles[id].(fields := fields);
        if ProfileClash(db, id, profile) then Refused
        else Committed(db.(profiles := db.profiles[id := profile]), {OrgTarget(profile.org)})
    case DeleteProfile(id) =>
      if id !in db.profiles then Refused
      else Committed(db.(profiles := db.profiles - {id}), {OrgTarget(db.profiles[id].org)})
  }

  // ---------------------------------------------------------------- framing

  predicate Covered(targets: set<Target>, key: Key) {
    exists t | t in targets :: Covers(t, key)
  }

  /** Two databases that agree on what resolution looks at resolve alike. */
  lemma ResolveAgrees(a: Db, b: Db, key: Key)
    requires a.tags == b.tags && GroupsOf(a, key) == GroupsOf(b, key)
    requires forall r: Row | r.group in GroupsOf(a, key) :: r in a.rows <==> r in b.rows
    requires ActiveProfiles(a, key) == ActiveProfiles(b, key)
    requires forall p | p in ActiveProfiles(a, key) :: a.profiles[p] == b.profiles[p]
    ensures Resolve(a, key) == Resolve(b, key)
  {
    assert Granted(a, key) == Granted(b, key);
    if GroupsOf(a, key) != {} && |ActiveProfiles(a, key)| <= 1 {
      forall t
        ensures t in Resolve(a, key).value <==> t in Resolve(b, key).value
      {
      }
      assert Resolve(a, key).value == Resolve(b, key).value;
    }
  }

  lemma UserTargetCovers(org: Id, users: set<Id>, key: Key)
    ensures Covered(UserTargets(org, users), key) <==> org == key.org && key.user in users
  {
    if org == key.org && key.user in users {
      assert UserTarget(org, key.user) in UserTargets(org, users);
    }
  }

  lemma GroupChangeFrame(db: Db, change: Change, key: Key)
    requires change.CreateGroup? || change.DeleteGroup? || change.SetPermissions? || change.SetUsers?
    requires Apply(db, change).Committed? && !Covered(Apply(db, change).targets, key)
    ensures Resolve(Apply(db, change).db, key) == Resolve(db, key)
  {
    var db', targets := Apply(db, change).db, Apply(db, change).targets;
    var g := if change.CreateGroup? then change.id else change.group;
    if g in db.groups {
      var grp := db.groups[g];
      UserTargetCovers(grp.org, grp.members, key);
      if change.SetUsers? {
        UserTargetCovers(grp.org, grp.members + (set u | u in change.userIds), key);
      }
    }
    assert g !in GroupsOf(db, key) && g !in GroupsOf(db', key);
    assert GroupsOf(db, key) == GroupsOf(db', key);
    assert ActiveProfiles(db, key) == ActiveProfiles(db', key);
    ResolveAgrees(db, db', key);
  }

  lemma ProfileChangeFrame(db: Db, change: Change, key: Key)
    requires change.CreateProfile? || change.UpdateProfile? || change.DeleteProfile?
    requires Apply(db, change).Committed? && !Covered(Apply(db, change).targets, key)
    ensures Resolve(Apply(db, change).db, key) == Resolve(db, key)
  {
    var db', targets := Apply(db, change).db, Apply(db, change).targets;
    if db' != db {
      var t :| t in targets;
      assert !Covers(t, key);
      assert ActiveProfiles(db, key) == ActiveProfiles(db', key);
      ResolveAgrees(db, db', key);
    }
  }

  /** A change alters nobody's effective permissions but those it goes on to invalidate. */
  lemma UncoveredKeysUnchanged(db: Db, change: Change, key: Key)
    requires Apply(db, change).Committed? && !Covered(Apply(db, change).targets, key)
    ensures Resolve(Apply(db, change).db, key) == Resolve(db, key)
  {
    if change.CreateProfile? || change.UpdateProfile? || change.DeleteProfile? {
      ProfileChangeFrame(db, change, key);
    } else {
      GroupChangeFrame(db, change, key);
    }
  }

  // ------------------------------------------------- scoped replacement

  /** The permissions a scope holds, as read back through the scope filter. */
  function ScopePermissions(db: Db, group: Id, dept: Option<Id>): set<Id> {
    set r | r in db.rows && r.group == group && r.dept == dept :: r.permission
  }

  datatype ScopedWrite = ScopedWrite(group: Id, dept: Option<Id>, permissions: seq<Id>)

  /** One call of set_group_permissions; a refused call leaves the tables alone. */
  function Write(db: Db, w: ScopedWrite): Db {
    match Apply(db, SetPermissions(w.group, w.permissions, w.dept))
    case Refused => db
    case Committed(db', _) => db'
  }

  function WriteAll(db: Db, ws: seq<ScopedWrite>): Db {
    if ws == [] then db else Write(WriteAll(db, ws[..|ws| - 1]), ws[|ws| - 1])
  }

  predicate Accepted(db: Db, w: ScopedWrite) {
    w.group in db.groups && Insertable(db, w.permissions, w.dept)
  }

  lemma WriteScope(db: Db, w: ScopedWrite, group: Id, dept: Option<Id>)
    ensures ScopePermissions(Write(db, w), group, dept) ==
              if Accepted(db, w) && w.group == group && w.dept == dept then (set p | p in w.permissions)
              else ScopePermissions(db, group, dept)
  {
    var db' := Write(db, w);
    if Accepted(db, w) {
      if w.group == group && w.dept == dept {
        forall p | p in w.permissions
          ensures p in ScopePermissions(db', group, dept)
        {
          assert Row(group, p, dept) in db'.rows;
        }
      } else {
        assert forall r: Row | r.group == group && r.dept == dept :: r in db'.rows <==> r in db.rows;
      }
    }
  }

  lemma {:induction false} WritesKeepTheRest(db: Db, ws: seq<ScopedWrite>)
    ensures var db' := WriteAll(db, ws); db' == db.(rows := db'.rows)
  {
    if ws != [] {
      WritesKeepTheRest(db, ws[..|ws| - 1]);
    }
  }

  // ----------------------------------------------- what permissions mean

  /** A scope of one of the user's groups that counts for this request. */
  predicate Counts(db: Db, key: Key, group: Id, dept: Option<Id>) {
    group in GroupsOf(db, key) && (dept.None? || dept == key.dept)
  }

  /** A permission with this tag, held by a scope that counts. */
  predicate GrantedIn(db: Db, key: Key, g: Id, d: Option<Id>, p: Id, tag: string) {
    Counts(db, key, g, d) && p in ScopePermissions(db, g, d) && p in db.tags && db.tags[p] == tag
  }

  /** The granted tags are those of the scopes that count, and no others. */
  lemma GrantedByScopes(db: Db, key: Key, tag: string)
    ensures tag in Granted(db, key) <==> exists g, d, p :: GrantedIn(db, key, g, d, p, tag)
  {
    if tag in Granted(db, key) {
      var r :| r in db.rows && r.group in GroupsOf(db, key) && (r.dept.None? || r.dept == key.dept)
        && r.permission in db.tags && db.tags[r.permission] == tag;
      assert GrantedIn(db, key, r.group, r.dept, r.permission, tag);
    }
    if g, d, p :| GrantedIn(db, key, g, d, p, tag) {
      assert Row(g, p, d) in db.rows;
    }
  }

  /** The tag of a row that counts, from the tables alone. */
  ghost predicate RowGrants(db: Db, key: Key, r: Row, tag: string) {
    && r in db.rows && (r.dept == None || r.dept == key.dept) && r.permission in db.tags && db.tags[r.permission] == tag
    && r.group in db.groups && db.groups[r.group].org == key.org && key.user in db.groups[r.group].members
  }

  /** A profile the query finds, from the tables alone. */
  ghost predicate InForce(db: Db, key: Key, p: Id) {
    && p in db.profiles && db.profiles[p].org == key.org
    && db.profiles[p].fields.iface == key.iface && db.profiles[p].fields.active == true
  }

  /** An allowlist lets only its tools through, any other list all but its tools. */
  ghost predicate Lets(db: Db, p: Id, tag: string) {
    p in db.profiles && (db.profiles[p].fields.mode == "allowlist" <==> tag in db.profiles[p].fields.tools)
  }

  ghost predicate Effective(db: Db, key: Key, tag: string) {
    (exists r :: RowGrants(db, key, r, tag)) && forall p :: InForce(db, key, p) ==> Lets(db, p, tag)
  }

  ghost predicate HasGroup(db: Db, key: Key) {
    exists g :: g in db.groups && db.groups[g].org == key.org && key.user in db.groups[g].members
  }

  /**
   * The effective permissions in terms of the tables. A user of no group in the
   * org has none. Otherwise the tags of the rows that count are granted; the
   * one active profile of the org and interface, if there is one, keeps only
   * its tools or takes them away; and two such profiles are an error.
   */
  lemma ResolveOutright(db: Db, key: Key)
    ensures !HasGroup(db, key) ==> Resolve(db, key) == Some({})
    ensures HasGroup(db, key) ==>
              (Resolve(db, key).None? <==> exists p, q :: p != q && InForce(db, key, p) && InForce(db, key, q))
    ensures forall tag | HasGroup(db, key) && Resolve(db, key).Some? ::
              tag in Resolve(db, key).value <==> Effective(db, key, tag)
  {
    var active := ActiveProfiles(db, key);
    TablesSay(db, key);
    if active != {} {
      var p :| p in active;
      if active == {p} {
        assert |active| == 1;
      } else {
        var q :| q in active && q != p;
        assert InForce(db, key, p) && InForce(db, key, q);
        SubsetSize({p, q}, active);
      }
    }
    forall tag | HasGroup(db, key) && Resolve(db, key).Some?
      ensures tag in Resolve(db, key).value <==> Effective(db, key, tag)
    {
      assert forall p | p in active :: Passes(db.profiles[p].fields, tag) <==> Lets(db, p, tag);
    }
  }

  lemma TablesSay(db: Db, key: Key)
    ensures HasGroup(db, key) <==> GroupsOf(db, key) != {}
    ensures forall p :: InForce(db, key, p) <==> p in ActiveProfiles(db, key)
    ensures forall tag :: tag in Granted(db, key) <==> exists r :: RowGrants(db, key, r, tag)
  {
    if g :| g in db.groups && db.groups[g].org == key.org && key.user in db.groups[g].members {
      assert g in GroupsOf(db, key);
    }
    if g :| g in GroupsOf(db, key) {
      assert g in db.groups && db.groups[g].org == key.org && key.user in db.groups[g].members;
    }
    forall tag
      ensures tag in Granted(db, key) <==> exists r :: RowGrants(db, key, r, tag)
    {
      if r :| RowGrants(db, key, r, tag) {
        assert r.group in GroupsOf(db, key);
        assert db.tags[r.permission] in Granted(db, key);
      }
      if tag in Granted(db, key) {
        var r: Row :| r in db.rows && r.group in GroupsOf(db, key) && (r.dept.None? || r.dept == key.dept)
          && r.permission in db.tags && db.tags[r.permission] == tag;
        assert RowGrants(db, key, r, tag);
      }
    }
  }

  lemma {:induction false} SubsetSize(a: set<Id>, b: set<Id>)
    requires a <= b
    ensures |a| <= |b|
  {
    if a != {} {
      var x :| x in a;
      SubsetSize(a - {x}, b - {x});
    }
  }

  /** One active profile: the granted tags, intersected with its list or less its list. */
  lemma OneProfileInForce(db: Db, key: Key, p: Id)
    requires HasGroup(db, key) && InForce(db, key, p) && forall q | InForce(db, key, q) :: q == p
    ensures var tools := db.profiles[p].fields.tools;
            Resolve(db, key) == Some(if db.profiles[p].fields.mode == "allowlist" then Granted(db, key) * tools
                                     else Granted(db, key) - tools)
  {
    TablesSay(db, key);
    ResolveOutright(db, key);
    ProfileNarrows(db, key, p);
  }

  /** No active profile: whatever the groups grant. */
  lemma NoProfileInForce(db: Db, key: Key)
    requires HasGroup(db, key) && forall p :: !InForce(db, key, p)
    ensures Resolve(db, key) == Some(Granted(db, key))
  {
    TablesSay(db, key);
    assert ActiveProfiles(db, key) == {};
    assert Resolve(db, key).value == Granted(db, key);
  }

  /** An interface profile only ever narrows what the groups grant. */
  lemma ProfileNarrows(db: Db, key: Key, p: Id)
    requires Resolve(db, key).Some?
    ensures Resolve(db, key).value <= Granted(db, key)
    ensures GroupsOf(db, key) != {} && p in ActiveProfiles(db, key) ==>
              var fields := db.profiles[p].fields;
              Resolve(db, key).value ==
                if fields.mode == "allowlist" then Granted(db, key) * fields.tools else Granted(db, key) - fields.tools
  {
    if GroupsOf(db, key) != {} && p in ActiveProfiles(db, key) {
      var active := ActiveProfiles(db, key);
      assert active == {p} by {
        assert |active - {p}| == |active| - 1 == 0;
      }
      var fields := db.profiles[p].fields;
      forall t
        ensures t in Resolve(db, key).value <==> t in Granted(db, key) && Passes(fields, t)
      {
      }
    }
  }

  /**
   * Writing a scope takes effect: afterwards a tag is granted exactly if the
   * new list names it, for a user the scope counts for, or some other scope
   * that counts already granted it.
   */
  lemma WriteTakesEffect(db: Db, w: ScopedWrite, key: Key, tag: string)
    requires Accepted(db, w)
    ensures tag in Granted(Write(db, w), key) <==>
              || (Counts(db, key, w.group, w.dept) && exists p | p in w.permissions :: p in db.tags && db.tags[p] == tag)
              || (exists g, d, p :: GrantedIn(db, key, g, d, p, tag) && !(g == w.group && d == w.dept))
  {
    var db' := Write(db, w);
    GrantedByScopes(db', key, tag);
    assert GroupsOf(db', key) == GroupsOf(db, key);
    forall g, d {
      WriteScope(db, w, g, d);
    }
    if tag in Granted(db', key) {
      var g, d, p :| GrantedIn(db', key, g, d, p, tag);
      assert Counts(db, key, g, d);
      assert !(g == w.group && d == w.dept) ==> GrantedIn(db, key, g, d, p, tag);
    }
    if Counts(db, key, w.group, w.dept) && exists p | p in w.permissions :: p in db.tags && db.tags[p] == tag {
      var p :| p in w.permissions && p in db.tags && db.tags[p] == tag;
      assert GrantedIn(db', key, w.group, w.dept, p, tag);
    }
    if g, d, p :| GrantedIn(db, key, g, d, p, tag) && !(g == w.group && d == w.dept) {
      assert GrantedIn(db', key, g, d, p, tag);
    }
  }

  /** The last accepted write to a scope, if any. */
  function LastWrite(db: Db, ws: seq<ScopedWrite>, group: Id, dept: Option<Id>): Option<seq<Id>> {
    if ws == [] then None
    else
      var w := ws[|ws| - 1];
      if Accepted(db, w) && w.group == group && w.dept == dept then Some(w.permissions)
      else LastWrite(db, ws[..|ws| - 1], group, dept)
  }

  /**
   * After any run of calls a scope reads back as the last list written to it,
   * or as it was if none was written.
   */
  lemma {:induction false} ScopeHoldsLastWrite(db: Db, ws: seq<ScopedWrite>, group: Id, dept: Option<Id>)
    ensures ScopePermissions(WriteAll(db, ws), group, dept) ==
              match LastWrite(db, ws, group, dept)
              case Some(permissions) => (set p | p in permissions)
              case None => ScopePermissions(db, group, dept)
  {
    if ws != [] {
      var front, w := ws[..|ws| - 1], ws[|ws| - 1];
      ScopeHoldsLastWrite(db, front, group, dept);
      WritesKeepTheRest(db, front);
      WriteScope(WriteAll(db, front), w, group, dept);
    }
  }

  /** Writes to different scopes commute. */
  lemma ScopesCommute(db: Db, v: ScopedWrite, w: ScopedWrite)
    requires (v.group, v.dept) != (w.group, w.dept)
    ensures Write(Write(db, v), w) == Write(Write(db, w), v)
  {
    var a, b := Write(Write(db, v), w), Write(Write(db, w), v);
    if Accepted(db, v) && Accepted(db, w) {
      forall r: Row
        ensures r in a.rows <==> r in b.rows
      {
      }
      assert a.rows == b.rows;
    }
  }
}
