/** The seeding run at start-up: SeedAsync creates the configured roles,
    permissions and role-permission links, reusing whatever exists by name;
    SeedAdmin creates the administrator account from the environment. Both
    work on the database step by step. The configuration section and the
    environment variables are inputs, and an exception that would end the
    start-up is an outcome. */
module AuthorizationSeed {
  import opened Common
  import opened Records
  import opened Store
  import opened TokenService
  import opened Authentication

  /** One entry of the AuthorizationOptions section: a role and the names of its permissions. */
  datatype RolePermissionsEntry = RolePermissionsEntry(role: string, permissions: seq<string>)

  datatype AuthorizationOptions = AuthorizationOptions(rolePermissions: seq<RolePermissionsEntry>)

  /** How SeedAsync ends: normally, by a save the database rejects, or by
      adding a link the context already tracks as added. */
  datatype SeedResult = Completed | SaveRejected | TrackedTwice

  // ---- What SeedAsync establishes ------------------------------------------

  /** The role named `role` and the permission named `perm` exist, and the
      link between them is among `links`. */
  ghost predicate LinkedIn(t: Tables, links: set<RolePermission>, role: string, perm: string) {
    && RoleIdByName(t, role).Some? && PermissionIdByName(t, perm).Some?
    && RolePermission(RoleIdByName(t, role).value, PermissionIdByName(t, perm).value) in links
  }

  /** The entry's role exists and its first n permissions exist and are linked to it. */
  ghost predicate EntrySeeded(t: Tables, links: set<RolePermission>, e: RolePermissionsEntry, n: nat)
    requires n <= |e.permissions|
  {
    RoleIdByName(t, e.role).Some? && forall k :: 0 <= k < n ==> LinkedIn(t, links, e.role, e.permissions[k])
  }

  /** The first n entries are seeded in full. */
  ghost predicate EntriesSeeded(t: Tables, links: set<RolePermission>, es: seq<RolePermissionsEntry>, n: nat)
    requires n <= |es|
  {
    forall i :: 0 <= i < n ==> EntrySeeded(t, links, es[i], |es[i].permissions|)
  }

  /** Every configured role, permission and link is stored. */
  ghost predicate Seeded(t: Tables, options: AuthorizationOptions) {
    EntriesSeeded(t, t.rolePermissions, options.rolePermissions, |options.rolePermissions|)
  }

  /** t1 holds every row of t0 unchanged: roles and permissions are only
      added, links are only added, and the player tables are untouched. */
  ghost predicate OnlyAdds(t0: Tables, t1: Tables) {
    && t1.players == t0.players && t1.profiles == t0.profiles && t1.statistics == t0.statistics
    && t1.playerRoles == t0.playerRoles && t1.nextPlayerId == t0.nextPlayerId
    && (forall id :: id in t0.roles ==> id in t1.roles && t1.roles[id] == t0.roles[id])
    && (forall id :: id in t0.permissions ==> id in t1.permissions && t1.permissions[id] == t0.permissions[id])
    && t0.rolePermissions <= t1.rolePermissions
  }

  /** The tables t1 with the links p1 still pending grew from t0 with p0
      pending: t1 is consistent and only adds to t0, the pending links can be
      saved, and every link stored or pending before still is. */
  ghost predicate Grew(t0: Tables, p0: set<RolePermission>, t1: Tables, p1: set<RolePermission>) {
    && Consistent(t1) && LinksInsertable(t1, p1) && OnlyAdds(t0, t1)
    && t0.rolePermissions + p0 <= t1.rolePermissions + p1
  }

  lemma GrewTrans(t0: Tables, p0: set<RolePermission>, t1: Tables, p1: set<RolePermission>,
                  t2: Tables, p2: set<RolePermission>)
    requires Grew(t0, p0, t1, p1) && Grew(t1, p1, t2, p2)
    ensures Grew(t0, p0, t2, p2)
  {
  }

  /** A name too long for its column, which makes inserting it fail. */
  predicate HasLongName(e: RolePermissionsEntry) {
    |e.role| > RoleNameMaxLength || exists k :: 0 <= k < |e.permissions| && |e.permissions[k]| > PermissionNameMaxLength
  }

  lemma LongPermission(e: RolePermissionsEntry, k: nat)
    requires k < |e.permissions| && |e.permissions[k]| > PermissionNameMaxLength
    ensures HasLongName(e)
  {
  }

  /** A role found by name in consistent tables is still found, under the
      same id, after rows are only added. */
  lemma RoleIdByNameGrows(t0: Tables, t1: Tables, name: string)
    requires Consistent(t1) && OnlyAdds(t0, t1) && RoleIdByName(t0, name).Some?
    ensures RoleIdByName(t1, name) == RoleIdByName(t0, name)
  {
    RoleIdByNameUnique(t1, RoleIdByName(t0, name).value);
  }

  lemma PermissionIdByNameGrows(t0: Tables, t1: Tables, name: string)
    requires Consistent(t1) && OnlyAdds(t0, t1) && PermissionIdByName(t0, name).Some?
    ensures PermissionIdByName(t1, name) == PermissionIdByName(t0, name)
  {
    PermissionIdByNameUnique(t1, PermissionIdByName(t0, name).value);
  }

  /** A link between named rows stays in place when rows and links are only added. */
  lemma LinkedInGrows(t0: Tables, t1: Tables, links0: set<RolePermission>, links1: set<RolePermission>,
                      role: string, perm: string)
    requires Consistent(t1) && OnlyAdds(t0, t1) && links0 <= links1 && LinkedIn(t0, links0, role, perm)
    ensures LinkedIn(t1, links1, role, perm)
  {
    RoleIdByNameGrows(t0, t1, role);
    PermissionIdByNameGrows(t0, t1, perm);
  }

  lemma {:induction false} EntrySeededGrows(t0: Tables, t1: Tables, links0: set<RolePermission>,
                                            links1: set<RolePermission>, e: RolePermissionsEntry, n: nat)
    requires n <= |e.permissions|
    requires Consistent(t1) && OnlyAdds(t0, t1) && links0 <= links1 && EntrySeeded(t0, links0, e, n)
    ensures EntrySeeded(t1, links1, e, n)
  {
    RoleIdByNameGrows(t0, t1, e.role);
    forall k | 0 <= k < n ensures LinkedIn(t1, links1, e.role, e.permissions[k]) {
      LinkedInGrows(t0, t1, links0, links1, e.role, e.permissions[k]);
    }
  }

  lemma {:induction false} EntriesSeededGrows(t0: Tables, t1: Tables, links0: set<RolePermission>,
                                              links1: set<RolePermission>, es: seq<RolePermissionsEntry>, n: nat)
    requires n <= |es|
    requires Consistent(t1) && OnlyAdds(t0, t1) && links0 <= links1 && EntriesSeeded(t0, links0, es, n)
    ensures EntriesSeeded(t1, links1, es, n)
  {
    forall i | 0 <= i < n ensures EntrySeeded(t1, links1, es[i], |es[i].permissions|) {
      EntrySeededGrows(t0, t1, links0, links1, es[i], |es[i].permissions|);
    }
  }

  lemma EntrySeededStep(t: Tables, links: set<RolePermission>, e: RolePermissionsEntry, n: nat)
    requires n < |e.permissions| && EntrySeeded(t, links, e, n) && LinkedIn(t, links, e.role, e.permissions[n])
    ensures EntrySeeded(t, links, e, n + 1)
  {
  }

  lemma EntriesSeededStep(t: Tables, links: set<RolePermission>, es: seq<RolePermissionsEntry>, n: nat)
    requires n < |es| && EntriesSeeded(t, links, es, n) && EntrySeeded(t, links, es[n], |es[n].permissions|)
    ensures EntriesSeeded(t, links, es, n + 1)
  {
  }

  // ---- What SeedAsync may add ------------------------------------------------

  /** A role name and a permission name, as one entry of the configuration pairs them. */
  type NamePair = (string, string)

  /** The pairs of the first n permissions of an entry. */
  ghost function EntryPairs(e: RolePermissionsEntry, n: nat): set<NamePair>
    requires n <= |e.permissions|
  {
    set k | 0 <= k < n :: (e.role, e.permissions[k])
  }

  /** The pairs of the first n entries. */
  ghost function EntriesPairs(es: seq<RolePermissionsEntry>, n: nat): set<NamePair>
    requires n <= |es|
  {
    if n == 0 then {} else EntriesPairs(es, n - 1) + EntryPairs(es[n - 1], |es[n - 1].permissions|)
  }

  /** The roles of the first n entries. */
  ghost function EntriesRoles(es: seq<RolePermissionsEntry>, n: nat): set<string>
    requires n <= |es|
  {
    if n == 0 then {} else EntriesRoles(es, n - 1) + {es[n - 1].role}
  }

  ghost function ConfiguredRoles(options: AuthorizationOptions): set<string> {
    EntriesRoles(options.rolePermissions, |options.rolePermissions|)
  }

  ghost function ConfiguredPairs(options: AuthorizationOptions): set<NamePair> {
    EntriesPairs(options.rolePermissions, |options.rolePermissions|)
  }

  /** The pairs met before permission k of entry i. */
  ghost function PairsBefore(es: seq<RolePermissionsEntry>, i: nat, k: nat): set<NamePair>
    requires i < |es| && k <= |es[i].permissions|
  {
    EntriesPairs(es, i) + EntryPairs(es[i], k)
  }

  /** Permission k of the entry pairs its role with a permission already met
      among `pairs` or among the entry's earlier permissions. */
  ghost predicate MetBefore(e: RolePermissionsEntry, pairs: set<NamePair>, k: nat)
    requires k <= |e.permissions|
  {
    k < |e.permissions| && (e.role, e.permissions[k]) in pairs + EntryPairs(e, k)
  }

  /** Some (role, permission) pair of the configuration occurs again at a later position. */
  ghost predicate RepeatsPair(es: seq<RolePermissionsEntry>) {
    exists i, k :: 0 <= i < |es| && 0 <= k < |es[i].permissions|
                   && (es[i].role, es[i].permissions[k]) in PairsBefore(es, i, k)
  }

  /** The name pairs of the links whose role and permission are both stored. */
  ghost function PairsOf(t: Tables, links: set<RolePermission>): set<NamePair> {
    set l | l in links && l.roleId in t.roles && l.permissionId in t.permissions
      :: (t.roles[l.roleId].roleName, t.permissions[l.permissionId].permissionName)
  }

  ghost function PermissionNamesOf(pairs: set<NamePair>): set<string> {
    set p | p in pairs :: p.1
  }

  /** Everything t and the links pending on it add to the tables a run
      started from was configured: each new role is named in `roles`, each
      new permission in `pairs`, and each new or pending link joins a role
      and a permission whose names are one of `pairs`. */
  ghost predicate AddsConfigured(start: Tables, t: Tables, pending: set<RolePermission>,
                                 roles: set<string>, pairs: set<NamePair>) {
    && NewRoleNames(start, t) <= roles
    && NewPermissionNames(start, t) <= PermissionNamesOf(pairs)
    && PairsOf(t, (t.rolePermissions - start.rolePermissions) + pending) <= pairs
  }

  /** The names of the roles in t that the tables a run started from did not have. */
  ghost function NewRoleNames(start: Tables, t: Tables): set<string> {
    set id | id in t.roles && id !in start.roles :: t.roles[id].roleName
  }

  ghost function NewPermissionNames(start: Tables, t: Tables): set<string> {
    set id | id in t.permissions && id !in start.permissions :: t.permissions[id].permissionName
  }

  /** Adding rows does not rename the stored ones. */
  lemma PairsOfGrows(t0: Tables, t1: Tables, links: set<RolePermission>)
    requires OnlyAdds(t0, t1)
    ensures PairsOf(t0, links) <= PairsOf(t1, links)
  {
    forall q | q in PairsOf(t0, links) ensures q in PairsOf(t1, links) {
      var l :| l in links && l.roleId in t0.roles && l.permissionId in t0.permissions
               && q == (t0.roles[l.roleId].roleName, t0.permissions[l.permissionId].permissionName);
    }
  }

  lemma PairsOfMono(t: Tables, a: set<RolePermission>, b: set<RolePermission>)
    requires a <= b
    ensures PairsOf(t, a) <= PairsOf(t, b)
  {
  }

  /** Saving rows and the pending links keeps what a run adds configured. */
  lemma AddsConfiguredFlush(start: Tables, t0: Tables, pending: set<RolePermission>, t1: Tables,
                            roles: set<string>, pairs: set<NamePair>)
    requires AddsConfigured(start, t0, pending, roles, pairs)
    requires Consistent(t0) && LinksInsertable(t0, pending)
    requires OnlyAdds(t0, t1) && t1.rolePermissions == t0.rolePermissions + pending
    requires forall id :: id in t1.roles && id !in t0.roles ==> t1.roles[id].roleName in roles
    requires forall id :: id in t1.permissions && id !in t0.permissions ==>
               t1.permissions[id].permissionName in PermissionNamesOf(pairs)
    ensures AddsConfigured(start, t1, {}, roles, pairs)
  {
    var added := (t0.rolePermissions - start.rolePermissions) + pending;
    assert (t1.rolePermissions - start.rolePermissions) + {} <= added;
    forall q | q in PairsOf(t1, added) ensures q in PairsOf(t0, added) {
      var l :| l in added && l.roleId in t1.roles && l.permissionId in t1.permissions
               && q == (t1.roles[l.roleId].roleName, t1.permissions[l.permissionId].permissionName);
    }
  }

  /** What is configured for a prefix is configured for the whole run. */
  lemma AddsConfiguredWider(start: Tables, t: Tables, pending: set<RolePermission>,
                            roles: set<string>, pairs: set<NamePair>, roles': set<string>, pairs': set<NamePair>)
    requires AddsConfigured(start, t, pending, roles, pairs) && roles <= roles' && pairs <= pairs'
    ensures AddsConfigured(start, t, pending, roles', pairs')
  {
    assert PermissionNamesOf(pairs) <= PermissionNamesOf(pairs');
  }

  /** A prefix of the configuration configures less than the whole. */
  lemma {:induction false} EntriesGrow(es: seq<RolePermissionsEntry>, i: nat, n: nat)
    requires i <= n <= |es|
    ensures EntriesRoles(es, i) <= EntriesRoles(es, n) && EntriesPairs(es, i) <= EntriesPairs(es, n)
    decreases n
  {
    if i < n {
      EntriesGrow(es, i, n - 1);
    }
  }

  lemma EntryPairsStep(e: RolePermissionsEntry, k: nat)
    requires k < |e.permissions|
    ensures EntryPairs(e, k + 1) == EntryPairs(e, k) + {(e.role, e.permissions[k])}
  {
  }

  /** The pair of a tracked-twice link was met earlier: the configuration repeats it. */
  lemma TrackedTwiceRepeats(es: seq<RolePermissionsEntry>, i: nat, k: nat)
    requires i < |es| && k < |es[i].permissions|
    requires (es[i].role, es[i].permissions[k]) in PairsBefore(es, i, k)
    ensures RepeatsPair(es)
  {
  }

  /** One role with the same permission listed in two entries. */
  lemma RepeatedPairExample()
    ensures RepeatsPair([RolePermissionsEntry("R", ["A"]), RolePermissionsEntry("R", ["A"])])
  {
    var es := [RolePermissionsEntry("R", ["A"]), RolePermissionsEntry("R", ["A"])];
    assert EntryPairs(es[0], 1) == {("R", "A")} by { EntryPairsStep(es[0], 0); }
    assert EntriesPairs(es, 1) == {("R", "A")};
    TrackedTwiceRepeats(es, 1, 0);
  }

  // ---- SeedAsync, step by step -----------------------------------------------

  /** The state of a seeding run: the saved tables, the links added to the
      context but not yet saved, and how the run stands. */
  datatype SeedRun = SeedRun(tables: Tables, pending: set<RolePermission>, result: SeedResult)

  /** The role of an entry: found by name, or added and saved at once
      together with the pending links. The id is meaningful when the run
      goes on. */
  ghost function RoleStep(t: Tables, pending: set<RolePermission>, role: string): (SeedRun, int) {
    match RoleIdByName(t, role)
    case Some(id) => (SeedRun(t, pending, Completed), id)
    case None =>
      if RoleInsertable(t, role) && LinksInsertable(t, pending) then
        (SeedRun(WithRoleLinks(WithRole(t, role), pending), {}, Completed), t.nextRoleId)
      else (SeedRun(t, pending, SaveRejected), 0)
  }

  /** One permission of an entry: found by name, or added and saved at once
      together with the pending links; then the link to the role is added to
      the context unless the database holds it, and adding a link the
      context already tracks throws. */
  ghost function LinkStep(s: SeedRun, rid: int, perm: string): SeedRun {
    var t, p := s.tables, s.pending;
    var found := PermissionIdByName(t, perm);
    if found.None? && !(PermissionInsertable(t, perm) && LinksInsertable(t, p)) then
      SeedRun(t, p, SaveRejected)
    else
      var t1 := if found.None? then WithRoleLinks(WithPermission(t, perm), p) else t;
      var p1 := if found.None? then {} else p;
      var link := RolePermission(rid, if found.None? then t.nextPermissionId else found.value);
      if link in t1.rolePermissions then SeedRun(t1, p1, Completed)
      else if link in p1 then SeedRun(t1, p1, TrackedTwice)
      else SeedRun(t1, p1 + {link}, Completed)
  }

  /** The inner loop from permission j on, stopping at the first step that does not complete. */
  ghost function LinksFrom(s: SeedRun, rid: int, perms: seq<string>, j: nat): SeedRun
    requires j <= |perms|
    decreases |perms| - j
  {
    if j == |perms| || s.result != Completed then s
    else LinksFrom(LinkStep(s, rid, perms[j]), rid, perms, j + 1)
  }

  /** One entry: its role, then each of its permissions. */
  ghost function EntryStep(t: Tables, pending: set<RolePermission>, e: RolePermissionsEntry): SeedRun {
    var role := RoleStep(t, pending, e.role);
    if role.0.result != Completed then role.0
    else LinksFrom(role.0, role.1, e.permissions, 0)
  }

  /** The outer loop from entry i on, stopping at the first entry that does not complete. */
  ghost function EntriesFrom(s: SeedRun, es: seq<RolePermissionsEntry>, i: nat): SeedRun
    requires i <= |es|
    decreases |es| - i
  {
    if i == |es| || s.result != Completed then s
    else EntriesFrom(EntryStep(s.tables, s.pending, es[i]), es, i + 1)
  }

  /** SeedAsync: nothing without a section; otherwise the loops, then the
      final save of the links still pending. */
  ghost function SeedSpec(t: Tables, options: Option<AuthorizationOptions>): (Tables, SeedResult) {
    if options.None? then (t, Completed)
    else
      var s := EntriesFrom(SeedRun(t, {}, Completed), options.value.rolePermissions, 0);
      if s.result != Completed then (s.tables, s.result)
      else if LinksInsertable(s.tables, s.pending) then (WithRoleLinks(s.tables, s.pending), Completed)
      else (s.tables, SaveRejected)
  }

  /** The role step keeps the tables consistent and only adds to them; a
      found role changes nothing, and the step fails only on a name too long. */
  lemma RoleStepFacts(t: Tables, p: set<RolePermission>, role: string)
    requires Consistent(t) && LinksInsertable(t, p)
    ensures var st := RoleStep(t, p, role);
            && Grew(t, p, st.0.tables, st.0.pending)
            && (st.0.result == Completed ==> RoleIdByName(st.0.tables, role) == Some(st.1))
            && (st.0.result != Completed ==> st.0.result == SaveRejected && |role| > RoleNameMaxLength)
            && (RoleIdByName(t, role).Some? ==> st.0 == SeedRun(t, p, Completed))
  {
    if RoleIdByName(t, role).None? && RoleInsertable(t, role) {
      WithRoleConsistent(t, role, p);
      WithRoleLinksConsistent(WithRole(t, role), p);
      RoleIdByNameUnique(WithRoleLinks(WithRole(t, role), p), t.nextRoleId);
    }
  }

  /** A role the step adds is named by the entry, and the pending links it saves were configured. */
  lemma RoleStepConfigured(start: Tables, t: Tables, p: set<RolePermission>, role: string,
                           roles: set<string>, pairs: set<NamePair>)
    requires Consistent(t) && LinksInsertable(t, p) && AddsConfigured(start, t, p, roles, pairs)
    ensures var s := RoleStep(t, p, role).0;
            AddsConfigured(start, s.tables, s.pending, roles + {role}, pairs)
  {
    AddsConfiguredWider(start, t, p, roles, pairs, roles + {role}, pairs);
    if RoleIdByName(t, role).None? && RoleInsertable(t, role) {
      WithRoleConsistent(t, role, p);
      WithRoleLinksConsistent(WithRole(t, role), p);
      AddsConfiguredFlush(start, t, p, WithRoleLinks(WithRole(t, role), p), roles + {role}, pairs);
    }
  }

  /** The link step keeps the tables consistent, keeps the role, and when
      it completes the role and the permission are linked. It fails on a
      permission name too long, and it tracks a link twice exactly when the
      permission existed and its link to the role was pending. A link the
      database holds already changes nothing. */
  lemma LinkStepFacts(s: SeedRun, rid: int, role: string, perm: string)
    requires Consistent(s.tables) && LinksInsertable(s.tables, s.pending) && RoleIdByName(s.tables, role) == Some(rid)
    ensures var s' := LinkStep(s, rid, perm);
            && Grew(s.tables, s.pending, s'.tables, s'.pending)
            && RoleIdByName(s'.tables, role) == Some(rid)
            && (s'.result == Completed ==> LinkedIn(s'.tables, s'.tables.rolePermissions + s'.pending, role, perm))
            && (s'.result == SaveRejected ==> |perm| > PermissionNameMaxLength)
            && (s'.result == TrackedTwice <==>
                  PermissionIdByName(s.tables, perm).Some?
                  && RolePermission(rid, PermissionIdByName(s.tables, perm).value) in s.pending)
            && (LinkedIn(s.tables, s.tables.rolePermissions, role, perm) ==> s' == s.(result := Completed))
  {
    var t, p := s.tables, s.pending;
    if PermissionIdByName(t, perm).None? && PermissionInsertable(t, perm) && LinksInsertable(t, p) {
      WithPermissionConsistent(t, perm, p);
      WithRoleLinksConsistent(WithPermission(t, perm), p);
      var t1 := WithRoleLinks(WithPermission(t, perm), p);
      PermissionIdByNameUnique(t1, t.nextPermissionId);
      RoleIdByNameGrows(t, t1, role);
      assert RolePermission(rid, t.nextPermissionId) !in p;
    }
  }

  /** A link the step adds or tracks twice is the link of the pair (role, perm). */
  lemma LinkStepConfigured(start: Tables, s: SeedRun, rid: int, role: string, perm: string,
                           roles: set<string>, pairs: set<NamePair>)
    requires Consistent(s.tables) && LinksInsertable(s.tables, s.pending) && RoleIdByName(s.tables, role) == Some(rid)
    requires AddsConfigured(start, s.tables, s.pending, roles, pairs)
    ensures var s' := LinkStep(s, rid, perm);
            && AddsConfigured(start, s'.tables, s'.pending, roles, pairs + {(role, perm)})
            && (s'.result == TrackedTwice ==> (role, perm) in pairs)
  {
    var t, p := s.tables, s.pending;
    var pairs' := pairs + {(role, perm)};
    AddsConfiguredWider(start, t, p, roles, pairs, roles, pairs');
    var found := PermissionIdByName(t, perm);
    if found.None? && !(PermissionInsertable(t, perm) && LinksInsertable(t, p)) {
      return;
    }
    var t1 := if found.None? then WithRoleLinks(WithPermission(t, perm), p) else t;
    var pid := if found.None? then t.nextPermissionId else found.value;
    if found.None? {
      WithPermissionConsistent(t, perm, p);
      WithRoleLinksConsistent(WithPermission(t, perm), p);
      PermissionIdByNameUnique(t1, t.nextPermissionId);
      RoleIdByNameGrows(t, t1, role);
      assert perm in PermissionNamesOf(pairs');
      AddsConfiguredFlush(start, t, p, t1, roles, pairs');
    }
    assert t1.roles[rid].roleName == role && t1.permissions[pid].permissionName == perm;
    if LinkStep(s, rid, perm).result == TrackedTwice {
      assert (role, perm) in PairsOf(t, (t.rolePermissions - start.rolePermissions) + p);
    }
  }

  /** The inner loop keeps the tables consistent and the role in place. */
  lemma {:induction false} LinksFromGrew(s: SeedRun, rid: int, e: RolePermissionsEntry, j: nat)
    requires j <= |e.permissions|
    requires Consistent(s.tables) && LinksInsertable(s.tables, s.pending) && RoleIdByName(s.tables, e.role) == Some(rid)
    ensures var s' := LinksFrom(s, rid, e.permissions, j);
            Grew(s.tables, s.pending, s'.tables, s'.pending) && RoleIdByName(s'.tables, e.role) == Some(rid)
    decreases |e.permissions| - j
  {
    if j < |e.permissions| && s.result == Completed {
      var next := LinkStep(s, rid, e.permissions[j]);
      LinkStepFacts(s, rid, e.role, e.permissions[j]);
      LinksFromGrew(next, rid, e, j + 1);
      var s' := LinksFrom(next, rid, e.permissions, j + 1);
      GrewTrans(s.tables, s.pending, next.tables, next.pending, s'.tables, s'.pending);
    }
  }

  /** When the inner loop completes, every permission of the entry is linked
      to the role, and when it fails a permission name is too long. */
  lemma {:induction false} LinksFromOutcome(s: SeedRun, rid: int, e: RolePermissionsEntry, j: nat)
    requires j <= |e.permissions| && s.result == Completed
    requires Consistent(s.tables) && LinksInsertable(s.tables, s.pending) && RoleIdByName(s.tables, e.role) == Some(rid)
    requires EntrySeeded(s.tables, s.tables.rolePermissions + s.pending, e, j)
    ensures var s' := LinksFrom(s, rid, e.permissions, j);
            && (s'.result == Completed ==>
                  EntrySeeded(s'.tables, s'.tables.rolePermissions + s'.pending, e, |e.permissions|))
            && (s'.result == SaveRejected ==> HasLongName(e))
    decreases |e.permissions| - j
  {
    if j < |e.permissions| {
      var next := LinkStep(s, rid, e.permissions[j]);
      LinkStepFacts(s, rid, e.role, e.permissions[j]);
      if next.result == Completed {
        EntrySeededGrows(s.tables, next.tables, s.tables.rolePermissions + s.pending,
                         next.tables.rolePermissions + next.pending, e, j);
        EntrySeededStep(next.tables, next.tables.rolePermissions + next.pending, e, j);
        LinksFromOutcome(next, rid, e, j + 1);
      } else if next.result == SaveRejected {
        LongPermission(e, j);
      }
    }
  }

  /** Permissions whose links the database holds already change nothing. */
  lemma {:induction false} LinksFromIdle(s: SeedRun, rid: int, e: RolePermissionsEntry, j: nat)
    requires j <= |e.permissions| && s.result == Completed
    requires Consistent(s.tables) && LinksInsertable(s.tables, s.pending) && RoleIdByName(s.tables, e.role) == Some(rid)
    requires EntrySeeded(s.tables, s.tables.rolePermissions, e, |e.permissions|)
    ensures LinksFrom(s, rid, e.permissions, j) == s
    decreases |e.permissions| - j
  {
    if j < |e.permissions| {
      LinkStepFacts(s, rid, e.role, e.permissions[j]);
      LinksFromIdle(s, rid, e, j + 1);
    }
  }

  lemma EntryPairsGrow(e: RolePermissionsEntry, j: nat, m: nat)
    requires j <= m <= |e.permissions|
    ensures EntryPairs(e, j) <= EntryPairs(e, m)
  {
  }

  /** What the inner loop adds is configured by the entry's pairs, and when
      it tracks a link twice, the pair of that link was met before. */
  lemma {:induction false} LinksFromConfigured(start: Tables, s: SeedRun, rid: int, e: RolePermissionsEntry, j: nat,
                                               roles: set<string>, pairs: set<NamePair>)
    requires j <= |e.permissions| && s.result == Completed
    requires Consistent(s.tables) && LinksInsertable(s.tables, s.pending) && RoleIdByName(s.tables, e.role) == Some(rid)
    requires AddsConfigured(start, s.tables, s.pending, roles, pairs + EntryPairs(e, j))
    ensures var s' := LinksFrom(s, rid, e.permissions, j);
            && AddsConfigured(start, s'.tables, s'.pending, roles, pairs + EntryPairs(e, |e.permissions|))
            && (s'.result == TrackedTwice ==> exists k :: 0 <= k < |e.permissions| && MetBefore(e, pairs, k))
    decreases |e.permissions| - j
  {
    if j < |e.permissions| {
      var met := pairs + EntryPairs(e, j);
      EntryPairsStep(e, j);
      assert pairs + EntryPairs(e, j + 1) == met + {(e.role, e.permissions[j])};
      LinkStepConfigured(start, s, rid, e.role, e.permissions[j], roles, met);
      var next := LinkStep(s, rid, e.permissions[j]);
      if next.result == Completed {
        LinkStepFacts(s, rid, e.role, e.permissions[j]);
        LinksFromConfigured(start, next, rid, e, j + 1, roles, pairs);
      } else {
        if next.result == TrackedTwice {
          assert MetBefore(e, pairs, j);
        }
        EntryPairsGrow(e, j + 1, |e.permissions|);
        AddsConfiguredWider(start, next.tables, next.pending, roles, pairs + EntryPairs(e, j + 1),
                            roles, pairs + EntryPairs(e, |e.permissions|));
      }
    }
  }

  /** One entry keeps the tables consistent; when it completes, the entry
      is seeded, and when it fails, one of its names is too long. */
  lemma EntryStepFacts(t: Tables, p: set<RolePermission>, e: RolePermissionsEntry)
    requires Consistent(t) && LinksInsertable(t, p)
    ensures var s := EntryStep(t, p, e);
            && Grew(t, p, s.tables, s.pending)
            && (s.result == Completed ==> EntrySeeded(s.tables, s.tables.rolePermissions + s.pending, e, |e.permissions|))
            && (s.result == SaveRejected ==> HasLongName(e))
  {
    RoleStepFacts(t, p, e.role);
    var role := RoleStep(t, p, e.role);
    if role.0.result == Completed {
      LinksFromGrew(role.0, role.1, e, 0);
      LinksFromOutcome(role.0, role.1, e, 0);
      var s := EntryStep(t, p, e);
      GrewTrans(t, p, role.0.tables, role.0.pending, s.tables, s.pending);
    }
  }

  /** An entry seeded already changes nothing. */
  lemma EntryStepIdle(t: Tables, p: set<RolePermission>, e: RolePermissionsEntry)
    requires Consistent(t) && LinksInsertable(t, p) && EntrySeeded(t, t.rolePermissions, e, |e.permissions|)
    ensures EntryStep(t, p, e) == SeedRun(t, p, Completed)
  {
    RoleStepFacts(t, p, e.role);
    LinksFromIdle(SeedRun(t, p, Completed), RoleIdByName(t, e.role).value, e, 0);
  }

  /** What one entry adds is configured by its role and pairs, and a link
      it tracks twice belongs to a pair met before. */
  lemma EntryStepConfigured(start: Tables, t: Tables, p: set<RolePermission>, e: RolePermissionsEntry,
                            roles: set<string>, pairs: set<NamePair>)
    requires Consistent(t) && LinksInsertable(t, p) && AddsConfigured(start, t, p, roles, pairs)
    ensures var s := EntryStep(t, p, e);
            && AddsConfigured(start, s.tables, s.pending, roles + {e.role}, pairs + EntryPairs(e, |e.permissions|))
            && (s.result == TrackedTwice ==> exists k :: 0 <= k < |e.permissions| && MetBefore(e, pairs, k))
  {
    RoleStepFacts(t, p, e.role);
    RoleStepConfigured(start, t, p, e.role, roles, pairs);
    var role := RoleStep(t, p, e.role);
    assert pairs + EntryPairs(e, 0) == pairs;
    if role.0.result == Completed {
      LinksFromConfigured(start, role.0, role.1, e, 0, roles + {e.role}, pairs);
    } else {
      AddsConfiguredWider(start, role.0.tables, role.0.pending, roles + {e.role}, pairs,
                          roles + {e.role}, pairs + EntryPairs(e, |e.permissions|));
    }
  }

  /** The outer loop keeps the tables consistent; when it completes, every
      entry is seeded, and when it fails an entry has a name too long. */
  lemma {:induction false} EntriesFromOutcome(t: Tables, s: SeedRun, es: seq<RolePermissionsEntry>, i: nat)
    requires i <= |es| && s.result == Completed
    requires Consistent(s.tables) && LinksInsertable(s.tables, s.pending) && OnlyAdds(t, s.tables)
    requires EntriesSeeded(s.tables, s.tables.rolePermissions + s.pending, es, i)
    ensures var s' := EntriesFrom(s, es, i);
            && Consistent(s'.tables) && LinksInsertable(s'.tables, s'.pending) && OnlyAdds(t, s'.tables)
            && (s'.result == Completed ==> EntriesSeeded(s'.tables, s'.tables.rolePermissions + s'.pending, es, |es|))
            && (s'.result == SaveRejected ==> exists e :: e in es && HasLongName(e))
    decreases |es| - i
  {
    if i < |es| {
      var next := EntryStep(s.tables, s.pending, es[i]);
      EntryStepFacts(s.tables, s.pending, es[i]);
      if next.result == Completed {
        EntriesSeededGrows(s.tables, next.tables, s.tables.rolePermissions + s.pending,
                           next.tables.rolePermissions + next.pending, es, i);
        EntriesSeededStep(next.tables, next.tables.rolePermissions + next.pending, es, i);
        EntriesFromOutcome(t, next, es, i + 1);
      } else if next.result == SaveRejected {
        assert es[i] in es;
      }
    }
  }

  /** Entries seeded already change nothing. */
  lemma {:induction false} EntriesFromIdle(t: Tables, es: seq<RolePermissionsEntry>, i: nat)
    requires i <= |es| && Consistent(t) && EntriesSeeded(t, t.rolePermissions, es, |es|)
    ensures EntriesFrom(SeedRun(t, {}, Completed), es, i) == SeedRun(t, {}, Completed)
    decreases |es| - i
  {
    if i < |es| {
      EntryStepIdle(t, {}, es[i]);
      EntriesFromIdle(t, es, i + 1);
    }
  }

  /** What the outer loop adds is configured by the entries, and a link
      tracked twice means the configuration repeats a pair. */
  lemma {:induction false} EntriesFromConfigured(t: Tables, s: SeedRun, es: seq<RolePermissionsEntry>, i: nat)
    requires i <= |es| && s.result == Completed
    requires Consistent(s.tables) && LinksInsertable(s.tables, s.pending)
    requires AddsConfigured(t, s.tables, s.pending, EntriesRoles(es, i), EntriesPairs(es, i))
    ensures var s' := EntriesFrom(s, es, i);
            && AddsConfigured(t, s'.tables, s'.pending, EntriesRoles(es, |es|), EntriesPairs(es, |es|))
            && (s'.result == TrackedTwice ==> RepeatsPair(es))
    decreases |es| - i
  {
    if i < |es| {
      EntryStepConfigured(t, s.tables, s.pending, es[i], EntriesRoles(es, i), EntriesPairs(es, i));
      var next := EntryStep(s.tables, s.pending, es[i]);
      if next.result == Completed {
        EntryStepFacts(s.tables, s.pending, es[i]);
        EntriesFromConfigured(t, next, es, i + 1);
      } else {
        if next.result == TrackedTwice {
          var k :| 0 <= k < |es[i].permissions| && MetBefore(es[i], EntriesPairs(es, i), k);
          TrackedTwiceRepeats(es, i, k);
        }
        EntriesGrow(es, i + 1, |es|);
        AddsConfiguredWider(t, next.tables, next.pending, EntriesRoles(es, i + 1), EntriesPairs(es, i + 1),
                            EntriesRoles(es, |es|), EntriesPairs(es, |es|));
      }
    }
  }

  // ---- What SeedAsync guarantees ---------------------------------------------

  /** SeedAsync keeps the tables consistent and only adds roles,
      permissions and links; without a section it changes nothing. */
  lemma SeedOnlyAdds(t: Tables, options: Option<AuthorizationOptions>)
    requires Consistent(t)
    ensures var st := SeedSpec(t, options);
            && Consistent(st.0) && OnlyAdds(t, st.0)
            && (options.None? ==> st == (t, Completed))
  {
    if options.Some? {
      var es := options.value.rolePermissions;
      EntriesFromOutcome(t, SeedRun(t, {}, Completed), es, 0);
      var s := EntriesFrom(SeedRun(t, {}, Completed), es, 0);
      if s.result == Completed {
        WithRoleLinksConsistent(s.tables, s.pending);
      }
    }
  }

  /** A run that completes leaves every configured role, permission and link stored. */
  lemma SeedCompletedSeeds(t: Tables, options: AuthorizationOptions)
    requires Consistent(t)
    ensures var st := SeedSpec(t, Some(options));
            st.1 == Completed ==> Seeded(st.0, options)
  {
    var es := options.rolePermissions;
    EntriesFromOutcome(t, SeedRun(t, {}, Completed), es, 0);
    var s := EntriesFrom(SeedRun(t, {}, Completed), es, 0);
    if s.result == Completed {
      WithRoleLinksConsistent(s.tables, s.pending);
      EntriesSeededGrows(s.tables, WithRoleLinks(s.tables, s.pending), s.tables.rolePermissions + s.pending,
                         s.tables.rolePermissions + s.pending, es, |es|);
    }
  }

  /** A failed save needs a name too long for its column, and a link
      tracked twice needs a (role, permission) pair the configuration repeats. */
  lemma SeedFailures(t: Tables, options: AuthorizationOptions)
    requires Consistent(t)
    ensures var st := SeedSpec(t, Some(options));
            && (st.1 == SaveRejected ==> exists e :: e in options.rolePermissions && HasLongName(e))
            && (st.1 == TrackedTwice ==> RepeatsPair(options.rolePermissions))
  {
    var es := options.rolePermissions;
    EntriesFromOutcome(t, SeedRun(t, {}, Completed), es, 0);
    EntriesFromConfigured(t, SeedRun(t, {}, Completed), es, 0);
  }

  /** Each role SeedAsync adds is a configured role, each permission a
      configured permission, and each link the link of a configured pair. */
  lemma SeedAddsConfigured(t: Tables, options: AuthorizationOptions)
    requires Consistent(t)
    ensures AddsConfigured(t, SeedSpec(t, Some(options)).0, {}, ConfiguredRoles(options), ConfiguredPairs(options))
  {
    var es := options.rolePermissions;
    EntriesFromOutcome(t, SeedRun(t, {}, Completed), es, 0);
    EntriesFromConfigured(t, SeedRun(t, {}, Completed), es, 0);
    var s := EntriesFrom(SeedRun(t, {}, Completed), es, 0);
    if s.result == Completed && LinksInsertable(s.tables, s.pending) {
      WithRoleLinksConsistent(s.tables, s.pending);
      AddsConfiguredFlush(t, s.tables, s.pending, WithRoleLinks(s.tables, s.pending),
                          ConfiguredRoles(options), ConfiguredPairs(options));
    } else {
      PairsOfMono(s.tables, s.tables.rolePermissions - t.rolePermissions,
                  (s.tables.rolePermissions - t.rolePermissions) + s.pending);
    }
  }

  /** Seeding tables that hold the whole configuration changes nothing, so
      a second start-up leaves the first one's rows as they are. */
  lemma SeedAgainChangesNothing(t: Tables, options: AuthorizationOptions)
    requires Consistent(t) && Seeded(t, options)
    ensures SeedSpec(t, Some(options)) == (t, Completed)
  {
    var es := options.rolePermissions;
    EntriesFromIdle(t, es, 0);
    assert WithRoleLinks(t, {}) == t;
  }

  /** A configuration with short names and no repeated pair always completes. */
  lemma SeedCompletes(t: Tables, options: AuthorizationOptions)
    requires Consistent(t)
    requires !RepeatsPair(options.rolePermissions)
    requires forall e :: e in options.rolePermissions ==> !HasLongName(e)
    ensures SeedSpec(t, Some(options)).1 == Completed && Seeded(SeedSpec(t, Some(options)).0, options)
  {
    SeedFailures(t, options);
    SeedCompletedSeeds(t, options);
  }

  // ---- SeedAdmin -------------------------------------------------------------

  /** ADMIN_NAME, ADMIN_EMAIL and ADMIN_PASSWORD from the environment and
      Admin:DefaultRole from the configuration; each may be missing. */
  datatype AdminSettings = AdminSettings(
    name: Option<string>, email: Option<string>, password: Option<string>, defaultRole: Option<string>)

  /** How SeedAdmin ends. HashThrew: BCrypt refuses a missing password.
      SaveThrew: the player row cannot be saved. RoleNotFound: a role of the
      list does not exist. LinkTrackedTwice: both roles of the list are the
      same role, and adding its link a second time throws. */
  datatype AdminOutcome =
    | CredentialsMissing
    | AdminExists
    | HashThrew
    | SaveThrew
    | RoleNotFound(role: Option<string>)
    | LinkTrackedTwice
    | AdminCreated(pid: int)

  datatype AdminStep = AdminStep(tables: Tables, outcome: AdminOutcome)

  /** The roles the administrator is linked to, in order. */
  function RoleList(s: AdminSettings): seq<Option<string>> {
    [s.defaultRole, Some(PlayerRoleName)]
  }

  /** A lookup by a missing name finds nothing: no role has a null name. */
  ghost function RoleIdOf(t: Tables, name: Option<string>): Option<int> {
    if name.None? then None else RoleIdByName(t, name.value)
  }

  /** The role ids the loop over the list collects, or the reason it stops. */
  datatype LinkPlan = Planned(roleIds: set<int>) | RoleAbsent(role: Option<string>) | RoleRepeated

  ghost function PlanLinks(t: Tables, names: seq<Option<string>>): LinkPlan
    decreases |names|
  {
    if names == [] then Planned({})
    else
      match PlanLinks(t, names[..|names| - 1])
      case Planned(ids) =>
        var last := names[|names| - 1];
        (match RoleIdOf(t, last)
         case None => RoleAbsent(last)
         case Some(rid) => if rid in ids then RoleRepeated else Planned(ids + {rid}))
      case other => other
  }

  /** The administrator row: the names as given, the hashed password, a
      refresh token valid seven days, every timestamp now and one login counted. */
  function AdminPlayer(s: AdminSettings, hasher: PasswordHasher, now: int, entropy: seq<Byte>): Player
    requires s.name.Some? && s.email.Some? && s.password.Some? && |entropy| == RefreshTokenBytes
  {
    NewPlayer(s.name.value, s.email.value, hasher.hash(s.password.value), GenerateRefreshToken(entropy),
              Some(AddDays(now, RefreshTokenDays)), now).(loginCount := 1)
  }

  /** The writes of SeedAdmin for the administrator row p. The row is
      saved on its own first; the profile, the statistic and the role links
      are saved together at the end, so a missing role leaves the saved
      administrator without any of them. */
  ghost function CreateAdmin(t: Tables, s: AdminSettings, p: Player): AdminStep {
    if !PlayerInsertable(t, p) then AdminStep(t, SaveThrew)
    else
      var t1 := WithPlayer(t, p);
      match PlanLinks(t1, RoleList(s))
      case Planned(ids) => AdminStep(WithAccountRows(t1, t.nextPlayerId, ids), AdminCreated(t.nextPlayerId))
      case RoleAbsent(role) => AdminStep(t1, RoleNotFound(role))
      case RoleRepeated => AdminStep(t1, LinkTrackedTwice)
  }

  /** SeedAdmin: the checks, then the writes for the administrator row. */
  ghost function SeedAdminSpec(t: Tables, s: AdminSettings, hasher: PasswordHasher, now: int,
                               entropy: seq<Byte>): AdminStep
    requires |entropy| == RefreshTokenBytes
  {
    if IsNullOrEmpty(s.name) && IsNullOrEmpty(s.email) then AdminStep(t, CredentialsMissing)
    else if PlayersMatching(t, s.name, s.email) != {} then AdminStep(t, AdminExists)
    else if s.password.None? then AdminStep(t, HashThrew)
    else if s.name.None? || s.email.None? then AdminStep(t, SaveThrew)
    else CreateAdmin(t, s, AdminPlayer(s, hasher, now, entropy))
  }

  /** Once the loop stops, the rest of the list is not looked at. */
  lemma {:induction false} PlanLinksStops(t: Tables, names: seq<Option<string>>, k: nat)
    requires k <= |names| && !PlanLinks(t, names[..k]).Planned?
    ensures PlanLinks(t, names) == PlanLinks(t, names[..k])
    decreases |names| - k
  {
    if k < |names| {
      assert names[..k + 1][..k] == names[..k];
      PlanLinksStops(t, names, k + 1);
    } else {
      assert names[..k] == names;
    }
  }

  /** The planned ids are stored roles. */
  lemma {:induction false} PlannedRolesExist(t: Tables, names: seq<Option<string>>)
    ensures PlanLinks(t, names).Planned? ==> forall rid :: rid in PlanLinks(t, names).roleIds ==> rid in t.roles
  {
    if names != [] {
      PlannedRolesExist(t, names[..|names| - 1]);
    }
  }

  /** For the two-role list: the plan names the default role's id and the
      Player role's id, and it stops at the first missing role or when both
      are the same role. */
  lemma PlanOfRoleList(t: Tables, s: AdminSettings)
    ensures var plan := PlanLinks(t, RoleList(s));
            && (RoleIdOf(t, s.defaultRole).None? ==> plan == RoleAbsent(s.defaultRole))
            && (RoleIdOf(t, s.defaultRole).Some? && RoleIdByName(t, PlayerRoleName).None? ==>
                  plan == RoleAbsent(Some(PlayerRoleName)))
            && (RoleIdOf(t, s.defaultRole).Some? && RoleIdOf(t, s.defaultRole) == RoleIdByName(t, PlayerRoleName) ==>
                  plan == RoleRepeated)
            && (plan.Planned? <==>
                  RoleIdOf(t, s.defaultRole).Some? && RoleIdByName(t, PlayerRoleName).Some?
                  && RoleIdOf(t, s.defaultRole) != RoleIdByName(t, PlayerRoleName))
            && (plan.Planned? ==>
                  plan.roleIds == {RoleIdOf(t, s.defaultRole).value, RoleIdByName(t, PlayerRoleName).value})
  {
    var names := RoleList(s);
    assert names[..1] == [s.defaultRole];
    assert [s.defaultRole][..0] == [];
    assert PlanLinks(t, [s.defaultRole]) ==
           match RoleIdOf(t, s.defaultRole) case None => RoleAbsent(s.defaultRole) case Some(rid) => Planned({rid});
  }

  /** The outcomes that write nothing, and what each says about its inputs. */
  lemma SeedAdminRefusals(t: Tables, s: AdminSettings, hasher: PasswordHasher, now: int, entropy: seq<Byte>)
    requires |entropy| == RefreshTokenBytes
    ensures var st := SeedAdminSpec(t, s, hasher, now, entropy);
            && (st.outcome == CredentialsMissing <==> IsNullOrEmpty(s.name) && IsNullOrEmpty(s.email))
            && (st.outcome == AdminExists <==>
                  !(IsNullOrEmpty(s.name) && IsNullOrEmpty(s.email)) && PlayersMatching(t, s.name, s.email) != {})
            && (st.outcome == HashThrew ==> s.password.None?)
            && (st.outcome in {CredentialsMissing, AdminExists, HashThrew, SaveThrew} ==> st.tables == t)
  {
  }

  /** When a role of the list is missing, only the administrator row is
      saved: no profile, no statistic and no role link. */
  lemma SeedAdminRoleMissing(t: Tables, s: AdminSettings, hasher: PasswordHasher, now: int, entropy: seq<Byte>)
    requires Consistent(t) && |entropy| == RefreshTokenBytes
    requires SeedAdminSpec(t, s, hasher, now, entropy).outcome.RoleNotFound?
    ensures var st := SeedAdminSpec(t, s, hasher, now, entropy);
            && RoleIdOf(st.tables, st.outcome.role).None?
            && st.tables == WithPlayer(t, AdminPlayer(s, hasher, now, entropy))
            && t.nextPlayerId !in st.tables.profiles && t.nextPlayerId !in st.tables.statistics
            && (forall pr :: pr in st.tables.playerRoles ==> pr in t.playerRoles)
  {
    var p := AdminPlayer(s, hasher, now, entropy);
    WithPlayerConsistent(t, p);
    PlanOfRoleList(WithPlayer(t, p), s);
  }

  /** A created administrator has the row built from the settings, a new
      profile and statistic, and exactly two role links: the default role
      and the Player role. */
  lemma SeedAdminCreates(t: Tables, s: AdminSettings, hasher: PasswordHasher, now: int, entropy: seq<Byte>)
    requires Consistent(t) && |entropy| == RefreshTokenBytes
    requires SeedAdminSpec(t, s, hasher, now, entropy).outcome.AdminCreated?
    ensures var st := SeedAdminSpec(t, s, hasher, now, entropy);
            var pid := st.outcome.pid;
            && pid == t.nextPlayerId && pid !in t.players
            && s.name.Some? && s.email.Some? && s.password.Some?
            && pid in st.tables.players
            && st.tables.players[pid] == AdminPlayer(s, hasher, now, entropy).(id := pid)
            && st.tables.players[pid].loginCount == 1
            && st.tables.players[pid].refreshTokenExpiry == Some(now + 7 * SecondsPerDay)
            && st.tables.profiles[pid] == NewProfile(pid) && st.tables.statistics[pid] == NewStatistic(pid)
            && s.defaultRole.Some? && s.defaultRole != Some(PlayerRoleName)
            && RoleIdByName(t, s.defaultRole.value).Some? && RoleIdByName(t, PlayerRoleName).Some?
            && (forall rid :: PlayerRole(pid, rid) in st.tables.playerRoles <==>
                  rid == RoleIdByName(t, s.defaultRole.value).value || rid == RoleIdByName(t, PlayerRoleName).value)
  {
    var p := AdminPlayer(s, hasher, now, entropy);
    WithPlayerConsistent(t, p);
    var t1 := WithPlayer(t, p);
    PlanOfRoleList(t1, s);
    assert RoleIdByName(t1, s.defaultRole.value) == RoleIdByName(t, s.defaultRole.value);
    assert RoleIdByName(t1, PlayerRoleName) == RoleIdByName(t, PlayerRoleName);
    forall pr | pr in t.playerRoles ensures pr.playerId != t.nextPlayerId {
    }
  }

  lemma SeedAdminPreservesConsistent(t: Tables, s: AdminSettings, hasher: PasswordHasher, now: int,
                                     entropy: seq<Byte>)
    requires Consistent(t) && |entropy| == RefreshTokenBytes
    ensures Consistent(SeedAdminSpec(t, s, hasher, now, entropy).tables)
  {
    if s.name.Some? && s.email.Some? && s.password.Some? {
      CreateAdminConsistent(t, s, AdminPlayer(s, hasher, now, entropy));
    }
  }

  lemma CreateAdminConsistent(t: Tables, s: AdminSettings, p: Player)
    requires Consistent(t)
    ensures Consistent(CreateAdmin(t, s, p).tables)
  {
    if PlayerInsertable(t, p) {
      WithPlayerConsistent(t, p);
      var t1 := WithPlayer(t, p);
      PlannedRolesExist(t1, RoleList(s));
      if PlanLinks(t1, RoleList(s)).Planned? {
        WithAccountRowsConsistent(t1, t.nextPlayerId, PlanLinks(t1, RoleList(s)).roleIds);
      }
    }
  }

  /** Seeding the administrator again at the next start-up changes nothing:
      the saved row now matches the settings. So when the first run stopped
      at a missing role, the administrator keeps having no profile, no
      statistic and no role. */
  lemma SeedAdminAgainChangesNothing(t: Tables, s: AdminSettings, hasher: PasswordHasher, now: int,
                                     entropy: seq<Byte>, now2: int, entropy2: seq<Byte>)
    requires |entropy| == RefreshTokenBytes && |entropy2| == RefreshTokenBytes
    requires SeedAdminSpec(t, s, hasher, now, entropy).outcome.RoleNotFound?
             || SeedAdminSpec(t, s, hasher, now, entropy).outcome.LinkTrackedTwice?
             || SeedAdminSpec(t, s, hasher, now, entropy).outcome.AdminCreated?
    ensures var t' := SeedAdminSpec(t, s, hasher, now, entropy).tables;
            SeedAdminSpec(t', s, hasher, now2, entropy2) == AdminStep(t', AdminExists)
  {
    var t' := SeedAdminSpec(t, s, hasher, now, entropy).tables;
    assert t.nextPlayerId in PlayersMatching(t', s.name, s.email);
  }

  /** The created administrator logs in with the configured password, and
      a lookup by the configured name and email can only return it. */
  lemma AdminCanLogIn(t: Tables, s: AdminSettings, hasher: PasswordHasher, now: int, entropy: seq<Byte>,
                      rememberMe: bool, now2: int, entropy2: seq<Byte>, chosen: Option<int>)
    requires Consistent(t) && Sound(hasher) && |entropy| == RefreshTokenBytes && |entropy2| == RefreshTokenBytes
    requires SeedAdminSpec(t, s, hasher, now, entropy).outcome.AdminCreated?
    requires FirstMatch(SeedAdminSpec(t, s, hasher, now, entropy).tables, s.name, s.email, chosen)
    ensures var st := SeedAdminSpec(t, s, hasher, now, entropy);
            && chosen == Some(st.outcome.pid)
            && LoginAsSpec(st.tables, st.outcome.pid, s.password.value, rememberMe, hasher, now2, entropy2).outcome
               == Done(st.outcome.pid)
  {
    var st := SeedAdminSpec(t, s, hasher, now, entropy);
    SeedAdminCreates(t, s, hasher, now, entropy);
    SeedAdminPreservesConsistent(t, s, hasher, now, entropy);
    OnlyMatch(st.tables, st.outcome.pid);
  }

  class AuthorizationSeedService {
    const db: GameDb
    const hasher: PasswordHasher

    constructor (db: GameDb, hasher: PasswordHasher)
      ensures this.db == db && this.hasher == hasher
    {
      this.db := db;
      this.hasher := hasher;
    }

    /** SeedAsync. A missing section changes nothing. Otherwise every entry's
        role and permissions are fetched or created by name and the missing
        links added; created rows are saved at once, together with the links
        pending so far, and the remaining links at the end. */
    method SeedAsync(options: Option<AuthorizationOptions>) returns (r: SeedResult)
      requires db.Valid()
      modifies db
      ensures db.Valid()
      ensures (db.State(), r) == SeedSpec(old(db.State()), options)
      ensures options.Some? && r == TrackedTwice ==> RepeatsPair(options.value.rolePermissions)
      ensures options.Some? ==>
                AddsConfigured(old(db.State()), db.State(), {}, ConfiguredRoles(options.value), ConfiguredPairs(options.value))
    {
      ghost var t0 := db.State();
      SeedOnlyAdds(t0, options);
      if options.None? {
        return Completed;
      }
      SeedFailures(t0, options.value);
      SeedAddsConfigured(t0, options.value);
      var pending;
      r, pending := SeedEntries(options.value.rolePermissions);
      if r == Completed {
        var saved := db.SaveRoleLinks(pending);
        if !saved {
          r := SaveRejected;
        }
      }
    }

    /** The outer loop of SeedAsync, up to the final save: the links still
        pending are returned. */
    method SeedEntries(es: seq<RolePermissionsEntry>) returns (r: SeedResult, pending: set<RolePermission>)
      requires db.Valid()
      modifies db
      ensures SeedRun(db.State(), pending, r) == EntriesFrom(SeedRun(old(db.State()), {}, Completed), es, 0)
    {
      ghost var s0 := SeedRun(db.State(), {}, Completed);
      pending := {};
      var i := 0;
      while i < |es|
        invariant 0 <= i <= |es|
        invariant db.Valid() && LinksInsertable(db.State(), pending)
        invariant EntriesFrom(SeedRun(db.State(), pending, Completed), es, i) == EntriesFrom(s0, es, 0)
      {
        r, pending := SeedEntry(es[i], pending);
        if r != Completed {
          return;
        }
        i := i + 1;
      }
      r := Completed;
    }

    /** One entry: its role fetched or created, then each permission. */
    method SeedEntry(e: RolePermissionsEntry, pending: set<RolePermission>)
      returns (r: SeedResult, pending': set<RolePermission>)
      requires db.Valid() && LinksInsertable(db.State(), pending)
      modifies db
      ensures db.Valid() && LinksInsertable(db.State(), pending')
      ensures SeedRun(db.State(), pending', r) == EntryStep(old(db.State()), pending, e)
    {
      var rid;
      r, rid, pending' := SeedRole(e.role, pending);
      if r == Completed {
        r, pending' := SeedLinks(rid, e, pending');
      }
    }

    /** The inner loop of SeedAsync: each permission of the entry, in order,
        until one does not complete. */
    method SeedLinks(rid: int, e: RolePermissionsEntry, pending: set<RolePermission>)
      returns (r: SeedResult, pending': set<RolePermission>)
      requires db.Valid() && LinksInsertable(db.State(), pending) && RoleIdByName(db.State(), e.role) == Some(rid)
      modifies db
      ensures db.Valid() && LinksInsertable(db.State(), pending')
      ensures SeedRun(db.State(), pending', r) == LinksFrom(SeedRun(old(db.State()), pending, Completed), rid, e.permissions, 0)
    {
      ghost var s0 := SeedRun(db.State(), pending, Completed);
      pending' := pending;
      var j := 0;
      while j < |e.permissions|
        invariant 0 <= j <= |e.permissions|
        invariant db.Valid() && LinksInsertable(db.State(), pending') && RoleIdByName(db.State(), e.role) == Some(rid)
        invariant LinksFrom(SeedRun(db.State(), pending', Completed), rid, e.permissions, j) == LinksFrom(s0, rid, e.permissions, 0)
      {
        r, pending' := SeedLink(rid, e.role, e.permissions[j], pending');
        if r != Completed {
          return;
        }
        j := j + 1;
      }
      r := Completed;
    }

    /** The role of an entry, fetched by name or created and saved together
        with the links pending so far. */
    method SeedRole(role: string, pending: set<RolePermission>)
      returns (r: SeedResult, rid: int, pending': set<RolePermission>)
      requires db.Valid() && LinksInsertable(db.State(), pending)
      modifies db
      ensures db.Valid() && LinksInsertable(db.State(), pending')
      ensures r == Completed ==> RoleIdByName(db.State(), role) == Some(rid)
      ensures (SeedRun(db.State(), pending', r), rid) == RoleStep(old(db.State()), pending, role)
    {
      RoleStepFacts(db.State(), pending, role);
      pending' := pending;
      var found := db.FindRoleByName(role);
      if found.Some? {
        return Completed, found.value, pending';
      }
      var saved := db.SaveRole(role, pending');
      if saved.None? {
        return SaveRejected, 0, pending';
      }
      return Completed, saved.value, {};
    }

    /** One permission of an entry: fetched or created, then linked to the
        role unless the database already holds that link. */
    method SeedLink(rid: int, ghost role: string, perm: string, pending: set<RolePermission>)
      returns (r: SeedResult, pending': set<RolePermission>)
      requires db.Valid() && LinksInsertable(db.State(), pending) && RoleIdByName(db.State(), role) == Some(rid)
      modifies db
      ensures db.Valid() && LinksInsertable(db.State(), pending') && RoleIdByName(db.State(), role) == Some(rid)
      ensures SeedRun(db.State(), pending', r) == LinkStep(SeedRun(old(db.State()), pending, Completed), rid, perm)
      ensures r == TrackedTwice <==>
                && PermissionIdByName(old(db.State()), perm).Some?
                && RolePermission(rid, PermissionIdByName(old(db.State()), perm).value) in pending
    {
      LinkStepFacts(SeedRun(db.State(), pending, Completed), rid, role, perm);
      pending' := pending;
      var pid := db.FindPermissionByName(perm);
      if pid.None? {
        pid := db.SavePermission(perm, pending');
        if pid.None? {
          return SaveRejected, pending';
        }
        pending' := {};
      }
      var link := RolePermission(rid, pid.value);
      if link !in db.rolePermissions {
        if link in pending' {
          return TrackedTwice, pending';
        }
        pending' := pending' + {link};
      }
      r := Completed;
    }

    /** SeedAdmin. */
    method SeedAdmin(s: AdminSettings, now: int, entropy: seq<Byte>) returns (outcome: AdminOutcome)
      requires db.Valid() && |entropy| == RefreshTokenBytes
      modifies db
      ensures db.Valid()
      ensures var st := SeedAdminSpec(old(db.State()), s, hasher, now, entropy);
              db.State() == st.tables && outcome == st.outcome
    {
      if IsNullOrEmpty(s.name) && IsNullOrEmpty(s.email) {
        return CredentialsMissing;
      }
      var existing := db.FindPlayerByNameOrEmail(s.name, s.email);
      if existing.Some? {
        return AdminExists;
      }
      if s.password.None? {
        return HashThrew;
      }
      if s.name.None? || s.email.None? {
        return SaveThrew;
      }
      outcome := SaveAdmin(s, AdminPlayer(s, hasher, now, entropy));
    }

    /** The writes of SeedAdmin for the administrator row. */
    method SaveAdmin(s: AdminSettings, player: Player) returns (outcome: AdminOutcome)
      requires db.Valid()
      modifies db
      ensures db.Valid()
      ensures var st := CreateAdmin(old(db.State()), s, player);
              db.State() == st.tables && outcome == st.outcome
    {
      ghost var t := db.State();
      var saved := db.SavePlayer(player);
      if saved.None? {
        return SaveThrew;
      }
      var pid := saved.value;
      WithPlayerConsistent(t, player);
      var plan := PlanRoleLinks(RoleList(s));
      match plan {
        case RoleAbsent(role) =>
          outcome := RoleNotFound(role);
        case RoleRepeated =>
          outcome := LinkTrackedTwice;
        case Planned(ids) =>
          ghost var t1 := db.State();
          PlannedRolesExist(t1, RoleList(s));
          db.SaveAccountRows(pid, ids);
          WithAccountRowsConsistent(t1, pid, ids);
          outcome := AdminCreated(pid);
      }
    }

    /** The loop over the role list: each role looked up by name, its id
        collected, stopping at a missing role or at a role met twice. */
    method PlanRoleLinks(names: seq<Option<string>>) returns (plan: LinkPlan)
      requires db.Valid()
      ensures plan == PlanLinks(db.State(), names)
    {
      var ids: set<int> := {};
      var i := 0;
      while i < |names|
        invariant 0 <= i <= |names|
        invariant PlanLinks(db.State(), names[..i]) == Planned(ids)
      {
        assert names[..i + 1][..i] == names[..i];
        var rid: Option<int> := None;
        if names[i].Some? {
          rid := db.FindRoleByName(names[i].value);
        }
        if rid.None? {
          PlanLinksStops(db.State(), names, i + 1);
          return RoleAbsent(names[i]);
        }
        if rid.value in ids {
          PlanLinksStops(db.State(), names, i + 1);
          return RoleRepeated;
        }
        ids := ids + {rid.value};
        i := i + 1;
      }
      assert names[..i] == names;
      plan := Planned(ids);
    }
  }
}
