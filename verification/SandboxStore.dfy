/** Sandbox environments: the validated changes of the store, what they keep, and the two resolvers that
    pick an environment for a repository. */
module SandboxStore {
  import opened Common
  import opened Text

  /** A user's own environments, or the administrators'. */
  datatype Scope = UserScope(owner: nat) | GlobalScope

  datatype Env = Env(scope: Scope, name: string, image: string, repoIds: seq<string>, isDefault: bool)

  type Store = map<nat, Env>

  /** No slash at an end or after another, and no white space. */
  predicate Sound(s: string) {
    && s != "" && s[0] != '/' && s[|s| - 1] != '/'
    && (forall i | 0 <= i < |s| - 1 :: !(s[i] == '/' && s[i + 1] == '/'))
    && forall c | c in s :: !IsSpace(c)
  }

  /** A slash-separated path of at least two non-empty parts without white space. */
  predicate IsRepoId(s: string) {
    Sound(s) && '/' in s
  }

  function StripAll(raw: seq<string>): seq<string> {
    seq(|raw|, i requires 0 <= i < |raw| => Strip(raw[i]))
  }

  predicate Share(a: seq<string>, b: seq<string>) {
    exists id | id in a :: id in b
  }

  /** Another environment of this scope and owner that claims one of these repositories. */
  predicate Clashes(rows: Store, other: nat, pk: nat, scope: Scope, ids: seq<string>) {
    other in rows && other != pk && rows[other].scope == scope && Share(rows[other].repoIds, ids)
  }

  predicate Acceptable(rows: Store, raw: seq<string>, pk: nat, scope: Scope) {
    && (forall id | id in StripAll(raw) :: IsRepoId(id))
    && Distinct(StripAll(raw))
    && forall other | other in rows :: !Clashes(rows, other, pk, scope, StripAll(raw))
  }

  datatype RepoFault = Blank(i: nat) | Malformed(i: nat) | Duplicate(i: nat) | Claimed(other: nat)

  /** What a fault says about the list. */
  predicate Blames(rows: Store, raw: seq<string>, pk: nat, scope: Scope, fault: RepoFault) {
    match fault
    case Blank(i) => i < |raw| && Strip(raw[i]) == ""
    case Malformed(i) => i < |raw| && Strip(raw[i]) != "" && !IsRepoId(Strip(raw[i]))
    case Duplicate(i) => i < |raw| && Strip(raw[i]) in StripAll(raw)[..i]
    case Claimed(other) => Clashes(rows, other, pk, scope, StripAll(raw))
  }

  predicate NameTaken(rows: Store, pk: nat, scope: Scope, name: string) {
    exists other | other in rows :: other != pk && rows[other].scope == scope && rows[other].name == name
  }

  /** The row a save would write; the default flag is not on the form. */
  function Cleaned(rows: Store, pk: nat, env: Env): Env {
    Env(env.scope, Strip(env.name), Strip(env.image), StripAll(env.repoIds), pk in rows && rows[pk].isDefault)
  }

  /** `rest` stands for the checks on the other fields. */
  predicate Saveable(rows: Store, pk: nat, env: Env, rest: bool) {
    var c := Cleaned(rows, pk, env);
    && rest && c.name != "" && c.image != ""
    && Acceptable(rows, env.repoIds, pk, env.scope)
    && !NameTaken(rows, pk, env.scope, c.name)
    && (c.isDefault ==> env.scope.GlobalScope?)
  }

  predicate Promotable(rows: Store, pk: nat, rest: bool) {
    && pk in rows && rows[pk].scope.GlobalScope?
    && Saveable(rows, pk, rows[pk], rest)
  }

  /** Every other global default demoted, pk promoted. */
  function Promoted(rows: Store, pk: nat): Store
    requires pk in rows
  {
    map p | p in rows :: if p == pk then Cleaned(rows, pk, rows[pk]).(isDefault := true) else
      if rows[p].scope.GlobalScope? then rows[p].(isDefault := false) else rows[p]
  }

  datatype Change = Save(pk: nat, env: Env, rest: bool) | Promote(pk: nat, rest: bool) | Delete(pk: nat)

  function Applied(rows: Store, c: Change): Store {
    match c
    case Save(pk, env, rest) => if Saveable(rows, pk, env, rest) then rows[pk := Cleaned(rows, pk, env)] else rows
    case Promote(pk, rest) => if Promotable(rows, pk, rest) then Promoted(rows, pk) else rows
    case Delete(pk) => if pk in rows && rows[pk].isDefault then rows else rows - {pk}
  }

  class Environments {
    var rows: Store

    constructor ()
      ensures rows == map[]
    {
      rows := map[];
    }

    /** `_validate_repo_ids` */
    method ValidateRepoIds(raw: seq<string>, pk: nat, scope: Scope) returns (r: Result<seq<string>, RepoFault>)
      ensures r.Ok? <==> Acceptable(rows, raw, pk, scope)
      ensures r.Ok? ==> r.value == StripAll(raw)
      ensures r.Err? ==> Blames(rows, raw, pk, scope, r.error)
    {
      hide Strip, IsRepoId, Share;
      var cleaned: seq<string> := [];
      var seen: set<string> := {};
      for i := 0 to |raw|
        invariant cleaned == StripAll(raw)[..i] && Distinct(cleaned)
        invariant forall id :: id in seen <==> id in cleaned
        invariant forall id | id in cleaned :: IsRepoId(id)
      {
        var value := Strip(raw[i]);
        assert StripAll(raw)[i] == value && StripAll(raw)[..i + 1] == cleaned + [value];
        if value == "" {
          EmptyIsNoRepo();
          return Err(Blank(i));
        }
        if !IsRepoId(value) {
          return Err(Malformed(i));
        }
        if value in seen {
          return Err(Duplicate(i));
        }
        seen := seen + {value};
        cleaned := cleaned + [value];
      }
      assert cleaned == StripAll(raw);
      if cleaned == [] {
        NothingClashes(rows, pk, scope);
        return Ok(cleaned);
      }
      var todo: set<nat> := set p | p in rows && rows[p].scope == scope && p != pk;
      while todo != {}
        invariant forall p | p in todo :: p in rows && rows[p].scope == scope && p != pk
        invariant forall p | p in rows && p !in todo :: !Clashes(rows, p, pk, scope, cleaned)
        decreases |todo|
      {
        var other :| other in todo;
        if Share(rows[other].repoIds, cleaned) {
          return Err(Claimed(other));
        }
        todo := todo - {other};
      }
      return Ok(cleaned);
    }

    /** `full_clean` and save */
    method Save(pk: nat, env: Env, rest: bool) returns (ok: bool)
      modifies this
      ensures rows == Applied(old(rows), Change.Save(pk, env, rest)) && ok == Saveable(old(rows), pk, env, rest)
    {
      hide Acceptable, Strip, NameTaken;
      var name, image := Strip(env.name), Strip(env.image);
      if name == "" || image == "" {
        return false;
      }
      var ids := ValidateRepoIds(env.repoIds, pk, env.scope);
      var keptDefault := pk in rows && rows[pk].isDefault;
      if ids.Err? || !rest || NameTaken(rows, pk, env.scope, name) || (keptDefault && !env.scope.GlobalScope?) {
        return false;
      }
      rows := rows[pk := Env(env.scope, name, image, ids.value, keptDefault)];
      return true;
    }

    /** `promote_as_default`; a failing check rolls the demotion back. */
    method PromoteAsDefault(pk: nat, rest: bool) returns (ok: bool)
      modifies this
      ensures rows == Applied(old(rows), Promote(pk, rest)) && ok == Promotable(old(rows), pk, rest)
    {
      hide Acceptable, Strip, NameTaken;
      if pk !in rows || !rows[pk].scope.GlobalScope? {
        return false;
      }
      var before := rows;
      rows := map p | p in rows ::
                if p != pk && rows[p].scope.GlobalScope? then rows[p].(isDefault := false) else rows[p];
      SameButDefaults(before, rows, pk);
      var locked := rows[pk].(isDefault := true);
      var name, image := Strip(locked.name), Strip(locked.image);
      var ids := ValidateRepoIds(locked.repoIds, pk, GlobalScope);
      if name == "" || image == "" || ids.Err? || !rest || NameTaken(rows, pk, GlobalScope, name) {
        rows := before;
        return false;
      }
      rows := rows[pk := Env(GlobalScope, name, image, ids.value, true)];
      assert rows == Promoted(before, pk);
      return true;
    }

    /** The delete view, after `can_delete`. */
    method DeleteRow(pk: nat) returns (ok: bool)
      modifies this
      ensures rows == Applied(old(rows), Delete(pk)) && ok == (pk in old(rows) && !old(rows)[pk].isDefault)
      ensures rows == if ok then old(rows) - {pk} else old(rows)
    {
      if pk !in rows {
        assert rows - {pk} == rows;
        return false;
      }
      if rows[pk].isDefault {
        return false;
      }
      rows := rows - {pk};
      return true;
    }
  }

  // ---------------------------------------------------------------- what the changes mean

  ghost predicate IsPart(p: string) {
    p != "" && forall c | c in p :: c != '/' && !IsSpace(c)
  }

  ghost predicate IsPath(s: string, parts: seq<string>) {
    parts != [] && (forall p | p in parts :: IsPart(p)) && s == Join(parts, "/")
  }

  lemma OnePartIsSound(p: string)
    requires IsPart(p)
    ensures Sound(p) && '/' !in p
  {
    hide IsSpace;
    assert forall i | 0 <= i < |p| :: p[i] in p;
  }

  lemma MorePartsAreSound(p: string, rest: string)
    requires IsPart(p) && Sound(rest)
    ensures Sound(p + "/" + rest) && '/' in p + "/" + rest
  {
    SlashIsNoSpace();
    OnePartIsSound(p);
    hide IsSpace;
    var s := p + "/" + rest;
    assert s[|p|] == '/' && s[0] == p[0] && s[|s| - 1] == rest[|rest| - 1];
    forall i | 0 <= i < |s| - 1 ensures !(s[i] == '/' && s[i + 1] == '/') {
      if i < |p| {
        assert s[i] == p[i];
      } else if i == |p| {
        assert s[i + 1] == rest[0];
      } else {
        assert s[i] == rest[i - |p| - 1] && s[i + 1] == rest[i - |p|];
      }
    }
    forall c | c in s ensures !IsSpace(c) {
      assert c in p || c == '/' || c in rest;
    }
  }

  lemma {:induction false} PathIsSound(s: string, parts: seq<string>)
    requires IsPath(s, parts)
    ensures Sound(s) && ('/' in s <==> |parts| > 1)
    decreases |parts|
  {
    hide IsPart, Sound;
    assert IsPart(parts[0]);
    OnePartIsSound(parts[0]);
    if |parts| > 1 {
      var rest := Join(parts[1..], "/");
      PathIsSound(rest, parts[1..]);
      MorePartsAreSound(parts[0], rest);
    }
  }

  lemma SlashIsNoSpace()
    ensures !IsSpace('/')
  {
  }

  lemma {:induction false} SoundIsPath(s: string) returns (parts: seq<string>)
    requires Sound(s)
    ensures IsPath(s, parts)
    decreases |s|
  {
    hide IsSpace;
    if '/' !in s {
      parts := [s];
    } else {
      var i := FirstSlash(s);
      var rest := s[i + 1..];
      assert Sound(rest) by { assert forall c | c in rest :: c in s; }
      var more := SoundIsPath(rest);
      parts := [s[..i]] + more;
      assert parts[1..] == more && s == s[..i] + "/" + rest;
      assert IsPart(s[..i]) by { assert forall c | c in s[..i] :: c in s; }
    }
  }

  lemma FirstSlash(s: string) returns (i: nat)
    requires '/' in s
    ensures i < |s| && s[i] == '/' && '/' !in s[..i]
  {
    if s[0] == '/' {
      i := 0;
    } else {
      var k := FirstSlash(s[1..]);
      i := k + 1;
      assert s[..i] == [s[0]] + s[1..][..k];
    }
  }

  /** A repository id is two or more parts joined by slashes, none empty and none with a slash or white space. */
  lemma RepoIdIsPath(s: string)
    ensures IsRepoId(s) <==> exists parts :: IsPath(s, parts) && |parts| >= 2
  {
    hide IsSpace, Join;
    if parts :| IsPath(s, parts) && |parts| >= 2 {
      PathIsSound(s, parts);
    }
    if IsRepoId(s) {
      var parts := SoundIsPath(s);
      PathIsSound(s, parts);
    }
  }

  /** The row another environment holds keeps these ids from this scope and owner. */
  ghost predicate Taken(rows: Store, pk: nat, scope: Scope, id: string) {
    exists p | p in rows :: p != pk && rows[p].scope == scope && id in rows[p].repoIds
  }

  /** Which lists of repositories are accepted: every id is well formed once stripped, none is given twice, and none
      is another environment's of the same scope and owner. */
  lemma AcceptableMeans(rows: Store, raw: seq<string>, pk: nat, scope: Scope)
    ensures Acceptable(rows, raw, pk, scope) <==>
            && (forall i | 0 <= i < |raw| :: IsRepoId(Strip(raw[i])) && !Taken(rows, pk, scope, Strip(raw[i])))
            && (forall i, j | 0 <= i < j < |raw| :: Strip(raw[i]) != Strip(raw[j]))
  {
    hide IsRepoId, Strip;
    var ids := StripAll(raw);
    assert forall i | 0 <= i < |raw| :: ids[i] == Strip(raw[i]) && ids[i] in ids;
    forall p, i | p in rows && p != pk && rows[p].scope == scope && 0 <= i < |raw| && ids[i] in rows[p].repoIds
      ensures Clashes(rows, p, pk, scope, ids)
    {
    }
    if forall i | 0 <= i < |raw| :: !Taken(rows, pk, scope, Strip(raw[i])) {
      forall p | p in rows ensures !Clashes(rows, p, pk, scope, ids) {
      }
    }
  }

  /** What an accepted save leaves: the row with what was given, stripped, and its default flag; all others as they
      were. */
  lemma SaveMeans(rows: Store, pk: nat, env: Env, rest: bool)
    requires Saveable(rows, pk, env, rest)
    ensures var after := Applied(rows, Change.Save(pk, env, rest));
            && after.Keys == rows.Keys + {pk}
            && after[pk].scope == env.scope && after[pk].name == Strip(env.name) && after[pk].image == Strip(env.image)
            && |after[pk].repoIds| == |env.repoIds|
            && (forall i | 0 <= i < |env.repoIds| :: after[pk].repoIds[i] == Strip(env.repoIds[i]))
            && (after[pk].isDefault <==> pk in rows && rows[pk].isDefault)
            && forall p | p in rows && p != pk :: after[p] == rows[p]
  {
    hide Strip, Acceptable;
  }

  /** Which saves are accepted: no field check failed, the name and image are not blank, the repositories are
      acceptable, no other environment of the scope and owner has the name, and a default stays global. */
  lemma SaveableMeans(rows: Store, pk: nat, env: Env, rest: bool)
    ensures Saveable(rows, pk, env, rest) <==>
            && rest && !AllSpace(env.name) && !AllSpace(env.image) && Acceptable(rows, env.repoIds, pk, env.scope)
            && (forall p | p in rows && p != pk && rows[p].scope == env.scope :: rows[p].name != Strip(env.name))
            && (pk in rows && rows[pk].isDefault ==> env.scope == GlobalScope)
  {
    hide Strip, Acceptable, AllSpace;
    BlankIsStripped(env.name);
    BlankIsStripped(env.image);
  }

  /** What a promotion leaves: one default, and nothing else changed but the promoted row's stripping. */
  lemma PromoteMeans(rows: Store, pk: nat, rest: bool)
    requires Promotable(rows, pk, rest)
    ensures var after := Applied(rows, Promote(pk, rest));
            && after.Keys == rows.Keys && after[pk].isDefault && after[pk].scope == GlobalScope == rows[pk].scope
            && after[pk].name == Strip(rows[pk].name) && after[pk].image == Strip(rows[pk].image)
            && |after[pk].repoIds| == |rows[pk].repoIds|
            && (forall i | 0 <= i < |rows[pk].repoIds| :: after[pk].repoIds[i] == Strip(rows[pk].repoIds[i]))
            && forall p | p in rows && p != pk ::
                 && after[p].scope == rows[p].scope && after[p].name == rows[p].name && after[p].image == rows[p].image
                 && after[p].repoIds == rows[p].repoIds
                 && (after[p].isDefault <==> rows[p].isDefault && rows[p].scope != GlobalScope)
  {
    hide Strip, Saveable;
  }

  lemma EmptyIsNoRepo()
    ensures !IsRepoId("")
  {
  }

  lemma NothingClashes(rows: Store, pk: nat, scope: Scope)
    ensures forall other | other in rows :: !Clashes(rows, other, pk, scope, [])
  {
  }

  /** Validation does not look at default flags. */
  lemma SameButDefaults(a: Store, b: Store, pk: nat)
    requires a.Keys == b.Keys
    requires forall p | p in a :: b[p].scope == a[p].scope && b[p].name == a[p].name && b[p].repoIds == a[p].repoIds
    ensures forall raw, scope :: Acceptable(b, raw, pk, scope) == Acceptable(a, raw, pk, scope)
    ensures forall scope, name :: NameTaken(b, pk, scope, name) == NameTaken(a, pk, scope, name)
  {
    hide IsRepoId, Share, Distinct;
    forall raw, scope ensures Acceptable(b, raw, pk, scope) == Acceptable(a, raw, pk, scope) {
      forall other ensures Clashes(b, other, pk, scope, StripAll(raw)) == Clashes(a, other, pk, scope, StripAll(raw)) {
      }
    }
  }

  // ---------------------------------------------------------------- what every store keeps

  ghost predicate DisjointClaims(rows: Store) {
    forall p, q | p in rows && q in rows && p != q && rows[p].scope == rows[q].scope ::
      !Share(rows[p].repoIds, rows[q].repoIds)
  }

  ghost predicate DefaultsAreGlobal(rows: Store) {
    forall p | p in rows && rows[p].isDefault :: rows[p].scope.GlobalScope?
  }

  ghost predicate OneDefault(rows: Store) {
    forall p, q | p in rows && q in rows && rows[p].isDefault && rows[q].isDefault :: p == q
  }

  predicate HasDefault(rows: Store) {
    exists p | p in rows :: rows[p].isDefault
  }

  ghost predicate Coherent(rows: Store) {
    DisjointClaims(rows) && DefaultsAreGlobal(rows) && OneDefault(rows)
  }

  lemma SaveKeepsClaims(rows: Store, pk: nat, row: Env)
    requires DisjointClaims(rows) && forall other | other in rows :: !Clashes(rows, other, pk, row.scope, row.repoIds)
    ensures DisjointClaims(rows[pk := row])
  {
    ShareBothWays();
  }

  lemma ShareBothWays()
    ensures forall a: seq<string>, b: seq<string> :: Share(a, b) <==> Share(b, a)
  {
  }

  lemma AppliedIsCoherent(rows: Store, c: Change)
    requires Coherent(rows)
    ensures Coherent(Applied(rows, c))
    ensures HasDefault(rows) ==> HasDefault(Applied(rows, c))
    ensures c.Promote? && Promotable(rows, c.pk, c.rest) ==> Applied(rows, c)[c.pk].isDefault
  {
    hide IsRepoId, Strip, NameTaken, Share, Distinct;
    var after := Applied(rows, c);
    if c.Save? && Saveable(rows, c.pk, c.env, c.rest) {
      SaveKeepsClaims(rows, c.pk, Cleaned(rows, c.pk, c.env));
      DefaultSurvivesSave(rows, c.pk, Cleaned(rows, c.pk, c.env));
    } else if c.Promote? && Promotable(rows, c.pk, c.rest) {
      PromotedIsCoherent(rows, c.pk);
    } else if c.Delete? && after != rows {
      if p :| p in rows && rows[p].isDefault {
        assert p in after;
      }
    }
  }

  lemma DefaultSurvivesSave(rows: Store, pk: nat, row: Env)
    requires Coherent(rows) && row.isDefault == (pk in rows && rows[pk].isDefault)
    requires row.isDefault ==> row.scope.GlobalScope?
    ensures DefaultsAreGlobal(rows[pk := row]) && OneDefault(rows[pk := row])
    ensures HasDefault(rows) ==> HasDefault(rows[pk := row])
  {
    hide Share;
    if p :| p in rows && rows[p].isDefault {
      assert p in rows[pk := row];
    }
  }

  lemma PromotedIsCoherent(rows: Store, pk: nat)
    requires Coherent(rows) && Promotable(rows, pk, true)
    ensures Coherent(Promoted(rows, pk)) && Promoted(rows, pk)[pk].isDefault
  {
    hide IsRepoId, Strip, NameTaken, Share, Distinct;
    var after := Promoted(rows, pk);
    ShareBothWays();
    forall p, q | p in after && q in after && p != q && after[p].scope == after[q].scope
      ensures !Share(after[p].repoIds, after[q].repoIds)
    {
      if p == pk || q == pk {
        var other := if p == pk then q else p;
        assert !Clashes(rows, other, pk, rows[pk].scope, StripAll(rows[pk].repoIds));
      }
    }
  }

  ghost predicate Trace(stores: seq<Store>, changes: seq<Change>) {
    && |stores| == |changes| + 1 && stores[0] == map[]
    && forall k | 0 <= k < |changes| :: stores[k + 1] == Applied(stores[k], changes[k])
  }

  lemma {:induction false} ReachableIsCoherent(stores: seq<Store>, changes: seq<Change>, n: nat)
    requires Trace(stores, changes) && n <= |changes|
    ensures Coherent(stores[n])
  {
    hide Applied, Coherent;
    if n == 0 {
      EmptyIsCoherent();
    } else {
      ReachableIsCoherent(stores, changes, n - 1);
      AppliedIsCoherent(stores[n - 1], changes[n - 1]);
    }
  }

  lemma EmptyIsCoherent()
    ensures Coherent(map[])
  {
  }

  /** Once there is a global default there is always exactly one. */
  lemma {:induction false} ExactlyOneDefault(stores: seq<Store>, changes: seq<Change>, i: nat, n: nat)
    requires Trace(stores, changes) && i <= n <= |changes| && HasDefault(stores[i])
    ensures exists p :: p in stores[n] && stores[n][p].isDefault && stores[n][p].scope.GlobalScope?
              && forall q | q in stores[n] && stores[n][q].isDefault :: q == p
    ensures HasDefault(stores[n])
  {
    hide Applied, DisjointClaims;
    ReachableIsCoherent(stores, changes, n);
    if i < n {
      ExactlyOneDefault(stores, changes, i, n - 1);
      ReachableIsCoherent(stores, changes, n - 1);
      AppliedIsCoherent(stores[n - 1], changes[n - 1]);
    }
    var p :| p in stores[n] && stores[n][p].isDefault;
  }

  // ---------------------------------------------------------------- resolving

  predicate Claims(rows: Store, p: nat, scope: Scope, repo: string) {
    p in rows && rows[p].scope == scope && repo in rows[p].repoIds
  }

  predicate Claimed(rows: Store, scope: Scope, repo: string) {
    exists p | p in rows :: Claims(rows, p, scope, repo)
  }

  predicate IsDefaultRow(rows: Store, r: Option<nat>) {
    if r.Some? then r.value in rows && rows[r.value].scope.GlobalScope? && rows[r.value].isDefault
    else forall p | p in rows :: !(rows[p].scope.GlobalScope? && rows[p].isDefault)
  }

  /** The documented chain: the user's environment that claims the repository, else the global one that does,
      the default included, else the default, else nothing. An empty repository id matches nothing. */
  ghost predicate IsAnswer(rows: Store, user: Option<nat>, repo: string, r: Option<nat>) {
    if repo != "" && user.Some? && Claimed(rows, UserScope(user.value), repo) then
      r.Some? && Claims(rows, r.value, UserScope(user.value), repo)
    else if repo != "" && Claimed(rows, GlobalScope, repo) then
      r.Some? && Claims(rows, r.value, GlobalScope, repo)
    else IsDefaultRow(rows, r)
  }

  /** In a coherent store the chain has one answer. */
  lemma OneAnswer(rows: Store, user: Option<nat>, repo: string, a: Option<nat>, b: Option<nat>)
    requires Coherent(rows) && IsAnswer(rows, user, repo, a) && IsAnswer(rows, user, repo, b)
    ensures a == b
  {
    hide Claimed;
    if a.Some? && b.Some? {
      forall scope | Claims(rows, a.value, scope, repo) && Claims(rows, b.value, scope, repo) ensures a == b {
        OneClaimant(rows, a.value, b.value, scope, repo);
      }
    }
  }

  lemma OneClaimant(rows: Store, p: nat, q: nat, scope: Scope, repo: string)
    requires DisjointClaims(rows) && Claims(rows, p, scope, repo) && Claims(rows, q, scope, repo)
    ensures p == q
  {
    assert Share(rows[p].repoIds, rows[q].repoIds);
  }

  /** What a query returns: the rows of a scope, in whatever order. */
  ghost predicate Rows(rows: Store, listed: seq<nat>, scope: Scope, withDefault: bool) {
    forall p :: p in listed <==> p in rows && rows[p].scope == scope && (rows[p].isDefault ==> withDefault)
  }

  /** The queries of one resolution: the user's rows, the global rows that are not the default, the default. */
  ghost predicate Snapshot(rows: Store, user: Option<nat>, own: seq<nat>, shared: seq<nat>, default: Option<nat>) {
    && (if user.Some? then Rows(rows, own, UserScope(user.value), true) else own == [])
    && Rows(rows, shared, GlobalScope, false)
    && IsDefaultRow(rows, default)
  }

  method FirstClaiming(rows: Store, listed: seq<nat>, repo: string) returns (found: Option<nat>)
    requires forall p | p in listed :: p in rows
    ensures found.Some? ==> found.value in listed && repo in rows[found.value].repoIds
    ensures found.None? ==> forall p | p in listed :: repo !in rows[p].repoIds
  {
    for i := 0 to |listed|
      invariant forall j | 0 <= j < i :: repo !in rows[listed[j]].repoIds
    {
      if repo in rows[listed[i]].repoIds {
        return Some(listed[i]);
      }
    }
    return None;
  }

  /** `resolve_env_for_run`: although it skips the default in the second step, it answers as documented. */
  method ResolveEnvForRun(rows: Store, user: Option<nat>, repo: string, own: seq<nat>, shared: seq<nat>,
                          default: Option<nat>) returns (r: Option<nat>)
    requires Coherent(rows) && Snapshot(rows, user, own, shared, default)
    ensures IsAnswer(rows, user, repo, r)
  {
    if repo != "" {
      if user.Some? {
        var mine := FirstClaiming(rows, own, repo);
        if mine.Some? {
          return mine;
        }
      }
      var global := FirstClaiming(rows, shared, repo);
      if global.Some? {
        return global;
      }
    }
    DefaultAnswers(rows, user, repo, own, shared, default);
    return default;
  }

  /** When neither list has a claim, only the default itself can claim the repository. */
  lemma DefaultAnswers(rows: Store, user: Option<nat>, repo: string, own: seq<nat>, shared: seq<nat>,
                       default: Option<nat>)
    requires Coherent(rows) && Snapshot(rows, user, own, shared, default)
    requires repo != "" ==> forall p | p in own || p in shared :: repo !in rows[p].repoIds
    ensures IsAnswer(rows, user, repo, default)
  {
    hide DisjointClaims;
  }

  datatype Target = Target(repo: string, env: Option<nat>)

  /** `aresolve_repo_envs`: one snapshot for the whole batch. */
  method ResolveRepoEnvs(rows: Store, user: Option<nat>, targets: seq<Target>, explicit: Option<nat>, own: seq<nat>,
                         shared: seq<nat>, default: Option<nat>) returns (resolved: seq<Target>)
    requires Coherent(rows) && Snapshot(rows, user, own, shared, default)
    ensures |resolved| == |targets| && forall i | 0 <= i < |targets| :: resolved[i].repo == targets[i].repo
    ensures forall i | 0 <= i < |targets| ::
              if explicit.Some? then resolved[i].env == explicit
              else IsAnswer(rows, user, targets[i].repo, resolved[i].env)
  {
    hide Coherent, Snapshot, IsAnswer;
    resolved := [];
    for i := 0 to |targets|
      invariant |resolved| == i && forall j | 0 <= j < i :: resolved[j].repo == targets[j].repo
      invariant forall j | 0 <= j < i ::
                  if explicit.Some? then resolved[j].env == explicit
                  else IsAnswer(rows, user, targets[j].repo, resolved[j].env)
    {
      if explicit.Some? {
        resolved := resolved + [targets[i].(env := explicit)];
      } else {
        var env := ResolveEnvForRun(rows, user, targets[i].repo, own, shared, default);
        resolved := resolved + [targets[i].(env := env)];
      }
    }
  }

  /** Main result: in every reachable store the batch resolver gives each repository what the per-repository
      resolver gives it, whatever order either of them read the rows in. */
  method BatchAgrees(stores: seq<Store>, changes: seq<Change>, n: nat, user: Option<nat>, targets: seq<Target>,
                     own: seq<nat>, shared: seq<nat>, default: Option<nat>,
                     own': seq<nat>, shared': seq<nat>, default': Option<nat>, i: nat)
      returns (batch: seq<Target>, one: Option<nat>)
    requires Trace(stores, changes) && n <= |changes| && i < |targets|
    requires Snapshot(stores[n], user, own, shared, default) && Snapshot(stores[n], user, own', shared', default')
    ensures |batch| == |targets| && batch[i].env == one
  {
    hide Applied, Coherent, Snapshot, IsAnswer;
    ReachableIsCoherent(stores, changes, n);
    batch := ResolveRepoEnvs(stores[n], user, targets, None, own, shared, default);
    one := ResolveEnvForRun(stores[n], user, targets[i].repo, own', shared', default');
    OneAnswer(stores[n], user, targets[i].repo, batch[i].env, one);
  }
}
