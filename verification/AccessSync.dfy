/** The mirror of repository members that authorization reads, and the cycle that refreshes it. One
    provider; instants are seconds on one clock. */
module AccessSync {
  import opened Common

  /** The column may hold a tier the enum does not know. */
  datatype Level = Read | Write | Unrecognised(name: string)

  datatype Member = Member(uid: string, level: Level)

  datatype Row = Row(level: Level, syncedAt: int)

  /** Keyed on (repository, user), which the table keeps unique. */
  type Table = map<(string, string), Row>

  /** One repository's turn in a cycle: what the platform answered (None if it raised), when, and whether
      the database took the new rows. */
  datatype Visit = Visit(slug: string, members: Option<seq<Member>>, at: int, saved: bool)

  /** One cycle: when it started and pruned, the listed repositories (None if listing them raised), and
      whether the catalog writes went through. */
  datatype Cycle = Cycle(start: int, visits: Option<seq<Visit>>, catalogSaved: bool, end: int)

  // ---------------------------------------------------------------- one repository

  predicate Unique(members: seq<Member>) {
    forall i, j | 0 <= i < j < |members| :: members[i].uid != members[j].uid
  }

  /** The listing replaces the repository's rows: it is non-empty and the insert went through, which a
      repeated user id prevents. */
  predicate Good(v: Visit) {
    v.members.Some? && v.members.value != [] && Unique(v.members.value) && v.saved
  }

  function Others(rows: Table, repo: string): Table {
    map k | k in rows && k.0 != repo :: rows[k]
  }

  function Listed(v: Visit): (rows: Table)
    requires Good(v)
    ensures forall u :: (v.slug, u) in rows <==> exists m | m in v.members.value :: m.uid == u
    ensures forall m | m in v.members.value :: (v.slug, m.uid) in rows && rows[(v.slug, m.uid)] == Row(m.level, v.at)
    ensures forall k | k in rows :: k.0 == v.slug
  {
    map m | m in v.members.value :: (v.slug, m.uid) := Row(m.level, v.at)
  }

  function Visited(rows: Table, v: Visit): Table {
    if Good(v) then Others(rows, v.slug) + Listed(v) else rows
  }

  function AllVisited(rows: Table, visits: seq<Visit>): Table {
    if visits == [] then rows else
      Visited(AllVisited(rows, visits[..|visits| - 1]), visits[|visits| - 1])
  }

  // ---------------------------------------------------------------- one cycle

  predicate Visits(visits: seq<Visit>, repo: string) {
    exists i | 0 <= i < |visits| :: visits[i].slug == repo
  }

  function InUniverse(rows: Table, visits: seq<Visit>): Table {
    map k | k in rows && Visits(visits, k.0) :: rows[k]
  }

  predicate Fresh(r: Row, now: int, ttl: nat) {
    r.syncedAt >= now - ttl
  }

  function FreshRows(rows: Table, now: int, ttl: nat): Table {
    map k | k in rows && Fresh(rows[k], now, ttl) :: rows[k]
  }

  /** How far a cycle is: the visits behind it, each committed on its own, and whether the repositories that were
      not listed have been dropped, which nothing is when the listing was empty. */
  datatype Progress = Progress(visits: seq<Visit>, dropped: bool)

  function Reached(rows: Table, p: Progress): Table {
    var all := AllVisited(rows, p.visits);
    if p.dropped && p.visits != [] then InUniverse(all, p.visits) else all
  }

  /** The rows before the last deletion, of those past the hard limit. */
  function Unpruned(rows: Table, c: Cycle): Table {
    if c.visits.None? then rows else Reached(rows, Progress(c.visits.value, true))
  }

  function After(rows: Table, c: Cycle, ttl: nat): Table {
    if c.visits.None? then rows else FreshRows(Unpruned(rows, c), c.end, ttl)
  }

  function Repositories(rows: Table): (repos: set<string>)
    ensures forall repo :: repo in repos <==> exists k | k in rows :: k.0 == repo
  {
    set k | k in rows :: k.0
  }

  /** The visits that count as failures; an empty listing does only for a repository that had rows when the
      cycle began. */
  predicate Fails(v: Visit, had: set<string>) {
    !Good(v) && (v.members == Some([]) ==> v.slug in had)
  }

  function Failures(visits: seq<Visit>, had: set<string>): nat {
    if visits == [] then 0 else
      Failures(visits[..|visits| - 1], had) + if Fails(visits[|visits| - 1], had) then 1 else 0
  }

  datatype Status = Never | Ok | Failed

  class AccessMirror {
    var rows: Table
    var status: Status
    var lastStartedAt: Option<int>
    var lastSuccessAt: Option<int>

    constructor ()
      ensures rows == map[] && status == Never && lastStartedAt.None? && lastSuccessAt.None?
    {
      rows, status, lastStartedAt, lastSuccessAt := map[], Never, None, None;
    }

    /** `sync_repository_access_cron_task` */
    method Sync(c: Cycle, ttl: nat)
      modifies this
      ensures rows == After(old(rows), c, ttl)
      ensures lastStartedAt == Some(c.start)
      ensures status == if c.visits.Some? && Clean(c, old(rows)) then Status.Ok else Failed
      ensures lastSuccessAt == if status.Ok? then Some(c.end) else old(lastSuccessAt)
    {
      hide Listed;
      lastStartedAt := Some(c.start);
      if c.visits.None? {
        status := Failed;
        return;
      }
      var visits := c.visits.value;
      var had := Repositories(rows);
      var failures := if c.catalogSaved then 0 else 1;
      for i := 0 to |visits|
        invariant rows == AllVisited(old(rows), visits[..i])
        invariant failures == Failures(visits[..i], had) + if c.catalogSaved then 0 else 1
        invariant status == old(status) && lastStartedAt == Some(c.start) && lastSuccessAt == old(lastSuccessAt)
      {
        assert visits[..i + 1][..i] == visits[..i];
        var v := visits[i];
        if v.members.None? {
          failures := failures + 1;
          continue;
        }
        if v.members.value == [] {
          if v.slug in had {
            failures := failures + 1;
          }
          continue;
        }
        if Unique(v.members.value) && v.saved {
          rows := Others(rows, v.slug);
          rows := rows + Listed(v);
        } else {
          failures := failures + 1;
        }
      }
      assert visits[..|visits|] == visits;
      if visits != [] {
        rows := InUniverse(rows, visits);
      } else if had != {} {
        failures := failures + 1;
      }
      rows := FreshRows(rows, c.end, ttl);
      if failures > 0 {
        status := Failed;
      } else {
        status, lastSuccessAt := Status.Ok, Some(c.end);
      }
    }
  }

  /** Nothing went wrong in the cycle. */
  predicate Clean(c: Cycle, rows: Table)
    requires c.visits.Some?
  {
    && c.catalogSaved
    && Failures(c.visits.value, Repositories(rows)) == 0
    && (c.visits.value == [] ==> Repositories(rows) == {})
  }

  // ---------------------------------------------------------------- decisions

  /** Admins, and users by their platform identity if they have one. */
  datatype User = Admin | Linked(uid: string) | Unlinked

  function LevelOn(rows: Table, uid: string, repo: string, now: int, ttl: nat): Option<Level> {
    if (repo, uid) in rows && Fresh(rows[(repo, uid)], now, ttl) && !rows[(repo, uid)].level.Unrecognised?
    then Some(rows[(repo, uid)].level) else None
  }

  function AccessLevel(user: User, rows: Table, repo: string, now: int, ttl: nat): Option<Level> {
    match user
    case Admin => Some(Write)
    case Linked(uid) => LevelOn(rows, uid, repo, now, ttl)
    case Unlinked => None
  }

  predicate CanRun(user: User, rows: Table, repo: string, now: int, ttl: nat) {
    AccessLevel(user, rows, repo, now, ttl) == Some(Write)
  }

  /** `assert_can_run`: the repositories it refuses, in the order asked. */
  method AssertCanRun(user: User, rows: Table, repos: seq<string>, now: int, ttl: nat) returns (denied: seq<string>)
    ensures denied == Refused(user, rows, repos, now, ttl)
    ensures user.Admin? ==> denied == []
    ensures user.Unlinked? ==> denied == repos
    ensures user.Linked? ==> forall repo :: repo in denied <==>
              repo in repos && !((repo, user.uid) in rows && rows[(repo, user.uid)].level == Write
                                 && rows[(repo, user.uid)].syncedAt >= now - ttl)
  {
    RefusedMeans(user, rows, repos, now, ttl);
    denied := [];
    if user.Admin? {
      NobodyRefusesAdmin(rows, repos, now, ttl);
      return;
    }
    if user.Unlinked? {
      EveryoneRefused(rows, repos, now, ttl);
      return repos;
    }
    var writable := set k | k in rows && k.1 == user.uid && k.0 in repos
                              && Fresh(rows[k], now, ttl) && rows[k].level.Write? :: k.0;
    for i := 0 to |repos|
      invariant denied == Refused(user, rows, repos[..i], now, ttl)
    {
      assert repos[..i + 1][..i] == repos[..i];
      assert repos[i] in writable <==> CanRun(user, rows, repos[i], now, ttl) by {
        if CanRun(user, rows, repos[i], now, ttl) {
          assert (repos[i], user.uid) in rows && (repos[i], user.uid).0 in writable;
        }
      }
      if repos[i] !in writable {
        denied := denied + [repos[i]];
      }
    }
    assert repos[..|repos|] == repos;
  }

  function Refused(user: User, rows: Table, repos: seq<string>, now: int, ttl: nat): seq<string> {
    if repos == [] then [] else
      var n := |repos| - 1;
      Refused(user, rows, repos[..n], now, ttl) + if CanRun(user, rows, repos[n], now, ttl) then [] else [repos[n]]
  }

  lemma {:induction false} RefusedMeans(user: User, rows: Table, repos: seq<string>, now: int, ttl: nat)
    ensures forall repo :: repo in Refused(user, rows, repos, now, ttl) <==>
              repo in repos && !CanRun(user, rows, repo, now, ttl)
  {
    hide CanRun;
    if repos != [] {
      var n := |repos| - 1;
      RefusedMeans(user, rows, repos[..n], now, ttl);
      assert repos == repos[..n] + [repos[n]];
    }
  }

  lemma {:induction false} NobodyRefusesAdmin(rows: Table, repos: seq<string>, now: int, ttl: nat)
    ensures Refused(Admin, rows, repos, now, ttl) == []
  {
    if repos != [] {
      NobodyRefusesAdmin(rows, repos[..|repos| - 1], now, ttl);
    }
  }

  lemma {:induction false} EveryoneRefused(rows: Table, repos: seq<string>, now: int, ttl: nat)
    ensures Refused(Unlinked, rows, repos, now, ttl) == repos
  {
    if repos != [] {
      var n := |repos| - 1;
      RefusedOneMore(rows, repos, now, ttl, n);
      hide Refused;
      EveryoneRefused(rows, repos[..n], now, ttl);
      assert repos[..n] + [repos[n]] == repos;
    }
  }

  lemma RefusedOneMore(rows: Table, repos: seq<string>, now: int, ttl: nat, n: nat)
    requires n == |repos| - 1
    ensures Refused(Unlinked, rows, repos, now, ttl) == Refused(Unlinked, rows, repos[..n], now, ttl) + [repos[n]]
  {
  }

  lemma {:induction false} NoFailures(visits: seq<Visit>, had: set<string>)
    ensures Failures(visits, had) == 0 <==> forall v | v in visits :: !Fails(v, had)
  {
    hide Fails;
    if visits != [] {
      var n := |visits| - 1;
      NoFailures(visits[..n], had);
      assert visits == visits[..n] + [visits[n]];
    }
  }

  /** A cycle is clean if the catalog was saved, every repository's members were listed and stored, none listed twice,
      or the listing was empty where no row was, and the listing of repositories was not empty while rows were. */
  lemma CleanMeans(c: Cycle, rows: Table)
    requires c.visits.Some?
    ensures Clean(c, rows) <==>
            && c.catalogSaved
            && (c.visits.value == [] ==> rows == map[])
            && forall v | v in c.visits.value ::
                 && v.members.Some?
                 && (v.members.value == [] ==> forall k | k in rows :: k.0 != v.slug)
                 && (v.members.value != [] ==>
                       v.saved && forall i, j | 0 <= i < j < |v.members.value| ::
                         v.members.value[i].uid != v.members.value[j].uid)
  {
    NoFailures(c.visits.value, Repositories(rows));
    hide Failures;
    if Repositories(rows) == {} {
      assert forall k | k in rows :: k.0 in Repositories(rows);
    }
    forall v | v in c.visits.value
      ensures v.slug in Repositories(rows) <==> exists k | k in rows :: k.0 == v.slug
    {
    }
  }

  // ---------------------------------------------------------------- whole histories

  /** Time moves forward through a cycle and from one to the next. */
  predicate Timed(cycles: seq<Cycle>) {
    && (forall i | 0 <= i < |cycles| :: WithinCycle(cycles[i]))
    && (forall i, j | 0 <= i < j < |cycles| :: cycles[i].end <= cycles[j].start)
  }

  predicate WithinCycle(c: Cycle) {
    && c.start <= c.end
    && (c.visits.Some? ==> forall v | v in c.visits.value :: c.start <= v.at <= c.end)
  }

  function Mirror(cycles: seq<Cycle>, ttl: nat): Table {
    if cycles == [] then map[] else After(Mirror(cycles[..|cycles| - 1], ttl), cycles[|cycles| - 1], ttl)
  }

  /** The last good listing of repo among these visits. */
  function LastGood(visits: seq<Visit>, repo: string): (v: Option<Visit>)
    ensures v.Some? ==> v.value in visits && v.value.slug == repo && Good(v.value)
  {
    if visits == [] then None else
      var v := visits[|visits| - 1];
      if v.slug == repo && Good(v) then Some(v) else LastGood(visits[..|visits| - 1], repo)
  }

  /** The listing that decides about repo, where `before` did when the cycle began. */
  function Decided(before: Option<Visit>, p: Progress, repo: string): Option<Visit> {
    if p.dropped && p.visits != [] && !Visits(p.visits, repo) then None else
      var v := LastGood(p.visits, repo);
      if v.Some? then v else before
  }

  /** The listing that decides about repo: the last good one, unless a later non-empty listing of the
      repositories lacked repo. */
  function Deciding(cycles: seq<Cycle>, repo: string): (v: Option<Visit>)
    ensures v.Some? ==> v.value.slug == repo && Good(v.value)
  {
    if cycles == [] then None else
      var c := cycles[|cycles| - 1];
      var before := Deciding(cycles[..|cycles| - 1], repo);
      if c.visits.None? then before else Decided(before, Progress(c.visits.value, true), repo)
  }

  /** The table authorization reads after these cycles and as much of the next, and the listing that decides then. */
  function TableAt(cycles: seq<Cycle>, p: Progress, ttl: nat): Table {
    Reached(Mirror(cycles, ttl), p)
  }

  function DecidingAt(cycles: seq<Cycle>, p: Progress, repo: string): Option<Visit> {
    Decided(Deciding(cycles, repo), p, repo)
  }

  /** The j-th visit of the i-th cycle. */
  ghost predicate Made(cycles: seq<Cycle>, i: nat, j: nat, v: Visit) {
    i < |cycles| && cycles[i].visits.Some? && j < |cycles[i].visits.value| && cycles[i].visits.value[j] == v
  }

  /** The visit stored a listing of repo: it is not empty, names nobody twice, and was saved. */
  ghost predicate Stores(v: Visit, repo: string) {
    && v.slug == repo && v.saved && v.members.Some? && v.members.value != []
    && forall i, j | 0 <= i < j < |v.members.value| :: v.members.value[i].uid != v.members.value[j].uid
  }

  /** The cycle listed repositories, but not repo. */
  ghost predicate Omits(c: Cycle, repo: string) {
    c.visits.Some? && c.visits.value != [] && forall v | v in c.visits.value :: v.slug != repo
  }

  lemma {:induction false} LastGoodMeans(visits: seq<Visit>, repo: string)
    ensures LastGood(visits, repo) == None ==> forall j | 0 <= j < |visits| :: !Stores(visits[j], repo)
    ensures LastGood(visits, repo).Some? ==>
              exists j | 0 <= j < |visits| :: visits[j] == LastGood(visits, repo).value && Stores(visits[j], repo)
                                              && forall l | j < l < |visits| :: !Stores(visits[l], repo)
  {
    if visits != [] {
      LastGoodMeans(visits[..|visits| - 1], repo);
    }
  }

  lemma OmitsMeans(c: Cycle, repo: string)
    ensures Omits(c, repo) <==> c.visits.Some? && c.visits.value != [] && !Visits(c.visits.value, repo)
  {
  }

  /** A visit decides exactly if it stored a listing, none of repo's later visits did, and no later cycle omitted repo;
      none decides if every visit that stored one was followed by a cycle that omitted it. */
  lemma {:induction false} DecidingMeans(cycles: seq<Cycle>, repo: string)
    ensures var d := Deciding(cycles, repo);
            && (d.Some? ==> exists i: nat, j: nat :: Made(cycles, i, j, d.value) && Decisive(cycles, repo, i, j))
            && (d.None? ==> forall i: nat, j: nat, v | Made(cycles, i, j, v) && Stores(v, repo) ::
                              exists k :: i < k < |cycles| && Omits(cycles[k], repo))
  {
    hide Stores, Omits, Visits, Decisive, Made;
    if cycles == [] {
      NothingMade(repo);
    } else {
      var n := |cycles| - 1;
      var c := cycles[n];
      DecidingMeans(cycles[..n], repo);
      OmitsMeans(c, repo);
      MadeEarlier(cycles);
      if c.visits.Some? {
        LastGoodMeans(c.visits.value, repo);
      }
      if Omits(c, repo) {
        OmittedIsNotStored(cycles, repo);
      } else if c.visits.Some? && LastGood(c.visits.value, repo).Some? {
        var j: nat :| j < |c.visits.value| && c.visits.value[j] == LastGood(c.visits.value, repo).value
          && Stores(c.visits.value[j], repo) && forall l | j < l < |c.visits.value| :: !Stores(c.visits.value[l], repo);
        LastIsDecisive(cycles, repo, j);
      } else {
        NotStoredNow(cycles, n, repo);
        if Deciding(cycles[..n], repo).Some? {
          var i: nat, j: nat :| Made(cycles[..n], i, j, Deciding(cycles[..n], repo).value)
                                && Decisive(cycles[..n], repo, i, j);
          DecisiveStays(cycles, n, repo, i, j);
        } else {
          NoneStays(cycles, cycles[..n], n, repo);
        }
      }
    }
  }

  lemma NothingMade(repo: string)
    ensures forall i: nat, j: nat, v :: !Made([], i, j, v)
  {
  }

  lemma MadeEarlier(cycles: seq<Cycle>)
    requires cycles != []
    ensures var n := |cycles| - 1;
            forall i: nat, j: nat, v :: Made(cycles, i, j, v) <==>
              Made(cycles[..n], i, j, v)
              || (i == n && cycles[n].visits.Some? && j < |cycles[n].visits.value| && cycles[n].visits.value[j] == v)
  {
  }

  lemma NotStoredNow(cycles: seq<Cycle>, n: nat, repo: string)
    requires n == |cycles| - 1
    requires var c := cycles[n];
             c.visits.Some? ==> forall j | 0 <= j < |c.visits.value| :: !Stores(c.visits.value[j], repo)
    ensures forall j: nat, v | Made(cycles, n, j, v) :: !Stores(v, repo)
  {
    hide Stores;
  }

  lemma OmittedIsNotStored(cycles: seq<Cycle>, repo: string)
    requires cycles != [] && Omits(cycles[|cycles| - 1], repo)
    ensures forall i: nat, j: nat, v | Made(cycles, i, j, v) && Stores(v, repo) ::
              exists k :: i < k < |cycles| && Omits(cycles[k], repo)
  {
    forall i: nat, j: nat, v | Made(cycles, i, j, v) && Stores(v, repo)
      ensures exists k :: i < k < |cycles| && Omits(cycles[k], repo)
    {
      assert i < |cycles| - 1 by {
        assert v in cycles[i].visits.value && v.slug == repo;
      }
    }
  }

  lemma LastIsDecisive(cycles: seq<Cycle>, repo: string, j: nat)
    requires cycles != [] && cycles[|cycles| - 1].visits.Some?
    requires var visits := cycles[|cycles| - 1].visits.value;
             j < |visits| && Stores(visits[j], repo) && forall l | j < l < |visits| :: !Stores(visits[l], repo)
    ensures Made(cycles, |cycles| - 1, j, cycles[|cycles| - 1].visits.value[j])
    ensures Decisive(cycles, repo, |cycles| - 1, j)
  {
    hide Stores, Omits;
  }

  lemma DecisiveStays(cycles: seq<Cycle>, n: nat, repo: string, i: nat, j: nat)
    requires n == |cycles| - 1 && Decisive(cycles[..n], repo, i, j) && !Omits(cycles[n], repo)
    requires forall l: nat, v | Made(cycles, n, l, v) :: !Stores(v, repo)
    ensures Decisive(cycles, repo, i, j)
  {
    hide Stores, Omits;
    MadeEarlier(cycles);
    var v :| Made(cycles[..n], i, j, v) && Stores(v, repo);
    assert Made(cycles, i, j, v);
    forall k: nat, l: nat, w | Made(cycles, k, l, w) && (k > i || (k == i && l > j)) ensures !Stores(w, repo) {
      assert k < n ==> Made(cycles[..n], k, l, w);
    }
    forall k | i < k < |cycles| ensures !Omits(cycles[k], repo) {
      assert k < n ==> cycles[k] == cycles[..n][k];
    }
  }

  lemma NoneStays(cycles: seq<Cycle>, before: seq<Cycle>, n: nat, repo: string)
    requires n == |cycles| - 1 && before == cycles[..n] && forall l: nat, v | Made(cycles, n, l, v) :: !Stores(v, repo)
    requires forall i: nat, j: nat, v | Made(before, i, j, v) && Stores(v, repo) ::
               exists k :: i < k < n && Omits(before[k], repo)
    ensures forall i: nat, j: nat, v | Made(cycles, i, j, v) && Stores(v, repo) ::
              exists k :: i < k < |cycles| && Omits(cycles[k], repo)
  {
    hide Stores, Omits;
    forall i: nat, j: nat, v | Made(cycles, i, j, v) && Stores(v, repo)
      ensures exists k :: i < k < |cycles| && Omits(cycles[k], repo)
    {
      assert i < n && Made(before, i, j, v);
      var k :| i < k < n && Omits(before[k], repo);
      assert cycles[k] == before[k];
    }
  }

  /** The next visit of a running cycle replaces its repository's rows if it stores a listing, and leaves all others. */
  lemma NextVisit(rows: Table, visits: seq<Visit>, v: Visit, k: (string, string))
    ensures Reached(rows, Progress([], false)) == rows
    ensures var was, now := Reached(rows, Progress(visits, false)), Reached(rows, Progress(visits + [v], false));
            if k.0 == v.slug && Stores(v, v.slug) then
              && (k in now <==> exists level :: Member(k.1, level) in v.members.value)
              && (k in now ==> now[k].syncedAt == v.at && Member(k.1, now[k].level) in v.members.value)
            else (k in now <==> k in was) && (k in now ==> now[k] == was[k])
  {
    assert (visits + [v])[..|visits|] == visits;
    hide AllVisited;
    var was, now := Reached(rows, Progress(visits, false)), Reached(rows, Progress(visits + [v], false));
    assert now == Visited(was, v) by { OneMoreVisit(rows, visits, v); }
    if k.0 == v.slug && Stores(v, v.slug) {
      if k in now {
        var m :| m in v.members.value && m.uid == k.1;
        assert m == Member(k.1, m.level);
      }
      if level :| Member(k.1, level) in v.members.value {
        assert Member(k.1, level).uid == k.1;
      }
    }
  }

  /** What a cycle keeps of the rows its visits left: those of repositories it listed, unless it listed none, that are
      within the limit when it ends. One that could not list the repositories changes nothing. */
  lemma CycleMeans(rows: Table, c: Cycle, ttl: nat, k: (string, string))
    ensures c.visits.None? ==> After(rows, c, ttl) == rows
    ensures c.visits.Some? ==>
              var left, after := Reached(rows, Progress(c.visits.value, false)), After(rows, c, ttl);
              && (k in after <==>
                    && k in left && left[k].syncedAt >= c.end - ttl
                    && (c.visits.value == [] || exists v | v in c.visits.value :: v.slug == k.0))
              && (k in after ==> after[k] == left[k])
  {
    hide AllVisited;
    if c.visits.Some? {
      forall v | v in c.visits.value && v.slug == k.0 ensures Visits(c.visits.value, k.0) {
        var i :| 0 <= i < |c.visits.value| && c.visits.value[i] == v;
      }
    }
  }

  lemma OneMoreVisit(rows: Table, visits: seq<Visit>, v: Visit)
    ensures AllVisited(rows, visits + [v]) == Visited(AllVisited(rows, visits), v)
  {
    assert (visits + [v])[..|visits|] == visits;
  }

  ghost predicate Decisive(cycles: seq<Cycle>, repo: string, i: nat, j: nat) {
    && (exists v :: Made(cycles, i, j, v) && Stores(v, repo))
    && (forall k: nat, l: nat, v | Made(cycles, k, l, v) && (k > i || (k == i && l > j)) :: !Stores(v, repo))
    && (forall k | i < k < |cycles| :: !Omits(cycles[k], repo))
  }

  predicate Lists(v: Visit, uid: string, level: Level) {
    v.members.Some? && Member(uid, level) in v.members.value
  }

  /** The row for (repo, uid) that a deciding listing leaves at time now. */
  ghost predicate RowFrom(v: Option<Visit>, rows: Table, repo: string, uid: string, now: int, ttl: nat) {
    && ((repo, uid) in rows ==>
          v.Some? && rows[(repo, uid)].syncedAt == v.value.at && Lists(v.value, uid, rows[(repo, uid)].level))
    && (v.Some? && v.value.at >= now - ttl ==>
          forall level | Lists(v.value, uid, level) ::
            (repo, uid) in rows && rows[(repo, uid)] == Row(level, v.value.at))
  }

  lemma UniqueLevel(v: Visit, uid: string, a: Level, b: Level)
    requires Good(v) && Lists(v, uid, a) && Lists(v, uid, b)
    ensures a == b
  {
    var i :| 0 <= i < |v.members.value| && v.members.value[i] == Member(uid, a);
    var j :| 0 <= j < |v.members.value| && v.members.value[j] == Member(uid, b);
    assert v.members.value[i].uid == v.members.value[j].uid;
  }

  lemma ListedRow(v: Visit, uid: string, now: int, ttl: nat)
    requires Good(v)
    ensures RowFrom(Some(v), Listed(v), v.slug, uid, now, ttl)
  {
    if (v.slug, uid) in Listed(v) {
      var m :| m in v.members.value && m.uid == uid;
      assert m == Member(uid, m.level);
    }
    forall level | Lists(v, uid, level) ensures Listed(v)[(v.slug, uid)] == Row(level, v.at) {
      assert Member(uid, level) in v.members.value;
    }
  }

  lemma {:induction false} AfterVisits(rows: Table, visits: seq<Visit>, before: Option<Visit>, repo: string,
                                       uid: string, now: int, ttl: nat)
    requires RowFrom(before, rows, repo, uid, now, ttl)
    ensures var v := LastGood(visits, repo);
            RowFrom(if v.Some? then v else before, AllVisited(rows, visits), repo, uid, now, ttl)
  {
    hide Good, Listed, Lists;
    if visits != [] {
      var n := |visits| - 1;
      AfterVisits(rows, visits[..n], before, repo, uid, now, ttl);
      if Good(visits[n]) {
        ListedRow(visits[n], uid, now, ttl);
        ListedElsewhere(visits[n], repo, uid);
      }
    }
  }

  lemma ListedElsewhere(v: Visit, repo: string, uid: string)
    requires Good(v)
    ensures v.slug != repo ==> (repo, uid) !in Listed(v)
  {
  }

  /** Every row comes from its repository's deciding listing, and while that listing is within the limit
      all its members have their row. */
  lemma {:induction false} MirrorIsDeciding(cycles: seq<Cycle>, ttl: nat, repo: string, uid: string, now: int)
    requires Timed(cycles) && forall c | c in cycles :: c.end <= now
    ensures RowFrom(Deciding(cycles, repo), Mirror(cycles, ttl), repo, uid, now, ttl)
  {
    hide Good, Lists, RowFrom, Reached, FreshRows, Decided, WithinCycle;
    if cycles == [] {
      NothingMirrored(repo, uid, now, ttl);
    } else {
      var n := |cycles| - 1;
      var c := cycles[n];
      assert c in cycles;
      assert Timed(cycles[..n]) && forall b | b in cycles[..n] :: b in cycles;
      MirrorIsDeciding(cycles[..n], ttl, repo, uid, now);
      if c.visits.Some? {
        var p := Progress(c.visits.value, true);
        ReachedIsDecided(Mirror(cycles[..n], ttl), p, Deciding(cycles[..n], repo), repo, uid, now, ttl);
        PruningKeepsRowFrom(Unpruned(Mirror(cycles[..n], ttl), c), c.end, Deciding(cycles, repo), repo, uid, now, ttl);
      }
    }
  }

  /** The same at any point of a cycle, from whatever decided when it began. */
  lemma ReachedIsDecided(rows: Table, p: Progress, before: Option<Visit>, repo: string, uid: string, now: int, ttl: nat)
    requires RowFrom(before, rows, repo, uid, now, ttl)
    ensures RowFrom(Decided(before, p, repo), Reached(rows, p), repo, uid, now, ttl)
  {
    hide Good, Lists, AllVisited, LastGood, Visits;
    AfterVisits(rows, p.visits, before, repo, uid, now, ttl);
  }

  /** The table between two visits, or at any other point of a cycle, has the rows of its deciding listing. */
  lemma TableIsDeciding(cycles: seq<Cycle>, p: Progress, ttl: nat, repo: string, uid: string, now: int)
    requires Timed(cycles) && forall c | c in cycles :: c.end <= now
    ensures RowFrom(DecidingAt(cycles, p, repo), TableAt(cycles, p, ttl), repo, uid, now, ttl)
    ensures DecidingAt(cycles, p, repo).Some? ==> Good(DecidingAt(cycles, p, repo).value)
  {
    hide Good, Lists, RowFrom, Mirror, Reached;
    MirrorIsDeciding(cycles, ttl, repo, uid, now);
    ReachedIsDecided(Mirror(cycles, ttl), p, Deciding(cycles, repo), repo, uid, now, ttl);
  }

  lemma NothingMirrored(repo: string, uid: string, now: int, ttl: nat)
    ensures RowFrom(None, map[], repo, uid, now, ttl)
  {
  }

  lemma PruningKeepsRowFrom(rows: Table, end: int, v: Option<Visit>, repo: string, uid: string, now: int, ttl: nat)
    requires end <= now && RowFrom(v, rows, repo, uid, now, ttl)
    ensures RowFrom(v, FreshRows(rows, end, ttl), repo, uid, now, ttl)
  {
    hide Lists;
  }

  /** Whom a check lets run, at any time: a linked user exactly on the repositories whose deciding listing gives write
      access and is within the limit. */
  lemma RunsIffListed(cycles: seq<Cycle>, p: Progress, ttl: nat, uid: string, repos: seq<string>, now: int,
                      repo: string)
    requires Timed(cycles) && (forall c | c in cycles :: c.end <= now) && repo in repos
    ensures repo !in Refused(Linked(uid), TableAt(cycles, p, ttl), repos, now, ttl) <==>
            var v := DecidingAt(cycles, p, repo);
            v.Some? && v.value.at >= now - ttl && v.value.members.Some? && Member(uid, Write) in v.value.members.value
  {
    hide TableAt, DecidingAt, LevelOn, Refused;
    RefusedMeans(Linked(uid), TableAt(cycles, p, ttl), repos, now, ttl);
    GrantedIffListed(cycles, p, ttl, repo, uid, now, Write);
  }

  /** Main result: at any time, also while a cycle is running, whoever is granted a level on a repository is listed
      with it in the deciding listing and that listing is within the limit; and everybody so listed is granted it.
      The listing gives nobody two levels. */
  lemma GrantedIffListed(cycles: seq<Cycle>, p: Progress, ttl: nat, repo: string, uid: string, now: int, level: Level)
    requires Timed(cycles) && forall c | c in cycles :: c.end <= now
    ensures LevelOn(TableAt(cycles, p, ttl), uid, repo, now, ttl) == Some(level) <==>
            var v := DecidingAt(cycles, p, repo);
            v.Some? && v.value.at >= now - ttl && Lists(v.value, uid, level) && !level.Unrecognised?
    ensures var v := DecidingAt(cycles, p, repo);
            v.Some? && Lists(v.value, uid, level) ==> forall other | Lists(v.value, uid, other) :: other == level
  {
    hide Good, Lists, TableAt, DecidingAt;
    TableIsDeciding(cycles, p, ttl, repo, uid, now);
    var v := DecidingAt(cycles, p, repo);
    if v.Some? && Lists(v.value, uid, level) {
      forall other | Lists(v.value, uid, other) ensures other == level {
        UniqueLevel(v.value, uid, level, other);
      }
    }
  }

  /** `viewable_repo_ids`, for a user with an identity: any fresh row counts, whatever its level. */
  predicate Viewable(rows: Table, uid: string, repo: string, now: int, ttl: nat) {
    (repo, uid) in rows && Fresh(rows[(repo, uid)], now, ttl)
  }

  /** A repository is viewable exactly for those the deciding listing names at all, so it may be so without any
      level only for a listed tier that is not recognised. */
  lemma ViewableIffListed(cycles: seq<Cycle>, p: Progress, ttl: nat, repo: string, uid: string, now: int)
    requires Timed(cycles) && forall c | c in cycles :: c.end <= now
    ensures Viewable(TableAt(cycles, p, ttl), uid, repo, now, ttl) <==>
            var v := DecidingAt(cycles, p, repo);
            v.Some? && v.value.at >= now - ttl && exists level :: Lists(v.value, uid, level)
  {
    hide Good, Lists, TableAt, DecidingAt;
    TableIsDeciding(cycles, p, ttl, repo, uid, now);
  }

  /** All rows of a repository share one `synced_at`. */
  lemma OneSyncedAt(cycles: seq<Cycle>, p: Progress, ttl: nat, repo: string, a: string, b: string)
    requires Timed(cycles) && (repo, a) in TableAt(cycles, p, ttl) && (repo, b) in TableAt(cycles, p, ttl)
    ensures TableAt(cycles, p, ttl)[(repo, a)].syncedAt == TableAt(cycles, p, ttl)[(repo, b)].syncedAt
  {
    hide Good, Lists, TableAt, DecidingAt;
    var now := if cycles == [] then 0 else cycles[|cycles| - 1].end;
    forall c | c in cycles ensures c.end <= now {
      var i :| 0 <= i < |cycles| && cycles[i] == c;
      assert WithinCycle(cycles[|cycles| - 1]);
    }
    TableIsDeciding(cycles, p, ttl, repo, a, now);
    TableIsDeciding(cycles, p, ttl, repo, b, now);
  }

  /** The same history without the last deletion of each cycle. */
  function MirrorUnpruned(cycles: seq<Cycle>): Table {
    if cycles == [] then map[] else Unpruned(MirrorUnpruned(cycles[..|cycles| - 1]), cycles[|cycles| - 1])
  }

  lemma VisitedAgree(a: Table, b: Table, v: Visit, now: int, ttl: nat)
    requires FreshRows(a, now, ttl) == FreshRows(b, now, ttl)
    ensures FreshRows(Visited(a, v), now, ttl) == FreshRows(Visited(b, v), now, ttl)
  {
    hide Good, Listed;
    if Good(v) {
      forall k ensures k in FreshRows(Visited(a, v), now, ttl) <==> k in FreshRows(Visited(b, v), now, ttl) {
        assert k in FreshRows(a, now, ttl) <==> k in FreshRows(b, now, ttl);
      }
      forall k | k in FreshRows(Visited(a, v), now, ttl)
        ensures FreshRows(Visited(a, v), now, ttl)[k] == FreshRows(Visited(b, v), now, ttl)[k]
      {
        assert k !in Listed(v) ==> k in FreshRows(a, now, ttl) && k in FreshRows(b, now, ttl);
      }
    }
  }

  lemma {:induction false} AllVisitedAgree(a: Table, b: Table, visits: seq<Visit>, now: int, ttl: nat)
    requires FreshRows(a, now, ttl) == FreshRows(b, now, ttl)
    ensures FreshRows(AllVisited(a, visits), now, ttl) == FreshRows(AllVisited(b, visits), now, ttl)
  {
    hide FreshRows, Visited;
    if visits != [] {
      var n := |visits| - 1;
      AllVisitedAgree(a, b, visits[..n], now, ttl);
      VisitedAgree(AllVisited(a, visits[..n]), AllVisited(b, visits[..n]), visits[n], now, ttl);
    }
  }

  lemma UniverseAgrees(a: Table, b: Table, visits: seq<Visit>, now: int, ttl: nat)
    requires FreshRows(a, now, ttl) == FreshRows(b, now, ttl)
    ensures FreshRows(InUniverse(a, visits), now, ttl) == FreshRows(InUniverse(b, visits), now, ttl)
  {
    hide Visits;
    forall k
      ensures k in FreshRows(InUniverse(a, visits), now, ttl) <==> k in FreshRows(InUniverse(b, visits), now, ttl)
    {
      assert k in FreshRows(a, now, ttl) <==> k in FreshRows(b, now, ttl);
    }
    forall k | k in FreshRows(InUniverse(a, visits), now, ttl)
      ensures FreshRows(InUniverse(a, visits), now, ttl)[k] == FreshRows(InUniverse(b, visits), now, ttl)[k]
    {
      assert k in FreshRows(a, now, ttl) && k in FreshRows(b, now, ttl);
    }
  }

  lemma FreshTwice(rows: Table, early: int, now: int, ttl: nat)
    requires early <= now
    ensures FreshRows(FreshRows(rows, early, ttl), now, ttl) == FreshRows(rows, now, ttl)
  {
  }

  lemma ReachedAgree(a: Table, b: Table, p: Progress, now: int, ttl: nat)
    requires FreshRows(a, now, ttl) == FreshRows(b, now, ttl)
    ensures FreshRows(Reached(a, p), now, ttl) == FreshRows(Reached(b, p), now, ttl)
  {
    hide FreshRows, AllVisited, InUniverse;
    AllVisitedAgree(a, b, p.visits, now, ttl);
    UniverseAgrees(AllVisited(a, p.visits), AllVisited(b, p.visits), p.visits, now, ttl);
  }

  lemma {:induction false} FreshRowsAgree(cycles: seq<Cycle>, ttl: nat, now: int)
    requires forall c | c in cycles :: c.end <= now
    ensures FreshRows(Mirror(cycles, ttl), now, ttl) == FreshRows(MirrorUnpruned(cycles), now, ttl)
  {
    hide FreshRows, Reached;
    if cycles != [] {
      var n := |cycles| - 1;
      var c := cycles[n];
      assert c in cycles && forall b | b in cycles[..n] :: b in cycles;
      FreshRowsAgree(cycles[..n], ttl, now);
      var a, b := Mirror(cycles[..n], ttl), MirrorUnpruned(cycles[..n]);
      if c.visits.Some? {
        ReachedAgree(a, b, Progress(c.visits.value, true), now, ttl);
        FreshTwice(Unpruned(a, c), c.end, now, ttl);
      }
    }
  }

  /** Deleting rows past the limit changes no decision, then or ever after, also not while a later cycle runs. */
  lemma PruningIsInvisible(cycles: seq<Cycle>, p: Progress, ttl: nat, now: int)
    requires forall c | c in cycles :: c.end <= now
    ensures forall uid, repo :: LevelOn(TableAt(cycles, p, ttl), uid, repo, now, ttl) ==
                                LevelOn(Reached(MirrorUnpruned(cycles), p), uid, repo, now, ttl)
  {
    hide FreshRows, Reached, LevelOn;
    FreshRowsAgree(cycles, ttl, now);
    ReachedAgree(Mirror(cycles, ttl), MirrorUnpruned(cycles), p, now, ttl);
    SameDecisions(TableAt(cycles, p, ttl), Reached(MirrorUnpruned(cycles), p), now, ttl);
  }

  lemma SameDecisions(a: Table, b: Table, now: int, ttl: nat)
    requires FreshRows(a, now, ttl) == FreshRows(b, now, ttl)
    ensures forall uid, repo :: LevelOn(a, uid, repo, now, ttl) == LevelOn(b, uid, repo, now, ttl)
  {
    forall uid, repo ensures LevelOn(a, uid, repo, now, ttl) == LevelOn(b, uid, repo, now, ttl) {
      assert (repo, uid) in FreshRows(a, now, ttl) <==> (repo, uid) in FreshRows(b, now, ttl);
      if (repo, uid) in FreshRows(a, now, ttl) {
        assert FreshRows(a, now, ttl)[(repo, uid)] == FreshRows(b, now, ttl)[(repo, uid)];
      }
    }
  }

  /** Two histories in which only repo's own answers differ. */
  predicate OnlyDiffers(c: Cycle, d: Cycle, repo: string) {
    && c.end == d.end && c.visits.Some? == d.visits.Some?
    && (c.visits.Some? ==> OnlyAnswersDiffer(c.visits.value, d.visits.value, repo))
  }

  predicate OnlyAnswersDiffer(v: seq<Visit>, w: seq<Visit>, repo: string) {
    && |v| == |w|
    && forall i | 0 <= i < |v| :: v[i].slug == w[i].slug && (v[i].slug != repo ==> v[i] == w[i])
  }

  lemma {:induction false} VisitsStayLocal(a: Table, b: Table, v: seq<Visit>, w: seq<Visit>, repo: string)
    requires Others(a, repo) == Others(b, repo) && OnlyAnswersDiffer(v, w, repo)
    ensures Others(AllVisited(a, v), repo) == Others(AllVisited(b, w), repo)
  {
    hide Others, Visited;
    if v != [] {
      var n := |v| - 1;
      VisitsStayLocal(a, b, v[..n], w[..n], repo);
      if v[n].slug == repo {
        OwnVisitIsLocal(AllVisited(a, v[..n]), v[n]);
        OwnVisitIsLocal(AllVisited(b, w[..n]), w[n]);
      } else {
        OtherVisitIsSame(AllVisited(a, v[..n]), AllVisited(b, w[..n]), v[n], repo);
      }
    }
  }

  lemma OwnVisitIsLocal(rows: Table, v: Visit)
    ensures Others(Visited(rows, v), v.slug) == Others(rows, v.slug)
  {
    hide Good;
  }

  lemma OtherVisitIsSame(a: Table, b: Table, v: Visit, repo: string)
    requires Others(a, repo) == Others(b, repo) && v.slug != repo
    ensures Others(Visited(a, v), repo) == Others(Visited(b, v), repo)
  {
    hide Good;
    if Good(v) {
      var x, y := Others(Visited(a, v), repo), Others(Visited(b, v), repo);
      forall k ensures k in x <==> k in y {
        assert k in Others(a, repo) <==> k in Others(b, repo);
      }
      forall k | k in x ensures x[k] == y[k] {
        assert k !in Listed(v) ==> k in Others(a, repo) && k in Others(b, repo);
      }
    }
  }

  lemma PruningStaysLocal(a: Table, b: Table, v: seq<Visit>, w: seq<Visit>, end: int, ttl: nat, repo: string)
    requires Others(a, repo) == Others(b, repo) && OnlyAnswersDiffer(v, w, repo)
    ensures Others(FreshRows(a, end, ttl), repo) == Others(FreshRows(b, end, ttl), repo)
    ensures Others(InUniverse(a, v), repo) == Others(InUniverse(b, w), repo)
  {
    forall slug ensures Visits(v, slug) <==> Visits(w, slug) {
    }
    forall k ensures k in a && k.0 != repo <==> k in b && k.0 != repo {
      assert k in Others(a, repo) <==> k in Others(b, repo);
    }
    forall k | k in a && k.0 != repo ensures a[k] == b[k] {
      assert Others(a, repo)[k] == Others(b, repo)[k];
    }
  }

  /** One repository's failures, or anything else the platform answers for it, never change another's rows. */
  lemma {:induction false} FailuresStayLocal(cycles: seq<Cycle>, others: seq<Cycle>, ttl: nat, repo: string)
    requires |cycles| == |others| && forall i | 0 <= i < |cycles| :: OnlyDiffers(cycles[i], others[i], repo)
    ensures Others(Mirror(cycles, ttl), repo) == Others(Mirror(others, ttl), repo)
  {
    hide Others, AllVisited, InUniverse, FreshRows, OnlyAnswersDiffer;
    if cycles != [] {
      var n := |cycles| - 1;
      FailuresStayLocal(cycles[..n], others[..n], ttl, repo);
      var c, d := cycles[n], others[n];
      assert OnlyDiffers(c, d, repo);
      var a, b := Mirror(cycles[..n], ttl), Mirror(others[..n], ttl);
      if c.visits.Some? {
        var v, w := c.visits.value, d.visits.value;
        VisitsStayLocal(a, b, v, w, repo);
        PruningStaysLocal(AllVisited(a, v), AllVisited(b, w), v, w, c.end, ttl, repo);
        assert v == [] <==> w == [] by { assert OnlyAnswersDiffer(v, w, repo); SameLength(v, w, repo); }
        PruningStaysLocal(Unpruned(a, c), Unpruned(b, d), v, w, c.end, ttl, repo);
      }
    }
  }

  lemma SameLength(v: seq<Visit>, w: seq<Visit>, repo: string)
    requires OnlyAnswersDiffer(v, w, repo)
    ensures |v| == |w|
  {
  }
}
