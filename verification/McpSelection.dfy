/** Which MCP servers a run uses: the pool a user sees, the overrides stored for a selection, and the selection
    they stand for when the pool may have changed. */
module McpSelection {
  import opened Common

  datatype Scope = Global | Personal(user: nat)

  datatype Status = Active | OnDemand | Disabled

  datatype Server = Server(name: string, scope: Scope, status: Status)
  {
    predicate IsDefault() { status.Active? }
  }

  // ---------------------------------------------------------------- the pool

  /** The table's uniqueness: names per scope and owner. */
  predicate UniqueRows(table: set<Server>) {
    forall a, b | a in table && b in table && a.name == b.name && a.scope == b.scope :: a == b
  }

  /** What the query returns: the rows visible to the user that are not disabled, each once, global ones first. */
  ghost predicate Visible(table: set<Server>, user: Option<nat>, rows: seq<Server>) {
    && (forall s :: s in rows <==>
          s in table && !s.status.Disabled? && (s.scope.Global? || (user.Some? && s.scope == Personal(user.value))))
    && (forall i, j | 0 <= i < j < |rows| :: rows[i] != rows[j])
    && (forall i, j | 0 <= i < j < |rows| && rows[j].scope.Global? :: rows[i].scope.Global?)
  }

  /** A non-disabled global row takes its name from any personal one. */
  predicate Shadowed(rows: seq<Server>, s: Server) {
    !s.scope.Global? && exists g | g in rows :: g.scope.Global? && g.name == s.name
  }

  function Unshadowed(rows: seq<Server>, n: nat): seq<Server>
    requires n <= |rows|
  {
    if n == 0 then [] else
      Unshadowed(rows, n - 1) + if Shadowed(rows, rows[n - 1]) then [] else [rows[n - 1]]
  }

  /** `deduped_pool_rows`: one forward pass finds every shadowed row, because global rows come first. */
  method DedupedPoolRows(rows: seq<Server>) returns (pool: seq<Server>)
    requires forall i, j | 0 <= i < j < |rows| && rows[j].scope.Global? :: rows[i].scope.Global?
    ensures pool == Unshadowed(rows, |rows|)
  {
    var globalNames: set<string> := {};
    pool := [];
    for i := 0 to |rows|
      invariant pool == Unshadowed(rows, i)
      invariant forall name :: name in globalNames <==>
                  exists j | 0 <= j < i :: rows[j].scope.Global? && rows[j].name == name
    {
      var row := rows[i];
      if row.scope.Global? {
        globalNames := globalNames + {row.name};
      } else {
        ShadowedByEarlier(rows, i);
        if row.name in globalNames {
          continue;
        }
      }
      pool := pool + [row];
    }
  }

  lemma ShadowedByEarlier(rows: seq<Server>, i: nat)
    requires i < |rows| && !rows[i].scope.Global?
    requires forall k, j | 0 <= k < j < |rows| && rows[j].scope.Global? :: rows[k].scope.Global?
    ensures Shadowed(rows, rows[i]) <==> exists j | 0 <= j < i :: rows[j].scope.Global? && rows[j].name == rows[i].name
  {
    if Shadowed(rows, rows[i]) {
      var g :| g in rows && g.scope.Global? && g.name == rows[i].name;
      var j :| 0 <= j < |rows| && rows[j] == g;
      assert j < i;
    }
  }

  predicate UniqueNames(pool: seq<Server>) {
    forall i, j | 0 <= i < j < |pool| :: pool[i].name != pool[j].name
  }

  lemma {:induction false} UnshadowedMeans(rows: seq<Server>, n: nat)
    requires n <= |rows|
    ensures forall s :: s in Unshadowed(rows, n) <==> s in rows[..n] && !Shadowed(rows, s)
  {
    hide Shadowed;
    if n > 0 {
      UnshadowedMeans(rows, n - 1);
      assert rows[..n] == rows[..n - 1] + [rows[n - 1]];
    }
  }

  /** Two visible rows of one name: one shadows the other. */
  lemma SameNameShadows(table: set<Server>, user: Option<nat>, rows: seq<Server>, i: nat, j: nat)
    requires UniqueRows(table) && Visible(table, user, rows) && i < j < |rows| && rows[i].name == rows[j].name
    ensures Shadowed(rows, rows[i]) || Shadowed(rows, rows[j])
  {
    var a, b := rows[i], rows[j];
    assert a in rows && b in rows && a in table && b in table;
  }

  lemma {:induction false} PoolNamesAreUnique(table: set<Server>, user: Option<nat>, rows: seq<Server>, n: nat)
    requires UniqueRows(table) && Visible(table, user, rows) && n <= |rows|
    ensures UniqueNames(Unshadowed(rows, n))
  {
    hide Shadowed, UniqueRows, Visible;
    if n > 0 {
      PoolNamesAreUnique(table, user, rows, n - 1);
      UnshadowedMeans(rows, n - 1);
      var before, s := Unshadowed(rows, n - 1), rows[n - 1];
      if !Shadowed(rows, s) {
        forall t | t in before ensures t.name != s.name {
          assert t in rows[..n - 1];
          var i :| 0 <= i < n - 1 && rows[i] == t;
          if t.name == s.name {
            SameNameShadows(table, user, rows, i, n - 1);
          }
        }
      }
    }
  }

  /** Who is in the pool: what is not disabled and global or the user's own, but a personal server only if no global
      one that is not disabled has its name. */
  lemma PoolMeans(table: set<Server>, user: Option<nat>, rows: seq<Server>, s: Server)
    requires Visible(table, user, rows)
    ensures s in Unshadowed(rows, |rows|) <==>
            && s in table && s.status != Disabled
            && (s.scope == Global
                || (user.Some? && s.scope == Personal(user.value)
                    && forall g | g in table && g.scope == Global && g.name == s.name :: g.status == Disabled))
  {
    UnshadowedMeans(rows, |rows|);
    assert rows[..|rows|] == rows;
    assert forall g | g in rows :: g in table;
  }

  // ---------------------------------------------------------------- diff and apply

  function Names(pool: seq<Server>): (names: set<string>)
    ensures forall n :: n in names <==> exists s | s in pool :: s.name == n
  {
    set s | s in pool :: s.name
  }

  function DefaultNames(pool: seq<Server>): (names: set<string>)
    ensures forall n :: n in names <==> exists s | s in pool :: s.name == n && s.IsDefault()
  {
    set s | s in pool && s.IsDefault() :: s.name
  }

  const ON := "on"
  const OFF := "off"

  /** Stored overrides; the column may hold any text. */
  type Overrides = map<string, string>

  predicate HasOptional(pool: seq<Server>, n: string) {
    exists s | s in pool :: s.name == n && !s.IsDefault()
  }

  /** The selection deviates from the defaults at n. */
  predicate Deviates(selected: set<string>, pool: seq<Server>, n: string) {
    if n in selected then HasOptional(pool, n) else n in DefaultNames(pool)
  }

  /** `diff_selection` */
  method DiffSelection(selected: set<string>, pool: seq<Server>) returns (overrides: Overrides)
    ensures overrides == Diff(selected, pool)
  {
    overrides := map[];
    for i := 0 to |pool|
      invariant overrides == Diff(selected, pool[..i])
    {
      var entry := pool[i];
      DiffGrows(selected, pool[..i], entry);
      assert pool[..i + 1] == pool[..i] + [entry];
      var checked := entry.name in selected;
      if checked && !entry.IsDefault() {
        overrides := overrides[entry.name := ON];
      } else if entry.IsDefault() && !checked {
        overrides := overrides[entry.name := OFF];
      }
    }
    assert pool[..|pool|] == pool;
  }

  function Diff(selected: set<string>, pool: seq<Server>): Overrides {
    map n | n in Names(pool) && Deviates(selected, pool, n) :: if n in selected then ON else OFF
  }

  /** What the stored diff says: on where an optional server is checked, off where a default is not, nothing else. */
  lemma DiffMeans(selected: set<string>, pool: seq<Server>, n: string)
    ensures n in Diff(selected, pool) <==>
            exists s | s in pool :: s.name == n && ((n in selected) != (s.status == Active))
    ensures n in Diff(selected, pool) ==> Diff(selected, pool)[n] == if n in selected then "on" else "off"
  {
    if s :| s in pool && s.name == n && ((n in selected) != (s.status == Active)) {
      assert n in Names(pool);
    }
  }

  lemma DiffGrows(selected: set<string>, pool: seq<Server>, entry: Server)
    ensures Diff(selected, pool + [entry]) ==
            if (entry.name in selected) != entry.IsDefault()
            then Diff(selected, pool)[entry.name := if entry.name in selected then ON else OFF]
            else Diff(selected, pool)
  {
    var after := pool + [entry];
    forall n ensures n in Names(after) && Deviates(selected, after, n) <==>
                     (n in Names(pool) && Deviates(selected, pool, n)) ||
                     (n == entry.name && (n in selected) != entry.IsDefault())
    {
      assert HasOptional(after, n) <==> HasOptional(pool, n) || (n == entry.name && !entry.IsDefault()) by {
        if s :| s in pool && s.name == n && !s.IsDefault() {
          assert s in after;
        }
        assert entry in after;
      }
      assert n in DefaultNames(after) <==> n in DefaultNames(pool) || (n == entry.name && entry.IsDefault()) by {
        if s :| s in pool && s.name == n && s.IsDefault() {
          assert s in after;
        }
        assert entry in after;
      }
      assert HasOptional(pool, n) ==> n in Names(pool);
      assert entry in after;
      assert forall s | s in pool :: s in after;
    }
  }

  function Effective(overrides: Overrides, pool: seq<Server>): set<string> {
    set n | n in Names(pool) && if n in overrides && overrides[n] == ON then true
                                else n in DefaultNames(pool) && !(n in overrides && overrides[n] == OFF)
  }

  /** `effective_selection`; the overrides are read in whatever order the column gives them. */
  method EffectiveSelection(overrides: Overrides, pool: seq<Server>) returns (selected: set<string>)
    ensures selected == Effective(overrides, pool)
  {
    var names := Names(pool);
    selected := DefaultNames(pool);
    var todo: set<string> := overrides.Keys;
    while todo != {}
      invariant todo <= overrides.Keys
      invariant forall n :: n in selected <==>
                  n in names && if n in overrides && n !in todo && overrides[n] == ON then true
                                else n in DefaultNames(pool) && !(n in overrides && n !in todo && overrides[n] == OFF)
      decreases |todo|
    {
      var name :| name in todo;
      if overrides[name] == OFF {
        selected := selected - {name};
      } else if overrides[name] == ON {
        if name in names {
          selected := selected + {name};
        }
      }
      todo := todo - {name};
    }
  }

  // ---------------------------------------------------------------- main results

  /** Applying the diff of a selection gives that selection, restricted to the pool. */
  lemma DiffThenApply(selected: set<string>, pool: seq<Server>)
    ensures Effective(Diff(selected, pool), pool) == selected * Names(pool)
  {
    forall n | n in Names(pool) ensures n in Effective(Diff(selected, pool), pool) <==> n in selected {
      assert HasOptional(pool, n) || n in DefaultNames(pool);
    }
  }

  /** A selection never leaves the pool, also when the pool changed after the overrides were stored; what they
      say about servers that are gone, and texts other than on and off, count for nothing. */
  lemma SelectionStaysInPool(overrides: Overrides, pool: seq<Server>)
    ensures Effective(overrides, pool) <= Names(pool)
    ensures Effective(overrides, pool) ==
            Effective(map n | n in overrides && n in Names(pool) && overrides[n] in {ON, OFF} :: overrides[n], pool)
  {
  }

  /** A server of the pool is used if the overrides say on, or if they do not say off and it is a default. */
  lemma EffectiveMeans(overrides: Overrides, pool: seq<Server>, n: string)
    ensures n in Effective(overrides, pool) <==>
            exists s | s in pool :: s.name == n
              && ((n in overrides && overrides[n] == "on")
                  || (s.status == Active && !(n in overrides && overrides[n] == "off")))
  {
    if n in Names(pool) && n in overrides && overrides[n] == "on" {
      var s :| s in pool && s.name == n;
    }
  }

  /** No name is both a default and optional. */
  predicate Consistent(pool: seq<Server>) {
    forall n | n in DefaultNames(pool) :: !HasOptional(pool, n)
  }

  ghost predicate DiffIsLeast(pool: seq<Server>) {
    forall selected: set<string>, overrides: Overrides |
      Effective(overrides, pool) == Effective(Diff(selected, pool), pool) ::
      Diff(selected, pool).Keys <= overrides.Keys
  }

  /** The diff is contained in any overrides with its effect, so it has the fewest keys, exactly when no name
      occurs both as a default and as an optional server. */
  lemma DiffIsLeastIffConsistent(pool: seq<Server>)
    ensures DiffIsLeast(pool) <==> Consistent(pool)
  {
    if Consistent(pool) {
      forall selected: set<string>, overrides: Overrides
        | Effective(overrides, pool) == Effective(Diff(selected, pool), pool)
        ensures Diff(selected, pool).Keys <= overrides.Keys
      {
        DiffThenApply(selected, pool);
        forall n | n in Diff(selected, pool) ensures n in overrides {
          assert n in Effective(overrides, pool) <==> n in selected;
        }
      }
    } else {
      var n :| n in DefaultNames(pool) && HasOptional(pool, n);
      var selected := DefaultNames(pool);
      DiffThenApply(selected, pool);
      assert Effective(map[], pool) == Effective(Diff(selected, pool), pool);
      assert n in Diff(selected, pool);
      var none: Overrides := map[];
      assert !(Diff(selected, pool).Keys <= none.Keys);
    }
  }

  /** A pool built from the table is one of those, and each selected name is exactly one of its servers. */
  lemma PoolIsConsistent(table: set<Server>, user: Option<nat>, rows: seq<Server>, overrides: Overrides)
    requires UniqueRows(table) && Visible(table, user, rows)
    ensures var pool := Unshadowed(rows, |rows|);
            && UniqueNames(pool) && Consistent(pool) && DiffIsLeast(pool)
            && forall n | n in Effective(overrides, pool) :: OneServer(pool, n)
  {
    hide UniqueRows, Visible, DiffIsLeast, Consistent, Effective;
    var pool := Unshadowed(rows, |rows|);
    PoolNamesAreUnique(table, user, rows, |rows|);
    UniqueIsConsistent(pool);
    DiffIsLeastIffConsistent(pool);
    SelectionStaysInPool(overrides, pool);
    forall n | n in Names(pool) ensures OneServer(pool, n) {
      UniqueIsOneServer(pool, n);
    }
  }

  predicate OneServer(pool: seq<Server>, n: string) {
    exists i | 0 <= i < |pool| :: pool[i].name == n && forall j | 0 <= j < |pool| && pool[j].name == n :: j == i
  }

  lemma UniqueIsOneServer(pool: seq<Server>, n: string)
    requires UniqueNames(pool) && n in Names(pool)
    ensures OneServer(pool, n)
  {
    var s :| s in pool && s.name == n;
    var i :| 0 <= i < |pool| && pool[i] == s;
  }

  lemma UniqueIsConsistent(pool: seq<Server>)
    requires UniqueNames(pool)
    ensures Consistent(pool)
  {
  }
}
