/**
 * `performCleanup`: works whose folder has disappeared are removed from the
 * database and their cover images deleted.
 */
module Cleanup {

  import opened Digits

  /** A row of `select id, dir from t_work`. */
  datatype WorkRow = WorkRow(id: nat, dir: string)

  /**
   * The effects of one cleanup: the ids it asks the store to remove, the RJ codes
   * whose cover it deletes, and whether `Promise.all` rejects.
   */
  datatype CleanupRun = CleanupRun(removed: seq<nat>, coverDeletes: seq<string>, rejected: bool)

  /** A row whose folder no longer exists under the root directory. */
  predicate Missing(row: WorkRow, existing: set<string>)
  {
    row.dir !in existing
  }

  /**
   * One promise per row: a missing folder's row is removed and, once the removal
   * resolves, its cover deleted (a failed deletion is only logged); a failed
   * removal rejects the whole cleanup, though every other row is still handled.
   */
  function PerformCleanup(rows: seq<WorkRow>, existing: set<string>, removeFails: set<nat>): CleanupRun
  {
    if rows == [] then CleanupRun([], [], false)
    else
      var row := rows[0];
      var rest := PerformCleanup(rows[1..], existing, removeFails);
      if !Missing(row, existing) then rest
      else if row.id in removeFails then CleanupRun([row.id] + rest.removed, rest.coverDeletes, true)
      else CleanupRun([row.id] + rest.removed, [RjCode(Decimal(row.id))] + rest.coverDeletes, rest.rejected)
  }

  /** Exactly the works whose folder is missing are removed. */
  lemma {:induction false} CleanupRemovesMissing(rows: seq<WorkRow>, existing: set<string>, removeFails: set<nat>)
    ensures forall row | row in rows && Missing(row, existing) :: row.id in PerformCleanup(rows, existing, removeFails).removed
    ensures forall id | id in PerformCleanup(rows, existing, removeFails).removed ::
      exists row | row in rows :: Missing(row, existing) && row.id == id
    decreases |rows|
  {
    if rows != [] {
      var rest := rows[1..];
      CleanupRemovesMissing(rest, existing, removeFails);
      assert forall x | x in rest :: x in rows;
      assert forall x | x in rows :: x == rows[0] || x in rest;
    }
  }

  /** Exactly the works whose folder is missing and whose removal succeeds have their cover deleted. */
  lemma {:induction false} CleanupDeletesCovers(rows: seq<WorkRow>, existing: set<string>, removeFails: set<nat>)
    ensures forall row | row in rows && Missing(row, existing) && row.id !in removeFails ::
      RjCode(Decimal(row.id)) in PerformCleanup(rows, existing, removeFails).coverDeletes
    ensures forall c | c in PerformCleanup(rows, existing, removeFails).coverDeletes ::
      exists row | row in rows :: Missing(row, existing) && row.id !in removeFails && c == RjCode(Decimal(row.id))
    decreases |rows|
  {
    if rows != [] {
      var rest := rows[1..];
      CleanupDeletesCovers(rest, existing, removeFails);
      assert forall x | x in rest :: x in rows;
      assert forall x | x in rows :: x == rows[0] || x in rest;
      var row, r, r' := rows[0], PerformCleanup(rows, existing, removeFails), PerformCleanup(rest, existing, removeFails);
      forall c | c in r.coverDeletes
        ensures exists row | row in rows :: Missing(row, existing) && row.id !in removeFails && c == RjCode(Decimal(row.id))
      {
        if c !in r'.coverDeletes {
          assert Missing(row, existing) && row.id !in removeFails && c == RjCode(Decimal(row.id));
        } else {
          var w :| w in rest && Missing(w, existing) && w.id !in removeFails && c == RjCode(Decimal(w.id));
          assert w in rows;
        }
      }
    }
  }

  /** The cleanup rejects exactly when the removal of some missing work fails. */
  lemma {:induction false} CleanupRejects(rows: seq<WorkRow>, existing: set<string>, removeFails: set<nat>)
    ensures PerformCleanup(rows, existing, removeFails).rejected
        <==> exists row | row in rows :: Missing(row, existing) && row.id in removeFails
    decreases |rows|
  {
    if rows != [] {
      var rest := rows[1..];
      CleanupRejects(rest, existing, removeFails);
      assert forall x | x in rest :: x in rows;
      assert forall x | x in rows :: x == rows[0] || x in rest;
    }
  }

  /** When every folder is still there, cleanup touches nothing and resolves. */
  lemma NothingMissing(rows: seq<WorkRow>, existing: set<string>, removeFails: set<nat>)
    requires forall row | row in rows :: row.dir in existing
    ensures PerformCleanup(rows, existing, removeFails) == CleanupRun([], [], false)
  {
    var r := PerformCleanup(rows, existing, removeFails);
    CleanupRemovesMissing(rows, existing, removeFails);
    CleanupDeletesCovers(rows, existing, removeFails);
    CleanupRejects(rows, existing, removeFails);
    assert forall id | id in r.removed :: false;
    assert forall c | c in r.coverDeletes :: false;
  }

  /** Works 1 in folder A (gone) and 2 in folder B (present): work 1 is removed and RJ000001's cover deleted. */
  lemma CleanupExample()
    ensures PerformCleanup([WorkRow(1, "A"), WorkRow(2, "B")], {"B"}, {}) == CleanupRun([1], ["000001"], false)
  {
    assert "A" != "B" by { assert "A"[0] != "B"[0]; }
    RjCodeOfNumber(1);
    assert Decimal(1) == "1";
    assert RjCode("1") == "000001";
  }
}
