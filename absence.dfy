/**
 * The per-user absence counter behind `update_user_absense_status`: one
 * transition of the absence table and what runs of transitions do.
 *
 * The behaviour is the code's, which differs from the "two strikes, reset on
 * focus" reading of the feature: a focused event leaves the table alone, so
 * a streak survives it, and the first unfocused event of an unseen user
 * stores 0 rather than 1.
 */
module Absence {

  /** A stored count at or above this bound fires the warning. */
  const UPPER_BOUND: nat := 1

  /** The absence table: username to stored `absense_count`. */
  type Table = map<string, nat>

  /** A user is focused when a face was seen and the screenshot was classified 0. */
  predicate IsFocused(hasFace: bool, screenshotStatus: int) {
    hasFace && screenshotStatus == 0
  }

  /** The table after one evaluation, and whether a warning fired. */
  datatype Outcome = Outcome(table: Table, warning: bool)

  /** One evaluation of `username` that was (`focused`) or was not focused. */
  function Transition(table: Table, username: string, focused: bool): (o: Outcome)
    ensures o.warning ==> !focused && username in table && table[username] >= UPPER_BOUND
    ensures !focused ==>
      && username in o.table
      && (o.table[username] == 0 || (username in table && o.table[username] == table[username] + 1))
  {
    if focused then Outcome(table, false)
    else if username !in table then Outcome(table[username := 0], false)
    else if table[username] >= UPPER_BOUND then Outcome(table[username := 0], true)
    else Outcome(table[username := table[username] + 1], false)
  }

  /** Every stored count is at most UPPER_BOUND. */
  ghost predicate Bounded(table: Table) {
    forall u :: u in table ==> table[u] <= UPPER_BOUND
  }

  /** A focused event fires nothing and leaves the whole table as it was. */
  lemma FocusedChangesNothing(table: Table, username: string)
    ensures Transition(table, username, true) == Outcome(table, false)
  {
  }

  /** The first unfocused event of an unseen user stores 0 and fires nothing. */
  lemma UnseenUserStoresZero(table: Table, username: string)
    requires username !in table
    ensures Transition(table, username, false) == Outcome(table[username := 0], false)
  {
  }

  /**
   * An unfocused event of a stored user fires exactly when the stored count
   * has reached UPPER_BOUND, and then stores 0; otherwise it stores one more.
   */
  lemma StoredUserCounts(table: Table, username: string)
    requires username in table
    ensures var o := Transition(table, username, false);
      && (o.warning <==> table[username] >= UPPER_BOUND)
      && username in o.table
      && o.table[username] == (if o.warning then 0 else table[username] + 1)
  {
  }

  /**
   * Only the evaluated user's row is written; every other row is kept, and
   * the table stays within UPPER_BOUND if it started within it.
   */
  lemma TransitionFrame(table: Table, username: string, focused: bool)
    ensures var o := Transition(table, username, focused);
      && o.table.Keys == (if focused then table.Keys else table.Keys + {username})
      && (forall u :: u in table && u != username ==> o.table[u] == table[u])
      && (Bounded(table) ==> Bounded(o.table))
  {
  }

  /** The warnings of `n` consecutive unfocused evaluations of one user. */
  function UnfocusedRun(table: Table, username: string, n: nat): (warnings: seq<bool>)
    ensures |warnings| == n
    decreases n
  {
    if n == 0 then []
    else
      var o := Transition(table, username, false);
      [o.warning] + UnfocusedRun(o.table, username, n - 1)
  }

  /**
   * Once a row exists the warning fires on every second unfocused event:
   * first on the first event if the stored count has reached UPPER_BOUND,
   * otherwise first on the second.
   */
  lemma {:induction false} StoredUserRun(table: Table, username: string, n: nat, k: nat)
    requires username in table && k < n
    ensures UnfocusedRun(table, username, n)[k] <==>
      (if table[username] >= UPPER_BOUND then k % 2 == 0 else k % 2 == 1)
    decreases n
  {
    var o := Transition(table, username, false);
    assert UnfocusedRun(table, username, n) == [o.warning] + UnfocusedRun(o.table, username, n - 1);
    if k > 0 {
      StoredUserRun(o.table, username, n - 1, k - 1);
    }
  }

  /**
   * A previously unseen user is warned first on the third consecutive
   * unfocused event, and on every second one after that.
   */
  lemma {:induction false} UnseenUserRun(table: Table, username: string, n: nat, k: nat)
    requires username !in table && k < n
    ensures UnfocusedRun(table, username, n)[k] <==> k >= 2 && k % 2 == 0
  {
    var o := Transition(table, username, false);
    assert UnfocusedRun(table, username, n) == [o.warning] + UnfocusedRun(o.table, username, n - 1);
    if k > 0 {
      StoredUserRun(o.table, username, n - 1, k - 1);
    }
  }

  /**
   * A focused event does not end a streak: a user whose count has reached
   * UPPER_BOUND is warned on the next unfocused event even after being
   * judged focused in between.
   */
  lemma FocusKeepsStreak(table: Table, username: string)
    requires username in table && table[username] >= UPPER_BOUND
    ensures var afterFocus := Transition(table, username, true);
      Transition(afterFocus.table, username, false).warning
  {
  }
}
