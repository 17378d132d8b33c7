/**
 * The focus-judger Lambda as one object: the two DynamoDB tables it writes,
 * and what it sends out (LINE pushes, IoT signals, frontend posts), each
 * kept as the sequence of what was sent.
 *
 * The face check and the screenshot classifier are calls to other services;
 * their answers (`hasFace`, `screenshotStatus`) are inputs here, as are the
 * fresh uuid and the printed focus score of the frontend post.
 */
module FocusJudger {
  import opened Wrappers
  import opened Text
  import opened Clock
  import opened Absence
  import opened Records

  /**
   * The attendance table's key, assumed here to be one row per user and
   * Taipei date and time: the handler builds the item but its key schema is
   * set outside the code.
   */
  datatype AttendanceKey = AttendanceKey(username: string, date: string, time: string)

  class Judger {
    /** ABSENSE_TABLE, seen as username to stored count. */
    var absences: Table
    /** TABLE_NAME: the attendance items; a put with a key already present overwrites that row. */
    var attendance: map<AttendanceKey, Item>
    /** The messages pushed to the LINE group, oldest first. */
    var chatPushes: seq<string>
    /** How many times the IoT endpoint was called. */
    var iotSignals: nat
    /** The bodies posted to the frontend, oldest first. */
    var frontendPosts: seq<FrontendParams>

    constructor (absences: Table, attendance: map<AttendanceKey, Item>)
      ensures this.absences == absences && this.attendance == attendance
      ensures chatPushes == [] && iotSignals == 0 && frontendPosts == []
    {
      this.absences := absences;
      this.attendance := attendance;
      chatPushes := [];
      iotSignals := 0;
      frontendPosts := [];
    }

    /** `get_absense_item(username)`: the stored count, or `None` when there is no row. */
    method GetAbsenseItem(username: string) returns (count: Option<nat>)
      ensures count.Some? <==> username in absences
      ensures count.Some? ==> count.value == absences[username]
    {
      if username in absences {
        count := Some(absences[username]);
      } else {
        count := None;
      }
    }

    /** `update_absense_item(username, absense_cnt)`: a put that creates or overwrites the row. */
    method UpdateAbsenseItem(username: string, count: nat)
      modifies this`absences
      ensures absences == old(absences)[username := count]
    {
      absences := absences[username := count];
    }

    /**
     * `update_user_absense_status`: reads the user's row and writes it back
     * according to Transition; returns whether the warning fires.
     */
    method UpdateUserAbsenseStatus(username: string, hasFace: bool, screenshotStatus: int) returns (warning: bool)
      modifies this`absences
      ensures Outcome(absences, warning) == Transition(old(absences), username, IsFocused(hasFace, screenshotStatus))
      ensures forall u :: u in old(absences) && u != username ==> u in absences && absences[u] == old(absences)[u]
      ensures Bounded(old(absences)) ==> Bounded(absences)
    {
      TransitionFrame(old(absences), username, IsFocused(hasFace, screenshotStatus));
      if hasFace && screenshotStatus == 0 {
        return false;
      }
      var item := GetAbsenseItem(username);
      if item.None? {
        UpdateAbsenseItem(username, 0);
        return false;
      }
      var count := item.value;
      if count >= UPPER_BOUND {
        UpdateAbsenseItem(username, 0);
        return true;
      } else {
        UpdateAbsenseItem(username, count + 1);
        return false;
      }
    }

    /** `write_to_ddb`: puts the attendance item under its key. */
    method WriteToDdb(username: string, date: string, time: string, hasFace: bool)
      modifies this`attendance
      ensures attendance == old(attendance)[AttendanceKey(username, date, time) := AttendanceItem(username, date, time, hasFace)]
    {
      attendance := attendance[AttendanceKey(username, date, time) := AttendanceItem(username, date, time, hasFace)];
    }

    /** `publish_canned_message`: pushes the warning text to the group. */
    method PublishCannedMessage(username: string)
      modifies this`chatPushes
      ensures chatPushes == old(chatPushes) + [CannedMessage(username)]
    {
      chatPushes := chatPushes + [CannedMessage(username)];
    }

    /** `signal_iot`: one call to the actuator endpoint. */
    method SignalIot()
      modifies this`iotSignals
      ensures iotSignals == old(iotSignals) + 1
    {
      iotSignals := iotSignals + 1;
    }

    /** `publish_to_frontend`: posts the parameters of this event. */
    method PublishToFrontend(id: string, focusScore: string, username: string, hasFace: bool,
                             screenshotStatus: int, warning: bool, date: string, time: string)
      modifies this`frontendPosts
      ensures frontendPosts == old(frontendPosts)
        + [FrontendParamsOf(id, focusScore, username, hasFace, screenshotStatus, warning, date, time)]
    {
      frontendPosts := frontendPosts + [FrontendParamsOf(id, focusScore, username, hasFace, screenshotStatus, warning, date, time)];
    }

    /**
     * The part of `lambda_handler` after the timestamp has been converted:
     * put the attendance item, update the absence row, push and signal a
     * warning if one fires, and post to the frontend.
     */
    method HandleStampedEvent(username: string, date: string, time: string, hasFace: bool,
                              screenshotStatus: int, id: string, focusScore: string) returns (warning: bool)
      modifies this
      ensures var o := Transition(old(absences), username, IsFocused(hasFace, screenshotStatus));
        && warning == o.warning
        && absences == o.table
        && attendance == old(attendance)[AttendanceKey(username, date, time) := AttendanceItem(username, date, time, hasFace)]
        && chatPushes == old(chatPushes) + (if warning then [CannedMessage(username)] else [])
        && iotSignals == old(iotSignals) + (if warning then 1 else 0)
        && frontendPosts == old(frontendPosts)
          + [FrontendParamsOf(id, focusScore, username, hasFace, screenshotStatus, warning, date, time)]
    {
      WriteToDdb(username, date, time, hasFace);
      warning := UpdateUserAbsenseStatus(username, hasFace, screenshotStatus);
      if warning {
        PublishCannedMessage(username);
        SignalIot();
      }
      PublishToFrontend(id, focusScore, username, hasFace, screenshotStatus, warning, date, time);
    }

    /**
     * `lambda_handler` for one request. A request time that does not convert
     * aborts the event before anything is written; otherwise the event is
     * handled as HandleStampedEvent says. The result reports the warning, or
     * the exception that aborted the event.
     */
    method LambdaHandler(rawUsername: string, requestTime: string, hasFace: bool, screenshotStatus: int,
                         id: string, focusScore: string) returns (result: Result<bool, TimeError>)
      modifies this
      ensures EventDateTime(requestTime).Err? ==>
        && result == Err(EventDateTime(requestTime).error)
        && absences == old(absences) && attendance == old(attendance)
        && chatPushes == old(chatPushes) && iotSignals == old(iotSignals) && frontendPosts == old(frontendPosts)
      ensures EventDateTime(requestTime).Ok? ==>
        var username := DecodeAt(rawUsername);
        var date := EventDateTime(requestTime).value.0;
        var time := EventDateTime(requestTime).value.1;
        var o := Transition(old(absences), username, IsFocused(hasFace, screenshotStatus));
        && result == Ok(o.warning)
        && absences == o.table
        && attendance == old(attendance)[AttendanceKey(username, date, time) := AttendanceItem(username, date, time, hasFace)]
        && chatPushes == old(chatPushes) + (if o.warning then [CannedMessage(username)] else [])
        && iotSignals == old(iotSignals) + (if o.warning then 1 else 0)
        && frontendPosts == old(frontendPosts)
          + [FrontendParamsOf(id, focusScore, username, hasFace, screenshotStatus, o.warning, date, time)]
    {
      var username := DecodeAt(rawUsername);
      var stamp := EventDateTime(requestTime);
      if stamp.Err? {
        return Err(stamp.error);
      }
      var warning := HandleStampedEvent(username, stamp.value.0, stamp.value.1, hasFace, screenshotStatus, id, focusScore);
      result := Ok(warning);
    }
  }

  /**
   * A new user's first three events are unfocused: the first two fire
   * nothing and the third fires the warning and stores 0; a focused fourth
   * event fires nothing and leaves the count at 0.
   */
  method NewUserScenario() {
    var judger := new Judger(map[], map[]);
    var w1 := judger.UpdateUserAbsenseStatus("bob", false, 1);
    assert !w1 && judger.absences["bob"] == 0;
    var w2 := judger.UpdateUserAbsenseStatus("bob", false, 1);
    assert !w2 && judger.absences["bob"] == 1;
    var w3 := judger.UpdateUserAbsenseStatus("bob", true, 1);
    assert w3 && judger.absences["bob"] == 0;
    var w4 := judger.UpdateUserAbsenseStatus("bob", true, 0);
    assert !w4 && judger.absences["bob"] == 0;
  }
}
