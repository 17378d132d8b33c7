/**
 * The values the handler builds: the DynamoDB items of `write_to_ddb` and
 * `update_absense_item`, the frontend parameter dictionary of
 * `publish_to_frontend`, the clipped focus score, and the LINE warning text.
 */
module Records {
  import opened Wrappers
  import opened Text
  import opened Absence

  /** A DynamoDB attribute value: `{'S': text}` or `{'N': decimal text}`. */
  datatype AttributeValue = S(text: string) | N(number: string)

  /** A DynamoDB item: attribute name to typed value. */
  type Item = map<string, AttributeValue>

  /** `str(int(b))`: "1" for True, "0" for False. */
  function BoolDigit(b: bool): string {
    NatToString(if b then 1 else 0)
  }

  // ---------------------------------------------------------------------
  // The attendance item
  // ---------------------------------------------------------------------

  /** One attendance observation: who, when (Taipei date and time), and whether a face was seen. */
  datatype AttendanceRecord = AttendanceRecord(username: string, date: string, time: string, faceDetected: bool)

  /** The item `write_to_ddb` puts. */
  function AttendanceItem(username: string, date: string, time: string, hasFace: bool): (item: Item)
    ensures item.Keys == {"username", "date", "time", "focus"}
    ensures item["focus"] == N(if hasFace then "1" else "0")
  {
    map["username" := S(username), "date" := S(date), "time" := S(time), "focus" := N(BoolDigit(hasFace))]
  }

  /** Reads an attendance item back: the four attributes, with `focus` a number 0 or 1. */
  function ReadAttendance(item: Item): Option<AttendanceRecord> {
    if "username" in item && item["username"].S? && "date" in item && item["date"].S?
      && "time" in item && item["time"].S? && "focus" in item && item["focus"].N?
    then
      match ParseNat(item["focus"].number)
      case Some(f) =>
        if f <= 1 then Some(AttendanceRecord(item["username"].text, item["date"].text, item["time"].text, f == 1))
        else None
      case None => None
    else None
  }

  /**
   * The item has exactly the four attributes, its `focus` is "1" exactly when
   * a face was seen (and "0" otherwise), and it reads back as the record.
   */
  lemma AttendanceItemRoundTrip(username: string, date: string, time: string, hasFace: bool)
    ensures var item := AttendanceItem(username, date, time, hasFace);
      && item.Keys == {"username", "date", "time", "focus"}
      && (item["focus"] == N("1") <==> hasFace)
      && (item["focus"] == N("0") <==> !hasFace)
      && ReadAttendance(item) == Some(AttendanceRecord(username, date, time, hasFace))
  {
    ParseNatToString(if hasFace then 1 else 0);
  }

  // ---------------------------------------------------------------------
  // The absence item
  // ---------------------------------------------------------------------

  /** The item `update_absense_item(username, absense_cnt)` puts. */
  function AbsenceItem(username: string, count: nat): (item: Item)
    ensures item.Keys == {"username", "absense_count"}
    ensures item["absense_count"].N? && AllDigits(item["absense_count"].number)
  {
    map["username" := S(username), "absense_count" := N(NatToString(count))]
  }

  /** `int(item['absense_count']['N'])`, or `None` where that would raise. */
  function AbsenceCountOf(item: Item): Option<nat> {
    if "absense_count" in item && item["absense_count"].N? then ParseNat(item["absense_count"].number)
    else None
  }

  /** A stored count reads back unchanged, so the table can be seen as username to count. */
  lemma AbsenceItemRoundTrip(username: string, count: nat)
    ensures AbsenceCountOf(AbsenceItem(username, count)) == Some(count)
    ensures AbsenceItem(username, count)["username"] == S(username)
  {
    ParseNatToString(count);
  }

  // ---------------------------------------------------------------------
  // The frontend parameters
  // ---------------------------------------------------------------------

  /** The JSON body `publish_to_frontend` posts. */
  datatype FrontendParams = FrontendParams(
    id: string,
    name: string,
    userStatusInfo: string,
    focusScore: string,
    focusing: string,
    screeningStatus: string,
    timestamp: string)

  /**
   * The parameters for one event; `id` (a fresh uuid) and `focusScore` (the
   * rounded, printed score) are given.
   */
  function FrontendParamsOf(id: string, focusScore: string, username: string, hasFace: bool,
                            screenshotStatus: int, warning: bool, date: string, time: string): (p: FrontendParams)
    ensures p.id == id && p.name == username && p.focusScore == focusScore
    ensures p.userStatusInfo in {"0", "1"} && p.focusing in {"0", "1"}
    ensures p.screeningStatus in {"working", "lazy"}
    ensures p.timestamp == date + " " + time
  {
    FrontendParams(
      id,
      username,
      BoolDigit(hasFace),
      focusScore,
      BoolDigit(!warning),
      if screenshotStatus == 0 then "working" else "lazy",
      date + " " + time)
  }

  /**
   * `user_status_info` says whether a face was seen, `focusing` says whether
   * no warning fired (not whether the user was focused), `screening_status`
   * says whether the screenshot was classified 0, and the timestamp splits
   * back into the date and time it was built from.
   */
  lemma FrontendFields(id: string, focusScore: string, username: string, hasFace: bool,
                       screenshotStatus: int, warning: bool, date: string, time: string)
    requires ' ' !in date && ' ' !in time
    ensures var p := FrontendParamsOf(id, focusScore, username, hasFace, screenshotStatus, warning, date, time);
      && p.name == username
      && (p.userStatusInfo == "1" <==> hasFace) && (p.userStatusInfo == "0" <==> !hasFace)
      && (p.focusing == "1" <==> !warning) && (p.focusing == "0" <==> warning)
      && (p.screeningStatus == "working" <==> screenshotStatus == 0)
      && (p.screeningStatus == "lazy" <==> screenshotStatus != 0)
      && Split(p.timestamp) == [date, time]
  {
    SplitPair(date, time);
  }

  /**
   * `focusing` and the focus verdict can disagree: a focused event reports
   * "1", but so does an unfocused one that fired no warning.
   */
  lemma FocusingIsNotFocus(id: string, focusScore: string, username: string, date: string, time: string)
    ensures FrontendParamsOf(id, focusScore, username, false, 1, false, date, time).focusing == "1"
    ensures !IsFocused(false, 1)
  {
  }

  // ---------------------------------------------------------------------
  // The focus score
  // ---------------------------------------------------------------------

  /** `numpy.clip(x, lower, higher)`. */
  function Clip(x: real, lower: real, higher: real): (r: real)
    requires lower <= higher
    ensures lower <= r <= higher
    ensures lower <= x <= higher ==> r == x
    ensures x < lower ==> r == lower
    ensures x > higher ==> r == higher
  {
    if x < lower then lower else if x > higher then higher else x
  }

  /**
   * `compute_focus_score(is_focus)` for a given normal draw `sample`: the
   * draw clipped to [0.5, 1] for a focused user and to [0, 0.5] otherwise.
   */
  function ComputeFocusScore(isFocus: bool, sample: real): (score: real)
    ensures isFocus ==> 0.5 <= score <= 1.0
    ensures !isFocus ==> 0.0 <= score <= 0.5
  {
    var lower := if isFocus then 0.5 else 0.0;
    var higher := if isFocus then 1.0 else 0.5;
    Clip(sample, lower, higher)
  }

  // ---------------------------------------------------------------------
  // The LINE warning
  // ---------------------------------------------------------------------

  /** The text `publish_canned_message` pushes to the group. */
  function CannedMessage(username: string): (m: string)
    ensures |m| > |username| + 1 && m[0] == '@' && m[1..|username| + 1] == username
  {
    "@" + username + " 已經連續分心" + NatToString(UPPER_BOUND + 1) + "次了，還敢混啊！"
  }

  /**
   * The message mentions the user with a leading '@', claims UPPER_BOUND + 1
   * (that is, 2) consecutive distractions, and differs between users.
   */
  lemma CannedMessageShape(a: string, b: string)
    ensures CannedMessage(a) == "@" + a + " 已經連續分心2次了，還敢混啊！"
    ensures CannedMessage(a)[..|a| + 1] == "@" + a
    ensures CannedMessage(a) == CannedMessage(b) ==> a == b
  {
    var tail := " 已經連續分心2次了，還敢混啊！";
    assert NatToString(UPPER_BOUND + 1) == "2";
    assert CannedMessage(a) == "@" + a + tail;
    assert CannedMessage(b) == "@" + b + tail;
    if CannedMessage(a) == CannedMessage(b) {
      assert |a| == |b|;
      assert a == CannedMessage(a)[1..|a| + 1];
      assert b == CannedMessage(b)[1..|b| + 1];
    }
  }
}
