# Focus judger: a Dafny model

This project models the decision logic of the focus-judger Lambda in
`focus_judger/lambda_function.py`. The Lambda is part of a classroom
focus-monitoring application. For each request it:

- decodes the username;
- turns the gateway's UTC request time into a Taipei date and time;
- logs an attendance item;
- updates a per-user absence counter that decides whether to warn;
- on a warning, pushes a canned LINE message and signals an IoT endpoint;
- posts a summary to a dashboard.

The calls to other services are not modelled. Their answers are inputs:
whether a face was seen (Rekognition) and the screenshot status code (the
classifier). The uuid and the printed focus score are inputs too.

Modules:

- `Wrappers` (`wrappers.dfy`): `Option` and `Result`. `Result` stands for Python's raised exceptions.
- `Text` (`text.dfy`): the string operations the handler uses:
  - `str.replace('%40', '@')`;
  - `str.split(' ')`, with its inverse `' '.join`;
  - `str(n)` and `int(s)`;
  - the zero-padded fields of `strftime`.
- `Clock` (`clock.dfy`): `convert_event_timezone` as calendar arithmetic:
  - `strptime('%d/%b/%Y:%H:%M:%S')` after dropping the zone suffix;
  - the move from UTC to Asia/Taipei (a fixed UTC+8), carried across day, month and year with Gregorian leap years;
  - `strftime('%Y-%m-%d %H:%M:%S')`;
  - the caller's split into date and time.

  The shift is proved against an independent reference: a count of seconds since 0001-01-01.
- `Absence` (`absence.dfy`): the absence counter. `Transition` is one read-modify-write of the table (`map<string, nat>`). Lemmas cover single transitions and runs of unfocused events.
- `Records` (`records.dfy`): the values the handler builds:
  - the DynamoDB items of `write_to_ddb` and `update_absense_item`, with readers that decode them back;
  - the frontend parameter dictionary;
  - the clip in `compute_focus_score`;
  - the canned LINE text.
- `FocusJudger` (`judger.dfy`): class `Judger`, which holds the two tables and logs of what was pushed, signalled and posted. Each source function that changes state is a method with `modifies`; `LambdaHandler` is `lambda_handler`.

## Where the code differs from a natural reading

The model follows the code. The canned text claims `UPPER_BOUND + 1` = 2
consecutive distractions, which suggests a two-strikes counter that starts
again whenever the user is focused. The code does something else:

- A focused event returns no warning and writes nothing. The stored count is **not** reset, so a streak survives a focused event (`FocusedChangesNothing`, `FocusKeepsStreak`).
- The first unfocused event for an unseen user stores 0, not 1 (`UnseenUserStoresZero`).

As a result:

- a new user is first warned on the third consecutive unfocused event, then on every second one (`UnseenUserRun`; `FocusJudger.NewUserScenario` walks through the first four events of a new user on a `Judger`);
- a user with a stored row is warned on every second unfocused event (`StoredUserRun`);
- the canned text always claims `UPPER_BOUND + 1` = 2 consecutive distractions (`CannedMessageShape`).

The frontend's `focusing` field is "1" when no warning fired. It does not say whether the user was focused (`FocusingIsNotFocus`).

## Model

| member | source | states |
|---|---|---|
| `Text.DecodeAt` | focus_judger/lambda_function.py:36 | replacing "%40" by "@" never lengthens the string; what replaces each occurrence is stated by `Text.DecodeAtAround` |
| `Text.DecodeAtAround` | focus_judger/lambda_function.py:36 | every "%40" becomes "@", wherever it stands, and the text before and after it is decoded on its own; with `DecodeAtIdentity` this fixes the decoded form of every string |
| `Text.DecodeAtLeavesNone` | focus_judger/lambda_function.py:36 | after the username (and, at line 70, the S3 key) is decoded, no "%40" is left, not even one formed across a replacement |
| `Text.DecodeAtIdentity` | focus_judger/lambda_function.py:70 | a string with no "%40" is passed on unchanged |
| `Text.DecodeAtIdempotent` | focus_judger/lambda_function.py:36 | decoding an already decoded name changes nothing |
| `Text.Split` | focus_judger/lambda_function.py:85 | `split(' ')` always gives at least one field, and no field contains a space |
| `Text.JoinSplit` | focus_judger/lambda_function.py:39 | joining the fields of `split(' ')` with spaces gives back the input |
| `Text.SplitJoin` | focus_judger/lambda_function.py:39 | splitting the space-join of space-free fields gives back those fields |
| `Text.SplitPrefix` | focus_judger/lambda_function.py:85 | the text before the first space is the first field, whatever follows the space |
| `Text.SplitNoSpace` | focus_judger/lambda_function.py:85 | a string without spaces splits into itself alone |
| `Text.SplitPair` | focus_judger/lambda_function.py:37-39 | `a + ' ' + b` splits into exactly `[a, b]` when neither part has a space |
| `Text.NatToString` | focus_judger/lambda_function.py:178 | `str(n)` is a non-empty digit string without a leading zero |
| `Text.ParseNat` | focus_judger/lambda_function.py:153 | `int(s)` succeeds exactly on non-empty digit strings |
| `Text.ParseNatToString` | focus_judger/lambda_function.py:153 | `int(str(n)) == n`: the stored count reads back as written |
| `Text.Pad` | focus_judger/lambda_function.py:89 | a zero-padded strftime field has exactly its width, all digits |
| `Text.ParsePad` | focus_judger/lambda_function.py:86 | a padded field that fits its width parses back to the number |
| `Text.PadParse` | focus_judger/lambda_function.py:86 | a digit field is the padded form of the number it parses to, which fits the width |
| `Clock.ShiftToTaipei` | focus_judger/lambda_function.py:88 | converting to Taipei keeps minutes and seconds |
| `Clock.NextDayOrdinal` | focus_judger/lambda_function.py:88 | the carry to the next day gives a valid date exactly one day later, across month and year ends |
| `Clock.ShiftToTaipeiInstant` | focus_judger/lambda_function.py:87-88 | the converted datetime is valid and is the UTC instant plus 8 hours |
| `Clock.InstantInjective` | focus_judger/lambda_function.py:88 | two valid datetimes at the same instant are equal |
| `Clock.ShiftToTaipeiUnique` | focus_judger/lambda_function.py:88 | the conversion is the only valid datetime 8 hours after the input |
| `Clock.ShiftOverflow` | focus_judger/lambda_function.py:88 | the conversion leaves the datetime range exactly in the last 8 hours of 9999-12-31 |
| `Clock.ShiftExamples` | focus_judger/lambda_function.py:88 | carries into Feb 29 of a leap year, past Feb 28 in 1900 and 2023, past Feb 29, and into a new year |
| `Clock.MonthNumber` | focus_judger/lambda_function.py:86 | a recognised `%b` name is the abbreviation of a month 1..12 |
| `Clock.MonthNumberOfAbbreviation` | focus_judger/lambda_function.py:86 | every month's abbreviation is recognised as that month |
| `Clock.ParseRequestTime` | focus_judger/lambda_function.py:84-86 | a parse that succeeds yields a valid datetime and consumed exactly 20 characters; every failure is a `ValueError` |
| `Clock.ParseFormatted` | focus_judger/lambda_function.py:84-86 | a valid datetime written in the gateway layout parses back to itself |
| `Clock.ParsedIsFormatted` | focus_judger/lambda_function.py:84-86 | whatever the parse accepts is a valid datetime, and the text is exactly that datetime's gateway layout |
| `Clock.ParseRequestTimeExact` | focus_judger/lambda_function.py:84-86 | the parse yields `dt` exactly when `dt` is a valid datetime and the text is its `%d/%b/%Y:%H:%M:%S` form |
| `Clock.FormatLocal` | focus_judger/lambda_function.py:89 | the printed local datetime has 19 characters, with `-`, `-`, a space, `:` and `:` at positions 4, 7, 10, 13 and 16; the digit groups between them are the datetime's fields (`Clock.FormatLocalFields`) |
| `Clock.FormatLocalFields` | focus_judger/lambda_function.py:89 | the printed year, month, day, hour, minute and second, read back from their positions, are the datetime's own fields |
| `Clock.LocalPartsHaveNoSpace` | focus_judger/lambda_function.py:89 | the printed date has 10 characters and the time 8, and neither has a space |
| `Clock.ConvertEventTimezone` | focus_judger/lambda_function.py:83-90 | a conversion that succeeds prints 19 characters with the space at position 10; an `OverflowError` only follows a successful parse; a request time that does not parse fails with `ValueError` |
| `Clock.ConvertIgnoresZone` | focus_judger/lambda_function.py:85 | everything from the first space on (the zone) has no effect on the result |
| `Clock.ConvertEventTimezoneCorrect` | focus_judger/lambda_function.py:83-90 | on a gateway timestamp: fails exactly on overflow and then only with `OverflowError`, otherwise prints the Taipei datetime, which is the UTC instant plus 8 hours |
| `Clock.EventDateTime` | focus_judger/lambda_function.py:37-39 | a successful two-way unpacking follows a successful conversion and gives two space-free parts; a conversion error is passed on unchanged |
| `Clock.EventDateTimeSplits` | focus_judger/lambda_function.py:37-39 | after a successful conversion the two-way split never fails; it gives a 10-character date and an 8-character time that rejoin to the converted text; a conversion error is passed on |
| `Absence.Transition` | focus_judger/lambda_function.py:146-159 | a warning fires only on an unfocused event of a stored user whose count has reached UPPER_BOUND; after an unfocused event the user has a row holding 0 or the old count plus one |
| `Absence.FocusedChangesNothing` | focus_judger/lambda_function.py:147-148 | a focused event returns no warning and leaves the whole table unchanged |
| `Absence.UnseenUserStoresZero` | focus_judger/lambda_function.py:149-152 | an unfocused event for a user with no row stores 0 and returns no warning |
| `Absence.StoredUserCounts` | focus_judger/lambda_function.py:153-159 | for a stored user, the warning fires iff the count is at least UPPER_BOUND; it then stores 0, and otherwise count + 1 |
| `Absence.TransitionFrame` | focus_judger/lambda_function.py:154-159 | only the evaluated user's row is written, every other row is kept, and counts stay within UPPER_BOUND once they are |
| `Absence.UnfocusedRun` | focus_judger/lambda_function.py:146-159 | n consecutive unfocused events yield n warning flags |
| `Absence.StoredUserRun` | focus_judger/lambda_function.py:153-159 | once a row exists, whatever its count, warnings fire on every second unfocused event: from the first if the count has reached UPPER_BOUND, from the second otherwise |
| `Absence.UnseenUserRun` | focus_judger/lambda_function.py:146-159 | an unseen user is warned on the 3rd, 5th, 7th, ... consecutive unfocused event and no other |
| `Absence.FocusKeepsStreak` | focus_judger/lambda_function.py:147-148 | a focused event does not end a streak: a user at UPPER_BOUND is warned on the next unfocused event anyway |
| `Records.AttendanceItem` | focus_judger/lambda_function.py:95-100 | the item has exactly the attributes username, date, time and focus, and `focus` is the number "1" or "0" as a face was or was not seen |
| `Records.AttendanceItemRoundTrip` | focus_judger/lambda_function.py:92-101 | the attendance item has exactly its four attributes, `focus` is "1" iff a face was seen and "0" iff not, and it reads back as the record |
| `Records.AbsenceItem` | focus_judger/lambda_function.py:176-179 | the item has exactly the attributes username and absense_count, the latter a number written in decimal digits |
| `Records.AbsenceItemRoundTrip` | focus_judger/lambda_function.py:173-181 | a stored `absense_count` reads back, via `int(...)`, as the count written |
| `Records.FrontendParamsOf` | focus_judger/lambda_function.py:120-128 | the id, name and score are passed through; the two flags are "0" or "1"; the screening status is "working" or "lazy"; the timestamp is the date, a space and the time |
| `Records.FrontendFields` | focus_judger/lambda_function.py:120-128 | `user_status_info` is "1" iff a face was seen; `focusing` is "1" iff no warning; `screening_status` is "working" iff the status is 0; the timestamp splits back into date and time |
| `Records.FocusingIsNotFocus` | focus_judger/lambda_function.py:125 | an unfocused event without a warning still reports `focusing` "1" |
| `Records.Clip` | focus_judger/lambda_function.py:139-143 | the clip lies within the bounds, keeps a value already inside them, and otherwise gives the nearer bound |
| `Records.ComputeFocusScore` | focus_judger/lambda_function.py:135-144 | the score is within [0.5, 1] for a focused user and within [0, 0.5] otherwise |
| `Records.CannedMessage` | focus_judger/lambda_function.py:186 | the text starts with "@" followed by the username, and something follows the name |
| `Records.CannedMessageShape` | focus_judger/lambda_function.py:186 | the warning text is "@" + the username + a fixed sentence claiming 2 distractions, and different users get different texts |
| `FocusJudger.Judger.GetAbsenseItem` | focus_judger/lambda_function.py:161-171 | returns the stored count iff the user has a row, and nothing otherwise |
| `FocusJudger.Judger.UpdateAbsenseItem` | focus_judger/lambda_function.py:173-181 | the put creates or overwrites only that user's row |
| `FocusJudger.Judger.UpdateUserAbsenseStatus` | focus_judger/lambda_function.py:146-159 | the table and the warning afterwards are those of `Transition`; other rows are kept; the UPPER_BOUND bound is preserved |
| `FocusJudger.Judger.WriteToDdb` | focus_judger/lambda_function.py:92-102 | puts the attendance item under (username, date, time), overwriting a row with the same key |
| `FocusJudger.Judger.PublishCannedMessage` | focus_judger/lambda_function.py:183-188 | appends the canned text for the user to the group's pushes |
| `FocusJudger.Judger.SignalIot` | focus_judger/lambda_function.py:190-192 | one more call to the actuator |
| `FocusJudger.Judger.PublishToFrontend` | focus_judger/lambda_function.py:116-133 | appends the derived parameters to the frontend posts |
| `FocusJudger.Judger.HandleStampedEvent` | focus_judger/lambda_function.py:42-66 | after the timestamp has converted: attendance put, absence transition, a push and a signal iff a warning fired, and one frontend post carrying that warning |
| `FocusJudger.Judger.LambdaHandler` | focus_judger/lambda_function.py:21-67 | a request time that fails to convert aborts the event with no write, push, signal or post; otherwise the decoded user's event is handled as `HandleStampedEvent` says |

## Left out

- Rekognition `detect_faces`: whether a face was seen is an input. The `%40` decoding of the S3 key before the call is `DecodeAt`.
- The screenshot classifier's HTTP call and its JSON parsing: the status code is an input.
- DynamoDB `get_item`/`put_item`, the LINE `push_message`, the IoT GET and the frontend POST are external calls. They are modelled as updates of the tables and logs in `Judger`. Their responses are not modelled, nor is the check and print of the frontend status code.
- Failures of those external calls are not modelled. In the source such a failure aborts the event part-way. For example, a classifier failure comes after the attendance item is written and before the absence row is updated.
- `compute_focus_score`: the normal draw (mean 0.75 or 0.25, deviation 0.1) is given as the `sample` argument. Floating-point values are modelled as reals, and NaN is not modelled. `round(score, 2)` and `str` are not modelled: the printed score is an input of `PublishToFrontend`.
- `uuid.uuid4()` for the frontend id is an input. Also left out are `json.loads` of the body and the `KeyError`s of missing payload fields or environment variables.
- `print` logging.
- Clock.ShiftToTaipei: Asia/Taipei is a fixed UTC+8. pytz's historical offsets for Taipei are not modelled. These are local mean time (+08:06) for every date before 1896, which also changes the minutes; Japan Standard Time (+09) from 1937-10-01 to 1945-09-21; and the daylight-saving periods before 1980.
- FocusJudger.Judger.WriteToDdb: the source builds the attendance item but never states the table's key schema. Keying rows by (username, date, time), so that a repeated key overwrites, is an assumption of this model.
- Clock.ParseRequestTime: only two-digit day, hour, minute and second fields, ASCII digits and exactly capitalised English month abbreviations are accepted. `strptime` also accepts one-digit fields, non-ASCII decimal digits (its `\d`) and any letter case. Those inputs are rejected here with `ValueError`.
- Text.Pad: years below 1000 are printed with four zero-padded digits. The platform `strftime` may print them without padding.
- Text.ParseNat: `int()` also accepts surrounding whitespace, a sign, underscores and non-ASCII digits. Those are not modelled; the counts read back are only ever written by `str(n)`.
- The unprotected read-modify-write race between concurrent invocations for the same user. One invocation is modelled at a time.
- `LambdaHandler` returns the warning flag or the exception. The source returns `None`; the flag is returned only so it can be observed.
- `topic_extractor/lambda_function.py` is not part of this model. It only chains calls to an external topic extractor, DynamoDB, SNS, LINE and an HTTP endpoint.
