# FDU grade checker: transcript diff and notification, in Dafny

The checker logs in to the university portal, fetches one page of the
student's transcript (a JSON object with a server total `recordsTotal` and a
page of rows `data`), compares it with the snapshot stored by the previous
run, and pushes a text notification through one of two relays when the total
has changed. This project models the decision logic of `main.py`: reading the
two fields with their defaults, the filter that finds new rows, the title and
body of the notification, the configuration gate and the push-channel choice.

Modules:

- `Wrappers` (`wrappers.dfy`): `Option`, for keys and environment variables that may be absent.
- `JsonParser` (`json_parser.dfy`): the parsed snapshot (`Snapshot`, with
  optional `recordsTotal` and `data`), the diff (`Unseen`,
  `CompareTranscriptWith`), the formatter (`GenerateTitle`, `Content` and
  the loop-based `GenerateContent` that is proved equal to it,
  `PrettyPrint`) and `GetNewCoursesBasedOn`. The source class keeps its
  parsed object unchanged after construction, so it is a value here.
- `Environment` (`environment.dfy`): `CheckEnvSet` and `PushData`.
- `GradeChecker` (`grade_checker.dfy`): one run of the program, without I/O.

A record is `seq<string>`: each field is the text that string formatting
gives for it. The formatter takes `Row`, a record with at least six fields.

A missing TOKEN or PUSH_CHANNEL makes `check_env_set` return false, and
the program then exits with status 1 (main.py:90-95, main.py:187-188;
`CheckEnvSet`, `Run`). `push_data` checks only the upper bound of the
channel (main.py:104). A negative channel therefore selects a relay counted
from the end of the list, or raises an IndexError below minus the list's
length (main.py:108). `PushData` models both cases.

## Model

| member | source | states |
|---|---|---|
| `JsonParser.GetRecordCount` | main.py:121-122 | an absent `recordsTotal` gives 0; a present one is returned unchanged |
| `JsonParser.GetTranscript` | main.py:124-125 | an absent `data` gives the empty list; a present one is returned unchanged |
| `JsonParser.Unseen` | main.py:130 | the result is an order-preserving subsequence of the new list; it holds a row exactly when the new list holds it and the old list does not; every such row keeps all its occurrences |
| `JsonParser.CompareTranscriptWith` | main.py:127-130 | the same three properties, stated over the transcripts of the current and the previous snapshot |
| `JsonParser.UnseenUnique` | main.py:130 | any order-preserving selection from the new list that keeps no old row and every occurrence of each other row is exactly the filter's result, so the three properties determine it |
| `JsonParser.UnseenAppended` | main.py:127-130 | when the new page is the old page followed by rows absent from it, the filter returns exactly those rows |
| `JsonParser.GenerateTitle` | main.py:132-140 | a warning gives the fixed warning text, whatever the rows and the setting; otherwise an empty list gives "", the setting gives fields 3 and 5 of the first row separated by a space, and the fixed new-grades text is given in the other case; the title is empty exactly when there is no warning and no row |
| `JsonParser.GenerateContent` | main.py:142-150 | the nested loops build exactly `Content`: the blocks of the rows, in order |
| `JsonParser.BlockLayout` | main.py:143-149 | one row's block is the labelled lines for fields 3, 5, 4 and 0, with the labels course name, grade, credit and course code, followed by the `-----` line |
| `JsonParser.ContentCons` | main.py:146-149 | the body of a list is the first row's block followed by the body of the remaining rows |
| `JsonParser.ContentEmpty` | main.py:145-150 | the body is empty exactly when the list of rows is empty |
| `JsonParser.ShowDataInTitle` | main.py:153 | the title shows row data exactly when SHOW_DATA_IN_TITLE is set and equals "TRUE" |
| `JsonParser.PrettyPrint` | main.py:152-156 | the text is the title, then the `\n-----\n` rule, then the body, with nothing else |
| `JsonParser.GetNewCoursesBasedOn` | main.py:158-162 | the text is empty exactly when the two totals are equal, whatever the rows. Otherwise it is the rendering of the new rows, with the warning set exactly when the change in total differs from the number of new rows |
| `JsonParser.WarningWhenCountsDisagree` | main.py:158-162 | if the total changed and the change differs from the number of new rows, the text opens with the fixed warning and the rule |
| `JsonParser.TitleWhenCountsAgree` | main.py:132-162 | if the total changed and the change equals the number of new rows, at least one row is new and the title is non-empty. With the setting, the title is fields 3 and 5 of the first new row; without it, the fixed new-grades text |
| `JsonParser.OneNewRecord` | main.py:158-162 | one unseen row appended to the stored page, with the total raised by one, is reported alone and without warning |
| `Environment.CheckEnvSet` | main.py:86-98 | the gate passes exactly when STD_ID, PASSWORD, TOKEN and PUSH_CHANNEL are all set. A missing login is reported first, then a missing token. An unset SHOW_DATA_IN_TITLE only flags the default and does not stop the gate |
| `Environment.PushData` | main.py:100-108 | an empty result pushes nothing; a channel at or beyond the number of relays is refused. A channel in `[0, 2)` selects `PUSH_DATA_URLS[channel]`; a channel in `[-2, 0)` selects `PUSH_DATA_URLS[2 + channel]`, counting from the end; a channel below -2 raises an IndexError. The selected template gets the token and the result. A request is made exactly when the result is non-empty and the channel lies in `[-2, 2)` |
| `GradeChecker.Run` | main.py:169-193 | a refused gate ends with status 1 and nothing else happens; otherwise the new snapshot is stored and the text is the diff. Equal totals give an empty text and no push. A push is sent exactly when the gate passes, the total changed and the channel selects a relay |

## Left out

- GetNewCoursesBasedOn: requires six fields in every record the filter keeps when the total changed, instead of modelling the IndexError that a shorter record raises in the formatter (main.py:138, main.py:148); `GenerateTitle` likewise requires six fields in the first record when it shows row data. In the source, main.py:180 stores the new snapshot before main.py:181 formats it. Such a crash therefore loses the notification for good, because the next run sees equal totals. The model does not show that loss.

- Login and logout against the single-sign-on server (`UISAuth`): HTTP session handling and HTML scraping. `Run` treats the login as successful.
- The HTTP requests that fetch the transcript and deliver the notification, and the relay's reply status. These are network I/O. `PushData` stops at the decision of which relay to call with which text.
- Parsing the JSON text, and reading and writing `record.json`. The snapshots are taken as already parsed. Storing is shown only as the snapshot `Run` hands back. A missing `record.json`, which makes the source raise, is not modelled.
- Values of `recordsTotal` or `data` that are present but of another JSON type, and non-string fields. Fields are taken as their formatted text.
- URL-encoding of the text and filling of the relay template (`quote`, `str.format`): foreign library code. `PushAction.Send` carries the template, the token and the unencoded text.
- Parsing PUSH_CHANNEL with `int`, and the ValueError for a non-numeric value. `Run` takes the parsed channel number.
- Log output, `time.sleep`, process exit, and the retry setting of the HTTP library.
- The `warning` argument of `generate_content`: the source never reads it, so `GenerateContent` and `Content` have no such parameter.
