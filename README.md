# Grievance portal: record-keeping rules, in Dafny

This project models the rules underneath the grievance portal, a single
Streamlit application (`main.py`). The store keeps two databases:

- **auth**: single-use admin invitation codes and user accounts with unique usernames;
- **complaints**: complaint rows with an auto-increment id and a status
  lifecycle (OPEN, IN_PROGRESS, RESOLVED).

On top of the store sit the complaint form's severity rule and field check,
and the dashboard's key metrics. The SQLite tables are modelled as in-memory
collections: a map for `admin_codes`, sequences in id order for `users` and
`complaints`. Only the schema's constraints are kept: primary keys,
AUTOINCREMENT, UNIQUE username and the column defaults.

Files and modules:

- `common.dfy` (`Common`): `Option` (SQL NULL, "no row") and `Timestamp`.
- `severity.dfy` (`SeverityScorer`): `max(1, min(5, int(abs(score * 2.5) + 3)))`, with Python's truncating `int()`.
- `credentials.dfy` (`Credentials`): class `Auth` (admin codes, registration, login) and the admin registration flow.
- `complaints.dfy` (`Complaints`): class `ComplaintSystem` (insert and status update), with the pure row and table updates it is specified by.
- `intake.dfy` (`Intake`): the complaint form's submission: field check, severity, insert.
- `dashboard.dfy` (`Dashboard`): total count, resolved count and resolution rate.

The outside world enters as parameters:

- SHA-256 is the `digest` function given to `Auth`'s constructor.
- `secrets.token_hex(6)` is the `token` argument. It is required to be 12 lower-case hex digits.
- `datetime.now()` is the `now` argument.
- The VADER compound score is the `sentimentScore` argument.

`ComplaintSystem` keeps a ghost `clock`, the latest time it has stamped. The
model assumes clock readings never go back (see "## Left out"). Under that
assumption every row keeps `created_at <= resolved_at`, and every RESOLVED row
carries a resolution time.

Behaviour of `main.py` that the model makes explicit:

- Severity truncates: 0.3 gives 3, where rounding would give 4 (`SeverityExamples`).
- Because `abs` comes first, severity is always 3, 4 or 5. The clamp to 1 never applies.
- Updating an unknown complaint id is a silent no-op, not an error.
- Moving a complaint away from RESOLVED keeps its old `resolved_at` (`ReopenKeepsResolvedAt`).
- Status is free text. Only RESOLVED is special; any other string is stored as given.

## Model

| member | source | states |
|---|---|---|
| SeverityScorer.Trunc | main.py:236 | `int()` truncates toward zero: the result is within one of its argument, on the zero side |
| SeverityScorer.TruncIsFloorWhenNonNegative | main.py:236 | on a non-negative argument, as in the severity rule, `int()` is the floor |
| SeverityScorer.Severity | main.py:236 | severity is always in 1..5; in fact it is always at least 3 |
| SeverityScorer.SeverityIsEven | main.py:236 | severity depends only on the magnitude of the score |
| SeverityScorer.SeverityMonotone | main.py:236 | a score of larger magnitude never gives a lower severity |
| SeverityScorer.SeverityBands | main.py:236 | \|score\| < 0.4 gives 3, 0.4 <= \|score\| < 0.8 gives 4, \|score\| >= 0.8 gives 5 |
| SeverityScorer.SeverityOnScoreRange | main.py:236 | for scores in [-1, 1] severity is floor(\|score\| * 2.5) + 3 |
| SeverityScorer.SeverityExamples | main.py:236 | 0 gives 3; 1, -1 and -0.8 give 5; 0.05 and 0.3 give 3; 0.4 gives 4 |
| Credentials.FindLogin | main.py:96-98 | a row is found iff some row has that username and that digest, and the found row is such a row |
| Credentials.Auth.constructor | main.py:25-46 | both tables start empty; passwords will be hashed with the given digest |
| Credentials.Auth.GenerateAdminCode | main.py:48-56 | a new token becomes exactly one new unused code stamped with the current time, other codes untouched; a token already present is refused with nothing changed |
| Credentials.Auth.VerifyAdminCode | main.py:58-69 | succeeds iff the code exists and is unused, and then only that code's flag turns to used; otherwise the table is unchanged; afterwards a known code is used |
| Credentials.RedeemTwice | main.py:58-69 | redeeming the same code twice: the second attempt always fails |
| Credentials.Auth.RegisterUser | main.py:71-90 | succeeds iff no row has the username; on success exactly one row is appended with a fresh larger id, the digest of the password, role admin and verified iff is_admin, department defaulting to ""; on failure nothing changes; usernames stay unique |
| Credentials.Auth.VerifyLogin | main.py:92-100 | returns a row iff some row has that username and the digest of that password; the row returned is the only one with that username |
| Credentials.RegisterAdmin | main.py:207-225 | missing fields or a bad code change nothing; past the code check, only that code turns used, and it stays used even when the username is taken; the outcome is Registered iff the username was free, and then exactly the admin row register_user inserts (fresh id, digest of the password, role admin, verified) is appended |
| Complaints.NewComplaint | main.py:129-133 | a new row has status OPEN, a NULL resolved_at, the current time as created_at, and the submitted fields |
| Complaints.Restamp | main.py:146-151 | the status becomes the new one; resolved_at becomes now iff the new status is RESOLVED, otherwise it keeps its old value; no other field changes |
| Complaints.UpdateStatus | main.py:143-153 | the table keeps its length; rows with the id are restamped, all other rows are kept; ids and creation times never change |
| Complaints.UpdateUnknownIdIsNoop | main.py:143-153 | an id that matches no row leaves the table unchanged |
| Complaints.UpdateKeepsStamps | main.py:146-151 | a status update keeps every row well stamped: created <= resolved <= clock, and RESOLVED rows have a resolution time |
| Complaints.ReopenKeepsResolvedAt | main.py:146-151 | resolving and then reopening a complaint leaves it OPEN with the earlier resolution time |
| Complaints.ComplaintSystem.constructor | main.py:107-124 | the complaint table starts empty, the id counter at zero, and the clock at the epoch, so any later clock reading may be used |
| Complaints.ComplaintSystem.AddComplaint | main.py:126-135 | exactly one OPEN row with a NULL resolved_at is appended, with an id larger than every existing id; no other row changes |
| Complaints.ComplaintSystem.UpdateComplaintStatus | main.py:143-153 | the table becomes the id-wise update; an unknown id changes nothing; at most one row differs; ids stay unique and rows well stamped |
| Intake.SubmitComplaint | main.py:232-241 | a complaint is stored iff customer id, text and category are all non-empty; the stored row is OPEN with the severity of the score and the next id; otherwise nothing changes, the clock included |
| Intake.FileAndResolve | main.py:232-254 | on a fresh database, a complaint with all fields filed and then resolved is the one row, RESOLVED, with its creation time, its severity and the resolution time |
| Dashboard.ResolvedCount | main.py:287 | the number of RESOLVED rows never exceeds the total |
| Dashboard.ResolvedCountIsCardinality | main.py:287 | the resolved count equals the number of positions whose status is RESOLVED |
| Dashboard.AllResolvedIff | main.py:287 | the resolved count equals the total iff every row is RESOLVED |
| Dashboard.NoneResolvedIff | main.py:287 | the resolved count is zero iff no row is RESOLVED |
| Dashboard.AddingKeepsResolvedCount | main.py:126-135 | adding a complaint, which is OPEN, leaves the resolved count unchanged |
| Dashboard.ResolvingMarksRowsWithId | main.py:146-148 | after resolving by id, the resolved rows are the earlier ones plus the rows with that id |
| Dashboard.ResolvingRaisesCount | main.py:146-148 | with unique ids, resolving a row that was not resolved raises the resolved count by exactly one |
| Dashboard.KeyMetrics | main.py:262-287 | no metrics for an empty table; otherwise the total is the row count and the rate is resolved / total, between 0 and 1 |
| Dashboard.RateExtremes | main.py:287 | the rate is 1 iff every complaint is resolved, and 0 iff none is |

## Left out

- Streamlit pages, layout, navigation and messages: presentation only.
- SQLite connections, cursors, commits and `CREATE TABLE IF NOT EXISTS`: each database is one object that lives for the whole session. The source instead reopens the database file on every call.
- `get_all_complaints`: it returns the table, which is the `complaints` field here. `KeyMetrics` takes that sequence.
- VADER sentiment scoring: an external model. Its compound score is a parameter, and nothing forces it into [-1, 1].
- SHA-256, `secrets.token_hex` and `datetime.now`: these are parameters (see above). The model does not state that the digest is one-way. It only states that the digest, not the password, is stored.
- The non-atomic SELECT-then-UPDATE in `verify_admin_code`: concurrency is not modelled. Calls run one after another.
- Charts, the pandas DataFrame, average severity and average sentiment: these are floating-point presentation values. The percentage formatting of the rate is left out too.
- The user registration tab of the commented-out registration page: it is a plain `register_user` call behind a field check. Only the admin tab, which composes two operations, is modelled.
- Credentials.Auth.RegisterUser: a missing `username`, `password`, `email` or `full_name` key makes the source raise KeyError. The `Profile` type always has these fields, so that error is not modelled.
- SeverityScorer.Severity: the float arithmetic of the source is modelled as exact real arithmetic. In IEEE doubles, `abs(score * 2.5) + 3` rounds up to the next integer for a few scores just below 0.4 and 0.8 (0.39999999999999997 gives 4, not 3), so in the source those bands start a few ulps lower. VADER rounds its compound score to four decimals, so it does not produce such scores.
- Complaints.ComplaintSystem.AddComplaint, Complaints.ComplaintSystem.UpdateComplaintStatus and Intake.SubmitComplaint require clock readings that never go back. `datetime.now()` is naive local time, which steps back at the end of daylight saving time and on clock corrections, and the source stores each reading as given. So the source can store a resolved_at earlier than created_at, which the model's invariant rules out.
- Credentials.Auth.GenerateAdminCode: a token already in the table makes the source raise an uncaught `sqlite3.IntegrityError` out of `generate_admin_code`. The model returns None instead, with the table unchanged.
