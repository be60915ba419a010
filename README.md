# Git-Log-Analyzer backend: request translation, in Dafny

The backend is a small Flask service that proxies two GitHub REST API
endpoints for a front-end and reshapes their answers:

- `GET /api/commits/<owner>/<name>` (`get_commits`) validates the repository
  identifier, clamps the page size to 100, asks GitHub for
  `/repos/<owner>/<name>/commits`, maps the upstream outcome to an HTTP status,
  and on success turns every upstream commit object into a summary record
  (short and full hash, message, author name/e-mail/avatar, raw and display
  date, link) wrapped in an envelope with the count, the page and the page size.
- `GET /api/repo-info/<owner>/<name>` (`get_repo_info`) asks for
  `/repos/<owner>/<name>` without validating the identifier, turns every
  non-200 status into 404, and renames nine fields of the repository object.
- `format_date` turns an RFC 3339 timestamp (section 5.6 of RFC 3339) such as
  `2024-01-05T13:04:00Z` into `05/01/2024 à 13:04`, and returns any string it
  cannot read unchanged.

The model has three modules:

- `Json` (json.dfy): decoded JSON values and the Python operations the handlers
  apply to them: truthiness, `x[key]` (`Get`, and `Lookup` along a key path)
  and `x[:n]` (`Prefix`). A Python exception is `None`.
- `DateFormat` (date_format.dfy): `format_date` as `FormatDate`, with a parser
  for the RFC 3339 shape (`Parse`), its printer (`Iso`) and the display form
  (`Render`).
- `Handlers` (handlers.dfy): both endpoints. The network call is an input, an
  `Upstream` value (`Timeout`, `TransportError`, or `Reply(status, body)` where
  `body == None` means the body was not JSON). Each handler yields an
  `Exchange`: the request it sent upstream, if any, and the response
  (status and body) it gives the client. `CommitsExchange` is the
  specification of `get_commits`. The method `GetCommits` follows the source
  step by step. It builds the commit list in a loop and is proved equal to
  `CommitsExchange`. `RepoInfoExchange` is `get_repo_info`.

Three behaviours of the code that a reader might not expect, which the model
keeps:

- An identifier with an empty owner or name (`/`, `a/`, `/a`) is accepted. Only
  the number of `/` characters is checked.
- The short hash is the first `min(7, |sha|)` characters, not always seven.
- Every `Z` in a date is rewritten as `+00:00`, not only a trailing one.

## Model

| member | source | states |
|---|---|---|
| Json.Prefix | backend/app.py:75 | `sha[:7]` succeeds exactly on strings and arrays and yields a prefix of length `min(7, len)` |
| Handlers.Count | backend/app.py:21 | `repo.count('/')` is at most the length and is zero exactly when `/` does not occur |
| Handlers.ValidIdentifierIff | backend/app.py:21-24 | an identifier passes validation iff it holds exactly one `/`, with any text (possibly empty) around it |
| Handlers.OwnerNameAccepted | backend/app.py:21-24 | `owner/name` passes iff neither part contains `/` |
| Handlers.EmptySegmentsAccepted | backend/app.py:21-24 | `/`, `a/` and `/a` pass; `ab` and `a/b/c` are rejected |
| Handlers.ClampPerPage | backend/app.py:31 | the forwarded page size is `min(per_page, 100)`: never above 100 or above the request, and equal to one of them |
| Handlers.Headers | backend/app.py:41-49 | every request carries the v3 media type and the client name; `Authorization: token <t>` is added iff a non-empty token is configured |
| Handlers.RejectedBeforeUpstream | backend/app.py:21-24 | a rejected identifier gets 400 with nothing sent upstream, whatever the upstream would have answered |
| Handlers.AcceptedSendsRequest | backend/app.py:27-52 | an accepted identifier sends one request to `/repos/<repo>/commits` with `per_page` equal to `min(per_page, 100)`, `page` unchanged and the common headers of `Headers` |
| Handlers.CommitsStatusTable | backend/app.py:54-106 | timeout gives 408, another transport failure 500; every non-200 upstream status is forwarded as the response status, as not-found for 404, rate-limited for 403, an upstream error otherwise; a 200 reply gives 200 or 500, with 500 when the body is not JSON or cannot be iterated as a commit list; an empty object or empty string gives 200 with no commits |
| Handlers.CommitsEnvelopeSpec | backend/app.py:69-96 | status 200 iff the body is the envelope; it comes only from a 200 reply whose commits all reshape, and it echoes the identifier, page and clamped page size, with a commit list of the upstream's length and order and `total_commits` equal to that length |
| Handlers.ReadableReplyGivesEnvelope | backend/app.py:69-96 | a 200 reply whose commit list holds only readable commit objects gives 200 with the envelope: identifier, page and `min(per_page, 100)` echoed, and the i-th entry the summary of the i-th commit, for every commit |
| Handlers.UnreadableCommitIsInternal | backend/app.py:72-111 | one commit object missing a field the reshaping reads makes the whole answer a 500 |
| Handlers.ShapeCommitSpec | backend/app.py:74-86 | a summary is built iff every field it reads is present; short hash is a prefix of the full one of length `min(7, len)`; name, e-mail and date come from `commit.author`; the avatar is null when the account value is null or otherwise false, and the account's `avatar_url` when it is true; the display date is `format_date` of the raw date |
| Handlers.NullAccountNullAvatar | backend/app.py:78-82 | a commit whose `author` account is null gets a null avatar and keeps the name and e-mail of `commit.author` |
| Handlers.Elements | backend/app.py:72 | `for commit in commits_data` visits the items of an array in order, nothing for an empty object or empty string, and fails on every other body |
| Handlers.ShapeAll | backend/app.py:72-87 | the list is reshaped iff every commit is, into a list of the same length whose i-th entry is the summary of the i-th commit |
| Handlers.GetCommits | backend/app.py:13-111 | the step-by-step handler, its loop building the commit list one entry at a time, answers exactly what `CommitsExchange` specifies |
| Handlers.RepoInfoStatus | backend/app.py:113-149 | repository info always sends its request (no validation), answers only 200, 404 or 500, collapses every non-200 status to 404, and turns a timeout or transport failure into 500; a 200 reply gives 200 or 500, with 500 when the body is not JSON |
| Handlers.RepoSummarySpec | backend/app.py:131-146 | on a 200 reply the summary exists iff the body is an object holding the nine keys, and it is exactly those nine values under their new names; a 200 reply with any key missing, or not an object, is a 500 |
| DateFormat.Pad | backend/app.py:157 | the `%d`/`%m`/`%H`/`%M`/`%Y` fields are exactly the requested number of decimal digits |
| DateFormat.NumberOfPad | backend/app.py:157 | a number that fits in `w` digits reads back from its zero-padded form |
| DateFormat.PadOfNumber | backend/app.py:156-157 | a numeral printed back at its own width is the same numeral |
| DateFormat.ReplaceZOfZ | backend/app.py:156 | a lone `Z` is rewritten as the zero offset `+00:00` |
| DateFormat.ReplaceZ | backend/app.py:156 | after the rewrite no `Z` remains, and the text only grows, by at most five characters per character |
| DateFormat.Parse | backend/app.py:156 | `fromisoformat` yields only real timestamps: years 1 to 9999, calendar days with leap years, a 24-hour clock, an offset within one day |
| DateFormat.ParseIso | backend/app.py:156 | every valid timestamp is read back from its printed RFC 3339 form |
| DateFormat.IsoOfParse | backend/app.py:156 | every string that is read is the printed form of what it is read as |
| DateFormat.ParseIff | backend/app.py:156 | a string reads as `t` iff `t` is valid and the string is `t`'s printed form |
| DateFormat.FormatDate | backend/app.py:151-159 | the input comes back unchanged iff it cannot be read |
| DateFormat.FormatDateVerbatim | backend/app.py:156-157 | a readable date is shown as its own day, month, year, hour and minute digits, copied in the order `DD/MM/YYYY à HH:MM`, with no offset conversion |
| DateFormat.FormatDateUtc | backend/app.py:156-157 | a UTC timestamp written with a trailing `Z` is shown from its own fields |
| DateFormat.FormatDateExample | backend/app.py:151-157 | `2024-01-05T13:04:00Z` is shown as `05/01/2024 à 13:04` |
| DateFormat.FormatDateNotADate | backend/app.py:158-159 | `not-a-date` comes back unchanged |

## Left out

- Flask routing, `jsonify`, CORS and the two `errorhandler` fallbacks (backend/app.py:1-8, 171-177): framework plumbing with no decision in it.
- The HTTP call itself and its 10-second timeout (backend/app.py:52, 129): network I/O. Its outcome is the `Upstream` input, and the request is recorded in `Exchange.sent`.
- Reading `GITHUB_TOKEN` from the environment (backend/app.py:47, 125): the token is an input of type `Option<string>`.
- `health_check` (backend/app.py:161-169): it only reports the wall-clock time.
- The `__main__` block (backend/app.py:179-189): port parsing, printing and server start-up.
- The coercion of `per_page` and `page` from the query string, which falls back to the defaults 30 and 1 on a bad value: both arrive as integers.
- The French error messages and the `str(e)` detail: errors are an `ErrorKind` plus the status code.
- DateFormat.Parse: reads only `YYYY-MM-DDTHH:MM:SS` with an optional `±HH:MM` offset. Other forms that some versions of `datetime.fromisoformat` accept are read as failures, and their input comes back unchanged. These include fractional seconds, a date alone, the basic format without separators, a separator other than `T`, hour 24 and offsets with seconds.
- DateFormat.FormatDate: years below 1000 are shown with four digits. The C library's `%Y` under Linux prints them without leading zeros.
- JSON numbers are integers: no upstream field the handlers read is fractional, so floating point is not modelled.
- Objects are maps, so key order is not modelled. Iterating a non-empty object or string as the commit list yields strings, and the first subscript on them raises. The model goes straight to that 500.
- A 200 reply whose body is not JSON makes `response.json()` raise. Recent versions of `requests` raise a `RequestException`, which gives 500 through the connection-error branch, and that is the kind the model uses. Older versions reach the generic branch, which also gives 500.
