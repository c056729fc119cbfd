# macfind, modelled in Dafny

macfind looks up the hardware vendor of a MAC address. It checks the address
syntax and takes the OUI, the first three octets. It then scans a local
tab-separated database file for the OUI. If the database is unavailable or the
scan fails, it asks the remote endpoint `api.macvendors.com`, with a five-second
timeout. This project models that pipeline as pure functions and proves what each
stage promises.

- `outcome.dfy` (module `Outcome`): the result of a Go call of shape
  `(string, error)`. `Ok(value)` stands for `(value, nil)`. `Fail(error)` stands
  for `("", error)`: every error return in the code pairs the error with `""`.
  `Panic` is a run-time panic. The error kinds are a datatype. Message texts are
  not modelled.
- `mac_syntax.dfy` (module `MacSyntax`): `parse`. The regular expression is given
  group by group (`MatchesGroups`). It is proved equal to the positional shape
  `IsMac`: length 17, a colon at every third position, a hex digit everywhere else.
- `local_db.dfy` (module `LocalDb`): `searchDB`. The file is either `Unopenable`,
  or `Readable(lines, end)`, where `end` says whether reading ended cleanly or
  on a read error. Strings stand for Go byte strings, one element per byte,
  so the slices `line[0:8]` and `line[9:]` have their Go meaning. The key slice
  is taken on every line the loop reaches; the vendor slice only on a matching
  line. A line shorter than 8 bytes, or a matching line of exactly 8 bytes, is
  out of range, and the model says `Panic`. A read error carries the index of the
  first line the scanner handed out after recording it. The scanner can still
  hand out buffered lines after a read error, and `scanner.Err()` after the
  `break` then reports the error.
- `search.dfy` (module `Macfind`): `Search`. Its inputs are the address, the
  `DB_AVAIL` flag as `initialize` leaves it at the start of the call (`dbAvail`),
  the database file as the OUI lookup opens it (`db`), the file as the second
  open after a timeout sees it (`dbLater`), and the remote outcome.
  The remote outcome is one of: a transport error, `TimedOut`
  (the timer won the race), or a status code with the result of reading the body.

Behaviour of the code worth knowing, all modelled as written:

- A clean local miss is not a fall-through. When every line holds an 8-byte key
  different from the OUI and reading ends at end of file, one would expect the
  randomized-address sentinel or a question to the endpoint. Instead `searchDB`
  returns `""` with no error, and `Search` answers `" --from db"`
  (`LocalMissAnswersFromDb`). A miss that ends on a read error does go on to the
  endpoint.
- Every vendor carries a source mark: a database line `FC:FB:FB<TAB>Example Inc.`
  answers `"Example Inc. --from db"` (`ScenarioLocalHit`).
- A remote timeout calls `searchDB` again with the full address instead of
  reporting the timeout (see Findings).

## Model

| member | source | states |
|---|---|---|
| MacSyntax.GroupsIffShape | macfind.go:113 | the anchored pattern of six colon-joined hex pairs accepts exactly the strings of length 17 with `:` at indices 2, 5, 8, 11, 14 and a hex digit (either case) at every other index |
| MacSyntax.Parse | macfind.go:112-122 | parse succeeds iff the input has the MAC shape; on success it returns exactly the first 8 characters, which have the OUI shape `HH:HH:HH`; otherwise it fails with an invalid-address error naming the input |
| MacSyntax.OuiOfMac | macfind.go:121 | the 8-character prefix of any valid address has the OUI shape |
| MacSyntax.ParseIsAnchored | macfind.go:113-119 | a valid address with anything added before or after it is rejected |
| MacSyntax.ParseIgnoresCase | macfind.go:113 | an address is accepted iff its upper-cased form is; the OUI keeps the input's case |
| MacSyntax.ParseFormatted | macfind.go:113-121 | any six octets written as colon-separated hex pairs, in either case, are accepted, and the OUI is the rendering of the first three octets |
| LocalDb.Scan | macfind.go:95-108 | the first line the scan does not read past decides: if it is too short to slice, the scan panics; if its 8-byte key equals the OUI, it gives its text from byte 9 on, unless the scanner recorded a read error before handing that line out, in which case the result is the scan error; if every line is read past, the result is a scan error when reading ended on one and `""` with no error otherwise |
| LocalDb.SearchDb | macfind.go:89-108 | a file that cannot be opened gives an open error; an opened file gives exactly the result of the first-match scan over its lines; the only errors are open and scan errors |
| LocalDb.ScanLoop | macfind.go:95-108 | the `for scanner.Scan()` loop with its `break`, followed by the `scanner.Err()` check, computes the same reply as the first-match scan |
| LocalDb.WellFormedNeverPanics | macfind.go:100-101 | if every line holds a key and a separator (at least 9 bytes), the lookup never panics |
| LocalDb.FirstHitIgnoresLaterLines | macfind.go:96-107 | for a matching line of at least 9 bytes, all of whose earlier lines hold an 8-byte key different from the OUI, that line decides: lines after it change nothing, and a read error changes the answer to the scan error only if the scanner recorded it before handing out the matching line |
| LocalDb.HitAfterRecordedError | macfind.go:100-107 | concrete input: a matching last line handed out after the scanner recorded a read error gives the scan error, not the vendor |
| LocalDb.MissIsLikeEmptyDb | macfind.go:90-108 | when every line holds an 8-byte key different from the OUI, the result is what an empty database gives: `""` with no error when reading ended at end of file, the scan error when it ended on one |
| LocalDb.WrongWidthKeyNeverHits | macfind.go:100 | a key that is not 8 bytes long matches no line, so when every line is at least 8 bytes long the scan reads the whole file and finds nothing: `""` with no error at end of file, the scan error otherwise |
| LocalDb.WrongWidthKeyFindsNothing | macfind.go:100-108 | a successful scan for a key that is not 8 bytes long returns the empty string |
| Macfind.Answered | macfind.go:69-85 | a transport error is returned as an error; 404 gives `"?(randomized MAC)"` with no error; any other non-200 status is a status error; 200 gives the body followed by `" --from api"`, or an error if the body read fails; the result is an error iff it is not a 404 and not a readable 200 |
| Macfind.Search | macfind.go:39-86 | an invalid address fails with the validation error; with the database available, a local success returns the vendor followed by `" --from db"` and a local panic propagates; an unavailable database or a local error leads to the remote branch, where a timeout gives whatever `searchDB` gives for the full address |
| Macfind.InvalidInputShortCircuits | macfind.go:41-44 | an invalid address fails, whatever the database and the remote outcome are |
| Macfind.LocalHitSkipsRemote | macfind.go:46-49 | after a local hit the remote outcome does not affect the result, and the result carries the `" --from db"` mark |
| Macfind.LocalMissAnswersFromDb | macfind.go:46-49 | with the database available, every line holding an 8-byte key different from the OUI and reading ended at end of file, the result is `" --from db"` with no error, whatever the remote outcome |
| Macfind.LocalErrorFallsThrough | macfind.go:46-50 | a local error gives the same result as an unavailable database |
| Macfind.OkProvenance | macfind.go:46-85 | every successful value is the sentinel, ends in `" --from db"`, ends in `" --from api"`, or is the empty string after a timeout |
| Macfind.NeverTimeoutError | macfind.go:63-67 | on no input at all does the code as written report a timeout error |
| Macfind.TimeoutRepeatsLocalError | macfind.go:46-66 | after a timeout the caller never sees a timeout error; when the second open sees the same file and every line holds an 8-byte key, a database that failed the OUI lookup fails again with the same error |
| Macfind.TimeoutYieldsEmptyVendor | macfind.go:63-66 | after a timeout, when the database was not consulted or its OUI lookup failed, a second open that reads the whole file cleanly gives `""` with no error, because the 17-byte address never equals an 8-byte key |
| Macfind.TimeoutCounterexample | macfind.go:63-66 | concrete inputs: `FC:FB:FB:01:FA:21` with an unconsulted database holding its OUI gives `""` with no error; with an unopenable database it gives an open error |
| Macfind.SearchIntended | macfind.go:63-67 | corrected timeout branch: a timeout on the remote path fails with a timeout error, and the result is never a local-database error |
| Macfind.IntendedAgreesBesidesTimeout | macfind.go:39-86 | the corrected function agrees with the code as written on every input whose remote outcome is not a timeout |
| Macfind.IntendedOkProvenance | macfind.go:46-85 | in the corrected function every successful value is the sentinel or ends in `" --from db"` or `" --from api"` |
| Macfind.ScenarioLocalHit | macfind.go:46-48 | `FC:FB:FB:01:FA:21` with a database line `FC:FB:FB<TAB>Example Inc.` gives `"Example Inc. --from db"`, whatever the remote outcome and the later file are |
| Macfind.ScenarioRandomized | macfind.go:74-75 | `6A:D5:DC:A5:F9:1B` with no usable database and a 404 answer gives the sentinel |
| Macfind.ScenarioMalformed | macfind.go:41-44 | `6A:D5:DC:Avv:F9:1B:1B` is rejected with a validation error, whatever the other inputs are |

## Findings

| source | as written | input that shows it | evidently intended | confidence | as-written member | corrected member |
|---|---|---|---|---|---|---|
| macfind.go:65-66 | when the remote request times out, `Search` returns `searchDB(hw)`, a second local scan keyed by the 17-byte address, which never equals an 8-byte key | `FC:FB:FB:01:FA:21` with `DB_AVAIL` false but the file readable and holding `FC:FB:FB`, remote timed out: result `""` with no error. With the database unopenable: an open error instead of a timeout | a timeout error that reaches the caller, with no second local lookup | high (not executed) | Macfind.TimeoutCounterexample | Macfind.SearchIntended |

`Macfind.NeverTimeoutError`, `Macfind.TimeoutYieldsEmptyVendor` and
`Macfind.TimeoutRepeatsLocalError` state the as-written behaviour for all inputs.

## Left out

- `initialize` (macfind.go:25-36): it locates the file with `runtime.Caller`, calls `os.Stat`, may call `os.Exit`, and mutates two globals. `initialize` runs at the start of every `Search` call. It only ever sets `DB_AVAIL` to false, so once the file is missing the OUI lookup is skipped for the life of the process. The flag as this call sees it is the input `dbAvail`. The timeout branch opens the file whatever the flag says, so the file at that moment is its own input, `dbLater`.
- File I/O (`os.Open`, `bufio.Scanner`): the file is the sequence of lines the scanner delivers, plus how reading ended. How the scanner splits lines is not modelled: it drops a trailing carriage return and fails on lines over 64 KiB. A failure to open is `Unopenable`.
- `http.Get`, `url.QueryEscape` and the URL template (macfind.go:54, 59): network and library code. The URL affects no decision.
- The goroutine, the channel and the `time.After` race (macfind.go:55-67): concurrency and timing. The winner of the race is the `TimedOut` variant. Also not modelled: after a timeout, `Search` returns and its deferred `close(done)` runs. When `http.Get` finishes later, the goroutine's send on the closed channel panics.
- The `regexp.Compile` error path (macfind.go:114-116): the pattern is a constant, so it cannot fail to compile.
- Error message texts: for example, the status error's text holds the code and the status line. Only the error kind and the status code are modelled.
- macfind_test.go: a single test that calls the real endpoint and prints the result. It asserts nothing.
- Closing the file: `searchDB` never closes the file it opens (macfind.go:91 has no `f.Close()`), so each lookup leaks a file descriptor. Descriptors are a resource outside a pure model.
- Macfind.TimeoutRepeatsLocalError: promises the repeated error only when the second open sees the same file as the first and every line holds an 8-byte key. Otherwise the second scan can give `""` with no error, which `Macfind.TimeoutYieldsEmptyVendor` states, or a panic on a short line.
