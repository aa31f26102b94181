# Sisimai::MTA::Exchange in Dafny

This project models the Microsoft Exchange bounce parser of Sisimai,
`Sisimai::MTA::Exchange` in `lib/sisimai/mta/exchange.rb`, and proves
properties of the model. `scan(mhead, mbody)` works in three stages:

- **Detection** (module `Detector`). It decides from the bounce's own headers
  whether Exchange produced it. The headers it looks at are X-MS-Embedded-Report,
  X-Mailer, X-MimeOLE and Received.
- **The body walk** (modules `Body` and `BodyProperties`). This is one pass
  over the lines of the body. It reads:
  - the header echo (`To:`, `Subject:`, `Sent:`) into `connheader`;
  - the per-recipient part into the `dscontents` records;
  - the allowed headers of the original message, after the `message/rfc822`
    marker, into `rfc822part`.

  The pass is specified by a step function `Step` over a parser state and
  its fold `Run`. `ParseBody` is the loop the source runs, updating its own
  variables, and it is proved to end in the state `Run` describes.
- **The finishing pass** (module `Normalizer`). For each record it fills the
  host names, finds the vendor code `MSEXCH:…(XXXXXXXX) message` and its
  category in `ErrorCodeTable` (module `ErrorCodes`), falls back to the
  collected `alterrors` text, and sets `spec`, `action` and `agent`. Finally
  every nil field becomes `''`.

`Exchange.Scan` runs the three stages in the source's order. It is proved
equal to `Exchange.ScanSpec`, and the end-to-end lemmas are stated about
`ScanSpec`. The constant accessors `description`, `smtpagent`, `headerlist`
and `pattern` are in module `Accessors`.

The regular expressions written inline in `exchange.rb`, all but the four
listed under "## Left out", are modelled exactly, with Ruby's semantics
spelled out. They are in module `Patterns`, except `/\A[45]/` (line 298),
which is `Normalizer.FailedClass`. The semantics covered are:

- greedy and lazy repetition;
- `\s` also covers vertical tab and form feed;
- `.` never matches a line feed;
- `\z` is the end of the text.

`Text.SplitLines` is Ruby's `String#split("\n")`, which drops the empty fields
at the end.

Code that `exchange.rb` calls but does not define, and the four patterns
that are not modelled, enter as fields of `Collaborators.Env`. Every result
therefore holds for any behaviour of them, except where a lemma's `requires`
asks something of one:

- `BodyProperties.UnlistedHeaderDropsContinuation` needs `LONGFIELDS` not to
  hold the empty name;
- `Normalizer.FinalizeIdempotent`, `Normalizer.VendorLineFinished` and
  `Normalizer.UnknownRecipientLine` need `sweep` to leave the diagnosis
  unchanged.

The fields are:

- the header allow-lists `RFC5322.HEADERFIELDS` and `LONGFIELDS`;
- `RFC5322.received`;
- `String.sweep`;
- `SMTP::Status.code`;
- the two recipient-line patterns and the two `Sent:` patterns, which are
  written in `exchange.rb` (lines 191-192 and 244-245) but whose matching is
  not modelled.

Four behaviours of the code that a reader might not expect, all modelled as
written:

- **The X-MimeOLE rule can never match.** Line 95 looks `Re0` up with the
  String key `'x-mimeole'`, but the keys of `Re0` are Symbols (line 19), so
  the lookup gives nil. See `Detector.MimeOleIgnored`.
- **X-MS-Embedded-Report counts when it is present** (line 81), whatever its
  value, even when it is empty.
- **An `MSEXCH:` line does not set `msexch`** (lines 204-207). It is set,
  together with `statuspart` (lines 211-215), by the first later line of the
  recipient part that is neither a recipient line nor another `MSEXCH:` line.
  See `BodyProperties.StatuspartSet`.
- **`alterrors` is kept when a reason is found.** It is deleted only inside
  `unless e['reason']` (line 293), so a finished record with a reason can
  still carry it. See `Normalizer.CodeFound`.

## Model

| member | source | states |
|---|---|---|
| Text.SplitLines | lib/sisimai/mta/exchange.rb:112 | the lines hold no line feed and are the fields between line feeds, with only empty fields dropped from the end; the last line is never empty |
| Text.SplitFieldsJoin | lib/sisimai/mta/exchange.rb:112 | joining the fields between line feeds with line feeds rebuilds the body exactly |
| Text.Lower | lib/sisimai/mta/exchange.rb:152 | `downcase` keeps the length and lowers each character |
| Patterns.IsXMailerBanner | lib/sisimai/mta/exchange.rb:14-18 | definition without a contract of its own; its body models these lines (`Re0[:'x-mailer']`); `Patterns.ImsXMailerRecognised` and `Detector.DetectIff` state its properties |
| Patterns.IsMimeOleBanner | lib/sisimai/mta/exchange.rb:19 | definition without a contract of its own; its body models these lines (`Re0[:'x-mimeole']`); `Detector.MimeOleBannerAloneRejected` states its properties |
| Patterns.IsImsReceived | lib/sisimai/mta/exchange.rb:21 | definition without a contract of its own; its body models these lines (`Re0[:'received']`); `Patterns.ImsReceivedRecognised` and `Detector.AnyReceivedFrom` state its properties |
| Patterns.IsBeginMarker | lib/sisimai/mta/exchange.rb:24 | definition without a contract of its own; its body models these lines (`Re1[:begin]`); `BodyProperties.NothingBeforeMarkers` states its properties |
| Patterns.IsRfc822Marker | lib/sisimai/mta/exchange.rb:26 | definition without a contract of its own; its body models these lines (`Re1[:rfc822]`); `BodyProperties.NothingBeforeMarkers` and `BodyProperties.RfcFreezes` state its properties |
| Patterns.MatchesPattern | lib/sisimai/mta/exchange.rb:89-102 | definition without a contract of its own; its body models these lines (`=~`, with `=~ nil` never matching); `Detector.DetectIff` and `Detector.MimeOleIgnored` state its properties |
| Patterns.Re0At | lib/sisimai/mta/exchange.rb:11-22 | a lookup finds the X-Mailer, X-MimeOLE and Received patterns exactly for the Symbol keys `:'x-mailer'`, `:'x-mimeole'` and `:'received'`, and nothing for any String key |
| Patterns.HeaderName | lib/sisimai/mta/exchange.rb:150 | the captured header name is a non-empty run of name characters that starts the line and is followed by `:` and a non-empty rest without line feeds |
| Patterns.HeaderNameOf | lib/sisimai/mta/exchange.rb:150 | a `Name:value` line, with a name of name characters and a non-empty value, yields exactly that name |
| Patterns.SpacedValue | lib/sisimai/mta/exchange.rb:232 | the `(.+)` capture is non-empty, has no line feed, ends the text and is preceded only by at least one blank; it starts with a non-blank unless the text is all blanks |
| Patterns.SpacedValueOf | lib/sisimai/mta/exchange.rb:232 | one or more blanks, then a value that starts with a non-blank and holds no line feed, capture exactly that value |
| Patterns.IndentedField | lib/sisimai/mta/exchange.rb:232-238 | definition without a contract of its own; its body models these lines; `Patterns.IndentedFieldOf` and `BodyProperties.StepSlots` state its properties |
| Patterns.IsMsexchText | lib/sisimai/mta/exchange.rb:211 | definition without a contract of its own; its body models these lines; `BodyProperties.StatuspartSet` and `BodyProperties.StepInv` state its properties |
| Patterns.IndentedFieldOf | lib/sisimai/mta/exchange.rb:232-238 | an indented `To:` or `Subject:` line, blanks, then a value, captures exactly that value |
| Patterns.MsexchLine | lib/sisimai/mta/exchange.rb:204 | the capture starts with `MSEXCH:` and at least one more character, has no line feed, and is a proper suffix of the line preceded only by blanks |
| Patterns.MsexchLineOf | lib/sisimai/mta/exchange.rb:204 | a line of one or more blanks, then `MSEXCH:` and a non-empty text without line feeds, captures exactly `MSEXCH:` and that text |
| Patterns.CodeAt | lib/sisimai/mta/exchange.rb:270 | definition without a contract of its own; its body models these lines; `Patterns.ExtractCode`, `Patterns.LastMatchIs` and `Patterns.ExtractCodeOf` state its properties |
| Patterns.ExtractCode | lib/sisimai/mta/exchange.rb:270 | no capture exactly when the code pattern matches at no `(`; otherwise the captures at a matching position after which none matches (the greedy `.+`) |
| Patterns.LastMatchIs | lib/sisimai/mta/exchange.rb:270 | when the pattern matches at a `(` with no `(` after it, the captures are the ones at that position |
| Patterns.ExtractCodeOf | lib/sisimai/mta/exchange.rb:183 | a vendor line `MSEXCH:<text> (<code>) <message>` whose message holds no `(` yields exactly that code and that message |
| Patterns.ImsXMailerRecognised | lib/sisimai/mta/exchange.rb:14-15 | `Internet Mail Service (<version>)` is an Exchange X-Mailer banner for every version made of digits and dots |
| Patterns.ImsReceivedRecognised | lib/sisimai/mta/exchange.rb:21 | `by <host> with Internet Mail Service (<version>)…` matches the Received pattern for every host without line feeds |
| ErrorCodes.FindCategory | lib/sisimai/mta/exchange.rb:276-283 | None exactly when no category from the index on lists the code; otherwise a category there that lists it |
| ErrorCodes.CategoryOf | lib/sisimai/mta/exchange.rb:276-283 | the table search finds nothing exactly when no category lists the code |
| ErrorCodes.CodesAreHex | lib/sisimai/mta/exchange.rb:29-55 | every code in the table is eight upper-case hexadecimal digits, as line 270 captures them |
| ErrorCodes.CodesDistinct | lib/sisimai/mta/exchange.rb:29-55 | no two categories share a name or a code |
| ErrorCodes.CategoryUnique | lib/sisimai/mta/exchange.rb:276-283 | a code listed under a category leads to exactly that category, so the search order does not matter |
| ErrorCodes.NoMailerError | lib/sisimai/mta/exchange.rb:29-55 | no code leads to `mailererror` |
| ErrorCodes.UnknownRecipientCode | lib/sisimai/mta/exchange.rb:35-37 | `000C05A6` is a `userunknown` code |
| Detector.Detect | lib/sisimai/mta/exchange.rb:79-109 | definition without a contract of its own; its body models these lines; `Detector.DetectIff` and `Detector.MimeOleIgnored` state its properties |
| Detector.AnyReceivedFrom | lib/sisimai/mta/exchange.rb:99-105 | the Received search succeeds exactly when some header from the index on matches `Re0[:'received']` |
| Detector.DetectIff | lib/sisimai/mta/exchange.rb:81-109 | detection succeeds exactly when X-MS-Embedded-Report is present, X-Mailer is an Exchange banner, or some Received header is stamped by Internet Mail Service |
| Detector.MimeOleIgnored | lib/sisimai/mta/exchange.rb:93-97 | the X-MimeOLE header never changes the verdict |
| Detector.MimeOleBannerAloneRejected | lib/sisimai/mta/exchange.rb:19 | a header set whose only signal is an Exchange X-MimeOLE banner is rejected, though the banner matches the `Re0` pattern |
| Detector.ImsMailerAccepted | lib/sisimai/mta/exchange.rb:86-90 | `X-Mailer: Internet Mail Service (5.5.2232.9)` is accepted |
| Body.Initial | lib/sisimai/mta/exchange.rb:111-125 | definition without a contract of its own; its body models these lines (the initial values of the loop variables); `BodyProperties.RunInv` and `BodyProperties.NothingBeforeMarkers` start from it |
| Body.CaptureHeader | lib/sisimai/mta/exchange.rb:148-169 | definition without a contract of its own; its body models these lines; `BodyProperties.CaptureStep` and `BodyProperties.RfcFreezes` state its properties |
| Body.ReadRecipientLine | lib/sisimai/mta/exchange.rb:189-223 | definition without a contract of its own; its body models these lines; `BodyProperties.RecipientStepRecords`, `BodyProperties.RecipientPartLine` and `BodyProperties.StatuspartSet` state its properties |
| Body.ReadConnLine | lib/sisimai/mta/exchange.rb:225-252 | definition without a contract of its own; its body models these lines; `BodyProperties.StepSlots` and the `First…Wins` lemmas state its properties |
| Body.Step | lib/sisimai/mta/exchange.rb:128-253 | definition without a contract of its own; its body models these lines; `BodyProperties.StepInv`, `BodyProperties.StepAddresses` and `BodyProperties.StatuspartFreezes` state its properties |
| Body.Run | lib/sisimai/mta/exchange.rb:111-254 | definition without a contract of its own; its body models these lines; `BodyProperties.RunInv`, `BodyProperties.RunAddresses` and `BodyProperties.RecipientsInLineOrder` state its properties |
| Body.ParseBody | lib/sisimai/mta/exchange.rb:111-254 | the loop ends with `dscontents`, `rfc822part`, `connheader` and `recipients` equal to those of `Run` over the lines from the initial state |
| Body.ReadLine | lib/sisimai/mta/exchange.rb:128-253 | one pass of the loop body changes the loop variables exactly as `Step` changes the state |
| Body.CaptureLine | lib/sisimai/mta/exchange.rb:148-169 | a line after the `message/rfc822` marker changes `rfc822part`, `previousfn` and `rfc822next` as `CaptureHeader` does |
| Body.RecipientLine | lib/sisimai/mta/exchange.rb:189-223 | a line of the recipient part updates the last record, or starts a new one, as `ReadRecipientLine` does |
| Body.ConnLine | lib/sisimai/mta/exchange.rb:225-252 | a line of the header echo changes `connheader` and `connvalues` as `ReadConnLine` does |
| BodyProperties.StepInv | lib/sisimai/mta/exchange.rb:128-253 | every line keeps the parser invariant. The invariant says: `connvalues` counts the filled slots; there are as many records as the `recipients` counter says; diagnoses are unset or start with `MSEXCH:`; `msexch` true implies `statuspart`; normaliser fields stay unset; nothing is captured before the marker |
| BodyProperties.RunInv | lib/sisimai/mta/exchange.rb:128-254 | the invariant holds after any sequence of lines from a state where it holds |
| BodyProperties.NothingBeforeMarkers | lib/sisimai/mta/exchange.rb:128-146 | before the `Your message` and `message/rfc822` markers, any run of lines that holds neither marker leaves the whole state unchanged |
| BodyProperties.ConnCounter | lib/sisimai/mta/exchange.rb:120-125 | after the body, `connvalues` is the number of filled `connheader` slots, at most three |
| BodyProperties.RecordCount | lib/sisimai/mta/exchange.rb:111 | after the body there is one record per recipient line, each with a recipient, or else the one fresh record; none has a normaliser field set |
| BodyProperties.StepRecordsNeedConn | lib/sisimai/mta/exchange.rb:173-176 | outside the recipient part (delivery-status bit set, no marker, `statuspart` clear, `connvalues == 3`), no line changes the records or the counter |
| BodyProperties.StepSlots | lib/sisimai/mta/exchange.rb:232-251 | a line changes a `connheader` slot only while the slot is empty and the echo is read, and then to the line's capture, with `To:` before `Subject:` before `Sent:` |
| BodyProperties.RunKeepsFilledSlots | lib/sisimai/mta/exchange.rb:234-248 | a filled slot keeps its value to the end |
| BodyProperties.FirstToWins | lib/sisimai/mta/exchange.rb:232-236 | the first `To:` line read while the slot is empty gives the final value |
| BodyProperties.FirstSubjectWins | lib/sisimai/mta/exchange.rb:238-242 | the first `Subject:` line read while the slot is empty gives the final value |
| BodyProperties.FirstDateWins | lib/sisimai/mta/exchange.rb:244-250 | the first `Sent:` line read while the slot is empty gives the final value |
| BodyProperties.RecipientStepRecords | lib/sisimai/mta/exchange.rb:191-202 | in the recipient part, an address line pushes the current record when it already has a recipient, names the current record and counts it; any other line keeps the records' recipients |
| BodyProperties.StepAddresses | lib/sisimai/mta/exchange.rb:191-202 | a line appends its recipient address to the records' addresses and adds one to the counter when it is a recipient line, and changes neither otherwise |
| BodyProperties.RunAddresses | lib/sisimai/mta/exchange.rb:128-254 | over any lines, the records' addresses grow by the recipient lines' addresses in line order, and the counter by their number |
| BodyProperties.RecipientsInLineOrder | lib/sisimai/mta/exchange.rb:191-202 | after the body, the counter is the number of recipient lines; when positive, the records are one per recipient line, in line order, each with its line's address |
| BodyProperties.StatuspartFreezes | lib/sisimai/mta/exchange.rb:174 | once `statuspart` is set, no later line changes a record, the counter or `connheader`, and the flag stays set |
| BodyProperties.StatuspartSet | lib/sisimai/mta/exchange.rb:209-216 | the line that sets `statuspart` is a non-address, non-`MSEXCH:` line after collected `MSEXCH:` text; it is appended to the diagnosis after a space and sets `msexch` |
| BodyProperties.RecipientPartLine | lib/sisimai/mta/exchange.rb:204-222 | an `MSEXCH:` line appends its text to the diagnosis with no separator; a line after collected diagnosis appends to it after a space and ends the part; otherwise the line goes to `alterrors` after a space |
| BodyProperties.CaptureStep | lib/sisimai/mta/exchange.rb:148-169 | after the marker, `rfc822part` grows by the whole line exactly when it is an allowed header or a continuation of an open long field; only a blank line after a long field closes it; a header line sets `previousfn` to its lower-cased name when kept and clears it otherwise, and any other line keeps it |
| BodyProperties.UnlistedHeaderDropsContinuation | lib/sisimai/mta/exchange.rb:150-162 | a continuation line right after a header whose name is not kept is not copied into `rfc822part` |
| BodyProperties.RfcFreezes | lib/sisimai/mta/exchange.rb:140-169 | after the marker, only the capture variables change and `rfc822part` only grows |
| Accessors.Description | lib/sisimai/mta/exchange.rb:60 | definition without a contract of its own; its body models these lines (`description`) |
| Accessors.SmtpAgent | lib/sisimai/mta/exchange.rb:61 | definition without a contract of its own; its body models these lines (`smtpagent`); `Normalizer.FinishedFields` and `Exchange.ScanRecords` state that every finished record carries it |
| Accessors.HeaderList | lib/sisimai/mta/exchange.rb:62 | definition without a contract of its own; its body models these lines (`headerlist`) |
| Accessors.Pattern | lib/sisimai/mta/exchange.rb:63 | `pattern` is `Re0`: keyed by the three Symbols only, so the String key `'x-mimeole'` is absent |
| Normalizer.FirstHost | lib/sisimai/mta/exchange.rb:265 | definition without a contract of its own; its body models these lines (`shift`); `Normalizer.BodyRecordFields` states its properties |
| Normalizer.LastHost | lib/sisimai/mta/exchange.rb:266 | definition without a contract of its own; its body models these lines (`pop`); `Normalizer.BodyRecordFields` states its properties |
| Normalizer.FillHosts | lib/sisimai/mta/exchange.rb:261-266 | definition without a contract of its own; its body models these lines; `Normalizer.BodyRecordFields` and `Normalizer.FinishedFields` state its properties |
| Normalizer.SweepDiagnosis | lib/sisimai/mta/exchange.rb:268 | definition without a contract of its own; its body models these lines; `Normalizer.CodeFound` and `Normalizer.NoCode` state its properties |
| Normalizer.WithReason | lib/sisimai/mta/exchange.rb:276-283 | definition without a contract of its own; its body models these lines; `Normalizer.WithReasonFromTable` and `Normalizer.SearchTable` state its properties |
| Normalizer.LookUpCode | lib/sisimai/mta/exchange.rb:270-285 | definition without a contract of its own; its body models these lines; `Normalizer.CodeFound` and `Normalizer.VendorLineFinished` state its properties |
| Normalizer.Fallback | lib/sisimai/mta/exchange.rb:287-295 | definition without a contract of its own; its body models these lines; `Normalizer.CodeFound` and `Normalizer.NoCode` state its properties |
| Normalizer.FailedClass | lib/sisimai/mta/exchange.rb:298 | definition without a contract of its own; its body models these lines (`/\A[45]/`); `Normalizer.BodyRecordFields` states its properties |
| Normalizer.Derive | lib/sisimai/mta/exchange.rb:297-300 | definition without a contract of its own; its body models these lines; `Normalizer.FinishedFields` and `Normalizer.BodyRecordFields` state its properties |
| Normalizer.FillBlanks | lib/sisimai/mta/exchange.rb:301 | definition without a contract of its own; its body models these lines; `Normalizer.FinishedFields` states its properties |
| Normalizer.Finalize | lib/sisimai/mta/exchange.rb:260-301 | definition without a contract of its own; its body models these lines; `Normalizer.FinishedFields`, `Normalizer.CodeFound`, `Normalizer.NoCode` and `Normalizer.FinalizeIdempotent` state its properties |
| Normalizer.FinalizeAll | lib/sisimai/mta/exchange.rb:260-302 | definition without a contract of its own; its body models these lines (`dscontents.map`); `Normalizer.FinalizeRecords` and `Exchange.ScanRecords` state its properties |
| Normalizer.FinalizeRecord | lib/sisimai/mta/exchange.rb:260-302 | rewriting one record in place, step by step, ends in `Finalize` of it |
| Normalizer.SearchTable | lib/sisimai/mta/exchange.rb:276-283 | the `each_key` search sets the reason and the non-empty pseudo status of the code's category, and changes nothing when no category lists the code |
| Normalizer.FinalizeRecords | lib/sisimai/mta/exchange.rb:260-302 | `map` rewrites every record into its finished form and keeps the list length |
| Normalizer.FinishedFields | lib/sisimai/mta/exchange.rb:297-301 | a finished record has no nil field and no `msexch`; its agent is Exchange; `spec` is X-UNIX exactly for `mailererror` and SMTP otherwise; non-empty host names are kept |
| Normalizer.FinalizeIdempotent | lib/sisimai/mta/exchange.rb:260-302 | finishing a finished record again changes nothing, when `sweep` keeps its diagnosis and that diagnosis carries no vendor code |
| Normalizer.WithReasonFromTable | lib/sisimai/mta/exchange.rb:276-283 | a reason set by the lookup is a category that lists the code |
| Normalizer.BodyRecordFields | lib/sisimai/mta/exchange.rb:261-267 | for a record of the body: `spec` is SMTP; `action` is `failed` exactly when the status starts with 4 or 5, and `''` otherwise; hosts come from the first and last Received header, `''` without one |
| Normalizer.CodeFound | lib/sisimai/mta/exchange.rb:270-295 | a listed vendor code sets its one category as the reason, that category's pseudo status, and the message as the diagnosis, keeping `alterrors`; an unlisted code leaves reason and status `''` and the message follows the `alterrors` text |
| Normalizer.NoCode | lib/sisimai/mta/exchange.rb:287-295 | without a vendor code, reason, status and action are `''` and the diagnosis is the swept text, after the `alterrors` text when there is one |
| Normalizer.VendorLineFinished | lib/sisimai/mta/exchange.rb:270-285 | a diagnosis `MSEXCH:<text> (<code>) <message>` with a listed code finishes with that code's category, its pseudo status and the message |
| Normalizer.UnknownRecipientLine | lib/sisimai/mta/exchange.rb:183 | `MSEXCH:IMS:KIJITORA CAT:EXAMPLE:EXCHANGE 0 (000C05A6) Unknown Recipient` gives reason `userunknown` and diagnosis `Unknown Recipient` |
| Exchange.Stub | lib/sisimai/mta/exchange.rb:304-309 | definition without a contract of its own; its body models these lines; `Exchange.StubOnto` and `Exchange.ScanHeaderText` state its properties |
| Exchange.ScanSpec | lib/sisimai/mta/exchange.rb:76-311 | definition without a contract of its own; its body models these lines; `Exchange.ScanNeedsDetection`, `Exchange.ScanNeedsRecipients`, `Exchange.ScanRecords` and `Exchange.ScanHeaderText` state its properties |
| Exchange.StubOnto | lib/sisimai/mta/exchange.rb:304-309 | the three `sprintf` appends build exactly `From: <to>\nDate: <date>\nSubject: <subject>\n` |
| Exchange.Scan | lib/sisimai/mta/exchange.rb:76-311 | `scan` returns what `ScanSpec` describes |
| Exchange.ScanNeedsDetection | lib/sisimai/mta/exchange.rb:77-109 | a result needs both arguments and one of X-MS-Embedded-Report, an Exchange X-Mailer banner or an Internet Mail Service Received header |
| Exchange.ScanIgnoresMimeOle | lib/sisimai/mta/exchange.rb:93-97 | the X-MimeOLE header never changes what `scan` returns |
| Exchange.ScanNeedsRecipients | lib/sisimai/mta/exchange.rb:256 | after detection, a result is returned exactly when the body has a recipient line |
| Exchange.ScanRecords | lib/sisimai/mta/exchange.rb:256-302 | the records returned are one per recipient line, in line order, with its address, and every one is finished |
| Exchange.ScanHeaderText | lib/sisimai/mta/exchange.rb:304-310 | the header text is the captured original headers, or, when none were captured (always when there is no marker), the `From`/`Date`/`Subject` stub of the header echo |

## Left out

- The regular expressions for recipient lines (lines 191-192) and `Sent:` dates (lines 244-245) are not defined. They are `Env` fields that give the capture or None. The model fixes only their capture shapes: an address has an `@` and at least three characters, and a date is non-empty.
- `Sisimai::RFC5322.HEADERFIELDS`, `LONGFIELDS` and `received`, `Sisimai::String.sweep` and `Sisimai::SMTP::Status.code` are not part of this model. They are `Env` fields, and every result holds for any of them except for the conditions on `LONGFIELDS` and `sweep` listed above.
- The bit values of `Sisimai::MTA.INDICATORS` (line 56) are not modelled. The two bits of `readcursor` are two booleans, and line 132's `readcursor == 0` test becomes "neither bit is set".
- `Sisimai::MTA.DELIVERYSTATUS` is not part of this model. A fresh record has every field unset, and the record keeps only the fields this parser reads or writes.
- `Re1[:error]`, `Re1[:endof]` and the `havepassed` / `p` lookback (lines 25, 27, 113, 130) are left out, because they are never read.
- `catch`/`throw`, `loop` and the `match` counter of the detector (lines 79-108) become one boolean function with the same order of tests.
- `require` (lines 8-9, 257-258) is left out, because it is module loading.
- `pattern` returns `Re0`'s keys with patterns modelled as predicates, not as Ruby `Regexp` objects.
- `sweep(nil)` (line 268, for a record that collected no diagnosis) is modelled as `sweep('')`, because the behaviour of `sweep` on nil is outside this model.
- `downcase` (line 152) is modelled on ASCII letters only. Header names matched by line 150 are ASCII anyway.
- Normalizer.FinalizeIdempotent: stated only for records whose finished diagnosis `sweep` leaves unchanged and holds no vendor code. `sweep` is a collaborator that need not be idempotent, so a second pass may change the diagnosis again. A finished diagnosis can also still hold a code: the fallback text built from an unindented `MSEXCH:` line collected in `alterrors` keeps that line's code, and a second pass extracts it and looks it up. So the unconditional no-op does not hold.
- X-MS-Embedded-Report, X-Mailer and X-MimeOLE are each an `Option`. A key that is present with the value nil is not distinguished from a missing key.
