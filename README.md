# Slack incident-report handler, modelled in Dafny

This project models the core of a small Go web service (`slack.go`). The service takes a
Slack slash command `/incident-report "Service Name" "Description"` and checks the request's
Slack signature. It parses the quoted text, looks the service up by exact name in PagerDuty,
and opens a PagerDuty incident against it. The model has three parts:

- `CommandParser` (command_parser.dfy): `parseCommand`. The Go code applies the regular
  expression `^"(.+?)"\s+"(.+)"$` with `FindStringSubmatch`. The model is a hand-written
  matcher for that one pattern under Go RE2 semantics:
  - group 1 is lazy, group 2 greedy, and both are non-empty;
  - `.` does not match a newline;
  - `\s` is one of tab, newline, form feed, carriage return and space;
  - `$` matches only at the end of the text.

  The matcher is proved equal to the declarative reading of the pattern (`IsMatch`) with the
  leftmost-first choice RE2 makes: the match with the shortest group 1.
- `ServiceResolver` (service_resolver.dfy): the scan in `getServiceID`. The provider's
  listing is an input of type `Result<seq<Service>>`. The scan is a loop method proved to
  return the ID of the first service whose name equals the query exactly. A listing failure
  gives `("", error)`, which is kept apart from "no such name" (`("", nil)`).
- `IncidentHandler` (incident_handler.dfy): the HTTP handler's early-return chain and
  `createPagerDutyIncident`. Every outside call is a field of a `Collaborators` record: the
  signature verifier's three steps, body reading, slash-command decoding, and the
  provider's listing and creation calls. The handler returns the HTTP status, the body text
  and the list of steps that ran. Its contract gives, for every outcome, the exact response
  and the exact steps, so it also shows which later steps were skipped.
- `Scenarios` (scenarios.dfy): concrete requests whose results follow from the contracts
  alone. They cover success, not found, a bad signature, unquoted text, and `API` versus
  `API Gateway`.

The format the code itself states is its usage message (slack.go:90):
`/incident-report "Service Name" "Description"`, meaning two quoted fields. The pattern
departs from that two-field reading in three ways, and the model follows the pattern:

- Extra quoted groups are absorbed into the description: `"a" "b" "c"` gives the service
  `a` and the description `b" "c` (`ExtraGroupsJoinDescription`).
- A stray quote can end up in the service name, because group 1 may hold quotes:
  `"a"b" "c"` gives the service `a"b` and the description `c` (`QuoteJoinsServiceName`).
- Neither returned field ever holds a newline, because `.` does not match one
  (`ParseCommand`). A quote-free service name holding a newline is always rejected, so
  `"a\nb" "c"` fails (`ParseCommandRejectsNewlineInName`, `NewlineInNameRejected`). A
  description holding a newline can still parse, but with a different split:
  `"a" "x" \n"y"` gives the service `a" "x` and the description `y`. This is why
  `ParseCommandRoundTrip` requires both fields to be free of newlines.

A listed service whose exact-name match has the ID `""` is reported as "No such service
found in PagerDuty". The handler cannot tell it from no match, and the model keeps this.

## Model

| member | source | states |
|---|---|---|
| `CommandParser.ParseCommand` | slack.go:86-93 | Failure returns exactly `("", "", usage error)`, with no partial result. Success returns two non-empty, newline-free fields, and the text starts and ends with `"`. |
| `CommandParser.SkipSpaces` | slack.go:87 | Greedy `\s+` takes the whole run of tab, newline, form feed, carriage return and space, and stops at the first other character. |
| `CommandParser.FindGroup1End` | slack.go:87-88 | Lazy group 1 closes at the first quote after which the rest of the pattern matches. Every earlier position fails, and no position past a newline is tried. |
| `CommandParser.MatchDeterminedByGroup1` | slack.go:87 | Once group 1 is fixed, the whitespace run and group 2 are determined, so each group-1 length gives at most one match. |
| `CommandParser.ParseCommandSound` | slack.go:87-92 | Every successful parse is a match of the pattern with the returned name as group 1 and the returned description as group 2. |
| `CommandParser.ParseCommandShortest` | slack.go:87-92 | Every text the pattern matches parses successfully, and the service name is no longer than group 1 of any match. |
| `CommandParser.ParseCommandIsLeftmostMatch` | slack.go:87-92 | The parse returns exactly the groups of the match with the shortest group 1, which is RE2's leftmost-first choice. |
| `CommandParser.ParseCommandRejects` | slack.go:88-90 | A text that no match covers returns `("", "", usage error)`. |
| `CommandParser.ParseCommandRoundTrip` | slack.go:87-92 | A non-empty name with no quote or newline, any whitespace, and a non-empty newline-free description, once quoted, parse back to exactly that name and description. |
| `CommandParser.ExtraGroupsJoinDescription` | slack.go:87 | `"a" "b" "c"` parses to the name `a` and the description `b" "c`. |
| `CommandParser.QuoteJoinsServiceName` | slack.go:87 | `"a"b" "c"` parses to the name `a"b` and the description `c`: a quote inside the first field stays in the service name. |
| `CommandParser.ParseCommandRejectsNewlineInName` | slack.go:87-90 | A quoted, quote-free service name that holds a newline is rejected with `("", "", usage error)`, whatever whitespace and description follow. |
| `CommandParser.NewlineInNameRejected` | slack.go:87-90 | `"a\nb" "c"` is rejected with `("", "", usage error)`. |
| `ServiceResolver.GetServiceID` | slack.go:95-111 | A failed listing gives `""` with its error. A successful one gives no error and the ID of the first service whose name equals the query. When no name equals it, the result is `""`. |
| `IncidentHandler.CreatePagerDutyIncident` | slack.go:113-132 | The creation request has type `incident`, the description verbatim as title, and a `service_reference` to the service ID. It is sent with the sender address, and the provider's error is returned. |
| `IncidentHandler.HandleIncidentReport` | slack.go:17-79 | Gives each outcome with its status, body and steps: verifier, body or decode failures give 500, and a bad signature gives 401 with no parse or provider call. A parse error comes before the sender check, and an empty sender stops before any lookup. A listing error, not found, and creation error or success follow. Success holds exactly when the one creation call succeeded. |
| `Scenarios.TextParses` | slack.go:87-92 | `"Checkout" "Payments down"` parses to `Checkout` and `Payments down`. |
| `Scenarios.QueryIsNotSubstringMatched` | slack.go:105-110 | The query `API` does not select a service named `API Gateway`. The result is `""` with no error. |
| `Scenarios.ExactMatchAfterNearMatch` | slack.go:105-108 | With `API Gateway` listed before `API`, the query `API` selects the ID of `API`. |
| `Scenarios.ReportSucceeds` | slack.go:62-79 | With one exactly named service and a successful creation, the response is the success message. It is preceded by one listing call and one creation call for that service's ID. |
| `Scenarios.ReportNotFound` | slack.go:62-71 | When only `Checkout Service` is listed, the response is "No such service found in PagerDuty" and no creation call is made. |
| `Scenarios.ReportBadSignature` | slack.go:36-40 | A bad signature gives 401 with an empty body, no parse and no provider call. |
| `Scenarios.ReportUnquotedText` | slack.go:50-54 | Unquoted text gives status 200 and the usage message. The text parse ran, and no provider call was made. |

## Left out

- HMAC signature computation and comparison (`slack.NewSecretsVerifier`, `Write`, `Ensure`) belong to the Slack library. Their outcomes are inputs.
- Decoding of the slash-command form payload (`slack.SlashCommandParse`) belongs to the Slack library. Its result, including the text, is an input.
- The PagerDuty client's construction and its network calls (`ListServices`, `CreateIncidentWithContext`) are I/O. They are modelled as functions from the request to the provider's answer. The created incident's ID is only logged and is not modelled.
- Reading the request body and putting it back on the request (`io.ReadAll`, `io.NopCloser`) is I/O plumbing. Only whether the read failed is modelled.
- Reads of the environment variables `SLACK_SIGNING_SECRET`, `PAGERDUTY_API_TOKEN` and `PAGERDUTY_EMAIL` are left out. The sender address is a parameter. The secret and the token only reach the outside calls, whose outcomes are inputs.
- Logging (`fmt.Println`, `fmt.Printf`), the HTTP server setup and `ListenAndServe` are left out.
- Go's `regexp` reads the text as UTF-8, so invalid bytes match as U+FFFD. The model works on a sequence of characters and does not model that decoding.
- The listing is one page of results, as in the code. No pagination is modelled because the code performs none.
