# Waitlist relay, modelled in Dafny

The waitlist endpoint `POST /api/waitlist` receives `{ email }`, checks the
address, forwards `{ email, source: "mappli.co", ts }` as JSON to a configured
webhook (a spreadsheet-backed script), follows that webhook's redirects by hand,
and classifies its final answer into `200 {ok: true}`, `400 {error}`,
`500 {error}` or `502 {error, status, contentType, allow, location, detail}`.

The model has four modules:

- `Wrappers` (wrappers.dfy): `Option` and `Result`.
- `Email` (email.dfy): `isValidEmail` as the exact meaning of its regular
  expression `^[^\s@]+@[^\s@]+\.[^\s@]+$` (three runs of non-space, non-`@`
  characters around `@` and `.`), JavaScript's whitespace class, and
  `String.prototype.trim`.
- `Forwarder` (forwarder.dfy): `postJsonWithManualRedirects` as a method with
  the source's `for` loop over `hop`, `currentUrl` and `lastResponse`, proved
  equal to the recursive specification `Follow`. The network is an oracle
  `fetch: (nat, Call) -> Reply`: the reply to the i-th call of a run may depend
  on i and on the request, so a scripted sequence of replies and a server that
  answers by request are both instances. A reply is a response or a rejected
  promise. Every call is recorded, in order, in a ghost trace.
- `Handler` (handler.dfy): the `POST` handler as the function `Post`. It is
  built from `Admit` (configuration, JSON and address checks) and `Relay`.
  `Relay` runs `Follow`, the handler's only effect, and then `Classify`, which
  turns the upstream answer into the handler's answer.

Details of the code that the model keeps:

- `!location` is true for an empty `Location` header as well as for a missing one.
- `!webhookUrl` is true for an empty setting as well as for a missing one.
- A JSON body of `null` makes `body.email` throw inside the `try`, so it gets
  400 "Invalid JSON".
- A non-string `email` becomes `""` and gets 400 "Invalid email".
- The Location is used exactly as given; no relative URL is resolved.
- `/<html/i` is case-insensitive for ASCII letters only.

Facts about the code that a reader of it might not expect:

- The code makes up to 4 POSTs and then, after a 301/302/303, one GET: 5 calls
  in all (route.ts:15-48; `Forwarder.CallBounds`).
- The 405 hint at route.ts:108-111 is never set: line 84 has already returned
  for every non-2xx status (`Handler.HintNeverSet`).
- The payload is POSTed again after each 307/308, up to 4 times in one request
  (`Forwarder.PersistentRedirectsStopAtLimit`).
- The fallback 502 "Too many redirects" at route.ts:51 cannot be reached: the
  result is always the reply to the last call (`Forwarder.ReplyIsLastCall`).

## Model

| member | source | states |
|---|---|---|
| `Email.IsValidEmailIff` | src/app/api/waitlist/route.ts:1-4 | the pattern accepts `s` iff `s` has no whitespace, exactly one `@`, a non-empty part before it, and a `.` in the part after it that is neither that part's first nor its last character |
| `Email.AddressExamples` | src/app/api/waitlist/route.ts:1-4 | `a@b.c` is accepted; `a@b` (no dot), `a b@c.d` (whitespace) and `a@@b.c` (two `@`) are rejected |
| `Email.IsValidEmail` | src/app/api/waitlist/route.ts:1-4 | an address the pattern accepts has at least 5 characters, so the `!email` test at line 71 never decides anything the pattern does not |
| `Email.TrimStart` | src/app/api/waitlist/route.ts:66 | the result is a suffix of the input, everything dropped is whitespace, and it does not start with whitespace |
| `Email.TrimEnd` | src/app/api/waitlist/route.ts:66 | the result is a prefix of the input, everything dropped is whitespace, and it does not end with whitespace |
| `Email.Trim` | src/app/api/waitlist/route.ts:66 | `trim()` yields a slice of the input with only whitespace removed on either side, starting and ending with non-whitespace, and changes nothing in a string without whitespace |
| `Email.TrimKeepsValid` | src/app/api/waitlist/route.ts:66-71 | trimming leaves an accepted address unchanged |
| `Forwarder.Follow` | src/app/api/waitlist/route.ts:6-52 | the redirect rules, one hop at a time: a run makes at least one call, and its first call is a POST of the payload to the given URL |
| `Forwarder.PostJsonWithManualRedirects` | src/app/api/waitlist/route.ts:6-52 | the loop returns exactly the reply and makes exactly the calls, in order, that the redirect rules of `Follow` prescribe from hop 0 |
| `Forwarder.CallBounds` | src/app/api/waitlist/route.ts:11-48 | every call but the last is a POST; at most 4 POSTs and at most one GET, so at most 5 calls; every POST carries the payload and the GET has no body |
| `Forwarder.ReplyIsLastCall` | src/app/api/waitlist/route.ts:13-51 | the run's result is the reply to its last call, so the synthetic "Too many redirects" 502 is unreachable |
| `Forwarder.HopsFollowLocation` | src/app/api/waitlist/route.ts:28-48 | each call but the last was answered by a redirect status with a non-empty Location, and the next call goes to exactly that Location, as a POST iff the status was 307 or 308 |
| `Forwarder.NonRedirectIsFinal` | src/app/api/waitlist/route.ts:16-30 | a rejection or a status outside 301/302/303/307/308 ends the run after one call and is returned unchanged |
| `Forwarder.MissingLocationIsFinal` | src/app/api/waitlist/route.ts:32-35 | a redirect with a missing or empty Location is returned unchanged and nothing more is sent |
| `Forwarder.PreservingRedirectReposts` | src/app/api/waitlist/route.ts:16-41 | before the hop limit, 307 or 308 with a Location is followed by a POST of the identical payload to that exact Location string, and the run continues from there |
| `Forwarder.SeeOtherSwitchesToGet` | src/app/api/waitlist/route.ts:43-48 | 301, 302 or 303 with a Location is followed by exactly one GET to that Location, whose reply is returned directly with no further hop |
| `Forwarder.PersistentRedirectsStopAtLimit` | src/app/api/waitlist/route.ts:11-51 | if every POST is answered 307/308 with a Location, the run makes exactly 4 POSTs and returns the 4th POST's reply |
| `Handler.Detail` | src/app/api/waitlist/route.ts:82 | `detail` is the prefix of the body of length min(length of the body, 2000) |
| `Handler.Admit` | src/app/api/waitlist/route.ts:55-73 | an admitted request has the configured non-empty URL and an address the pattern accepts; a refusal is 500 exactly when the URL is missing or empty, and 400 otherwise |
| `Handler.Classify` | src/app/api/waitlist/route.ts:78-117 | 200 iff the status is 2xx and the response does not look like HTML (content-type contains `text/html`, or the body contains `<html` in any case); otherwise 502, with the error "Upstream error" iff the status is not 2xx and "Upstream returned HTML (likely Apps Script error page)" iff it is 2xx, with the status, the three headers ("" when absent), the bounded body prefix, and no hint |
| `Handler.AdmitExactly` | src/app/api/waitlist/route.ts:55-73 | a request is admitted iff the URL is set and non-empty and the body's `email` is a string whose trimmed form the pattern accepts; an admitted request is forwarded to that URL with the trimmed address |
| `Handler.MissingConfigFirst` | src/app/api/waitlist/route.ts:55-61 | a missing or empty webhook URL gives 500 for every body, before the body is examined, and nothing is sent |
| `Handler.RejectedBeforeForwarding` | src/app/api/waitlist/route.ts:63-73 | with the URL set, a body that fails the checks gives 400 with nothing sent: "Invalid JSON" for a parse failure or `null`, "Invalid email" for a missing, non-string, blank or rejected address |
| `Handler.ForwardsOnlyAdmissible` | src/app/api/waitlist/route.ts:71-76 | something is sent iff the URL is set and the trimmed address is accepted; then the handler relays that address: the first call POSTs the encoded `{email: trimmed address, source: "mappli.co", ts: now}` to the URL, every POST carries that payload, and at most 5 calls are made |
| `Handler.Relay` | src/app/api/waitlist/route.ts:75-117 | forwarding an admitted request always sends something, first a POST of the encoded submission to the configured URL, and never answers with one of the handler's own 400/500 refusals |
| `Handler.Post` | src/app/api/waitlist/route.ts:54-118 | nothing is sent exactly when the handler refuses the request itself, and such a refusal has status 400 or 500 |
| `Handler.AnswerFollowsLastReply` | src/app/api/waitlist/route.ts:76-117 | relaying an admitted request makes at least one call, and the answer is decided by the reply to the last call: a rejection escapes the handler, and a response is turned into the answer by `Classify` |
| `Handler.HintNeverSet` | src/app/api/waitlist/route.ts:84-114 | no answer of the handler ever carries the 405 hint |

## Left out

- src/app/page.tsx (the React form and the pointer-driven animation) is not part of this model: it is UI with floating-point animation and no correctness property beyond visual smoothness.
- Network I/O: `fetch` is an oracle. The request headers (`Content-Type: application/json`), `cache: "no-store"`, and the automatic redirect following of the final GET (`redirect: "follow"`) are inside it.
- `process.env.WAITLIST_WEBHOOK_URL` is a parameter (`webhookUrl`).
- `request.json()` is given as its result (`RequestBody`); JSON parsing is not modelled.
- `JSON.stringify` is a parameter (`encode`) applied to the `Submission`; JSON serialisation is not modelled.
- `Date.now()` is a parameter (`now`).
- `Response.json(...)` is the `Response` datatype, not a serialised HTTP response.
- `upstream.text()` is the `body` field of the upstream response, `""` when reading it fails.
- A rejected `fetch` makes the handler reject (`Unhandled`); what the hosting framework then sends is outside the code.
- async/await: the code is strictly sequential and is modelled as such.
- Strings are sequences of Unicode characters, while JavaScript strings count UTF-16 code units. `slice(0, 2000)` can therefore cut at a different place when the body holds characters outside the Basic Multilingual Plane. The regular expression is unaffected.
