# Valentine invitation: a Dafny model

The repository is a one-page Valentine invitation with a tiny backend. The
page asks "Will you be my Valentine?". Its No button dodges the pointer and
shrinks while the Yes button grows. Clicking Yes posts a response to the
backend. An admin dashboard lists the stored responses and counts them.

This project models the logic in three source files:

- `src/supabase/functions/server/index.tsx`, the backend. `POST /response`
  validates the body and defaults the message to `''`. It mints a key
  `valentine_response_<Date.now()>_<random suffix>` and writes one record.
  `GET /responses` scans that prefix and sorts the entries in place, newest
  timestamp first. The key-value store behind it is the class
  `Kv.KvStore`, an in-memory map. It has only the behaviour the handlers use:
  `set` is an upsert, and `getByPrefix` returns every entry under a prefix
  exactly once, in no promised order.
- `src/components/Invitation.tsx`, the invitation page. Its state fields
  (`submitted`, `isSubmitting`, `attempts`, the two button sizes) are the
  fields of the class `Invitation.InvitationPage`. The No-button handlers and
  the two halves of `handleYes` (before and after its `await`) are methods of
  that class. The caption and the No button's positioning are pure functions
  of `attempts`.
- `src/components/Admin.tsx`, the dashboard. The per-answer counts, the
  colour class and emoji of an answer, and the choice between the loading,
  empty and list views are pure functions.

Several things are inputs rather than computed:

- the clock `Date.now()`, as a `nat`;
- the random suffix `Math.random().toString(36).substring(7)`, as a string;
- the date parser `new Date(t).getTime()`, as a function `JsValue -> int`;
- store outages, as `fault: Option<string>` holding the error's text;
- the network outcome of the Yes request, as `Ok | NotOk | Failed`.

The request body is a JavaScript value (`Js.JsValue`): JSON that failed to
parse, or the parsed value. Validation uses JavaScript truthiness. So `""`,
`0`, `false`, `null` and a missing field all fail it. Any truthy answer is
stored as given: the server does not check yes/no/maybe.

Files: `js.dfy` (JavaScript values), `kv_store.dfy` (the store), `keys.dfy`
(key minting), `server.dfy` (the handlers), `invitation.dfy`, `admin.dfy`,
and `end_to_end.dfy` (how the page, the server and the dashboard meet).

The server checks only that `answer` and `timestamp` are truthy
(index.tsx:18). It does not check the answer against yes/no/maybe, and it
does not check that the timestamp parses. No bearer token is checked. The
list handler does not rely on the order of the store's scan, and
`Kv.KvStore.GetByPrefix` promises no order.

## Model

| member | source | states |
|---|---|---|
| `Js.Truthy` | src/supabase/functions/server/index.tsx:18 | a value is truthy exactly when it is not `undefined`, `null`, `false`, `0` or `""`; every array and object is truthy |
| `Js.Property` | src/supabase/functions/server/index.tsx:16 | destructuring reads an object's own field and gives `undefined` for a missing field or a non-object |
| `Js.Or` | src/supabase/functions/server/index.tsx:28 | `message \|\| ''` is the message when truthy and the fallback otherwise |
| `Kv.KvStore.Set` | src/supabase/functions/server/index.tsx:26-30 | `kv.set` upserts exactly one key when the store is up; on an outage it reports the failure and changes nothing |
| `Kv.KvStore.GetByPrefix` | src/supabase/functions/server/index.tsx:43 | `kv.getByPrefix` lists every stored entry whose key starts with the prefix, each exactly once, and nothing else; an outage gives no listing |
| `Kv.ListingLength` | src/supabase/functions/server/index.tsx:43 | a listing of a scan has exactly as many entries as there are keys under the prefix |
| `Kv.SingletonListing` | src/supabase/functions/server/index.tsx:43 | the only listing of a one-entry store is that entry |
| `Kv.ScanAfterFreshWrite` | src/supabase/functions/server/index.tsx:23-30 | writing a fresh key under the prefix adds exactly that entry to the scan, which grows by one |
| `Keys.Decimal` | src/supabase/functions/server/index.tsx:23 | the clock reading in the key is a non-empty string of decimal digits with no leading zero, except `0` itself |
| `Keys.DecimalRoundTrip` | src/supabase/functions/server/index.tsx:23 | the decimal digits in the key read back to the clock reading |
| `Keys.MintKey` | src/supabase/functions/server/index.tsx:23 | every minted key starts with `valentine_response_` |
| `Keys.SplitAtSeparator` | src/supabase/functions/server/index.tsx:23 | the first `_` after the digits separates the clock reading from the suffix unambiguously |
| `Keys.MintKeyInjective` | src/supabase/functions/server/index.tsx:22-23 | equal keys come only from the same clock reading and the same suffix |
| `Server.ReadSubmission` | src/supabase/functions/server/index.tsx:15-30 | a body is rejected exactly when it destructures and `answer` or `timestamp` is falsy; an accepted body yields the fields as sent, with the message defaulted to `''`; a malformed or null body throws |
| `Server.SubmitEffect` | src/supabase/functions/server/index.tsx:13-37 | the reply is a success exactly when the body is accepted and the store is up; every reply other than success leaves the store unchanged (see also `MissingFieldRejected`, `WriteFailureIs500`, `SubmitWritesOneKey`) |
| `Server.Submit` | src/supabase/functions/server/index.tsx:13-37 | the handler's new store and reply are those of `SubmitEffect`: validate first, then one `set` of the minted key |
| `Server.MissingFieldRejected` | src/supabase/functions/server/index.tsx:16-20 | every non-null JSON body whose `answer` or `timestamp` is missing or falsy (the empty string included, and every array, string, number or `true` body) gets 400 `Missing required fields` and an unchanged store |
| `Server.ThrowingBodyIs500` | src/supabase/functions/server/index.tsx:15-35 | a body that is not JSON, or is `null`, makes the handler throw; the reply is 500 `Failed to submit response` carrying the thrown error's text (the parse error's text for a non-JSON body), and nothing is written |
| `Server.AnyTruthyAnswerStored` | src/supabase/functions/server/index.tsx:16-30 | any truthy answer with a truthy timestamp is stored as given under the minted key, with the message or `''`, and the reply is that key |
| `Server.SubmitWritesOneKey` | src/supabase/functions/server/index.tsx:23-32 | a successful submit returns the key it wrote; the key has the prefix and maps to the validated record; no other key changes; a fresh key grows the store by one |
| `Server.WriteFailureIs500` | src/supabase/functions/server/index.tsx:26-35 | a store failure on write gives 500 `Failed to submit response` with the failure's details, and no write |
| `Server.SortNewestFirst` | src/supabase/functions/server/index.tsx:46-50 | the in-place sort leaves the entries ordered by parsed timestamp, non-increasing; it only permutes them; it is stable: entries with equal timestamps keep their order |
| `Server.List` | src/supabase/functions/server/index.tsx:40-57 | the listing holds exactly the entries under `valentine_response_`, each once, newest first; a store failure gives 500 `Failed to fetch responses` with its details |
| `Server.ListedKeysArePrefixed` | src/supabase/functions/server/index.tsx:43 | every listed entry has the prefix and is the stored value under its key |
| `Server.NewerListedFirst` | src/supabase/functions/server/index.tsx:46-50 | of two listed responses, the one with the later timestamp comes first |
| `Server.SubmittedIsListed` | src/supabase/functions/server/index.tsx:23-43 | after a successful submit under a fresh key, every later listing holds that record exactly once and is one entry longer |
| `Invitation.GrowYes` | src/components/Invitation.tsx:55 | the Yes size grows by 20 and is capped at 200 |
| `Invitation.ShrinkNo` | src/components/Invitation.tsx:56 | the No size shrinks by 10 and has a floor of 40 |
| `Invitation.YesSizeAfter` | src/components/Invitation.tsx:55 | after any number of dodges the Yes size is between 100 and 200 |
| `Invitation.NoSizeAfter` | src/components/Invitation.tsx:56 | after any number of dodges the No size is between 40 and 100 |
| `Invitation.StepAgrees` | src/components/Invitation.tsx:55-56 | one dodge step moves the sizes from their value after n dodges to their value after n+1 |
| `Invitation.SizesMonotone` | src/components/Invitation.tsx:55-56 | across dodges the Yes size never decreases and the No size never increases |
| `Invitation.Caption` | src/components/Invitation.tsx:217-226 | there is no caption exactly when there has been no dodge (the distinct texts are in `CaptionShape`) |
| `Invitation.CaptionShape` | src/components/Invitation.tsx:217-226 | no caption at 0 attempts; attempts 1 to 5 each have their own caption; every count from 6 on shows the same caption |
| `Invitation.NoButtonPositioning` | src/components/Invitation.tsx:203-205 | the No button is fixed-positioned exactly when `attempts > 0` |
| `Invitation.InvitationPage.constructor` | src/components/Invitation.tsx:6-11 | the page starts unsubmitted, idle, with no attempts and both sizes at 100 |
| `Invitation.InvitationPage.NoHover` | src/components/Invitation.tsx:51-65 | `attempts` goes up by exactly 1; Yes becomes `min(prev+20, 200)` and No `max(prev-10, 40)`; the sizes stay tied to the attempt count; nothing else changes |
| `Invitation.InvitationPage.NoClick` | src/components/Invitation.tsx:68-71 | a click has the same state effect as a hover |
| `Invitation.InvitationPage.StartYes` | src/components/Invitation.tsx:14-17 | while a request is in flight, a Yes click sends nothing and changes nothing; otherwise it marks a request in flight and sends it |
| `Invitation.InvitationPage.FinishYes` | src/components/Invitation.tsx:36-48 | after the request, `isSubmitting` is false whatever the outcome; `submitted` becomes true only on an OK response |
| `Invitation.YesTwiceThenFinish` | src/components/Invitation.tsx:14-48 | the first Yes click sends the request; a second click during the request is reported as not sent, and the page ends accepted exactly when the reply was OK |
| `Admin.ComputeStats` | src/components/Admin.tsx:88-92 | each counter is the number of occurrences of `'yes'`, `'no'` or `'maybe'` among the answers, compared exactly (see also `CountsPartition`, `StatsTotal`) |
| `Admin.Matching` | src/components/Admin.tsx:89-91 | the filter keeps only responses whose answer is exactly the given string, and never more than there are |
| `Admin.MatchingCounts` | src/components/Admin.tsx:88-92 | each counter equals the number of responses whose answer is exactly `'yes'`, `'no'` or `'maybe'` |
| `Admin.CountsPartition` | src/components/Admin.tsx:88-92 | every response is counted once: in one of the three counters or as an unknown answer |
| `Admin.StatsTotal` | src/components/Admin.tsx:88-92 | yes + no + maybe is at most the total, and equals it exactly when every answer is one of the three |
| `Admin.AnswerColor` | src/components/Admin.tsx:50-61 | an answer other than yes/no/maybe gets the gray class, and a known answer never does |
| `Admin.AnswerEmoji` | src/components/Admin.tsx:63-74 | an answer other than yes/no/maybe gets `💌`, and a known answer never does |
| `Admin.KnownStylesDistinct` | src/components/Admin.tsx:50-74 | two different known answers get different classes and different emoji |
| `Admin.AnswerStylesDistinguish` | src/components/Admin.tsx:50-74 | a known answer's class and emoji differ from those of every other answer, known or not |
| `Admin.View` | src/components/Admin.tsx:142-153 | the loading view shows exactly while loading; the empty view exactly when loading is over and there are no responses |
| `Invitation.YesRequestBody` | src/components/Invitation.tsx:28-32 | the body the Yes button posts is an object with exactly the fields `answer: 'yes'`, `message: ''` and `timestamp` set to the ISO time (its acceptance is `EndToEnd.YesRequestAccepted`) |
| `EndToEnd.YesRequestAccepted` | src/components/Invitation.tsx:28-32 | the body the Yes button posts always passes validation and is stored as answer `yes` with an empty message |
| `EndToEnd.YesAddsToYesCount` | src/components/Admin.tsx:89 | one more response from the Yes button adds one to the yes counter and nothing to the others |
| `EndToEnd.SubmitThenList` | src/supabase/functions/server/index.tsx:13-57 | on an empty store, a body without a timestamp gets 400 and the list stays empty; a Yes body is stored, and the list then holds exactly that record |
| `EndToEnd.SameMillisecondNoCollision` | src/supabase/functions/server/index.tsx:23 | two submissions in the same millisecond with different suffixes get different keys |

## Left out

- The store's persistence, its remote service and its other operations (get, delete, multi-key calls). The handlers do not use them. `kv_store.tsx` is not part of this model.
- Kv.KvStore.Set: a failure after the remote write was applied is not modelled; on a failure the model leaves the store unchanged.
- Hono routing, `cors()`, the logger, `Deno.serve`, the HTTP transport and the JSON reply encoding. A reply is a datatype with its status code.
- The exact text of thrown errors. A malformed body's parse error and a store error are inputs. The TypeError for a `null` body is written as V8 phrases it, which the model does not check against a runtime.
- `Date.now()`, `Math.random()` and date parsing are inputs. Key uniqueness holds only for distinct suffixes, and a random suffix is fresh only with high probability. So the lemmas that need a fresh key take it as a precondition.
- Server.SortNewestFirst: timestamps that do not parse (NaN from `getTime()`) are not modelled. The parser is a total function to integers. With NaN, JavaScript's comparator is inconsistent and the order is up to the engine.
- JSON numbers are modelled as exact reals. Floating point is not modelled.
- Concurrency between simultaneous requests is not modelled. Each handler call is one sequential step on the store.
- Invitation.InvitationPage.StartYes: React closures see the state of the render that created them. Two clicks before a re-render could both pass the `isSubmitting` guard. The model assumes each event sees the latest state. It also does not model the `disabled` attribute of the buttons.
- The No button's random position (`window.innerWidth`, `Math.random()`), the floating hearts, all JSX, CSS and animation, `alert` and `console.error`.
- The dashboard's fetch, its `setResponses`/`setLoading` updates and `formatDate` (locale formatting).
- Keys.Decimal: clock readings of 10^21 or more, which JavaScript writes in exponent notation, are written in plain decimal. `Date.now()` is far below that bound.
- `src/routes.ts`, a static route table.
