# Car catalog services — a Dafny model

This project models the behavioural core of a small car-catalog web service
(an Express API over a document store with a React frontend): the filth
score of a car, the generated description sentence, the parts-search
affiliate links, the mocked chat-integration service (posting curation
candidates and reading curator feedback), the bearer-token request gate
with its role check, and the batch ingestion of car records that skips
cars already in the store.

Everything JavaScript leaves to the runtime is made explicit:

- randomness (`Math.random()` picking an adjective) is an index in
  `[0, 7)`; ingestion takes a function `draws` giving the pick of the k-th
  car the run creates;
- the clock (`new Date().toISOString()`) is a `now` string parameter;
- the environment variable for the chat channel is an optional string;
- token verification is a parameter `verify: string -> Option<Claims>`,
  None standing for a token it rejects;
- the file read and `JSON.parse` of ingestion are an input that is either
  the parsed records or the message of the error they threw;
- console output is returned as a sequence of lines;
- the car collection is a class `CarStore` holding a sequence of cars,
  with `FindOne` and `Save` methods;
- JavaScript truthiness (`||`, `!x`) is spelled out: a missing field, `""`
  and `0` are falsy.

Modules, one per source file: `FilthFactor`, `ContentGenerator`,
`AffiliateService`, `Slack`, `AuthMiddleware`, `DataIngestion`; shared
helpers `Wrappers` (Option, Result, Outcome), `Text` (decimal rendering of
integers and `split` with a one-character separator) and `Models` (the Car
record of src/models/car.js).

The ingestion loop (`DataIngestion.IngestMockData`) is an imperative
method over the store whose postcondition ties its result and the new
store to a reference function (`IngestionOf`, a fold of `Step` over the
records). What a run does is then stated without the loop by
`IngestedCharacterized`: it adds, in order, exactly the records whose
(make, model, year) neither the store nor an earlier record of the batch
holds (`Fresh`), counts those as processed and all others as skipped,
and fails exactly when one of them has an empty make or model. Idempotence,
the absence of duplicate triples, and the four-record example all follow
from it.

Points where the code behaves differently from what one might expect:

- The Car schema (src/models/car.js:3-20) declares no `description` path.
  The code still assigns a description to every new car
  (src/services/dataIngestion.js:50-54), and the model keeps that
  description on the car it stores (see "## Left out" for what a strict
  schema does with it).
- Only a null or undefined car makes the description template throw
  (src/services/contentGenerator.js:29-33). The model's car is typed, so
  only the absent car takes the fallback sentence.
- The Feedback schema's `""` default for `feedbackNotes`
  (src/models/feedback.js:9-12) is never used: the notes always arrive
  from `handleSlackFeedback`, which defaults them to
  `'No additional notes provided'`.

## Model

| member | source | states |
|---|---|---|
| `FilthFactor.CalculateFilthFactor` | src/services/filthFactor.js:6-12 | a year before 2000 scores 35 (30 + 5), any later year 15 (10 + 5) |
| `FilthFactor.ScoreRange` | src/services/filthFactor.js:8-11 | the score is one of 15 and 35, never 0 |
| `FilthFactor.OlderScoresAtLeastAsHigh` | src/services/filthFactor.js:8-11 | an older car never scores lower than a newer one |
| `FilthFactor.OnlyYearMatters` | src/services/filthFactor.js:6-8 | two records with the same year score alike, whatever their make and model |
| `FilthFactor.Boundary` | tests/filthFactor.test.js:16-24 | 1999 scores 35 and 2000 scores 15 |
| `Text.NatToString` | src/services/slack.js:25 | a count renders as a non-empty run of decimal digits without a leading zero |
| `Text.IntToString` | src/services/contentGenerator.js:29 | an integer renders in decimal, with a leading `-` exactly when negative |
| `Text.IntRoundTrip` | src/services/contentGenerator.js:29 | the rendering reads back to the integer |
| `Text.IntToStringInjective` | src/services/contentGenerator.js:29 | different integers never render alike |
| `Text.Split` | src/middleware/auth.js:16 | `split(' ')` yields at least one piece and no piece holds the separator |
| `Text.SplitJoin` | src/middleware/auth.js:16 | joining the pieces with the separator gives back the header |
| `ContentGenerator.ScoreText` | src/services/contentGenerator.js:30 | a truthy score prints in decimal; null or 0 prints `unknown` |
| `ContentGenerator.GenerateDescription` | src/services/contentGenerator.js:11-34 | the fallback sentence comes back exactly for an absent car; otherwise the template sentence with the picked adjective, longer than 20 characters |
| `ContentGenerator.DescriptionNamesCar` | src/services/contentGenerator.js:29-30 | the sentence holds the car's year, make and model |
| `ContentGenerator.AdjectiveFromFixedList` | src/services/contentGenerator.js:15-26 | the adjective is one of the seven fixed words and stands in the sentence |
| `ContentGenerator.ScoreShown` | src/services/contentGenerator.js:30 | a truthy score appears in decimal; a null or zero score appears as `unknown` |
| `ContentGenerator.AdjectivesDistinct` | src/services/contentGenerator.js:15-23 | the seven adjectives are pairwise different |
| `ContentGenerator.PickDetermined` | src/services/contentGenerator.js:15-30 | different picks give different sentences for the same car |
| `AffiliateService.GenerateAffiliateLink` | frontend/src/services/affiliateService.js:11-28 | both links are `#` exactly when the car, its make, model or year is missing or falsy; otherwise the eBay and Amazon URLs around the query `{year}+{make}+{model}+parts` |
| `AffiliateService.QueryInLink` | frontend/src/services/affiliateService.js:25-26 | a query read out of a link sits between the link's fixed prefix and suffix |
| `AffiliateService.QueryInLinkRoundTrip` | frontend/src/services/affiliateService.js:25-26 | the query put into a link is the one read back out |
| `AffiliateService.LinksAgree` | frontend/src/services/affiliateService.js:12-27 | the links are never mixed: both placeholders, or both real URLs carrying the same query |
| `AffiliateService.LinksHoldQuery` | frontend/src/services/affiliateService.js:20-26 | both links hold the query and their shop's domain; the Amazon link holds `tag=carfilthscore-20` |
| `AffiliateService.CompleteCarExample` | tests/affiliateService.test.js:4-15 | a 1998 Toyota Corolla searches for `1998+Toyota+Corolla+parts` |
| `AffiliateService.PartialCarExamples` | tests/affiliateService.test.js:25-44 | a null car and a car with only a make get two placeholders |
| `Slack.Channel` | src/services/slack.js:8 | an unset or empty channel variable falls back to `car-curation`, a set one is used as is |
| `Slack.PostCandidatesToSlack` | src/services/slack.js:15-28 | success, the message `Posted {n} cars to Slack for curation`, the given timestamp, and 1 + n console lines: the header, then one line per car in input order |
| `Slack.MessageGivesCount` | src/services/slack.js:25 | lists of different lengths never give the same message |
| `Slack.TwoCarExample` | tests/slack.test.js:15-27 | two cars give success, three console lines and `Posted 2 cars to Slack for curation` |
| `Slack.HandleSlackFeedback` | src/services/slack.js:35-50 | the car ids are kept when present and are empty otherwise; the notes are kept when non-empty and default otherwise, so they are never empty; processedAt is the clock value |
| `Slack.ReprocessingKeepsFeedback` | src/services/slack.js:40-41 | feeding processed feedback back in as a payload gives the same feedback |
| `Slack.PayloadExamples` | tests/slack.test.js:31-50 | a full payload is kept; an empty payload gets `[]` and `No additional notes provided` |
| `AuthMiddleware.ExtractToken` | src/middleware/auth.js:16 | the token is the text after `Bearer ` up to the next space or the end, and holds no space |
| `AuthMiddleware.TokenIsSecondField` | src/middleware/auth.js:16 | the token is the second space-separated field of the header, the first being `Bearer` |
| `AuthMiddleware.Authenticate` | src/middleware/auth.js:7-28 | a missing or non-`Bearer ` header gives 401 `Authorization token required`; a rejected token 401 `Invalid token`; a verified one passes on with the user set to its claims |
| `AuthMiddleware.AuthenticateOutcomes` | src/middleware/auth.js:11-27 | every rejection is a 401 that leaves the request as it was; the request passes on exactly when the token verifies |
| `AuthMiddleware.Authorize` | src/middleware/auth.js:34-46 | never changes the request; no user gives 401 `Unauthorized`; a role outside a non-empty list 403 `Forbidden`; otherwise it passes on |
| `AuthMiddleware.FeedbackGate` | src/routes/slack.js:8 | in front of the feedback route a request passes exactly when its token verifies to an `admin` or `curator`, and then carries those claims; each failure gets its own 401 or 403; `Unauthorized` never happens |
| `AuthMiddleware.EmptyRoleListAdmitsAnyUser` | src/middleware/auth.js:34-44 | with an empty role list every authenticated request passes |
| `DataIngestion.NewCar` | src/services/dataIngestion.js:39-54 | the new car has the record's make, model and year, its filth score, and the description generated from it |
| `DataIngestion.PrepareCar` | src/services/dataIngestion.js:39-54 | the car built for a record is NewCar: the record's triple, its filth score, and the description generated from the car that carries that score |
| `DataIngestion.NewCarDescriptionShowsScore` | src/services/dataIngestion.js:39-54 | an ingested car's description shows its numeric score, never `unknown` |
| `DataIngestion.Step` | src/services/dataIngestion.js:24-58 | a record is skipped exactly when the store holds its triple; otherwise its car is appended and counted, or the failed save ends the run |
| `DataIngestion.Ingested` | src/services/dataIngestion.js:18-58 | the store grows by exactly the processed count; on success processed + skipped is the number of records, on a failed save fewer |
| `DataIngestion.IngestedGrows` | src/services/dataIngestion.js:24-58 | a run only appends: the store it starts from stays a prefix of the store it leaves |
| `DataIngestion.IngestionOf` | src/services/dataIngestion.js:11-64 | an unreadable source fails with `Error ingesting mock data: ` and the cause and changes nothing; every failure carries that prefix; success counts every record once |
| `DataIngestion.CarStore.FindOne` | src/services/dataIngestion.js:26-30 | a car is found exactly when the store holds one with that make, model and year |
| `DataIngestion.CarStore.Save` | src/services/dataIngestion.js:56 | a car with non-empty make and model is appended; any other fails validation and leaves the store as it was |
| `DataIngestion.IngestMockData` | src/services/dataIngestion.js:11-64 | the loop's result and the store it leaves are those of IngestionOf |
| `DataIngestion.FaultPersists` | src/services/dataIngestion.js:56-62 | after a failed save the remaining records change nothing |
| `DataIngestion.HaltedIngestion` | src/services/dataIngestion.js:56-62 | a run halted by a failed save ends the operation with that failure behind the error prefix, leaving the cars saved before it |
| `DataIngestion.Fresh` | src/services/dataIngestion.js:26-36 | at most one added record per input record |
| `DataIngestion.IngestedCharacterized` | src/services/dataIngestion.js:24-58 | a run fails exactly when an added record has an empty make or model; otherwise it appends the cars of the added records in order, with processed = their number and skipped = the rest, and afterwards a triple is stored exactly when it was before or is in the input |
| `DataIngestion.FreshAreNewAndDistinct` | src/services/dataIngestion.js:26-36 | the added records come from the input, none was stored before, and no two are alike |
| `DataIngestion.NothingFreshWhenAllListed` | src/services/dataIngestion.js:26-36 | when every input triple is already stored, nothing is added |
| `DataIngestion.SkippedIffListedWhenChecked` | src/services/dataIngestion.js:26-36 | a record is skipped exactly when its triple is stored at the moment it is checked, from before the run or from an earlier record of the batch |
| `DataIngestion.SuccessLayout` | src/services/dataIngestion.js:42-57 | a successful run leaves the old store followed by the added cars, and holds every input triple |
| `DataIngestion.SuccessfulRun` | src/services/dataIngestion.js:39-57 | existing cars are unchanged; each new car has an input record's triple, its filth score, and its description |
| `DataIngestion.RerunSkipsAll` | src/services/dataIngestion.js:26-36 | a second run on the same input processes none and skips all, and leaves the store as it is |
| `DataIngestion.NoDuplicatesKept` | src/services/dataIngestion.js:26-57 | a store without duplicate triples stays without them, in-batch repeats included |
| `DataIngestion.SampleBatchAdds` | tests/dataIngestion.test.js:15-20 | into an empty store the four-record batch adds its first three records, the repeat of the first being skipped |
| `DataIngestion.SampleFirstRun` | tests/dataIngestion.test.js:57-62 | the four-record batch into an empty store gives 3 processed and 1 skipped |
| `DataIngestion.FourRecordBatch` | tests/dataIngestion.test.js:15-62 | the four-record batch gives 3 processed and 1 skipped, and run again 0 processed and 4 skipped |

## Left out

- src/services/authService.js (token signing and expiry, password checks) is not part of this model; verification is the `verify` parameter.
- Express routing (src/routes/*.js, src/app.js) and the frontend pages are not modelled; only the role list of the feedback route (src/routes/slack.js:8) is used, by `AuthMiddleware.FeedbackGate`.
- The race between the duplicate check and the save under concurrent requests: the loop is modelled sequentially.
- JavaScript's dynamic typing: records, payloads and claims are typed records. A record with a missing or non-string field, a parse result that is not an array, a non-object payload, a non-array `carIds` and a non-string `notes` are not modelled.
- Numbers print as plain decimal integers; JavaScript's exponent form for magnitudes of 1e21 and more, `NaN` and fractional years are not modelled.
- The text of the schema validation error (`Models.ValidationMessage`) follows the document store library's message format; the repository does not spell it out.
- `CarStore.FindOne` returns some matching car, not necessarily the first in storage order; the code only tests whether one exists.
- The inner `try`/`catch` around description generation (src/services/dataIngestion.js:50-54) cannot fire, because generation catches its own faults and the car is never null; the model calls the generator directly.
- The diagnostic `console.error` of the description generator and the unused `SLACK_TOKEN` constant are left out.
- Slack.HandleSlackFeedback: states the number of console lines it writes (two), not their text.
- DataIngestion.CarStore.FindOne, DataIngestion.CarStore.Save, DataIngestion.IngestedCharacterized: store faults other than schema validation (a database error rejecting the lookup or the save) are not modelled; in the source such a rejection also ends the run through the outer error path with the error prefix, while the in-memory store here fails only on validation, so "a run fails exactly when an added record has an empty make or model" holds for this store only.
- DataIngestion.NewCar, DataIngestion.SuccessfulRun: the stored cars carry the generated description, but the Car schema (src/models/car.js:3-20) declares no `description` path, so under the document store's default strict schema the description the code assigns is never saved; the model records what the code computes, not what the database keeps.
