# Comments API: a Dafny model

A model of the comments HTTP API in `comments-api.ts`. The API keeps one collection of comments in the file `mock-comments.json`. It has two handlers on `/api/comments`:

- `GET` answers with the stored collection as it is.
- `POST` validates the request body with `validateComment`. A body that fails is answered 400 with the message of the first failing field, and nothing is stored. A body that passes is pushed onto the end of the collection, the whole collection is written back, and the answer is 201 `Comment id:<id> has been added!`.

The validator tests the fields in a fixed order: `name`, `body`, `email`, `id`, `postId`. A field fails when it is falsy in the JavaScript sense: an empty or absent string, or a `postId` of 0. The first failing field decides the message.

Files:

- `wrappers.dfy`: `Option`, the validator's `string | null`.
- `comment.dfy`: the `IComment` record of `types.ts`. A field the client left out is represented by its falsy value (`""`, or `0` for `postId`).
- `validation.dfy`: `ValidateComment`, written like the source's `switch (true)`. Beside it are independent partner definitions: `Missing` (one field's test), `Message`, `Precedence` (the order) and `FirstFailure` (a rule list evaluated in order). Lemmas connect the validator to them.
- `handlers.dfy`: the handlers as a state machine over the stored collection. `Handle` is one request and `Run` a sequence of requests, each taken as one atomic step. Lemmas cover the response to each kind of request, append-only growth, insertion order and the missing duplicate check.
- `server.dfy`: the application as a class `CommentsApi`. Its field `file` stands for `mock-comments.json`. `LoadComments` and `SaveComments` read and overwrite it. `ListComments` and `CreateComment` are the handlers and follow the source step by step (validate, load, push, save, answer). Each handler is proved to take exactly the step `Handle` describes, so the lemmas about `Run` hold for any sequence of calls.

The code checks an `id` that the client supplies. It mints no id, performs no duplicate check, and has no fetch-by-id, update or delete handler. The model follows the code in each of these points.

## Model

| member | source | states |
|---|---|---|
| `Validation.ValidateComment` | comments-api.ts:19-41 | The result is `None` (null) exactly when every field passes its truthiness test. A `Some` result is the message of a field that fails, and that message is non-empty, so the handler's `if (validationResult)` takes the error branch exactly on `Some`. |
| `Validation.ValidateIsRuleList` | comments-api.ts:27-40 | The validator equals the ordered rule list name, body, email, id, postId, evaluated until the first failing rule. |
| `Validation.MessageNamesField` | comments-api.ts:28-37 | The five messages are pairwise distinct, so a message identifies its field. |
| `Validation.FirstFailureWins` | comments-api.ts:27-40 | The validator reports field f exactly when f fails and every field tested before f passes, whatever the later fields hold (both directions). |
| `Validation.NameCheckedFirst` | comments-api.ts:28-29 | An empty name gives "Name is required" whatever the other fields hold. |
| `Validation.ZeroPostIdIsMissing` | comments-api.ts:36-37 | With the other four fields present, a postId of 0 gives "PostId is required". |
| `Handlers.ConfirmationNamesId` | comments-api.ts:61-69 | The 201 confirmation reads back as exactly the client-supplied id. |
| `Handlers.Handle` | comments-api.ts:45-70 | One request never removes or reorders stored comments. It answers 201 exactly for a POST whose body passes validation. Then the body is appended; otherwise the collection is unchanged. |
| `Handlers.CreateRejected` | comments-api.ts:52-58 | A POST whose first failing field is f is answered 400 with f's message, and the collection is left as it was. |
| `Handlers.CreateAccepted` | comments-api.ts:61-69 | A POST of a valid body is answered 201 with a confirmation naming its id. The collection grows by exactly one, every earlier element keeps its position and value, and the body is the new last element. |
| `Handlers.NoDuplicateCheck` | comments-api.ts:64-66 | A valid body already stored is accepted again and stored once more. |
| `Handlers.Run` | comments-api.ts:45-70 | Any sequence of requests gets one response per request and leaves the old collection as a prefix of the new one. |
| `Handlers.RunAppendsAccepted` | comments-api.ts:64-66 | After any sequence of requests, the collection is the old one followed by the valid posted bodies, in the order they were posted. |
| `Handlers.GrowthIsCreatedCount` | comments-api.ts:64-68 | The collection grows by exactly one element per 201 response. |
| `Handlers.ListSeesEarlierPosts` | comments-api.ts:45-48 | A GET is answered 200 with the initial collection followed by every body accepted before it, in insertion order. |
| `Handlers.RunConcat` | comments-api.ts:45-70 | Running two batches of requests one after the other is the same as running their concatenation. |
| `Handlers.DuplicatePostsBothStored` | comments-api.ts:64-69 | Posting the same valid body twice gives two equal 201 answers and two equal entries at the end of the collection. |
| `Server.CommentsApi.LoadComments` | comments-api.ts:10-13 | Returns the whole stored collection. |
| `Server.CommentsApi.SaveComments` | comments-api.ts:15-17 | Replaces the whole stored collection with the given one. |
| `Server.CommentsApi.ListComments` | comments-api.ts:45-49 | Answers 200 with the stored collection as it is, changes nothing, and takes the step `Handle` gives for a GET. |
| `Server.CommentsApi.CreateComment` | comments-api.ts:51-70 | An invalid body gives 400 with the validator's message and an unchanged collection. A valid body gives 201 naming its id and the old collection with the body appended. Either way it takes the step `Handle` gives for that POST. |
| `Server.PostTwiceThenList` | comments-api.ts:45-70 | A client posting the same valid body twice and then listing gets the old collection followed by both copies. |

## Left out

- File I/O and JSON (`readFile`, `writeFile`, `JSON.parse`, `JSON.stringify`) are replaced by an in-memory collection. Reading it back gives exactly what was last written. A missing or malformed file, and JSON's dropping of undefined fields, are not modelled.
- Express setup, the JSON body middleware, the `Content-Type` header and `app.listen` are framework glue. A response is only a status code and a payload. The GET status 200 is Express's default.
- The `console.log` calls and the commented-out code in `comments-api.ts` are side effects or dead code.
- Concurrency: two requests can interleave their load and save and lose an update. Each request is modelled as one atomic step.
- JavaScript values of unexpected types are not modelled: a non-string `name`, a non-integer or `NaN` `postId`. Fields are strings and an integer, and an absent field is represented by `""` or `0`. Extra fields in a request body are not modelled either.
- `express-example.ts` is a hard-coded route plus `listen`, with no logic. It is not part of this model.
