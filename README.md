# Reservation collection of the camp-booking server

`server.js` is an Express server. It takes reservation submissions for a
winter camp and keeps them in one JSON file, `reservations.json`. An admin
page can list the reservations and delete one by id. This project models the
collection logic in the three route handlers. It covers what each handler
answers, and what the file holds afterwards, as a function of the file before
the request and of the request.

- `Server.Reservation` is one JSON object. Each named field is optional, with
  `None` for a missing key. `dates` is an optional sequence of strings. Every
  other key, a string-valued `childAge` among them, goes in the `extra`
  map. A request body has the same shape.
- `Server.Disk` is the file: `Missing`, `Corrupt`, or `Stored(records)`.
  `loadReservations` treats the first two alike and yields `[]`.
- `Server.ReservationStore` is a class whose one field `file` is that disk.
  `Create`, `Remove` and `List` model the three handlers, and `Load` and
  `Save` model the two file helpers.
- The clock (`Date.now()`, `new Date().toISOString()`) is passed to `Create`
  as `generatedId` and `generatedTimestamp`.
- What a write does is passed in as a `WriteEffect`. `Persisted` replaces the
  file. `WriteError(leftBehind)` makes the handler answer 500. The file left
  behind is whatever the file system produced, because the code promises
  nothing about it.
- The validation at `server.js:55-56` is the predicate
  `Server.PassesValidation`. A string field passes when it is present and
  not `""`, which is JavaScript truthiness. `dates` passes when it is present
  and non-empty.
- The filter at `server.js:117` is the function `Server.Without`. It keeps a
  record unless its `id` is exactly the parameter. A record with no `id` is
  always kept, as with `!==`.

Two behaviours follow the code rather than an idealised design:

- **Submitted fields override the generated ones.** The object
  `{ id, timestamp, ...req.body }` lets a submitted `id` or `timestamp`
  replace the generated value.
- **Ids can collide.** Nothing checks that ids are unique. Two submissions in
  the same millisecond, or a submitted `id`, can repeat one. A delete then
  removes every record with that id, so the collection can shrink by more
  than one.

Two more consequences follow from the code:

- `loadReservations` never throws, so the list handler's `catch`
  (`server.js:101-107`) cannot be reached. `List` always answers 200.
- Creating a reservation while the file is corrupt replaces that file with a
  one-record collection. `Create`'s contract says this through
  `Loaded(old(file))`, which is `[]` for a corrupt file.

## Model

| member | source | states |
|---|---|---|
| `Server.Merge` | server.js:48-52 | The stored record carries every submitted field verbatim. The generated id and timestamp are used only where the body has none. Apart from `id` and `timestamp` the record is the body, so nothing is added or dropped. A well-formed body gives a well-formed record. |
| `Server.PassesValidation` | server.js:55-56 | The required-field check. It fails exactly when first name, last name or email is absent or empty, or `dates` is absent or empty. A record that passes has all four fields present. A present but empty string or `dates` list fails, as in JavaScript truthiness. |
| `Server.MergedValidationIsBodyValidation` | server.js:48-56 | Validating the merged record gives the same answer as validating the body, whatever id and timestamp were generated. |
| `Server.Without` | server.js:117 | The filtered collection is no longer than the original. Every record in it comes from the original, and none of them has the deleted id. |
| `Server.WithoutCount` | server.js:116-119 | The filter drops exactly as many records as have the id. With colliding ids this can be more than one. |
| `Server.MatchesPositiveIff` | server.js:116-119 | The number of matching records is positive exactly when some record has the id. |
| `Server.WithoutKeepsOthers` | server.js:117 | Every record whose id differs from the parameter survives the filter, including a record with no id. |
| `Server.WithoutAppend` | server.js:117 | Filtering distributes over concatenation, so the survivors keep their original relative order. |
| `Server.WithoutNoMatch` | server.js:117-124 | When no record has the id, the filter returns the collection unchanged. |
| `Server.SameLengthIffNoMatch` | server.js:116-124 | The handler's test `reservations.length === initialLength` holds exactly when no record has the id. In that case the filtered collection is the original. |
| `Server.RemoveUndoesCreate` | server.js:64-70 | Filtering out the id of a record just appended gives the same result as filtering the earlier collection. If no earlier record had that id, the result is the earlier collection itself. |
| `Server.Loaded` | server.js:30-38 | The collection `loadReservations` yields for a given file. A stored array is returned whole. Any failure falls back to the empty collection, so a non-empty result can only come from a stored file. |
| `Server.ReservationStore.Load` | server.js:30-38 | Returns `Loaded` of the current file: the stored array, or the empty collection for a missing or unparseable file. |
| `Server.ReservationStore.Save` | server.js:41-43 | A persisted write replaces the file with exactly the given collection. A failed write leaves whatever the file system left. |
| `Server.ReservationStore.Create` | server.js:46-94 | Takes a body that is a well-formed JSON object, with no named key repeated in `extra`. Answers 400 exactly when the body fails validation, and then the file is untouched. A valid body with a persisted write answers 200 with `reservationId` equal to the stored record's id. The file then holds the loaded collection with the merged record appended, so earlier records keep their order. The stored record is well formed. A failed write answers 500. |
| `Server.ReservationStore.List` | server.js:97-108 | Always answers 200 with the loaded collection unchanged: the stored records, or `[]` for a missing or corrupt file. The file is not changed, so two lists in a row agree. |
| `Server.ReservationStore.Remove` | server.js:111-136 | Answers 404 exactly when no loaded record has the id, and then nothing is written. Otherwise, with a persisted write, it answers 200 and the file holds the filtered collection. That collection is shorter by the number of matches, at least one. No remaining record has the id. A failed write answers 500. |
| `Server.BookingSession` | server.js:46-136 | Starts with no file. A complete submission is stored and reported with the generated id. Two lists return the same single record. A submission with an empty first name gets 400. Deleting the reported id gets 200, deleting it again gets 404, and the final list is empty. |

## Left out

- Express setup: CORS, body parsing, static files and the HTML routes (`server.js:9-24`). Also `app.listen` (`server.js:277-282`). This is framework wiring.
- Reading and writing the file, and JSON parsing and serialisation. `Load` and `Save` act on `Disk` values instead, so the JSON round trip is taken as exact.
- `sendPushNotification` (`server.js:139-274`). It only writes to the console, and all of its delivery integrations are commented out. It cannot throw on the records modelled here, so a stored create always answers 200.
- Console logging in every handler.
- Lost updates between concurrent requests. Each request's load, change and save sequence is modelled on its own, one request at a time.
- JSON values other than strings, arrays of strings and absent keys. Examples are a non-array file, a `dates` given as a string, a `null` or numeric `id`, and the truthiness of numbers. These are outside the model, and so is the 500 that `push` on a non-array would cause.
- `Server.ReservationStore.Save`: a failed write is an input (`WriteError(leftBehind)`), not a model of how `fs.writeFile` fails part-way.
