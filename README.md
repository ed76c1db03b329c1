# Staged file upload with previews — a Dafny model

The repository lets a user stage up to ten files in the browser. Each file is
checked against a MIME-type allow-list and a 10 MiB size limit. Each staged
file gets an object URL for previewing. The user can replace or remove a
staged file, and can submit, which reports how many staged files are valid
and clears the list. The same logic is written twice: once with module-level
variables (`script.js`) and once as React component state (`src/App.js`).
This project models that shared logic once.

- `validation.dfy` (module `Validation`): the constants `MAX_SIZE` and
  `ALLOWED_TYPES`, the file record (name, MIME type, size), and
  `validateFile` as the pure function `ValidateFile`. It also holds
  `ALLOWED_TYPES.includes` as a linear scan.
- `format.dfy` (module `Format`): which unit `formatSize` picks (B, KB, MB).
- `entries.dfy` (module `Entries`): the entry `{file, valid, error, url}`,
  `MAX_FILES`, and pure functions over the entry list with their lemmas:
  - the entries built for a batch (App.js's `map`);
  - `splice(i, 1)`;
  - the set of URLs the entries hold;
  - the valid count (`filter(...).length`).
- `store.dfy` (module `Store`): class `FileStore`. Its real fields are the
  entry list, the pending replace index and a URL counter. Its ghost fields
  are the sets of live, revoked and issued URLs. The class has one method
  per event handler. `URL.createObjectURL` hands out the counter's next value
  and adds it to the live set. `URL.revokeObjectURL` moves a live URL to the
  revoked set, and it may only be called on a live URL. The invariant
  `Valid()` states the following, and every handler preserves it:
  - at most ten entries;
  - each entry's `valid`/`error` is what the validator says of its file;
  - no two entries share a URL;
  - the live URLs are exactly the entries' URLs;
  - every URL ever created is either live or revoked, never both.
- `scenarios.dfy` (module `Scenarios`): three client methods built only
  from the store's contracts:
  - five files are staged, then a batch of six is refused;
  - two files are staged, one is removed, then the rest is submitted;
  - one file is staged and submitted, then its old Remove button is clicked,
    and then its old Replace button. On the page these are alternatives (a
    Remove click redraws the list); the stale remove changes nothing, so the
    replace starts from the submitted state either way.
- `stale.dfy` (module `StaleButtons`): script.js as written during the two
  seconds between a submit and the delayed redraw, with the page as a value
  and every revoke call logged. It exhibits the two findings below.

Three points where the code behaves differently from what a reader might expect:
- The submit handler itself does not check that some entry is valid. Only the
  disabled button prevents a submit with zero valid entries, so `Submit` has
  no such precondition.
- On replace, both sources create the new object URL before revoking the old
  one. The model does the same.
- Neither source checks that a remove or replace index is still inside the
  list. In script.js such an index can come from a button drawn before a
  submit emptied the list, because script.js redraws only two seconds later.
  The store's methods accept any index and do what the code evidently
  intends: a stale remove changes nothing, and a stale replace is
  discarded. What script.js does as written is modelled separately under
  "## Findings".

## Model

| member | source | states |
|---|---|---|
| `Validation.Includes` | script.js:26 | the scan of the allow-list is true exactly when the type is a member of the list |
| `Validation.ValidateFile` | script.js:25-33 | valid exactly when there is no error reason, and exactly when the type is allowed and the size is at most 10 MiB; the reason is "type not allowed" exactly when the type is off the list, and "too large" exactly when the type is allowed but the size exceeds the limit |
| `Validation.TypeCheckedFirst` | src/App.js:20-23 | a disallowed type gives "File type not allowed" whatever the size, because the type check runs first |
| `Validation.SizeLimitInclusive` | src/App.js:24-27 | for an allowed type, exactly `MAX_SIZE` bytes is valid with no error and one byte more is "Too large (>10MB)" |
| `Validation.ValidationExamples` | src/App.js:20-28 | an 11 MiB PNG is too large; an empty text file is valid |
| `Validation.ZipNotAllowed` | src/App.js:6-12 | `application/zip` is not in the allow-list, so a zip of any size is rejected for its type |
| `Validation.Message` | script.js:26-30 | the reason "type not allowed" shows "File type not allowed" and "too large" shows "Too large (>10MB)" |
| `Validation.MessageIdentifiesReason` | src/App.js:20-27 | the two reasons show different texts, so the shown text identifies the reason |
| `Format.UnitFor` | script.js:20-24 | the chosen unit shows at least one unit (except bytes) and fewer than 1024 units (except megabytes) |
| `Format.UnitForUnique` | src/App.js:14-18 | those two bounds determine the unit uniquely |
| `Format.UnitForMonotone` | src/App.js:14-18 | a larger size never gets a smaller unit |
| `Entries.MakeEntry` | script.js:43-45 | a new entry holds the file, its URL, and the validator's verdict on the file |
| `Entries.Processed` | src/App.js:57-61 | a batch gives exactly one entry per file, invalid files included |
| `Entries.ProcessedAt` | src/App.js:57-61 | entry k of a batch is file k's entry, with its verdict, holding the k-th URL created |
| `Entries.ProcessedSnoc` | script.js:42-46 | pushing the entries one file at a time, in order, builds the same list as the `map` |
| `Entries.ProcessedUrls` | src/App.js:57-61 | a batch's entries hold pairwise distinct URLs, exactly those created for the batch |
| `Entries.Splice` | src/App.js:107 | removing index i keeps entries before i in place, shifts entries after i down by one, and shortens the list by one |
| `Entries.UrlsOfSnoc` | script.js:44-45 | appending an entry with a fresh URL keeps URLs distinct and adds exactly that URL |
| `Entries.UrlsOfSplice` | script.js:97-98 | splicing out an entry drops exactly its URL from the held set and keeps the rest distinct |
| `Entries.UrlsOfUpdate` | script.js:56-63 | overwriting a slot with an entry holding a fresh URL swaps exactly the old URL for the new one |
| `Entries.UrlsOfAppend` | src/App.js:63 | the URLs held by a concatenated list are the URLs held by each part |
| `Entries.CountValid` | src/App.js:133 | the valid count never exceeds the number of entries |
| `Entries.CountValidAppend` | src/App.js:63 | the valid count of a concatenation is the sum of the parts' counts |
| `Entries.CountValidZeroIff` | src/App.js:192 | the valid count is 0 exactly when no entry is valid, in both directions |
| `Entries.CountValidSplice` | src/App.js:100-110 | after a removal the valid count drops by one exactly when the removed entry was valid |
| `Entries.CountValidUpdate` | src/App.js:79-92 | after a replacement the valid count changes by the new entry's validity minus the old one's |
| `Store.FileStore.constructor` | script.js:10-11 | the store starts empty, with no replacement pending and no URL created |
| `Store.FileStore.CreateObjectUrl` | script.js:44 | the URL created was never issued before; it becomes live and nothing else changes |
| `Store.FileStore.RevokeObjectUrl` | script.js:57 | only a live URL is revoked; it was not revoked before and moves from live to revoked |
| `Store.FileStore.AddFiles` | script.js:34-49 | a batch that would exceed ten entries is refused and changes nothing (no entry, no URL); otherwise exactly the batch's entries are appended in order, prior entries untouched, with freshly created live URLs |
| `Store.FileStore.PushAll` | script.js:42-46 | the `forEach` loop appends one entry per file in batch order and makes their URLs live |
| `Store.FileStore.Push` | script.js:43-45 | one iteration validates file k, creates its URL and pushes its entry, so the entries of the first k files become those of the first k + 1 |
| `Store.FileStore.TriggerReplace` | script.js:88-92 | the replace button records its index, whether or not the list still has that position, and changes nothing else |
| `Store.FileStore.ReplaceChange` | script.js:50-67 | a no-op without a pending index or a chosen file; a pending index the list no longer has is cleared and nothing else changes (no URL is created); otherwise the length and all other slots are unchanged, the old URL, live until then, is revoked, the slot holds the first chosen file with its verdict and a fresh URL, and the pending index resets to -1 |
| `Store.FileStore.RemoveAt` | src/App.js:100-110 | a position the list no longer has changes nothing; otherwise the entry's URL, live until then, is revoked and the entry is spliced out, the others keeping their relative order |
| `Store.FileStore.Submit` | script.js:110-115 | the reported count is the number of valid entries before clearing; every entry's URL is revoked; the list becomes empty and no URL stays live |
| `Store.FileStore.RenderSummary` | script.js:68-109 | the count loop gives the number of valid entries; submit is disabled exactly when no entry is valid; the submit section shows exactly when the list is non-empty |
| `Scenarios.LimitScenario` | src/App.js:52-61 | after five files are staged, a batch of six is refused; five entries remain and only five URLs were created |
| `Scenarios.RemoveThenSubmitScenario` | src/App.js:100-127 | staging two files, removing the first and submitting reports the second's validity and leaves nothing staged |
| `Scenarios.StaleClicksScenario` | script.js:88-114 | after one file is staged and submitted, its old Remove button changes nothing, so its old Replace button with a new file acts on the submitted state, as a Replace click straight after submit would (on the page the two clicks are alternatives, since script.js:99 redraws after a remove); nothing is staged, no URL is created beyond the first, and the pending index is cleared |
| `Entries.ProcessedStep` | script.js:42-46 | after k iterations of the loop, pushing file k's entry gives the entries of the first k + 1 files |
| `Entries.AppendProcessedUrls` | src/App.js:63 | appending a batch's entries adds exactly the URLs created for the batch |
| `StaleButtons.ReplaceClickAsWritten` | script.js:88-89 | a Replace button records its drawn position as the pending index and changes nothing else |
| `StaleButtons.Revoke` | script.js:97 | one revoke call is logged and leaves the URL not live, whether or not it was live before; the entries are untouched |
| `StaleButtons.RevokeEach` | script.js:112 | revoking a list's URLs appends to the log exactly the entries' URLs, one call per entry in list order, removes exactly those URLs from the live set, and leaves the entries untouched |
| `StaleButtons.SubmitAsWritten` | script.js:110-114 | submit appends the entries' URLs to the revoke log in list order, takes exactly those URLs out of the live set and empties the list, without redrawing it; the pending index and the URL counter stay |
| `StaleButtons.RemoveClickAsWritten` | script.js:96-100 | a remove button revokes the URL it captured when drawn, whatever the list now holds, and splices nothing when its position is gone |
| `StaleButtons.ReplaceChangeAsWritten` | script.js:50-57 | with a pending index and a chosen file a URL is always created; the handler throws exactly when the pending position is gone, and then the only change is that new URL, live while no entry holds it, with the list and the pending index as they were |
| `StaleButtons.StaleRemoveRevokesTwice` | script.js:96-98 | after one file is staged and submitted, its old Remove button revokes URL 0 a second time and the list stays empty |
| `StaleButtons.StaleReplaceLeaksUrl` | script.js:54-57 | after one file is staged and submitted, its old Replace button with a new file throws, leaving URL 1 live though no entry holds it and the pending index still 0 |

Rows cite one of the two files. The other file has the same logic at these
lines:
- `validateFile`: src/App.js:20-28 and script.js:25-33.
- `formatSize`: src/App.js:14-18 and script.js:20-24.
- Add: src/App.js:47-68 and script.js:34-49.
- Replace: src/App.js:70-98 and script.js:50-67, with the replace button at
  src/App.js:112-118 and script.js:88-92.
- Remove: src/App.js:100-110 and script.js:96-100.
- Submit: src/App.js:120-131 and script.js:110-115.
- Valid count and submit gating: src/App.js:133, 186 and 192, and
  script.js:70-72, 106 and 107.

Besides how they hold state, the two files differ in these ways:
- After submit, src/App.js re-renders at once (line 126). script.js redraws
  only after two seconds (line 114), so until then the old buttons stay on
  screen, and the submit button stays enabled.
- script.js's remove button revokes the URL of the entry it captured when it
  was drawn (line 97). src/App.js revokes the URL of the entry now at that
  position (lines 103-105).
- src/App.js checks `if (item.url)` before each revoke (lines 82, 104 and
  124). script.js does not.
- src/App.js has an unmount teardown (lines 39-45). script.js has none.

The store follows src/App.js where the two differ. Module `StaleButtons`
models script.js's as-written remove, replace and submit for the window
before the delayed redraw.

## Findings

| source | as written | input that shows it | evidently intended | confidence | as-written member | corrected member |
|---|---|---|---|---|---|---|
| script.js:96-98 | the remove button revokes the URL it captured when drawn and splices its drawn position | stage one file, submit, and click that file's Remove button within two seconds: the submit already revoked URL 0, so it is revoked again (browsers ignore the second call), and the splice does nothing | a position the list no longer has changes nothing; no URL is revoked twice | medium, not executed | `StaleButtons.StaleRemoveRevokesTwice` (over `StaleButtons.RemoveClickAsWritten`) | `Store.FileStore.RemoveAt` |
| script.js:54-57 | the replace handler creates the new URL, then reads `files[replaceIndex].url` | stage one file, submit, click that file's Replace button within two seconds and choose a file: URL 1 is created, then the read of `undefined.url` throws, so URL 1 is never revoked and `replaceIndex` stays 0 | a pending position the list no longer has is discarded before any URL is created | medium, not executed | `StaleButtons.StaleReplaceLeaksUrl` (over `StaleButtons.ReplaceChangeAsWritten`) | `Store.FileStore.ReplaceChange` |

## Left out

- DOM and React rendering are not modelled. This covers element lookup,
  `innerHTML`, JSX, the input `value = ''` resets and the programmatic
  `click()`. It also covers the status texts `errorMsg` and `successMsg`:
  `AddFiles` returns the limit outcome and `Submit` returns the count instead.
- The preview button's `window.open` is browser I/O and is not modelled.
- Object URLs are modelled as numbers from a counter plus ghost live and
  revoked sets. Blob contents are not modelled.
- The 2-second `setTimeout` after submit is timer-driven and asynchronous.
  Its wait is not modelled. In src/App.js it only clears the message. In
  script.js it is the redraw, and module `StaleButtons` models the page
  before it.
- `formatSize`'s numeric text (`toFixed` on a floating-point quotient) is not
  modelled. Only the choice of unit is.
- The `useEffect` teardown in src/App.js (lines 39-45) is not modelled. It
  captures the initial empty list, so it releases nothing at unmount, and no
  teardown guarantee is claimed.
- The `if (item.url)` guards before revoking in src/App.js always hold, since
  every entry is created with an object URL. They are not modelled as a
  branch.
- In src/App.js the remove and replace updaters run inside `setFiles`. Their
  deferred, batched execution by React is not modelled: each handler is one
  atomic step.
- A second click on submit during script.js's two-second window is not
  modelled separately. The list is already empty, so it revokes nothing and
  reports zero files.
