# Trivia dashboard data core, modelled in Dafny

The dashboard fetches trivia categories and questions from the Open Trivia
DB API. It keeps them in a store, lets the user filter by category and shows
three derived views of the filtered questions. This project models the
non-visual core of `src/components/TriviaContext.tsx`:

- **`fetchWithRetry`** (`fetch.dfy`, module `RetryFetch`). The network is a
  function from the attempt number (from 0) to the reply that attempt gets:
  a `Response(status, body)` or a `Rejected(reason)` when the `fetch`
  promise rejects. The method returns the outcome, the number of attempts
  and the list of waits. It does not sleep.
- **The load cycle `loadData`** (`store.dfy`, module `TriviaStore`). The
  class `Store` has the fields `categories`, `questions`, `selectedCategory`,
  `loading` and `error`. `LoadData` calls `FetchWithRetry` for both
  endpoints, checks the payloads and either replaces both lists with their
  decoded versions or records the error. A body is `Parsed(value)`, or
  `Malformed(message)` when `response.json()` would throw. The HTML-entity
  decoder is an uninterpreted parameter `decode: string -> string`.
- **The derived views** (`views.dfy`, module `Views`): `VisibleQuestions`,
  `CategoryDistribution`, `DifficultyDistribution` and
  `UniqueQuestionCategories`. The two distributions are methods whose loops
  fill a map, as the `forEach` loops do. Each is proved equal to a
  declarative specification (`CategoryTally`, `DifficultyTally`), and the
  properties are proved about those specifications.
- `types.dfy` (module `TriviaTypes`) holds the records. `string_order.dfy`
  (module `StringOrder`) holds the order that `Array.prototype.sort` uses on
  strings without a comparator.

JSON field names become camelCase: `type` is `kind`, `correct_answer` is
`correctAnswer`, `incorrect_answers` is `incorrectAnswers`, `response_code`
is `responseCode` and `trivia_categories` is `triviaCategories`.

The guard `!catRes.ok || !qRes.ok` (line 96) is modelled. It can never fire:
`fetchWithRetry` only returns OK responses. The if-and-only-if in the
contract of `LoadOutcome` makes this visible, since it names no HTTP status
condition.

## Model

| member | source | states |
|---|---|---|
| `StringOrder.BeforeIrreflexive` | src/components/TriviaContext.tsx:183 | No string sorts before itself. |
| `StringOrder.BeforeTransitive` | src/components/TriviaContext.tsx:183 | The default sort order on strings is transitive. |
| `StringOrder.BeforeTotal` | src/components/TriviaContext.tsx:183 | Of two different strings, one sorts before the other. |
| `StringOrder.AtMostTransitive` | src/components/TriviaContext.tsx:183 | "Sorts before or equals" is transitive. |
| `StringOrder.AtMostTotal` | src/components/TriviaContext.tsx:183 | Any two strings are comparable. |
| `Views.Matching` | src/components/TriviaContext.tsx:155 | The filter keeps only questions of the category. Each of those keeps its multiplicity, every other question gets multiplicity 0, and the original order is kept (a subsequence). |
| `Views.VisibleQuestions` | src/components/TriviaContext.tsx:153-156 | For `"all"` the result is exactly `questions`. Otherwise it is the order-preserving subsequence of exactly the questions of the selected category, with their multiplicities. It is never longer than `questions`. |
| `Views.Distinct` | src/components/TriviaContext.tsx:182 | Keys of a Map or Set filled from a list: no duplicates, and the same values as the list. |
| `Views.DistinctFirstSeenOrder` | src/components/TriviaContext.tsx:159-163 | Those keys come in order of first occurrence in the list. |
| `Views.Tally` | src/components/TriviaContext.tsx:163-166 | One `{name, value}` entry per name, in the order of the names, whose value is the name's number of occurrences. |
| `Views.CategoryTally` | src/components/TriviaContext.tsx:158-167 | The declarative category distribution has exactly one entry per distinct category. |
| `Views.CategoryTallyShape` | src/components/TriviaContext.tsx:158-167 | Category distribution: names pairwise distinct and in first-seen order. Each value is that category's occurrence count and is at least 1. Every occurring category has an entry. |
| `Views.CategoryTallyStepSeen` | src/components/TriviaContext.tsx:161 | Counting a category already seen raises its entry by one. |
| `Views.CategoryTallyStepNew` | src/components/TriviaContext.tsx:161 | Counting a new category appends an entry with value 1. |
| `Views.DistinctSnoc` | src/components/TriviaContext.tsx:161 | Setting a key already in a Map keeps the key order; setting a new key appends it. |
| `Views.TallyBump` | src/components/TriviaContext.tsx:161 | One more occurrence of a name already listed raises only that entry's value, by one. |
| `Views.TallyAppend` | src/components/TriviaContext.tsx:161 | The first occurrence of a new name appends an entry with value 1 and changes no other entry. |
| `Views.CategoryTallySum` | src/components/TriviaContext.tsx:158-167 | The values of the category distribution sum to the number of questions counted. |
| `Views.CountOne` | src/components/TriviaContext.tsx:161 | One `counts.set(c, (counts.get(c) ?? 0) + 1)` on the insertion-ordered map keeps the map in step with the categories counted so far. The keys stay in first-seen order, and each count is that category's occurrences. |
| `Views.CountedEntries` | src/components/TriviaContext.tsx:163-166 | Listing such a map's entries in insertion order gives the category distribution. |
| `Views.Entries` | src/components/TriviaContext.tsx:163-166 | `Array.from(counts.entries())` mapped to `{name, value}`: one entry per key, in key order, whose value is the key's count. |
| `Views.CategoryDistribution` | src/components/TriviaContext.tsx:158-167 | The Map-filling loop yields exactly the category distribution of the visible questions. |
| `Views.SingleCategoryTally` | src/components/TriviaContext.tsx:158-167 | A list of one repeated category gives one entry with the full count. |
| `Views.SelectedCategoryDistribution` | src/components/TriviaContext.tsx:153-167 | With a category selected, the distribution is that category with the number of visible questions, or empty. |
| `Views.UnmatchedSelectionIsEmpty` | src/components/TriviaContext.tsx:153-167 | Selecting a category no question has gives no visible questions and an empty category distribution. |
| `Views.DifficultyCountsSum` | src/components/TriviaContext.tsx:172-174 | The easy, medium and hard counts of a list of difficulties sum to its length. |
| `Views.DifficultyTally` | src/components/TriviaContext.tsx:169-179 | The declarative difficulty distribution has one entry per label, in the order easy, medium, hard. No value exceeds the number of questions. |
| `Views.DifficultyTallyShape` | src/components/TriviaContext.tsx:169-179 | Difficulty distribution: always exactly three entries easy, medium, hard in that order. Each value is the count of questions of that difficulty, and the values sum to the number of questions. |
| `Views.DifficultyDistribution` | src/components/TriviaContext.tsx:169-179 | The loop seeds each label with 0 and counts; it yields exactly the difficulty distribution. |
| `Views.Insert` | src/components/TriviaContext.tsx:183 | Inserting into an ascending list keeps it ascending and adds exactly that element. |
| `Views.SortStrings` | src/components/TriviaContext.tsx:183 | Sorting yields an ascending permutation of the input. |
| `Views.SortedDistinctIsStrict` | src/components/TriviaContext.tsx:182-183 | Sorting values without duplicates yields a strictly ascending list. |
| `Views.UniqueQuestionCategories` | src/components/TriviaContext.tsx:181-184 | Strictly ascending, hence duplicate-free. Holds exactly the categories of all stored questions; it does not depend on the selection. |
| `RetryFetch.IsOk` | src/components/TriviaContext.tsx:56-58 | An OK status (200-299) is never 429 or 503, so an OK response is returned and never retried. |
| `RetryFetch.IsBusy` | src/components/TriviaContext.tsx:57-58 | A reply worth retrying is a response whose status is not OK. |
| `RetryFetch.Delays` | src/components/TriviaContext.tsx:61 | One wait per retry; the first is `backoffMs` and each later one doubles the previous one. |
| `RetryFetch.FinalAttempt` | src/components/TriviaContext.tsx:53-66 | The loop stops at an attempt no later than `retries`. Every earlier reply was 429/503, and stopping before `retries` means the reply was not 429/503. |
| `RetryFetch.Settle` | src/components/TriviaContext.tsx:55-66 | The last reply decides the outcome. Delivered exactly when it is OK, with its status and body. Request failure with its status exactly when it is a non-OK response. Network error when `fetch` rejected. |
| `RetryFetch.DeliveredExactlyAtFirstOk` | src/components/TriviaContext.tsx:54-66 | The loop's last reply is delivered exactly when some attempt within the retries got an OK response and every attempt before it got 429/503. |
| `RetryFetch.FetchOutcome` | src/components/TriviaContext.tsx:48-68 | The result of `fetchWithRetry`: a response is delivered exactly when some attempt within the retries is OK after only 429/503 replies, and what is delivered has an OK status. |
| `RetryFetch.FetchWithRetry` | src/components/TriviaContext.tsx:48-68 | Between 1 and `retries + 1` attempts. All but the last got 429/503, and an early stop came from a reply other than 429/503. The outcome settles the last reply. The k-th wait is `backoffMs * 2^k`. The outcome equals `FetchOutcome`. |
| `RetryFetch.Pow2Increasing` | src/components/TriviaContext.tsx:61 | Powers of two strictly increase. |
| `RetryFetch.DelaysIncrease` | src/components/TriviaContext.tsx:61 | With a positive base, the waits strictly increase. |
| `RetryFetch.FirstOkDelivered` | src/components/TriviaContext.tsx:55-56 | If every earlier attempt got 429/503 and was retried, the first OK reply is returned. |
| `RetryFetch.OtherFailureStops` | src/components/TriviaContext.tsx:57-66 | A non-OK status other than 429/503 stops at once and fails with that status. |
| `RetryFetch.BusyExhaustsRetries` | src/components/TriviaContext.tsx:57-66 | A server that stays busy gets `retries + 1` attempts, and the request fails with the last status. |
| `RetryFetch.BusyTwiceThenOk` | src/components/TriviaContext.tsx:46-68 | 503, 503, 200 with the defaults: waits of 600 and 1200 ms, then delivered. |
| `RetryFetch.AlwaysBusy` | src/components/TriviaContext.tsx:48-68 | Always 429 with the defaults: 4 attempts, waits of 600, 1200 and 2400 ms, then it fails with 429. |
| `TriviaStore.Decimal` | src/components/TriviaContext.tsx:66 | The status in the message is written as digits, with no leading zero. |
| `TriviaStore.DecimalRoundTrip` | src/components/TriviaContext.tsx:66 | Those digits read back as the status. |
| `TriviaStore.FailureMessage` | src/components/TriviaContext.tsx:66-130 | The error text stored: for a failed request, "Request failed: " followed by digits that read back as the status; for a rejected `fetch`, the rejection's own message. |
| `TriviaStore.DecodeCategories` | src/components/TriviaContext.tsx:112-115 | Same number of categories, same ids, each name passed through the decoder. |
| `TriviaStore.DecodeQuestion` | src/components/TriviaContext.tsx:116-124 | Type and difficulty kept; category, question, correct answer and each incorrect answer passed through the decoder; as many incorrect answers as before. |
| `TriviaStore.DecodeQuestions` | src/components/TriviaContext.tsx:116-124 | Same number of questions, each decoded in place. |
| `TriviaStore.DecodingKeepsShape` | src/components/TriviaContext.tsx:112-124 | Decoding keeps the list lengths and order, the ids, the types, the difficulties and the number of incorrect answers. It applies the decoder to exactly the name, category, question, correct answer and each incorrect answer. |
| `TriviaStore.DecodingKeepsDifficulties` | src/components/TriviaContext.tsx:116-124 | Decoding does not change the difficulty distribution. |
| `TriviaStore.Conclude` | src/components/TriviaContext.tsx:96-127 | Given the two fetch results, loading succeeds exactly when both delivered OK responses, both bodies parse and `response_code` is 0. It then yields the decoded category and question lists. |
| `TriviaStore.LoadOutcome` | src/components/TriviaContext.tsx:91-127 | A load succeeds exactly when both fetches deliver, both bodies parse and `response_code` is 0. It then yields the decoded category and question lists. |
| `TriviaStore.ApiErrorCodeFails` | src/components/TriviaContext.tsx:105-107 | A non-zero `response_code` aborts the load with the API error message. |
| `TriviaStore.RequestFailureReported` | src/components/TriviaContext.tsx:91-130 | A failed request aborts the load with "Request failed: " and its status. |
| `TriviaStore.Store.constructor` | src/components/TriviaContext.tsx:79-83 | Initial state: no categories or questions, selection `"all"`, loading, no error. |
| `TriviaStore.Store.SetSelectedCategory` | src/components/TriviaContext.tsx:81 | Changes only the selection. |
| `TriviaStore.Store.LoadData` | src/components/TriviaContext.tsx:85-134 | `loading` is false at exit and the selection is kept. On success both lists are replaced by the decoded ones and `error` is null. On any failure both lists are unchanged and `error` holds the failure's message. |
| `TriviaStore.ScienceAndNatureLoad` | src/components/TriviaContext.tsx:112-127 | Loading category "Science &amp; Nature" and one hard question stores the decoded name. The difficulty distribution is then easy 0, medium 0, hard 1. |

## Left out

- Real `fetch`, `sleep` and `setTimeout`: replies are inputs and waits are returned numbers. No time passes.
- JSON parsing: a body is given already parsed, or as the message of the parse error.
- The request URLs and the `amount` query parameter: each endpoint is its own reply function, so the amount is not modelled.
- `refetchQuestions` and the initial load in `useEffect`: both only call `loadData`, which is modelled.
- `Promise.all` concurrency and the race between overlapping loads. Each `LoadData` call runs to completion.
- `TriviaStore.LoadOutcome`: when both fetches fail, Promise.all reports whichever rejects first in time. The model always reports the category fetch's error.
- The `isMounted` flag: it is always true, so its guards are dropped.
- The entity decoder itself: it is the browser's `textarea` parsing and stays an uninterpreted parameter.
- The fallback message "Unknown error": every failure in the model is an `Error` with a message, so that branch cannot be reached.
- React context, hooks, memoisation, `useTrivia` and every rendering component. `CategoryNavigation` counts per category the same way as `Views.CategoryDistribution`.
- `StringOrder.Before` compares Unicode scalar values, while JavaScript compares UTF-16 code units. The two orders differ only between characters above U+FFFF and characters from U+E000 to U+FFFF.
- `RetryFetch.FetchWithRetry`: `retries`, `backoffMs` and statuses are natural numbers, and `Math.pow` is exact integer arithmetic. Negative or fractional arguments and float rounding are not modelled; the defaults are small integers.
- A question difficulty outside easy/medium/hard is not modelled: the record type rules it out.
