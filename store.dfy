/** The trivia data store: the fetched categories and questions, the selected
    category, and the loading and error status, with the load cycle that
    fetches both lists, decodes their HTML entities and replaces them. */
module TriviaStore {
  import opened TriviaTypes
  import opened RetryFetch
  import Views

  /** The result of `response.json()`: the parsed payload, or the message of
      the error thrown on a malformed body. */
  datatype Json<T> = Parsed(value: T) | Malformed(message: string)

  /** The payload of the category endpoint. */
  datatype CategoryListing = CategoryListing(triviaCategories: seq<Category>)

  /** The payload of the question endpoint; a `responseCode` other than 0 is
      an error reported by the API itself. */
  datatype QuestionBatch = QuestionBatch(responseCode: int, results: seq<Question>)

  /** The replies of the category endpoint, attempt by attempt. */
  type CategoryServer = nat -> Reply<Json<CategoryListing>>

  /** The replies of the question endpoint, attempt by attempt. */
  type QuestionServer = nat -> Reply<Json<QuestionBatch>>

  // ---------------------------------------------------------------------
  // Error messages

  function DigitChar(d: nat): char
    requires d < 10
  {
    ('0' as int + d) as char
  }

  /** The decimal notation of `n`, as a template literal prints it. */
  function Decimal(n: nat): (s: string)
    ensures |s| >= 1 && forall i :: 0 <= i < |s| ==> '0' <= s[i] <= '9'
    ensures |s| > 1 ==> s[0] != '0'
  {
    if n < 10 then [DigitChar(n)] else Decimal(n / 10) + [DigitChar(n % 10)]
  }

  /** The number a string of decimal digits denotes. */
  function DecimalValue(s: string): nat
    requires forall i :: 0 <= i < |s| ==> '0' <= s[i] <= '9'
  {
    if s == [] then 0 else 10 * DecimalValue(s[..|s| - 1]) + (s[|s| - 1] as int - '0' as int)
  }

  /** The status in a "Request failed" message reads back as that status. */
  lemma {:induction false} DecimalRoundTrip(n: nat)
    ensures DecimalValue(Decimal(n)) == n
  {
    if n >= 10 {
      var s := Decimal(n);
      assert s[..|s| - 1] == Decimal(n / 10);
      DecimalRoundTrip(n / 10);
    }
  }

  /** The text before the status in the error `fetchWithRetry` throws. */
  const RequestFailedPrefix: string := "Request failed: "

  /** The message of the error a failed `fetchWithRetry` throws, as the
      handler reads it from `e.message`: "Request failed: " followed by the
      status in decimal, or the reason `fetch` was rejected with. */
  function FailureMessage<B>(f: Fetched<B>): (m: string)
    ensures f.RequestFailed? ==>
      && |m| > |RequestFailedPrefix| && m[..|RequestFailedPrefix|] == RequestFailedPrefix
      && (forall i :: |RequestFailedPrefix| <= i < |m| ==> '0' <= m[i] <= '9')
      && DecimalValue(m[|RequestFailedPrefix|..]) == f.status
    ensures f.NetworkError? ==> m == f.reason
  {
    match f
    case RequestFailed(status) =>
      var m := RequestFailedPrefix + Decimal(status);
      assert m[|RequestFailedPrefix|..] == Decimal(status);
      DecimalRoundTrip(status);
      m
    case NetworkError(reason) => reason
    case Delivered(_, _) => ""
  }

  // ---------------------------------------------------------------------
  // Entity decoding, with `decode` standing for the browser's decoder

  /** Every category with its name decoded. */
  function DecodeCategories(cats: seq<Category>, decode: string -> string): (r: seq<Category>)
    ensures |r| == |cats|
    ensures forall i :: 0 <= i < |cats| ==> r[i].id == cats[i].id && r[i].name == decode(cats[i].name)
  {
    seq(|cats|, i requires 0 <= i < |cats| => cats[i].(name := decode(cats[i].name)))
  }

  /** The question with its category, text, correct answer and each incorrect
      answer decoded. */
  function DecodeQuestion(q: Question, decode: string -> string): (r: Question)
    ensures r.kind == q.kind && r.difficulty == q.difficulty
    ensures r.category == decode(q.category) && r.question == decode(q.question)
    ensures r.correctAnswer == decode(q.correctAnswer)
    ensures |r.incorrectAnswers| == |q.incorrectAnswers|
    ensures forall k :: 0 <= k < |q.incorrectAnswers| ==> r.incorrectAnswers[k] == decode(q.incorrectAnswers[k])
  {
    q.(category := decode(q.category),
       question := decode(q.question),
       correctAnswer := decode(q.correctAnswer),
       incorrectAnswers := seq(|q.incorrectAnswers|, i requires 0 <= i < |q.incorrectAnswers| => decode(q.incorrectAnswers[i])))
  }

  /** Every question decoded. */
  function DecodeQuestions(qs: seq<Question>, decode: string -> string): (r: seq<Question>)
    ensures |r| == |qs|
    ensures forall i :: 0 <= i < |qs| ==> r[i] == DecodeQuestion(qs[i], decode)
  {
    seq(|qs|, i requires 0 <= i < |qs| => DecodeQuestion(qs[i], decode))
  }

  /** Decoding keeps the lists' lengths and order, every id, type and
      difficulty and the number of incorrect answers, and applies the decoder
      to exactly the name, category, question, correct answer and incorrect
      answers. */
  lemma DecodingKeepsShape(cats: seq<Category>, qs: seq<Question>, decode: string -> string)
    ensures var dc := DecodeCategories(cats, decode);
      |dc| == |cats| && forall i :: 0 <= i < |cats| ==> dc[i].id == cats[i].id && dc[i].name == decode(cats[i].name)
    ensures var dq := DecodeQuestions(qs, decode);
      && |dq| == |qs|
      && forall i :: 0 <= i < |qs| ==>
        && dq[i].kind == qs[i].kind
        && dq[i].difficulty == qs[i].difficulty
        && dq[i].category == decode(qs[i].category)
        && dq[i].question == decode(qs[i].question)
        && dq[i].correctAnswer == decode(qs[i].correctAnswer)
        && |dq[i].incorrectAnswers| == |qs[i].incorrectAnswers|
        && forall k :: 0 <= k < |qs[i].incorrectAnswers| ==>
             dq[i].incorrectAnswers[k] == decode(qs[i].incorrectAnswers[k])
  {
  }

  /** Decoding leaves the difficulty distribution as it was. */
  lemma DecodingKeepsDifficulties(qs: seq<Question>, decode: string -> string)
    ensures Views.DifficultyTally(DecodeQuestions(qs, decode)) == Views.DifficultyTally(qs)
  {
    assert Views.Difficulties(DecodeQuestions(qs, decode)) == Views.Difficulties(qs);
  }

  // ---------------------------------------------------------------------
  // The load cycle

  /** What one load cycle ends with: the two decoded lists, or the message of
      the error that aborted it. */
  datatype LoadResult = Loaded(categories: seq<Category>, questions: seq<Question>) | LoadFailed(message: string)

  /** How a load cycle ends once both `fetchWithRetry` calls have settled:
      the checks of the responses and payloads in the handler's order, then
      the decoded lists. When both fetches failed, the category fetch's error
      is the one reported. */
  function Conclude(catRes: Fetched<Json<CategoryListing>>, qRes: Fetched<Json<QuestionBatch>>, decode: string -> string): (r: LoadResult)
    ensures r.Loaded? <==>
      && catRes.Delivered? && catRes.body.Parsed?
      && qRes.Delivered? && qRes.body.Parsed?
      && qRes.body.value.responseCode == 0
      && IsOk(catRes.status) && IsOk(qRes.status)
    ensures r.Loaded? ==>
      && r.categories == DecodeCategories(catRes.body.value.triviaCategories, decode)
      && r.questions == DecodeQuestions(qRes.body.value.results, decode)
  {
    if !catRes.Delivered? then LoadFailed(FailureMessage(catRes))
    else if !qRes.Delivered? then LoadFailed(FailureMessage(qRes))
    else if !IsOk(catRes.status) || !IsOk(qRes.status) then LoadFailed("Failed to fetch from API")
    else if catRes.body.Malformed? then LoadFailed(catRes.body.message)
    else if qRes.body.Malformed? then LoadFailed(qRes.body.message)
    else if qRes.body.value.responseCode != 0 then LoadFailed("Trivia API returned an error code")
    else Loaded(DecodeCategories(catRes.body.value.triviaCategories, decode),
                DecodeQuestions(qRes.body.value.results, decode))
  }

  /** The outcome of a load cycle against the two endpoints. The success
      condition names no HTTP status: `fetchWithRetry` only delivers OK
      responses, so the `ok` guard of the handler never fires. */
  function LoadOutcome(catServer: CategoryServer, qServer: QuestionServer, decode: string -> string): (r: LoadResult)
    ensures r.Loaded? <==>
      && FetchOutcome(catServer).Delivered? && FetchOutcome(catServer).body.Parsed?
      && FetchOutcome(qServer).Delivered? && FetchOutcome(qServer).body.Parsed?
      && FetchOutcome(qServer).body.value.responseCode == 0
    ensures r.Loaded? ==>
      && r.categories == DecodeCategories(FetchOutcome(catServer).body.value.triviaCategories, decode)
      && r.questions == DecodeQuestions(FetchOutcome(qServer).body.value.results, decode)
  {
    Conclude(FetchOutcome(catServer), FetchOutcome(qServer), decode)
  }

  /** A question payload with a non-zero response code aborts the load with
      the API error message, whatever the HTTP status said. */
  lemma ApiErrorCodeFails(catServer: CategoryServer, qServer: QuestionServer, decode: string -> string)
    requires FetchOutcome(catServer).Delivered? && FetchOutcome(catServer).body.Parsed?
    requires FetchOutcome(qServer).Delivered? && FetchOutcome(qServer).body.Parsed?
    requires FetchOutcome(qServer).body.value.responseCode != 0
    ensures LoadOutcome(catServer, qServer, decode) == LoadFailed("Trivia API returned an error code")
  {
  }

  /** A failed category or question request aborts the load with the
      "Request failed" message carrying its status. */
  lemma RequestFailureReported(catServer: CategoryServer, qServer: QuestionServer, decode: string -> string)
    requires FetchOutcome(catServer).RequestFailed? || (FetchOutcome(catServer).Delivered? && FetchOutcome(qServer).RequestFailed?)
    ensures var status := if FetchOutcome(catServer).RequestFailed? then FetchOutcome(catServer).status else FetchOutcome(qServer).status;
      LoadOutcome(catServer, qServer, decode) == LoadFailed(RequestFailedPrefix + Decimal(status))
  {
  }

  /** The holder of the dashboard's state. */
  class Store {
    var categories: seq<Category>
    var questions: seq<Question>
    var selectedCategory: string
    var loading: bool
    var error: Option<string>

    /** The state on mount: nothing loaded, no filter, a load under way. */
    constructor ()
      ensures categories == [] && questions == [] && selectedCategory == Views.All
      ensures loading && error == None
    {
      categories, questions := [], [];
      selectedCategory := Views.All;
      loading, error := true, None;
    }

    /** Selects the category to filter by; nothing else changes. */
    method SetSelectedCategory(name: string)
      modifies this
      ensures selectedCategory == name
      ensures categories == old(categories) && questions == old(questions)
      ensures loading == old(loading) && error == old(error)
    {
      selectedCategory := name;
    }

    /** One load cycle: fetch both lists, then either replace them with their
        decoded versions or keep them and record the error; loading ends in
        every case. */
    method LoadData(catServer: CategoryServer, qServer: QuestionServer, decode: string -> string)
      modifies this
      ensures !loading
      ensures selectedCategory == old(selectedCategory)
      ensures error == None <==> LoadOutcome(catServer, qServer, decode).Loaded?
      ensures LoadOutcome(catServer, qServer, decode).Loaded? ==>
        categories == LoadOutcome(catServer, qServer, decode).categories &&
        questions == LoadOutcome(catServer, qServer, decode).questions
      ensures LoadOutcome(catServer, qServer, decode).LoadFailed? ==>
        categories == old(categories) && questions == old(questions) &&
        error == Some(LoadOutcome(catServer, qServer, decode).message)
    {
      loading := true;
      error := None;
      var catRes, catAttempts, catDelays := FetchWithRetry(catServer);
      var qRes, qAttempts, qDelays := FetchWithRetry(qServer);
      var result := Conclude(catRes, qRes, decode);
      if result.Loaded? {
        categories := result.categories;
        questions := result.questions;
      } else {
        error := Some(result.message);
      }
      loading := false;
    }
  }

  /** A load that gets the category "Science &amp; Nature" and one hard
      question of that category stores the decoded name and yields the
      difficulty distribution easy 0, medium 0, hard 1. */
  lemma ScienceAndNatureLoad(decode: string -> string, q: Question)
    requires decode("Science &amp; Nature") == "Science & Nature"
    requires q.category == "Science &amp; Nature" && q.difficulty == Hard
    ensures var catServer: CategoryServer := (k: nat) => Response(200, Parsed(CategoryListing([Category(1, "Science &amp; Nature")])));
      var qServer: QuestionServer := (k: nat) => Response(200, Parsed(QuestionBatch(0, [q])));
      var r := LoadOutcome(catServer, qServer, decode);
      && r.Loaded?
      && r.categories == [Category(1, "Science & Nature")]
      && |r.questions| == 1 && r.questions[0].category == "Science & Nature"
      && Views.DifficultyTally(r.questions) == [Slice(Easy, 0), Slice(Medium, 0), Slice(Hard, 1)]
  {
    var catServer: CategoryServer := (k: nat) => Response(200, Parsed(CategoryListing([Category(1, "Science &amp; Nature")])));
    var qServer: QuestionServer := (k: nat) => Response(200, Parsed(QuestionBatch(0, [q])));
    FirstOkDelivered(catServer, 3, 0);
    FirstOkDelivered(qServer, 3, 0);
    var r := LoadOutcome(catServer, qServer, decode);
    assert Views.Difficulties(r.questions) == [Hard];
  }
}
