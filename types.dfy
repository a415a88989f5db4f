/** The records the trivia dashboard works on: a category of the category
    endpoint, a question of the question endpoint, and one bar of a chart. */
module TriviaTypes {

  /** Stands for a value that may be absent (`string | null` in the store). */
  datatype Option<T> = None | Some(value: T)

  /** The three difficulty levels a question can carry. */
  datatype Difficulty = Easy | Medium | Hard

  /** The difficulty labels in the fixed order the difficulty chart uses. */
  const DifficultyLabels: seq<Difficulty> := [Easy, Medium, Hard]

  /** A category as listed by the category endpoint; identified by `id`. */
  datatype Category = Category(id: int, name: string)

  /** A question as returned by the question endpoint. The JSON fields
      `type`, `correct_answer` and `incorrect_answers` are named `kind`,
      `correctAnswer` and `incorrectAnswers` here. */
  datatype Question = Question(
    category: string,
    kind: string,
    difficulty: Difficulty,
    question: string,
    correctAnswer: string,
    incorrectAnswers: seq<string>)

  /** One entry of a distribution: a label and how many questions carry it. */
  datatype Slice<L> = Slice(name: L, value: nat)

  /** The sum of the values of a distribution. */
  function SumValues<L>(slices: seq<Slice<L>>): nat
  {
    if slices == [] then 0 else SumValues(slices[..|slices| - 1]) + slices[|slices| - 1].value
  }
}
