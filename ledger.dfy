/** The answer records of submit_answer: results[quiz_id][user_id] = {score, answers}. */
module Ledger {
  import opened Ids

  /** {'question_id', 'selected_option', 'is_correct'} */
  datatype Answer = Answer(questionId: Id, selectedOption: int, isCorrect: bool)

  /** {'score', 'answers'} */
  datatype UserResult = UserResult(score: int, answers: seq<Answer>)

  /** results: quiz id -> user id -> that user's record for that quiz */
  type Results = map<Id, map<string, UserResult>>

  /** The record submit_answer creates on a user's first answer to a quiz. */
  const NoAnswers := UserResult(0, [])

  /** How many of the answers were correct. */
  function CountCorrect(answers: seq<Answer>): (n: nat)
    ensures n <= |answers|
  {
    if answers == [] then 0
    else CountCorrect(answers[..|answers| - 1]) + (if answers[|answers| - 1].isCorrect then 1 else 0)
  }

  /** The ledger's invariant: the score counts the correct answers. */
  predicate Consistent(r: UserResult) {
    r.score == CountCorrect(r.answers)
  }

  /** The append of one answer record and the score bump of submit_answer. */
  function Record(r: UserResult, a: Answer): UserResult {
    UserResult(if a.isCorrect then r.score + 1 else r.score, r.answers + [a])
  }

  /** Recording an answer keeps the score equal to the number of correct answers. */
  lemma RecordKeepsConsistent(r: UserResult, a: Answer)
    requires Consistent(r)
    ensures Consistent(Record(r, a))
  {
    assert (r.answers + [a])[..|r.answers|] == r.answers;
  }

  /** The record of a (quiz, user) pair, or the fresh record if there is none yet. */
  function ResultOf(res: Results, quizId: Id, userId: string): UserResult {
    if quizId in res && userId in res[quizId] then res[quizId][userId] else NoAnswers
  }

  /** results[quiz_id] after `if quiz_id not in results: results[quiz_id] = {}`. */
  function UsersOf(res: Results, quizId: Id): map<string, UserResult> {
    if quizId in res then res[quizId] else map[]
  }

  /** The results table after recording answer a for (quizId, userId). */
  function Posted(res: Results, quizId: Id, userId: string, a: Answer): (p: Results)
    ensures quizId in p && userId in p[quizId]
  {
    res[quizId := UsersOf(res, quizId)[userId := Record(ResultOf(res, quizId, userId), a)]]
  }

  /** Posting touches one record only: that record gets exactly the new answer, every
      other (quiz, user) record is as before, and the only key it can add is quizId. */
  lemma PostedFrame(res: Results, quizId: Id, userId: string, a: Answer, q: Id, u: string)
    ensures Posted(res, quizId, userId, a).Keys == res.Keys + {quizId}
    ensures ResultOf(Posted(res, quizId, userId, a), quizId, userId) == Record(ResultOf(res, quizId, userId), a)
    ensures (q, u) != (quizId, userId) ==> ResultOf(Posted(res, quizId, userId, a), q, u) == ResultOf(res, q, u)
    ensures (q, u) != (quizId, userId) ==>
      (q in Posted(res, quizId, userId, a) && u in Posted(res, quizId, userId, a)[q] <==> q in res && u in res[q])
  {
  }

  /** Nothing stops a second answer to the same question: posting one answer twice leaves
      two records of it, and a correct one is counted twice. */
  lemma PostedTwice(res: Results, quizId: Id, userId: string, a: Answer)
    ensures var r := ResultOf(res, quizId, userId);
      ResultOf(Posted(Posted(res, quizId, userId, a), quizId, userId, a), quizId, userId)
        == UserResult(r.score + (if a.isCorrect then 2 else 0), r.answers + [a, a])
  {
    PostedFrame(res, quizId, userId, a, quizId, userId);
    PostedFrame(Posted(res, quizId, userId, a), quizId, userId, a, quizId, userId);
    var r := ResultOf(res, quizId, userId);
    assert r.answers + [a] + [a] == r.answers + [a, a];
  }

  ghost predicate AllConsistent(res: Results) {
    forall q, u :: q in res && u in res[q] ==> Consistent(res[q][u])
  }

  /** Posting any answer keeps every record of the table consistent. */
  lemma PostedKeepsConsistent(res: Results, quizId: Id, userId: string, a: Answer)
    requires AllConsistent(res)
    ensures AllConsistent(Posted(res, quizId, userId, a))
  {
    RecordKeepsConsistent(ResultOf(res, quizId, userId), a);
  }

  /** The records after answers are submitted one by one, starting from r. */
  function RecordAll(r: UserResult, answers: seq<Answer>): UserResult
    decreases |answers|
  {
    if answers == [] then r else RecordAll(Record(r, answers[0]), answers[1..])
  }

  /** After any sequence of submissions for one (quiz, user), starting from no record,
      the answers are the submissions in order and the score is the number of correct ones. */
  lemma {:induction false} RecordAllFromScratch(answers: seq<Answer>)
    ensures RecordAll(NoAnswers, answers) == UserResult(CountCorrect(answers), answers)
  {
    RecordAllFrom(NoAnswers, answers);
    assert [] + answers == answers;
  }

  /** The correct answers of two runs add up. */
  lemma {:induction false} CountCorrectAppend(a: seq<Answer>, b: seq<Answer>)
    ensures CountCorrect(a + b) == CountCorrect(a) + CountCorrect(b)
    decreases |b|
  {
    if b == [] {
      assert a + b == a;
    } else {
      var b' := b[..|b| - 1];
      CountCorrectAppend(a, b');
      assert (a + b)[..|a + b| - 1] == a + b';
    }
  }

  /** A run of submissions appends them in order, and the score gains the number of
      correct ones. */
  lemma {:induction false} RecordAllFrom(r: UserResult, answers: seq<Answer>)
    ensures RecordAll(r, answers) == UserResult(r.score + CountCorrect(answers), r.answers + answers)
    decreases |answers|
  {
    if answers != [] {
      var r' := Record(r, answers[0]);
      RecordAllFrom(r', answers[1..]);
      assert r'.answers + answers[1..] == r.answers + answers;
      assert answers == [answers[0]] + answers[1..];
      CountCorrectAppend([answers[0]], answers[1..]);
      assert [answers[0]][..0] == [];
    } else {
      assert r.answers + answers == r.answers;
    }
  }
}
