# Quiz store model

This project models the in-memory quiz store of a quiz-hosting service, `models.py`
lines 94–265. The store is three module-level dicts:

- `questions`, keyed by question id;
- `quizzes`, keyed by quiz id;
- `results`, keyed by quiz id and then by user id.

Three operations work on them:

- `create_question` validates a question, then does a get-or-insert keyed by the
  question's content hash.
- `create_quiz` validates a title and a list of question payloads, then does a
  get-or-insert keyed by the quiz's content hash. On a miss it stores the quiz and
  fills in its question list one payload at a time.
- `submit_answer` runs four fail-fast checks. It then appends an answer record to the
  user's record for the quiz and adds one to the score when the answer is right.

The content hashes are `hash_question`, the MD5 digest of `text + ''.join(options)`,
and `hash_quiz`, the digest of the title followed by the sorted question digests.

Files and modules:

- `ids.dfy` (`Ids`): the uuid4 keys of the question and quiz tables.
- `wrappers.dfy` (`Wrappers`): `Option`, and `Result` for a call that returns a value
  or raises `ValueError` with a message.
- `pystr.dfy` (`PyStr`): the Python string built-ins the store relies on. These are
  `str.strip` (through `str.isspace`), `''.join`, the `<=` ordering on `str`, and
  `sorted` on a list of `str`.
- `hashing.dfy` (`Hashing`): `hash_question` and `hash_quiz`, with MD5 as a parameter
  `md5: string -> string`. Every lemma holds for every digest function, so what is
  proved about the fingerprints does not depend on MD5.
- `ledger.dfy` (`Ledger`): answer records, per-user results, and the
  append-and-score step of `submit_answer`.
- `models.dfy` (`Models`): the store as a class `QuizStore`. It holds the three dicts
  as `map` fields, plus the number of uuid4 calls so far. Its methods update the maps
  as the Python functions do, and `Valid()` is the invariant they keep:
  - every stored question passed `create_question`'s checks and carries the hash of
    its own content;
  - no two questions share a hash, and no two quizzes share a hash;
  - every quiz lists only stored questions;
  - results exist only for stored quizzes;
  - every score equals the number of correct answers in its record.

Where the code's behaviour may surprise a reader, the model follows the code:

- `create_quiz` accepts an empty payload list, because `all()` over an empty list is
  true.
- `create_quiz` stores the new quiz before it creates the quiz's questions. A
  `ValueError` raised by `create_question` partway through therefore leaves a stored
  quiz whose question list holds only the ids gathered so far. That quiz is stored under
  the hash of the full payload list, so making the same call again finds it and returns
  its id with no error (`RetryAfterPartialQuiz`).
- A payload whose hash is already stored is never validated.
- `submit_answer` accepts a second answer to the same question and counts it again.
  It also accepts an answer to a stored question that the quiz does not list.
- Questions need at least 2 options. An earlier version, now commented out, required 4.
- The question hash joins text and options with no separator. Different splits of the
  same characters are therefore one question to the store. The quiz hash has the same
  clash: a quiz with one question hashes like a quiz with no questions whose title ends
  in that question's hash.

## Model

| member | source | states |
|---|---|---|
| `PyStr.IsSpace` | models.py:177 | `str.isspace` for one character, the whitespace `strip` removes; the ASCII space, tab, newline, carriage return, vertical tab and form feed all count |
| `PyStr.TrimStart` | models.py:177 | the leading-whitespace strip returns a suffix of its argument, drops only whitespace, and stops at a non-space character |
| `PyStr.TrimEnd` | models.py:177 | the trailing-whitespace strip returns a prefix of its argument, drops only whitespace, and stops at a non-space character |
| `PyStr.Strip` | models.py:177 | `str.strip`: the leading whitespace strip followed by the trailing one |
| `PyStr.IsBlank` | models.py:142 | the `not s.strip()` test used for the title, the question text and the user id: every character is whitespace |
| `PyStr.BlankIffStripsToEmpty` | models.py:177 | `not s.strip()` holds exactly when every character of `s` is whitespace, so the title, text and user-id checks are one blankness test |
| `PyStr.Join` | models.py:113 | `''.join(xs)`: the strings of `xs` concatenated in order; a non-empty list's join starts with its first string |
| `PyStr.JoinAppend` | models.py:113 | `''.join` of two concatenated lists is the concatenation of their joins |
| `PyStr.LessEq` | models.py:127 | Python's `<=` on `str`: lexicographic by code point; total, antisymmetric and transitive by the `LessEq` lemmas beside it |
| `PyStr.LessEqPrefix` | models.py:127 | a string that is a prefix of another is `<=` it |
| `PyStr.Sort` | models.py:127 | `sorted` on a list of `str`: returns an ordered permutation of its argument |
| `PyStr.SortedArrangementIsSort` | models.py:127 | every ordered permutation of a list is `Sort` of it, so the result does not depend on the sorting algorithm |
| `PyStr.SortedUnique` | models.py:127 | two ordered lists holding the same strings equally often are the same list |
| `PyStr.SortDeterminedByMultiset` | models.py:127 | `sorted` depends only on which strings occur and how often, not on their order |
| `Hashing.HashQuestion` | models.py:102-114 | `hash_question`: md5 of the text followed by the options joined with no separator; with no options it is the hash of the text alone, and the first option might as well be the end of the text |
| `Hashing.PayloadHash` | models.py:127 | `hash_question(q['text'], q['options'])` for one payload; its correct option plays no part |
| `Hashing.QuestionHashesAt` | models.py:127 | the comprehension in `hash_quiz` yields exactly one hash per payload, and the i-th is `hash_question` of the i-th payload |
| `Hashing.HashQuestionExactlyDependsOnInput` | models.py:113-114 | two (text, options) pairs get the same hash under every digest function exactly when `text + ''.join(options)` is the same string |
| `Hashing.HashQuestionRegroup` | models.py:113-114 | moving leading options onto the end of the text leaves the question hash unchanged |
| `Hashing.HashQuestionCollision` | models.py:113-114 | `("ab", ["c"])` and `("a", ["b", "c"])` get the same hash, so the store treats them as one question |
| `Hashing.PayloadHashIgnoresCorrectOption` | models.py:127 | a payload's hash does not change when its `correct_option` changes |
| `Hashing.QuestionHashesAppend` | models.py:127 | the per-payload hashes of two concatenated payload lists are the concatenation of their hashes |
| `Hashing.QuestionHashesRespectPermutation` | models.py:127 | reordering the payloads reorders their question hashes and changes nothing else |
| `Hashing.HashQuiz` | models.py:116-129 | `hash_quiz`: md5 of the title followed by the sorted per-payload question hashes |
| `Hashing.HashQuizAnySortedOrder` | models.py:127-129 | the quiz hash is md5 of the title followed by any ascending arrangement of the question hashes |
| `Hashing.HashQuizDeterminedByQuestionHashes` | models.py:127-129 | `hash_quiz` depends on the question hashes only as a multiset |
| `Hashing.HashQuizIgnoresOrder` | models.py:127-129 | every permutation of `questions_data` gives the same quiz hash |
| `Hashing.HashQuizOfNoQuestions` | models.py:127-129 | with no payloads the quiz hash is the digest of the title alone |
| `Hashing.HashQuizTitleCollision` | models.py:127-129 | a title ending in a question's hash with no questions gets the same quiz hash as the plain title with that one question, because nothing separates the title from the hashes |
| `Ledger.CountCorrect` | models.py:262-263 | the number of correct answers never exceeds the number of answers |
| `Ledger.Record` | models.py:256-263 | one answer record appended to a user's record, and the score raised by 1 exactly when the answer is correct |
| `Ledger.RecordKeepsConsistent` | models.py:256-263 | appending one answer and adding 1 exactly when it is correct keeps `score` equal to the number of correct answers |
| `Ledger.Posted` | models.py:248-263 | the results table after one answer: the quiz's dict and the user's record are created when missing, then `Record` is applied; afterwards the (quiz, user) record exists |
| `Ledger.PostedFrame` | models.py:248-263 | a submission adds at most the key of its own quiz, gives its (quiz, user) record exactly one more answer, and leaves every other (quiz, user) record as it was; no record for any other (quiz, user) pair is created or removed |
| `Ledger.PostedTwice` | models.py:235-265 | the same answer submitted twice is recorded twice, and a correct one scores twice |
| `Ledger.PostedKeepsConsistent` | models.py:248-263 | after any submission every record's score still counts its correct answers |
| `Ledger.CountCorrectAppend` | models.py:262-263 | the correct answers of two runs of answers add up |
| `Ledger.RecordAllFrom` | models.py:256-263 | a run of submissions appends them in order, and the score grows by the number of correct ones |
| `Ledger.RecordAllFromScratch` | models.py:248-263 | starting from no record, N submissions leave exactly those N answers in order, with score equal to the number of correct ones |
| `Models.QuestionError` | models.py:177-182 | the three `ValueError` checks of `create_question` in source order: blank text, fewer than 2 options, `correct_option` out of range |
| `Models.SubmitError` | models.py:236-243 | the four checks of `submit_answer` in source order; none fails exactly when the quiz and question are stored, the user id is not blank and the option is in range |
| `Models.Complete` | models.py:144 | one entry of `questions_data` has the `text`, `options` and `correct_option` keys |
| `Models.AllComplete` | models.py:144 | the `all(...)` check of `create_quiz`: every entry has the three keys; true for the empty list |
| `Models.SubmitIgnoresQuizMembership` | models.py:236-243 | an answer to a stored question passes every check even when the quiz does not list that question |
| `Models.InsertQuestionKeepsValid` | models.py:186-198 | inserting a validated question under a fresh key, with a hash no stored question has, keeps the question table valid |
| `Models.InsertKeepsMinted` | models.py:191-192 | a freshly minted uuid is not yet a key, and after the insert every key is still a minted one |
| `Models.InsertKeepsWellFormed` | models.py:192-198 | a validated question stored with its own hash keeps every stored question validated and hashed |
| `Models.InsertKeepsUnique` | models.py:186-198 | inserting under a new key a hash that is not yet stored keeps question hashes unique |
| `Models.QuizTableGrows` | models.py:192-198 | adding questions never invalidates the quiz table |
| `Models.NewQuizKeepsValid` | models.py:151-162 | a new empty quiz under a fresh key, with a quiz hash not yet stored, keeps the quiz table valid and quiz hashes unique |
| `Models.AppendQuestionKeepsValid` | models.py:169-172 | appending a stored question's id to a stored quiz keeps the quiz table valid |
| `Models.AddPayloadStep` | models.py:164-172 | one pass of the payload loop keeps the loop's facts: old questions unchanged, the i-th id has the i-th payload's hash, and every new question was stored from the payload at its recorded position |
| `Models.NewFromViaOrigin` | models.py:164-172 | once every new question has a recorded payload position it was stored from, every new question was stored from the payload at the first position holding its id |
| `Models.NewFromFirstPosition` | models.py:164-171 | a new question's content is that of the first payload whose position holds its id, so when two payloads share a hash the stored options and correct option are the earlier payload's |
| `Models.QuizStore.constructor` | models.py:98-100 | the store starts with three empty dicts and satisfies its invariant |
| `Models.QuizStore.FindQuestionByHash` | models.py:186 | returns the key of a stored question with the given hash, and returns None exactly when no stored question has it |
| `Models.QuizStore.FindQuizByHash` | models.py:151 | returns the key of a stored quiz with the given hash, and returns None exactly when no stored quiz has it |
| `Models.QuizStore.CreateQuestion` | models.py:176-199 | a blank text, fewer than 2 options, or an out-of-range `correct_option` each raise their `ValueError` with nothing changed; a stored hash returns that question's id with nothing changed; otherwise exactly one question is added under a fresh id with the computed hash; hash uniqueness is preserved |
| `Models.QuizStore.QuestionFor` | models.py:165-171 | a payload whose hash is stored yields that id without validation and changes nothing; any other payload goes through `create_question`, whose error is passed on with nothing changed |
| `Models.QuizStore.AppendQuestionId` | models.py:169-172 | the quiz's question list gets exactly the one id appended, and no other quiz changes |
| `Models.QuizStore.AddQuiz` | models.py:156-162 | a quiz with the title, an empty question list and the quiz hash is stored under a fresh id, and nothing else changes |
| `Models.QuizStore.FillStep` | models.py:164-172 | one payload: a `ValueError` from `create_question` changes nothing, the uuid counter included; otherwise exactly one id, whose question has the payload's hash, is appended to the quiz, old questions stay unchanged and any new question comes from this payload |
| `Models.QuizStore.FillQuestions` | models.py:164-173 | ids are appended in payload order, the i-th id names a question whose hash is the i-th payload's, old questions are unchanged, and each new question comes from the first payload whose position holds its id; the first `ValueError` stops the loop and leaves the ids gathered so far |
| `Models.QuizStore.StoreNewQuiz` | models.py:155-174 | on a quiz-hash miss, a quiz with the computed hash is stored under a fresh id, holding one id per payload in payload order, or, after a `ValueError`, the ids before the failing payload; old questions are unchanged and each new one comes from the first payload whose position holds its id |
| `Models.QuizStore.CreateQuiz` | models.py:142-174 | a blank title or an incomplete payload raises its `ValueError` with nothing changed; a stored quiz hash returns that quiz's id with nothing changed; otherwise a new quiz with the computed hash is stored holding one id per payload in payload order, or, after a `ValueError`, the ids before the failing payload; each new question comes from the first payload whose position holds its id; quiz-hash uniqueness is preserved |
| `Models.QuizStore.SubmitAnswer` | models.py:235-265 | unknown quiz, unknown question, blank user id and out-of-range option are checked in that order, and each returns its message with results unchanged; otherwise exactly one answer record is posted for (quiz, user), and the result is `(True, None)` or `(False, correct_option)`; the score stays equal to the number of correct answers |
| `Models.QuizStore.RecordAnswer` | models.py:248-263 | creates the quiz's dict and the user's `{score: 0, answers: []}` record when missing, appends the answer and adds 1 to the score exactly when the answer is correct; every score still counts its correct answers |
| `Models.RetryAfterPartialQuiz` | models.py:151-174 | after a `create_quiz` that stored a quiz and then raised, the identical call returns that quiz's id without an error, although the quiz lists fewer questions than the payloads |

## Left out

- MD5 (models.py:114, 129) is a parameter of the store, not an algorithm. The
  `.encode()` and `.hexdigest()` steps fall inside it. Strings here are sequences of
  Unicode scalar values. A Python `str` holding a lone surrogate makes `.encode()`
  raise `UnicodeEncodeError`, a `ValueError`, so `create_quiz` would fail at
  models.py:148 before changing anything; that error path is not modelled.
- uuid4 (models.py:156, 191) is modelled as a serial number: each call gives a key not
  yet used. Randomness, the string form of the key, and collisions are not modelled.
- Dynamic typing is not modelled. The `isinstance` checks on title, text, options,
  `correct_option`, user id and selected option are carried by Dafny's types. Payload
  entries that are not dicts cannot be expressed. A `TypeError`, for example from a
  non-string option in `''.join`, is not modelled.
- A stored question's options list is the caller's own list object. That aliasing is
  not modelled.
- `next(...)` over `dict.items()` takes the first match in insertion order. The model
  takes any match. Because stored hashes are unique, at most one key can match.
- resources.py (HTTP request parsing and status mapping) and app.py (application
  setup, database client, routes) are not part of this model. `GetQuiz`,
  `GetResults` and `ListQuizzes` are plain dict lookups.
- The commented-out earlier versions at models.py:1-92 and models.py:201-233 are not
  modelled.
- Concurrency and atomicity are not modelled. Every operation runs to completion,
  one at a time.
