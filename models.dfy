/** The in-memory quiz store: the module-level dicts `quizzes`, `questions` and
    `results` with create_question, create_quiz and submit_answer. */
module Models {
  import opened Wrappers
  import opened PyStr
  import opened Hashing
  import opened Ids
  import opened Ledger

  /** A stored question: {'id', 'text', 'options', 'correct_option', 'hash'} */
  datatype Question = Question(id: Id, text: string, options: seq<string>, correctOption: int, hash: string)

  /** A stored quiz: {'id', 'title', 'questions', 'hash'} */
  datatype Quiz = Quiz(id: Id, title: string, questionIds: seq<Id>, hash: string)

  /** What submit_answer returns: (None, message), or (is_correct, correct option or None). */
  datatype Outcome = Rejected(message: string) | Graded(correct: bool, correctAnswer: Option<int>)

  /** The three ValueError checks of create_question, in order; None when all pass. */
  function QuestionError(text: string, options: seq<string>, correctOption: int): (e: Option<string>)
  {
    if IsBlank(text) then Some("Invalid question text")
    else if |options| < 2 then Some("Options must be a list with at least two options")
    else if correctOption < 0 || correctOption >= |options| then Some("Invalid correct option index")
    else None
  }

  /** The four checks of submit_answer, in order; None when all pass. Whether the user has
      answered this question before, and whether the question belongs to the quiz, are
      not checked. */
  function SubmitError(qz: map<Id, Quiz>, qs: map<Id, Question>, quizId: Id, questionId: Id,
                       userId: string, selected: int): (e: Option<string>)
    ensures e == None <==>
      quizId in qz && questionId in qs && !IsBlank(userId) && 0 <= selected < |qs[questionId].options|
  {
    if quizId !in qz then Some("Quiz not found")
    else if questionId !in qs then Some("Question not found")
    else if IsBlank(userId) then Some("Invalid user ID")
    else if selected < 0 || selected >= |qs[questionId].options| then Some("Invalid selected option")
    else None
  }

  /** submit_answer accepts an answer to any stored question, listed in the quiz or not. */
  lemma SubmitIgnoresQuizMembership(qz: map<Id, Quiz>, qs: map<Id, Question>, quizId: Id, questionId: Id,
                                    userId: string, selected: int)
    requires quizId in qz && questionId in qs && questionId !in qz[quizId].questionIds
    requires !IsBlank(userId) && 0 <= selected < |qs[questionId].options|
    ensures SubmitError(qz, qs, quizId, questionId, userId, selected) == None
  {
  }

  /** The dict has all three keys create_quiz asks for. */
  predicate Complete(p: Payload) {
    p.text.Some? && p.options.Some? && p.correctOption.Some?
  }

  predicate AllComplete(ps: seq<Payload>) {
    forall i :: 0 <= i < |ps| ==> Complete(ps[i])
  }

  /** The error create_question would raise for this payload, if any. */
  function PayloadError(p: Payload): Option<string>
    requires Complete(p)
  {
    QuestionError(p.text.value, p.options.value, p.correctOption.value)
  }

  /** The stored question holds exactly the content of the payload. */
  predicate StoredFrom(q: Question, p: Payload) {
    Complete(p) && q.text == p.text.value && q.options == p.options.value && q.correctOption == p.correctOption.value
  }

  ghost predicate QuestionHashStored(qs: map<Id, Question>, h: string) {
    exists k :: k in qs && qs[k].hash == h
  }

  ghost predicate QuizHashStored(qz: map<Id, Quiz>, h: string) {
    exists k :: k in qz && qz[k].hash == h
  }

  /** Every stored question is keyed by its own id, a key uuid4 has handed out. */
  ghost predicate QuestionKeysMinted(qs: map<Id, Question>, minted: nat) {
    forall k :: k in qs ==> qs[k].id == k && k.serial < minted
  }

  /** Every stored question passed create_question's checks and carries the hash of its content. */
  ghost predicate QuestionsWellFormed(md5: string -> string, qs: map<Id, Question>) {
    forall k :: k in qs ==>
      && QuestionError(qs[k].text, qs[k].options, qs[k].correctOption).None?
      && qs[k].hash == HashQuestion(md5, qs[k].text, qs[k].options)
  }

  /** No two stored questions share a hash. */
  ghost predicate QuestionHashesUnique(qs: map<Id, Question>) {
    forall k, k' :: k in qs && k' in qs && k != k' ==> qs[k].hash != qs[k'].hash
  }

  ghost predicate QuestionTableValid(md5: string -> string, qs: map<Id, Question>, minted: nat) {
    QuestionKeysMinted(qs, minted) && QuestionsWellFormed(md5, qs) && QuestionHashesUnique(qs)
  }

  /** Every stored quiz is keyed by its id (a key uuid4 has handed out), lists only stored
      questions, and no two share a hash. */
  ghost predicate QuizTableValid(qz: map<Id, Quiz>, qs: map<Id, Question>, minted: nat) {
    && (forall k :: k in qz ==>
          && qz[k].id == k && k.serial < minted
          && (forall j :: 0 <= j < |qz[k].questionIds| ==> qz[k].questionIds[j] in qs))
    && (forall k, k' :: k in qz && k' in qz && k != k' ==> qz[k].hash != qz[k'].hash)
  }

  /** Adding a question that passed the checks, under a newly minted key, with a hash no
      stored question has, keeps the question table valid. */
  lemma InsertQuestionKeepsValid(md5: string -> string, qs: map<Id, Question>, minted: nat, q: Question)
    requires QuestionTableValid(md5, qs, minted)
    requires q.id == Uuid(minted)
    requires QuestionError(q.text, q.options, q.correctOption).None?
    requires q.hash == HashQuestion(md5, q.text, q.options)
    requires !QuestionHashStored(qs, q.hash)
    ensures q.id !in qs
    ensures QuestionTableValid(md5, qs[q.id := q], minted + 1)
  {
    InsertKeepsMinted(qs, minted, q);
    InsertKeepsWellFormed(md5, qs, q);
    InsertKeepsUnique(qs, q);
  }

  lemma InsertKeepsMinted(qs: map<Id, Question>, minted: nat, q: Question)
    requires QuestionKeysMinted(qs, minted) && q.id == Uuid(minted)
    ensures q.id !in qs && QuestionKeysMinted(qs[q.id := q], minted + 1)
  {
  }

  lemma InsertKeepsWellFormed(md5: string -> string, qs: map<Id, Question>, q: Question)
    requires QuestionsWellFormed(md5, qs)
    requires QuestionError(q.text, q.options, q.correctOption).None?
    requires q.hash == HashQuestion(md5, q.text, q.options)
    ensures QuestionsWellFormed(md5, qs[q.id := q])
  {
  }

  lemma InsertKeepsUnique(qs: map<Id, Question>, q: Question)
    requires QuestionHashesUnique(qs) && q.id !in qs && !QuestionHashStored(qs, q.hash)
    ensures QuestionHashesUnique(qs[q.id := q])
  {
    var qs' := qs[q.id := q];
    forall k, k' | k in qs' && k' in qs' && k != k' ensures qs'[k].hash != qs'[k'].hash {
      if k == q.id {
        assert k' in qs;
      } else if k' == q.id {
        assert k in qs;
      }
    }
  }

  /** A quiz table stays valid when questions are only added and more keys are minted. */
  lemma QuizTableGrows(qz: map<Id, Quiz>, qs: map<Id, Question>, qs': map<Id, Question>, minted: nat, minted': nat)
    requires QuizTableValid(qz, qs, minted)
    requires qs.Keys <= qs'.Keys && minted <= minted'
    ensures QuizTableValid(qz, qs', minted')
  {
  }

  /** Adding a quiz with no questions yet, under a newly minted key, with a hash no stored
      quiz has, keeps the quiz table valid. */
  lemma NewQuizKeepsValid(qz: map<Id, Quiz>, qs: map<Id, Question>, minted: nat, z: Quiz)
    requires QuizTableValid(qz, qs, minted)
    requires z.id == Uuid(minted) && z.questionIds == []
    requires !QuizHashStored(qz, z.hash)
    ensures z.id !in qz
    ensures QuizTableValid(qz[z.id := z], qs, minted + 1)
  {
    var qz' := qz[z.id := z];
    forall k, k' | k in qz' && k' in qz' && k != k' ensures qz'[k].hash != qz'[k'].hash {
      if k == z.id {
        assert k' in qz;
      } else if k' == z.id {
        assert k in qz;
      }
    }
  }

  /** Appending a stored question id to a stored quiz keeps the quiz table valid. */
  lemma AppendQuestionKeepsValid(qz: map<Id, Quiz>, qs: map<Id, Question>, minted: nat, quizId: Id, qid: Id)
    requires QuizTableValid(qz, qs, minted)
    requires quizId in qz && qid in qs
    ensures QuizTableValid(qz[quizId := qz[quizId].(questionIds := qz[quizId].questionIds + [qid])], qs, minted)
  {
  }

  /** Storing twice under one key keeps the second value only. */
  lemma OverwriteTwice<K, V>(m: map<K, V>, k: K, v: V, v': V)
    ensures m[k := v][k := v'] == m[k := v']
  {
  }

  /** Every entry of `before` is still in `after`, unchanged: questions are never updated or removed. */
  ghost predicate Extends(before: map<Id, Question>, after: map<Id, Question>) {
    forall k :: k in before ==> k in after && after[k] == before[k]
  }

  /** The j-th id names a stored question whose hash is that of the j-th payload. */
  ghost predicate IdsMatch(md5: string -> string, qs: map<Id, Question>, ids: seq<Id>, ps: seq<Payload>) {
    && |ids| <= |ps|
    && forall j :: 0 <= j < |ids| ==>
         Hashable(ps[j]) && ids[j] in qs && qs[ids[j]].hash == PayloadHash(md5, ps[j])
  }

  /** Every question in `after` but not in `before` was stored from the payload at the
      first position where its id sits in ids: a later payload with the same hash found it
      and only appended its id. */
  ghost predicate NewFrom(before: map<Id, Question>, after: map<Id, Question>, ids: seq<Id>, ps: seq<Payload>) {
    forall k :: k in after && k !in before ==>
      exists j :: 0 <= j < |ids| && j < |ps| && ids[j] == k && k !in ids[..j] && StoredFrom(after[k], ps[j])
  }

  /** A new question comes from the first payload whose position holds its id: with two
      same-hash payloads in one create_quiz, the stored options and correct option are
      those of the earlier payload. */
  lemma NewFromFirstPosition(before: map<Id, Question>, after: map<Id, Question>, ids: seq<Id>, ps: seq<Payload>, i: nat)
    requires NewFrom(before, after, ids, ps)
    requires i < |ids| && i < |ps| && ids[i] in after && ids[i] !in before && ids[i] !in ids[..i]
    ensures StoredFrom(after[ids[i]], ps[i])
  {
    var k := ids[i];
    var j :| 0 <= j < |ids| && j < |ps| && ids[j] == k && k !in ids[..j] && StoredFrom(after[k], ps[j]);
    FirstOccurrenceUnique(ids, i, j);
  }

  /** An id occurs first at only one position. */
  lemma FirstOccurrenceUnique(ids: seq<Id>, i: nat, j: nat)
    requires i < |ids| && j < |ids| && ids[i] == ids[j] && ids[i] !in ids[..i] && ids[j] !in ids[..j]
    ensures i == j
  {
  }

  /** NewFrom with its witnesses recorded: `origin` maps each new question to the
      position of the payload it was stored from. */
  ghost predicate NewFromVia(before: map<Id, Question>, after: map<Id, Question>, ids: seq<Id>, ps: seq<Payload>,
                             origin: map<Id, nat>) {
    forall k :: k in after && k !in before ==>
      && k in origin && origin[k] < |ids| && origin[k] < |ps| && ids[origin[k]] == k
      && k !in ids[..origin[k]] && StoredFrom(after[k], ps[origin[k]])
  }

  lemma NewFromViaOrigin(before: map<Id, Question>, after: map<Id, Question>, ids: seq<Id>, ps: seq<Payload>,
                         origin: map<Id, nat>)
    requires NewFromVia(before, after, ids, ps, origin)
    ensures NewFrom(before, after, ids, ps)
  {
    forall k | k in after && k !in before
      ensures exists j :: 0 <= j < |ids| && j < |ps| && ids[j] == k && k !in ids[..j] && StoredFrom(after[k], ps[j])
    {
      var j := origin[k];
      assert ids[j] == k && k !in ids[..j] && StoredFrom(after[k], ps[j]);
    }
  }

  /** One more payload handled by create_quiz's loop keeps the loop's three facts. */
  lemma AddPayloadStep(md5: string -> string, start: map<Id, Question>, mid: map<Id, Question>, after: map<Id, Question>,
                       ids: seq<Id>, ps: seq<Payload>, qid: Id, origin: map<Id, nat>, origin': map<Id, nat>)
    requires Extends(start, mid) && IdsMatch(md5, mid, ids, ps) && NewFromVia(start, mid, ids, ps, origin)
    requires |ids| < |ps| && Hashable(ps[|ids|])
    requires Extends(mid, after)
    requires qid in after && after[qid].hash == PayloadHash(md5, ps[|ids|])
    requires forall k :: k in after && k !in mid ==> k == qid && StoredFrom(after[k], ps[|ids|])
    requires origin' == if qid in mid then origin else origin[qid := |ids|]
    ensures Extends(start, after)
    ensures IdsMatch(md5, after, ids + [qid], ps)
    ensures NewFromVia(start, after, ids + [qid], ps, origin')
  {
    var ids' := ids + [qid];
    forall k | k in after && k !in start
      ensures k in origin' && origin'[k] < |ids'| && origin'[k] < |ps| && ids'[origin'[k]] == k
      ensures k !in ids'[..origin'[k]] && StoredFrom(after[k], ps[origin'[k]])
    {
      if k in mid {
        assert ids'[origin[k]] == k;
        assert ids'[..origin[k]] == ids[..origin[k]];
      } else {
        assert ids'[|ids|] == k;
        assert ids'[..|ids|] == ids;
        assert k !in ids by {
          forall j | 0 <= j < |ids| ensures ids[j] != k {
            assert ids[j] in mid;
          }
        }
      }
    }
  }

  class QuizStore {
    /** hashlib.md5(...).hexdigest(), left abstract */
    const md5: string -> string
    var quizzes: map<Id, Quiz>
    var questions: map<Id, Question>
    var results: Results
    /** how many keys uuid4 has handed out so far */
    var minted: nat

    /** The store's invariant: the question and quiz tables are valid, and so is the ledger. */
    ghost predicate Valid()
      reads this
    {
      TablesValid() && LedgerValid()
    }

    /** Questions and quizzes are keyed by minted ids, well formed, and unique by hash. */
    ghost predicate TablesValid()
      reads this`questions, this`quizzes, this`minted
    {
      QuestionTableValid(md5, questions, minted) && QuizTableValid(quizzes, questions, minted)
    }

    /** Results exist only for stored quizzes, and every score counts its correct answers. */
    ghost predicate LedgerValid()
      reads this
    {
      results.Keys <= quizzes.Keys && AllConsistent(results)
    }

    /** The empty store of a freshly imported module. */
    constructor (md5: string -> string)
      ensures Valid()
      ensures this.md5 == md5
      ensures quizzes == map[] && questions == map[] && results == map[] && minted == 0
    {
      this.md5 := md5;
      quizzes, questions, results, minted := map[], map[], map[], 0;
    }

    /** next((qid for qid, qdata in questions.items() if qdata.get('hash') == h), None) */
    method FindQuestionByHash(h: string) returns (found: Option<Id>)
      ensures found.Some? ==> found.value in questions && questions[found.value].hash == h
      ensures found.None? <==> !QuestionHashStored(questions, h)
    {
      var keys := questions.Keys;
      while keys != {}
        invariant keys <= questions.Keys
        invariant forall k :: k in questions && k !in keys ==> questions[k].hash != h
        decreases keys
      {
        var k :| k in keys;
        if questions[k].hash == h {
          return Some(k);
        }
        keys := keys - {k};
      }
      return None;
    }

    /** next((qid for qid, qdata in quizzes.items() if qdata.get('hash') == h), None) */
    method FindQuizByHash(h: string) returns (found: Option<Id>)
      ensures found.Some? ==> found.value in quizzes && quizzes[found.value].hash == h
      ensures found.None? <==> !QuizHashStored(quizzes, h)
    {
      var keys := quizzes.Keys;
      while keys != {}
        invariant keys <= quizzes.Keys
        invariant forall k :: k in quizzes && k !in keys ==> quizzes[k].hash != h
        decreases keys
      {
        var k :| k in keys;
        if quizzes[k].hash == h {
          return Some(k);
        }
        keys := keys - {k};
      }
      return None;
    }

    /** create_question: validate, then get-or-insert keyed by the content hash.
        An existing question with the same hash wins, whatever its correct option. */
    method CreateQuestion(text: string, options: seq<string>, correctOption: int) returns (r: Result<Id>)
      requires TablesValid()
      modifies this`questions, this`minted
      ensures TablesValid()
      ensures QuestionError(text, options, correctOption).Some? ==>
        && r == Err(QuestionError(text, options, correctOption).value)
        && questions == old(questions) && minted == old(minted)
      ensures QuestionError(text, options, correctOption).None? && QuestionHashStored(old(questions), HashQuestion(md5, text, options)) ==>
        && r.Ok? && r.value in old(questions) && old(questions)[r.value].hash == HashQuestion(md5, text, options)
        && questions == old(questions) && minted == old(minted)
      ensures QuestionError(text, options, correctOption).None? && !QuestionHashStored(old(questions), HashQuestion(md5, text, options)) ==>
        && r.Ok? && r.value !in old(questions)
        && questions == old(questions)[r.value := Question(r.value, text, options, correctOption, HashQuestion(md5, text, options))]
        && minted == old(minted) + 1
    {
      var err := QuestionError(text, options, correctOption);
      if err.Some? {
        return Err(err.value);
      }
      var h := HashQuestion(md5, text, options);
      var existing := FindQuestionByHash(h);
      if existing.Some? {
        return Ok(existing.value);
      }
      var id := Uuid(minted);
      var q := Question(id, text, options, correctOption, h);
      InsertQuestionKeepsValid(md5, questions, minted, q);
      QuizTableGrows(quizzes, questions, questions[id := q], minted, minted + 1);
      minted := minted + 1;
      questions := questions[id := q];
      return Ok(id);
    }

    /** The question id one pass of create_quiz's loop appends: a payload whose hash is
        already stored gives that question's id without being validated; any other one
        goes through create_question, whose ValueError is passed on with nothing changed. */
    method QuestionFor(p: Payload) returns (r: Result<Id>)
      requires TablesValid() && Complete(p)
      modifies this`questions, this`minted
      ensures TablesValid() && old(minted) <= minted
      ensures Extends(old(questions), questions)
      ensures QuestionHashStored(old(questions), PayloadHash(md5, p)) ==>
        r.Ok? && questions == old(questions) && minted == old(minted)
      ensures r.Err? ==>
        && questions == old(questions) && minted == old(minted)
        && !QuestionHashStored(questions, PayloadHash(md5, p))
        && PayloadError(p) == Some(r.error)
      ensures r.Ok? ==>
        && r.value in questions && questions[r.value].hash == PayloadHash(md5, p)
        && (forall k :: k in questions && k !in old(questions) ==> k == r.value && StoredFrom(questions[k], p))
    {
      var qh := HashQuestion(md5, p.text.value, p.options.value);
      var found := FindQuestionByHash(qh);
      if found.Some? {
        r := Ok(found.value);
      } else {
        r := CreateQuestion(p.text.value, p.options.value, p.correctOption.value);
      }
    }

    /** quizzes[quiz_id]['questions'].append(qid) */
    method AppendQuestionId(quizId: Id, qid: Id)
      requires TablesValid() && quizId in quizzes && qid in questions
      modifies this`quizzes
      ensures TablesValid()
      ensures quizzes == old(quizzes)[quizId := old(quizzes)[quizId].(questionIds := old(quizzes)[quizId].questionIds + [qid])]
    {
      var z := quizzes[quizId];
      AppendQuestionKeepsValid(quizzes, questions, minted, quizId, qid);
      quizzes := quizzes[quizId := z.(questionIds := z.questionIds + [qid])];
    }

    /** quizzes[quiz_id] = {'id': quiz_id, 'title': title, 'questions': [], 'hash': h}
        under a fresh uuid4 key. */
    method AddQuiz(title: string, h: string) returns (quizId: Id)
      requires TablesValid() && !QuizHashStored(quizzes, h)
      modifies this`quizzes, this`minted
      ensures TablesValid() && minted == old(minted) + 1
      ensures quizId !in old(quizzes) && quizzes == old(quizzes)[quizId := Quiz(quizId, title, [], h)]
    {
      quizId := Uuid(minted);
      NewQuizKeepsValid(quizzes, questions, minted, Quiz(quizId, title, [], h));
      minted := minted + 1;
      quizzes := quizzes[quizId := Quiz(quizId, title, [], h)];
    }

    /** One pass of create_quiz's payload loop: look up or create the question for the
        next payload and append its id to the quiz; a ValueError changes nothing. */
    method FillStep(quizId: Id, z: Quiz, payloads: seq<Payload>, i: nat, ghost ids: seq<Id>, ghost origin: map<Id, nat>,
                    ghost quizzes0: map<Id, Quiz>, ghost questions0: map<Id, Question>)
      returns (err: Option<string>, ghost ids': seq<Id>, ghost origin': map<Id, nat>)
      requires TablesValid() && AllComplete(payloads) && i == |ids| < |payloads|
      requires quizzes == quizzes0[quizId := z.(questionIds := ids)]
      requires IdsMatch(md5, questions, ids, payloads)
      requires Extends(questions0, questions)
      requires NewFromVia(questions0, questions, ids, payloads, origin)
      modifies this`quizzes, this`questions, this`minted
      ensures TablesValid() && old(minted) <= minted
      ensures err.Some? ==>
        && ids' == ids && origin' == origin && questions == old(questions) && quizzes == old(quizzes)
        && minted == old(minted)
        && !QuestionHashStored(questions, PayloadHash(md5, payloads[|ids|]))
        && PayloadError(payloads[|ids|]) == err
      ensures err.None? ==>
        && |ids'| == |ids| + 1
        && quizzes == quizzes0[quizId := z.(questionIds := ids')]
        && IdsMatch(md5, questions, ids', payloads)
        && Extends(questions0, questions)
        && NewFromVia(questions0, questions, ids', payloads, origin')
    {
      var r := QuestionFor(payloads[i]);
      if r.Err? {
        return Some(r.error), ids, origin;
      }
      ghost var before := old(questions);
      AppendQuestionId(quizId, r.value);
      assert old(quizzes)[quizId].(questionIds := ids + [r.value]) == z.(questionIds := ids + [r.value]);
      OverwriteTwice(quizzes0, quizId, z.(questionIds := ids), z.(questionIds := ids + [r.value]));
      origin' := if r.value in before then origin else origin[r.value := |ids|];
      AddPayloadStep(md5, questions0, before, questions, ids, payloads, r.value, origin, origin');
      return None, ids + [r.value], origin';
    }

    /** The loop of create_quiz: for each payload in order, QuestionFor and AppendQuestionId; the first
        ValueError stops it and is returned, with the ids gathered so far left in the quiz. */
    method FillQuestions(quizId: Id, payloads: seq<Payload>) returns (err: Option<string>, ghost ids: seq<Id>)
      requires TablesValid() && quizId in quizzes && quizzes[quizId].questionIds == [] && AllComplete(payloads)
      modifies this`quizzes, this`questions, this`minted
      ensures TablesValid() && old(minted) <= minted && quizId in quizzes
      ensures
        && quizzes == old(quizzes)[quizId := old(quizzes)[quizId].(questionIds := ids)]
        && IdsMatch(md5, questions, ids, payloads)
        && Extends(old(questions), questions)
        && NewFrom(old(questions), questions, ids, payloads)
        && (err.None? ==> |ids| == |payloads|)
        && (err.Some? ==>
              && |ids| < |payloads|
              && !QuestionHashStored(questions, PayloadHash(md5, payloads[|ids|]))
              && PayloadError(payloads[|ids|]) == err)
    {
      var z := quizzes[quizId];
      ids := [];
      ghost var origin: map<Id, nat> := map[];
      var i := 0;
      while i < |payloads|
        invariant 0 <= i <= |payloads| && |ids| == i
        invariant TablesValid()
        invariant old(minted) <= minted
        invariant quizzes == old(quizzes)[quizId := z.(questionIds := ids)]
        invariant IdsMatch(md5, questions, ids, payloads)
        invariant Extends(old(questions), questions)
        invariant NewFromVia(old(questions), questions, ids, payloads, origin)
      {
        var e;
        e, ids, origin := FillStep(quizId, z, payloads, i, ids, origin, old(quizzes), old(questions));
        if e.Some? {
          NewFromViaOrigin(old(questions), questions, ids, payloads, origin);
          return e, ids;
        }
        i := i + 1;
      }
      NewFromViaOrigin(old(questions), questions, ids, payloads, origin);
      return None, ids;
    }

    /** The miss branch of create_quiz: store the new quiz, then fill its question list. */
    method StoreNewQuiz(title: string, payloads: seq<Payload>) returns (r: Result<Id>, ghost created: Option<Id>)
      requires TablesValid() && AllComplete(payloads) && !QuizHashStored(quizzes, HashQuiz(md5, title, payloads))
      modifies this`quizzes, this`questions, this`minted
      ensures TablesValid() && old(quizzes).Keys <= quizzes.Keys
      ensures
        && created.Some? && created.value !in old(quizzes) && created.value in quizzes
        && var id, ids := created.value, quizzes[created.value].questionIds;
        && quizzes == old(quizzes)[id := Quiz(id, title, ids, HashQuiz(md5, title, payloads))]
        && IdsMatch(md5, questions, ids, payloads)
        && Extends(old(questions), questions)
        && NewFrom(old(questions), questions, ids, payloads)
        && (r.Ok? ==> r.value == id && |ids| == |payloads|)
        && (r.Err? ==>
              && |ids| < |payloads|
              && !QuestionHashStored(questions, PayloadHash(md5, payloads[|ids|]))
              && PayloadError(payloads[|ids|]) == Some(r.error))
        && old(minted) < minted
    {
      var h := HashQuiz(md5, title, payloads);
      var quizId := AddQuiz(title, h);
      created := Some(quizId);
      var err, ids := FillQuestions(quizId, payloads);
      OverwriteTwice(old(quizzes), quizId, Quiz(quizId, title, [], h), Quiz(quizId, title, quizzes[quizId].questionIds, h));
      if err.Some? {
        return Err(err.value), created;
      }
      return Ok(quizId), created;
    }

    /** create_quiz: validate the title and the payload list, then get-or-insert keyed
        by the quiz hash. On a miss the new quiz is stored first and its question list is
        filled one payload at a time (StoreNewQuiz, FillQuestions, FillStep), so a ValueError from create_question
        leaves the quiz stored with the ids gathered so far. */
    method CreateQuiz(title: string, payloads: seq<Payload>) returns (r: Result<Id>, ghost created: Option<Id>)
      requires Valid()
      modifies this
      ensures Valid()
      ensures results == old(results)
      ensures IsBlank(title) ==>
        && r == Err("Invalid title") && created == None
        && quizzes == old(quizzes) && questions == old(questions) && minted == old(minted)
      ensures !IsBlank(title) && !AllComplete(payloads) ==>
        && r == Err("Invalid questions data") && created == None
        && quizzes == old(quizzes) && questions == old(questions) && minted == old(minted)
      ensures !IsBlank(title) && AllComplete(payloads) && QuizHashStored(old(quizzes), HashQuiz(md5, title, payloads)) ==>
        && r.Ok? && r.value in old(quizzes) && old(quizzes)[r.value].hash == HashQuiz(md5, title, payloads)
        && created == None
        && quizzes == old(quizzes) && questions == old(questions) && minted == old(minted)
      ensures !IsBlank(title) && AllComplete(payloads) && !QuizHashStored(old(quizzes), HashQuiz(md5, title, payloads)) ==>
        && created.Some? && created.value !in old(quizzes) && created.value in quizzes
        && var id, ids := created.value, quizzes[created.value].questionIds;
        && quizzes == old(quizzes)[id := Quiz(id, title, ids, HashQuiz(md5, title, payloads))]
        && IdsMatch(md5, questions, ids, payloads)
        && Extends(old(questions), questions)
        && NewFrom(old(questions), questions, ids, payloads)
        && (r.Ok? ==> r.value == id && |ids| == |payloads|)
        && (r.Err? ==>
              && |ids| < |payloads|
              && !QuestionHashStored(questions, PayloadHash(md5, payloads[|ids|]))
              && PayloadError(payloads[|ids|]) == Some(r.error))
        && old(minted) < minted
    {
      created := None;
      if IsBlank(title) {
        return Err("Invalid title"), created;
      }
      if !AllComplete(payloads) {
        return Err("Invalid questions data"), created;
      }
      var h := HashQuiz(md5, title, payloads);
      var existing := FindQuizByHash(h);
      assert quizzes == old(quizzes) && questions == old(questions) && minted == old(minted);
      if existing.Some? {
        return Ok(existing.value), created;
      }
      r, created := StoreNewQuiz(title, payloads);
    }

    /** submit_answer: four fail-fast checks that return (None, message) with nothing
        changed; otherwise the user's record for the quiz is created if missing, one answer
        record is appended and the score goes up by one exactly when the answer is right. */
    method SubmitAnswer(quizId: Id, questionId: Id, userId: string, selected: int) returns (out: Outcome)
      requires Valid()
      modifies this`results
      ensures Valid()
      ensures SubmitError(quizzes, questions, quizId, questionId, userId, selected).Some? ==>
        && out == Rejected(SubmitError(quizzes, questions, quizId, questionId, userId, selected).value)
        && results == old(results)
      ensures SubmitError(quizzes, questions, quizId, questionId, userId, selected).None? ==>
        && var q := questions[questionId];
        && var a := Answer(questionId, selected, selected == q.correctOption);
        && results == Posted(old(results), quizId, userId, a)
        && out == Graded(a.isCorrect, if a.isCorrect then None else Some(q.correctOption))
    {
      if quizId !in quizzes {
        return Rejected("Quiz not found");
      }
      if questionId !in questions {
        return Rejected("Question not found");
      }
      if IsBlank(userId) {
        return Rejected("Invalid user ID");
      }
      if selected < 0 || selected >= |questions[questionId].options| {
        return Rejected("Invalid selected option");
      }
      assert SubmitError(quizzes, questions, quizId, questionId, userId, selected) == None;
      var correctOption := questions[questionId].correctOption;
      var isCorrect := selected == correctOption;
      var a := Answer(questionId, selected, isCorrect);
      RecordAnswer(quizId, userId, a);
      out := Graded(isCorrect, if isCorrect then None else Some(correctOption));
    }

    /** The write half of submit_answer: results[quiz_id] and results[quiz_id][user_id] are
        created if missing ({} and {'score': 0, 'answers': []}), the answer record is
        appended, and the score is bumped when the answer is right. */
    method RecordAnswer(quizId: Id, userId: string, a: Answer)
      requires quizId in quizzes && LedgerValid()
      modifies this`results
      ensures results == Posted(old(results), quizId, userId, a)
      ensures LedgerValid()
    {
      ghost var users0 := UsersOf(results, quizId);
      ghost var rec0 := ResultOf(results, quizId, userId);
      if quizId !in results {
        results := results[quizId := map[]];
      }
      ghost var base := results;
      assert base == old(results)[quizId := users0] by {
        if quizId in old(results) { assert old(results)[quizId := users0] == old(results); }
      }
      if userId !in results[quizId] {
        results := results[quizId := results[quizId][userId := NoAnswers]];
        OverwriteTwice(old(results), quizId, users0, users0[userId := NoAnswers]);
      } else {
        assert users0[userId := rec0] == users0;
      }
      assert results == old(results)[quizId := users0[userId := rec0]];
      var rec := results[quizId][userId];
      assert rec == rec0;
      ghost var rec1 := rec0.(answers := rec0.answers + [a]);
      results := results[quizId := results[quizId][userId := rec.(answers := rec.answers + [a])]];
      OverwriteTwice(old(results), quizId, users0[userId := rec0], users0[userId := rec0][userId := rec1]);
      OverwriteTwice(users0, userId, rec0, rec1);
      assert results == old(results)[quizId := users0[userId := rec1]];
      if a.isCorrect {
        rec := results[quizId][userId];
        assert rec == rec1;
        results := results[quizId := results[quizId][userId := rec.(score := rec.score + 1)]];
        OverwriteTwice(old(results), quizId, users0[userId := rec1], users0[userId := rec1][userId := rec1.(score := rec1.score + 1)]);
        OverwriteTwice(users0, userId, rec1, rec1.(score := rec1.score + 1));
        assert Record(rec0, a) == rec1.(score := rec1.score + 1);
      } else {
        assert Record(rec0, a) == rec1;
      }
      assert results == old(results)[quizId := users0[userId := Record(rec0, a)]];
      assert results == Posted(old(results), quizId, userId, a);
      PostedKeepsConsistent(old(results), quizId, userId, a);
    }
  }

  /** A create_quiz that raised partway through has already stored the quiz under its full
      quiz hash, so the same call made again finds that quiz and returns its id without an
      error, even though the quiz holds fewer questions than the payload list. */
  method RetryAfterPartialQuiz(s: QuizStore, title: string, payloads: seq<Payload>)
    returns (first: Result<Id>, ghost created: Option<Id>, second: Result<Id>)
    requires s.Valid()
    modifies s
    ensures s.Valid()
    ensures first.Err? && created.Some? ==>
      && second == Ok(created.value)
      && created.value in s.quizzes && |s.quizzes[created.value].questionIds| < |payloads|
  {
    first, created := s.CreateQuiz(title, payloads);
    ghost var ids: seq<Id> := [];
    if first.Err? && created.Some? {
      ids := s.quizzes[created.value].questionIds;
      assert s.quizzes[created.value].hash == HashQuiz(s.md5, title, payloads);
      assert QuizHashStored(s.quizzes, HashQuiz(s.md5, title, payloads));
    }
    ghost var again;
    second, again := s.CreateQuiz(title, payloads);
    if first.Err? && created.Some? {
      assert s.quizzes[created.value].questionIds == ids;
    }
  }
}
