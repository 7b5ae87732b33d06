/** Content fingerprints of questions and quizzes (hash_question and hash_quiz).
    The MD5 digest itself is a parameter `md5`: every fact proved here holds for
    every digest function, so none of it depends on what MD5 computes. */
module Hashing {
  import opened Wrappers
  import opened PyStr

  /** One entry of a create_quiz payload list: a dict whose keys may be missing (None). */
  datatype Payload = Payload(text: Option<string>, options: Option<seq<string>>, correctOption: Option<int>)

  /** The dict has the two keys hash_question reads. */
  predicate Hashable(p: Payload) {
    p.text.Some? && p.options.Some?
  }

  predicate AllHashable(ps: seq<Payload>) {
    forall i :: 0 <= i < |ps| ==> Hashable(ps[i])
  }

  /** The string hash_question feeds to MD5: the text followed by the options, with no separator. */
  function QuestionHashInput(text: string, options: seq<string>): string {
    text + Join(options)
  }

  /** hash_question(text, options). With no separator, the first option might as well
      be the end of the text, and with no options the hash is that of the text alone. */
  function HashQuestion(md5: string -> string, text: string, options: seq<string>): (h: string)
    ensures options == [] ==> h == md5(text)
    ensures options != [] ==> h == md5(text + options[0] + Join(options[1..]))
  {
    assert options == [] ==> text + Join(options) == text;
    assert options != [] ==> text + Join(options) == text + options[0] + Join(options[1..]);
    md5(QuestionHashInput(text, options))
  }

  /** hash_question(q['text'], q['options']) for one payload. */
  function PayloadHash(md5: string -> string, p: Payload): string
    requires Hashable(p)
  {
    HashQuestion(md5, p.text.value, p.options.value)
  }

  /** The list comprehension of hash_quiz: one question hash per payload, in payload order. */
  function QuestionHashes(md5: string -> string, ps: seq<Payload>): seq<string>
    requires AllHashable(ps)
  {
    if ps == [] then [] else [PayloadHash(md5, ps[0])] + QuestionHashes(md5, ps[1..])
  }

  /** The i-th question hash is the hash of the i-th payload. */
  lemma {:induction false} QuestionHashesAt(md5: string -> string, ps: seq<Payload>)
    requires AllHashable(ps)
    ensures |QuestionHashes(md5, ps)| == |ps|
    ensures forall i :: 0 <= i < |ps| ==> QuestionHashes(md5, ps)[i] == PayloadHash(md5, ps[i])
  {
    if ps != [] {
      QuestionHashesAt(md5, ps[1..]);
    }
  }

  /** hash_quiz(title, questions_data): the digest of the title followed by the question
      hashes in ascending order. */
  function HashQuiz(md5: string -> string, title: string, ps: seq<Payload>): string
    requires AllHashable(ps)
  {
    md5(title + Join(Sort(QuestionHashes(md5, ps))))
  }

  /** The quiz hash is the digest of the title followed by ANY ascending arrangement of
      the question hashes, so it does not depend on how sorted() orders them. */
  lemma HashQuizAnySortedOrder(md5: string -> string, title: string, ps: seq<Payload>, hs: seq<string>)
    requires AllHashable(ps)
    requires Sorted(hs) && multiset(hs) == multiset(QuestionHashes(md5, ps))
    ensures HashQuiz(md5, title, ps) == md5(title + Join(hs))
  {
    SortedArrangementIsSort(QuestionHashes(md5, ps));
  }

  /** Two questions get the same hash for every digest function exactly when their
      text-then-options strings coincide: the hash sees nothing else (not the
      correct option, not where the text ends and the options begin). */
  lemma HashQuestionExactlyDependsOnInput(t1: string, o1: seq<string>, t2: string, o2: seq<string>)
    ensures (forall md5: string -> string :: HashQuestion(md5, t1, o1) == HashQuestion(md5, t2, o2))
        <==> QuestionHashInput(t1, o1) == QuestionHashInput(t2, o2)
  {
    var id := (s: string) => s;
    if QuestionHashInput(t1, o1) != QuestionHashInput(t2, o2) {
      assert HashQuestion(id, t1, o1) != HashQuestion(id, t2, o2);
    }
  }

  /** Moving the first k options onto the end of the text does not change the hash. */
  lemma HashQuestionRegroup(md5: string -> string, text: string, options: seq<string>, k: nat)
    requires k <= |options|
    ensures HashQuestion(md5, text + Join(options[..k]), options[k..]) == HashQuestion(md5, text, options)
  {
    assert options == options[..k] + options[k..];
    JoinAppend(options[..k], options[k..]);
    assert (text + Join(options[..k])) + Join(options[k..]) == text + (Join(options[..k]) + Join(options[k..]));
  }

  /** A concrete clash: "ab" with option "c" and "a" with options "b", "c" are one question to the store. */
  lemma HashQuestionCollision(md5: string -> string)
    ensures HashQuestion(md5, "ab", ["c"]) == HashQuestion(md5, "a", ["b", "c"])
  {
    assert ["c"][1..] == [] && ["b", "c"][1..] == ["c"];
    assert QuestionHashInput("ab", ["c"]) == "abc";
    assert QuestionHashInput("a", ["b", "c"]) == "abc";
  }

  /** The correct option of a payload never reaches its hash. */
  lemma PayloadHashIgnoresCorrectOption(md5: string -> string, p: Payload, c: Option<int>)
    requires Hashable(p)
    ensures Hashable(p.(correctOption := c))
    ensures PayloadHash(md5, p.(correctOption := c)) == PayloadHash(md5, p)
  {
  }

  lemma {:induction false} QuestionHashesAppend(md5: string -> string, a: seq<Payload>, b: seq<Payload>)
    requires AllHashable(a) && AllHashable(b)
    ensures AllHashable(a + b)
    ensures QuestionHashes(md5, a + b) == QuestionHashes(md5, a) + QuestionHashes(md5, b)
  {
    assert AllHashable(a + b) by {
      forall i | 0 <= i < |a + b| ensures Hashable((a + b)[i]) {
        if i >= |a| { assert (a + b)[i] == b[i - |a|]; }
      }
    }
    QuestionHashesAt(md5, a);
    QuestionHashesAt(md5, b);
    QuestionHashesAt(md5, a + b);
    forall i | 0 <= i < |a + b|
      ensures QuestionHashes(md5, a + b)[i] == (QuestionHashes(md5, a) + QuestionHashes(md5, b))[i]
    {
      if i >= |a| { assert (a + b)[i] == b[i - |a|]; }
    }
  }

  /** Every payload of a sub-collection of a hashable list is hashable. */
  lemma HashableWithin(ps: seq<Payload>, qs: seq<Payload>)
    requires AllHashable(ps) && multiset(qs) <= multiset(ps)
    ensures AllHashable(qs)
  {
    forall k | 0 <= k < |qs| ensures Hashable(qs[k]) {
      assert qs[k] in multiset(ps);
      var j :| 0 <= j < |ps| && ps[j] == qs[k];
    }
  }

  /** The payloads before and after position i of a hashable list are hashable. */
  lemma HashableAround(ps: seq<Payload>, i: nat)
    requires AllHashable(ps) && i < |ps|
    ensures AllHashable(ps[..i]) && AllHashable(ps[i + 1..])
  {
    var tail := ps[i + 1..];
    forall k | 0 <= k < |tail| ensures Hashable(tail[k]) {
      assert tail[k] == ps[i + 1 + k];
    }
  }

  /** Taking one payload out of the middle of a list takes its hash out of the list's hashes. */
  lemma QuestionHashesSplice(md5: string -> string, before: seq<Payload>, x: Payload, after: seq<Payload>)
    requires AllHashable(before) && Hashable(x) && AllHashable(after)
    ensures AllHashable(before + [x] + after) && AllHashable(before + after)
    ensures multiset(QuestionHashes(md5, before + [x] + after))
         == multiset(QuestionHashes(md5, before + after)) + multiset{PayloadHash(md5, x)}
  {
    QuestionHashesAppend(md5, [x], after);
    QuestionHashesAppend(md5, before, [x] + after);
    QuestionHashesAppend(md5, before, after);
    assert before + [x] + after == before + ([x] + after);
  }

  /** Striking the first element of ps, and the same element at position i of a
      permutation qs, leaves two permutations of each other. */
  lemma RemoveMatchingHead(ps: seq<Payload>, qs: seq<Payload>, i: nat)
    requires multiset(ps) == multiset(qs) && ps != [] && i < |qs| && qs[i] == ps[0]
    ensures qs == qs[..i] + [ps[0]] + qs[i + 1..]
    ensures multiset(qs[..i] + qs[i + 1..]) == multiset(ps[1..])
  {
    var rest := qs[..i] + qs[i + 1..];
    assert qs == qs[..i] + [qs[i]] + qs[i + 1..];
    assert multiset(qs) == multiset(rest) + multiset{qs[i]};
    assert ps == [ps[0]] + ps[1..];
    assert multiset(ps) == multiset{ps[0]} + multiset(ps[1..]);
    assert multiset(rest) == multiset(qs) - multiset{qs[i]};
    assert multiset(ps[1..]) == multiset(ps) - multiset{ps[0]};
  }

  /** Reordering the payloads reorders their question hashes and nothing more. */
  lemma {:induction false} QuestionHashesRespectPermutation(md5: string -> string, ps: seq<Payload>, qs: seq<Payload>)
    requires AllHashable(ps) && multiset(ps) == multiset(qs)
    ensures AllHashable(qs)
    ensures multiset(QuestionHashes(md5, ps)) == multiset(QuestionHashes(md5, qs))
    decreases |ps|
  {
    HashableWithin(ps, qs);
    if ps == [] {
      assert |qs| == |multiset(qs)| == 0;
    } else {
      var x := ps[0];
      assert x in multiset(qs);
      assert x in qs;
      var i :| 0 <= i < |qs| && qs[i] == x;
      var before, after := qs[..i], qs[i + 1..];
      var rest := before + after;
      RemoveMatchingHead(ps, qs, i);
      HashableAround(qs, i);
      HashableAround(ps, 0);
      QuestionHashesRespectPermutation(md5, ps[1..], rest);
      QuestionHashesSplice(md5, before, x, after);
      var hs := QuestionHashes(md5, ps);
      assert hs == [PayloadHash(md5, x)] + QuestionHashes(md5, ps[1..]);
      assert multiset(hs) == multiset(QuestionHashes(md5, ps[1..])) + multiset{PayloadHash(md5, x)};
    }
  }

  /** The quiz hash depends on the question hashes only as a collection: their order
      does not matter, how often each occurs does. */
  lemma HashQuizDeterminedByQuestionHashes(md5: string -> string, title: string, ps: seq<Payload>, qs: seq<Payload>)
    requires AllHashable(ps) && AllHashable(qs)
    requires multiset(QuestionHashes(md5, ps)) == multiset(QuestionHashes(md5, qs))
    ensures HashQuiz(md5, title, ps) == HashQuiz(md5, title, qs)
  {
    SortDeterminedByMultiset(QuestionHashes(md5, ps), QuestionHashes(md5, qs));
  }

  /** Any permutation of the payload list gives the same quiz hash. */
  lemma HashQuizIgnoresOrder(md5: string -> string, title: string, ps: seq<Payload>, qs: seq<Payload>)
    requires AllHashable(ps) && multiset(ps) == multiset(qs)
    ensures AllHashable(qs)
    ensures HashQuiz(md5, title, ps) == HashQuiz(md5, title, qs)
  {
    QuestionHashesRespectPermutation(md5, ps, qs);
    HashQuizDeterminedByQuestionHashes(md5, title, ps, qs);
  }

  /** With no payloads the quiz hash is the digest of the title alone. */
  lemma HashQuizOfNoQuestions(md5: string -> string, title: string)
    ensures HashQuiz(md5, title, []) == md5(title)
  {
    assert title + "" == title;
  }

  /** hash_quiz has the same clash as hash_question: the title and the question hashes are
      joined with no separator, so a quiz with one question hashes like a quiz with no
      questions whose title ends in that question's hash. */
  lemma HashQuizTitleCollision(md5: string -> string, title: string, p: Payload)
    requires Hashable(p)
    ensures HashQuiz(md5, title + PayloadHash(md5, p), []) == HashQuiz(md5, title, [p])
  {
    var h := PayloadHash(md5, p);
    assert [p][1..] == [];
    assert QuestionHashes(md5, [p]) == [h];
    assert Sort([h]) == [h] by {
      assert [h][1..] == [];
    }
    assert Join([h]) == h by {
      assert [h][1..] == [];
    }
    assert title + h + "" == title + h;
  }
}
