/** The answer-selection path of the FAQ chatbot (main.py): the FAQ
    table, the list of its questions and their normalised forms, and the
    `chatbot` function that answers with the entry whose question scores
    highest against the user's input. The TF-IDF vectoriser and cosine
    similarity are not modelled; the scores they produce are an input. */
module Matcher {
  import opened Normalizer

  /** One key/value pair of the `faqs` dictionary. */
  datatype Faq = Faq(question: string, answer: string)

  /** What `chatbot` produces: an answer, or, for an empty table,
      `NoCandidates`, which stands for the program failing on an empty
      table (the vectoriser fit at main.py line 37 raises before
      `chatbot` can run). */
  datatype Reply = Answer(text: string) | NoCandidates

  datatype Option<T> = None | Some(value: T)

  /** A Python dictionary never holds the same key twice. */
  predicate DistinctQuestions(faqs: seq<Faq>) {
    forall i, j :: 0 <= i < j < |faqs| ==> faqs[i].question != faqs[j].question
  }

  /** `a` is the answer of some entry of the table. */
  predicate IsStoredAnswer(faqs: seq<Faq>, a: string) {
    exists i :: 0 <= i < |faqs| && faqs[i].answer == a
  }

  /** `list(faqs.keys())` (main.py line 33): the questions in the
      dictionary's insertion order. */
  function Questions(faqs: seq<Faq>): (qs: seq<string>)
    ensures |qs| == |faqs|
    ensures forall i :: 0 <= i < |faqs| ==> qs[i] == faqs[i].question
  {
    if faqs == [] then [] else [faqs[0].question] + Questions(faqs[1..])
  }

  /** `[preprocess(q) for q in questions]` (main.py line 34): position
      `i` holds the normalised form of question `i`. */
  function ProcessedQuestions(qs: seq<string>, stop: set<string>): (ps: seq<string>)
    ensures |ps| == |qs|
    ensures forall i :: 0 <= i < |qs| ==> ps[i] == Preprocess(qs[i], stop)
  {
    if qs == [] then [] else [Preprocess(qs[0], stop)] + ProcessedQuestions(qs[1..], stop)
  }

  /** `faqs[q]`: the answer stored under question `q`, if any. */
  function Lookup(faqs: seq<Faq>, q: string): (r: Option<string>)
    ensures r.None? <==> forall i :: 0 <= i < |faqs| ==> faqs[i].question != q
    ensures r.Some? ==> exists i :: 0 <= i < |faqs| && faqs[i] == Faq(q, r.value)
  {
    if faqs == [] then None
    else if faqs[0].question == q then Some(faqs[0].answer)
    else
      var r := Lookup(faqs[1..], q);
      assert forall i :: 1 <= i < |faqs| ==> faqs[i] == faqs[1..][i - 1];
      r
  }

  /** `i` is the first position holding the largest score. */
  predicate IsFirstMax(scores: seq<real>, i: nat) {
    && i < |scores|
    && (forall j :: 0 <= j < |scores| ==> scores[j] <= scores[i])
    && (forall j :: 0 <= j < i ==> scores[j] < scores[i])
  }

  /** numpy's `argmax` (main.py line 45): the first index of the largest
      score. numpy raises on an empty array, hence the precondition. */
  function ArgMax(scores: seq<real>): (i: nat)
    requires |scores| > 0
    ensures i < |scores|
    ensures forall j :: 0 <= j < |scores| ==> scores[j] <= scores[i]
    ensures forall j :: 0 <= j < i ==> scores[j] < scores[i]
  {
    if |scores| == 1 then 0
    else
      var k := ArgMax(scores[..|scores| - 1]);
      assert forall j :: 0 <= j < |scores| - 1 ==> scores[..|scores| - 1][j] == scores[j];
      if scores[|scores| - 1] > scores[k] then |scores| - 1 else k
  }

  /** The first maximum is unique: `ArgMax` is the only index with both
      properties. */
  lemma ArgMaxUnique(scores: seq<real>, i: nat)
    requires |scores| > 0
    ensures IsFirstMax(scores, i) <==> i == ArgMax(scores)
  {
  }

  /** `faqs[questions[best_match]]` (main.py lines 45-47) for a given
      row of similarity scores, one per question. */
  function SelectAnswer(faqs: seq<Faq>, scores: seq<real>): (r: Reply)
    requires |scores| == |faqs|
    requires DistinctQuestions(faqs)
    ensures r == NoCandidates <==> faqs == []
    ensures r.Answer? ==> IsStoredAnswer(faqs, r.text)
    ensures faqs != [] ==> r == Answer(faqs[ArgMax(scores)].answer)
  {
    if faqs == [] then NoCandidates
    else
      var i := ArgMax(scores);
      LookupAt(faqs, i);
      match Lookup(faqs, Questions(faqs)[i])
      case Some(a) => Answer(a)
      case None => NoCandidates
  }

  /** With distinct keys, looking up question `i` yields answer `i`. */
  lemma LookupAt(faqs: seq<Faq>, i: nat)
    requires DistinctQuestions(faqs)
    requires i < |faqs|
    ensures Lookup(faqs, faqs[i].question) == Some(faqs[i].answer)
  {
  }

  /** The similarity row of main.py line 44: the normalised input
      (line 41) scored against every normalised question (line 34).
      `similarity` stands for TF-IDF projection and cosine similarity. */
  function QueryScores(faqs: seq<Faq>, stop: set<string>,
                       similarity: (string, seq<string>) -> seq<real>, input: string): seq<real> {
    similarity(Preprocess(input, stop), ProcessedQuestions(Questions(faqs), stop))
  }

  /** `chatbot(user_input)` (main.py lines 40-47): answer with the entry
      of the first best score of the input against the questions. There
      is no threshold: a non-empty table always yields an answer. */
  function Chatbot(faqs: seq<Faq>, stop: set<string>,
                   similarity: (string, seq<string>) -> seq<real>, input: string): (r: Reply)
    requires DistinctQuestions(faqs)
    requires |QueryScores(faqs, stop, similarity, input)| == |faqs|
    ensures faqs != [] ==> r.Answer? && IsStoredAnswer(faqs, r.text)
    ensures faqs != [] ==> r.text == faqs[ArgMax(QueryScores(faqs, stop, similarity, input))].answer
  {
    SelectAnswer(faqs, QueryScores(faqs, stop, similarity, input))
  }

  /** The `faqs` dictionary of main.py lines 16-22: five entries whose
      questions are pairwise different, as a dictionary's keys are. */
  function DefaultFaqs(): (faqs: seq<Faq>)
    ensures |faqs| == 5
    ensures DistinctQuestions(faqs)
  {
    var faqs := [
      Faq("What is your return policy?", "You can return products within 7 days."),
      Faq("How can I contact support?", "You can contact support via email or phone."),
      Faq("Do you offer home delivery?", "Yes, we provide home delivery all over Pakistan."),
      Faq("What payment methods are accepted?", "We accept cash, debit card, and online transfer."),
      Faq("Where are you located?", "We are located in Karachi, Pakistan.")
    ];
    assert |faqs[0].question| == 27 && |faqs[1].question| == 26 && |faqs[2].question| == 27;
    assert |faqs[3].question| == 34 && |faqs[4].question| == 22;
    assert faqs[0].question[0] == 'W' && faqs[2].question[0] == 'D';
    faqs
  }

  /** Whatever scores the vectoriser yields for an input, the chatbot
      answers over the shipped table with one of its five answers: there
      is no "no match" reply. */
  lemma DefaultFaqsAlwaysAnswer(scores: seq<real>)
    requires |scores| == 5
    ensures SelectAnswer(DefaultFaqs(), scores).Answer?
    ensures IsStoredAnswer(DefaultFaqs(), SelectAnswer(DefaultFaqs(), scores).text)
  {
  }
}
