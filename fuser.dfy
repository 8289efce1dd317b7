/**
 * The decision fuser (`analyze`, ru.py:77-124): validates the request, runs the
 * lexical stage, and only when it finds nothing asks the contextual classifier,
 * whose label then decides. The HTTP layer is left out: the request is its
 * `text` field and the response is the JSON payload as a datatype.
 */
module Fuser {
  import opened Wrappers
  import opened Normalizer
  import opened Matcher

  /**
   * What the contextual classifier (`detect_kobert`, ru.py:58-67) returns: the
   * predicted class and the confidence it reports (already rounded).
   */
  datatype Verdict = Verdict(prediction: int, confidence: real)

  /** The contextual classifier as an opaque scoring capability over the raw text. */
  type Classifier = string -> Verdict

  /** The request body; `text` is None when the field is missing. */
  datatype Request = Request(text: Option<string>)

  /** The `fasttext` part of the payload. */
  datatype LexicalFindings = LexicalFindings(isBad: int, detectedWords: seq<string>)

  /** The `kobert` part of the payload; both fields are `null` when the classifier was skipped. */
  datatype ContextualFindings = ContextualFindings(isBad: Option<int>, confidence: Option<real>)

  /** The `result` part of the payload. */
  datatype TextEcho = TextEcho(originalText: string, rewrittenText: string)

  /** The response: a client error for a missing text, or the analysis payload. */
  datatype Response =
    | Rejected(status: int, error: string)
    | Analyzed(fasttext: LexicalFindings, kobert: ContextualFindings, result: TextEcho, finalDecision: int)

  /** A detector invocation, in the order analyze performs them, with the text it was handed. */
  datatype Stage = LexicalCheck(input: string) | ContextualCheck(input: string)

  /** The message of the validation error ("the text field is required"). */
  const MissingText: string := "text 필드가 필요합니다"

  /** `data.get("text", "")`: the request text, empty when the field is missing. */
  function RequestText(req: Request): string {
    req.text.GetOr([])
  }

  /** `1 if pred == 1 else 0`: any label other than 1 counts as not abusive. */
  function LabelBit(v: Verdict): (bit: int)
    ensures bit == 0 || bit == 1
    ensures bit == 1 <==> v.prediction == 1
  {
    if v.prediction == 1 then 1 else 0
  }

  /**
   * The fused verdict: abusive when the lexical stage reports anything,
   * otherwise whatever the classifier says about the raw text.
   */
  function Decision(text: string, terms: set<string>, classify: Classifier): int {
    if Matches(text, terms) != {} then 1 else LabelBit(classify(text))
  }

  /**
   * `analyze`: builds the payload with null contextual fields and decision 0,
   * then updates it on the branch taken. `trace` records each detector call.
   */
  method Analyze(req: Request, terms: set<string>, classify: Classifier) returns (resp: Response, trace: seq<Stage>)
    ensures resp.Rejected? <==> RequestText(req) == []
    ensures resp.Rejected? ==> resp == Rejected(400, MissingText) && trace == []
    ensures resp.Analyzed? ==>
      var text := RequestText(req);
      var words := resp.fasttext.detectedWords;
      && resp.result == TextEcho(text, text)
      && Distinct(words)
      && (forall w :: w in words <==> w in Matches(text, terms))
      && resp.fasttext.isBad == (if words != [] then 1 else 0)
      && resp.finalDecision == Decision(text, terms, classify)
      && (words != [] ==>
            && resp.kobert == ContextualFindings(None, None)
            && resp.finalDecision == 1
            && trace == [LexicalCheck(text)])
      && (words == [] ==>
            && resp.kobert == ContextualFindings(Some(LabelBit(classify(text))), Some(classify(text).confidence))
            && resp.finalDecision == resp.kobert.isBad.value
            && trace == [LexicalCheck(text), ContextualCheck(text)])
  {
    var text := RequestText(req);
    if text == [] {
      return Rejected(400, MissingText), [];
    }
    var detected := Detect(text, terms);
    trace := [LexicalCheck(text)];
    var lexicalHit := if |detected| > 0 then 1 else 0;
    resp := Analyzed(LexicalFindings(lexicalHit, detected), ContextualFindings(None, None), TextEcho(text, text), 0);
    if lexicalHit == 1 {
      resp := resp.(finalDecision := 1);
    } else {
      var verdict := classify(text);
      trace := trace + [ContextualCheck(text)];
      var contextualHit := if verdict.prediction == 1 then 1 else 0;
      resp := resp.(kobert := ContextualFindings(Some(contextualHit), Some(verdict.confidence)));
      if contextualHit == 1 {
        resp := resp.(finalDecision := 1);
      }
    }
  }

  /**
   * The verdict is binary, and abusive exactly when a non-empty term occurs in
   * the cleaned text or the classifier labels the raw text 1.
   */
  lemma DecisionAbusiveIff(text: string, terms: set<string>, classify: Classifier)
    ensures Decision(text, terms, classify) in {0, 1}
    ensures Decision(text, terms, classify) == 1 <==>
      (exists w :: w in terms && w != [] && Occurs(w, Clean(text))) || classify(text).prediction == 1
  {
    if exists w :: w in terms && w != [] && Occurs(w, Clean(text)) {
      var w :| w in terms && w != [] && Occurs(w, Clean(text));
      assert w in Matches(text, terms);
    }
  }

  /** When the lexical stage fires, the classifier has no say: any two classifiers give 1. */
  lemma LexicalStageIsAuthoritative(text: string, terms: set<string>, classify: Classifier, other: Classifier)
    requires Matches(text, terms) != {}
    ensures Decision(text, terms, classify) == 1 == Decision(text, terms, other)
  {
  }

  /** Adding terms to the store never turns an abusive verdict into a neutral one. */
  lemma DecisionMonotoneInTerms(text: string, terms: set<string>, more: set<string>, classify: Classifier)
    requires terms <= more
    ensures Decision(text, terms, classify) <= Decision(text, more, classify)
  {
    MatchesMonotone(text, terms, more);
  }

  /**
   * Punctuation or Latin letters inserted into the text cannot hide a term
   * from the lexical stage: a verdict reached lexically survives the insertion.
   */
  lemma LexicalVerdictSurvivesNoise(a: string, c: char, b: string, terms: set<string>, classify: Classifier)
    requires !IsAllowed(c) && Matches(a + b, terms) != {}
    ensures Decision(a + [c] + b, terms, classify) == 1
  {
    InsertedDeletedCharIsIgnored(a, c, b, terms);
  }

  /** Greeting text holds no term of a one-term store. */
  lemma GreetingHasNoMatch()
    ensures Matches("안녕하세요", {"씨발"}) == {}
  {
    assert AllAllowed("안녕하세요") by {
      forall i | 0 <= i < 5 ensures IsHangulSyllable("안녕하세요"[i]) {
        assert "안녕하세요"[i] in {'안', '녕', '하', '세', '요'};
      }
    }
    MatchesOnCleanText("안녕하세요", {"씨발"});
    FirstCharAbsent("씨발", "안녕하세요");
  }

  /** A deleted character between two kept ones disappears from the cleaned text. */
  lemma DeletedBetweenKept(x: char, c: char, y: char)
    requires IsAllowed(x) && !IsAllowed(c) && IsAllowed(y)
    ensures Clean([x, c, y]) == [x, y]
  {
    assert [x, c, y][1..] == [c, y];
    assert [c, y][1..] == [y];
    assert [y][1..] == [];
  }

  /** Cleaning deletes the punctuation between two syllables. */
  lemma PunctuationIsDeleted()
    ensures Clean("씨!발") == "씨발"
  {
    assert "씨!발" == ['씨', '!', '발'];
    DeletedBetweenKept('씨', '!', '발');
  }

  /**
   * A term split by punctuation is still found, because matching runs on the
   * cleaned text: the term does not occur in the raw text.
   */
  lemma PunctuatedTermMatches()
    ensures !Occurs("씨발", "씨!발")
    ensures Matches("씨!발", {"씨발"}) == {"씨발"}
  {
    PunctuationIsDeleted();
    assert Occurs("씨발", "씨발");
    assert "씨발" in Matches("씨!발", {"씨발"});
  }

  /** A neutral classifier verdict on text with no term gives a fully populated neutral response. */
  method NeutralScenario()
  {
    GreetingHasNoMatch();
    var resp, trace := Analyze(Request(Some("안녕하세요")), {"씨발"}, (t: string) => Verdict(0, 0.91));
    assert resp.finalDecision == 0 && resp.fasttext.isBad == 0;
    assert resp.kobert == ContextualFindings(Some(0), Some(0.91));
    assert trace == [LexicalCheck("안녕하세요"), ContextualCheck("안녕하세요")];
  }

  /** A known term in the text short-circuits: the classifier is never asked. */
  method LexicalScenario()
  {
    PunctuatedTermMatches();
    var resp, trace := Analyze(Request(Some("씨!발")), {"씨발"}, (t: string) => Verdict(0, 0.99));
    assert "씨발" in resp.fasttext.detectedWords;
    assert resp.fasttext.isBad == 1;
    assert resp.kobert == ContextualFindings(None, None) && resp.finalDecision == 1;
    assert trace == [LexicalCheck("씨!발")];
  }

  /** An empty or missing text is rejected before either detector runs. */
  method EmptyScenario()
  {
    var resp, trace := Analyze(Request(Some("")), {"씨발"}, (t: string) => Verdict(1, 1.0));
    assert resp == Rejected(400, MissingText) && trace == [];
    resp, trace := Analyze(Request(None), {"씨발"}, (t: string) => Verdict(1, 1.0));
    assert resp == Rejected(400, MissingText) && trace == [];
  }
}
