# Two-stage abusive-text decision engine

This project is a Dafny model of the serving logic of a Korean abusive-language detector (`ru.py`). A request's text goes through two stages:

1. **Lexical stage.** The text is cleaned: every character is deleted except CJK Unified Ideographs (U+4E00..U+9FFF) and Extension A (U+3400..U+4DBF), Hangul syllables 가..힣 (U+AC00..U+D7A3), the compatibility jamo ㄱ..ㅎ and ㅏ..ㅣ (U+3131..U+3163), ASCII digits and Python's Unicode whitespace. Other compatibility jamo (such as ㆍ U+318D and the filler U+3164) and CJK Compatibility Ideographs (U+F900..U+FAFF) are deleted. Each term of a term set, loaded once from a line-oriented file, is then tested as a substring of the cleaned text.
2. **Contextual stage.** It runs only when the lexical stage finds nothing. A neural classifier scores the raw, uncleaned text, and its label becomes the final decision.

The model has five modules:

- `Wrappers`: `Option`. It stands for JSON `null` and for a missing request field.
- `Normalizer`: `clean_text` as the recursive function `Clean`, over an explicit allow-list of characters. Whitespace is Python's Unicode whitespace: what `\s` matches in a `str` pattern and what `str.strip()` removes.
- `TermStore`: `load_badwords_from_txt` as `LoadTerms`. It is a loop over a sequence of lines that fills a set, and it is proved equal to the specification function `TermsOf`. `Strip` and `FirstField` model `line.strip().split(",")[0]`.
- `Matcher`: `detect_fasttext` as `Detect`. It is a loop that picks terms from the set in an unspecified order and appends the hits. It is proved against `Matches`, the set of non-empty terms that occur in the cleaned text. `Occurs` models Python's `in` on strings.
- `Fuser`: `analyze` as the method `Analyze`. It builds the response payload and then updates it in the branch taken, as the source does with its dictionary. The classifier (`detect_kobert`) is a parameter of type `string -> Verdict`. The out-parameter `trace` lists every detector call and the text passed to it. This is how the contract says which detectors ran. `Decision` is the fused verdict the method is proved against.

The methods `NeutralScenario`, `LexicalScenario` and `EmptyScenario` are clients of `Analyze`. They show what a caller can prove from its contract alone.

## Model

| member | source | states |
|---|---|---|
| `Normalizer.Clean` | ru.py:44-46 | The cleaned text holds only allow-listed characters. It keeps every allowed character of the input, with the same count per character. It is never longer than the input. |
| `Normalizer.CleanIsSubsequence` | ru.py:45 | The cleaned text is the input with characters deleted, in the input's order. |
| `Normalizer.CleanAppend` | ru.py:45 | Cleaning distributes over concatenation: each character is kept or deleted on its own. |
| `Normalizer.DisallowedIsInvisible` | ru.py:45 | Inserting one disallowed character anywhere leaves the cleaned text unchanged. |
| `Normalizer.CleanFixpoint` | ru.py:45 | Cleaning returns its input unchanged exactly when every character of the input is allowed (both directions). |
| `Normalizer.CleanIdempotent` | ru.py:45 | Cleaning already-cleaned text changes nothing. |
| `TermStore.StripLeftSpec` | ru.py:38 | The leading strip removes exactly the longest whitespace prefix. |
| `TermStore.StripRightSpec` | ru.py:38 | The trailing strip removes exactly the longest whitespace suffix. |
| `TermStore.StripSpec` | ru.py:38 | `str.strip()` returns a slice of the line. It is empty exactly when the line is all whitespace; otherwise it starts and ends with non-whitespace. |
| `TermStore.FirstFieldSpec` | ru.py:38 | `split(",")[0]` is a comma-free prefix that stops at the first comma or at the end of the string. |
| `TermStore.LoadTerms` | ru.py:33-41 | The loading loop yields exactly `TermsOf(lines)`, and every loaded term is non-empty and comma-free. |
| `TermStore.TermsOfExactly` | ru.py:35-40 | A string is loaded exactly when it is non-empty and is the first field of some stripped input line (both directions). |
| `TermStore.TermsAreCommaFree` | ru.py:38-40 | No loaded term is empty or holds a comma. |
| `TermStore.TermsStartWithNonSpace` | ru.py:38 | Every loaded term starts with a non-whitespace character, because the whole line is stripped first. |
| `TermStore.NoCommaMeansWholeLine` | ru.py:38 | For a line without a comma, the term is the whole stripped line. |
| `TermStore.TrailingSpaceBeforeCommaIsKept` | ru.py:38 | Whitespace before the comma is kept: `"욕 ,1"` gives the term `"욕 "`. Surrounding whitespace and the line terminator are removed: `"  욕,1\n"` gives `"욕"`. |
| `TermStore.DuplicateLineCollapses` | ru.py:35-40 | Repeating a line adds no term. |
| `TermStore.TermsDependOnLineSetOnly` | ru.py:35-41 | The loaded set depends only on which lines occur, not on their order or how often they repeat. |
| `Matcher.OccursAt` | ru.py:53 | Python's `w in s` holds exactly when `w` is a prefix of some suffix of `s` (both directions). |
| `Matcher.OccursCharsIn` | ru.py:53 | A substring is made of characters of the string it occurs in. |
| `Matcher.FirstCharAbsent` | ru.py:53 | A non-empty string whose first character is not in `s` does not occur in `s`. |
| `Matcher.OccurrenceIsAllowed` | ru.py:45-53 | A substring of cleaned text holds only allowed characters. |
| `Matcher.Detect` | ru.py:49-55 | The detected list holds every non-empty term that occurs in the cleaned text and nothing else. No term appears twice, and the length equals the size of that set. |
| `Matcher.TermWithDeletedCharNeverMatches` | ru.py:45-53 | A term that holds a character cleaning deletes (a Latin letter, punctuation) is never reported, whatever the text. |
| `Matcher.NothingAllowedNoMatch` | ru.py:45-53 | Text with no allowed character yields no match. |
| `Matcher.CleanEmpty` | ru.py:45 | Text made only of disallowed characters cleans to the empty string. |
| `Matcher.InsertedDeletedCharIsIgnored` | ru.py:50-54 | Matching runs on the cleaned text, so inserting a disallowed character does not change the matches. |
| `Matcher.MatchesOnCleanText` | ru.py:50-54 | On text that is already clean, the matches are the non-empty terms that occur in the raw text. |
| `Matcher.MatchesMonotone` | ru.py:52-54 | A larger term set reports at least the same matches. |
| `Fuser.LabelBit` | ru.py:112 | `kobert.is_bad` is 0 or 1, and it is 1 exactly when the classifier predicts class 1. |
| `Fuser.Analyze` | ru.py:78-124 | Missing or empty text gives status 400 with the error message, and no detector runs. Otherwise, `detected_words` lists the matches of the cleaned text without duplicates. `fasttext.is_bad` is 1 exactly when that list is non-empty. Both echo fields equal the input. With a match, `final_decision` is 1, the `kobert` fields are null and only the lexical detector ran. Without one, the classifier ran once on the raw text, `kobert` holds its bit and confidence, and `final_decision` equals `kobert.is_bad`. In both cases `final_decision` equals `Decision`. |
| `Fuser.DecisionAbusiveIff` | ru.py:107-120 | The final decision is 0 or 1. It is 1 exactly when some non-empty term occurs in the cleaned text or the classifier predicts 1 for the raw text (both directions). |
| `Fuser.LexicalStageIsAuthoritative` | ru.py:107-109 | When the lexical stage fires, the decision is 1 whatever the classifier says. |
| `Fuser.DecisionMonotoneInTerms` | ru.py:87-120 | Adding terms to the store never turns an abusive verdict into a neutral one. |
| `Fuser.LexicalVerdictSurvivesNoise` | ru.py:45-109 | Inserting a disallowed character into text that the lexical stage flags keeps the verdict at 1. |
| `Fuser.GreetingHasNoMatch` | ru.py:49-55 | `"안녕하세요"` matches nothing in the store `{"씨발"}`. |
| `Fuser.PunctuationIsDeleted` | ru.py:45 | Cleaning `"씨!발"` gives `"씨발"`. |
| `Fuser.PunctuatedTermMatches` | ru.py:49-55 | `"씨발"` does not occur in the raw text `"씨!발"`, yet it is the one match, because matching uses the cleaned text. |

## Left out

- The HTTP layer (Flask app, routes, `request.get_json`, `jsonify`, the GET home endpoint, `app.run`) is transport. The request is modelled by its `text` field, and the response is modelled as the JSON payload.
- A request body that is not JSON, and a `text` field that is present but not a string (a number, a list, `null`), are not modelled. Python's truthiness test on such values is not modelled either. Only a missing field and a string field are.
- The classifier (`detect_kobert`) is a function parameter. The model does not cover the KoBERT network, tokenization, truncation to 256 tokens, softmax, argmax, device placement, or rounding the confidence to 4 decimals. These are floating-point numerics and foreign library calls. The model passes the confidence through as the classifier reports it.
- An exception raised by the classifier is not modelled. In the source it propagates, and Flask answers 500. A classifier failure is not distinguished from other server errors.
- Confidence bounds of [0, 1] are not stated. Nothing in the serving code enforces them; they come from the softmax inside the classifier.
- Opening and reading the term file is I/O. `LoadTerms` takes the file's lines, with or without their terminators. The file is read as "utf-8", not "utf-8-sig", so a byte-order mark stays at the start of the first line. `str.strip()` does not remove it, and the model keeps it too.
- The order of `detected_words` is unspecified, because the source iterates a Python set. The model picks terms in an arbitrary order. So two calls with the same inputs agree on everything except possibly that order. The source is stricter than the model here: CPython iterates one unchanged set in the same order every time, so within one process two calls also return the list in the same order.
- The `print` logging in `analyze` has no effect on the result.
- `kobert_report.py` (batch HTTP client, pandas aggregation, HTML/PDF rendering) and `train_fasttext.py` (a fastText trainer) are not part of this model. Both are library glue outside the serving path.
