# FAQ chatbot matching path, modelled in Dafny

The chatbot answers a typed question by normalising it, scoring it
against the normalised questions of a fixed FAQ table and replying with
the answer of the best-scoring question. This project models that text
path of `main.py`:

- `Normalizer` (normalizer.dfy): `preprocess`. It lower-cases ASCII
  capitals, deletes the 32 characters of Python's `string.punctuation`,
  splits on runs of whitespace, drops the tokens in a stopword set and
  joins the rest with single spaces. The stopword set is a parameter.
- `Matcher` (matcher.dfy): the FAQ table as an ordered sequence of
  (question, answer) pairs with distinct questions, as a Python dict
  keeps them. It also models the `questions` list and its normalised
  image `processed_questions`, numpy's first-index `argmax`, and the
  dictionary lookup that turns the chosen index into the reply. The
  vectoriser and cosine similarity are a parameter `similarity`, which
  yields one score per question.

Whitespace is the ASCII set that Python's argument-less `str.split`
uses: space, tab, line feed, vertical tab, form feed, carriage return,
and the information separators 0x1C-0x1F.

`main.py` has no confidence threshold, no "unknown" reply and no
"teach me" flow; over a non-empty table every input gets the answer of
its first best-scoring question.

## Model

| member | source | states |
|---|---|---|
| `Normalizer.PunctuationRanges` | main.py:27 | the punctuation set has 32 characters, and the range test used by the model is exactly membership in it |
| `Normalizer.Lower` | main.py:26 | a capital becomes the lower-case letter 32 code points above it; every other character is kept; no capital results |
| `Normalizer.LowerText` | main.py:26 | lower-casing keeps the length, maps each character through `Lower`, leaves no capital, and changes exactly the positions that held a capital |
| `Normalizer.LowerTextFixesLowercase` | main.py:26 | text with no capital is unchanged by lower-casing |
| `Normalizer.StripPunctuation` | main.py:27 | the result holds no punctuation, is a subsequence of the input, and keeps every non-punctuation character as often as the input has it |
| `Normalizer.StripFixesClean` | main.py:27 | text with no punctuation is unchanged by stripping |
| `Normalizer.StripKeeps` | main.py:27 | stripping only deletes, so any property of all input characters holds of all output characters |
| `Normalizer.TakeWord` | main.py:28 | the first word is the longest whitespace-free prefix: it ends at the end of the text or at a whitespace character |
| `Normalizer.Split` | main.py:28 | every token that splitting yields is non-empty and holds no whitespace; `SplitToken` and `SplitAt` determine the tokens themselves |
| `Normalizer.TakeWordAppend` | main.py:28 | the first word of a text is unchanged by appending text, unless the word runs to the end and the appended text continues it |
| `Normalizer.SplitToken` | main.py:28 | a token splits into itself alone |
| `Normalizer.SplitAt` | main.py:28 | for any texts s and t and whitespace c, the tokens of s + c + t are the tokens of s followed by those of t, so leading, trailing and repeated whitespace yield no empty tokens |
| `Normalizer.SplitKeeps` | main.py:28 | token characters come from the split text, so any property of all its characters holds of every token |
| `Normalizer.SplitBlank` | main.py:28 | text made only of whitespace has no tokens |
| `Normalizer.RemoveStopwords` | main.py:29 | no kept token is a stopword, the kept tokens are a subsequence of the input tokens, and every non-stopword token is kept as often as it occurs |
| `Normalizer.RemoveStopwordsKeeps` | main.py:29 | filtering keeps only tokens that were there, so a property of every token survives it |
| `Normalizer.RemoveStopwordsFixesClean` | main.py:29 | a token list with no stopword is unchanged by filtering |
| `Normalizer.RemoveStopwordsEmpty` | main.py:29 | filtering yields nothing exactly when every token is a stopword |
| `Normalizer.Join` | main.py:30 | joins tokens with single spaces; its properties are stated by `JoinKeeps`, `JoinEmpty`, `JoinSingleSpaced`, `SplitJoin` and `JoinSplit` |
| `Normalizer.JoinKeeps` | main.py:30 | joining adds only spaces, so a property of every token character that spaces share holds of the result |
| `Normalizer.JoinEmpty` | main.py:30 | joining tokens gives the empty string exactly when there are no tokens |
| `Normalizer.JoinSingleSpaced` | main.py:30 | joining tokens gives text with single spaces only between words and none at either end |
| `Normalizer.SplitJoin` | main.py:28-30 | splitting a join of tokens gives the same tokens back |
| `Normalizer.JoinSplit` | main.py:28-30 | joining the tokens of single-spaced text gives the same text back |
| `Normalizer.Tokens` | main.py:26-28 | the tokens of the lower-cased, punctuation-free text are well-formed and hold no capital and no punctuation |
| `Normalizer.Preprocess` | main.py:25-30 | the whole pipeline; its properties are stated by the `Preprocess*` lemmas below |
| `Normalizer.PreprocessTokens` | main.py:25-30 | the output's tokens are non-empty, whitespace-free and not stopwords; they are exactly the non-stopword tokens of the cleaned input, in their original order |
| `Normalizer.PreprocessNoUpper` | main.py:26 | the output holds no ASCII capital |
| `Normalizer.PreprocessNoPunctuation` | main.py:27 | the output holds no punctuation character |
| `Normalizer.PreprocessSpacing` | main.py:28-30 | the output is single-spaced; it is empty exactly when every token of the cleaned input is a stopword |
| `Normalizer.PreprocessBlank` | main.py:27-30 | input made only of whitespace and punctuation, the empty string included, normalises to the empty string |
| `Normalizer.PreprocessIdempotent` | main.py:25-30 | normalising normalised text changes nothing, for a fixed stopword set |
| `Matcher.Questions` | main.py:33 | the question list has one entry per table entry, in table order |
| `Matcher.ProcessedQuestions` | main.py:34 | the normalised list has the same length, and position i holds the normalised question i |
| `Matcher.Lookup` | main.py:47 | a lookup fails exactly when no entry has the key, and a found answer is stored under that key |
| `Matcher.LookupAt` | main.py:47 | with distinct questions, looking up question i yields answer i |
| `Matcher.ArgMax` | main.py:45 | the chosen index is in range, its score is at least every score, and every earlier score is strictly smaller |
| `Matcher.ArgMaxUnique` | main.py:45 | an index is the first maximum exactly when it is the one `ArgMax` chooses |
| `Matcher.SelectAnswer` | main.py:45-47 | an empty table has no reply; otherwise the reply is the answer paired with the first best-scoring question, and so always a stored answer |
| `Matcher.QueryScores` | main.py:41-44 | the similarity row of the normalised input against the normalised questions; the vectoriser and cosine similarity are the `similarity` parameter |
| `Matcher.Chatbot` | main.py:40-47 | for a non-empty table the chatbot always answers, with the stored answer of the first best-scoring question; there is no "no match" reply |
| `Matcher.DefaultFaqs` | main.py:16-22 | the shipped table has five entries whose questions are pairwise distinct |
| `Matcher.DefaultFaqsAlwaysAnswer` | main.py:16-47 | over the shipped table, any row of five scores selects one of its five answers |

## Left out

- Loading or downloading the NLTK English stopword list (main.py:9-13) is file and network I/O. The stopword set is a parameter of `Preprocess`.
- `TfidfVectorizer.fit_transform`, `transform` and `cosine_similarity` (main.py:36-37, 42, 44) are library calls with floating-point numerics. They become the `similarity` parameter, which must yield one real score per question. The vectoriser's own failure on an all-empty vocabulary is therefore not modelled.
- Floating-point scores are modelled as `real`, so numpy's treatment of NaN in `argmax` is not modelled.
- Unicode case mapping in `str.lower` and non-ASCII whitespace in `str.split` (for example U+0085 and U+00A0) are not modelled. Only ASCII capitals are lowered, and only the ASCII whitespace listed above separates tokens.
- An empty `faqs` table never occurs in the program, because the table is a constant. The model answers it with `NoCandidates`, which stands for the program failing on an empty table (the vectoriser fit at main.py line 37 raises before `chatbot` can run).
- The Tkinter window, `send_message` with its `strip` and empty-input check, the key binding and the event loop (main.py:50-79) are user-interface code.
