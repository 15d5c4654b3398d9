# Sentiment web app: text cleaning and decision logic

The application is a small Flask service. It loads a Keras sentiment model and
its tokenizer, cleans the text a user submits, scores it with the model, and
labels the score Positive, Neutral or Negative. This project models the parts
of `app.py` that belong to the application itself:

- `clean_text` (module `TextClean`): lower-casing, replacing each
  `<...>` tag with a space, deleting everything that is not an ASCII letter or
  whitespace, then collapsing whitespace runs and trimming.
  - The lazy pattern `<.*?>` is modelled with its exact regex semantics: it
    stops at the first `>`, and `.` does not match `\n`.
  - Whitespace is the set Python's `\s` and `str.strip()` use on `str`.
  - Lower-casing is exact on every character that can affect the result.
    ASCII capitals become small letters. U+212A KELVIN SIGN becomes `k`.
    U+0130 becomes `i` plus a combining dot.
- Properties of `clean_text` (modules `TextCleanProofs`, `TextCleanWords`):
  - the output's shape;
  - idempotence;
  - which letters survive;
  - when the output is empty;
  - that a tag acts as a word separator;
  - worked examples, in module `TextCleanExamples`: `"<b>GREAT</b> movie!!"`
    cleans to `"great movie"`, the Kelvin sign to `"k"` and U+0130 to `"i"`.
  - that the output is the input's words joined by single spaces.
- The `/predict` decision (module `Sentiment`): the availability guard, the
  three-way threshold rule, and the reply built from them.
  - The tokenizer, `pad_sequences` and `model.predict` are one opaque
    parameter `infer` that maps the cleaned text to a score.
  - Whether the model and the tokenizer loaded is a pair of booleans.

## Model

| member | source | states |
|---|---|---|
| TextClean.IsSpace | app.py:30-31 | The characters for which `str.isspace()` holds, which are also what `\s` and `strip()` use: U+0009-000D, U+001C-0020, U+0085, U+00A0, U+1680, U+2000-200A, U+2028, U+2029, U+202F, U+205F, U+3000. |
| TextClean.IsAsciiLetter | app.py:30 | The class `a-zA-Z`: ASCII capitals and small letters only, with no case folding and no other Unicode letters. KeepLettersAndSpaces keeps exactly these and whitespace. |
| TextClean.LowerChar | app.py:28 | ASCII capitals map to their small letter, U+212A KELVIN SIGN to "k", and U+0130 to "i" followed by U+0307. Small letters, whitespace and `<`, `>`, `\n` map to themselves. No output character is an ASCII capital. A whitespace or tag-syntax character in the output can only come from that same input character. |
| TextClean.Lower | app.py:28 | `text.lower()` leaves no ASCII capital. Every whitespace or tag-syntax character of the result was already in the input. |
| TextCleanProofs.LowerAppend | app.py:28 | Lower-casing distributes over concatenation. |
| TextCleanProofs.LowerFixed | app.py:28 | Text made only of small letters and whitespace is unchanged by lower-casing. |
| TextClean.ScanTag | app.py:29 | The lazy `.*?` after `<` stops at the first `>` or `\n`, or at the end of the text. Nothing before that point is `>` or `\n`. |
| TextClean.TagAt | app.py:29 | A match of `<.*?>` starts at an index exactly when a '<' stands there and the scan after it stops at a '>'. A scan that stops at a line break or at the end is no match. Its properties are stated by StripTagsClosedTag, StripTagsUnclosed and UnclosedHead. |
| TextClean.NoTags | app.py:29 | No match of `<.*?>` starts anywhere. StripTagsLeavesNoTags proves it of every output of step 2. |
| TextCleanProofs.ScanTagIs | app.py:29 | Any index meeting the stopping condition of `.*?` is the index ScanTag returns, so the stop is unique. |
| TextClean.StripTags | app.py:29 | Tag removal never lengthens the text. Every character of the result is either a space put in for a tag or a character of the input. |
| TextCleanProofs.StripTagsClosedTag | app.py:29 | A `<`, then text with no `>` or `\n`, then `>`, becomes exactly one space. The rest of the text is processed after it. |
| TextCleanProofs.StripTagsUnclosed | app.py:29 | A run with no `>` or `\n`, followed by a line break or the end of the text, is copied unchanged, even when it contains `<`. |
| TextCleanProofs.StripTagsNoOpen | app.py:29 | Text without `<` is copied unchanged, and processing continues after it. |
| TextCleanProofs.StripTagsFixed | app.py:29 | Text without `<` is left unchanged. |
| TextCleanProofs.StripTagsLeavesNoTags | app.py:29 | After substitution no match of `<.*?>` is left anywhere in the result. |
| TextCleanProofs.UnclosedStaysUnclosed | app.py:29 | A `<` that starts no tag still starts no tag after the rest of the text is substituted. |
| TextCleanProofs.Settled | app.py:29 | Every '<' of the text meets a '>' or a line break later in the same text, so no scan of `.*?` from inside it reaches past its end. |
| TextCleanProofs.ScanTagPrefix | app.py:29 | A scan that stops inside a text stops at the same index whatever follows the text. |
| TextCleanProofs.StripTagsSettled | app.py:29 | Step 2 on a settled text followed by anything equals step 2 on each part, concatenated. |
| TextCleanProofs.LowerSettled | app.py:28-29 | Lower-casing keeps a settled text settled, because it neither creates nor removes '<', '>' or line breaks. |
| TextClean.KeepLettersAndSpaces | app.py:30 | Never lengthens the text. A character is in the result exactly when it is in the input and is an ASCII letter or whitespace. |
| TextCleanProofs.KeepFixed | app.py:30 | Text made only of ASCII letters and whitespace is left unchanged. |
| TextCleanProofs.KeepKeepsLetters | app.py:30 | Deletion keeps every ASCII letter, in order. |
| TextCleanProofs.KeepAppend | app.py:30 | Deletion distributes over concatenation, so the kept letters and whitespace keep their order and their places relative to each other. |
| TextClean.DropSpaces | app.py:31 | Removing leading whitespace yields text that does not start with whitespace, adds no character, and is shorter whenever the input starts with whitespace. |
| TextCleanProofs.DropSpacesDropsSpaces | app.py:31 | The leading-whitespace trim returns a suffix of the input, and everything it dropped is whitespace. |
| TextClean.DropTrailingSpaces | app.py:31 | Removing trailing whitespace never lengthens the text, and the result does not end with whitespace. |
| TextCleanProofs.DropTrailingSpacesDropsSpaces | app.py:31 | The trailing-whitespace trim returns a prefix of the input, and everything it dropped is whitespace. |
| TextClean.CollapseSpaces | app.py:31 | `re.sub(r'\s+', ' ', ...)` leaves only ' ' and the input's non-whitespace characters. The result is empty exactly when the input is. |
| TextCleanProofs.CollapseNoDoubleSpace | app.py:31 | After collapsing, no two neighbouring characters are both whitespace. |
| TextCleanProofs.CollapseFixed | app.py:31 | Text whose only whitespace is single ' ' characters is left unchanged by collapsing. |
| TextCleanProofs.CollapseWord | app.py:31 | Collapsing copies a leading run of non-whitespace characters unchanged. |
| TextCleanProofs.StripSlice | app.py:31 | `strip()` returns a slice of its input. Everything removed at either end is whitespace, and the result neither starts nor ends with whitespace. |
| TextCleanProofs.StripFixed | app.py:31 | Text that neither starts nor ends with whitespace is unchanged by `strip()`. |
| TextClean.Strip | app.py:31 | `strip()` is the leading trim followed by the trailing trim. StripSlice states what it returns, and StripFixed when it changes nothing. |
| TextCleanProofs.StripShape | app.py:31 | Stripping text that holds only small letters and ' ' and has no double space gives the cleaned shape. |
| TextClean.CleanText | app.py:26-31 | `clean_text` is the four steps in source order. Its properties are proved by CleanTextShape, CleanTextIdempotent, CleanTextLetters, CleanTextEmptyIff, CleanTextNoLetters, TagActsAsSpace and CleanTextIsJoinedWords. |
| TextCleanProofs.NormalizeShape | app.py:30-31 | Applied to text with no ASCII capitals, the deletion step and then the whitespace step produce the cleaned shape. |
| TextCleanProofs.CleanTextShape | app.py:26-31 | Every output of `clean_text` holds only a-z and ' ', never starts or ends with a space, and never has two spaces in a row. |
| TextCleanProofs.CleanedIsFixed | app.py:26-31 | Every text of the cleaned shape is returned unchanged by `clean_text`. |
| TextCleanProofs.CleanTextIdempotent | app.py:26-31 | `clean_text(clean_text(s)) == clean_text(s)` for every s. |
| TextCleanProofs.LettersAppend | app.py:28-30 | The letters of a concatenation are the letters of each part, in order. |
| TextCleanProofs.DropSpacesKeepsLetters | app.py:31 | Trimming leading whitespace keeps every letter. |
| TextCleanProofs.DropTrailingSpacesKeepsLetters | app.py:31 | Trimming trailing whitespace keeps every letter. |
| TextCleanProofs.CollapseKeepsLetters | app.py:31 | Collapsing whitespace keeps every letter. |
| TextCleanProofs.CleanTextLetters | app.py:26-31 | The letters of the output are exactly the ASCII letters of the lower-cased input once tags are replaced, in their original order. All of them are lower case. |
| TextCleanProofs.CleanedEmptyIff | app.py:31 | Text of the cleaned shape is empty exactly when it has no letters. |
| TextCleanProofs.CleanTextEmptyIff | app.py:26-31 | The output is empty exactly when no ASCII letter is left once the input is lower-cased and its tags are replaced. |
| TextCleanProofs.LowerNoLetters | app.py:28 | If no character lower-cases to an ASCII letter, the lower-cased text has no letters. |
| TextCleanProofs.NoLettersAtAll | app.py:30 | Text with no ASCII letter has an empty letter sequence. |
| TextCleanProofs.CleanTextNoLetters | app.py:26-31 | Input with no character that lower-cases to an ASCII letter cleans to "". This covers the empty input and input of only digits, punctuation or whitespace. |
| TextCleanProofs.TagActsAsSpace | app.py:28-31 | A complete tag with no `>` or `\n` inside cleans exactly like a single space, after any text whose every '<' is already closed or cut off by a line break. So the words on either side stay separated. |
| TextCleanExamples.TagsBecomeSpaces | app.py:28-31 | `clean_text("<b>GREAT</b> movie!!")` equals `clean_text(" GREAT  movie!!")`: both tags act as separators. |
| TextCleanExamples.GreatMovie | app.py:26-31 | `clean_text("<b>GREAT</b> movie!!")` is `"great movie"`. |
| TextCleanExamples.KelvinSignCleansToK | app.py:26-31 | `clean_text("\u212a")` is `"k"`: the Kelvin sign lower-cases to an ASCII letter that step 3 keeps. |
| TextCleanExamples.CapitalIWithDotCleansToI | app.py:26-31 | `clean_text("\u0130")` is `"i"`: the combining dot of its lower-case form is deleted by step 3. |
| TextCleanWords.FirstWord | app.py:31 | The first word is no longer than the text, contains no whitespace, and is non-empty when the text starts with a non-whitespace character. |
| TextCleanWords.FirstWordIsPrefix | app.py:31 | The first word is a prefix of the text, and whitespace or the end of the text follows it. |
| TextCleanWords.FirstWordOf | app.py:31 | A whitespace-free word followed by whitespace or the end is the first word. |
| TextCleanWords.Words | app.py:31 | A text has no words exactly when it is empty or all whitespace. |
| TextCleanWords.WordsAreWords | app.py:31 | Every word is non-empty and free of whitespace. |
| TextCleanWords.Join | app.py:31 | The reference `' '.join(words)`. JoinEdges and WordsOfJoin state its properties, and NormalizeIsJoin relates it to line 31. |
| TextCleanWords.JoinEdges | app.py:31 | Joining words with ' ' is empty only for no words, and never starts or ends with whitespace. |
| TextCleanWords.CollapseIsJoin | app.py:31 | Collapsing text that does not start with whitespace gives its words joined by ' ', plus one ' ' if the text ended in whitespace. |
| TextCleanWords.NormalizeIsJoin | app.py:31 | `re.sub(r'\s+', ' ', u).strip()` is exactly the words of u joined by single spaces. |
| TextCleanWords.CleanTextIsJoinedWords | app.py:26-31 | `clean_text(s)` is the words left after tag replacement and deletion, joined by single spaces. |
| TextCleanWords.WordsOfJoin | app.py:31 | Splitting a join of words gives back the words: the inverse of NormalizeIsJoin's join. |
| Sentiment.Classify | app.py:58-63 | Positive exactly when score >= 0.5. Neutral exactly when 0.1 <= score < 0.5. Negative exactly when score < 0.1. |
| Sentiment.ClassifyMonotone | app.py:58-63 | A higher score never gets a less positive label. |
| Sentiment.ClassifyBoundaries | app.py:58-63 | 0.5 is Positive and 0.1 is Neutral: each threshold belongs to the label above it. Values just below each threshold fall to the label below. |
| Sentiment.LabelName | app.py:59-63 | No label's reply string is the error string "Error". |
| Sentiment.Available | app.py:40 | The guard passes exactly when both the model and the tokenizer are loaded. Predict's contract and UnavailableIgnoresRequest state what follows from it. |
| Sentiment.Status | app.py:42-68 | The HTTP status of a reply: the error payload's own status (500 for the payload at line 42), and 200 for a scored reply. ErrorSentimentOnlyOnFailure states its values. |
| Sentiment.SentimentField | app.py:42-68 | The "sentiment" field: "Error" in the error payload, otherwise the label's name. ErrorSentimentOnlyOnFailure states when it is "Error". |
| Sentiment.Predict | app.py:40-63 | Fails exactly when the model or the tokenizer is missing, and then returns the fixed error payload. Otherwise it scores the cleaned message and labels that score with Classify. |
| Sentiment.UnavailableIgnoresRequest | app.py:40-42 | Without the model or the tokenizer, every message and every model gives the same payload: status 500, sentiment "Error". |
| Sentiment.ErrorSentimentOnlyOnFailure | app.py:42-68 | Between the error payload and a scored reply, the sentiment field is "Error" exactly for the error payload. A scored reply has status 200. |
| Sentiment.PredictSeesOnlyCleanText | app.py:49 | A message and its cleaned form get the same reply, because the model only sees cleaned text and cleaning is idempotent. |

## Left out

- Flask setup, the `/` route, template rendering and `app.run` (app.py:9, 33-36, 70-73): web-framework glue with no logic of the application's own.
- Loading the model and the tokenizer (app.py:11-20): file I/O and foreign deserialisation. Only the outcome is modelled, as two booleans.
- `tokenizer.texts_to_sequences`, `pad_sequences` with `maxlen = 400`, and `model.predict` (app.py:22, 49-54): Keras code that is not part of this model. They are one uninterpreted function `infer` from the cleaned text to a score.
- The `f"{conf:.2f}"` formatting of the confidence (app.py:66-68): floating-point rounding and string formatting. A scored reply carries the unrounded score instead.
- `request.form["message"]` on a request without the field (app.py:46): HTTP handling that the code leaves undefined. The message is a parameter.
- Sentiment.Classify: the score is an exact real, so the float32 rounding of 0.1 and the NaN score (which Python would label Negative) are not modelled.
- TextClean.LowerChar: keeps every character other than the ASCII capitals, U+212A and U+0130 as it is, rather than applying its Unicode lower-case mapping (including final-sigma context). That is exact for every character that is its own lower-case form, among them all whitespace, `<`, `>` and `\n`. Every other such character is a non-ASCII cased character: neither it nor its lower-case form holds an ASCII letter, whitespace, `<`, `>` or `\n`, so step 3 deletes either one and the output of `clean_text` is the same.
- Lone surrogates (U+D800-U+DFFF), which a Python `str` can hold and a Dafny `char` cannot: lower-casing keeps them, `.` matches them and step 3 deletes them, so they would not change the output of `clean_text`.
