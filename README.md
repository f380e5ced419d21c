# A verified model of the deterministic steps of `train_hat_male.py`

`CharData/Data/train_hat_male.py` trains a random-forest classifier on survey
answers. It loads a CSV file, remaps the `Hat` label column and cleans the
`AnswerCombined` text of every row. It then splits the rows of each label
class into train and test parts, turns the text into TF-IDF features and
fits and evaluates the forest. Most of the script calls pandas,
scikit-learn, NLTK, seaborn and pickle. This project models the script's
own deterministic logic and proves what it guarantees:

- `clean(doc)`, the text cleaner (module `TextCleaner`, `text_cleaner.dfy`).
  It drops whitespace tokens that are stopwords, deletes the 32 characters of
  `string.punctuation`, lemmatises each remaining token and joins the
  results with single spaces. The NLTK stopword set is the parameter `stop`.
  The WordNet lemmatiser is the uninterpreted function parameter `lemmatize`.
  Python's `str.split()` is `Split` over the characters for which
  `str.isspace()` holds.
- The four chained assignments to the `Hat` column (module `LabelRemap`,
  `label_remap.dfy`). The column is a sequence of strings, or an
  `array<string>` for the in-place version.
- The per-class filter, split, concatenation and `is_train` flag (module
  `Splitter`, `splitter.dfy`). A row is its position in the frame. Each
  `train_test_split` call is any split of a class's rows into two parts.
- The `+ 1` label shift and its use as codes for
  `pd.Categorical.from_codes` with categories `[0, 1, 2, 3]` (module
  `Categories`, `categories.dfy`).
- The loop that builds the `"TFIDF_" + str(x)` feature headers (module
  `FeatureHeaders`, `feature_headers.dfy`). Python's `str()` on integers is
  the module `Decimal` (`decimal.dfy`).

Two properties one might expect of the script do not hold of its code,
and the model follows the code:

- `clean` is not idempotent. `TextCleaner.CleanNotIdempotent` proves that a
  stopword written with a period (`"it."`) cleans to the stopword (`"it"`),
  and that cleans to `""`.
- As written, the four assignments to the `Hat` column merge the four
  markers into one value (see "Findings").

The code does fix the size of each class's test part, ceil(0.2 * n) rows
out of n, through `train_test_split`. The model leaves those sizes out. It
keeps the partition, the non-empty parts and the error for a class with
fewer than two rows.

## Model

| member | source | states |
|---|---|---|
| `Decimal.NatToDecimal` | CharData/Data/train_hat_male.py:104 | `str(x)` of a natural number is a non-empty string of digits; it has one digit exactly when x < 10, and starts with '0' only for 0 |
| `Decimal.DecimalRoundTrip` | CharData/Data/train_hat_male.py:104 | reading the decimal form of n back as a number gives n |
| `Decimal.NatToDecimalInjective` | CharData/Data/train_hat_male.py:104 | two naturals have the same decimal form exactly when they are equal |
| `Decimal.IntToDecimal` | CharData/Data/train_hat_male.py:39-42 | `str(i)` of any integer is non-empty and starts with '-' exactly when i is negative |
| `Decimal.IntToDecimalInjective` | CharData/Data/train_hat_male.py:39-42 | two integers have the same `str()` form exactly when they are equal, so distinct labels give distinct markers |
| `TextCleaner.PunctuationRanges` | CharData/Data/train_hat_male.py:18 | `string.punctuation` has 32 characters, exactly the four ASCII punctuation ranges |
| `TextCleaner.SpaceRanges` | CharData/Data/train_hat_male.py:24 | the whitespace test used by `split()` holds exactly for the characters of Python's whitespace set |
| `TextCleaner.TokenEnd` | CharData/Data/train_hat_male.py:24 | the token that starts at i ends at the first whitespace character at or after i, or at the end of the text |
| `TextCleaner.Split` | CharData/Data/train_hat_male.py:24 | every token `split()` yields is non-empty and contains no whitespace (which tokens, `SplitIsMaximalRuns`) |
| `TextCleaner.SplitJoin` | CharData/Data/train_hat_male.py:24-26 | splitting the space-joined list of tokens gives back exactly that list |
| `TextCleaner.SplitJoinSplit` | CharData/Data/train_hat_male.py:24-26 | re-splitting the space-joined tokens of a text gives the text's tokens |
| `TextCleaner.SplitAllWhitespace` | CharData/Data/train_hat_male.py:24 | an empty or all-whitespace text has no tokens |
| `TextCleaner.SplitToken` | CharData/Data/train_hat_male.py:24 | a single whitespace-free word splits to itself |
| `TextCleaner.CollapseSplit` | CharData/Data/train_hat_male.py:24 | a character-by-character scan that drops leading and trailing whitespace and writes one space per inner whitespace run yields the tokens of `split()` joined by single spaces |
| `TextCleaner.SplitIsMaximalRuns` | CharData/Data/train_hat_male.py:24 | for every text, `split()` returns the one list of tokens that, joined by single spaces, is the text with its whitespace runs collapsed and trimmed: the maximal non-whitespace runs, in order |
| `TextCleaner.Join` | CharData/Data/train_hat_male.py:24-26 | `" ".join` of no tokens is empty; otherwise its length is the tokens' total length plus one separator per neighbouring pair, and it starts with the first token |
| `TextCleaner.LemmatizeAll` | CharData/Data/train_hat_male.py:26 | one lemmatiser call per token, in token order |
| `TextCleaner.StripPunctuation` | CharData/Data/train_hat_male.py:25 | the result holds no punctuation character and is no longer than the input |
| `TextCleaner.PunctuationFree` | CharData/Data/train_hat_male.py:24-25 | the text handed to the lemmatiser holds no punctuation, and is empty when every token of the document is a stopword |
| `TextCleaner.Clean` | CharData/Data/train_hat_male.py:23-27 | when the punctuation-free text has no words, `clean` returns the empty string |
| `TextCleaner.RemoveStopwords` | CharData/Data/train_hat_male.py:24 | a token is kept exactly when it is an input token and not a stopword; kept tokens keep their relative order; each kept token occurs exactly as often as in the input; nothing is kept exactly when every token is a stopword |
| `TextCleaner.StripPunctuationRemovesExactly` | CharData/Data/train_hat_male.py:25 | the punctuation step's output has no punctuation character, has every other character as often as the input, in the input's order |
| `TextCleaner.StripAppend` | CharData/Data/train_hat_male.py:25 | deleting punctuation from a concatenation is deleting it from each part and concatenating |
| `TextCleaner.StripNoPunctuation` | CharData/Data/train_hat_male.py:25 | text without punctuation passes the punctuation step unchanged |
| `TextCleaner.CleanTokens` | CharData/Data/train_hat_male.py:26 | the cleaned text splits into the lemmatiser applied to each token of the punctuation-free text, one call per token, in order (for a lemmatiser that maps words to words) |
| `TextCleaner.CleanAllStopwords` | CharData/Data/train_hat_male.py:23-27 | a document whose every token is a stopword cleans to the empty string |
| `TextCleaner.CleanBlank` | CharData/Data/train_hat_male.py:23-27 | an empty or all-whitespace document cleans to the empty string |
| `TextCleaner.PunctuationFreeStopwordDot` | CharData/Data/train_hat_male.py:24-25 | a word followed by a period that is not itself a stopword passes the stopword step and comes out as the bare word |
| `TextCleaner.CleanOneWord` | CharData/Data/train_hat_male.py:26-27 | when the punctuation-free text is one word, the cleaned document is that word's lemma |
| `TextCleaner.CleanNotIdempotent` | CharData/Data/train_hat_male.py:23-27 | for a stopword w whose lemma is itself, `clean("w.")` is w and `clean(clean("w."))` is empty, so `clean` is not idempotent |
| `LabelRemap.Assign` | CharData/Data/train_hat_male.py:39 | one masked assignment: entries equal to `from` become `to`, every other entry is unchanged, the length is kept |
| `LabelRemap.AssignInPlace` | CharData/Data/train_hat_male.py:39 | the masked assignment on the mutable column leaves it equal to `Assign` of its old contents |
| `LabelRemap.ChainedRemap` | CharData/Data/train_hat_male.py:39-42 | after the four assignments in order, every entry that was "-1", "0", "1" or "2" is "3" and every other entry is unchanged |
| `LabelRemap.ChainedRemapInPlace` | CharData/Data/train_hat_male.py:39-42 | the four assignments on the mutable column leave it equal to `ChainedRemap` of its old contents |
| `LabelRemap.ChainedRemapMergesMarkers` | CharData/Data/train_hat_male.py:39-42 | the column ["-1", "0", "1", "2"] becomes ["3", "3", "3", "3"] as written, and ["0", "1", "2", "3"] under the intended remap |
| `LabelRemap.MarkersStayDistinct` | CharData/Data/train_hat_male.py:39-42 | the intended remap is one-to-one on the four markers, while the chained one sends any two markers to "3" |
| `LabelRemap.IntendedLabel` | CharData/Data/train_hat_male.py:39-42 | each marker goes to one of "0".."3" (which one: `IntendedLabelIsShift`); any other value is unchanged |
| `LabelRemap.IntendedRemap` | CharData/Data/train_hat_male.py:39-42 | the corrected remap rewrites every entry by `IntendedLabel` exactly once and keeps the length |
| `LabelRemap.IntendedRemapInPlace` | CharData/Data/train_hat_male.py:39-42 | the corrected remap on the mutable column leaves it equal to `IntendedRemap` of its old contents |
| `LabelRemap.IntendedLabelIsShift` | CharData/Data/train_hat_male.py:39-42 | for each label l in -1..2, `str(l)` is a marker and the corrected remap sends it to `str(l + 1)`, the string form of the shift at lines 84-86 |
| `Splitter.SelectRows` | CharData/Data/train_hat_male.py:67-70 | a boolean-mask selection holds exactly the rows whose label is wanted, in increasing row order, each once |
| `Splitter.SelectNone` | CharData/Data/train_hat_male.py:67-70 | a mask that no row satisfies selects no row |
| `Splitter.ClassRows` | CharData/Data/train_hat_male.py:67-70 | `df[df['Hat'] == c]` holds exactly the rows labelled c, in increasing row order |
| `Splitter.IsSplitOf` | CharData/Data/train_hat_male.py:72-75 | what `train_test_split(rows, test_size=0.2)` may return: a non-empty train part and a non-empty test part holding exactly the rows, for at least two rows |
| `Splitter.NoSplitOfFewerThanTwo` | CharData/Data/train_hat_male.py:72-75 | a class with fewer than two rows has no split: `train_test_split` raises `ValueError` there |
| `Splitter.SplitClassHasTwoRows` | CharData/Data/train_hat_male.py:67-75 | a class that can be split has at least two rows carrying its label |
| `Splitter.MergedLabelsStopSplit` | CharData/Data/train_hat_male.py:39-75 | when every label is 3, as the chained remap and the cast leave them, each of the four classes selects no row and has no split |
| `Splitter.ClassRowsDisjoint` | CharData/Data/train_hat_male.py:67-70 | the row subsets of two different classes share no row |
| `Splitter.Assemble` | CharData/Data/train_hat_male.py:77-78 | the concatenated train and test parts hold, together, every row of every fold part as often as the parts do (which side each row lands on, `AssembleKeepsSides` and `AssembleOnlyParts`) |
| `Splitter.AssembleKeepsSides` | CharData/Data/train_hat_male.py:77-78 | every row of class k's train part is in `train`, and every row of its test part is in `test` |
| `Splitter.AssembleOnlyParts` | CharData/Data/train_hat_male.py:77-78 | every row of `train` comes from some class's train part, and every row of `test` from some class's test part |
| `Splitter.CountInIncreasing` | CharData/Data/train_hat_male.py:67-70 | a row selection in increasing order holds each row at most once |
| `Splitter.FoldCount` | CharData/Data/train_hat_male.py:72-75 | a class's train and test parts hold each row of that class once and no other row |
| `Splitter.AssembleCounts` | CharData/Data/train_hat_male.py:67-78 | splitting distinct classes and concatenating the parts uses every row of those classes exactly once and no other row |
| `Splitter.SplitPartitionsLabelledRows` | CharData/Data/train_hat_male.py:67-78 | `train` and `test` share no row, hold no row twice, and together hold exactly the rows labelled -1, 0, 1 or 2 |
| `Splitter.MarkTrainRows` | CharData/Data/train_hat_male.py:80-81 | `is_train` has one entry per row, 1 on the rows of `train` and 0 on every other row |
| `Splitter.TrainFlagSeparatesFolds` | CharData/Data/train_hat_male.py:67-81 | after the split, `is_train` is 1 on every train row, 0 on every test row and 0 on every row with another label |
| `Splitter.TrainFlagFollowsParts` | CharData/Data/train_hat_male.py:72-81 | for each class, `is_train` is 1 on every row `train_test_split` put in its train part and 0 on every row it put in its test part |
| `Categories.RowLabels` | CharData/Data/train_hat_male.py:84 | `frame['Hat'].values` lists the labels of the frame's rows in row order |
| `Categories.Shift` | CharData/Data/train_hat_male.py:84-86 | each code is its label plus one; after `+ 1`, a value is a valid code for TargetNames exactly when it was one of the four labels, and two codes are equal exactly when their labels are |
| `Categories.FromCodes` | CharData/Data/train_hat_male.py:119-120 | `from_codes` fails exactly when a code is below -1 or past the last category; otherwise code -1 gives a missing value and every other code its category |
| `Categories.ShiftOntoTargetNames` | CharData/Data/train_hat_male.py:115 | adding one maps the labels -1..2 onto the codes of TargetNames, each code naming itself, and every code comes from a label |
| `Categories.ShiftedLabelsDecode` | CharData/Data/train_hat_male.py:119-120 | shifted labels of the four classes decode without error and without a missing value; entry i is label i plus one |
| `Categories.UnshiftedLabelIsMissing` | CharData/Data/train_hat_male.py:119-120 | passed without the shift, a row labelled -1 decodes to a missing value |
| `Categories.PartCategoriesDecode` | CharData/Data/train_hat_male.py:83-86 | the shifted labels of any rows of the four classes decode to label plus one, row by row |
| `Categories.FoldRowsLabelled` | CharData/Data/train_hat_male.py:67-78 | every row of `train` and of `test` is a frame row labelled -1, 0, 1 or 2 |
| `Categories.FoldCategoriesDecode` | CharData/Data/train_hat_male.py:83-86 | after the split, the train and test labels shifted by one decode without error to label plus one for every row |
| `FeatureHeaders.HeaderInjective` | CharData/Data/train_hat_male.py:104 | two headers "TFIDF_" + `str(x)` are equal exactly when they name the same dimension |
| `FeatureHeaders.HeadersDistinct` | CharData/Data/train_hat_male.py:101-104 | a list whose x-th entry is the header of dimension x has no repeated entry |
| `FeatureHeaders.BuildFeatureNames` | CharData/Data/train_hat_male.py:101-104 | the loop builds `dimension` names, the x-th being "TFIDF_" followed by the decimal form of x, all distinct |

## Findings

| source | as written | input that shows it | evidently intended | confidence | as-written member | corrected member |
|---|---|---|---|---|---|---|
| CharData/Data/train_hat_male.py:39-42 | each assignment also matches the values the earlier ones wrote, so all four markers end as "3" and the four classes merge into one | a `Hat` column ["-1", "0", "1", "2"] becomes ["3", "3", "3", "3"] | each marker rewritten once, to the target its own line names: "-1"→"0", "0"→"1", "1"→"2", "2"→"3" | medium, not executed: if `read_csv` yields an integer column, no comparison matches and the lines do nothing | `LabelRemap.ChainedRemap`, `LabelRemap.ChainedRemapMergesMarkers` | `LabelRemap.IntendedRemap`, `LabelRemap.IntendedLabelIsShift` |

Lines 67-86 filter on the labels -1, 0, 1 and 2 and shift them by one
themselves. So they assume the remap changed nothing. The models of those
lines (`Splitter`, `Categories`) take the integer labels as those lines see
them. `LabelRemap.IntendedLabelIsShift` shows that the corrected remap is
the string form of that same shift. Were the merge to reach them, every
label would be 3 after the cast of line 44, and
`Splitter.MergedLabelsStopSplit` shows that then no class has a row and the
first `train_test_split` call raises.

## Left out

- TF-IDF fitting and transform (lines 89-92, 106) and the row-copy loops
  (lines 94-97, 107-110): a foreign library with floating-point weights.
- Random-forest fit and predict, and feature importances (lines 137-145,
  192): a foreign library with internal parallelism.
- The confusion matrix, precision/recall/F1 and the classification report
  (lines 162-185): library calls over floating-point metrics.
- Label counts and fractions (lines 51-64), and all other printing: console
  output and floating-point division only.
- CSV loading (line 31), the `astype(int)` cast (line 44) and pandas dtype
  inference: library behaviour. The model takes the `Hat` column as strings
  for lines 39-42 and as integers from line 67 on.
- `df["AnswerCombined"].apply(clean)` (line 47): it applies `clean` to each
  row. The model takes every document as a string; a cell `read_csv` leaves
  empty becomes NaN, on which `doc.split()` raises `AttributeError`, and
  that error path is not modelled.
- The contents of the NLTK stopword list and the WordNet lemmatiser (lines
  17, 19): they are the parameters `stop` and `lemmatize`.
- Randomness, shuffling and exact sizes of `train_test_split` (lines
  72-75): the test part has ceil(0.2 * n) rows, a floating-point product;
  the model keeps only that both parts are non-empty and that a class of
  fewer than two rows raises `ValueError`.
- Splitter.SplitPartitionsLabelledRows: does not state the 80/20 sizes of
  the parts, because `train_test_split` is modelled as any split of a class.
- Splitter.MarkTrainRows: row labels are positions 0..n-1, the default index
  `read_csv` gives; a frame with another index is not modelled.
- TextCleaner.CleanTokens: assumes the lemmatiser maps each word to a
  non-empty word without whitespace; for other lemmas the re-split tokens of
  the result can differ from the lemmas.
- The heatmap (lines 172-176), pickling the model (lines 196-197) and
  `exit()`: I/O and user interface.
