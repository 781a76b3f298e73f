# MaxEntClassifier: label bookkeeping and bag-of-words encoding

This project models the Python class `MaxEntClassifier` from
`shorttext/classifiers/bow/maxent/MaxEntClassification.py` in Dafny. The class is a
maximum-entropy (softmax regression) short-text classifier, and the model covers
the logic that surrounds its network:

- how a label → examples dict becomes the count matrix X and the one-hot matrix y;
- the deprecated single-text and corpus encoders;
- the label index;
- the `trained` guard on scoring and saving;
- how `score` keys the network's output by label;
- the text format of the saved label file.

The model has five modules:

- `Failures` (`failures.dfy`) has the exceptions the class raises, as `Result` values. It also has `FirstError`, the error that a loop raises at its first failing element.
- `LabelIndex` (`label_index.dfy`) models the two dict comprehensions over `enumerate(classlabels)`: `index_classlabels` and the score dict.
- `LabelFile` (`label_file.dfy`) models two things:
  - `'\n'.join` as `savemodel` writes the label file;
  - reading it back as `loadmodel` does, with universal-newline `readlines()` followed by `str.strip()`, as in Python 3 text mode (see "## Left out").
- `BagOfWords` (`bag_of_words.dfy`) defines what the encoders compute, as functions:
  - X, y and `nb_data`;
  - the rows that get filled and their order;
  - the indicator row;
  - the corpus matrix;
  - the error that each loop raises.
  It also proves their properties.
- `MaxEntClassification` (`maxent_classification.dfy`) holds the class `MaxEntClassifier`:
  - its Python attributes are fields;
  - attributes that Python creates only in `train` or `loadmodel` are `Option`s, and reading an empty one is an AttributeError;
  - the `dok_matrix` fills are loops over `array2<nat>`, and each one is proved to produce exactly the matrix its `BagOfWords` function describes.

Collaborators outside the model become parameters:

- `analyse` (constructor) is `tokenize(preprocessor(s))`.
- `predict` (constructor) is row 0 of `model.predict` for one input row.
- `tokenize` (`LoadMaxEntClassifier`) is shorttext's `tokenize`; the loader composes it with the default preprocessor `s.lower()` (`Lower`).
- `buildCorpora` (`Train`) is `generate_gensim_corpora`.
- `fit` (`Train`) is `logistic_framework` followed by `fit`. It receives the feature and output counts, the settings and the dense X and y.
- The files that `savemodel` writes and `loadmodel` reads are the `SavedModel` value.

Five behaviours of the code, kept as written:

- **Unknown tokens.** In `convert_classdict_to_XY`, `shorttext_to_vec` and `score`, a token missing from the dictionary raises KeyError (`token2id[token]`).
- **`shorttext_to_vec` does not count.** It assigns 1 to the column of each token that occurs, and does not add 1 per occurrence. `score` therefore sees an indicator row, while training uses counts (`IndicatorIsSaturatedCount`).
- **`nb_data` counts skipped labels.** `nb_data` counts the examples of every key of the dict, including keys without an index. X and y therefore have one zero row for each skipped example, at the end (`EmittedSize`, `DatasetWellEncoded`).
- **Columns past the end of a row.** A label index, token id or corpus id outside the width of the matrix raises IndexError, as `dok_matrix` does. With repeated class labels, `len(labels2idx)` is smaller than the largest index plus one (`IndexLabelsSize`), so y gets too narrow.
- **The preprocessor is not saved.** `load_maxent_classifier` builds `MaxEntClassifier()`, which takes the default `s.lower()` preprocessor. A classifier trained with another preprocessor scores differently once reloaded (`CustomPreprocessorIsLost`).

## Model

| member | source | states |
|---|---|---|
| Failures.FirstError | shorttext/classifiers/bow/maxent/MaxEntClassification.py:88-89 | defines the error a `for` loop raises: that of its first element whose check fails, none when all pass; the element's check is KeyError/IndexError for a token, IndexError for a corpus pair |
| Failures.FirstErrorNoneIff | shorttext/classifiers/bow/maxent/MaxEntClassification.py:88-89 | a loop over elements raises nothing exactly when every element passes its check |
| Failures.FirstErrorStops | shorttext/classifiers/bow/maxent/MaxEntClassification.py:88-89 | the loop raises the error of the first failing element, whatever follows it |
| Failures.FirstErrorHasWitness | shorttext/classifiers/bow/maxent/MaxEntClassification.py:88-89 | the converse of `FirstErrorStops`: a raised error is the error of some element whose predecessors all pass |
| Failures.FirstErrorConcat | shorttext/classifiers/bow/maxent/MaxEntClassification.py:83-91 | over two runs of elements in turn, the loop raises the first run's error, or else the second's |
| LabelIndex.EnumerateToMap | shorttext/classifiers/bow/maxent/MaxEntClassification.py:75 | defines `{key: values[idx] for idx, key in enumerate(keys)}`, the comprehension of lines 75 and 148: positions inserted in order, a repeated key keeping its later value |
| LabelIndex.IndexLabels | shorttext/classifiers/bow/maxent/MaxEntClassification.py:75 | defines `labels2idx` as the comprehension of `enumerate(classlabels)`: label to position, later duplicates overwriting earlier ones |
| LabelIndex.ScoreDict | shorttext/classifiers/bow/maxent/MaxEntClassification.py:148 | defines the score dict: IndexError at `len(predictions[0])` when the row is shorter than classlabels, otherwise label to `predictions[0][idx]` with later duplicates overwriting |
| LabelIndex.EnumerateKeys | shorttext/classifiers/bow/maxent/MaxEntClassification.py:75 | an enumerate-comprehension has exactly the listed keys |
| LabelIndex.EnumerateLast | shorttext/classifiers/bow/maxent/MaxEntClassification.py:75 | a key's value is the one at its last occurrence |
| LabelIndex.EnumerateOrigin | shorttext/classifiers/bow/maxent/MaxEntClassification.py:75 | every key comes from its last occurrence and carries that position's value |
| LabelIndex.IndexLabelsPointsBack | shorttext/classifiers/bow/maxent/MaxEntClassification.py:74-75 | the key set of labels2idx is the set of class labels, and each label maps to a position in range that holds it |
| LabelIndex.IndexLabelsInverts | shorttext/classifiers/bow/maxent/MaxEntClassification.py:74-75 | with distinct labels, `labels2idx[classlabels[i]] == i` for every i |
| LabelIndex.IndexLabelsSize | shorttext/classifiers/bow/maxent/MaxEntClassification.py:74-75 | `len(labels2idx) <= len(classlabels)`, with equality exactly when the labels are distinct |
| LabelIndex.IndexLabelsInRange | shorttext/classifiers/bow/maxent/MaxEntClassification.py:74-75 | with distinct labels every index is a column of the `len(labels2idx)`-wide y |
| LabelIndex.ScoreDictMeaning | shorttext/classifiers/bow/maxent/MaxEntClassification.py:148 | the score dict exists exactly when the prediction row is long enough, and otherwise the error is IndexError at its length; its keys are the class labels, and each label's value is the prediction at its (last) position, not re-normalised |
| LabelFile.JoinLines | shorttext/classifiers/bow/maxent/MaxEntClassification.py:121 | defines `'\n'.join(classlabels)`: the labels separated by one "\n", with none after the last |
| LabelFile.TranslateNewlines | shorttext/classifiers/bow/maxent/MaxEntClassification.py:131-132 | defines the universal-newline translation of a text-mode read: "\r\n" and a lone "\r" become "\n" |
| LabelFile.SplitLines | shorttext/classifiers/bow/maxent/MaxEntClassification.py:132 | defines `readlines()`: the lines, each keeping its "\n", a last unterminated line kept, no lines for empty text |
| LabelFile.ReadLines | shorttext/classifiers/bow/maxent/MaxEntClassification.py:131-132 | defines what `readlines()` returns for file contents: the lines of the translated text |
| LabelFile.IsSpace | shorttext/classifiers/bow/maxent/MaxEntClassification.py:134 | defines `str.isspace()` of one character: the Unicode whitespace characters Python 3 strips |
| LabelFile.Strip | shorttext/classifiers/bow/maxent/MaxEntClassification.py:134 | defines `str.strip()`: leading and trailing whitespace (`str.isspace()`) removed |
| LabelFile.ParseLabels | shorttext/classifiers/bow/maxent/MaxEntClassification.py:131-134 | defines the loaded `classlabels`: each line of the file stripped |
| LabelFile.TranslateWithoutCarriageReturn | shorttext/classifiers/bow/maxent/MaxEntClassification.py:132 | reading in text mode leaves text without "\r" unchanged |
| LabelFile.JoinWithoutCarriageReturn | shorttext/classifiers/bow/maxent/MaxEntClassification.py:121 | joining labels without "\r" gives text without "\r" |
| LabelFile.SplitJoin | shorttext/classifiers/bow/maxent/MaxEntClassification.py:121-133 | `readlines` on the joined clean labels gives one line per label, each followed by "\n" except the last |
| LabelFile.StripClean | shorttext/classifiers/bow/maxent/MaxEntClassification.py:134 | stripping a clean label, with or without its "\n", gives the label |
| LabelFile.LabelFileRoundTrip | shorttext/classifiers/bow/maxent/MaxEntClassification.py:121-134 | saving clean labels (non-empty, no line break, no whitespace at either end) and loading them back returns the same list |
| LabelFile.TrailingEmptyLabelIsLost | shorttext/classifiers/bow/maxent/MaxEntClassification.py:121-134 | the round trip needs non-empty labels: an empty last label disappears |
| LabelFile.SurroundingSpaceIsStripped | shorttext/classifiers/bow/maxent/MaxEntClassification.py:121-134 | the round trip needs labels without surrounding whitespace: it is stripped on loading |
| BagOfWords.NbData | shorttext/classifiers/bow/maxent/MaxEntClassification.py:78 | defines `nb_data`: the number of examples under every key of the dict, known label or not |
| BagOfWords.Emitted | shorttext/classifiers/bow/maxent/MaxEntClassification.py:82-91 | the (label, example) pairs given a row, in row order (labels in dict order, skipped when unknown, then examples in order); there are at most `nb_data` of them |
| BagOfWords.TokenError | shorttext/classifiers/bow/maxent/MaxEntClassification.py:88-89 | defines the error of the loop over one text's tokens (lines 60-61 and 88-89): the first token's KeyError or IndexError |
| BagOfWords.CheckToken | shorttext/classifiers/bow/maxent/MaxEntClassification.py:89 | defines what indexing X with one token raises: KeyError for a token not in `token2id`, IndexError for an id not below `len(dictionary)` |
| BagOfWords.Count | shorttext/classifiers/bow/maxent/MaxEntClassification.py:88-89 | defines a cell of an X row: how many of the tokens have that column's id |
| BagOfWords.CountRow | shorttext/classifiers/bow/maxent/MaxEntClassification.py:88-89 | the X row of one example has `len(dictionary)` columns, column c counting the tokens with id c |
| BagOfWords.Contribution | shorttext/classifiers/bow/maxent/MaxEntClassification.py:84-85 | defines the rows one dict entry adds: its examples, each tagged with its label, or none when `label in self.labels2idx.keys()` fails |
| BagOfWords.ExampleError | shorttext/classifiers/bow/maxent/MaxEntClassification.py:86-90 | defines what filling one example's rows raises: its first token error, then IndexError for its label's column of y (its KeyError branch is never taken for an emitted example, by `EmittedKnown`) |
| BagOfWords.DatasetError | shorttext/classifiers/bow/maxent/MaxEntClassification.py:83-91 | defines the error `convert_classdict_to_XY` raises: the error of the first emitted example that fails |
| BagOfWords.CheckPair | shorttext/classifiers/bow/maxent/MaxEntClassification.py:71 | defines what `matrix[docid, tokenid] = count` raises: IndexError for an id not below `len(dictionary)` |
| BagOfWords.DocumentError | shorttext/classifiers/bow/maxent/MaxEntClassification.py:70-71 | defines the error of the loop over one document's pairs: the first pair's IndexError |
| BagOfWords.CorpusError | shorttext/classifiers/bow/maxent/MaxEntClassification.py:69-71 | defines the error of `gensimcorpus_to_matrix`: that of the first document that fails |
| BagOfWords.LastCount | shorttext/classifiers/bow/maxent/MaxEntClassification.py:70-71 | defines a cell of a corpus row: the count of the last pair with that id, since each assignment overwrites, 0 when none has it |
| BagOfWords.DocumentRow | shorttext/classifiers/bow/maxent/MaxEntClassification.py:70-71 | a corpus row has `len(dictionary)` columns, each the last count given to its id |
| BagOfWords.OneHot | shorttext/classifiers/bow/maxent/MaxEntClassification.py:90 | defines the y row of one example: width `len(labels2idx)`, a single 1 in its label's column |
| BagOfWords.DatasetX | shorttext/classifiers/bow/maxent/MaxEntClassification.py:78-79 | X has `nb_data` rows of `len(dictionary)` columns |
| BagOfWords.DatasetY | shorttext/classifiers/bow/maxent/MaxEntClassification.py:78-80 | y has `nb_data` rows of `len(labels2idx)` columns |
| BagOfWords.IndicatorRow | shorttext/classifiers/bow/maxent/MaxEntClassification.py:59 | the `shorttext_to_vec` row has `len(dictionary)` columns |
| BagOfWords.CorpusMatrix | shorttext/classifiers/bow/maxent/MaxEntClassification.py:68 | the corpus matrix is `len(corpus)` x `len(dictionary)` |
| BagOfWords.NbDataConcat | shorttext/classifiers/bow/maxent/MaxEntClassification.py:78 | `nb_data` adds up over a split of the dict, skipped keys included |
| BagOfWords.EmittedConcat | shorttext/classifiers/bow/maxent/MaxEntClassification.py:82-91 | the rows filled for a split dict are those of the first part followed by those of the second |
| BagOfWords.EmittedKnown | shorttext/classifiers/bow/maxent/MaxEntClassification.py:84 | only examples of labels with an index get a row |
| BagOfWords.RowOfExample | shorttext/classifiers/bow/maxent/MaxEntClassification.py:82-91 | example j of the i-th label, when known, sits in the row right after all rows of the labels before it plus j: label order, then example order |
| BagOfWords.EmittedSize | shorttext/classifiers/bow/maxent/MaxEntClassification.py:78-91 | the rows filled number `nb_data` exactly when every skipped label has no examples; otherwise there are trailing unfilled rows |
| BagOfWords.EmittedFromDict | shorttext/classifiers/bow/maxent/MaxEntClassification.py:83-85 | every filled row holds an example of the dict under its own label |
| BagOfWords.CountPositiveIffOccurs | shorttext/classifiers/bow/maxent/MaxEntClassification.py:61 | a column's count is positive exactly when a token with that id occurs |
| BagOfWords.IndicatorIsSaturatedCount | shorttext/classifiers/bow/maxent/MaxEntClassification.py:59-63 | the `shorttext_to_vec` row is the count row capped at 1 |
| BagOfWords.TokenErrorNoneIff | shorttext/classifiers/bow/maxent/MaxEntClassification.py:88-89 | the token loop raises nothing exactly when every token has an id inside the row |
| BagOfWords.CountRowSum | shorttext/classifiers/bow/maxent/MaxEntClassification.py:88-89 | without an error a count row sums to the number of tokens: repeated tokens accumulate |
| BagOfWords.OneHotSum | shorttext/classifiers/bow/maxent/MaxEntClassification.py:90 | a one-hot row sums to 1 |
| BagOfWords.DatasetErrorNoneIff | shorttext/classifiers/bow/maxent/MaxEntClassification.py:83-91 | the encoding raises nothing exactly when every filled example has all tokens in range and a label index inside y |
| BagOfWords.DatasetWellEncoded | shorttext/classifiers/bow/maxent/MaxEntClassification.py:82-91 | without an error, each filled row of X counts its example's tokens (and sums to their number); each filled row of y is one-hot at its label's index; the trailing rows of both are zero |
| BagOfWords.TrainingDataEncodes | shorttext/classifiers/bow/maxent/MaxEntClassification.py:96-100 | with a dictionary that covers every token and whose ids are in range, and distinct labels, the training set encodes without error |
| BagOfWords.LastCountOfDistinctIds | shorttext/classifiers/bow/maxent/MaxEntClassification.py:70-71 | with distinct ids in a document, each pair's count lands in its cell |
| BagOfWords.LastCountOfAbsentId | shorttext/classifiers/bow/maxent/MaxEntClassification.py:70-71 | the cell of an id the document lacks stays 0 |
| BagOfWords.CorpusErrorNoneIff | shorttext/classifiers/bow/maxent/MaxEntClassification.py:69-71 | the corpus copies without error exactly when every id is a column |
| BagOfWords.Rows | shorttext/classifiers/bow/maxent/MaxEntClassification.py:107 | `toarray()`: one row per array row, each as wide as the array |
| BagOfWords.RowsOfRepresented | shorttext/classifiers/bow/maxent/MaxEntClassification.py:107 | `toarray()` of a matrix holding s is s |
| MaxEntClassification.MaxEntClassifier.constructor | shorttext/classifiers/bow/maxent/MaxEntClassification.py:50-52 | a new classifier is not trained and has none of the trained attributes |
| MaxEntClassification.MaxEntClassifier.AddTokenCounts | shorttext/classifiers/bow/maxent/MaxEntClassification.py:88-89 | raises the first token error (KeyError for a missing token, IndexError for an id past the row); otherwise adds to each cell of the row the count of tokens with that id; no other row changes |
| MaxEntClassification.MaxEntClassifier.FillRow | shorttext/classifiers/bow/maxent/MaxEntClassification.py:86-91 | one example: its error, or its count row in X and its one-hot row in y at the next row; no other row changes |
| MaxEntClassification.MaxEntClassifier.FillExamples | shorttext/classifiers/bow/maxent/MaxEntClassification.py:85-91 | the examples of one known label fill consecutive rows in order, or the loop raises the first example's error |
| MaxEntClassification.MaxEntClassifier.FillEntry | shorttext/classifiers/bow/maxent/MaxEntClassification.py:83-91 | one label: skipped when it has no index, otherwise its examples; `rowid` moves by exactly the rows filled |
| MaxEntClassification.MaxEntClassifier.FillDataset | shorttext/classifiers/bow/maxent/MaxEntClassification.py:82-91 | the loops raise exactly the dataset's first error, or fill the rows of every known example in label-then-example order, leaving the rest zero |
| MaxEntClassification.MaxEntClassifier.ConvertClassdictToXY | shorttext/classifiers/bow/maxent/MaxEntClassification.py:77-93 | AttributeError without a dictionary or label index; otherwise fails exactly when the encoding raises, with that error, and on success returns new arrays holding X and y |
| MaxEntClassification.MaxEntClassifier.ShortTextToVec | shorttext/classifiers/bow/maxent/MaxEntClassification.py:55-63 | a new 1 x `len(dictionary)` array that is 1 in the column of every token that occurs and 0 elsewhere, or the first token error |
| MaxEntClassification.MaxEntClassifier.GensimCorpusToMatrix | shorttext/classifiers/bow/maxent/MaxEntClassification.py:66-72 | a new `len(corpus)` x `len(dictionary)` array with the last count of each id per document, or IndexError at the first id outside the row |
| MaxEntClassification.CopyDocument | shorttext/classifiers/bow/maxent/MaxEntClassification.py:70-71 | one document's pairs land in its row, a repeated id keeping its last count, or IndexError at the first id outside the row; no other row changes |
| MaxEntClassification.MaxEntClassifier.IndexClasslabels | shorttext/classifiers/bow/maxent/MaxEntClassification.py:74-75 | labels2idx becomes the position index of classlabels and nothing else changes; AttributeError without classlabels |
| MaxEntClassification.MaxEntClassifier.EncodeTrainingSet | shorttext/classifiers/bow/maxent/MaxEntClassification.py:100-107 | the dense X and y that training is fitted on, or the encoding error |
| MaxEntClassification.MaxEntClassifier.Train | shorttext/classifiers/bow/maxent/MaxEntClassification.py:95-110 | dictionary, corpus, classlabels and labels2idx are replaced by the built ones; on an encoding error `model` and `trained` keep their old values; otherwise the model is the fit on X and y with `len(dictionary)` inputs and `len(classlabels)` outputs, and `trained` becomes true; with a well-formed dictionary that covers every token and distinct labels, encoding always passes; the settings default to `DefaultConfig`, the defaults of line 95 (500 epochs, l2reg 0.01, bias_l2reg 0.01, optimizer 'adam') |
| MaxEntClassification.MaxEntClassifier.SaveModel | shorttext/classifiers/bow/maxent/MaxEntClassification.py:112-124 | ModelNotTrained when untrained; otherwise the network, the dictionary, the newline-joined labels and the label index; changes nothing either way |
| MaxEntClassification.MaxEntClassifier.LoadModel | shorttext/classifiers/bow/maxent/MaxEntClassification.py:126-138 | every artifact is taken as it is, the labels as the stripped lines of the label file, with no consistency check; `trained` becomes true |
| MaxEntClassification.MaxEntClassifier.Score | shorttext/classifiers/bow/maxent/MaxEntClassification.py:140-149 | ModelNotTrained when untrained; otherwise the text's token error, or the network's output on the text's indicator row keyed by class label, with key set the class labels and value at the label's last position i `predictions[i]` (every position when the labels are distinct); changes nothing |
| MaxEntClassification.LowerChar | shorttext/classifiers/bow/maxent/MaxEntClassification.py:50 | defines `str.lower()` on one character: A-Z become a-z, everything else is kept |
| MaxEntClassification.Lower | shorttext/classifiers/bow/maxent/MaxEntClassification.py:50 | defines the default preprocessor `lambda s: s.lower()` character by character |
| MaxEntClassification.DefaultAnalyse | shorttext/classifiers/bow/maxent/MaxEntClassification.py:50 | defines the tokenizer of a classifier built with the default preprocessor: `tokenize(s.lower())` |
| MaxEntClassification.LoadMaxEntClassifier | shorttext/classifiers/bow/maxent/MaxEntClassification.py:151-157 | a new classifier, trained, holding the loaded artifacts, whose tokenizer is always `tokenize(s.lower())`: `MaxEntClassifier()` takes the default preprocessor and none is saved |
| MaxEntClassification.SaveLoadScoresAgree | shorttext/classifiers/bow/maxent/MaxEntClassification.py:112-149 | a trained classifier with clean labels, saved and loaded by `MaxEntClassifier(preprocessor).loadmodel` with the same preprocessor and network, scores every text as before |
| MaxEntClassification.LoadedScoresAgree | shorttext/classifiers/bow/maxent/MaxEntClassification.py:112-157 | through `load_maxent_classifier`, the same holds for a classifier whose tokenizer is `tokenize(s.lower())`, the one built with the default preprocessor |
| MaxEntClassification.CustomPreprocessorIsLost | shorttext/classifiers/bow/maxent/MaxEntClassification.py:112-157 | the condition is needed: with `preprocessor=lambda s: s` and a dictionary knowing only "Apple", `score("Apple")` gives a dict before saving and KeyError("apple") after `load_maxent_classifier` |

## Left out

- `logistic_framework`, `kmodel.fit` and `model.predict` are Keras network construction, training and inference in floating point. They are the parameters `fit` and `predict`, so the choice of optimizer, the regularisation and the epochs are passed through untouched. An optimizer name Keras rejects, and failures inside fitting, are not modelled.
- X and y are `dok_matrix` matrices of floats. Here they are matrices of `nat` counts, because every value stored in them is a whole number.
- These are external collaborators, taken as parameters: the gensim `Dictionary` (only `token2id` and `len` are used), `generate_gensim_corpora`, `tokenize` and the default lower-casing preprocessor.
- This file I/O is not modelled: `kerasio.save_model`/`load_model`, `Dictionary.save`/`load`, `pickle`, the `nameprefix` file names, and the `os.linesep` translation when the label file is written. The saved files are the `SavedModel` value.
- The `cio.compactio` decorator and the compact archive branch of `load_maxent_classifier` are left out. Only the `loadmodel` branch is modelled.
- The `@deprecated` decorator's warning is a runtime side effect.
- LoadMaxEntClassifier: the preprocessor is not among the saved artifacts (lines 112-124), so the loader always installs the default one. The model does this too. It promises equal scores after `load_maxent_classifier` only for classifiers built with the default preprocessor (`LoadedScoresAgree`).
- Lower, LowerChar: `str.lower()` is modelled on the ASCII letters only. Python lower-cases every Unicode letter that has a lower-case form, and some of those change the string's length.
- LabelFile.ParseLabels: the label file is read the Python 3 way. A text-mode `readlines()` uses universal newlines, so "\r\n" and a lone "\r" also end a line, and `str.strip()` removes all Unicode whitespace. Under Python 2 on POSIX, `readlines()` splits on "\n" only, so the file text "a\rb" loads as ["a\rb"] rather than ["a", "b"], and `strip()` removes only " \t\n\r\v\f". Labels without line breaks or surrounding whitespace load the same under both versions (`LabelFileRoundTrip`).
- The rest of the save/load path follows Python 2, the only version under which `savemodel` and `loadmodel` succeed. Lines 124 and 136 pickle through text-mode handles ('w' and 'r'), and under Python 3 that raises TypeError, which the model does not represent. Likewise, `map` at line 134 gives a list, as in Python 2. Under Python 3 it is a one-shot iterator, so a second `score` after `loadmodel` would see no labels.
- `Score` (and `SaveModel`) requires `Valid()`, the invariant that a trained classifier holds all four trained attributes. Every method of the class keeps it, so for objects built through the class there is no missing-attribute error to model.
- `predict`: the network's output for the 1-row input is taken as its row 0. The model does not capture an output without a row 0.
