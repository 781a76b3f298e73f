/** MaxEntClassifier: the bookkeeping around a maximum-entropy (softmax
    regression) short-text classifier. The Keras network, the gensim
    dictionary builder and the file I/O are collaborators outside this model:
    the tokenizer and the network's inference are constants of the object,
    the dictionary builder and the fitting routine are parameters of `Train`,
    and the saved files are a `SavedModel` value. */
module MaxEntClassification {
  import opened Failures
  import opened BagOfWords
  import LabelIndex
  import LabelFile

  /** The trained network: the weights and bias of its one dense softmax layer. */
  datatype Network = Network(weights: seq<seq<real>>, bias: seq<real>)

  /** The training settings of `train`. */
  datatype TrainingConfig = TrainingConfig(nbEpochs: nat, l2reg: real, biasL2reg: real, optimizer: string)

  const DefaultConfig := TrainingConfig(500, 0.01, 0.01, "adam")

  /** What the dictionary builder `generate_gensim_corpora` returns. */
  datatype Corpora = Corpora(dictionary: Vocabulary, corpus: Corpus, classlabels: seq<string>)

  /** The artifacts `savemodel` writes: the network, the dictionary, the text
      of the `_classlabels.txt` file and the pickled label index. */
  datatype SavedModel = SavedModel(network: Network, dictionary: Vocabulary, classlabelsText: string,
                                   labels2idx: map<string, nat>)

  class MaxEntClassifier {
    /** `tokenize(self.preprocessor(s))` */
    const analyse: string -> seq<string>
    /** `self.model.predict(vec)[0]`: the network's output row for one input row. */
    const predict: (Network, seq<nat>) -> seq<real>

    var trained: bool
    // The attributes `train` and `loadmodel` assign; None until then.
    var dictionary: Option<Vocabulary>
    var corpus: Option<Corpus>
    var classlabels: Option<seq<string>>
    var labels2idx: Option<map<string, nat>>
    var model: Option<Network>

    /** A trained classifier has everything scoring and saving read. */
    ghost predicate Valid()
      reads this
    {
      trained ==> dictionary.Some? && classlabels.Some? && labels2idx.Some? && model.Some?
    }

    /** `__init__`: not trained, nothing else assigned yet. */
    constructor (analyse: string -> seq<string>, predict: (Network, seq<nat>) -> seq<real>)
      ensures Valid() && !trained
      ensures this.analyse == analyse && this.predict == predict
      ensures dictionary == None && corpus == None && classlabels == None && labels2idx == None && model == None
    {
      this.analyse := analyse;
      this.predict := predict;
      trained := false;
      dictionary, corpus, classlabels, labels2idx, model := None, None, None, None, None;
    }

    /** The inner loop of `convert_classdict_to_XY`: `X[row, token2id[token]] += 1`
        for each token. Only that row changes. */
    method AddTokenCounts(X: array2<nat>, row: nat, tokens: seq<string>) returns (err: Option<Error>)
      requires dictionary.Some? && row < X.Length0 && X.Length1 == dictionary.value.size
      modifies X
      ensures err == TokenError(dictionary.value, tokens)
      ensures err.None? ==>
                forall c :: 0 <= c < X.Length1 ==> X[row, c] == old(X[row, c]) + Count(dictionary.value, tokens, c)
      ensures forall r, c :: 0 <= r < X.Length0 && r != row && 0 <= c < X.Length1 ==> X[r, c] == old(X[r, c])
    {
      var v := dictionary.value;
      var k := 0;
      while k < |tokens|
        invariant 0 <= k <= |tokens|
        invariant TokenError(v, tokens[..k]) == None
        invariant forall c :: 0 <= c < X.Length1 ==> X[row, c] == old(X[row, c]) + Count(v, tokens[..k], c)
        invariant forall r, c :: 0 <= r < X.Length0 && r != row && 0 <= c < X.Length1 ==> X[r, c] == old(X[r, c])
      {
        var token := tokens[k];
        if token !in v.token2id || v.token2id[token] >= X.Length1 {
          FirstErrorStops(TokenChecker(v), tokens, k);
          assert TokenChecker(v)(tokens[k]) == CheckToken(v, token);
          if token !in v.token2id {
            return Some(KeyError(token));
          }
          return Some(IndexError(v.token2id[token]));
        }
        var id := v.token2id[token];
        X[row, id] := X[row, id] + 1;
        assert tokens[..k + 1][..k] == tokens[..k];
        k := k + 1;
      }
      assert tokens[..k] == tokens;
      return None;
    }

    /** The body of the example loop for an example of a known label: its
        token counts go to row `|done|` of X and a 1 to its label's column of
        y. No other row changes. */
    method FillRow(X: array2<nat>, y: array2<nat>, ghost done: seq<(string, string)>, row: nat,
                   lbl: string, example: string)
      returns (err: Option<Error>)
      requires dictionary.Some? && labels2idx.Some? && lbl in labels2idx.value
      requires row == |done| && row < X.Length0
      requires FilledUpTo(X, y, dictionary.value, labels2idx.value, analyse, done)
      modifies X, y
      ensures err == ExampleError(dictionary.value, labels2idx.value, analyse, (lbl, example))
      ensures err.None? ==> FilledUpTo(X, y, dictionary.value, labels2idx.value, analyse, done + [(lbl, example)])
      ensures forall r, c :: 0 <= r < X.Length0 && r != row && 0 <= c < X.Length1 ==> X[r, c] == old(X[r, c])
      ensures forall r, c :: 0 <= r < y.Length0 && r != row && 0 <= c < y.Length1 ==> y[r, c] == old(y[r, c])
    {
      var v, l2i := dictionary.value, labels2idx.value;
      var tokens := analyse(example);
      err := AddTokenCounts(X, row, tokens);
      if err.Some? {
        return;
      }
      var idx := l2i[lbl];
      if idx >= y.Length1 {
        return Some(IndexError(idx));
      }
      y[row, idx] := 1;
      assert RowIs(X, row, CountRow(v, tokens));
      assert RowIs(y, row, OneHot(|l2i|, idx));
    }

    /** The loop over the examples of one known label: each example fills the
        next row. The rows before `start` already encode the examples `done`. */
    method FillExamples(X: array2<nat>, y: array2<nat>, ghost done: seq<(string, string)>, start: nat,
                        lbl: string, examples: seq<string>)
      returns (err: Option<Error>)
      requires dictionary.Some? && labels2idx.Some? && lbl in labels2idx.value
      requires start == |done| && start + |examples| <= X.Length0
      requires FilledUpTo(X, y, dictionary.value, labels2idx.value, analyse, done)
      modifies X, y
      ensures err == FirstError(ExampleChecker(dictionary.value, labels2idx.value, analyse), Tag(lbl, examples))
      ensures err.None? ==> FilledUpTo(X, y, dictionary.value, labels2idx.value, analyse, done + Tag(lbl, examples))
    {
      ghost var check := ExampleChecker(dictionary.value, labels2idx.value, analyse);
      ghost var tagged := Tag(lbl, examples);
      var j := 0;
      while j < |examples|
        invariant 0 <= j <= |examples|
        invariant FirstError(check, tagged[..j]) == None
        invariant FilledUpTo(X, y, dictionary.value, labels2idx.value, analyse, done + tagged[..j])
      {
        assert check(tagged[j]) == ExampleError(dictionary.value, labels2idx.value, analyse, (lbl, examples[j]));
        err := FillRow(X, y, done + tagged[..j], start + j, lbl, examples[j]);
        if err.Some? {
          FirstErrorStops(check, tagged, j);
          return;
        }
        assert tagged[..j + 1] == tagged[..j] + [(lbl, examples[j])];
        assert done + tagged[..j + 1] == (done + tagged[..j]) + [(lbl, examples[j])];
        assert tagged[..j + 1][..j] == tagged[..j];
        j := j + 1;
      }
      assert tagged[..j] == tagged;
      return None;
    }

    /** `convert_classdict_to_XY`: the count matrix X and the one-hot matrix
        y of a training set, each with `nb_data` rows, or the error its loops
        raise. */
    method ConvertClassdictToXY(classdict: ClassDict) returns (r: Result<(array2<nat>, array2<nat>)>)
      ensures dictionary.None? ==> r == Failure(AttributeError("dictionary"))
      ensures dictionary.Some? && labels2idx.None? ==> r == Failure(AttributeError("labels2idx"))
      ensures dictionary.Some? && labels2idx.Some? ==>
                var err := DatasetError(dictionary.value, labels2idx.value, analyse, classdict);
                (r.Failure? <==> err.Some?) &&
                (r.Failure? ==> r.error == err.value) &&
                (r.Success? ==>
                   fresh(r.value.0) && fresh(r.value.1) &&
                   Represents(r.value.0, DatasetX(dictionary.value, labels2idx.value, analyse, classdict)) &&
                   Represents(r.value.1, DatasetY(labels2idx.value, classdict)))
    {
      var nb := NbData(classdict);
      if dictionary.None? {
        return Failure(AttributeError("dictionary"));
      }
      if labels2idx.None? {
        return Failure(AttributeError("labels2idx"));
      }
      var v, l2i := dictionary.value, labels2idx.value;
      var X := new nat[nb, v.size]((r, c) => 0);
      var y := new nat[nb, |l2i|]((r, c) => 0);
      var err := FillDataset(X, y, classdict);
      if err.Some? {
        return Failure(err.value);
      }
      FilledRepresents(X, y, v, l2i, analyse, classdict);
      return Success((X, y));
    }

    /** The loops of `convert_classdict_to_XY` over zeroed matrices of the
        right shape: `rowid` walks the labels in order, skips those without an
        index and moves one row per example. */
    method FillDataset(X: array2<nat>, y: array2<nat>, classdict: ClassDict) returns (err: Option<Error>)
      requires dictionary.Some? && labels2idx.Some? && X.Length0 == NbData(classdict)
      requires FilledUpTo(X, y, dictionary.value, labels2idx.value, analyse, [])
      modifies X, y
      ensures err == DatasetError(dictionary.value, labels2idx.value, analyse, classdict)
      ensures err.None? ==> FilledUpTo(X, y, dictionary.value, labels2idx.value, analyse, Emitted(classdict, labels2idx.value))
    {
      var v, l2i := dictionary.value, labels2idx.value;
      ghost var check := ExampleChecker(v, l2i, analyse);
      var rowid := 0;
      var i := 0;
      while i < |classdict|
        invariant 0 <= i <= |classdict|
        invariant rowid == |Emitted(classdict[..i], l2i)|
        invariant FirstError(check, Emitted(classdict[..i], l2i)) == None
        invariant FilledUpTo(X, y, v, l2i, analyse, Emitted(classdict[..i], l2i))
      {
        var e;
        e, rowid := FillEntry(X, y, classdict, i, rowid);
        if e.Some? {
          return e;
        }
        i := i + 1;
      }
      assert classdict[..i] == classdict;
      return None;
    }

    /** One pass of the label loop of `convert_classdict_to_XY`: the examples
        of entry i go to the rows from `rowid` on when its label has an
        index, and nothing happens otherwise. */
    method FillEntry(X: array2<nat>, y: array2<nat>, classdict: ClassDict, i: nat, rowid: nat)
      returns (err: Option<Error>, next: nat)
      requires dictionary.Some? && labels2idx.Some? && X.Length0 == NbData(classdict) && i < |classdict|
      requires rowid == |Emitted(classdict[..i], labels2idx.value)|
      requires FirstError(ExampleChecker(dictionary.value, labels2idx.value, analyse), Emitted(classdict[..i], labels2idx.value)) == None
      requires FilledUpTo(X, y, dictionary.value, labels2idx.value, analyse, Emitted(classdict[..i], labels2idx.value))
      modifies X, y
      ensures err.Some? ==> err == DatasetError(dictionary.value, labels2idx.value, analyse, classdict)
      ensures err.None? ==>
                next == |Emitted(classdict[..i + 1], labels2idx.value)| &&
                FirstError(ExampleChecker(dictionary.value, labels2idx.value, analyse), Emitted(classdict[..i + 1], labels2idx.value)) == None &&
                FilledUpTo(X, y, dictionary.value, labels2idx.value, analyse, Emitted(classdict[..i + 1], labels2idx.value))
    {
      var v, l2i := dictionary.value, labels2idx.value;
      ghost var check := ExampleChecker(v, l2i, analyse);
      var entry := classdict[i];
      ghost var before := Emitted(classdict[..i], l2i);
      EntryStep(check, classdict, i, l2i);
      ghost var after := Emitted(classdict[..i + 1], l2i);
      if entry.0 !in l2i {
        assert after == before;
        return None, rowid;
      }
      assert after == before + Tag(entry.0, entry.1);
      err := FillExamples(X, y, before, rowid, entry.0, entry.1);
      next := rowid + |entry.1|;
    }

    /** `shorttext_to_vec`: a 1 x `len(dictionary)` row that is 1 in the column
        of every token of the text, however often it occurs; a token missing
        from the dictionary raises KeyError. */
    method ShortTextToVec(text: string) returns (r: Result<array2<nat>>)
      ensures dictionary.None? ==> r == Failure(AttributeError("dictionary"))
      ensures dictionary.Some? ==>
                var err := TokenError(dictionary.value, analyse(text));
                (r.Failure? <==> err.Some?) &&
                (r.Failure? ==> r.error == err.value) &&
                (r.Success? ==> fresh(r.value) && Represents(r.value, [IndicatorRow(dictionary.value, analyse(text))]))
    {
      var tokens := analyse(text);
      if dictionary.None? {
        return Failure(AttributeError("dictionary"));
      }
      var v := dictionary.value;
      var vec := new nat[1, v.size]((r, c) => 0);
      var k := 0;
      while k < |tokens|
        invariant 0 <= k <= |tokens|
        invariant TokenError(v, tokens[..k]) == None
        invariant forall c :: 0 <= c < v.size ==> vec[0, c] == if Occurs(v, tokens[..k], c) then 1 else 0
      {
        var token := tokens[k];
        if token !in v.token2id || v.token2id[token] >= v.size {
          FirstErrorStops(TokenChecker(v), tokens, k);
          assert TokenChecker(v)(tokens[k]) == CheckToken(v, token);
          if token !in v.token2id {
            return Failure(KeyError(token));
          }
          return Failure(IndexError(v.token2id[token]));
        }
        vec[0, v.token2id[token]] := 1;
        OccursStep(v, tokens, k);
        assert tokens[..k + 1][..k] == tokens[..k];
        k := k + 1;
      }
      assert tokens[..k] == tokens;
      assert RowIs(vec, 0, IndicatorRow(v, tokens));
      return Success(vec);
    }

    /** `gensimcorpus_to_matrix`: a `len(corpus)` x `len(dictionary)` matrix
        with `matrix[d, id] = count` for each pair of document d. */
    method GensimCorpusToMatrix(corpus: Corpus) returns (r: Result<array2<nat>>)
      ensures dictionary.None? ==> r == Failure(AttributeError("dictionary"))
      ensures dictionary.Some? ==>
                var err := CorpusError(dictionary.value.size, corpus);
                (r.Failure? <==> err.Some?) &&
                (r.Failure? ==> r.error == err.value) &&
                (r.Success? ==> fresh(r.value) && Represents(r.value, CorpusMatrix(dictionary.value.size, corpus)))
    {
      if dictionary.None? {
        return Failure(AttributeError("dictionary"));
      }
      var n := dictionary.value.size;
      var matrix := new nat[|corpus|, n]((r, c) => 0);
      var d := 0;
      while d < |corpus|
        invariant 0 <= d <= |corpus|
        invariant FirstError(DocumentChecker(n), corpus[..d]) == None
        invariant forall dd :: 0 <= dd < d ==> RowIs(matrix, dd, DocumentRow(n, corpus[dd]))
        invariant ZeroFrom(matrix, d)
      {
        var err := CopyDocument(matrix, d, corpus[d]);
        assert DocumentChecker(n)(corpus[d]) == DocumentError(n, corpus[d]);
        if err.Some? {
          FirstErrorStops(DocumentChecker(n), corpus, d);
          return Failure(err.value);
        }
        assert corpus[..d + 1][..d] == corpus[..d];
        d := d + 1;
      }
      assert corpus[..d] == corpus;
      return Success(matrix);
    }

    /** `index_classlabels`: labels2idx maps each class label to its position. */
    method IndexClasslabels() returns (r: Outcome)
      modifies this`labels2idx
      ensures classlabels.None? ==> r == Fail(AttributeError("classlabels")) && labels2idx == old(labels2idx)
      ensures classlabels.Some? ==> r == Pass && labels2idx == Some(LabelIndex.IndexLabels(classlabels.value))
      ensures old(Valid()) ==> Valid()
    {
      if classlabels.None? {
        return Fail(AttributeError("classlabels"));
      }
      labels2idx := Some(LabelIndex.IndexLabels(classlabels.value));
      return Pass;
    }

    /** `X.toarray(), y.toarray()` of `convert_classdict_to_XY(classdict)`
        in `train`: the dense training matrices. */
    method EncodeTrainingSet(classdict: ClassDict) returns (r: Result<(seq<seq<nat>>, seq<seq<nat>>)>)
      requires dictionary.Some? && labels2idx.Some?
      ensures var err := DatasetError(dictionary.value, labels2idx.value, analyse, classdict);
              (r.Failure? <==> err.Some?) &&
              (r.Failure? ==> r.error == err.value) &&
              (r.Success? ==> r.value == (DatasetX(dictionary.value, labels2idx.value, analyse, classdict),
                                          DatasetY(labels2idx.value, classdict)))
    {
      var xy := ConvertClassdictToXY(classdict);
      if xy.Failure? {
        return Failure(xy.error);
      }
      var X, y := xy.value.0, xy.value.1;
      RowsOfRepresented(X, DatasetX(dictionary.value, labels2idx.value, analyse, classdict));
      RowsOfRepresented(y, DatasetY(labels2idx.value, classdict));
      return Success((Rows(X), Rows(y)));
    }

    /** `train`: build the dictionary, corpus and label list, index the labels,
        encode the training set, then fit a network with `len(dictionary)`
        inputs and `len(classlabels)` outputs on X and y. An encoding error
        leaves the new attributes in place but `model` and `trained` as they
        were; `trained` is set only once the network has been fitted. */
    method Train(classdict: ClassDict, buildCorpora: (ClassDict, string -> seq<string>) -> Corpora,
                 fit: (TrainingConfig, nat, nat, seq<seq<nat>>, seq<seq<nat>>) -> Network,
                 config: TrainingConfig := DefaultConfig)
      returns (r: Outcome)
      requires Valid()
      modifies this
      ensures Valid()
      ensures var built := buildCorpora(classdict, analyse);
              dictionary == Some(built.dictionary) && corpus == Some(built.corpus) &&
              classlabels == Some(built.classlabels) && labels2idx == Some(LabelIndex.IndexLabels(built.classlabels))
      ensures var built := buildCorpora(classdict, analyse);
              var l2i := LabelIndex.IndexLabels(built.classlabels);
              var err := DatasetError(built.dictionary, l2i, analyse, classdict);
              (r.Fail? <==> err.Some?) &&
              (r.Fail? ==> r.error == err.value && trained == old(trained) && model == old(model)) &&
              (r.Pass? ==>
                 trained &&
                 model == Some(fit(config, built.dictionary.size, |built.classlabels|,
                                   DatasetX(built.dictionary, l2i, analyse, classdict), DatasetY(l2i, classdict))))
      ensures var built := buildCorpora(classdict, analyse);
              (WellFormed(built.dictionary) && LabelIndex.Distinct(built.classlabels) &&
               Covers(built.dictionary, analyse, classdict)) ==> r.Pass?
    {
      var built := buildCorpora(classdict, analyse);
      dictionary, corpus, classlabels := Some(built.dictionary), Some(built.corpus), Some(built.classlabels);
      var indexed := IndexClasslabels();
      var xy := EncodeTrainingSet(classdict);
      if WellFormed(built.dictionary) && LabelIndex.Distinct(built.classlabels) && Covers(built.dictionary, analyse, classdict) {
        TrainingDataEncodes(built.dictionary, built.classlabels, analyse, classdict);
      }
      if xy.Failure? {
        return Fail(xy.error);
      }
      model := Some(fit(config, built.dictionary.size, |built.classlabels|, xy.value.0, xy.value.1));
      trained := true;
      return Pass;
    }

    /** `savemodel`: refuses an untrained classifier and changes nothing;
        otherwise the network, the dictionary, the newline-joined labels and
        the label index. */
    method SaveModel() returns (r: Result<SavedModel>)
      requires Valid()
      ensures !trained ==> r == Failure(ModelNotTrained)
      ensures trained ==>
                r == Success(SavedModel(model.value, dictionary.value, LabelFile.JoinLines(classlabels.value), labels2idx.value))
    {
      if !trained {
        return Failure(ModelNotTrained);
      }
      return Success(SavedModel(model.value, dictionary.value, LabelFile.JoinLines(classlabels.value), labels2idx.value));
    }

    /** `loadmodel`: takes every artifact as it is, with no check that they
        agree with each other, and marks the classifier trained. */
    method LoadModel(saved: SavedModel)
      modifies this
      ensures Valid() && trained
      ensures model == Some(saved.network) && dictionary == Some(saved.dictionary)
      ensures classlabels == Some(LabelFile.ParseLabels(saved.classlabelsText)) && labels2idx == Some(saved.labels2idx)
      ensures corpus == old(corpus)
    {
      model := Some(saved.network);
      dictionary := Some(saved.dictionary);
      classlabels := Some(LabelFile.ParseLabels(saved.classlabelsText));
      labels2idx := Some(saved.labels2idx);
      trained := true;
    }

    /** `score`: refuses an untrained classifier; otherwise the network's
        output for the text's indicator row, keyed by class label. Nothing
        changes either way. */
    method Score(text: string) returns (r: Result<map<string, real>>)
      requires Valid()
      ensures !trained ==> r == Failure(ModelNotTrained)
      ensures trained ==>
                var v := dictionary.value;
                var err := TokenError(v, analyse(text));
                (err.Some? ==> r == Failure(err.value)) &&
                (err.None? ==> r == LabelIndex.ScoreDict(classlabels.value, predict(model.value, IndicatorRow(v, analyse(text)))))
      ensures trained && r.Success? ==>
                var predictions := predict(model.value, IndicatorRow(dictionary.value, analyse(text)));
                r.value.Keys == LabelIndex.Elements(classlabels.value) &&
                forall i :: 0 <= i < |classlabels.value| && LabelIndex.LastOccurrence(classlabels.value, i) ==>
                  r.value[classlabels.value[i]] == predictions[i]
    {
      if !trained {
        return Failure(ModelNotTrained);
      }
      var vec := ShortTextToVec(text);
      if vec.Failure? {
        return Failure(vec.error);
      }
      RowsOfRepresented(vec.value, [IndicatorRow(dictionary.value, analyse(text))]);
      var predictions := predict(model.value, Rows(vec.value)[0]);
      LabelIndex.ScoreDictMeaning(classlabels.value, predictions);
      return LabelIndex.ScoreDict(classlabels.value, predictions);
    }
  }

  /** Rows `0 .. |e|` of X and y encode the examples `e`. */
  ghost predicate Encodes(X: array2<nat>, y: array2<nat>, v: Vocabulary, labels2idx: map<string, nat>,
                          analyse: string -> seq<string>, e: seq<(string, string)>)
    reads X, y
  {
    |e| <= X.Length0 && |e| <= y.Length0 &&
    forall row :: 0 <= row < |e| ==>
      RowIs(X, row, CountRow(v, analyse(e[row].1))) &&
      e[row].0 in labels2idx && RowIs(y, row, OneHot(|labels2idx|, labels2idx[e[row].0]))
  }

  /** X and y have the shape of the training matrices, rows `0 .. |e|` encode
      the examples `e` and all rows after them are still zero. */
  ghost predicate FilledUpTo(X: array2<nat>, y: array2<nat>, v: Vocabulary, labels2idx: map<string, nat>,
                             analyse: string -> seq<string>, e: seq<(string, string)>)
    reads X, y
  {
    X != y && X.Length0 == y.Length0 && X.Length1 == v.size && y.Length1 == |labels2idx| &&
    Encodes(X, y, v, labels2idx, analyse, e) && ZeroFrom(X, |e|) && ZeroFrom(y, |e|)
  }

  /** Every row from `start` on is still all zeros. */
  ghost predicate ZeroFrom(m: array2<nat>, start: nat)
    reads m
  {
    forall r, c :: start <= r < m.Length0 && 0 <= c < m.Length1 ==> m[r, c] == 0
  }

  /** One more dict entry adds its contribution, within `nb_data` rows, and
      an error it raises is the error of the whole dict. */
  lemma EntryStep(check: ((string, string)) -> Option<Error>, cd: ClassDict, i: nat, labels2idx: map<string, nat>)
    requires i < |cd| && FirstError(check, Emitted(cd[..i], labels2idx)) == None
    ensures Emitted(cd[..i + 1], labels2idx) == Emitted(cd[..i], labels2idx) + Contribution(cd[i], labels2idx)
    ensures |Emitted(cd[..i + 1], labels2idx)| <= NbData(cd)
    ensures FirstError(check, Emitted(cd[..i + 1], labels2idx)) == FirstError(check, Contribution(cd[i], labels2idx))
    ensures FirstError(check, Contribution(cd[i], labels2idx)).Some? ==>
              FirstError(check, Emitted(cd, labels2idx)) == FirstError(check, Contribution(cd[i], labels2idx))
  {
    EmittedStep(cd, i, labels2idx);
    PrefixWithinNbData(cd, i + 1, labels2idx);
    FirstErrorConcat(check, Emitted(cd[..i], labels2idx), Contribution(cd[i], labels2idx));
    if FirstError(check, Contribution(cd[i], labels2idx)).Some? {
      ErrorOfPrefix(check, cd, i + 1, labels2idx);
    }
  }

  lemma EmittedStep(cd: ClassDict, i: nat, labels2idx: map<string, nat>)
    requires i < |cd|
    ensures Emitted(cd[..i + 1], labels2idx) == Emitted(cd[..i], labels2idx) + Contribution(cd[i], labels2idx)
  {
    var step := cd[..i + 1];
    assert step[..|step| - 1] == cd[..i] && step[|step| - 1] == cd[i];
    EmittedLast(step, labels2idx);
  }

  lemma PrefixWithinNbData(cd: ClassDict, i: nat, labels2idx: map<string, nat>)
    requires i <= |cd|
    ensures |Emitted(cd[..i], labels2idx)| <= NbData(cd)
  {
    assert cd == cd[..i] + cd[i..];
    NbDataConcat(cd[..i], cd[i..]);
  }

  /** An error raised within the first `i` entries is the error of the whole dict. */
  lemma ErrorOfPrefix(check: ((string, string)) -> Option<Error>, cd: ClassDict, i: nat,
                      labels2idx: map<string, nat>)
    requires i <= |cd| && FirstError(check, Emitted(cd[..i], labels2idx)).Some?
    ensures FirstError(check, Emitted(cd, labels2idx)) == FirstError(check, Emitted(cd[..i], labels2idx))
  {
    assert cd == cd[..i] + cd[i..];
    EmittedConcat(cd[..i], cd[i..], labels2idx);
    FirstErrorPersists(check, Emitted(cd[..i], labels2idx), Emitted(cd[i..], labels2idx));
  }

  /** Arrays of `nb_data` rows that encode every emitted example and are zero
      below them hold DatasetX and DatasetY. */
  lemma FilledRepresents(X: array2<nat>, y: array2<nat>, v: Vocabulary, labels2idx: map<string, nat>,
                         analyse: string -> seq<string>, cd: ClassDict)
    requires X.Length0 == NbData(cd) && FilledUpTo(X, y, v, labels2idx, analyse, Emitted(cd, labels2idx))
    ensures Represents(X, DatasetX(v, labels2idx, analyse, cd))
    ensures Represents(y, DatasetY(labels2idx, cd))
  {
    var e := Emitted(cd, labels2idx);
    forall row | 0 <= row < NbData(cd)
      ensures RowIs(X, row, DatasetX(v, labels2idx, analyse, cd)[row])
      ensures RowIs(y, row, DatasetY(labels2idx, cd)[row])
    {
      assert DatasetX(v, labels2idx, analyse, cd)[row] == ExampleRow(v, analyse, e, row);
      if row < |e| {
        assert DatasetY(labels2idx, cd)[row] == OneHot(|labels2idx|, labels2idx[e[row].0]);
        assert RowIs(y, row, OneHot(|labels2idx|, labels2idx[e[row].0]));
      } else {
        assert DatasetY(labels2idx, cd)[row] == Zeros(|labels2idx|);
      }
    }
  }

  /** The inner loop of `gensimcorpus_to_matrix`: `matrix[d, id] = count` for
      each pair of one document, so a repeated id keeps its last count. Only
      row d changes. */
  method CopyDocument(m: array2<nat>, d: nat, doc: seq<(nat, nat)>) returns (err: Option<Error>)
    requires d < m.Length0 && forall c :: 0 <= c < m.Length1 ==> m[d, c] == 0
    modifies m
    ensures err == DocumentError(m.Length1, doc)
    ensures err.None? ==> RowIs(m, d, DocumentRow(m.Length1, doc))
    ensures forall r, c :: 0 <= r < m.Length0 && r != d && 0 <= c < m.Length1 ==> m[r, c] == old(m[r, c])
  {
    var n := m.Length1;
    var k := 0;
    while k < |doc|
      invariant 0 <= k <= |doc|
      invariant DocumentError(n, doc[..k]) == None
      invariant forall c :: 0 <= c < n ==> m[d, c] == LastCount(doc[..k], c)
      invariant forall r, c :: 0 <= r < m.Length0 && r != d && 0 <= c < n ==> m[r, c] == old(m[r, c])
    {
      var (id, count) := doc[k];
      if id >= n {
        FirstErrorStops(PairChecker(n), doc, k);
        assert PairChecker(n)(doc[k]) == CheckPair(n, doc[k]);
        return Some(IndexError(id));
      }
      m[d, id] := count;
      assert doc[..k + 1][..k] == doc[..k];
      k := k + 1;
    }
    assert doc[..k] == doc;
    return None;
  }

  /** One more token adds the column of its id to the occurring ones. */
  lemma OccursStep(v: Vocabulary, tokens: seq<string>, k: nat)
    requires k < |tokens|
    ensures forall c :: Occurs(v, tokens[..k + 1], c) <==> Occurs(v, tokens[..k], c) || HasId(v, tokens[k], c)
  {
    forall c ensures Occurs(v, tokens[..k + 1], c) <==> Occurs(v, tokens[..k], c) || HasId(v, tokens[k], c) {
      if Occurs(v, tokens[..k + 1], c) {
        var j :| 0 <= j < k + 1 && HasId(v, tokens[..k + 1][j], c);
        if j < k { assert tokens[..k][j] == tokens[j]; }
      }
      if Occurs(v, tokens[..k], c) {
        var j :| 0 <= j < k && HasId(v, tokens[..k][j], c);
        assert tokens[..k + 1][j] == tokens[j];
      }
      if HasId(v, tokens[k], c) {
        assert tokens[..k + 1][k] == tokens[k];
      }
    }
  }

  /** `c.lower()` for one character, on the ASCII letters. */
  function LowerChar(c: char): char {
    if 'A' <= c <= 'Z' then (c as int + 32) as char else c
  }

  /** `s.lower()`, the default preprocessor of `__init__`. */
  function Lower(s: string): string {
    seq(|s|, i requires 0 <= i < |s| => LowerChar(s[i]))
  }

  /** The tokenizer of a classifier built with the default preprocessor:
      `tokenize(s.lower())`. */
  function DefaultAnalyse(tokenize: string -> seq<string>): string -> seq<string> {
    s => tokenize(Lower(s))
  }

  /** `load_maxent_classifier(name, compact=False)`: a new classifier built with
      the default preprocessor, since none is saved, and loaded from the saved
      artifacts. */
  method LoadMaxEntClassifier(saved: SavedModel, tokenize: string -> seq<string>,
                              predict: (Network, seq<nat>) -> seq<real>)
    returns (c: MaxEntClassifier)
    ensures fresh(c) && c.Valid() && c.trained && c.corpus == None
    ensures forall s :: c.analyse(s) == tokenize(Lower(s))
    ensures c.predict == predict
    ensures c.model == Some(saved.network) && c.dictionary == Some(saved.dictionary)
    ensures c.classlabels == Some(LabelFile.ParseLabels(saved.classlabelsText)) && c.labels2idx == Some(saved.labels2idx)
  {
    c := new MaxEntClassifier(DefaultAnalyse(tokenize), predict);
    c.LoadModel(saved);
  }

  /** Saving a trained classifier whose labels survive the label file and
      loading it into a new classifier with the same preprocessor and network
      (`MaxEntClassifier(preprocessor).loadmodel(name)`) keeps every score. */
  method SaveLoadScoresAgree(c: MaxEntClassifier, text: string)
    returns (before: Result<map<string, real>>, after: Result<map<string, real>>)
    requires c.Valid() && c.trained
    requires forall i :: 0 <= i < |c.classlabels.value| ==> LabelFile.CleanLabel(c.classlabels.value[i])
    ensures before == after
  {
    var saved := c.SaveModel();
    var loaded := new MaxEntClassifier(c.analyse, c.predict);
    loaded.LoadModel(saved.value);
    LabelFile.LabelFileRoundTrip(c.classlabels.value);
    before := c.Score(text);
    after := loaded.Score(text);
  }

  /** The same through `load_maxent_classifier`, for a classifier that was
      built with the default preprocessor. */
  method LoadedScoresAgree(c: MaxEntClassifier, tokenize: string -> seq<string>, text: string)
    returns (before: Result<map<string, real>>, after: Result<map<string, real>>)
    requires c.Valid() && c.trained
    requires forall i :: 0 <= i < |c.classlabels.value| ==> LabelFile.CleanLabel(c.classlabels.value[i])
    requires forall s :: c.analyse(s) == tokenize(Lower(s))
    ensures before == after
  {
    var saved := c.SaveModel();
    var loaded := LoadMaxEntClassifier(saved.value, tokenize, c.predict);
    LabelFile.LabelFileRoundTrip(c.classlabels.value);
    before := c.Score(text);
    after := loaded.Score(text);
  }

  /** A custom preprocessor does not survive `load_maxent_classifier`: a
      classifier built with `preprocessor=lambda s: s` whose dictionary knows
      only "Apple" scores the text "Apple", while the reloaded classifier
      lower-cases it and raises KeyError("apple"). A one-word text is taken
      to be its own single token. */
  method CustomPreprocessorIsLost() returns (before: Result<map<string, real>>, after: Result<map<string, real>>)
    ensures before == Success(map["X" := 1.0])
    ensures after == Failure(KeyError("apple"))
  {
    var tokenize: string -> seq<string> := s => [s];
    var predict: (Network, seq<nat>) -> seq<real> := (n, row) => [1.0];
    var c := new MaxEntClassifier(tokenize, predict);
    var v := Vocabulary(map["Apple" := 0], 1);
    c.LoadModel(SavedModel(Network([], []), v, "X", map["X" := 0]));
    assert LabelFile.CleanLabel("X") && LabelFile.JoinLines(["X"]) == "X";
    LabelFile.LabelFileRoundTrip(["X"]);
    assert c.classlabels == Some(["X"]);
    assert LabelIndex.EnumerateToMap(["X"], [1.0]) == map["X" := 1.0];
    var saved := c.SaveModel();
    var loaded := LoadMaxEntClassifier(saved.value, tokenize, predict);
    assert c.analyse("Apple") == ["Apple"];
    assert TokenError(v, ["Apple"]) == None by {
      assert ["Apple"][..0] == [];
    }
    before := c.Score("Apple");
    assert LabelIndex.ScoreDict(["X"], [1.0]) == Success(map["X" := 1.0]);
    assert Lower("Apple") == "apple";
    after := loaded.Score("Apple");
  }
}
