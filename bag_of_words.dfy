/** What the encoders of MaxEntClassifier compute, as functions of their
    inputs: the bag-of-words count matrix X and the one-hot label matrix y of
    `convert_classdict_to_XY`, the indicator row of `shorttext_to_vec` and the
    matrix of `gensimcorpus_to_matrix`, together with the errors their loops
    raise. The methods of MaxEntClassification fill arrays and are proved to
    produce exactly these values. */
module BagOfWords {
  import opened Failures
  import LabelIndex

  /** A gensim Dictionary, as far as the classifier uses it: `token2id` and
      `len(dictionary)`. */
  datatype Vocabulary = Vocabulary(token2id: map<string, nat>, size: nat)

  /** What gensim guarantees of a dictionary it built: every id is a column of
      a `len(dictionary)`-wide matrix. */
  ghost predicate WellFormed(v: Vocabulary) {
    forall t :: t in v.token2id ==> v.token2id[t] < v.size
  }

  /** A training set: the label -> examples dict, in its iteration order. */
  type ClassDict = seq<(string, seq<string>)>

  /** A gensim bag-of-words corpus: per document, its (token id, count) pairs. */
  type Corpus = seq<seq<(nat, nat)>>

  // ---------------------------------------------------------------------------
  // Rows of one text

  /** What `X[row, token2id[token]]` raises for one token, if anything: a
      KeyError for a token the dictionary lacks, an IndexError for an id
      outside the row. */
  function CheckToken(v: Vocabulary, token: string): Option<Error> {
    if token !in v.token2id then Some(KeyError(token))
    else if v.token2id[token] >= v.size then Some(IndexError(v.token2id[token]))
    else None
  }

  /** The error of a loop over the tokens of one text. */
  function TokenError(v: Vocabulary, tokens: seq<string>): Option<Error> {
    FirstError(TokenChecker(v), tokens)
  }

  function TokenChecker(v: Vocabulary): string -> Option<Error> {
    t => CheckToken(v, t)
  }

  predicate HasId(v: Vocabulary, token: string, c: nat) {
    token in v.token2id && v.token2id[token] == c
  }

  /** How many of the tokens have id `c`. */
  function Count(v: Vocabulary, tokens: seq<string>, c: nat): nat
    decreases |tokens|
  {
    if tokens == [] then 0
    else Count(v, tokens[..|tokens| - 1], c) + (if HasId(v, tokens[|tokens| - 1], c) then 1 else 0)
  }

  /** The bag-of-words row of a text: column c counts the tokens with id c. */
  function CountRow(v: Vocabulary, tokens: seq<string>): (row: seq<nat>)
    ensures |row| == v.size
  {
    seq(v.size, c requires 0 <= c < v.size => Count(v, tokens, c))
  }

  predicate Occurs(v: Vocabulary, tokens: seq<string>, c: nat) {
    exists k :: 0 <= k < |tokens| && HasId(v, tokens[k], c)
  }

  /** The row of `shorttext_to_vec`: 1 in the column of every token that
      occurs, however often, 0 elsewhere. */
  function IndicatorRow(v: Vocabulary, tokens: seq<string>): (row: seq<nat>)
    ensures |row| == v.size
  {
    seq(v.size, c requires 0 <= c < v.size => if Occurs(v, tokens, c) then 1 else 0)
  }

  /** A row of width n of zeros. */
  function Zeros(n: nat): seq<nat> {
    seq(n, c => 0)
  }

  /** A row of width n with a single 1 in column k. */
  function OneHot(n: nat, k: nat): seq<nat> {
    seq(n, c => if c == k then 1 else 0)
  }

  function Sum(s: seq<nat>): nat
    decreases |s|
  {
    if s == [] then 0 else Sum(s[..|s| - 1]) + s[|s| - 1]
  }

  // ---------------------------------------------------------------------------
  // The dataset encoding of convert_classdict_to_XY

  /** `nb_data`: the number of examples under every key, known or not. */
  function NbData(cd: ClassDict): nat
    decreases |cd|
  {
    if cd == [] then 0 else NbData(cd[..|cd| - 1]) + |cd[|cd| - 1].1|
  }

  /** The examples of one label, each paired with the label. */
  function Tag(lbl: string, examples: seq<string>): seq<(string, string)> {
    seq(|examples|, j requires 0 <= j < |examples| => (lbl, examples[j]))
  }

  /** The (label, example) pairs that are given a row, in row order: labels in
      iteration order, the examples of each label in order, labels absent
      from labels2idx skipped. */
  function Emitted(cd: ClassDict, labels2idx: map<string, nat>): (e: seq<(string, string)>)
    ensures |e| <= NbData(cd)
    decreases |cd|
  {
    if cd == [] then [] else Emitted(cd[..|cd| - 1], labels2idx) + Contribution(cd[|cd| - 1], labels2idx)
  }

  /** Only labels with an index are emitted. */
  lemma {:induction false} EmittedKnown(cd: ClassDict, labels2idx: map<string, nat>)
    ensures forall k :: 0 <= k < |Emitted(cd, labels2idx)| ==> Emitted(cd, labels2idx)[k].0 in labels2idx
    decreases |cd|
  {
    if cd != [] {
      EmittedKnown(cd[..|cd| - 1], labels2idx);
    }
  }

  /** The rows one dict entry adds: its examples, or none when its label is unknown. */
  function Contribution(entry: (string, seq<string>), labels2idx: map<string, nat>): seq<(string, string)> {
    if entry.0 in labels2idx then Tag(entry.0, entry.1) else []
  }

  /** What filling the row of one example raises: first its tokens, then the
      label's column of y. The KeyError branch is never taken for an emitted
      example, whose label is known (`EmittedKnown`); it keeps the function
      total for any pair. */
  function ExampleError(v: Vocabulary, labels2idx: map<string, nat>, analyse: string -> seq<string>,
                        example: (string, string)): Option<Error>
  {
    match TokenError(v, analyse(example.1))
    case Some(e) => Some(e)
    case None =>
      if example.0 !in labels2idx then Some(KeyError(example.0))
      else if labels2idx[example.0] >= |labels2idx| then Some(IndexError(labels2idx[example.0]))
      else None
  }

  /** The error `convert_classdict_to_XY` raises, if any. */
  function DatasetError(v: Vocabulary, labels2idx: map<string, nat>, analyse: string -> seq<string>,
                        cd: ClassDict): Option<Error>
  {
    FirstError(ExampleChecker(v, labels2idx, analyse), Emitted(cd, labels2idx))
  }

  function ExampleChecker(v: Vocabulary, labels2idx: map<string, nat>, analyse: string -> seq<string>)
    : ((string, string)) -> Option<Error>
  {
    ex => ExampleError(v, labels2idx, analyse, ex)
  }

  /** The matrix X: `nb_data` rows of `len(dictionary)` columns, row r the
      token counts of the r-th emitted example, trailing rows all zero. */
  function DatasetX(v: Vocabulary, labels2idx: map<string, nat>, analyse: string -> seq<string>,
                    cd: ClassDict): (x: seq<seq<nat>>)
    ensures |x| == NbData(cd) && forall r :: 0 <= r < |x| ==> |x[r]| == v.size
  {
    var e := Emitted(cd, labels2idx);
    seq(NbData(cd), r requires 0 <= r < NbData(cd) => ExampleRow(v, analyse, e, r))
  }

  /** Row r of X: the counts of the r-th emitted example, or zeros past them. */
  function ExampleRow(v: Vocabulary, analyse: string -> seq<string>, e: seq<(string, string)>, r: nat)
    : (row: seq<nat>)
    ensures |row| == v.size
  {
    if r < |e| then CountRow(v, analyse(e[r].1)) else Zeros(v.size)
  }

  /** The matrix y: `nb_data` rows of `len(labels2idx)` columns, row r one-hot
      at the index of the r-th emitted example's label, trailing rows all zero. */
  function DatasetY(labels2idx: map<string, nat>, cd: ClassDict): (y: seq<seq<nat>>)
    ensures |y| == NbData(cd) && forall r :: 0 <= r < |y| ==> |y[r]| == |labels2idx|
  {
    var e := Emitted(cd, labels2idx);
    EmittedKnown(cd, labels2idx);
    seq(NbData(cd), r requires 0 <= r < NbData(cd) => if r < |e| then OneHot(|labels2idx|, labels2idx[e[r].0]) else Zeros(|labels2idx|))
  }

  // ---------------------------------------------------------------------------
  // The corpus matrix of gensimcorpus_to_matrix

  /** `matrix[docid, tokenid] = count` raises for an id outside the row. */
  function CheckPair(n: nat, pair: (nat, nat)): Option<Error> {
    if pair.0 >= n then Some(IndexError(pair.0)) else None
  }

  function DocumentError(n: nat, doc: seq<(nat, nat)>): Option<Error> {
    FirstError(PairChecker(n), doc)
  }

  function PairChecker(n: nat): ((nat, nat)) -> Option<Error> {
    p => CheckPair(n, p)
  }

  function CorpusError(n: nat, corpus: Corpus): Option<Error> {
    FirstError(DocumentChecker(n), corpus)
  }

  function DocumentChecker(n: nat): seq<(nat, nat)> -> Option<Error> {
    doc => DocumentError(n, doc)
  }

  /** The count of the last pair of `doc` with id t, 0 when there is none:
      each pair overwrites the cell. */
  function LastCount(doc: seq<(nat, nat)>, t: nat): nat
    decreases |doc|
  {
    if doc == [] then 0
    else if doc[|doc| - 1].0 == t then doc[|doc| - 1].1
    else LastCount(doc[..|doc| - 1], t)
  }

  /** Row d of the corpus matrix: the last count given to each id. */
  function DocumentRow(n: nat, doc: seq<(nat, nat)>): (row: seq<nat>)
    ensures |row| == n
  {
    seq(n, t requires 0 <= t < n => LastCount(doc, t))
  }

  /** The matrix of `gensimcorpus_to_matrix`: a row per document, a column per id. */
  function CorpusMatrix(n: nat, corpus: Corpus): (m: seq<seq<nat>>)
    ensures |m| == |corpus| && forall d :: 0 <= d < |m| ==> |m[d]| == n
  {
    seq(|corpus|, d requires 0 <= d < |corpus| => DocumentRow(n, corpus[d]))
  }

  // ---------------------------------------------------------------------------
  // Arrays as matrices

  /** Row r of m holds `row`. */
  ghost predicate RowIs(m: array2<nat>, r: nat, row: seq<nat>)
    reads m
  {
    r < m.Length0 && |row| == m.Length1 && forall c :: 0 <= c < m.Length1 ==> m[r, c] == row[c]
  }

  /** m holds the matrix s. */
  ghost predicate Represents(m: array2<nat>, s: seq<seq<nat>>)
    reads m
  {
    m.Length0 == |s| && forall r :: 0 <= r < |s| ==> RowIs(m, r, s[r])
  }

  /** `m.toarray()`: the rows of m. */
  function Rows(m: array2<nat>): (s: seq<seq<nat>>)
    reads m
    ensures |s| == m.Length0 && forall r :: 0 <= r < |s| ==> |s[r]| == m.Length1
  {
    seq(m.Length0, r requires 0 <= r < m.Length0 reads m =>
      seq(m.Length1, c requires 0 <= c < m.Length1 reads m => m[r, c]))
  }

  lemma RowsOfRepresented(m: array2<nat>, s: seq<seq<nat>>)
    requires Represents(m, s)
    ensures Rows(m) == s
  {
    forall r | 0 <= r < |s| ensures Rows(m)[r] == s[r] {
      assert RowIs(m, r, s[r]);
    }
  }

  // ---------------------------------------------------------------------------
  // Properties

  /** `nb_data` and the emitted rows add up over a split of the dict. */
  lemma {:induction false} NbDataConcat(a: ClassDict, b: ClassDict)
    ensures NbData(a + b) == NbData(a) + NbData(b)
    decreases |b|
  {
    if b == [] {
      assert a + b == a;
    } else {
      NbDataConcat(a, b[..|b| - 1]);
      assert (a + b)[..|a + b| - 1] == a + b[..|b| - 1];
    }
  }

  lemma DropLastOfConcat<T>(a: seq<T>, b: seq<T>)
    requires b != []
    ensures (a + b)[..|a + b| - 1] == a + b[..|b| - 1] && (a + b)[|a + b| - 1] == b[|b| - 1]
  {
  }

  lemma ConcatAssoc<T>(a: seq<T>, b: seq<T>, c: seq<T>)
    ensures a + (b + c) == (a + b) + c
  {
  }

  lemma EmittedLast(cd: ClassDict, labels2idx: map<string, nat>)
    requires cd != []
    ensures Emitted(cd, labels2idx) == Emitted(cd[..|cd| - 1], labels2idx) + Contribution(cd[|cd| - 1], labels2idx)
  {
  }

  lemma {:induction false} EmittedConcat(a: ClassDict, b: ClassDict, labels2idx: map<string, nat>)
    ensures Emitted(a + b, labels2idx) == Emitted(a, labels2idx) + Emitted(b, labels2idx)
    decreases |b|
  {
    if b == [] {
      assert a + b == a;
    } else {
      var init := b[..|b| - 1];
      EmittedConcat(a, init, labels2idx);
      DropLastOfConcat(a, b);
      EmittedLast(a + b, labels2idx);
      EmittedLast(b, labels2idx);
      ConcatAssoc(Emitted(a, labels2idx), Emitted(init, labels2idx), Contribution(b[|b| - 1], labels2idx));
    }
  }

  /** Row order: example j of the i-th label, when the label is known, sits in
      row `|Emitted(cd[..i])| + j`, right after the rows of the labels before it. */
  lemma RowOfExample(cd: ClassDict, labels2idx: map<string, nat>, i: nat, j: nat)
    requires i < |cd| && cd[i].0 in labels2idx && j < |cd[i].1|
    ensures |Emitted(cd[..i], labels2idx)| + j < |Emitted(cd, labels2idx)|
    ensures Emitted(cd, labels2idx)[|Emitted(cd[..i], labels2idx)| + j] == (cd[i].0, cd[i].1[j])
  {
    assert cd == cd[..i] + (cd[i..i + 1] + cd[i + 1..]);
    EmittedConcat(cd[..i], cd[i..i + 1] + cd[i + 1..], labels2idx);
    EmittedConcat(cd[i..i + 1], cd[i + 1..], labels2idx);
    assert cd[i..i + 1][..0] == [];
    assert Emitted(cd[i..i + 1], labels2idx) == Tag(cd[i].0, cd[i].1);
  }

  /** Every key contributes its examples, unless it is skipped: all `nb_data`
      rows are emitted exactly when no skipped key has examples. */
  lemma {:induction false} EmittedSize(cd: ClassDict, labels2idx: map<string, nat>)
    ensures |Emitted(cd, labels2idx)| == NbData(cd) <==>
              forall i :: 0 <= i < |cd| && cd[i].0 !in labels2idx ==> |cd[i].1| == 0
    decreases |cd|
  {
    if cd != [] {
      var init := cd[..|cd| - 1];
      EmittedSize(init, labels2idx);
      assert forall i :: 0 <= i < |init| ==> init[i] == cd[i];
    }
  }

  /** Two rows of one text: the indicator row of `shorttext_to_vec` is the
      count row with every positive count cut down to 1. */
  lemma {:induction false} CountPositiveIffOccurs(v: Vocabulary, tokens: seq<string>, c: nat)
    ensures Count(v, tokens, c) > 0 <==> Occurs(v, tokens, c)
    decreases |tokens|
  {
    if tokens != [] {
      var init := tokens[..|tokens| - 1];
      CountPositiveIffOccurs(v, init, c);
      if Occurs(v, init, c) {
        var k :| 0 <= k < |init| && HasId(v, init[k], c);
        assert HasId(v, tokens[k], c);
      }
      if Occurs(v, tokens, c) && !HasId(v, tokens[|tokens| - 1], c) {
        var k :| 0 <= k < |tokens| && HasId(v, tokens[k], c);
        assert HasId(v, init[k], c);
      }
    }
  }

  lemma IndicatorIsSaturatedCount(v: Vocabulary, tokens: seq<string>)
    ensures forall c :: 0 <= c < v.size ==>
              IndicatorRow(v, tokens)[c] == if CountRow(v, tokens)[c] > 0 then 1 else 0
  {
    forall c | 0 <= c < v.size
      ensures IndicatorRow(v, tokens)[c] == if CountRow(v, tokens)[c] > 0 then 1 else 0
    {
      CountPositiveIffOccurs(v, tokens, c);
    }
  }

  /** A text raises nothing exactly when every token has an id inside the row. */
  lemma TokenErrorNoneIff(v: Vocabulary, tokens: seq<string>)
    ensures TokenError(v, tokens) == None <==>
              forall k :: 0 <= k < |tokens| ==> tokens[k] in v.token2id && v.token2id[tokens[k]] < v.size
  {
    FirstErrorNoneIff(TokenChecker(v), tokens);
  }

  /** Adding one to a single entry adds one to the sum. */
  lemma {:induction false} SumIncrement(a: seq<nat>, b: seq<nat>, d: nat)
    requires |a| == |b| && d < |a| && b[d] == a[d] + 1
    requires forall c :: 0 <= c < |a| && c != d ==> b[c] == a[c]
    ensures Sum(b) == Sum(a) + 1
    decreases |a|
  {
    var n := |a|;
    if d == n - 1 {
      assert a[..n - 1] == b[..n - 1];
    } else {
      SumIncrement(a[..n - 1], b[..n - 1], d);
    }
  }

  /** Repeated tokens accumulate: the counts of a row add up to the number of
      tokens, when every token has an id inside the row. */
  lemma {:induction false} CountRowSum(v: Vocabulary, tokens: seq<string>)
    requires TokenError(v, tokens) == None
    ensures Sum(CountRow(v, tokens)) == |tokens|
    decreases |tokens|
  {
    TokenErrorNoneIff(v, tokens);
    if tokens == [] {
      SumZeros(v.size);
      assert CountRow(v, tokens) == Zeros(v.size);
    } else {
      var init := tokens[..|tokens| - 1];
      var last := tokens[|tokens| - 1];
      TokenErrorNoneIff(v, init);
      assert forall k :: 0 <= k < |init| ==> init[k] == tokens[k];
      CountRowSum(v, init);
      SumIncrement(CountRow(v, init), CountRow(v, tokens), v.token2id[last]);
    }
  }

  lemma {:induction false} SumZeros(n: nat)
    ensures Sum(Zeros(n)) == 0
    decreases n
  {
    if n > 0 {
      SumZeros(n - 1);
      assert Zeros(n)[..n - 1] == Zeros(n - 1);
    }
  }

  /** A one-hot row has a single 1: the entry at k, all others 0, one in total. */
  lemma {:induction false} OneHotSum(n: nat, k: nat)
    requires k < n
    ensures Sum(OneHot(n, k)) == 1
  {
    SumZeros(n);
    SumIncrement(Zeros(n), OneHot(n, k), k);
  }

  /** An example fills its rows without error: every token has an id inside
      the row of X and the label's index is a column of y. */
  predicate ExampleEncodes(v: Vocabulary, labels2idx: map<string, nat>, analyse: string -> seq<string>,
                           example: (string, string))
  {
    TokenError(v, analyse(example.1)) == None && example.0 in labels2idx && labels2idx[example.0] < |labels2idx|
  }

  /** The dataset encodes without error exactly when every emitted example does. */
  lemma DatasetErrorNoneIff(v: Vocabulary, labels2idx: map<string, nat>, analyse: string -> seq<string>,
                            cd: ClassDict)
    ensures DatasetError(v, labels2idx, analyse, cd) == None <==>
              forall r :: 0 <= r < |Emitted(cd, labels2idx)| ==>
                ExampleEncodes(v, labels2idx, analyse, Emitted(cd, labels2idx)[r])
  {
    var check := ExampleChecker(v, labels2idx, analyse);
    FirstErrorNoneIff(check, Emitted(cd, labels2idx));
    forall r | 0 <= r < |Emitted(cd, labels2idx)|
      ensures check(Emitted(cd, labels2idx)[r]) == None <==>
                ExampleEncodes(v, labels2idx, analyse, Emitted(cd, labels2idx)[r])
    {
      assert check(Emitted(cd, labels2idx)[r]) == ExampleError(v, labels2idx, analyse, Emitted(cd, labels2idx)[r]);
    }
    assert DatasetError(v, labels2idx, analyse, cd) == FirstError(check, Emitted(cd, labels2idx));
  }

  /** Without an error, each emitted row of X counts its example's tokens,
      each emitted row of y is one-hot at its label's index, and the trailing
      rows of both are zero. */
  lemma {:induction false} DatasetWellEncoded(v: Vocabulary, labels2idx: map<string, nat>, analyse: string -> seq<string>,
                           cd: ClassDict, r: nat)
    requires DatasetError(v, labels2idx, analyse, cd) == None && r < NbData(cd)
    ensures var e := Emitted(cd, labels2idx);
            var x := DatasetX(v, labels2idx, analyse, cd);
            var y := DatasetY(labels2idx, cd);
            if r < |e| then
              Sum(x[r]) == |analyse(e[r].1)| &&
              (forall c :: 0 <= c < v.size ==> x[r][c] == Count(v, analyse(e[r].1), c)) &&
              e[r].0 in labels2idx && labels2idx[e[r].0] < |labels2idx| && y[r][labels2idx[e[r].0]] == 1 && Sum(y[r]) == 1
            else
              Sum(x[r]) == 0 && Sum(y[r]) == 0
  {
    var e := Emitted(cd, labels2idx);
    if r < |e| {
      var tokens := analyse(e[r].1);
      EmittedRowEncodes(v, labels2idx, analyse, cd, r);
      assert DatasetX(v, labels2idx, analyse, cd)[r] == ExampleRow(v, analyse, e, r) == CountRow(v, tokens);
      assert DatasetY(labels2idx, cd)[r] == OneHot(|labels2idx|, labels2idx[e[r].0]);
      CountRowSum(v, tokens);
      OneHotSum(|labels2idx|, labels2idx[e[r].0]);
    } else {
      assert DatasetX(v, labels2idx, analyse, cd)[r] == ExampleRow(v, analyse, e, r) == Zeros(v.size);
      assert DatasetY(labels2idx, cd)[r] == Zeros(|labels2idx|);
      SumZeros(v.size);
      SumZeros(|labels2idx|);
    }
  }

  lemma EmittedRowEncodes(v: Vocabulary, labels2idx: map<string, nat>, analyse: string -> seq<string>,
                          cd: ClassDict, r: nat)
    requires DatasetError(v, labels2idx, analyse, cd) == None && r < |Emitted(cd, labels2idx)|
    ensures ExampleEncodes(v, labels2idx, analyse, Emitted(cd, labels2idx)[r])
  {
    DatasetErrorNoneIff(v, labels2idx, analyse, cd);
  }

  /** Every token of every example of the dict is in the dictionary. */
  predicate Covers(v: Vocabulary, analyse: string -> seq<string>, cd: ClassDict) {
    forall i, j, k :: 0 <= i < |cd| && 0 <= j < |cd[i].1| && 0 <= k < |analyse(cd[i].1[j])| ==>
      analyse(cd[i].1[j])[k] in v.token2id
  }

  /** At training time the dictionary is built from the same texts and the
      label index from distinct labels, so the encoding raises nothing. */
  lemma TrainingDataEncodes(v: Vocabulary, classlabels: seq<string>, analyse: string -> seq<string>,
                            cd: ClassDict)
    requires WellFormed(v) && LabelIndex.Distinct(classlabels) && Covers(v, analyse, cd)
    ensures DatasetError(v, LabelIndex.IndexLabels(classlabels), analyse, cd) == None
  {
    var l2i := LabelIndex.IndexLabels(classlabels);
    var e := Emitted(cd, l2i);
    LabelIndex.IndexLabelsInRange(classlabels);
    forall r | 0 <= r < |e|
      ensures TokenError(v, analyse(e[r].1)) == None && e[r].0 in l2i && l2i[e[r].0] < |l2i|
    {
      EmittedKnown(cd, l2i);
      EmittedFromDict(cd, l2i, r);
      TokenErrorNoneIff(v, analyse(e[r].1));
    }
    DatasetErrorNoneIff(v, l2i, analyse, cd);
  }

  /** Every emitted example is an example of the dict. */
  lemma {:induction false} EmittedFromDict(cd: ClassDict, labels2idx: map<string, nat>, r: nat)
    requires r < |Emitted(cd, labels2idx)|
    ensures exists i, j :: 0 <= i < |cd| && 0 <= j < |cd[i].1| && Emitted(cd, labels2idx)[r] == (cd[i].0, cd[i].1[j])
    decreases |cd|
  {
    var init := cd[..|cd| - 1];
    var ei := Emitted(init, labels2idx);
    if r < |ei| {
      EmittedFromDict(init, labels2idx, r);
      var i, j :| 0 <= i < |init| && 0 <= j < |init[i].1| && ei[r] == (init[i].0, init[i].1[j]);
      assert init[i] == cd[i];
    } else {
      var i := |cd| - 1;
      assert Emitted(cd, labels2idx)[r] == (cd[i].0, cd[i].1[r - |ei|]);
    }
  }

  /** Corpus cells: with distinct ids in a document, each pair's count lands in
      its cell, and cells of ids the document lacks stay 0. */
  lemma {:induction false} LastCountOfDistinctIds(doc: seq<(nat, nat)>, k: nat)
    requires k < |doc| && forall i, j :: 0 <= i < j < |doc| ==> doc[i].0 != doc[j].0
    ensures LastCount(doc, doc[k].0) == doc[k].1
    decreases |doc|
  {
    if k < |doc| - 1 {
      LastCountOfDistinctIds(doc[..|doc| - 1], k);
    }
  }

  lemma {:induction false} LastCountOfAbsentId(doc: seq<(nat, nat)>, t: nat)
    requires forall i :: 0 <= i < |doc| ==> doc[i].0 != t
    ensures LastCount(doc, t) == 0
    decreases |doc|
  {
    if doc != [] {
      LastCountOfAbsentId(doc[..|doc| - 1], t);
    }
  }

  /** The corpus is copied without error exactly when every id is a column. */
  lemma CorpusErrorNoneIff(n: nat, corpus: Corpus)
    ensures CorpusError(n, corpus) == None <==>
              forall d, k :: 0 <= d < |corpus| && 0 <= k < |corpus[d]| ==> corpus[d][k].0 < n
  {
    FirstErrorNoneIff(DocumentChecker(n), corpus);
    forall d | 0 <= d < |corpus| {
      FirstErrorNoneIff(PairChecker(n), corpus[d]);
    }
  }
}
