/** The two dict comprehensions over `enumerate(self.classlabels)` of
    MaxEntClassifier: the label index built by `index_classlabels` and the
    label-to-score dict built by `score`. */
module LabelIndex {
  import opened Failures

  /** `{keys[i]: values[i] for i, key in enumerate(keys)}`: positions are
      inserted in order, so a key that occurs twice keeps its later value. */
  function EnumerateToMap<V>(keys: seq<string>, values: seq<V>): map<string, V>
    requires |keys| <= |values|
    decreases |keys|
  {
    if keys == [] then map[]
    else EnumerateToMap(keys[..|keys| - 1], values)[keys[|keys| - 1] := values[|keys| - 1]]
  }

  /** The set of elements of a sequence. */
  function Elements(s: seq<string>): set<string> {
    set x | x in s
  }

  predicate Distinct(s: seq<string>) {
    forall i, j :: 0 <= i < j < |s| ==> s[i] != s[j]
  }

  /** Position `i` holds the last occurrence of its element. */
  predicate LastOccurrence(s: seq<string>, i: nat)
    requires i < |s|
  {
    forall j :: i < j < |s| ==> s[j] != s[i]
  }

  /** `range(n)` */
  function Positions(n: nat): seq<nat> {
    seq(n, i => i)
  }

  /** `index_classlabels`: each class label mapped to its position. */
  function IndexLabels(classlabels: seq<string>): map<string, nat> {
    EnumerateToMap(classlabels, Positions(|classlabels|))
  }

  /** The dict comprehension of `score`: `predictions[0][idx]` for each label,
      where indexing past the end of the prediction row raises IndexError at
      the first missing position. */
  function ScoreDict(classlabels: seq<string>, predictions: seq<real>): Result<map<string, real>> {
    if |predictions| < |classlabels| then Failure(IndexError(|predictions|))
    else Success(EnumerateToMap(classlabels, predictions))
  }

  /** The comprehension has exactly the listed keys. */
  lemma {:induction false} EnumerateKeys<V>(keys: seq<string>, values: seq<V>)
    requires |keys| <= |values|
    ensures EnumerateToMap(keys, values).Keys == Elements(keys)
    decreases |keys|
  {
    if keys != [] {
      var init := keys[..|keys| - 1];
      EnumerateKeys(init, values);
      assert keys == init + [keys[|keys| - 1]];
      assert Elements(keys) == Elements(init) + {keys[|keys| - 1]};
    }
  }

  /** The value of a key is the one at its last occurrence. */
  lemma {:induction false} EnumerateLast<V>(keys: seq<string>, values: seq<V>, i: nat)
    requires |keys| <= |values| && i < |keys| && LastOccurrence(keys, i)
    ensures keys[i] in EnumerateToMap(keys, values)
    ensures EnumerateToMap(keys, values)[keys[i]] == values[i]
    decreases |keys|
  {
    if i < |keys| - 1 {
      var init := keys[..|keys| - 1];
      EnumerateLast(init, values, i);
    }
  }

  /** Every key of the comprehension comes from a position that holds its
      last occurrence, and carries that position's value. */
  lemma {:induction false} EnumerateOrigin<V>(keys: seq<string>, values: seq<V>, k: string)
    requires |keys| <= |values| && k in EnumerateToMap(keys, values)
    ensures exists i :: 0 <= i < |keys| && keys[i] == k && LastOccurrence(keys, i) &&
                        EnumerateToMap(keys, values)[k] == values[i]
    decreases |keys|
  {
    var n := |keys|;
    if keys[n - 1] == k {
      assert LastOccurrence(keys, n - 1);
    } else {
      var init := keys[..n - 1];
      EnumerateOrigin(init, values, k);
      var i :| 0 <= i < |init| && init[i] == k && LastOccurrence(init, i) &&
               EnumerateToMap(init, values)[k] == values[i];
      assert LastOccurrence(keys, i);
    }
  }

  /** After `index_classlabels` the key set of labels2idx is the set of class
      labels, and each label maps to a position that holds it. */
  lemma IndexLabelsPointsBack(classlabels: seq<string>)
    ensures IndexLabels(classlabels).Keys == Elements(classlabels)
    ensures forall l :: l in IndexLabels(classlabels) ==>
              IndexLabels(classlabels)[l] < |classlabels| && classlabels[IndexLabels(classlabels)[l]] == l
  {
    var m := IndexLabels(classlabels);
    EnumerateKeys(classlabels, Positions(|classlabels|));
    forall l | l in m
      ensures m[l] < |classlabels| && classlabels[m[l]] == l
    {
      EnumerateOrigin(classlabels, Positions(|classlabels|), l);
    }
  }

  /** With distinct labels the index inverts the label list. */
  lemma IndexLabelsInverts(classlabels: seq<string>)
    requires Distinct(classlabels)
    ensures forall i :: 0 <= i < |classlabels| ==>
              classlabels[i] in IndexLabels(classlabels) && IndexLabels(classlabels)[classlabels[i]] == i
  {
    forall i | 0 <= i < |classlabels|
      ensures classlabels[i] in IndexLabels(classlabels) && IndexLabels(classlabels)[classlabels[i]] == i
    {
      EnumerateLast(classlabels, Positions(|classlabels|), i);
    }
  }

  /** A sequence has as many elements as positions exactly when it has no repeats. */
  lemma {:induction false} ElementsSize(s: seq<string>)
    ensures |Elements(s)| <= |s|
    ensures |Elements(s)| == |s| <==> Distinct(s)
    decreases |s|
  {
    if s != [] {
      var n := |s|;
      var init := s[..n - 1];
      ElementsSize(init);
      assert s == init + [s[n - 1]];
      assert Elements(s) == Elements(init) + {s[n - 1]};
      if s[n - 1] in Elements(init) {
        var j :| 0 <= j < |init| && init[j] == s[n - 1];
        assert s[j] == s[n - 1];
      } else {
        assert Distinct(s) <==> Distinct(init) by {
          if Distinct(init) {
            forall i, j | 0 <= i < j < n ensures s[i] != s[j] {
              if j < n - 1 { assert init[i] == s[i] && init[j] == s[j]; }
              else { assert s[i] == init[i] && init[i] in Elements(init); }
            }
          }
          if Distinct(s) {
            forall i, j | 0 <= i < j < n - 1 ensures init[i] != init[j] {
              assert init[i] == s[i] && init[j] == s[j];
            }
          }
        }
      }
    }
  }

  /** labels2idx has one entry per class label exactly when the labels are
      distinct; so the width `len(labels2idx)` of the label matrix equals the
      network's output count `len(classlabels)` only then. */
  lemma IndexLabelsSize(classlabels: seq<string>)
    ensures |IndexLabels(classlabels)| <= |classlabels|
    ensures |IndexLabels(classlabels)| == |classlabels| <==> Distinct(classlabels)
  {
    IndexLabelsPointsBack(classlabels);
    ElementsSize(classlabels);
  }

  /** With distinct labels every index is a column of a label matrix that has
      `len(labels2idx)` columns. */
  lemma IndexLabelsInRange(classlabels: seq<string>)
    requires Distinct(classlabels)
    ensures forall l :: l in IndexLabels(classlabels) ==> IndexLabels(classlabels)[l] < |IndexLabels(classlabels)|
  {
    IndexLabelsPointsBack(classlabels);
    IndexLabelsSize(classlabels);
  }

  /** The score dict has exactly the class labels as keys, and each label's
      value is the prediction at its position (its last position when it is
      repeated), with nothing re-normalised. */
  lemma ScoreDictMeaning(classlabels: seq<string>, predictions: seq<real>)
    ensures ScoreDict(classlabels, predictions).Success? <==> |classlabels| <= |predictions|
    ensures ScoreDict(classlabels, predictions).Failure? ==>
              ScoreDict(classlabels, predictions).error == IndexError(|predictions|)
    ensures ScoreDict(classlabels, predictions).Success? ==>
              ScoreDict(classlabels, predictions).value.Keys == Elements(classlabels) &&
              forall i :: 0 <= i < |classlabels| && LastOccurrence(classlabels, i) ==>
                ScoreDict(classlabels, predictions).value[classlabels[i]] == predictions[i]
  {
    if |classlabels| <= |predictions| {
      EnumerateKeys(classlabels, predictions);
      forall i | 0 <= i < |classlabels| && LastOccurrence(classlabels, i)
        ensures ScoreDict(classlabels, predictions).value[classlabels[i]] == predictions[i]
      {
        EnumerateLast(classlabels, predictions, i);
      }
    }
  }
}
