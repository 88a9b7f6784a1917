/** Post-processing of the classifier's raw score vector
    (`NSFWDetector.getTopPredictions`): every score is paired with its class
    label, the pairs are sorted by descending probability with a stable sort
    (as `Array.prototype.sort` is), and the first `topK` are kept. */
module Ranking {
  import opened Numbers

  /** The model's five output categories in the order of its output units.
      `Undefined` is what the class table yields for an index it has no entry
      for. */
  datatype Label = Drawing | Hentai | Neutral | Porn | Sexy | Undefined

  /** The class table: score index `i` is labelled `ClassOf(i)`. */
  function ClassOf(i: nat): Label {
    match i
    case 0 => Drawing
    case 1 => Hentai
    case 2 => Neutral
    case 3 => Porn
    case 4 => Sexy
    case _ => Undefined
  }

  /** Position of a label in the class table; `Undefined` comes after all. */
  function ClassIndex(l: Label): nat {
    match l
    case Drawing => 0
    case Hentai => 1
    case Neutral => 2
    case Porn => 3
    case Sexy => 4
    case Undefined => 5
  }

  datatype Prediction = Prediction(className: Label, probability: real)

  /** The prediction built for score index `i`. */
  function Pair(values: seq<real>, i: nat): Prediction
    requires i < |values|
  {
    Prediction(ClassOf(i), values[i])
  }

  /** All predictions in score-index order, before sorting. */
  function Pairs(values: seq<real>): (ps: seq<Prediction>)
    ensures |ps| == |values|
    ensures forall i :: 0 <= i < |values| ==> ps[i] == Pair(values, i)
  {
    seq(|values|, i requires 0 <= i < |values| => Pair(values, i))
  }

  /** The probabilities of a prediction sequence, position by position. */
  function Scores(s: seq<Prediction>): (v: seq<real>)
    ensures |v| == |s|
    ensures forall i :: 0 <= i < |s| ==> v[i] == s[i].probability
  {
    seq(|s|, i requires 0 <= i < |s| => s[i].probability)
  }

  /** Non-increasing by probability. */
  predicate Descending(s: seq<Prediction>) {
    forall i, j :: 0 <= i < j < |s| ==> s[i].probability >= s[j].probability
  }

  /** Labels appear in class-table order. */
  predicate ClassOrdered(s: seq<Prediction>) {
    forall i, j :: 0 <= i < j < |s| ==> ClassIndex(s[i].className) <= ClassIndex(s[j].className)
  }

  /** Predictions with equal probability appear in class-table order: what a
      stable sort of `Pairs(values)` leaves behind. */
  predicate TiesInClassOrder(s: seq<Prediction>) {
    forall i, j :: 0 <= i < j < |s| && s[i].probability == s[j].probability ==>
      ClassIndex(s[i].className) <= ClassIndex(s[j].className)
  }

  /** Inserts `x` into a descending sequence in front of every element whose
      probability it reaches, so that `x`, which came earlier in the input,
      stays in front of its ties. */
  function Insert(x: Prediction, s: seq<Prediction>): (r: seq<Prediction>)
    requires Descending(s)
    ensures |r| == |s| + 1
    ensures r[0] == x || (|s| > 0 && r[0] == s[0])
    ensures multiset(r) == multiset(s) + multiset{x}
    ensures Descending(r)
  {
    if |s| == 0 || x.probability >= s[0].probability then
      [x] + s
    else
      var rest := Insert(x, s[1..]);
      assert multiset(s) == multiset{s[0]} + multiset(s[1..]) by {
        assert s == [s[0]] + s[1..];
      }
      PrependKeepsDescending(s[0], rest);
      [s[0]] + rest
  }

  lemma PrependKeepsDescending(y: Prediction, t: seq<Prediction>)
    requires Descending(t)
    requires |t| > 0 ==> y.probability >= t[0].probability
    ensures Descending([y] + t)
  {
  }

  /** Stable sort by descending probability (insertion sort). */
  function SortDescending(s: seq<Prediction>): (r: seq<Prediction>)
    ensures |r| == |s|
    ensures multiset(r) == multiset(s)
    ensures Descending(r)
  {
    if |s| == 0 then
      []
    else
      assert s == [s[0]] + s[1..];
      Insert(s[0], SortDescending(s[1..]))
  }

  /** Inserting an element that precedes everything in class order keeps
      ties in class order. */
  lemma {:induction false} InsertKeepsTieOrder(x: Prediction, s: seq<Prediction>)
    requires Descending(s)
    requires TiesInClassOrder(s)
    requires forall k :: 0 <= k < |s| ==> ClassIndex(x.className) <= ClassIndex(s[k].className)
    ensures TiesInClassOrder(Insert(x, s))
  {
    if |s| > 0 && x.probability < s[0].probability {
      InsertKeepsTieOrder(x, s[1..]);
    }
  }

  /** The sort is stable: input in class order leaves ties in class order. */
  lemma {:induction false} SortIsStable(s: seq<Prediction>)
    requires ClassOrdered(s)
    ensures TiesInClassOrder(SortDescending(s))
  {
    if |s| > 0 {
      var sorted := SortDescending(s[1..]);
      SortIsStable(s[1..]);
      forall k | 0 <= k < |sorted|
        ensures ClassIndex(s[0].className) <= ClassIndex(sorted[k].className)
      {
        assert sorted[k] in multiset(s[1..]);
        var m :| 0 <= m < |s[1..]| && s[1..][m] == sorted[k];
        assert s[1 + m] == sorted[k];
      }
      InsertKeepsTieOrder(s[0], sorted);
    }
  }

  /** End index of JavaScript's `slice(0, k)` on a sequence of length `n`. */
  function SliceEnd(n: nat, k: int): (e: nat)
    ensures e <= n
    ensures 0 <= k ==> e == Min(k, n)
    ensures k < 0 ==> e == Max(n + k, 0)
  {
    if k < 0 then Max(n + k, 0) else Min(k, n)
  }

  /** `getTopPredictions(logits, topK)` on the score vector `values`. */
  function GetTopPredictions(values: seq<real>, topK: int): (r: seq<Prediction>)
    ensures 0 <= topK ==> |r| == Min(topK, |values|)
    ensures topK < 0 ==> |r| == Max(|values| + topK, 0)
    ensures Descending(r)
    ensures TiesInClassOrder(r)
    ensures multiset(r) <= multiset(Pairs(values))
    ensures topK >= |values| ==> multiset(r) == multiset(Pairs(values))
  {
    PairsAreClassOrdered(values);
    SortIsStable(Pairs(values));
    var sorted := SortDescending(Pairs(values));
    var e := SliceEnd(|values|, topK);
    assert sorted == sorted[..e] + sorted[e..];
    assert e == |sorted| ==> sorted[..e] == sorted;
    sorted[..e]
  }

  lemma PairsAreClassOrdered(values: seq<real>)
    ensures ClassOrdered(Pairs(values))
  {
  }

  /** First index holding the largest score. */
  function ArgMax(v: seq<real>): (i: nat)
    requires |v| > 0
    ensures i < |v|
    ensures forall j :: 0 <= j < |v| ==> v[j] <= v[i]
    ensures forall j :: 0 <= j < i ==> v[j] < v[i]
  {
    if |v| == 1 then
      0
    else
      var k := ArgMax(v[1..]);
      if v[0] >= v[1 + k] then 0 else 1 + k
  }

  /** The head of the stable sort is the first prediction with the largest
      probability. */
  lemma {:induction false} SortHeadIsFirstMaximum(s: seq<Prediction>)
    requires |s| > 0
    ensures SortDescending(s)[0] == s[ArgMax(Scores(s))]
  {
    if |s| > 1 {
      var rest := s[1..];
      var v := Scores(s);
      assert v[1..] == Scores(rest);
      var k := ArgMax(Scores(rest));
      assert ArgMax(v) == if v[0] >= v[1 + k] then 0 else 1 + k;
      var sorted := SortDescending(rest);
      SortHeadIsFirstMaximum(rest);
      assert sorted[0] == s[1 + k];
      assert SortDescending(s) == Insert(s[0], sorted);
    }
  }

  /** The top prediction carries the first largest score and its label. */
  lemma TopIsFirstMaximum(values: seq<real>, topK: int)
    requires |GetTopPredictions(values, topK)| > 0
    ensures GetTopPredictions(values, topK)[0] == Pair(values, ArgMax(values))
  {
    SortHeadIsFirstMaximum(Pairs(values));
    assert Scores(Pairs(values)) == values;
  }

  /** When a prefix of `sorted` holds fewer copies of `p` than the whole,
      some copy sits at or after the cut. */
  lemma CutCopyIsAfter(sorted: seq<Prediction>, e: nat, p: Prediction) returns (k: nat)
    requires e <= |sorted|
    requires multiset(sorted[..e])[p] < multiset(sorted)[p]
    ensures e <= k < |sorted| && sorted[k] == p
  {
    assert sorted == sorted[..e] + sorted[e..];
    assert multiset(sorted) == multiset(sorted[..e]) + multiset(sorted[e..]);
    assert p in multiset(sorted[e..]);
    var m :| 0 <= m < |sorted[e..]| && sorted[e..][m] == p;
    k := e + m;
  }

  /** Every score that did not make it into the top-K is at most every score
      that did, and a dropped score tied with a kept one comes no earlier in
      the class table: the truncation drops the lowest-ranked predictions,
      and among ties the later classes. A prediction counts as dropped when
      the top-K holds fewer copies of it than the labelled scores do, so a
      repeated `Undefined` pair past index 4 is covered copy by copy. */
  lemma KeptDominateDropped(values: seq<real>, topK: int)
    ensures var r := GetTopPredictions(values, topK);
      forall i, j :: 0 <= i < |values| && 0 <= j < |r|
                     && multiset(r)[Pair(values, i)] < multiset(Pairs(values))[Pair(values, i)] ==>
        && values[i] <= r[j].probability
        && (values[i] == r[j].probability ==> ClassIndex(r[j].className) <= ClassIndex(ClassOf(i)))
  {
    var sorted := SortDescending(Pairs(values));
    PairsAreClassOrdered(values);
    SortIsStable(Pairs(values));
    var r := GetTopPredictions(values, topK);
    assert r == sorted[..|r|];
    forall i, j | 0 <= i < |values| && 0 <= j < |r|
                  && multiset(r)[Pair(values, i)] < multiset(Pairs(values))[Pair(values, i)]
      ensures values[i] <= r[j].probability
      ensures values[i] == r[j].probability ==> ClassIndex(r[j].className) <= ClassIndex(ClassOf(i))
    {
      var k := CutCopyIsAfter(sorted, |r|, Pair(values, i));
      assert r[j] == sorted[j];
    }
  }
}
