/** utils/nlp.py: text normalisation and the wrapper around clustering. */
module Nlp {
  import opened Wrappers
  import opened Text
  import opened Values

  // ---------------------------------------------------------------------
  // normalize (utils/nlp.py:22-30)
  // ---------------------------------------------------------------------

  /** The characters `[a-z0-9\s]` lets through. */
  predicate Kept(c: char) {
    IsAsciiLower(c) || IsAsciiDigit(c) || IsSpace(c)
  }

  /** `lower()`, NFKD and the removal of combining marks, applied character
      by character; `fold` gives what each character becomes. */
  function FoldAll(fold: char -> string, s: string): (r: string)
    ensures forall c :: c in r ==> exists j :: 0 <= j < |s| && c in fold(s[j])
  {
    if s == [] then []
    else
      var n := |s| - 1;
      var init := FoldAll(fold, s[..n]);
      assert forall c :: c in init ==> exists j :: 0 <= j < |s| && c in fold(s[j]) by {
        forall c | c in init ensures exists j :: 0 <= j < |s| && c in fold(s[j]) {
          var j :| 0 <= j < |s[..n]| && c in fold(s[..n][j]);
          assert s[..n][j] == s[j];
        }
      }
      init + fold(s[n])
  }

  /** `re.sub(r"[^a-z0-9\s]", " ", s)`. */
  function Scrub(s: string): (r: string)
    ensures |r| == |s|
    ensures forall k :: 0 <= k < |r| ==> Kept(r[k])
    ensures forall k :: 0 <= k < |r| ==> r[k] == s[k] || r[k] == ' '
    ensures forall k :: 0 <= k < |s| && Kept(s[k]) ==> r[k] == s[k]
  {
    seq(|s|, k requires 0 <= k < |s| => if Kept(s[k]) then s[k] else ' ')
  }

  /** `normalize(text)`: "" for anything that is not a string. */
  function Normalize(fold: char -> string, v: Option<Cell>): (r: string)
    ensures !(v.Some? && v.value.TextCell?) ==> r == ""
    ensures forall k :: 0 <= k < |r| ==> Kept(r[k])
    ensures Trimmed(r)
  {
    match v
    case Some(TextCell(s)) =>
      var scrubbed := Scrub(FoldAll(fold, s));
      StripKept(scrubbed);
      Strip(scrubbed)
    case _ => ""
  }

  /** Stripping a string of kept characters leaves kept characters. */
  lemma StripKept(s: string)
    requires forall k :: 0 <= k < |s| ==> Kept(s[k])
    ensures forall k :: 0 <= k < |Strip(s)| ==> Kept(Strip(s)[k])
  {
    var r := Strip(s);
    assert forall k :: 0 <= k < |r| ==> r[k] == s[LeadingSpaces(s) + k];
  }

  /** A fold leaves alone every kept character it can produce. */
  predicate FoldStable(fold: char -> string) {
    && fold(' ') == " "
    && forall c, d :: d in fold(c) && Kept(d) ==> fold(d) == [d]
  }

  /** Characters the fold leaves alone. */
  predicate FixedBy(fold: char -> string, s: string) {
    forall k :: 0 <= k < |s| ==> fold(s[k]) == [s[k]]
  }

  lemma StableAt(fold: char -> string, c: char, d: char)
    requires FoldStable(fold) && d in fold(c) && Kept(d)
    ensures fold(d) == [d]
  {
  }

  /** The kept characters of t are left alone by the fold. */
  predicate KeptFixedBy(fold: char -> string, t: string) {
    forall k :: 0 <= k < |t| && Kept(t[k]) ==> fold(t[k]) == [t[k]]
  }

  lemma {:induction false} FoldAllStable(fold: char -> string, s: string)
    requires FoldStable(fold)
    ensures KeptFixedBy(fold, FoldAll(fold, s))
  {
    if s != [] {
      FoldAllStable(fold, s[..|s| - 1]);
      var init := FoldAll(fold, s[..|s| - 1]);
      var last := fold(s[|s| - 1]);
      assert FoldAll(fold, s) == init + last;
      forall k | 0 <= k < |init + last| && Kept((init + last)[k])
        ensures fold((init + last)[k]) == [(init + last)[k]]
      {
        if k >= |init| {
          var d := last[k - |init|];
          assert (init + last)[k] == d;
          StableAt(fold, s[|s| - 1], d);
        } else {
          assert (init + last)[k] == init[k];
        }
      }
    }
  }

  lemma {:induction false} FoldAllFixed(fold: char -> string, s: string)
    requires FixedBy(fold, s)
    ensures FoldAll(fold, s) == s
  {
    if s != [] {
      FoldAllFixed(fold, s[..|s| - 1]);
      assert s == s[..|s| - 1] + [s[|s| - 1]];
    }
  }

  /** Scrubbing keeps the kept characters and writes spaces. */
  lemma ScrubFixed(fold: char -> string, s: string)
    requires fold(' ') == " " && KeptFixedBy(fold, s)
    ensures FixedBy(fold, Scrub(s))
  {
    var r := Scrub(s);
    forall k | 0 <= k < |r| ensures fold(r[k]) == [r[k]] {
      if r[k] != ' ' {
        assert r[k] == s[k] && Kept(s[k]);
      }
    }
  }

  /** Stripping keeps a middle part of its input. */
  lemma StripFixed(fold: char -> string, s: string)
    requires FixedBy(fold, s)
    ensures FixedBy(fold, Strip(s))
  {
    var r := Strip(s);
    var i := LeadingSpaces(s);
    assert forall k :: 0 <= k < |r| ==> r[k] == s[i + k];
  }

  /** What normalize returns is left alone by a stable fold. */
  lemma NormalizeFixed(fold: char -> string, v: Option<Cell>)
    requires FoldStable(fold)
    ensures FixedBy(fold, Normalize(fold, v))
  {
    if v.Some? && v.value.TextCell? {
      var folded := FoldAll(fold, v.value.s);
      FoldAllStable(fold, v.value.s);
      ScrubFixed(fold, folded);
      StripFixed(fold, Scrub(folded));
    }
  }

  /** Normalising twice is normalising once, for any fold that leaves the
      characters it produces alone (as lower-casing and NFKD do with
      `[a-z0-9]` and with the whitespace NFKD keeps). */
  lemma NormalizeIdempotent(fold: char -> string, v: Option<Cell>)
    requires FoldStable(fold)
    ensures Normalize(fold, Some(TextCell(Normalize(fold, v)))) == Normalize(fold, v)
  {
    var r := Normalize(fold, v);
    NormalizeFixed(fold, v);
    FoldAllFixed(fold, r);
    ScrubKept(r);
    StripTrimmed(r);
  }

  /** Scrubbing leaves a string of kept characters unchanged. */
  lemma ScrubKept(s: string)
    requires forall k :: 0 <= k < |s| ==> Kept(s[k])
    ensures Scrub(s) == s
  {
  }

  /** Lower-casing of ASCII capitals, the whole fold on ASCII text. */
  function AsciiFold(c: char): (r: string)
    ensures |r| == 1
    ensures 'A' <= c <= 'Z' ==> IsAsciiLower(r[0])
  {
    if 'A' <= c <= 'Z' then [(c as int + 32) as char] else [c]
  }

  lemma AsciiFoldStable()
    ensures FoldStable(AsciiFold)
  {
    forall c, d | d in AsciiFold(c) && Kept(d)
      ensures AsciiFold(d) == [d]
    {
    }
  }

  // ---------------------------------------------------------------------
  // build_topics (utils/nlp.py:33-61)
  // ---------------------------------------------------------------------

  /** Where `argsort()[::-1]` puts term i ahead of term j: a larger weight
      first; between equal weights the larger index, as reversing a stable
      ascending sort does. */
  predicate Before(w: seq<real>, i: nat, j: nat) {
    i < |w| && j < |w| && (w[i] > w[j] || (w[i] == w[j] && i > j))
  }

  predicate Ranked(w: seq<real>, xs: seq<nat>) {
    && (forall a :: 0 <= a < |xs| ==> xs[a] < |w|)
    && (forall a, b :: 0 <= a < b < |xs| ==> Before(w, xs[a], xs[b]))
  }

  function Insert(w: seq<real>, i: nat, xs: seq<nat>): (r: seq<nat>)
    requires i < |w| && Ranked(w, xs) && i !in xs
    ensures |r| == |xs| + 1 && Ranked(w, r)
    ensures forall k :: k in r <==> k == i || k in xs
  {
    if xs == [] then [i]
    else if Before(w, i, xs[0]) then
      var r := [i] + xs;
      assert forall b :: 0 < b < |r| ==> Before(w, r[0], r[b]) by {
        forall b | 0 < b < |r| ensures Before(w, r[0], r[b]) {
          if b > 1 { assert Before(w, xs[0], xs[b - 1]); }
        }
      }
      r
    else
      var rest := Insert(w, i, xs[1..]);
      var r := [xs[0]] + rest;
      assert forall b :: 0 < b < |r| ==> Before(w, r[0], r[b]) by {
        forall b | 0 < b < |r| ensures Before(w, r[0], r[b]) {
          assert r[b] in rest;
          if r[b] != i {
            var c :| 0 <= c < |xs[1..]| && xs[1..][c] == r[b];
            assert Before(w, xs[0], xs[c + 1]);
          }
        }
      }
      r
  }

  /** `argsort()[::-1]` of the first n weights: every index below n once, in
      ranking order. */
  function Ranking(w: seq<real>, n: nat): (r: seq<nat>)
    requires n <= |w|
    ensures |r| == n && Ranked(w, r)
    ensures forall k: nat :: k in r <==> k < n
  {
    if n == 0 then [] else Insert(w, n - 1, Ranking(w, n - 1))
  }

  /** `ordem_centroides[i, :10]`. */
  function TopIndices(w: seq<real>): (r: seq<nat>)
    ensures |r| == Min(10, |w|)
  {
    Ranking(w, |w|)[..Min(10, |w|)]
  }

  /** The ten (or fewer) highest-weighted terms, heaviest first:
      indices are distinct, weights do not increase, and no term left out
      weighs more than any term listed. */
  lemma TopIndicesAreTop(w: seq<real>)
    ensures var r := TopIndices(w);
      && |r| == Min(10, |w|)
      && (forall a :: 0 <= a < |r| ==> r[a] < |w|)
      && (forall a, b :: 0 <= a < b < |r| ==> r[a] != r[b] && w[r[a]] >= w[r[b]])
      && (forall j, a :: 0 <= j < |w| && j !in r && 0 <= a < |r| ==> w[r[a]] >= w[j])
  {
    var full := Ranking(w, |w|);
    var r := TopIndices(w);
    forall j, a | 0 <= j < |w| && j !in r && 0 <= a < |r|
      ensures w[r[a]] >= w[j]
    {
      assert j in full;
      var p :| 0 <= p < |full| && full[p] == j;
      assert forall q :: 0 <= q < |r| ==> r[q] == full[q];
      assert Before(w, full[a], full[p]);
    }
  }

  /** `[termos[ind] for ind in ordem_centroides[i, :10]]`. */
  function TopTerms(vocabulary: seq<string>, weights: seq<real>): (r: seq<string>)
    requires |weights| == |vocabulary|
    ensures |r| == Min(10, |vocabulary|)
  {
    var idx := TopIndices(weights);
    TopIndicesAreTop(weights);
    seq(|idx|, a requires 0 <= a < |idx| => vocabulary[idx[a]])
  }

  /** The topic terms are the vocabulary at the ten heaviest indices, in
      ranking order, so each is one of the heaviest for its centroid
      (TopIndicesAreTop). */
  lemma TopTermsIndexed(vocabulary: seq<string>, weights: seq<real>)
    requires |weights| == |vocabulary|
    ensures var r, idx := TopTerms(vocabulary, weights), TopIndices(weights);
      forall a :: 0 <= a < |r| ==> idx[a] < |vocabulary| && r[a] == vocabulary[idx[a]]
  {
    TopIndicesAreTop(weights);
  }

  /** Distinct vocabulary terms give distinct topic terms. */
  lemma TopTermsDistinct(vocabulary: seq<string>, weights: seq<real>)
    requires |weights| == |vocabulary|
    requires forall i, j :: 0 <= i < j < |vocabulary| ==> vocabulary[i] != vocabulary[j]
    ensures var r := TopTerms(vocabulary, weights);
      forall a, b :: 0 <= a < b < |r| ==> r[a] != r[b]
  {
    TopIndicesAreTop(weights);
    var idx := TopIndices(weights);
    var r := TopTerms(vocabulary, weights);
    forall a, b | 0 <= a < b < |r|
      ensures r[a] != r[b]
    {
      assert r[a] == vocabulary[idx[a]] && r[b] == vocabulary[idx[b]];
      assert idx[a] != idx[b];
    }
  }

  /** A centroid matrix of k rows over a vocabulary of m terms. */
  predicate Shaped(centroids: seq<seq<real>>, k: int, m: nat) {
    |centroids| == k && forall i :: 0 <= i < |centroids| ==> |centroids[i]| == m
  }

  /** What `build_topics` returns or raises: the vectorizer raises on an
      empty vocabulary. */
  datatype TopicsOutcome = Topics(topics: seq<seq<string>>) | EmptyVocabulary

  /** The cluster count asked for: `num_clusters` when given. */
  function Requested(nClusters: int, numClusters: Option<int>): (k: int)
    ensures numClusters.Some? ==> k == numClusters.value
    ensures numClusters.None? ==> k == nClusters
  {
    if numClusters.Some? then numClusters.value else nClusters
  }

  /** `build_topics`. The TF-IDF fit and KMeans are the oracles `vectorize`
      (the vocabulary, None when it comes out empty) and `cluster` (the
      centroids for k clusters); with its seed fixed KMeans is a function of
      its inputs. */
  method BuildTopics(texts: seq<string>, nClusters: int, numClusters: Option<int>, maxFeatures: int,
                     vectorize: (seq<string>, int) -> Option<seq<string>>,
                     cluster: (seq<string>, int, int) -> seq<seq<real>>) returns (r: TopicsOutcome)
    requires vectorize(texts, maxFeatures).Some? ==>
      forall k :: 2 <= k <= |texts| ==> Shaped(cluster(texts, maxFeatures, k), k, |vectorize(texts, maxFeatures).value|)
    ensures texts == [] ==> r == Topics([])
    ensures r.EmptyVocabulary? <==> texts != [] && vectorize(texts, maxFeatures).None?
    ensures var k := Min(Requested(nClusters, numClusters), |texts|);
      r.Topics? && texts != [] && k < 2 ==> r.topics == []
    ensures var k := Min(Requested(nClusters, numClusters), |texts|);
      r.Topics? && k >= 2 && vectorize(texts, maxFeatures).Some? ==>
        var terms := vectorize(texts, maxFeatures).value;
        var centroids := cluster(texts, maxFeatures, k);
        && Shaped(centroids, k, |terms|)
        && |r.topics| == k
        && forall i :: 0 <= i < k ==> r.topics[i] == TopTerms(terms, centroids[i])
  {
    if texts == [] {
      return Topics([]);
    }
    var n := nClusters;
    if numClusters.Some? {
      n := numClusters.value;
    }
    var fit := vectorize(texts, maxFeatures);
    if fit.None? {
      return EmptyVocabulary;
    }
    var terms := fit.value;
    // One row of the document-term matrix per text.
    n := Min(n, |texts|);
    if n < 2 {
      return Topics([]);
    }
    var centroids := cluster(texts, maxFeatures, n);
    assert Shaped(centroids, n, |terms|);
    var topics: seq<seq<string>> := [];
    for i := 0 to n
      invariant |topics| == i
      invariant forall j :: 0 <= j < i ==> topics[j] == TopTerms(terms, centroids[j])
    {
      topics := topics + [TopTerms(terms, centroids[i])];
    }
    return Topics(topics);
  }

  lemma FoldExampleHead()
    ensures FoldAll(AsciiFold, " Covid-19! "[..6]) == " covid"
  {
    var s := " Covid-19! ";
    assert FoldAll(AsciiFold, s[..1]) == " ";
    assert s[..2][..1] == s[..1];
    assert FoldAll(AsciiFold, s[..2]) == " c";
    assert s[..3][..2] == s[..2];
    assert FoldAll(AsciiFold, s[..3]) == " co";
    assert s[..4][..3] == s[..3];
    assert FoldAll(AsciiFold, s[..4]) == " cov";
    assert s[..5][..4] == s[..4];
    assert FoldAll(AsciiFold, s[..5]) == " covi";
    assert s[..6][..5] == s[..5];
    assert FoldAll(AsciiFold, s[..6]) == " covid";
  }

  lemma FoldExample()
    ensures FoldAll(AsciiFold, " Covid-19! ") == " covid-19! "
  {
    var s := " Covid-19! ";
    FoldExampleHead();
    assert s[..7][..6] == s[..6];
    assert FoldAll(AsciiFold, s[..7]) == " covid-";
    assert s[..8][..7] == s[..7];
    assert FoldAll(AsciiFold, s[..8]) == " covid-1";
    assert s[..9][..8] == s[..8];
    assert FoldAll(AsciiFold, s[..9]) == " covid-19";
    assert s[..10][..9] == s[..9];
    assert FoldAll(AsciiFold, s[..10]) == " covid-19!";
    assert s[..11][..10] == s[..10];
    assert FoldAll(AsciiFold, s[..11]) == " covid-19! ";
    assert s[..11] == s;
  }

  /** Punctuation becomes a space and the ends are trimmed. */
  lemma NormalizeExample()
    ensures Normalize(AsciiFold, Some(TextCell(" Covid-19! "))) == "covid 19"
  {
    FoldExample();
    ScrubExample();
    StripExample();
  }

  lemma ScrubExample()
    ensures Scrub(" covid-19! ") == " covid 19  "
  {
    var r := Scrub(" covid-19! ");
    assert !Kept('-') && !Kept('!');
    assert forall k :: 0 <= k < 11 ==> r[k] == " covid 19  "[k];
  }

  lemma StripExample()
    ensures Strip(" covid 19  ") == "covid 19"
  {
    var s := " covid 19  ";
    assert !IsSpace(s[1]) && LeadingSpaces(s[1..]) == 0;
    assert LeadingSpaces(s) == 1;
    assert !IsSpace(s[8]) && s[..9][..8] == s[..8];
    assert TrailingEnd(s[..9]) == 9;
    assert s[..10][..9] == s[..9] && s[..11] == s;
    assert TrailingEnd(s[..10]) == 9;
    assert TrailingEnd(s) == 9;
  }

  /** One document cannot make two clusters: whatever was asked for, no
      topics. */
  method SingleTextExample(vectorize: (seq<string>, int) -> Option<seq<string>>,
                           cluster: (seq<string>, int, int) -> seq<seq<real>>)
    returns (r: TopicsOutcome)
    requires vectorize(["dengue"], 5000) == Some(["dengue"])
    ensures r == Topics([])
  {
    r := BuildTopics(["dengue"], 5, Some(8), 5000, vectorize, cluster);
  }
  /** Two texts and the default five clusters make two clusters; each topic
      lists the vocabulary heaviest first for its centroid. */
  method TwoTextsExample(vectorize: (seq<string>, int) -> Option<seq<string>>,
                         cluster: (seq<string>, int, int) -> seq<seq<real>>)
    returns (r: TopicsOutcome)
    requires vectorize(["dengue zika", "zika"], 5000) == Some(["dengue", "zika"])
    requires cluster(["dengue zika", "zika"], 5000, 2) == [[1.0, 0.0], [0.0, 1.0]]
    ensures r == Topics([["dengue", "zika"], ["zika", "dengue"]])
  {
    var terms := ["dengue", "zika"];
    TopTermsOfTwo(terms, [1.0, 0.0]);
    TopTermsOfTwo(terms, [0.0, 1.0]);
    r := BuildTopics(["dengue zika", "zika"], 5, None, 5000, vectorize, cluster);
  }

  /** Over two terms the heavier comes first; on a tie the second. */
  lemma TopTermsOfTwo(terms: seq<string>, w: seq<real>)
    requires |terms| == 2 && |w| == 2
    ensures TopTerms(terms, w) == if w[0] > w[1] then terms else [terms[1], terms[0]]
  {
    assert Ranking(w, 1) == [0];
    if w[0] > w[1] {
      assert !Before(w, 1, 0);
      assert Insert(w, 1, [0]) == [0] + Insert(w, 1, []);
      assert Ranking(w, 2) == [0, 1];
    } else {
      assert Before(w, 1, 0);
      assert Ranking(w, 2) == [1, 0];
    }
  }
}
