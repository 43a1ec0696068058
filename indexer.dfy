// src/indexer/indexer.cpp: the in-memory inverted index and its BM25 search.
// Scores are `double` in the source and `real` here; std::log in the IDF is the
// uninterpreted parameter `ln`. Iteration over an unordered_map is a choice of
// any remaining key, so the model fixes no order where the source fixes none.

module Indexing {
  import opened Strings
  import opened Parsing

  const MaxDocsPerSegment: nat := 100000
  const K1: real := 1.5
  const B: real := 0.75
  const SnippetLength: nat := 200

  datatype Posting = Posting(docId: nat, positions: seq<nat>, tf: nat)

  /** Document, without the price that std::stod parses from the metadata */
  datatype Document = Document(
    docId: nat,
    url: string,
    title: string,
    textContent: string,
    termPositions: map<string, seq<nat>>,
    category: string,
    brand: string)

  datatype SearchResult = SearchResult(docId: nat, url: string, title: string, snippet: string, score: real)

  /** metadata.at(key) when metadata.count(key), else the default empty string */
  function MetadataOr(metadata: map<string, string>, key: string): string
  {
    if key in metadata then metadata[key] else ""
  }

  function NewPosting(docId: nat, positions: seq<nat>): (p: Posting)
  {
    Posting(docId, positions, |positions|)
  }

  /** inverted_index_[term], the empty list for a term not yet indexed */
  function Get(index: map<string, seq<Posting>>, term: string): seq<Posting>
  {
    if term in index then index[term] else []
  }

  /** The index after one posting for document `docId` is appended to the list of each
      non-empty term of `ks` */
  function WithPostings(index: map<string, seq<Posting>>, docId: nat, tp: map<string, seq<nat>>,
                        ks: set<string>): map<string, seq<Posting>>
    requires ks <= tp.Keys
  {
    map t | t in index.Keys + (ks - {""}) ::
      Get(index, t) + (if t in ks && t != "" then [NewPosting(docId, tp[t])] else [])
  }

  /** The document length of index_document: the positions of the non-empty terms */
  ghost function DocLength(tp: map<string, seq<nat>>): nat
  {
    TotalLength(tp - {""})
  }

  /** tp restricted to the keys in ks */
  function Restrict(tp: map<string, seq<nat>>, ks: set<string>): map<string, seq<nat>>
    requires ks <= tp.Keys
  {
    map t | t in ks :: tp[t]
  }

  /** A posting list the index keeps: non-empty, every document id below `next` and
      strictly increasing, and tf the number of positions */
  predicate PostingsOk(ps: seq<Posting>, next: nat)
  {
    && |ps| > 0
    && (forall j :: 0 <= j < |ps| ==> 1 <= ps[j].docId < next && ps[j].tf == |ps[j].positions|)
    && (forall j, k :: 0 <= j < k < |ps| ==> ps[j].docId < ps[k].docId)
  }

  /** One step of the posting loop: taking term t into ks appends its posting */
  lemma WithPostingsStep(index: map<string, seq<Posting>>, docId: nat, tp: map<string, seq<nat>>,
                         ks: set<string>, t: string)
    requires ks <= tp.Keys && t in tp && t !in ks
    ensures var cur := WithPostings(index, docId, tp, ks);
      WithPostings(index, docId, tp, ks + {t})
        == if t == "" then cur else cur[t := Get(cur, t) + [NewPosting(docId, tp[t])]]
  {
    if t == "" {
      WithPostingsSkipEmpty(index, docId, tp, ks);
    } else {
      WithPostingsAdd(index, docId, tp, ks, t);
    }
  }

  /** Taking the empty term appends nothing */
  lemma WithPostingsSkipEmpty(index: map<string, seq<Posting>>, docId: nat, tp: map<string, seq<nat>>,
                              ks: set<string>)
    requires ks <= tp.Keys && "" in tp
    ensures WithPostings(index, docId, tp, ks + {""}) == WithPostings(index, docId, tp, ks)
  {
    var cur := WithPostings(index, docId, tp, ks);
    var next := WithPostings(index, docId, tp, ks + {""});
    assert next.Keys == cur.Keys by {
      assert ks + {""} - {""} == ks - {""};
    }
  }

  /** Taking a non-empty term appends its posting to its list */
  lemma WithPostingsAdd(index: map<string, seq<Posting>>, docId: nat, tp: map<string, seq<nat>>,
                        ks: set<string>, t: string)
    requires ks <= tp.Keys && t in tp && t !in ks && t != ""
    ensures var cur := WithPostings(index, docId, tp, ks);
      WithPostings(index, docId, tp, ks + {t}) == cur[t := Get(cur, t) + [NewPosting(docId, tp[t])]]
  {
    var cur := WithPostings(index, docId, tp, ks);
    var next := WithPostings(index, docId, tp, ks + {t});
    var target := cur[t := Get(cur, t) + [NewPosting(docId, tp[t])]];
    assert next.Keys == target.Keys by {
      assert ks + {t} - {""} == (ks - {""}) + {t};
    }
    forall k | k in next
      ensures next[k] == target[k]
    {
    }
  }

  /** One iteration of the posting loop, with the terms still to do in `todo` */
  lemma PostStep(index: map<string, seq<Posting>>, docId: nat, tp: map<string, seq<nat>>, todo: set<string>, t: string)
    requires todo <= tp.Keys && t in todo
    ensures var cur := WithPostings(index, docId, tp, tp.Keys - todo);
      WithPostings(index, docId, tp, tp.Keys - (todo - {t}))
        == if t == "" then cur else cur[t := Get(cur, t) + [NewPosting(docId, tp[t])]]
    ensures TotalLength(Restrict(tp, todo) - {""})
      == (if t == "" then 0 else |tp[t]|) + TotalLength(Restrict(tp, todo - {t}) - {""})
  {
    WithPostingsStep(index, docId, tp, tp.Keys - todo, t);
    DocLengthStep(tp, todo, t);
    assert tp.Keys - todo + {t} == tp.Keys - (todo - {t});
  }

  /** The invariant of the posting loop of index_document, with the terms still to do in
      `todo`: the done terms have their postings, and the length counts them */
  ghost predicate PostLoop(index0: map<string, seq<Posting>>, docId: nat, tp: map<string, seq<nat>>,
                           todo: set<string>, inverted: map<string, seq<Posting>>, docLength: nat)
  {
    && todo <= tp.Keys
    && inverted == WithPostings(index0, docId, tp, tp.Keys - todo)
    && docLength + TotalLength(Restrict(tp, todo) - {""}) == DocLength(tp)
  }

  lemma PostLoopStart(index0: map<string, seq<Posting>>, docId: nat, tp: map<string, seq<nat>>)
    ensures PostLoop(index0, docId, tp, tp.Keys, index0, 0)
  {
    assert Restrict(tp, tp.Keys) == tp;
    assert tp.Keys - tp.Keys == {};
    WithPostingsNone(index0, docId, tp);
  }

  lemma PostLoopStep(index0: map<string, seq<Posting>>, docId: nat, tp: map<string, seq<nat>>,
                     todo: set<string>, inverted: map<string, seq<Posting>>, docLength: nat, t: string)
    requires PostLoop(index0, docId, tp, todo, inverted, docLength) && t in todo
    ensures t in tp
    ensures PostLoop(index0, docId, tp, todo - {t},
                     if t == "" then inverted else inverted[t := Get(inverted, t) + [NewPosting(docId, tp[t])]],
                     if t == "" then docLength else docLength + |tp[t]|)
  {
    PostStep(index0, docId, tp, todo, t);
  }

  lemma PostLoopDone(index0: map<string, seq<Posting>>, docId: nat, tp: map<string, seq<nat>>,
                     inverted: map<string, seq<Posting>>, docLength: nat)
    requires PostLoop(index0, docId, tp, {}, inverted, docLength)
    ensures inverted == WithPostings(index0, docId, tp, tp.Keys)
    ensures docLength == DocLength(tp)
  {
    assert Restrict(tp, {}) - {""} == map[];
    assert tp.Keys - {} == tp.Keys;
  }

  /** Before the loop nothing has been appended */
  lemma WithPostingsNone(index: map<string, seq<Posting>>, docId: nat, tp: map<string, seq<nat>>)
    ensures WithPostings(index, docId, tp, {}) == index
  {
    var r := WithPostings(index, docId, tp, {});
    assert r.Keys == index.Keys;
    forall t | t in r
      ensures r[t] == index[t]
    {
      assert r[t] == Get(index, t) + [];
    }
  }

  /** Appending the posting of a fresh document to a well-formed list, or to no list,
      gives a well-formed list for the ids up to that document */
  lemma AppendPostingOk(ps: seq<Posting>, docId: nat, positions: seq<nat>)
    requires docId >= 1
    requires ps == [] || PostingsOk(ps, docId)
    ensures PostingsOk(ps + [NewPosting(docId, positions)], docId + 1)
  {
    var r := ps + [NewPosting(docId, positions)];
    forall j, k | 0 <= j < k < |r|
      ensures r[j].docId < r[k].docId
    {
      if k == |ps| {
        assert r[j] == ps[j];
      }
    }
  }

  /** A list well formed for ids below next stays so below next + 1, and its last
      document is not next */
  lemma PostingsOkGrow(ps: seq<Posting>, next: nat)
    requires PostingsOk(ps, next)
    ensures PostingsOk(ps, next + 1) && ps[|ps| - 1].docId != next
  {
  }

  /** The index after the postings of a document are added: its terms are the old terms
      and the document's non-empty terms; each of those gains the document's posting and
      every other list is unchanged */
  lemma WithPostingsShape(index: map<string, seq<Posting>>, docId: nat, tp: map<string, seq<nat>>)
    requires "" !in index
    ensures var r := WithPostings(index, docId, tp, tp.Keys);
      && "" !in r
      && r.Keys == index.Keys + (tp.Keys - {""})
      && (forall t :: t in r && t in tp && t != "" ==>
            r[t] == Get(index, t) + [Posting(docId, tp[t], |tp[t]|)])
      && (forall t :: t in index && (t !in tp || t == "") ==> r[t] == index[t])
  {
  }

  /** Indexing a document under a fresh id keeps every posting list well formed, appends
      exactly one posting, the document's, to the list of each non-empty term, and leaves
      the lists of all other terms as they were */
  lemma WithPostingsOk(index: map<string, seq<Posting>>, docId: nat, tp: map<string, seq<nat>>)
    requires docId >= 1
    requires "" !in index
    requires forall t :: t in index ==> PostingsOk(index[t], docId)
    ensures var r := WithPostings(index, docId, tp, tp.Keys);
      && "" !in r
      && r.Keys == index.Keys + (tp.Keys - {""})
      && (forall t :: t in r ==> PostingsOk(r[t], docId + 1))
      && (forall t :: t in r ==> (r[t][|r[t]| - 1].docId == docId <==> t in tp && t != ""))
      && (forall t :: t in r && t in tp && t != "" ==>
            r[t] == Get(index, t) + [Posting(docId, tp[t], |tp[t]|)])
      && (forall t :: t in index && (t !in tp || t == "") ==> r[t] == index[t])
  {
    var r := WithPostings(index, docId, tp, tp.Keys);
    WithPostingsShape(index, docId, tp);
    forall t | t in r
      ensures PostingsOk(r[t], docId + 1)
      ensures r[t][|r[t]| - 1].docId == docId <==> t in tp && t != ""
    {
      if t in tp && t != "" {
        AppendPostingOk(Get(index, t), docId, tp[t]);
      } else {
        PostingsOkGrow(index[t], docId);
      }
    }
  }

  /** Taking one key out of what is left to sum moves its length into the running sum */
  lemma DocLengthStep(tp: map<string, seq<nat>>, todo: set<string>, t: string)
    requires todo <= tp.Keys && t in todo
    ensures TotalLength(Restrict(tp, todo) - {""})
      == (if t == "" then 0 else |tp[t]|) + TotalLength(Restrict(tp, todo - {t}) - {""})
  {
    var m := Restrict(tp, todo) - {""};
    if t == "" {
      assert Restrict(tp, todo - {t}) - {""} == m;
    } else {
      TotalLengthRemove(m, t);
      assert Restrict(tp, todo - {t}) - {""} == m - {t};
    }
  }

  /** The sum of a sequence of document lengths */
  function Sum(s: seq<nat>): nat
  {
    if |s| == 0 then 0 else Sum(s[..|s| - 1]) + s[|s| - 1]
  }

  /** The mean of a sequence of document lengths, 0 for none */
  function Mean(s: seq<nat>): real
  {
    if |s| == 0 then 0.0 else Sum(s) as real / |s| as real
  }

  /** The update of avg_doc_length_ when the n + 1st document, of length len, arrives */
  function RunningMean(avg: real, n: nat, len: nat): real
  {
    (avg * (n as real) + len as real) / ((n + 1) as real)
  }

  /** The running average of index_document is the mean of all lengths so far */
  lemma MeanSnoc(s: seq<nat>, x: nat)
    ensures Mean(s + [x]) == RunningMean(Mean(s), |s|, x)
  {
    assert (s + [x])[..|s|] == s;
    assert Sum(s + [x]) == Sum(s) + x;
    if |s| > 0 {
      var n := |s| as real;
      assert Mean(s) * n == Sum(s) as real;
    }
  }

  /** The BM25 term weight of Indexer::calculate_bm25 for a document with a length entry.
      An average length of 0 (every document so far of length 0) divides by zero in the
      source; the model gives 0 there. */
  function Bm25(tf: nat, docLength: nat, avg: real): real
  {
    if avg > 0.0 then
      var normalizedLength := docLength as real / avg;
      (tf as real * (K1 + 1.0)) / (tf as real + K1 * (1.0 - B + B * normalizedLength))
    else 0.0
  }

  /** Indexer::calculate_bm25: 0 for a document without a length entry */
  function CalculateBm25(docLengths: map<nat, nat>, avg: real, docId: nat, positions: seq<nat>): (score: real)
    ensures docId !in docLengths ==> score == 0.0
    ensures docId in docLengths ==> score == Bm25(|positions|, docLengths[docId], avg)
  {
    if docId !in docLengths then 0.0 else Bm25(|positions|, docLengths[docId], avg)
  }

  /** The BM25 weight lies in [0, k1 + 1) and is 0 exactly when the term is absent */
  lemma Bm25Bounds(tf: nat, docLength: nat, avg: real)
    requires avg > 0.0
    ensures 0.0 <= Bm25(tf, docLength, avg) < K1 + 1.0
    ensures Bm25(tf, docLength, avg) == 0.0 <==> tf == 0
  {
    var normalizedLength := docLength as real / avg;
    assert normalizedLength >= 0.0;
    var d := tf as real + K1 * (1.0 - B + B * normalizedLength);
    var num := tf as real * (K1 + 1.0);
    assert Bm25(tf, docLength, avg) == num / d;
    QuotientBounds(num, d, tf as real);
  }

  /** The arithmetic of Bm25Bounds: 0 <= 2.5 tf / d < 2.5 once d exceeds tf */
  lemma QuotientBounds(num: real, d: real, tf: real)
    requires tf >= 0.0 && d >= tf + 0.375 && num == tf * 2.5
    ensures 0.0 <= num / d < 2.5
    ensures num / d == 0.0 <==> tf == 0.0
  {
    var q := num / d;
    assert q * d == num;
    assert (2.5 - q) * d == 2.5 * d - num;
  }

  /** The BM25 weight does not decrease as the term frequency grows */
  lemma Bm25MonotoneInTf(tf1: nat, tf2: nat, docLength: nat, avg: real)
    requires avg > 0.0 && tf1 <= tf2
    ensures Bm25(tf1, docLength, avg) <= Bm25(tf2, docLength, avg)
  {
    var c := K1 * (1.0 - B + B * (docLength as real / avg));
    assert c > 0.0;
    var x, y := tf1 as real, tf2 as real;
    assert Bm25(tf1, docLength, avg) == x * (K1 + 1.0) / (x + c);
    assert Bm25(tf2, docLength, avg) == y * (K1 + 1.0) / (y + c);
    assert x * (y + c) <= y * (x + c);
    DivMonotone(x, x + c, y, y + c);
  }

  /** x / dx <= y / dy from x * dy <= y * dx over positive denominators */
  lemma DivMonotone(x: real, dx: real, y: real, dy: real)
    requires dx > 0.0 && dy > 0.0 && x * dy <= y * dx
    ensures x * (K1 + 1.0) / dx <= y * (K1 + 1.0) / dy
  {
    var p, q := x / dx, y / dy;
    assert p * dx == x && q * dy == y;
    assert p * dx * dy <= q * dy * dx;
    assert p <= q;
  }

  /** The snippet of a result: the first 200 characters, then "..." when the text is longer */
  function Snippet(text: string): (snippet: string)
    ensures |text| <= SnippetLength ==> snippet == text
    ensures |text| > SnippetLength ==>
      |snippet| == SnippetLength + 3 && snippet[..SnippetLength] == text[..SnippetLength] && EndsWith(snippet, "...")
  {
    if |text| > SnippetLength then text[..SnippetLength] + "..." else text
  }

  /** The length of the run of non-space characters that starts s */
  function NonSpaceRun(s: string): (n: nat)
    decreases |s|
    ensures n <= |s| && forall i :: 0 <= i < n ==> !IsSpace(s[i])
    ensures n < |s| ==> IsSpace(s[n])
  {
    if |s| == 0 || IsSpace(s[0]) then 0 else 1 + NonSpaceRun(s[1..])
  }

  predicate NoSpace(w: string)
  {
    forall i :: 0 <= i < |w| ==> !IsSpace(w[i])
  }

  /** The words `iss >> term` reads from an istringstream, left to right: the maximal runs
      of non-whitespace characters */
  function Words(s: string): (words: seq<string>)
    decreases |s|
    ensures forall k :: 0 <= k < |words| ==> |words[k]| > 0 && NoSpace(words[k])
  {
    if |s| == 0 then []
    else if IsSpace(s[0]) then Words(s[1..])
    else var n := NonSpaceRun(s); [s[..n]] + Words(s[n..])
  }

  /** The query terms of Indexer::search: its words, lower-cased */
  function QueryTerms(query: string): (terms: seq<string>)
  {
    var words := Words(query);
    seq(|words|, k requires 0 <= k < |words| => Lower(words[k]))
  }

  lemma {:induction false} NonSpaceRunStops(a: string, c: char, b: string)
    decreases |a|
    requires IsSpace(c)
    ensures NonSpaceRun(a + [c] + b) == NonSpaceRun(a) <= |a|
  {
    if |a| > 0 && !IsSpace(a[0]) {
      assert (a + [c] + b)[1..] == a[1..] + [c] + b;
      NonSpaceRunStops(a[1..], c, b);
    }
  }

  /** Whitespace separates words: the words of a + [c] + b are those of a, then of b */
  lemma {:induction false} WordsSplit(a: string, c: char, b: string)
    decreases |a|
    requires IsSpace(c)
    ensures Words(a + [c] + b) == Words(a) + Words(b)
  {
    var s := a + [c] + b;
    if |a| == 0 {
      assert s[1..] == b;
    } else if IsSpace(a[0]) {
      assert s[1..] == a[1..] + [c] + b;
      WordsSplit(a[1..], c, b);
    } else {
      NonSpaceRunStops(a, c, b);
      var n := NonSpaceRun(a);
      assert s[..n] == a[..n];
      assert s[n..] == a[n..] + [c] + b;
      WordsSplit(a[n..], c, b);
    }
  }

  lemma {:induction false} NonSpaceRunAll(w: string)
    decreases |w|
    requires NoSpace(w)
    ensures NonSpaceRun(w) == |w|
  {
    if |w| > 0 {
      NonSpaceRunAll(w[1..]);
    }
  }

  /** A non-empty word without whitespace is read as itself */
  lemma WordsOfWord(w: string)
    requires |w| > 0 && NoSpace(w)
    ensures Words(w) == [w]
  {
    NonSpaceRunAll(w);
    assert w[..|w|] == w;
    assert w[|w|..] == [];
  }

  /** Two words separated by a space are read back as those two words, lower-cased */
  lemma QueryTermsOfTwoWords(w1: string, w2: string)
    requires |w1| > 0 && NoSpace(w1) && |w2| > 0 && NoSpace(w2)
    ensures QueryTerms(w1 + " " + w2) == [Lower(w1), Lower(w2)]
  {
    WordsSplit(w1, ' ', w2);
    WordsOfWord(w1);
    WordsOfWord(w2);
  }

  /** The document ids of a posting list */
  function DocIds(ps: seq<Posting>): set<nat>
  {
    set p | p in ps :: p.docId
  }

  /** log(N / df) with std::log the uninterpreted `ln` */
  function Idf(totalDocuments: nat, df: nat, ln: real -> real): real
    requires df > 0
  {
    ln(totalDocuments as real / df as real)
  }

  /** calculate_bm25 as the weight of a posting, for the index's lengths and average */
  function Bm25Weight(docLengths: map<nat, nat>, avg: real): (nat, seq<nat>) -> real
  {
    (docId: nat, positions: seq<nat>) => CalculateBm25(docLengths, avg, docId, positions)
  }

  /** bm25 * idf, the contribution of one posting */
  function Weighted(bm25: real, idf: real): real
  {
    bm25 * idf
  }

  /** The scores after the postings of one query term are added, in list order:
      doc_scores[doc_id] += bm25 * idf, an absent entry starting from 0; `weight` is
      calculate_bm25 */
  function TermScores(scores: map<nat, real>, ps: seq<Posting>, idf: real,
                      weight: (nat, seq<nat>) -> real): (r: map<nat, real>)
    decreases |ps|
  {
    if |ps| == 0 then scores
    else
      var init := ps[..|ps| - 1];
      var p := ps[|ps| - 1];
      var prev := TermScores(scores, init, idf, weight);
      prev[p.docId := (if p.docId in prev then prev[p.docId] else 0.0) + Weighted(weight(p.docId, p.positions), idf)]
  }

  /** The documents that occur in a posting of some query term found in the index */
  function MatchedDocs(terms: seq<string>, index: map<string, seq<Posting>>): set<nat>
    decreases |terms|
  {
    if |terms| == 0 then {}
    else
      var t := terms[|terms| - 1];
      MatchedDocs(terms[..|terms| - 1], index) + (if t in index then DocIds(index[t]) else {})
  }

  /** doc_scores after the scoring loop of Indexer::search: unknown terms are skipped */
  function QueryScores(terms: seq<string>, index: map<string, seq<Posting>>, totalDocuments: nat,
                       weight: (nat, seq<nat>) -> real, ln: real -> real): (r: map<nat, real>)
    requires forall t :: t in index ==> |index[t]| > 0
    decreases |terms|
  {
    if |terms| == 0 then map[]
    else
      var t := terms[|terms| - 1];
      var prev := QueryScores(terms[..|terms| - 1], index, totalDocuments, weight, ln);
      if t in index then TermScores(prev, index[t], Idf(totalDocuments, |index[t]|, ln), weight)
      else prev
  }

  /** The scores of one term cover exactly the documents of its postings */
  lemma {:induction false} TermScoresKeys(scores: map<nat, real>, ps: seq<Posting>, idf: real,
                                          weight: (nat, seq<nat>) -> real)
    decreases |ps|
    ensures TermScores(scores, ps, idf, weight).Keys == scores.Keys + DocIds(ps)
  {
    if |ps| > 0 {
      var init := ps[..|ps| - 1];
      TermScoresKeys(scores, init, idf, weight);
      assert ps == init + [ps[|ps| - 1]];
      assert DocIds(ps) == DocIds(init) + {ps[|ps| - 1].docId};
    }
  }

  /** The query's scores cover exactly the matched documents */
  lemma {:induction false} QueryScoresKeys(terms: seq<string>, index: map<string, seq<Posting>>, totalDocuments: nat,
                                           weight: (nat, seq<nat>) -> real, ln: real -> real)
    requires forall t :: t in index ==> |index[t]| > 0
    decreases |terms|
    ensures QueryScores(terms, index, totalDocuments, weight, ln).Keys == MatchedDocs(terms, index)
  {
    if |terms| > 0 {
      var t := terms[|terms| - 1];
      QueryScoresKeys(terms[..|terms| - 1], index, totalDocuments, weight, ln);
      if t in index {
        var prev := QueryScores(terms[..|terms| - 1], index, totalDocuments, weight, ln);
        TermScoresKeys(prev, index[t], Idf(totalDocuments, |index[t]|, ln), weight);
      }
    }
  }

  /** A document is matched exactly when it has a posting under one of the query terms */
  lemma {:induction false} MatchedDocsSpec(terms: seq<string>, index: map<string, seq<Posting>>, d: nat)
    decreases |terms|
    ensures d in MatchedDocs(terms, index) <==>
      exists k, j :: 0 <= k < |terms| && terms[k] in index && 0 <= j < |index[terms[k]]| && index[terms[k]][j].docId == d
  {
    if |terms| > 0 {
      var init := terms[..|terms| - 1];
      var t := terms[|terms| - 1];
      MatchedDocsSpec(init, index, d);
      if d in MatchedDocs(terms, index) {
        if d in MatchedDocs(init, index) {
          var k, j :| 0 <= k < |init| && init[k] in index && 0 <= j < |index[init[k]]| && index[init[k]][j].docId == d;
          assert terms[k] == init[k];
        } else {
          var p :| p in index[t] && p.docId == d;
          var j :| 0 <= j < |index[t]| && index[t][j] == p;
          assert terms[|terms| - 1] == t;
        }
      } else {
        forall k, j | 0 <= k < |terms| && terms[k] in index && 0 <= j < |index[terms[k]]|
          ensures index[terms[k]][j].docId != d
        {
          if k < |init| {
            assert terms[k] == init[k];
          } else {
            assert index[t][j] in index[t];
          }
        }
      }
    }
  }

  /** Every matched document of a valid index has an id below next */
  lemma {:induction false} MatchedDocsIndexed(terms: seq<string>, index: map<string, seq<Posting>>, next: nat)
    decreases |terms|
    requires forall t :: t in index ==> PostingsOk(index[t], next)
    ensures forall d :: d in MatchedDocs(terms, index) ==> 1 <= d < next
  {
    if |terms| > 0 {
      MatchedDocsIndexed(terms[..|terms| - 1], index, next);
    }
  }

  /** The first index at which x is no lower than the entry, so that x goes after every
      entry with a strictly higher score */
  function InsertPosition(s: seq<(nat, real)>, x: (nat, real)): (k: nat)
    decreases |s|
    ensures k <= |s|
    ensures forall i :: 0 <= i < k ==> s[i].1 > x.1
    ensures k < |s| ==> s[k].1 <= x.1
  {
    if |s| == 0 || s[0].1 <= x.1 then 0 else 1 + InsertPosition(s[1..], x)
  }

  function InsertByScore(s: seq<(nat, real)>, x: (nat, real)): seq<(nat, real)>
  {
    var k := InsertPosition(s, x);
    s[..k] + [x] + s[k..]
  }

  predicate NonIncreasing(s: seq<(nat, real)>)
  {
    forall i, j :: 0 <= i < j < |s| ==> s[i].1 >= s[j].1
  }

  function Ids(s: seq<(nat, real)>): set<nat>
  {
    set p | p in s :: p.0
  }

  predicate DistinctIds(s: seq<(nat, real)>)
  {
    forall i, j :: 0 <= i < j < |s| ==> s[i].0 != s[j].0
  }

  /** Where each entry lands: the entries before the insert position, then x, then the rest */
  lemma InsertLayout(s: seq<(nat, real)>, x: (nat, real))
    ensures var k := InsertPosition(s, x);
      var r := InsertByScore(s, x);
      && |r| == |s| + 1 && r[k] == x
      && (forall i :: 0 <= i < k ==> r[i] == s[i])
      && (forall i :: k < i < |r| ==> r[i] == s[i - 1])
  {
  }

  /** Inserting keeps a non-increasing ranking non-increasing */
  lemma InsertSorted(s: seq<(nat, real)>, x: (nat, real))
    requires NonIncreasing(s)
    ensures NonIncreasing(InsertByScore(s, x))
  {
    var k := InsertPosition(s, x);
    var r := InsertByScore(s, x);
    InsertLayout(s, x);
    forall i, j | 0 <= i < j < |r|
      ensures r[i].1 >= r[j].1
    {
      if i < k && j > k {
        assert s[i].1 >= s[j - 1].1;
      } else if i == k && j > k {
        assert s[k].1 >= s[j - 1].1;
      }
    }
  }

  /** Inserting adds exactly x to the entries */
  lemma InsertElements(s: seq<(nat, real)>, x: (nat, real))
    ensures forall p :: p in InsertByScore(s, x) <==> p in s || p == x
    ensures Ids(InsertByScore(s, x)) == Ids(s) + {x.0}
  {
    var k := InsertPosition(s, x);
    assert s == s[..k] + s[k..];
  }

  /** Inserting an entry with a new id keeps the ids distinct */
  lemma InsertDistinct(s: seq<(nat, real)>, x: (nat, real))
    requires DistinctIds(s) && x.0 !in Ids(s)
    ensures DistinctIds(InsertByScore(s, x))
  {
    var k := InsertPosition(s, x);
    var r := InsertByScore(s, x);
    InsertLayout(s, x);
    forall i, j | 0 <= i < j < |r|
      ensures r[i].0 != r[j].0
    {
      if i == k {
        assert r[j] == s[j - 1] && s[j - 1] in s;
      } else if j == k {
        assert r[i] == s[i] && s[i] in s;
      } else {
        var i' := if i < k then i else i - 1;
        var j' := if j < k then j else j - 1;
        assert r[i] == s[i'] && r[j] == s[j'];
      }
    }
  }

  /** Inserting keeps a ranking sorted, adds exactly the new entry, and keeps ids distinct */
  lemma InsertByScoreSpec(s: seq<(nat, real)>, x: (nat, real))
    requires NonIncreasing(s)
    ensures var r := InsertByScore(s, x);
      && NonIncreasing(r)
      && |r| == |s| + 1
      && (forall p :: p in r <==> p in s || p == x)
      && Ids(r) == Ids(s) + {x.0}
      && (DistinctIds(s) && x.0 !in Ids(s) ==> DistinctIds(r))
  {
    InsertLayout(s, x);
    InsertSorted(s, x);
    InsertElements(s, x);
    if DistinctIds(s) && x.0 !in Ids(s) {
      InsertDistinct(s, x);
    }
  }

  /** A ranking of a score map: each document once, with its score, best first */
  predicate RankingOf(ranked: seq<(nat, real)>, scores: map<nat, real>)
  {
    && |ranked| == |scores.Keys|
    && Ids(ranked) == scores.Keys
    && DistinctIds(ranked)
    && NonIncreasing(ranked)
    && (forall i :: 0 <= i < |ranked| ==> ranked[i].0 in scores && ranked[i].1 == scores[ranked[i].0])
  }

  /** The loop invariant of RankScores: the documents taken so far, ranked */
  predicate PartialRanking(ranked: seq<(nat, real)>, scores: map<nat, real>, todo: set<nat>)
  {
    && todo <= scores.Keys
    && |ranked| + |todo| == |scores.Keys|
    && Ids(ranked) == scores.Keys - todo
    && DistinctIds(ranked) && NonIncreasing(ranked)
    && (forall i :: 0 <= i < |ranked| ==> ranked[i].0 in scores && ranked[i].1 == scores[ranked[i].0])
  }

  /** Taking one more document into the ranking keeps the invariant */
  lemma RankStep(ranked: seq<(nat, real)>, scores: map<nat, real>, todo: set<nat>, d: nat)
    requires PartialRanking(ranked, scores, todo) && d in todo
    ensures PartialRanking(InsertByScore(ranked, (d, scores[d])), scores, todo - {d})
  {
    var entry := (d, scores[d]);
    InsertByScoreSpec(ranked, entry);
    var next := InsertByScore(ranked, entry);
    forall i | 0 <= i < |next|
      ensures next[i].0 in scores && next[i].1 == scores[next[i].0]
    {
      assert next[i] in next;
      if next[i] != entry {
        var j :| 0 <= j < |ranked| && ranked[j] == next[i];
      }
    }
  }

  /** The scored_docs vector of Indexer::search: the entries of doc_scores, taken in any
      order, then sorted by descending score (ties in any order) */
  method RankScores(scores: map<nat, real>) returns (ranked: seq<(nat, real)>)
    ensures RankingOf(ranked, scores)
  {
    ranked := [];
    var todo := scores.Keys;
    while todo != {}
      invariant PartialRanking(ranked, scores, todo)
      decreases |todo|
    {
      var d :| d in todo;
      RankStep(ranked, scores, todo, d);
      ranked := InsertByScore(ranked, (d, scores[d]));
      todo := todo - {d};
    }
  }

  /** The result for one ranked document */
  function ResultOf(entry: (nat, real), doc: Document): SearchResult
  {
    SearchResult(entry.0, doc.url, doc.title, Snippet(doc.textContent), entry.1)
  }

  /** The results built from ranked entries, skipping a document without a forward entry */
  function ResultsOf(ranked: seq<(nat, real)>, forward: map<nat, Document>): seq<SearchResult>
    decreases |ranked|
  {
    if |ranked| == 0 then []
    else
      var e := ranked[|ranked| - 1];
      ResultsOf(ranked[..|ranked| - 1], forward)
        + (if e.0 in forward then [ResultOf(e, forward[e.0])] else [])
  }

  /** With every ranked document indexed, no entry is skipped */
  lemma {:induction false} ResultsOfAllIndexed(ranked: seq<(nat, real)>, forward: map<nat, Document>)
    decreases |ranked|
    requires forall i :: 0 <= i < |ranked| ==> ranked[i].0 in forward
    ensures |ResultsOf(ranked, forward)| == |ranked|
    ensures forall i :: 0 <= i < |ranked| ==> ResultsOf(ranked, forward)[i] == ResultOf(ranked[i], forward[ranked[i].0])
  {
    if |ranked| > 0 {
      ResultsOfAllIndexed(ranked[..|ranked| - 1], forward);
    }
  }

  /** The result loop of Indexer::search over the first k ranked documents */
  method BuildResults(ranked: seq<(nat, real)>, k: nat, forward: map<nat, Document>) returns (results: seq<SearchResult>)
    requires k <= |ranked|
    ensures results == ResultsOf(ranked[..k], forward)
  {
    results := [];
    for i := 0 to k
      invariant results == ResultsOf(ranked[..i], forward)
    {
      assert ranked[..i + 1][..i] == ranked[..i];
      var entry := ranked[i];
      if entry.0 !in forward {
        continue;
      }
      var doc := forward[entry.0];
      results := results + [ResultOf(entry, doc)];
    }
  }

  /** Scoring one more posting adds its weighted BM25 to its document's entry */
  lemma TermScoresSnoc(scores: map<nat, real>, ps: seq<Posting>, j: nat, idf: real, weight: (nat, seq<nat>) -> real)
    requires j < |ps|
    ensures var prev := TermScores(scores, ps[..j], idf, weight);
      var p := ps[j];
      TermScores(scores, ps[..j + 1], idf, weight)
        == prev[p.docId := (if p.docId in prev then prev[p.docId] else 0.0) + Weighted(weight(p.docId, p.positions), idf)]
  {
    assert ps[..j + 1][..j] == ps[..j];
  }

  /** The inner scoring loop of Indexer::search, over the postings of one term */
  method AddTermScores(scores: map<nat, real>, postings: seq<Posting>, idf: real,
                       weight: (nat, seq<nat>) -> real) returns (r: map<nat, real>)
    ensures r == TermScores(scores, postings, idf, weight)
  {
    r := scores;
    for j := 0 to |postings|
      invariant r == TermScores(scores, postings[..j], idf, weight)
    {
      var p := postings[j];
      TermScoresSnoc(scores, postings, j, idf, weight);
      var bm25 := weight(p.docId, p.positions);
      var current := if p.docId in r then r[p.docId] else 0.0;
      r := r[p.docId := current + Weighted(bm25, idf)];
    }
    assert postings[..|postings|] == postings;
  }

  /** The results of Indexer::search from a ranking whose documents all have forward
      entries: the first min(topk, n) entries, each with its document's fields */
  lemma ResultsFields(ranked: seq<(nat, real)>, scores: map<nat, real>, topk: nat, forward: map<nat, Document>)
    requires RankingOf(ranked, scores)
    requires forall d :: d in scores ==> d in forward
    ensures var k := if topk < |ranked| then topk else |ranked|;
      var results := ResultsOf(ranked[..k], forward);
      && |results| == k
      && (forall i :: 0 <= i < k ==> results[i] == ResultOf(ranked[i], forward[ranked[i].0]))
  {
    var k := if topk < |ranked| then topk else |ranked|;
    var prefix := ranked[..k];
    assert forall i :: 0 <= i < k ==> prefix[i] == ranked[i] && ranked[i].0 in scores;
    ResultsOfAllIndexed(prefix, forward);
  }

  /** Each result carries the score of its document and that document's url, title and
      snippet */
  ghost predicate ResultsFromIndex(results: seq<SearchResult>, scores: map<nat, real>, forward: map<nat, Document>)
  {
    forall i :: 0 <= i < |results| ==>
      && results[i].docId in scores && results[i].score == scores[results[i].docId]
      && results[i].docId in forward
      && results[i].url == forward[results[i].docId].url
      && results[i].title == forward[results[i].docId].title
      && results[i].snippet == Snippet(forward[results[i].docId].textContent)
  }

  /** Best first, each document once */
  predicate ResultsRanked(results: seq<SearchResult>)
  {
    forall i, j :: 0 <= i < j < |results| ==> results[i].score >= results[j].score && results[i].docId != results[j].docId
  }

  /** A scored document left out means topk were taken, none scoring below it */
  ghost predicate ResultsAreTop(results: seq<SearchResult>, scores: map<nat, real>, topk: nat)
  {
    forall d :: d in scores && (forall i :: 0 <= i < |results| ==> results[i].docId != d) ==>
      |results| == topk && forall i :: 0 <= i < |results| ==> results[i].score >= scores[d]
  }

  /** What Indexer::search returns for a query with these scores: the top min(topk, n)
      documents, best first, each once, with its score, url, title and snippet */
  ghost predicate TopResults(results: seq<SearchResult>, scores: map<nat, real>, topk: nat, forward: map<nat, Document>)
  {
    && |results| == (if topk < |scores.Keys| then topk else |scores.Keys|)
    && ResultsFromIndex(results, scores, forward)
    && ResultsRanked(results)
    && ResultsAreTop(results, scores, topk)
  }

  /** The first k of a ranking, with every ranked document indexed, are the top results */
  lemma ResultsSpec(ranked: seq<(nat, real)>, scores: map<nat, real>, topk: nat, forward: map<nat, Document>)
    requires RankingOf(ranked, scores)
    requires forall d :: d in scores ==> d in forward
    ensures var k := if topk < |ranked| then topk else |ranked|;
      TopResults(ResultsOf(ranked[..k], forward), scores, topk, forward)
  {
    var k := if topk < |ranked| then topk else |ranked|;
    ResultsFields(ranked, scores, topk, forward);
    var results := ResultsOf(ranked[..k], forward);
    RankedResultsFromIndex(ranked, scores, forward, results);
    RankedResultsRanked(ranked, scores, forward, results);
    RankedResultsAreTop(ranked, scores, topk, forward, results);
  }

  /** Results made entry by entry from a ranking carry the scores and the documents */
  lemma RankedResultsFromIndex(ranked: seq<(nat, real)>, scores: map<nat, real>, forward: map<nat, Document>,
                               results: seq<SearchResult>)
    requires RankingOf(ranked, scores) && |results| <= |ranked|
    requires forall d :: d in scores ==> d in forward
    requires forall i :: 0 <= i < |results| ==> results[i] == ResultOf(ranked[i], forward[ranked[i].0])
    ensures ResultsFromIndex(results, scores, forward)
  {
    forall i | 0 <= i < |results|
      ensures results[i].docId == ranked[i].0 && results[i].score == ranked[i].1
      ensures ranked[i].0 in scores && ranked[i].1 == scores[ranked[i].0]
    {
    }
  }

  /** ... are best first, each document once */
  lemma RankedResultsRanked(ranked: seq<(nat, real)>, scores: map<nat, real>, forward: map<nat, Document>,
                            results: seq<SearchResult>)
    requires RankingOf(ranked, scores) && |results| <= |ranked|
    requires forall d :: d in scores ==> d in forward
    requires forall i :: 0 <= i < |results| ==> results[i] == ResultOf(ranked[i], forward[ranked[i].0])
    ensures ResultsRanked(results)
  {
    forall i, j | 0 <= i < j < |results|
      ensures results[i].score >= results[j].score && results[i].docId != results[j].docId
    {
      assert results[i].docId == ranked[i].0 && results[j].docId == ranked[j].0;
    }
  }

  /** ... and, as the first k of the ranking, are the top k */
  lemma RankedResultsAreTop(ranked: seq<(nat, real)>, scores: map<nat, real>, topk: nat,
                            forward: map<nat, Document>, results: seq<SearchResult>)
    requires RankingOf(ranked, scores)
    requires forall d :: d in scores ==> d in forward
    requires |results| == if topk < |ranked| then topk else |ranked|
    requires forall i :: 0 <= i < |results| ==> results[i] == ResultOf(ranked[i], forward[ranked[i].0])
    ensures ResultsAreTop(results, scores, topk)
  {
    var k := |results|;
    forall d | d in scores && (forall i :: 0 <= i < |results| ==> results[i].docId != d)
      ensures |results| == topk && forall i :: 0 <= i < |results| ==> results[i].score >= scores[d]
    {
      assert forall i :: 0 <= i < k ==> ranked[i].0 != d by {
        forall i | 0 <= i < k
          ensures ranked[i].0 != d
        {
          assert results[i].docId == ranked[i].0;
        }
      }
      TopOfRanking(ranked, scores, k, d);
    }
  }

  /** The first k entries of a ranking are the top k: nothing outside them scores higher,
      and nothing is outside them unless k of them are taken */
  lemma TopOfRanking(ranked: seq<(nat, real)>, scores: map<nat, real>, k: nat, d: nat)
    requires RankingOf(ranked, scores) && k <= |ranked|
    requires d in scores && forall i :: 0 <= i < k ==> ranked[i].0 != d
    ensures k < |ranked|
    ensures forall i :: 0 <= i < k ==> ranked[i].1 >= scores[d]
  {
    assert d in Ids(ranked);
    var p :| p in ranked && p.0 == d;
    var j :| 0 <= j < |ranked| && ranked[j] == p;
    assert j >= k;
  }

  /** Ids 1 .. next - 1 are exactly the indexed documents, each with a forward entry and
      its length */
  ghost predicate DocsInvariant(forward: map<nat, Document>, docLengths: map<nat, nat>, next: nat, lengths: seq<nat>)
  {
    && |lengths| == next - 1
    && (forall id :: id in forward <==> 1 <= id < next)
    && (forall id :: id in docLengths <==> 1 <= id < next)
    && (forall id :: 1 <= id < next ==> forward[id].docId == id && docLengths[id] == lengths[id - 1])
  }

  /** No empty term, and every posting list well formed for ids below next */
  ghost predicate PostingsInvariant(inverted: map<string, seq<Posting>>, next: nat)
  {
    && "" !in inverted
    && (forall t :: t in inverted ==> PostingsOk(inverted[t], next))
  }

  /** The index invariant: the documents, the posting lists, the average length as the
      mean of all lengths, and a segment that is never left full */
  ghost predicate IndexInvariant(inverted: map<string, seq<Posting>>, forward: map<nat, Document>,
                                 docLengths: map<nat, nat>, next: nat, total: nat, avg: real,
                                 segmentSize: nat, lengths: seq<nat>)
  {
    && next == total + 1
    && DocsInvariant(forward, docLengths, next, lengths)
    && PostingsInvariant(inverted, next)
    && avg == Mean(lengths)
    && segmentSize < MaxDocsPerSegment
  }

  lemma DocsStep(forward: map<nat, Document>, docLengths: map<nat, nat>, next: nat, lengths: seq<nat>,
                 document: Document, len: nat)
    requires next >= 1 && DocsInvariant(forward, docLengths, next, lengths)
    requires document.docId == next
    ensures DocsInvariant(forward[next := document], docLengths[next := len], next + 1, lengths + [len])
  {
    var lengths' := lengths + [len];
    assert forall k :: 0 <= k < |lengths| ==> lengths'[k] == lengths[k];
  }

  lemma PostingsStep(inverted: map<string, seq<Posting>>, next: nat, tp: map<string, seq<nat>>)
    requires next >= 1 && PostingsInvariant(inverted, next)
    ensures PostingsInvariant(WithPostings(inverted, next, tp, tp.Keys), next + 1)
  {
    WithPostingsOk(inverted, next, tp);
  }

  class Indexer {
    var invertedIndex: map<string, seq<Posting>>
    var forwardIndex: map<nat, Document>
    var docLengths: map<nat, nat>
    var nextDocId: nat
    var currentSegmentSize: nat
    var segmentCount: nat
    var totalDocuments: nat
    var avgDocLength: real
    /** The length of each document indexed so far, in id order */
    ghost var lengths: seq<nat>

    /** The index invariant over the fields */
    ghost predicate Valid()
      reads this
    {
      IndexInvariant(invertedIndex, forwardIndex, docLengths, nextDocId, totalDocuments,
                     avgDocLength, currentSegmentSize, lengths)
    }

    /** Valid() with the current segment allowed to be full, as it is when index_document
        flushes it */
    ghost predicate ValidWithFullSegment()
      reads this
    {
      && IndexInvariant(invertedIndex, forwardIndex, docLengths, nextDocId, totalDocuments,
                        avgDocLength, 0, lengths)
      && currentSegmentSize <= MaxDocsPerSegment
    }

    constructor()
      ensures Valid()
      ensures invertedIndex == map[] && forwardIndex == map[] && docLengths == map[]
      ensures nextDocId == 1 && totalDocuments == 0 && currentSegmentSize == 0 && segmentCount == 0
    {
      invertedIndex := map[];
      forwardIndex := map[];
      docLengths := map[];
      nextDocId := 1;
      currentSegmentSize := 0;
      segmentCount := 0;
      totalDocuments := 0;
      avgDocLength := 0.0;
      lengths := [];
    }

    /** Indexer::flush_segment, without the segment file it opens */
    method FlushSegment()
      requires Valid() || ValidWithFullSegment()
      modifies this`currentSegmentSize, this`segmentCount
      ensures Valid()
      ensures old(currentSegmentSize) == 0 ==> currentSegmentSize == 0 && segmentCount == old(segmentCount)
      ensures old(currentSegmentSize) != 0 ==> currentSegmentSize == 0 && segmentCount == old(segmentCount) + 1
    {
      if currentSegmentSize == 0 {
        return;
      }
      segmentCount := segmentCount + 1;
      currentSegmentSize := 0;
    }

    /** Indexer::merge_segments: only flushes the current segment */
    method MergeSegments()
      requires Valid()
      modifies this`currentSegmentSize, this`segmentCount
      ensures Valid()
      ensures currentSegmentSize == 0
      ensures segmentCount == old(segmentCount) + (if old(currentSegmentSize) == 0 then 0 else 1)
    {
      FlushSegment();
    }

    /** Indexer::total_terms: the number of distinct indexed terms */
    function TotalTerms(): (n: nat)
      reads this
      ensures n == |invertedIndex.Keys|
    {
      |invertedIndex|
    }

    /** The posting loop of index_document: one posting per non-empty term, in any order
        of the terms, summing the document length */
    method PostTerms(id: nat, tp: map<string, seq<nat>>) returns (docLength: nat)
      modifies this`invertedIndex
      ensures invertedIndex == WithPostings(old(invertedIndex), id, tp, tp.Keys)
      ensures docLength == DocLength(tp)
    {
      ghost var index0 := invertedIndex;
      docLength := 0;
      var todo := tp.Keys;
      PostLoopStart(index0, id, tp);
      while todo != {}
        invariant PostLoop(index0, id, tp, todo, invertedIndex, docLength)
        decreases |todo|
      {
        var term :| term in todo;
        PostLoopStep(index0, id, tp, todo, invertedIndex, docLength, term);
        if term != "" {
          invertedIndex := invertedIndex[term := Get(invertedIndex, term) + [NewPosting(id, tp[term])]];
          docLength := docLength + |tp[term]|;
        }
        todo := todo - {term};
      }
      PostLoopDone(index0, id, tp, invertedIndex, docLength);
    }

    /** Indexer::index_document */
    method IndexDocument(doc: ParsedDocument, metadata: map<string, string>) returns (ok: bool)
      requires Valid()
      modifies this
      ensures Valid() && ok
      ensures nextDocId == old(nextDocId) + 1 && totalDocuments == old(totalDocuments) + 1
      ensures forwardIndex == old(forwardIndex)[old(nextDocId) := Document(old(nextDocId), doc.url, doc.title,
        doc.textContent, doc.termPositions, MetadataOr(metadata, "category"), MetadataOr(metadata, "brand"))]
      ensures docLengths == old(docLengths)[old(nextDocId) := DocLength(doc.termPositions)]
      ensures invertedIndex == WithPostings(old(invertedIndex), old(nextDocId), doc.termPositions, doc.termPositions.Keys)
      ensures lengths == old(lengths) + [DocLength(doc.termPositions)]
      ensures segmentCount == old(segmentCount) + (if old(currentSegmentSize) + 1 == MaxDocsPerSegment then 1 else 0)
      ensures currentSegmentSize == if old(currentSegmentSize) + 1 == MaxDocsPerSegment then 0 else old(currentSegmentSize) + 1
    {
      var id := nextDocId;
      nextDocId := nextDocId + 1;
      var document := Document(id, doc.url, doc.title, doc.textContent, doc.termPositions,
                               MetadataOr(metadata, "category"), MetadataOr(metadata, "brand"));
      ghost var index0 := invertedIndex;
      var docLength := PostTerms(id, doc.termPositions);
      PostingsStep(index0, id, doc.termPositions);
      RecordDocument(id, document, docLength);
      currentSegmentSize := currentSegmentSize + 1;
      if currentSegmentSize >= MaxDocsPerSegment {
        FlushSegment();
      }
      return true;
    }

    /** The bookkeeping of index_document after the posting loop: the forward entry, the
        document length, the document count and the running average length */
    method RecordDocument(id: nat, document: Document, docLength: nat)
      requires id >= 1 && document.docId == id && totalDocuments + 1 == id
      requires DocsInvariant(forwardIndex, docLengths, id, lengths) && avgDocLength == Mean(lengths)
      modifies this`forwardIndex, this`docLengths, this`totalDocuments, this`avgDocLength, this`lengths
      ensures forwardIndex == old(forwardIndex)[id := document]
      ensures docLengths == old(docLengths)[id := docLength]
      ensures lengths == old(lengths) + [docLength]
      ensures totalDocuments == id
      ensures DocsInvariant(forwardIndex, docLengths, id + 1, lengths) && avgDocLength == Mean(lengths)
    {
      DocsStep(forwardIndex, docLengths, id, lengths, document, docLength);
      MeanSnoc(lengths, docLength);
      forwardIndex := forwardIndex[id := document];
      docLengths := docLengths[id := docLength];
      totalDocuments := totalDocuments + 1;
      if totalDocuments > 0 {
        avgDocLength := RunningMean(avgDocLength, totalDocuments - 1, docLength);
      }
      lengths := lengths + [docLength];
    }

    /** Indexer::search, for topk >= 0 */
    method Search(query: string, topk: nat, ln: real -> real) returns (results: seq<SearchResult>)
      requires Valid()
      ensures TopResults(results, QueryScores(QueryTerms(query), invertedIndex, totalDocuments,
                                              Bm25Weight(docLengths, avgDocLength), ln), topk, forwardIndex)
    {
      var terms := QueryTerms(query);
      var scores := ScoreQuery(terms, ln);
      var ranked := RankScores(scores);
      var k := if topk < |ranked| then topk else |ranked|;
      results := BuildResults(ranked, k, forwardIndex);
      MatchedDocsIndexed(terms, invertedIndex, nextDocId);
      QueryScoresKeys(terms, invertedIndex, totalDocuments, Bm25Weight(docLengths, avgDocLength), ln);
      ResultsSpec(ranked, scores, topk, forwardIndex);
    }

    /** The scoring loop of Indexer::search */
    method ScoreQuery(terms: seq<string>, ln: real -> real) returns (scores: map<nat, real>)
      requires Valid()
      ensures scores == QueryScores(terms, invertedIndex, totalDocuments, Bm25Weight(docLengths, avgDocLength), ln)
    {
      scores := map[];
      var weight := Bm25Weight(docLengths, avgDocLength);
      for i := 0 to |terms|
        invariant scores == QueryScores(terms[..i], invertedIndex, totalDocuments, weight, ln)
      {
        assert terms[..i + 1][..i] == terms[..i];
        var term := terms[i];
        if term !in invertedIndex {
          continue;
        }
        var postings := invertedIndex[term];
        var idf := Idf(totalDocuments, |postings|, ln);
        scores := AddTermScores(scores, postings, idf, weight);
      }
      assert terms[..|terms|] == terms;
    }
  }
}
