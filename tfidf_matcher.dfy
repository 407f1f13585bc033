/**
 * Ranking the cleaned projects against the CV profile. The TF-IDF vectoriser and
 * the cosine similarity are an opaque engine here: an analyser that says which
 * terms the vectoriser keeps from a text, and a similarity that, given the corpus
 * of match texts and the profile, yields a score for each row. What is modelled is
 * what surrounds it: the required column, the corpus, the empty-vocabulary failure
 * of fitting, the output columns filled with defaults, the ordering by score and
 * the `head(top_k)` cut.
 */
module TfidfMatcher {
  import opened Wrappers
  import opened Projects
  import opened Seqs

  datatype MatchError =
    | MissingMatchText   // the `ValueError` raised when `match_text` is absent
    | EmptyVocabulary    // the `ValueError` `fit_transform` raises when it learns no term

  /** The vectoriser's analyser: the terms it keeps from one text (lower-cased tokens of two or more word characters, English stop words removed). */
  type Analyzer = string -> seq<string>

  /** Fitting the vectoriser to `corpus` learns at least one term. With no rows, or only stop words and one-character tokens, it learns none. */
  predicate HasVocabulary(corpus: seq<string>, terms: Analyzer) {
    exists i :: 0 <= i < |corpus| && terms(corpus[i]) != []
  }

  /** The score the engine gives row `i` of the corpus for the profile (fit on the corpus, cosine against the profile). */
  type Similarity = (seq<string>, string, nat) -> real

  /** A row of the returned frame: `score, title, category, budget, time_left, bids_count, url`. */
  datatype MatchRow = MatchRow(
    score: real,
    title: Option<string>,
    category: Option<string>,
    budget: Option<string>,
    time_left: Option<string>,
    bids_count: Option<int>,
    url: Option<string>)

  /** The output columns other than `score`, which is always set just before they are filled, in their order. */
  const OutputColumns: seq<Column> := [Title, Category, Budget, TimeLeft, BidsCount, Url]

  /** `match_text` with NaN read as "" (`fillna("").astype(str)`). */
  function Corpus(rows: seq<Project>): (r: seq<string>)
    ensures |r| == |rows|
    ensures forall i :: 0 <= i < |rows| ==> r[i] == rows[i].match_text.GetOr("")
  {
    Map(rows, (p: Project) => p.match_text.GetOr(""))
  }

  // ---------------------------------------------------------------------------------------
  // filling the missing output columns

  /** The row after `out[c] = ""` (or `= 0` for `bids_count`). */
  function Default(c: Column, p: Project): Project {
    match c
    case Title => p.(title := Some(""))
    case Category => p.(category := Some(""))
    case Budget => p.(budget := Some(""))
    case TimeLeft => p.(time_left := Some(""))
    case BidsCount => p.(bids_count := Some(0))
    case Url => p.(url := Some(""))
    case _ => p
  }

  /** A row of the frame once every output column exists: a column the frame had keeps its value, a missing one reads as the default. */
  function FillRow(columns: set<Column>, p: Project): Project {
    p.(title := if Title in columns then p.title else Some(""),
       category := if Category in columns then p.category else Some(""),
       budget := if Budget in columns then p.budget else Some(""),
       time_left := if TimeLeft in columns then p.time_left else Some(""),
       bids_count := if BidsCount in columns then p.bids_count else Some(0),
       url := if Url in columns then p.url else Some(""))
  }

  /** The frame once every output column exists. */
  function Filled(t: Table): Table {
    Table(t.columns + {Title, Category, Budget, TimeLeft, BidsCount, Url}, Map(t.rows, p => FillRow(t.columns, p)))
  }

  /** The row after the column loop has visited the first `i` output columns. */
  function FillRowUpTo(columns: set<Column>, i: nat, p: Project): Project
    requires i <= |OutputColumns|
  {
    if i == 0 then p
    else
      var q := FillRowUpTo(columns, i - 1, p);
      if OutputColumns[i - 1] in columns then q else Default(OutputColumns[i - 1], q)
  }

  /** Once the loop has visited every output column, each row is `FillRow` of the original. */
  lemma FillRowUpToAll(columns: set<Column>, p: Project)
    ensures FillRowUpTo(columns, |OutputColumns|, p) == FillRow(columns, p)
  {
    assert FillRowUpTo(columns, 0, p) == p;
    var q1 := FillRowUpTo(columns, 1, p);
    assert q1 == p.(title := if Title in columns then p.title else Some(""));
    var q2 := FillRowUpTo(columns, 2, p);
    assert q2 == q1.(category := if Category in columns then p.category else Some(""));
    var q3 := FillRowUpTo(columns, 3, p);
    assert q3 == q2.(budget := if Budget in columns then p.budget else Some(""));
    var q4 := FillRowUpTo(columns, 4, p);
    assert q4 == q3.(time_left := if TimeLeft in columns then p.time_left else Some(""));
    var q5 := FillRowUpTo(columns, 5, p);
    assert q5 == q4.(bids_count := if BidsCount in columns then p.bids_count else Some(0));
    assert FillRowUpTo(columns, 6, p) == q5.(url := if Url in columns then p.url else Some(""));
  }

  /** The `for c in cols` loop: every missing output column is added with its default. */
  method FillMissingColumns(t: Table) returns (out: Table)
    ensures out == Filled(t)
  {
    out := t;
    for i := 0 to |OutputColumns|
      invariant forall c :: c in out.columns <==> c in t.columns || c in OutputColumns[..i]
      invariant |out.rows| == |t.rows|
      invariant forall k :: 0 <= k < |t.rows| ==> out.rows[k] == FillRowUpTo(t.columns, i, t.rows[k])
    {
      var c := OutputColumns[i];
      assert c !in OutputColumns[..i];
      if c !in out.columns {
        out := Table(out.columns + {c}, Map(out.rows, p => Default(c, p)));
      }
      assert OutputColumns[..i + 1] == OutputColumns[..i] + [c];
    }
    assert OutputColumns[..|OutputColumns|] == OutputColumns;
    forall k | 0 <= k < |t.rows|
      ensures out.rows[k] == Filled(t).rows[k]
    {
      FillRowUpToAll(t.columns, t.rows[k]);
    }
  }

  // ---------------------------------------------------------------------------------------
  // ordering by score

  function Score(x: (real, Project)): real {
    x.0
  }

  predicate SortedDesc<T>(xs: seq<T>, key: T -> real) {
    forall i, j :: 0 <= i < j < |xs| ==> key(xs[i]) >= key(xs[j])
  }

  /** `x` placed before the first element with a smaller key. */
  function InsertDesc<T>(x: T, xs: seq<T>, key: T -> real): (r: seq<T>)
    requires SortedDesc(xs, key)
    ensures SortedDesc(r, key)
    ensures multiset(r) == multiset(xs) + multiset{x}
  {
    if xs == [] then [x]
    else if key(x) >= key(xs[0]) then
      ConsSorted(x, xs, key);
      [x] + xs
    else
      var rest := InsertDesc(x, xs[1..], key);
      assert xs == [xs[0]] + xs[1..];
      AllBelow(rest, xs[1..], x, key, key(xs[0]));
      ConsSorted(xs[0], rest, key);
      [xs[0]] + rest
  }

  /** A sorted list stays sorted under a new head whose key is at least every key in it. */
  lemma ConsSorted<T>(h: T, xs: seq<T>, key: T -> real)
    requires SortedDesc(xs, key)
    requires forall j :: 0 <= j < |xs| ==> key(xs[j]) <= key(h)
    ensures SortedDesc([h] + xs, key)
  {
    var ys := [h] + xs;
    forall i, j | 0 <= i < j < |ys|
      ensures key(ys[i]) >= key(ys[j])
    {
      assert ys[j] == xs[j - 1];
      if i > 0 {
        assert ys[i] == xs[i - 1];
      }
    }
  }

  /** A permutation of `xs` plus `x` has no key above a bound that `x` and every element of `xs` respect. */
  lemma AllBelow<T>(rest: seq<T>, xs: seq<T>, x: T, key: T -> real, b: real)
    requires multiset(rest) == multiset(xs) + multiset{x}
    requires key(x) <= b && forall j :: 0 <= j < |xs| ==> key(xs[j]) <= b
    ensures forall j :: 0 <= j < |rest| ==> key(rest[j]) <= b
  {
    forall j | 0 <= j < |rest|
      ensures key(rest[j]) <= b
    {
      assert rest[j] in multiset(rest);
      if rest[j] != x {
        assert rest[j] in multiset(xs);
      }
    }
  }

  /** `sort_values(..., ascending=False)`: highest key first. The order among equal keys is not part of the contract. */
  function SortDesc<T>(xs: seq<T>, key: T -> real): (r: seq<T>)
    ensures SortedDesc(r, key)
    ensures multiset(r) == multiset(xs)
  {
    if xs == [] then []
    else
      assert xs == [xs[0]] + xs[1..];
      InsertDesc(xs[0], SortDesc(xs[1..], key), key)
  }

  /** How many rows `head(k)` keeps of `n`: the first `k`, or for a negative `k` all but the last `-k`. */
  function HeadLength(n: nat, k: int): (h: nat)
    ensures h <= n
  {
    if k >= 0 then (if k <= n then k else n)
    else if n + k >= 0 then n + k else 0
  }

  // ---------------------------------------------------------------------------------------
  // the ranking

  /** Every row of the filled frame with its score (`out["score"] = sims`). */
  function ScoredRows(t: Table, profile: string, similarity: Similarity): (r: seq<(real, Project)>)
    ensures |r| == |t.rows|
    ensures forall i :: 0 <= i < |t.rows| ==> r[i] == (similarity(Corpus(t.rows), profile, i), FillRow(t.columns, t.rows[i]))
  {
    var filled := Filled(t).rows;
    seq(|filled|, i requires 0 <= i < |filled| => (similarity(Corpus(t.rows), profile, i), filled[i]))
  }

  function Ranked(t: Table, profile: string, similarity: Similarity): seq<(real, Project)> {
    SortDesc(ScoredRows(t, profile, similarity), Score)
  }

  /** The scored rows `head(top_k)` keeps. */
  function Selected(t: Table, profile: string, topK: int, similarity: Similarity): seq<(real, Project)> {
    var ranked := Ranked(t, profile, similarity);
    ranked[..HeadLength(|ranked|, topK)]
  }

  function OutputRow(x: (real, Project)): MatchRow {
    MatchRow(x.0, x.1.title, x.1.category, x.1.budget, x.1.time_left, x.1.bids_count, x.1.url)
  }

  /** What `match_projects_tfidf` returns. */
  function Matched(t: Table, profile: string, topK: int, terms: Analyzer, similarity: Similarity): Result<seq<MatchRow>, MatchError> {
    if MatchText !in t.columns then Failure(MissingMatchText)
    else if !HasVocabulary(Corpus(t.rows), terms) then Failure(EmptyVocabulary)
    else Success(Map(Selected(t, profile, topK, similarity), OutputRow))
  }

  /** `match_projects_tfidf`: check the column, fit and score, fill the output columns, sort, cut, project. */
  method MatchProjectsTfidf(t: Table, profile: string, topK: int, terms: Analyzer, similarity: Similarity)
    returns (r: Result<seq<MatchRow>, MatchError>)
    ensures r == Matched(t, profile, topK, terms, similarity)
  {
    if MatchText !in t.columns {
      return Failure(MissingMatchText);
    }
    var corpus := Corpus(t.rows);
    if !HasVocabulary(corpus, terms) {
      return Failure(EmptyVocabulary);
    }
    var out := FillMissingColumns(t);
    var scored := seq(|out.rows|, i requires 0 <= i < |out.rows| => (similarity(corpus, profile, i), out.rows[i]));
    assert scored == ScoredRows(t, profile, similarity);
    var ranked := SortDesc(scored, Score);
    var top := ranked[..HeadLength(|ranked|, topK)];
    return Success(Map(top, OutputRow));
  }

  // ---------------------------------------------------------------------------------------
  // properties of the ranking

  /** The first `h` elements of a list sorted best first, and what is left: nothing left scores above anything kept. */
  lemma HeadOfSorted<T>(ranked: seq<T>, h: nat, key: T -> real)
    requires SortedDesc(ranked, key) && h <= |ranked|
    ensures multiset(ranked) == multiset(ranked[..h]) + multiset(ranked[h..])
    ensures forall x, k :: x in multiset(ranked[h..]) && 0 <= k < h ==> key(x) <= key(ranked[k])
  {
    assert ranked == ranked[..h] + ranked[h..];
    forall x, k | x in multiset(ranked[h..]) && 0 <= k < h
      ensures key(x) <= key(ranked[k])
    {
      assert x in ranked[h..];
      var j :| 0 <= j < |ranked[h..]| && ranked[h..][j] == x;
      assert ranked[h + j] == x;
    }
  }

  /**
   * The call fails exactly when `match_text` is missing or fitting learns no term (always so
   * for a table without rows), and otherwise returns `head(top_k)`'s number of rows.
   */
  lemma MatchedLength(t: Table, profile: string, topK: int, terms: Analyzer, similarity: Similarity)
    ensures Matched(t, profile, topK, terms, similarity).Failure? <==>
      MatchText !in t.columns || !HasVocabulary(Corpus(t.rows), terms)
    ensures MatchText !in t.columns ==> Matched(t, profile, topK, terms, similarity) == Failure(MissingMatchText)
    ensures MatchText in t.columns && |t.rows| == 0 ==> Matched(t, profile, topK, terms, similarity) == Failure(EmptyVocabulary)
    ensures Matched(t, profile, topK, terms, similarity).Success? && topK >= 0 ==>
      |Matched(t, profile, topK, terms, similarity).value| == if topK <= |t.rows| then topK else |t.rows|
    ensures Matched(t, profile, topK, terms, similarity).Success? && topK < 0 ==>
      |Matched(t, profile, topK, terms, similarity).value| == if |t.rows| + topK >= 0 then |t.rows| + topK else 0
  {
    var ranked := Ranked(t, profile, similarity);
    var scored := ScoredRows(t, profile, similarity);
    assert |ranked| == |multiset(ranked)| == |multiset(scored)| == |scored| == |t.rows|;
    if MatchText in t.columns && HasVocabulary(Corpus(t.rows), terms) {
      assert |Matched(t, profile, topK, terms, similarity).value| == |Selected(t, profile, topK, similarity)| == HeadLength(|ranked|, topK);
    }
  }

  /** The rows come out best first. */
  lemma MatchedBestFirst(t: Table, profile: string, topK: int, terms: Analyzer, similarity: Similarity)
    requires MatchText in t.columns && HasVocabulary(Corpus(t.rows), terms)
    ensures forall i, j :: 0 <= i < j < |Matched(t, profile, topK, terms, similarity).value| ==>
      Matched(t, profile, topK, terms, similarity).value[i].score >= Matched(t, profile, topK, terms, similarity).value[j].score
  {
    var sel := Selected(t, profile, topK, similarity);
    var ranked := Ranked(t, profile, similarity);
    assert forall i :: 0 <= i < |sel| ==> sel[i] == ranked[i];
  }

  /** Every returned row is an input row with its own score and its output columns filled; no row is returned more often than it occurs. */
  lemma MatchedRowsFromInput(t: Table, profile: string, topK: int, terms: Analyzer, similarity: Similarity)
    requires MatchText in t.columns && HasVocabulary(Corpus(t.rows), terms)
    ensures Matched(t, profile, topK, terms, similarity).value == Map(Selected(t, profile, topK, similarity), OutputRow)
    ensures multiset(Selected(t, profile, topK, similarity)) <= multiset(ScoredRows(t, profile, similarity))
    ensures forall k :: 0 <= k < |Matched(t, profile, topK, terms, similarity).value| ==>
      exists i :: 0 <= i < |t.rows| &&
        Matched(t, profile, topK, terms, similarity).value[k] ==
        OutputRow((similarity(Corpus(t.rows), profile, i), FillRow(t.columns, t.rows[i])))
  {
    var ranked := Ranked(t, profile, similarity);
    var h := HeadLength(|ranked|, topK);
    var sel := Selected(t, profile, topK, similarity);
    var scored := ScoredRows(t, profile, similarity);
    var v := Matched(t, profile, topK, terms, similarity).value;
    assert v == Map(sel, OutputRow);
    HeadOfSorted(ranked, h, Score);
    SelectedFromScored(sel, scored);
    forall k | 0 <= k < |v|
      ensures exists i :: 0 <= i < |t.rows| && v[k] == OutputRow((similarity(Corpus(t.rows), profile, i), FillRow(t.columns, t.rows[i])))
    {
      var i :| 0 <= i < |scored| && scored[i] == sel[k];
      assert v[k] == OutputRow(scored[i]);
    }
  }

  /** Elements of a sub-multiset occur in the whole. */
  lemma SelectedFromScored(sel: seq<(real, Project)>, scored: seq<(real, Project)>)
    requires multiset(sel) <= multiset(scored)
    ensures forall k :: 0 <= k < |sel| ==> sel[k] in scored
  {
    forall k | 0 <= k < |sel|
      ensures sel[k] in scored
    {
      assert sel[k] in multiset(sel);
    }
  }

  /** No row left out scores higher than a returned one. */
  lemma MatchedIsTop(t: Table, profile: string, topK: int, terms: Analyzer, similarity: Similarity)
    requires MatchText in t.columns && HasVocabulary(Corpus(t.rows), terms)
    ensures forall x, k ::
      (x in multiset(ScoredRows(t, profile, similarity)) - multiset(Selected(t, profile, topK, similarity)) &&
       0 <= k < |Matched(t, profile, topK, terms, similarity).value|) ==>
      Score(x) <= Matched(t, profile, topK, terms, similarity).value[k].score
  {
    var ranked := Ranked(t, profile, similarity);
    var h := HeadLength(|ranked|, topK);
    var sel := Selected(t, profile, topK, similarity);
    var v := Matched(t, profile, topK, terms, similarity).value;
    var left := multiset(ScoredRows(t, profile, similarity)) - multiset(sel);
    HeadOfSorted(ranked, h, Score);
    assert left == multiset(ranked[h..]);
    forall x, k | x in left && 0 <= k < |v|
      ensures Score(x) <= v[k].score
    {
      assert v[k].score == Score(ranked[k]);
    }
  }

  /** When `top_k` is at least the number of rows, every row is returned. */
  lemma MatchedAllWhenCovering(t: Table, profile: string, topK: int, similarity: Similarity)
    requires MatchText in t.columns && topK >= |t.rows|
    ensures multiset(Selected(t, profile, topK, similarity)) == multiset(ScoredRows(t, profile, similarity))
  {
    var ranked := Ranked(t, profile, similarity);
    assert |ranked| == |multiset(ranked)| == |multiset(ScoredRows(t, profile, similarity))| == |t.rows|;
    assert Selected(t, profile, topK, similarity) == ranked;
  }
}
