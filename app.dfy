/**
 * The two pieces of the Streamlit app with behaviour of their own: where an
 * uploaded CV is saved (and which uploads are refused), and the chain of optional
 * filters the user applies to the ranked results before they are shown.
 */
module App {
  import opened Wrappers
  import opened Text
  import opened Seqs
  import opened Projects
  import opened CvText
  import opened TfidfMatcher

  datatype UploadError = UnsupportedUpload   // the `ValueError` for a suffix other than .pdf and .docx

  const InputsDir: string := "inputs"
  const DefaultCvName: string := "my_cv"

  /** `save_uploaded_cv`, without the write: the path the upload is saved under, chosen by its lower-cased suffix. */
  function SaveUploadedCv(uploadName: string): (r: Result<string, UploadError>)
    ensures r.Failure? <==> Lower(Suffix(uploadName)) != ".pdf" && Lower(Suffix(uploadName)) != ".docx"
    ensures r.Success? ==> r.value == InputsDir + "/" + DefaultCvName + Lower(Suffix(uploadName))
  {
    var suffix := Lower(Suffix(uploadName));
    if suffix != ".pdf" && suffix != ".docx" then Failure(UnsupportedUpload)
    else Success(InputsDir + "/" + DefaultCvName + suffix)
  }

  /** The suffix of the saved path is the suffix it was built with. */
  lemma SavedPathSuffix(suffix: string)
    requires |suffix| >= 2 && suffix[0] == '.' && '.' !in suffix[1..] && '/' !in suffix
    ensures Suffix(InputsDir + "/" + DefaultCvName + suffix) == suffix
  {
    var ext := suffix[1..];
    assert suffix == "." + ext;
    assert '/' !in ext;
    SuffixOfName(InputsDir, DefaultCvName, ext);
    assert InputsDir + "/" + DefaultCvName + suffix == InputsDir + "/" + DefaultCvName + "." + ext;
  }

  /** A saved CV keeps the upload's format: its own suffix is the upload's lower-cased suffix, so reading it back never fails for its format. */
  lemma SavedCvKeepsFormat(uploadName: string)
    requires SaveUploadedCv(uploadName).Success?
    ensures Suffix(SaveUploadedCv(uploadName).value) == Lower(Suffix(uploadName))
    ensures Lower(Suffix(SaveUploadedCv(uploadName).value)) == ".pdf" || Lower(Suffix(SaveUploadedCv(uploadName).value)) == ".docx"
  {
    var suffix := Lower(Suffix(uploadName));
    assert |suffix| >= 2 && suffix[0] == '.' && '.' !in suffix[1..] && '/' !in suffix by {
      if suffix == ".pdf" {
        assert suffix[1..] == "pdf";
      } else {
        assert suffix[1..] == "docx";
      }
    }
    SavedPathSuffix(suffix);
    LowerIdempotent(Suffix(uploadName));
  }

  // ---------------------------------------------------------------------------------------
  // the result filters

  /** `bids_count` as the filter reads it: `fillna(0).astype(int)`. */
  function FilterBids(row: MatchRow): int {
    row.bids_count.GetOr(0)
  }

  /** The bids value a result card shows: `int(bids)`, or 0 when that conversion fails on NaN. It is the value the filter compared. */
  function DisplayBids(row: MatchRow): (n: int)
    ensures row.bids_count.Some? ==> n == row.bids_count.value
    ensures row.bids_count.None? ==> n == 0
    ensures n == FilterBids(row)
  {
    match row.bids_count
    case Some(b) => b
    case None => 0
  }

  predicate BidsWithin(row: MatchRow, maxBids: int) {
    FilterBids(row) <= maxBids
  }

  /** `category.astype(str).str.contains(pattern, case=False)`, the pattern taken literally. */
  predicate CategoryMatches(row: MatchRow, pattern: string) {
    Contains(Lower(AsStr(row.category)), Lower(pattern))
  }

  /** Whether a row gets through all three filters. */
  predicate Survives(row: MatchRow, hasBidsColumn: bool, maxBids: int, categoryFilter: string, minScore: real) {
    (maxBids != 0 && hasBidsColumn ==> BidsWithin(row, maxBids)) &&
    (Strip(categoryFilter) != "" ==> CategoryMatches(row, Strip(categoryFilter))) &&
    row.score >= minScore
  }

  /**
   * The filter chain in `main`: the bids filter when `max_bids` is non-zero and the
   * column exists, the category filter when the trimmed filter text is not empty,
   * then the score filter.
   */
  method FilterResults(results: seq<MatchRow>, hasBidsColumn: bool, maxBids: int, categoryFilter: string, minScore: real)
    returns (r: seq<MatchRow>)
    ensures r == Filter(results, row => Survives(row, hasBidsColumn, maxBids, categoryFilter, minScore))
  {
    var bidsOn := maxBids != 0 && hasBidsColumn;
    var pattern := Strip(categoryFilter);
    var byBids := row => bidsOn ==> BidsWithin(row, maxBids);
    var byCategory := row => pattern != "" ==> CategoryMatches(row, pattern);
    var byScore := (row: MatchRow) => row.score >= minScore;

    r := results;
    if bidsOn {
      r := Filter(r, byBids);
    } else {
      FilterAll(r, byBids);
    }
    var r1 := r;
    if pattern != "" {
      r := Filter(r, byCategory);
    } else {
      FilterAll(r, byCategory);
    }
    var r2 := r;
    r := Filter(r, byScore);
    FilterChain(results, byBids, byCategory, byScore, row => Survives(row, hasBidsColumn, maxBids, categoryFilter, minScore));
  }

  /** Three filters in a row keep what all three predicates accept. */
  lemma FilterChain<T>(xs: seq<T>, p: T -> bool, q: T -> bool, s: T -> bool, all: T -> bool)
    requires forall x :: all(x) == (p(x) && q(x) && s(x))
    ensures Filter(Filter(Filter(xs, p), q), s) == Filter(xs, all)
  {
    var pq := x => p(x) && q(x);
    FilterFilter(xs, p, q, pq);
    FilterFilter(xs, pq, s, all);
  }

  /**
   * The surviving rows keep their relative order and nothing is added; each has at
   * least the minimum score, at most `max_bids` bids when that filter is on and the
   * category text when that filter is on; and every row meeting all three survives.
   */
  lemma FilteredResults(results: seq<MatchRow>, hasBidsColumn: bool, maxBids: int, categoryFilter: string, minScore: real)
    ensures var r := Filter(results, row => Survives(row, hasBidsColumn, maxBids, categoryFilter, minScore));
      IsSubsequence(r, results) &&
      (forall i :: 0 <= i < |r| ==> r[i].score >= minScore) &&
      (maxBids != 0 && hasBidsColumn ==> forall i :: 0 <= i < |r| ==> DisplayBids(r[i]) <= maxBids) &&
      (Strip(categoryFilter) != "" ==> forall i :: 0 <= i < |r| ==> CategoryMatches(r[i], Strip(categoryFilter))) &&
      (forall i :: 0 <= i < |results| && Survives(results[i], hasBidsColumn, maxBids, categoryFilter, minScore) ==> results[i] in r)
  {
    FilterIsSubsequence(results, row => Survives(row, hasBidsColumn, maxBids, categoryFilter, minScore));
  }
}
