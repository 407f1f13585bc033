/**
 * The record cleaner (`clean_projects`): a required-column check, trimming,
 * dropping rows with missing or empty mandatory content, a case-insensitive
 * blocklist on the description, defaults for the optional columns, the
 * format-agnostic skills parser, the `skills_text`/`match_text` fields, and
 * URL de-duplication that keeps the first occurrence.
 */
module CleanProjects {
  import opened Wrappers
  import opened Text
  import opened Seqs
  import opened Projects

  datatype CleanError = MissingRequiredColumn(column: Column)

  const RequiredColumns: seq<Column> := [Title, Description, Skills, Url]

  const BlockedPhrases: seq<string> := [
    "Please Sign Up or Login to see details",
    "Sign Up or Login to see details",
    "Please login to see details"
  ]

  /** Index of the first required column from position `i` on that the table lacks. */
  function FirstMissingFrom(columns: set<Column>, i: nat): (r: Option<nat>)
    requires i <= |RequiredColumns|
    ensures r.None? <==> forall j :: i <= j < |RequiredColumns| ==> RequiredColumns[j] in columns
    ensures r.Some? ==> i <= r.value < |RequiredColumns| && RequiredColumns[r.value] !in columns
    ensures r.Some? ==> forall j :: i <= j < r.value ==> RequiredColumns[j] in columns
    decreases |RequiredColumns| - i
  {
    if i == |RequiredColumns| then None
    else if RequiredColumns[i] !in columns then Some(i)
    else FirstMissingFrom(columns, i + 1)
  }

  // ---------------------------------------------------------------------------------------
  // the stages, one row at a time

  /** Stage 1: `astype(str).str.strip()` on title, description and url. */
  function TrimText(p: Project): Project {
    p.(title := Some(Strip(AsStr(p.title))),
       description := Some(Strip(AsStr(p.description))),
       url := Some(Strip(AsStr(p.url))))
  }

  /** `dropna(subset=required)`: after stage 1 only a NaN `skills` cell can still be missing. */
  predicate HasSkills(p: Project) {
    !p.skills.NoSkills?
  }

  predicate NonEmptyText(p: Project) {
    p.title != Some("") && p.description != Some("") && p.url != Some("")
  }

  /** `str.contains("|".join(BlockedPhrases), case=False)`: some phrase occurs, ignoring case. */
  predicate IsBlocked(d: string) {
    exists i :: 0 <= i < |BlockedPhrases| && Contains(Lower(d), Lower(BlockedPhrases[i]))
  }

  predicate NotBlocked(p: Project) {
    !IsBlocked(AsStr(p.description))
  }

  /** The three row filters of the cleaner, in order. */
  predicate PassesFilters(p: Project) {
    HasSkills(p) && NonEmptyText(p) && NotBlocked(p)
  }

  /** An input row survives the filters exactly when its trimmed form passes them. */
  predicate Keep(p: Project) {
    PassesFilters(TrimText(p))
  }

  /** Defaults for the optional columns, applied only when the column exists. */
  function FillOptional(columns: set<Column>, p: Project): Project {
    p.(budget := if Budget in columns then Some(p.budget.GetOr("Not specified")) else p.budget,
       time_left := if TimeLeft in columns then Some(p.time_left.GetOr("Unknown")) else p.time_left,
       bids_count := if BidsCount in columns then Some(p.bids_count.GetOr(0)) else p.bids_count)
  }

  // ---------------------------------------------------------------------------------------
  // skills (`_ensure_list`)

  predicate NonBlank(part: string) {
    Strip(part) != ""
  }

  predicate IsSingleQuote(c: char) {
    c == '\''
  }

  predicate IsDoubleQuote(c: char) {
    c == '"'
  }

  /** `p.strip().strip("'").strip('"')`. */
  function Unquote(part: string): string {
    StripBy(StripBy(Strip(part), IsSingleQuote), IsDoubleQuote)
  }

  /** A skills cell read back as a string: bracketed list syntax or plain comma-separated text. */
  function ParseSkillsText(x: string): seq<string> {
    ParseStripped(Strip(x))
  }

  /** The parse of an already stripped cell. */
  function ParseStripped(s: string): seq<string> {
    if StartsWith(s, "[") && EndsWith(s, "]") then
      assert s[0] == '[' && s[|s| - 1] == ']';
      Map(Filter(Split(s[1..|s| - 1], ','), NonBlank), Unquote)
    else
      Map(Filter(Split(s, ','), NonBlank), Strip)
  }

  function ParseSkills(cell: SkillsCell): seq<string> {
    match cell
    case SkillsItems(xs) => xs
    case NoSkills => []
    case SkillsString(x) => ParseSkillsText(x)
  }

  function EnsureListRow(p: Project): Project {
    p.(skills := SkillsItems(ParseSkills(p.skills)))
  }

  /** `" ".join(xs)` for a list, `str(xs)` otherwise. */
  function SkillsTextOf(cell: SkillsCell): string {
    match cell
    case SkillsItems(xs) => Join(xs, " ")
    case SkillsString(x) => x
    case NoSkills => "nan"
  }

  function AddSkillsText(p: Project): Project {
    p.(skills_text := Some(SkillsTextOf(p.skills)))
  }

  function AddMatchText(p: Project): Project {
    p.(match_text := Some(Strip(AsStr(p.title) + " " + AsStr(p.description) + " " + AsStr(p.skills_text))))
  }

  /** Everything the cleaner does to one surviving row. */
  function CleanRow(columns: set<Column>, p: Project): Project {
    AddMatchText(AddSkillsText(EnsureListRow(FillOptional(columns, TrimText(p)))))
  }

  // ---------------------------------------------------------------------------------------
  // the whole table

  /** The surviving rows, cleaned, in input order (before de-duplication). */
  function CleanRows(columns: set<Column>, rows: seq<Project>): seq<Project> {
    if rows == [] then []
    else (if Keep(rows[0]) then [CleanRow(columns, rows[0])] else []) + CleanRows(columns, rows[1..])
  }

  /** The cleaner's result, stated row by row. */
  function Cleaned(t: Table): Result<Table, CleanError> {
    match FirstMissingFrom(t.columns, 0)
    case Some(i) => Failure(MissingRequiredColumn(RequiredColumns[i]))
    case None =>
      Success(Table(t.columns + {SkillsText, MatchText}, DistinctBy(CleanRows(t.columns, t.rows), UrlOf, {})))
  }

  /** `clean_projects`: the stages applied to the whole table one after another. */
  method CleanProjects(t: Table) returns (r: Result<Table, CleanError>)
    ensures r == Cleaned(t)
  {
    var i := 0;
    while i < |RequiredColumns|
      invariant 0 <= i <= |RequiredColumns|
      invariant FirstMissingFrom(t.columns, 0) == FirstMissingFrom(t.columns, i)
    {
      if RequiredColumns[i] !in t.columns {
        return Failure(MissingRequiredColumn(RequiredColumns[i]));
      }
      i := i + 1;
    }
    var columns := t.columns;
    var rows := Map(t.rows, TrimText);
    ghost var trimmed := rows;
    rows := Filter(rows, HasSkills);
    ghost var f1 := rows;
    rows := Filter(rows, NonEmptyText);
    ghost var f2 := rows;
    rows := Filter(rows, NotBlocked);
    ghost var f3 := rows;
    rows := Map(rows, p => FillOptional(columns, p));
    ghost var m1 := rows;
    rows := Map(rows, EnsureListRow);
    ghost var m2 := rows;
    rows := Map(rows, AddSkillsText);
    ghost var m3 := rows;
    rows := Map(rows, AddMatchText);
    ghost var m4 := rows;
    rows := DistinctBy(rows, UrlOf, {});
    r := Success(Table(columns + {SkillsText, MatchText}, rows));

    // the three filters are one filter, and it commutes with the trimming
    FilterFilter(trimmed, HasSkills, NonEmptyText, p => HasSkills(p) && NonEmptyText(p));
    FilterFilter(trimmed, p => HasSkills(p) && NonEmptyText(p), NotBlocked, PassesFilters);
    FilterMap(t.rows, TrimText, PassesFilters, Keep);
    ghost var kept := Filter(t.rows, Keep);
    assert f3 == Map(kept, TrimText);
    // the four row maps compose into CleanRow
    MapMap(kept, TrimText, p => FillOptional(columns, p), p => FillOptional(columns, TrimText(p)));
    MapMap(kept, p => FillOptional(columns, TrimText(p)), EnsureListRow,
      p => EnsureListRow(FillOptional(columns, TrimText(p))));
    MapMap(kept, p => EnsureListRow(FillOptional(columns, TrimText(p))), AddSkillsText,
      p => AddSkillsText(EnsureListRow(FillOptional(columns, TrimText(p)))));
    MapMap(kept, p => AddSkillsText(EnsureListRow(FillOptional(columns, TrimText(p)))), AddMatchText,
      p => CleanRow(columns, p));
    CleanRowsIsMapFilter(columns, t.rows, p => CleanRow(columns, p));
  }

  // ---------------------------------------------------------------------------------------
  // helpers relating the stage-wise and the row-wise forms

  lemma {:induction false} MapMap<T, U, V>(xs: seq<T>, f: T -> U, g: U -> V, h: T -> V)
    requires forall x :: h(x) == g(f(x))
    ensures Map(Map(xs, f), g) == Map(xs, h)
  {
    if xs != [] {
      MapMap(xs[1..], f, g, h);
      assert Map(xs, f)[1..] == Map(xs[1..], f);
    }
  }

  lemma {:induction false} CleanRowsIsMapFilter(columns: set<Column>, rows: seq<Project>, f: Project -> Project)
    requires forall p :: f(p) == CleanRow(columns, p)
    ensures CleanRows(columns, rows) == Map(Filter(rows, Keep), f)
  {
    if rows != [] {
      CleanRowsIsMapFilter(columns, rows[1..], f);
    }
  }

  // ---------------------------------------------------------------------------------------
  // properties of the cleaner

  /** The cleaner fails exactly when a required column is absent, naming the first absent one in check order. */
  lemma MissingColumnFails(t: Table)
    ensures Cleaned(t).Failure? <==> exists j :: 0 <= j < |RequiredColumns| && RequiredColumns[j] !in t.columns
    ensures Cleaned(t).Failure? ==> exists j :: (
      && 0 <= j < |RequiredColumns|
      && Cleaned(t).error == MissingRequiredColumn(RequiredColumns[j])
      && RequiredColumns[j] !in t.columns
      && forall k :: 0 <= k < j ==> RequiredColumns[k] in t.columns)
  {
    var m := FirstMissingFrom(t.columns, 0);
    if m.Some? {
      assert RequiredColumns[m.value] !in t.columns;
    }
  }

  predicate IsCleanText(s: string) {
    s != "" && Stripped(s)
  }

  /** The text fields of a cleaned row: trimmed, non-empty, unblocked, with the derived fields in place. */
  predicate CleanFields(y: Project) {
    && y.title.Some? && IsCleanText(y.title.value)
    && y.description.Some? && IsCleanText(y.description.value)
    && y.url.Some? && IsCleanText(y.url.value)
    && !IsBlocked(y.description.value)
    && y.skills.SkillsItems?
    && y.skills_text == Some(Join(y.skills.items, " "))
    && y.match_text == Some(Strip(y.title.value + " " + y.description.value + " " + y.skills_text.value))
  }

  /** Each optional column the table has is filled. */
  predicate OptionalFilled(columns: set<Column>, y: Project) {
    && (Budget in columns ==> y.budget.Some?)
    && (TimeLeft in columns ==> y.time_left.Some?)
    && (BidsCount in columns ==> y.bids_count.Some?)
  }

  /** What every row the cleaner returns satisfies. */
  predicate WellCleaned(columns: set<Column>, y: Project) {
    CleanFields(y) && OptionalFilled(columns, y)
  }

  /** A row that passes the filters comes out trimmed, non-empty, unblocked, with a skills list and its optional fields filled. */
  lemma CleanRowIsWellCleaned(columns: set<Column>, p: Project)
    requires Keep(p)
    ensures WellCleaned(columns, CleanRow(columns, p))
  {
    StripByEnds(AsStr(p.title), IsSpace);
    StripByEnds(AsStr(p.description), IsSpace);
    StripByEnds(AsStr(p.url), IsSpace);
  }

  /** The optional columns get their defaults, and keep present values, exactly when the column exists. */
  lemma CleanRowFills(columns: set<Column>, p: Project)
    ensures CleanRow(columns, p).budget ==
      if Budget in columns then Some(p.budget.GetOr("Not specified")) else p.budget
    ensures CleanRow(columns, p).time_left ==
      if TimeLeft in columns then Some(p.time_left.GetOr("Unknown")) else p.time_left
    ensures CleanRow(columns, p).bids_count ==
      if BidsCount in columns then Some(p.bids_count.GetOr(0)) else p.bids_count
  {
  }

  /**
   * Every output row has trimmed, non-empty title, description and url, a description free of
   * blocked phrases, a skills list, and its optional columns filled; output URLs are pairwise distinct.
   */
  lemma CleanedRowsWellCleaned(t: Table)
    requires Cleaned(t).Success?
    ensures forall k :: 0 <= k < |Cleaned(t).value.rows| ==> WellCleaned(t.columns, Cleaned(t).value.rows[k])
    ensures DistinctKeys(Cleaned(t).value.rows, UrlOf)
  {
    var f := p => CleanRow(t.columns, p);
    CleanedIsSubsequence(t, f);
    var sel := Selected(t);
    forall k | 0 <= k < |sel|
      ensures WellCleaned(t.columns, f(sel[k]))
    {
      assert sel[k] in Filter(t.rows, Keep);
      CleanRowIsWellCleaned(t.columns, sel[k]);
    }
  }

  /** The URL a row has once cleaned. */
  function CleanUrl(p: Project): Option<string> {
    Some(Strip(AsStr(p.url)))
  }

  /** Among rows sharing a cleaned URL, the first one to pass the filters is the one kept. */
  lemma CleanedKeepsFirst(t: Table, j: int)
    requires Cleaned(t).Success?
    requires 0 <= j < |t.rows| && Keep(t.rows[j])
    requires forall i :: 0 <= i < j && Keep(t.rows[i]) ==> CleanUrl(t.rows[i]) != CleanUrl(t.rows[j])
    ensures CleanRow(t.columns, t.rows[j]) in Cleaned(t).value.rows
  {
    var f := p => CleanRow(t.columns, p);
    CleanedIsSubsequence(t, f);
    DistinctByFilterKeepsFirst(t.rows, Keep, CleanUrl, {}, j);
    MapIn(Selected(t), f, t.rows[j]);
  }

  /** The input rows the cleaner keeps, before they are cleaned. */
  function Selected(t: Table): seq<Project> {
    DistinctBy(Filter(t.rows, Keep), CleanUrl, {})
  }

  /** The output is the cleaned form of an order-preserving subsequence of the input rows. */
  lemma CleanedIsSubsequence(t: Table, f: Project -> Project)
    requires Cleaned(t).Success?
    requires forall p :: f(p) == CleanRow(t.columns, p)
    ensures Cleaned(t).value.rows == Map(Selected(t), f)
    ensures IsSubsequence(Selected(t), t.rows)
  {
    CleanRowsIsMapFilter(t.columns, t.rows, f);
    DistinctByMap(Filter(t.rows, Keep), f, UrlOf, CleanUrl, {});
    FilterIsSubsequence(t.rows, Keep);
    DistinctByIsSubsequence(Filter(t.rows, Keep), CleanUrl, {});
    SubsequenceTrans(Selected(t), Filter(t.rows, Keep), t.rows);
  }

  /** Trimming leaves a cleaned row's text fields alone. */
  lemma TrimTextFixed(y: Project)
    requires CleanFields(y)
    ensures TrimText(y) == y
  {
    StripByFixed(y.title.value, IsSpace);
    StripByFixed(y.description.value, IsSpace);
    StripByFixed(y.url.value, IsSpace);
  }

  lemma FillOptionalFixed(columns: set<Column>, y: Project)
    requires OptionalFilled(columns, y)
    ensures FillOptional(columns, y) == y
  {
  }

  /** Re-deriving the skills list, `skills_text` and `match_text` of a cleaned row reproduces them. */
  lemma DerivedFixed(y: Project)
    requires CleanFields(y)
    ensures AddMatchText(AddSkillsText(EnsureListRow(y))) == y
  {
    assert EnsureListRow(y) == y;
    assert AddSkillsText(y) == y;
  }

  /** A cleaned row passes the filters again and is left as it is. */
  lemma CleanRowFixed(columns: set<Column>, y: Project)
    requires WellCleaned(columns, y)
    ensures Keep(y) && CleanRow(columns, y) == y
  {
    TrimTextFixed(y);
    FillOptionalFixed(columns, y);
    DerivedFixed(y);
    assert PassesFilters(y);
  }

  lemma CleanRowsFixed(columns: set<Column>, ys: seq<Project>)
    requires forall k :: 0 <= k < |ys| ==> WellCleaned(columns, ys[k])
    ensures CleanRows(columns, ys) == ys
  {
    var f := p => CleanRow(columns, p);
    CleanRowsIsMapFilter(columns, ys, f);
    forall k | 0 <= k < |ys|
      ensures Keep(ys[k]) && f(ys[k]) == ys[k]
    {
      CleanRowFixed(columns, ys[k]);
    }
    FilterAll(ys, Keep);
    MapFixed(ys, f);
  }

  /** The two columns the cleaner adds are not optional ones, so they change nothing about which optional fields must be filled. */
  lemma OptionalFilledWithAdded(columns: set<Column>, y: Project)
    requires OptionalFilled(columns, y)
    ensures OptionalFilled(columns + {SkillsText, MatchText}, y)
  {
    assert Budget in columns + {SkillsText, MatchText} ==> Budget in columns;
    assert TimeLeft in columns + {SkillsText, MatchText} ==> TimeLeft in columns;
    assert BidsCount in columns + {SkillsText, MatchText} ==> BidsCount in columns;
  }

  /** A table with every required column passes the column check. */
  lemma RequiredPresent(columns: set<Column>)
    requires FirstMissingFrom(columns, 0).None?
    ensures FirstMissingFrom(columns + {SkillsText, MatchText}, 0).None?
  {
  }

  /** Cleaning a cleaned table changes nothing: same columns, same rows, same URLs. */
  lemma CleanedIdempotent(t: Table)
    requires Cleaned(t).Success?
    ensures Cleaned(Cleaned(t).value) == Cleaned(t)
  {
    var u := Cleaned(t).value;
    CleanedRowsWellCleaned(t);
    forall k | 0 <= k < |u.rows|
      ensures WellCleaned(u.columns, u.rows[k])
    {
      OptionalFilledWithAdded(t.columns, u.rows[k]);
    }
    RequiredPresent(t.columns);
    assert u.columns + {SkillsText, MatchText} == u.columns;
    calc {
      Cleaned(u);
      ==
      Success(Table(u.columns, DistinctBy(CleanRows(u.columns, u.rows), UrlOf, {})));
      == { CleanRowsFixed(u.columns, u.rows); }
      Success(Table(u.columns, DistinctBy(u.rows, UrlOf, {})));
      == { DistinctByOfDistinct(u.rows, UrlOf, {}); }
      Success(u);
    }
  }

  // ---------------------------------------------------------------------------------------
  // properties of the skills parser

  predicate IsQuote(c: char) {
    c == '\'' || c == '"'
  }

  /** A skill name as it appears in the data: non-empty, trimmed, no commas, no bracket or quote at its ends. */
  predicate SkillName(w: string) {
    && w != [] && Stripped(w) && ',' !in w
    && w[0] != '[' && !IsQuote(w[0]) && !IsQuote(w[|w| - 1])
  }

  function Prefixed(pad: string, ws: seq<string>): (r: seq<string>)
    ensures |r| == |ws| && forall i :: 0 <= i < |ws| ==> r[i] == pad + ws[i]
  {
    if ws == [] then [] else [pad + ws[0]] + Prefixed(pad, ws[1..])
  }

  function Quoted(q: char, ws: seq<string>): (r: seq<string>)
    ensures |r| == |ws| && forall i :: 0 <= i < |ws| ==> r[i] == [q] + ws[i] + [q]
  {
    if ws == [] then [] else [[q] + ws[0] + [q]] + Quoted(q, ws[1..])
  }

  /** The pieces `Join(ws, "," + pad)` splits into at the commas: the first item, then each later one padded. */
  function Pieces(ws: seq<string>, pad: string): (r: seq<string>)
    requires |ws| >= 1
    ensures |r| == |ws| && r[0] == ws[0]
    ensures forall i :: 1 <= i < |ws| ==> r[i] == pad + ws[i]
  {
    [ws[0]] + Prefixed(pad, ws[1..])
  }

  lemma {:induction false} JoinPrefixFirst(pad: string, xs: seq<string>, sep: string)
    requires |xs| >= 1
    ensures pad + Join(xs, sep) == Join([pad + xs[0]] + xs[1..], sep)
  {
    var ys := [pad + xs[0]] + xs[1..];
    assert ys[1..] == xs[1..];
  }

  /** Joining with `","` followed by padding is joining the padded pieces with `","`. */
  lemma {:induction false} JoinPadded(ws: seq<string>, pad: string)
    requires |ws| >= 1
    ensures Join(ws, [','] + pad) == Join(Pieces(ws, pad), [','])
  {
    if |ws| > 1 {
      JoinPadded(ws[1..], pad);
      var p := Prefixed(pad, ws[1..]);
      assert p == [pad + ws[1]] + Prefixed(pad, ws[2..]);
      assert ws[1..][1..] == ws[2..];
      JoinPrefixFirst(pad, [ws[1]] + Prefixed(pad, ws[2..]), [',']);
      assert ([ws[1]] + Prefixed(pad, ws[2..]))[1..] == Prefixed(pad, ws[2..]);
      var pieces := [ws[0]] + p;
      assert pieces[1..] == p;
    }
  }

  lemma NoCommaInPadded(pad: string, w: string)
    requires AllSpace(pad) && ',' !in w
    ensures ',' !in pad + w
  {
    forall k | 0 <= k < |pad + w|
      ensures (pad + w)[k] != ','
    {
      if k < |pad| {
        assert (pad + w)[k] == pad[k];
      } else {
        assert (pad + w)[k] == w[k - |pad|];
      }
    }
  }

  /** Splitting `w0,<pad>w1,<pad>w2...` on commas gives the padded pieces, when no item holds a comma. */
  lemma SplitPadded(ws: seq<string>, pad: string)
    requires |ws| >= 1 && AllSpace(pad)
    requires forall i :: 0 <= i < |ws| ==> ',' !in ws[i]
    ensures Split(Join(ws, [','] + pad), ',') == Pieces(ws, pad)
  {
    JoinPadded(ws, pad);
    var pieces := Pieces(ws, pad);
    forall i | 0 <= i < |pieces|
      ensures ',' !in pieces[i]
    {
      if i > 0 {
        NoCommaInPadded(pad, ws[i]);
      }
    }
    SplitJoin(pieces, ',');
  }

  /** When the stripped cell is not in list syntax, the plain comma-separated branch applies. */
  lemma ParsePlainBranch(s: string)
    requires !(StartsWith(s, "[") && EndsWith(s, "]"))
    ensures ParseStripped(s) == Map(Filter(Split(s, ','), NonBlank), Strip)
  {
  }

  /** A cell that needs no stripping is parsed as it stands. */
  lemma ParseOfStripped(s: string)
    requires Stripped(s)
    ensures ParseSkillsText(s) == ParseStripped(s)
  {
    calc {
      ParseSkillsText(s);
      ParseStripped(Strip(s));
      == { StripByFixed(s, IsSpace); }
      ParseStripped(s);
    }
  }

  /** The plain form is already stripped and does not open with a bracket. */
  lemma PlainJoinShape(ws: seq<string>, pad: string)
    requires |ws| >= 1
    requires forall i :: 0 <= i < |ws| ==> SkillName(ws[i])
    ensures Stripped(Join(ws, [','] + pad))
    ensures !StartsWith(Join(ws, [','] + pad), "[")
  {
    var s := Join(ws, [','] + pad);
    JoinEnds(ws, [','] + pad);
    var w0, wn := ws[0], ws[|ws| - 1];
    assert s[0] == w0[0];
    assert s[|s| - 1] == wn[|wn| - 1];
    EndsWithChar(s, '[');
  }

  /** Each padded piece of the plain form strips back to its skill name. */
  lemma PlainPiecesStrip(ws: seq<string>, pad: string)
    requires |ws| >= 1 && AllSpace(pad)
    requires forall i :: 0 <= i < |ws| ==> SkillName(ws[i])
    ensures forall i :: 0 <= i < |ws| ==> NonBlank(Pieces(ws, pad)[i]) && Strip(Pieces(ws, pad)[i]) == ws[i]
  {
    var pieces := Pieces(ws, pad);
    forall i | 0 <= i < |ws|
      ensures Strip(pieces[i]) == ws[i]
    {
      var padi := if i == 0 then [] else pad;
      assert padi + ws[i] + [] == pieces[i];
      StripByPadded(padi, ws[i], [], IsSpace);
    }
  }

  /** An empty cell parses to no skills. */
  lemma EmptySkillsParsed()
    ensures ParseSkillsText("") == []
  {
    ParseOfStripped("");
    ParsePlainBranch("");
    NoBlankItems();
  }

  /** The plain form is stripped and split at its commas into the padded pieces. */
  lemma PlainSplit(ws: seq<string>, pad: string)
    requires |ws| >= 1 && AllSpace(pad)
    requires forall i :: 0 <= i < |ws| ==> SkillName(ws[i])
    ensures ParseSkillsText(Join(ws, [','] + pad)) == Map(Filter(Pieces(ws, pad), NonBlank), Strip)
  {
    var s := Join(ws, [','] + pad);
    PlainJoinShape(ws, pad);
    ParseOfStripped(s);
    ParsePlainBranch(s);
    SplitPadded(ws, pad);
  }

  /** Every padded piece is kept by the blank filter and strips to its name. */
  lemma PlainPiecesParsed(ws: seq<string>, pad: string)
    requires |ws| >= 1 && AllSpace(pad)
    requires forall i :: 0 <= i < |ws| ==> SkillName(ws[i])
    ensures Map(Filter(Pieces(ws, pad), NonBlank), Strip) == ws
  {
    PlainPiecesStrip(ws, pad);
    FilterMapPointwise(Pieces(ws, pad), NonBlank, Strip, ws);
  }

  /** Plain comma-separated text, with any whitespace after each comma, parses back to its skill names. */
  lemma PlainSkillsParsed(ws: seq<string>, pad: string)
    requires AllSpace(pad)
    requires forall i :: 0 <= i < |ws| ==> SkillName(ws[i])
    ensures ParseSkillsText(Join(ws, [','] + pad)) == ws
  {
    if ws == [] {
      EmptySkillsParsed();
    } else {
      PlainSplit(ws, pad);
      PlainPiecesParsed(ws, pad);
    }
  }

  /** Every item of the plain form is non-empty, trimmed and comma-free. */
  lemma PlainSkillsAreNames(x: string)
    requires !(StartsWith(Strip(x), "[") && EndsWith(Strip(x), "]"))
    ensures forall i :: 0 <= i < |ParseSkillsText(x)| ==>
      ParseSkillsText(x)[i] != "" && Stripped(ParseSkillsText(x)[i]) && ',' !in ParseSkillsText(x)[i]
  {
    var kept := Filter(Split(Strip(x), ','), NonBlank);
    ParsePlainBranch(Strip(x));
    forall i | 0 <= i < |kept|
      ensures Strip(kept[i]) != "" && Stripped(Strip(kept[i])) && ',' !in Strip(kept[i])
    {
      StripByEnds(kept[i], IsSpace);
      assert kept[i] in Split(Strip(x), ',');
      StripByKeepsOut(kept[i], ',', IsSpace);
    }
  }

  /** Stripping a quote character from both ends of a quoted skill name gives the name. */
  lemma UnquoteSingle(w: string)
    requires SkillName(w)
    ensures StripBy(StripBy(['\''] + w + ['\''], IsSingleQuote), IsDoubleQuote) == w
  {
    StripByTwicePadded(['\''], w, ['\''], IsSingleQuote, IsDoubleQuote);
  }

  lemma UnquoteDouble(w: string)
    requires SkillName(w)
    ensures StripBy(StripBy(['"'] + w + ['"'], IsSingleQuote), IsDoubleQuote) == w
  {
    var x := ['"'] + w + ['"'];
    assert x[0] == '"' && x[|x| - 1] == '"';
    StripByThenPadded(['"'], w, ['"'], IsSingleQuote, IsDoubleQuote);
  }

  /** Unquoting a padded, quoted skill name gives the name back, for either quote character. */
  lemma UnquotePadded(pad: string, q: char, w: string)
    requires AllSpace(pad) && IsQuote(q) && SkillName(w)
    ensures NonBlank(pad + ([q] + w + [q])) && Unquote(pad + ([q] + w + [q])) == w
  {
    var x := [q] + w + [q];
    assert x[0] == q && x[|x| - 1] == q;
    StripByPadded(pad, x, [], IsSpace);
    assert pad + x + [] == pad + x;
    if q == '\'' {
      UnquoteSingle(w);
    } else {
      UnquoteDouble(w);
    }
  }

  /** A bracketed cell is already stripped, so its items are the unquoted pieces between the brackets. */
  lemma BracketParse(inner: string)
    ensures ParseSkillsText("[" + inner + "]") == Map(Filter(Split(inner, ','), NonBlank), Unquote)
  {
    var s := "[" + inner + "]";
    assert s[0] == '[' && s[|s| - 1] == ']';
    ParseOfStripped(s);
    assert s[1..|s| - 1] == inner;
    EndsWithChar(s, '[');
    EndsWithChar(s, ']');
  }

  /** A quoted skill name holds no comma. */
  lemma QuotedNoComma(q: char, ws: seq<string>)
    requires IsQuote(q)
    requires forall i :: 0 <= i < |ws| ==> SkillName(ws[i])
    ensures forall i :: 0 <= i < |ws| ==> ',' !in Quoted(q, ws)[i]
  {
    forall i | 0 <= i < |ws|
      ensures ',' !in Quoted(q, ws)[i]
    {
      var w := ws[i];
      var x := [q] + w + [q];
      forall k | 0 <= k < |x|
        ensures x[k] != ','
      {
        if 0 < k < |x| - 1 {
          assert x[k] == w[k - 1];
        }
      }
    }
  }

  /** The list syntax is stripped, its brackets removed, and the inside split at its commas. */
  lemma BracketSplit(ws: seq<string>, pad: string, q: char)
    requires |ws| >= 1 && AllSpace(pad) && IsQuote(q)
    requires forall i :: 0 <= i < |ws| ==> SkillName(ws[i])
    ensures ParseSkillsText("[" + Join(Quoted(q, ws), [','] + pad) + "]")
      == Map(Filter(Pieces(Quoted(q, ws), pad), NonBlank), Unquote)
  {
    BracketParse(Join(Quoted(q, ws), [','] + pad));
    QuotedNoComma(q, ws);
    SplitPadded(Quoted(q, ws), pad);
  }

  /** Every padded quoted piece is kept by the blank filter and unquotes to its name. */
  lemma BracketPiecesParsed(ws: seq<string>, pad: string, q: char)
    requires |ws| >= 1 && AllSpace(pad) && IsQuote(q)
    requires forall i :: 0 <= i < |ws| ==> SkillName(ws[i])
    ensures Map(Filter(Pieces(Quoted(q, ws), pad), NonBlank), Unquote) == ws
  {
    var pieces := Pieces(Quoted(q, ws), pad);
    forall i | 0 <= i < |ws|
      ensures NonBlank(pieces[i]) && Unquote(pieces[i]) == ws[i]
    {
      var padi := if i == 0 then [] else pad;
      assert pieces[i] == padi + ([q] + ws[i] + [q]);
      UnquotePadded(padi, q, ws[i]);
    }
    FilterMapPointwise(pieces, NonBlank, Unquote, ws);
  }

  /** An empty list, `[]`, parses to no skills. */
  lemma EmptyBracketParsed()
    ensures ParseSkillsText("[" + "" + "]") == []
  {
    BracketParse("");
    NoBlankItems();
  }

  /** Splitting the empty string gives one blank item, which the filter drops. */
  lemma NoBlankItems()
    ensures Filter(Split("", ','), NonBlank) == []
  {
    assert Split("", ',') == [""];
    assert !NonBlank("") by {
      StripByFixed("", IsSpace);
    }
  }

  /** Python's list syntax, `[<q>a<q>,<pad><q>b<q>]` with either quote, parses back to its skill names. */
  lemma BracketSkillsParsed(ws: seq<string>, pad: string, q: char)
    requires AllSpace(pad) && IsQuote(q)
    requires forall i :: 0 <= i < |ws| ==> SkillName(ws[i])
    ensures ParseSkillsText("[" + Join(Quoted(q, ws), [','] + pad) + "]") == ws
  {
    if ws == [] {
      EmptyBracketParsed();
    } else {
      BracketSplit(ws, pad, q);
      BracketPiecesParsed(ws, pad, q);
    }
  }

  /** The three shapes a skills cell takes (a list, plain text, list syntax) all yield the same names. */
  lemma SkillsFormatAgnostic(ws: seq<string>, pad: string, q: char)
    requires AllSpace(pad) && IsQuote(q)
    requires forall i :: 0 <= i < |ws| ==> SkillName(ws[i])
    ensures ParseSkills(SkillsItems(ws)) == ws
    ensures ParseSkills(SkillsString(Join(ws, [','] + pad))) == ws
    ensures ParseSkills(SkillsString("[" + Join(Quoted(q, ws), [','] + pad) + "]")) == ws
  {
    PlainSkillsParsed(ws, pad);
    BracketSkillsParsed(ws, pad, q);
  }

  // ---------------------------------------------------------------------------------------
  // match_text and the blocklist

  /** Two non-empty stripped strings joined around anything give a non-empty stripped string. */
  lemma StrippedAround(a: string, m: string, b: string)
    requires a != [] && b != [] && Stripped(a) && Stripped(b)
    ensures a + m + b != [] && Stripped(a + m + b)
  {
    var s := a + m + b;
    assert s[0] == a[0] && s[|s| - 1] == b[|b| - 1];
  }

  /** The stripped `title + " " + description + " " + skills_text` keeps the title and description in front. */
  lemma MatchTextPrefix(ti: string, d: string, st: string)
    requires IsCleanText(ti) && IsCleanText(d)
    ensures StartsWith(Strip(ti + " " + d + " " + st), ti + " " + d)
  {
    var h := ti + " " + d;
    StrippedAround(ti, " ", d);
    assert h + " " + st == h + (" " + st);
    StripKeepsPrefix(h, " " + st);
  }

  /** With a trimmed skills text, stripping only removes the trailing space left by an empty one. */
  lemma MatchTextExact(ti: string, d: string, st: string)
    requires IsCleanText(ti) && IsCleanText(d) && Stripped(st)
    ensures Strip(ti + " " + d + " " + st) == ti + " " + d + (if st == "" then "" else " " + st)
  {
    var h := ti + " " + d;
    StrippedAround(ti, " ", d);
    if st == "" {
      assert [] + h + " " == h + " " + st;
      StripByPadded([], h, " ", IsSpace);
    } else {
      StrippedAround(h, " ", st);
      StripByFixed(h + " " + st, IsSpace);
    }
  }

  /**
   * `match_text` starts with the title, a space and the description; when the skills text is
   * itself trimmed it is exactly those, followed by a space and the skills text if there is any.
   */
  lemma MatchTextShape(columns: set<Column>, y: Project)
    requires WellCleaned(columns, y)
    ensures StartsWith(y.match_text.value, y.title.value + " " + y.description.value)
    ensures Stripped(y.skills_text.value) ==> (y.match_text.value ==
      y.title.value + " " + y.description.value + (if y.skills_text.value == "" then "" else " " + y.skills_text.value))
  {
    var ti, d, st := y.title.value, y.description.value, y.skills_text.value;
    MatchTextPrefix(ti, d, st);
    if Stripped(st) {
      MatchTextExact(ti, d, st);
    }
  }

  /** A description containing a blocked phrase in any mix of ASCII case counts as blocked. */
  lemma BlockedPhraseDetected(a: string, p: string, b: string, i: int)
    requires 0 <= i < |BlockedPhrases| && Lower(p) == Lower(BlockedPhrases[i])
    ensures IsBlocked(a + p + b)
  {
    LowerConcat(a + p, b);
    LowerConcat(a, p);
    ContainsMiddle(Lower(a), Lower(p), Lower(b));
  }
}
