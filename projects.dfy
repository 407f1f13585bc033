/**
 * The project record that flows through the pipeline: the scraper produces it,
 * the cleaner normalises it and the matcher ranks it. A table is the set of
 * columns the data frame has plus its rows; a missing cell, which pandas reads
 * back from CSV as NaN, is `None`.
 */
module Projects {
  import opened Wrappers

  datatype Column =
    | Platform | Category | Title | Description | Skills | Budget | TimeLeft
    | BidsCount | Url | ScrapedAt | SkillsText | MatchText

  /** The `skills` cell: NaN, a string (as read back from CSV) or a list of skill names. */
  datatype SkillsCell = NoSkills | SkillsString(text: string) | SkillsItems(items: seq<string>)

  datatype Project = Project(
    platform: Option<string>,
    category: Option<string>,
    title: Option<string>,
    description: Option<string>,
    skills: SkillsCell,
    budget: Option<string>,
    time_left: Option<string>,
    bids_count: Option<int>,
    url: Option<string>,
    scraped_at: Option<string>,
    skills_text: Option<string>,
    match_text: Option<string>)

  /** A data frame: which columns exist, and the rows in order. */
  datatype Table = Table(columns: set<Column>, rows: seq<Project>)

  /**
   * `astype(str)` on a text cell: NaN becomes the string "nan". (An object cell
   * holding a Python `None` would become "None"; the frames here come from CSV,
   * where a missing value is always NaN.)
   */
  function AsStr(v: Option<string>): string {
    match v
    case Some(s) => s
    case None => "nan"
  }

  function UrlOf(p: Project): Option<string> {
    p.url
  }
}
