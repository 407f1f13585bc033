/**
 * Reading the CV: the text of a PDF or DOCX file, chosen by the file's suffix, with
 * blank pages or paragraphs skipped, the rest joined by newlines and the whitespace
 * normalised. The document libraries are abstracted away: a file is what they read
 * from it (the text of each PDF page, the text of each DOCX paragraph), and the
 * file system is a map from path to file.
 */
module CvText {
  import opened Wrappers
  import opened Text
  import opened Seqs

  datatype CvError =
    | FileNotFound(path: string)   // `FileNotFoundError`
    | UnsupportedFormat            // `ValueError` for a suffix other than .pdf and .docx

  /** What pdfplumber reports for each page (`None` when `extract_text` gives nothing) and python-docx for each paragraph. */
  datatype CvFile = CvFile(pages: seq<Option<string>>, paragraphs: seq<string>)

  // ---------------------------------------------------------------------------------------
  // text cleaning

  /** `_clean_text`: whitespace runs become one space and the ends are trimmed. */
  function CleanText(text: string): (r: string)
    ensures Normalized(r) && Stripped(r)
    ensures Words(r) == Words(text)
    ensures r == "" <==> AllSpace(text)
  {
    NormalizeIsNormalized(text);
    NormalizeKeepsWords(text);
    NormalizeEmpty(text);
    Normalize(text)
  }

  /** The cleaned text is exactly the words of the input, separated by single spaces. */
  lemma CleanTextIsWords(text: string)
    ensures CleanText(text) == Join(Words(text), " ")
  {
    NormalizeIsJoinedWords(text);
  }

  lemma CleanTextIdempotent(text: string)
    ensures CleanText(CleanText(text)) == CleanText(text)
  {
    NormalizeIdempotent(text);
  }

  /** `build_profile_text`: the cleaned CV text. */
  function BuildProfileText(cvText: string): (r: string)
    ensures Normalized(r) && Stripped(r)
    ensures Words(r) == Words(cvText)
  {
    CleanText(cvText)
  }

  /** Building the profile from a profile changes nothing. */
  lemma BuildProfileTextIdempotent(cvText: string)
    ensures BuildProfileText(BuildProfileText(cvText)) == BuildProfileText(cvText)
  {
    CleanTextIdempotent(cvText);
  }

  // ---------------------------------------------------------------------------------------
  // the suffix of a path (`pathlib.PurePosixPath.suffix`)

  /** The position of the last `c` in `s`, or -1. */
  function LastIndexOf(s: string, c: char): (i: int)
    ensures -1 <= i < |s|
    ensures i >= 0 ==> s[i] == c
    ensures forall k :: i < k < |s| ==> s[k] != c
  {
    if s == [] then -1
    else if s[|s| - 1] == c then |s| - 1
    else LastIndexOf(s[..|s| - 1], c)
  }

  /** A path component that names something: not empty (doubled or trailing slash) and not `.`. */
  predicate IsComponent(part: string) {
    part != "" && part != "."
  }

  /** `Path(path).name`: the last component. */
  function FileName(path: string): (r: string)
    ensures '/' !in r
  {
    var parts := Filter(Split(path, '/'), IsComponent);
    if parts == [] then "" else parts[|parts| - 1]
  }

  /** `Path(path).suffix`: from the last dot of the name, when that dot is neither its first nor its last character. */
  function Suffix(path: string): (r: string)
    ensures r == "" || (|r| >= 2 && r[0] == '.' && '.' !in r[1..] && '/' !in r)
  {
    var name := FileName(path);
    var i := LastIndexOf(name, '.');
    if 0 < i < |name| - 1 then
      assert forall k :: 0 <= k < |name| - i - 1 ==> name[i..][1..][k] == name[i + 1 + k];
      name[i..]
    else ""
  }

  /** Splitting text with a separator in it splits the two sides separately. */
  lemma SplitAround(s: string, sep: char, t: string)
    ensures Split(s + [sep] + t, sep) == Split(s, sep) + Split(t, sep)
  {
    var xs, ys := Split(s, sep), Split(t, sep);
    JoinSplit(s, sep);
    JoinSplit(t, sep);
    JoinAppend(xs, ys, [sep]);
    assert forall i :: 0 <= i < |xs + ys| ==> sep !in (xs + ys)[i];
    SplitJoin(xs + ys, sep);
  }

  /** The name is the last component, whatever directories come before it. */
  lemma FileNameInDirectory(dir: string, name: string)
    requires '/' !in name && IsComponent(name)
    ensures FileName(dir + "/" + name) == name
  {
    SplitAround(dir, '/', name);
    assert Split(name, '/') == [name];
    FilterSnoc(Split(dir, '/'), name, IsComponent);
  }

  /** The suffix of `<stem>.<ext>` is `.<ext>`, with or without directories before it. */
  lemma SuffixOfName(dir: string, stem: string, ext: string)
    requires stem != [] && '/' !in stem
    requires ext != [] && '/' !in ext && '.' !in ext
    ensures Suffix(stem + "." + ext) == "." + ext
    ensures Suffix(dir + "/" + stem + "." + ext) == "." + ext
  {
    var name := stem + "." + ext;
    assert '/' !in name by {
      assert forall k :: 0 <= k < |name| ==> name[k] == (if k < |stem| then stem[k] else if k == |stem| then '.' else ext[k - |stem| - 1]);
    }
    assert IsComponent(name) by {
      assert |name| >= 3;
    }
    assert Split(name, '/') == [name];
    assert Filter([name], IsComponent) == [name];
    assert FileName(name) == name;
    assert LastIndexOf(name, '.') == |stem| by {
      assert name[..|stem| + 1] == stem + ".";
      LastIndexAfter(stem + ".", ext, '.');
    }
    assert name[|stem|..] == "." + ext;
    assert dir + "/" + stem + "." + ext == dir + "/" + name;
    FileNameInDirectory(dir, name);
  }

  /** When `c` is the last character of `s` and does not occur in `t`, the last `c` of `s + t` is that one. */
  lemma {:induction false} LastIndexAfter(s: string, t: string, c: char)
    requires s != [] && s[|s| - 1] == c && c !in t
    ensures LastIndexOf(s + t, c) == |s| - 1
    decreases |t|
  {
    if t == [] {
      assert s + t == s;
    } else {
      var w := s + t;
      assert w[|w| - 1] == t[|t| - 1];
      assert w[..|w| - 1] == s + t[..|t| - 1];
      LastIndexAfter(s, t[..|t| - 1], c);
    }
  }

  // ---------------------------------------------------------------------------------------
  // extraction

  /** `t.strip()` is truthy: the text is not all whitespace. */
  predicate NonBlank(t: string) {
    !AllSpace(t)
  }

  /** `page.extract_text() or ""`. */
  function PageText(page: Option<string>): string {
    page.GetOr("")
  }

  /** The `parts` the page loop collects: the non-blank page texts, in page order. */
  function PdfParts(pages: seq<Option<string>>): seq<string> {
    if pages == [] then []
    else
      var t := PageText(pages[|pages| - 1]);
      PdfParts(pages[..|pages| - 1]) + (if NonBlank(t) then [t] else [])
  }

  /** What `extract_text_from_pdf` returns for a file with these pages. */
  function PdfText(pages: seq<Option<string>>): string {
    CleanText(Join(PdfParts(pages), "\n"))
  }

  /** The page loop keeps the pages whose text is not blank, reading a page without text as "". */
  lemma {:induction false} PdfPartsAreNonBlankPages(pages: seq<Option<string>>)
    ensures PdfParts(pages) == Filter(Map(pages, PageText), NonBlank)
  {
    if pages != [] {
      var init := pages[..|pages| - 1];
      var last := pages[|pages| - 1];
      assert pages == init + [last];
      PdfPartsAreNonBlankPages(init);
      MapSnoc(init, last, PageText);
      FilterSnoc(Map(init, PageText), PageText(last), NonBlank);
    }
  }

  /** Blank pieces have no words, so dropping them loses none. */
  lemma {:induction false} FlatWordsSkipsBlank(parts: seq<string>)
    ensures FlatWords(Filter(parts, NonBlank)) == FlatWords(parts)
  {
    if parts != [] {
      var rest := Filter(parts[1..], NonBlank);
      FlatWordsSkipsBlank(parts[1..]);
      assert FlatWords(parts) == Words(parts[0]) + FlatWords(parts[1..]);
      if NonBlank(parts[0]) {
        assert Filter(parts, NonBlank) == [parts[0]] + rest;
        FlatWordsCons(parts[0], rest);
      } else {
        assert Filter(parts, NonBlank) == rest;
        AllSpaceNoWords(parts[0]);
      }
    }
  }

  lemma FlatWordsCons(w: string, rest: seq<string>)
    ensures FlatWords([w] + rest) == Words(w) + FlatWords(rest)
  {
    assert ([w] + rest)[1..] == rest;
  }

  /** Pieces joined by a whitespace separator and cleaned are the words of all the pieces, in order, single-spaced. */
  lemma JoinedTextIsWords(parts: seq<string>)
    ensures CleanText(Join(Filter(parts, NonBlank), "\n")) == Join(FlatWords(parts), " ")
  {
    CleanTextIsWords(Join(Filter(parts, NonBlank), "\n"));
    WordsOfJoinBySpace(Filter(parts, NonBlank), '\n');
    FlatWordsSkipsBlank(parts);
  }

  /** The text of a PDF is the words of all its pages, in page order, separated by single spaces. */
  lemma PdfTextIsAllWords(pages: seq<Option<string>>)
    ensures PdfText(pages) == Join(FlatWords(Map(pages, PageText)), " ")
  {
    PdfPartsAreNonBlankPages(pages);
    JoinedTextIsWords(Map(pages, PageText));
  }

  /** `extract_text_from_pdf`: a missing file fails before any parsing; otherwise the pages are read in order. */
  method ExtractTextFromPdf(path: string, files: map<string, CvFile>) returns (r: Result<string, CvError>)
    ensures path !in files ==> r == Failure(FileNotFound(path))
    ensures path in files ==> r == Success(PdfText(files[path].pages))
  {
    if path !in files {
      return Failure(FileNotFound(path));
    }
    var pages := files[path].pages;
    var parts: seq<string> := [];
    for i := 0 to |pages|
      invariant parts == PdfParts(pages[..i])
    {
      var t := if pages[i].Some? then pages[i].value else "";
      if !AllSpace(t) {
        parts := parts + [t];
      }
      assert pages[..i + 1][..i] == pages[..i];
    }
    assert pages[..|pages|] == pages;
    return Success(CleanText(Join(parts, "\n")));
  }

  /** `para.text and para.text.strip()`. */
  predicate KeptParagraph(text: string) {
    text != "" && NonBlank(text)
  }

  /** `extract_text_from_docx`: a missing file fails; otherwise the text is the words of all its paragraphs, in order. */
  function ExtractTextFromDocx(path: string, files: map<string, CvFile>): (r: Result<string, CvError>)
    ensures path !in files ==> r == Failure(FileNotFound(path))
    ensures path in files ==> r == Success(Join(FlatWords(files[path].paragraphs), " "))
  {
    if path !in files then Failure(FileNotFound(path))
    else
      var paragraphs := files[path].paragraphs;
      assert Filter(paragraphs, KeptParagraph) == Filter(paragraphs, NonBlank) by {
        FilterSame(paragraphs, KeptParagraph, NonBlank);
      }
      JoinedTextIsWords(paragraphs);
      Success(CleanText(Join(Filter(paragraphs, KeptParagraph), "\n")))
  }

  /** `extract_cv_text`: dispatch on the lower-cased suffix; any other suffix fails whether or not the file exists. */
  method ExtractCvText(path: string, files: map<string, CvFile>) returns (r: Result<string, CvError>)
    ensures Lower(Suffix(path)) == ".pdf" ==>
      r == if path in files then Success(PdfText(files[path].pages)) else Failure(FileNotFound(path))
    ensures Lower(Suffix(path)) == ".docx" ==> r == ExtractTextFromDocx(path, files)
    ensures Lower(Suffix(path)) != ".pdf" && Lower(Suffix(path)) != ".docx" ==> r == Failure(UnsupportedFormat)
  {
    var ext := Lower(Suffix(path));
    if ext == ".pdf" {
      r := ExtractTextFromPdf(path, files);
      return;
    }
    if ext == ".docx" {
      return ExtractTextFromDocx(path, files);
    }
    return Failure(UnsupportedFormat);
  }
}
