/**
 * The Freelancer.com scraper with the browser abstracted away: a card answers CSS
 * selector lookups with the elements it holds, a page is what a browser shows after
 * loading a URL, and a `Driver` keeps the pages it was asked for and whether it is
 * still open. Modelled: the text cleaner, the safe lookups, per-field extraction from
 * a card with its primary/fallback selectors, the budget and bids parsers, the page
 * loop of one category, the category URL, and the URL de-duplication of the whole run.
 */
module FreelancerScraper {
  import opened Wrappers
  import opened Text
  import opened Seqs
  import opened Projects

  const BaseUrl: string := "https://www.freelancer.com"
  const Platform: string := "Freelancer.com"

  const TitleSelector: string := "a.JobSearchCard-primary-heading-link"
  const TitleFallbackSelector: string := "a[href*='/projects/']"
  const DescriptionSelector: string := "p.JobSearchCard-primary-description"
  const DescriptionFallbackSelector: string := ".ProjectSearchCard-secondary-heading"
  const TagsSelector: string := "div.JobSearchCard-primary-tags a.JobSearchCard-primary-tagsLink"
  const TagsFallbackSelector: string := "a[class*='tagsLink']"
  const PriceSelector: string := "div.JobSearchCard-primary-price"
  const DaysSelector: string := "span.JobSearchCard-primary-heading-days"
  const BidsSelector: string := "div.JobSearchCard-secondary-entry"
  const CardSelector: string := "div.JobSearchCard-item"
  const ContainerSelector: string := "div:has(a[href*='/projects/'])"

  // ---------------------------------------------------------------------------------------
  // text cleaning

  /** `_clean_text`: `None` stays `None`; otherwise whitespace runs become one space, the ends are trimmed, and an empty result is `None`. */
  function CleanText(s: Option<string>): (r: Option<string>)
    ensures s.None? ==> r.None?
    ensures s.Some? ==> (r.None? <==> AllSpace(s.value))
    ensures r.Some? ==> r.value != "" && Normalized(r.value) && Stripped(r.value)
    ensures r.Some? ==> Words(r.value) == Words(s.value)
  {
    match s
    case None => None
    case Some(x) =>
      NormalizeEmpty(x);
      NormalizeIsNormalized(x);
      NormalizeKeepsWords(x);
      var n := Normalize(x);
      if n == "" then None else Some(n)
  }

  /** Cleaning already cleaned text changes nothing. */
  lemma CleanTextIdempotent(s: Option<string>)
    ensures CleanText(CleanText(s)) == CleanText(s)
  {
    if CleanText(s).Some? {
      NormalizeIdempotent(s.value);
    }
  }

  // ---------------------------------------------------------------------------------------
  // the card: an oracle for selector lookups

  /** An element found on a card: its visible text and its attributes. */
  datatype Element = Element(text: string, attributes: map<string, string>)

  /** For each selector the card is asked about, the elements matching it in document order; an absent selector matches nothing. */
  datatype Card = Card(matches: map<string, seq<Element>>)

  /** `find_element`: the first match, or `None` where Selenium raises `NoSuchElementException`. */
  function FindElement(card: Card, selector: string): (r: Option<Element>)
    ensures r.Some? <==> FindElements(card, selector) != []
    ensures r.Some? ==> r.value == FindElements(card, selector)[0]
  {
    if selector in card.matches && card.matches[selector] != [] then Some(card.matches[selector][0]) else None
  }

  /** `safe_find_elements`: every match, or none when the lookup fails. */
  function FindElements(card: Card, selector: string): seq<Element> {
    if selector in card.matches then card.matches[selector] else []
  }

  /** `get_attribute`: `None` when the element has no such attribute. */
  function Attribute(e: Element, name: string): Option<string> {
    if name in e.attributes then Some(e.attributes[name]) else None
  }

  /** `safe_find_element_text`: the cleaned text of the first match, or `default` when there is none or it cleans to nothing. */
  function SafeFindElementText(card: Card, selector: string, default: Option<string>): (r: Option<string>)
    ensures FindElement(card, selector).None? ==> r == default
    ensures FindElement(card, selector).Some? ==>
      r == (var t := CleanText(Some(FindElement(card, selector).value.text)); if t.Some? then t else default)
    ensures r != default ==> r.Some? && r.value != "" && Normalized(r.value) && Stripped(r.value)
    ensures default.None? ==>
      (r.None? <==> FindElement(card, selector).None? || AllSpace(FindElement(card, selector).value.text))
  {
    match FindElement(card, selector)
    case None => default
    case Some(e) =>
      var t := CleanText(Some(e.text));
      if t.Some? then t else default
  }

  // ---------------------------------------------------------------------------------------
  // the budget: `re.search(r"(\$|€|£)\s?\d[\d,]*(?:\s?-\s?\d[\d,]*)?", raw)`

  predicate IsCurrency(c: char) {
    c == '$' || c == '€' || c == '£'
  }

  /** `[\d,]`. */
  predicate IsAmountChar(c: char) {
    IsDigit(c) || c == ','
  }

  /** Where `[\d,]*` starting at `i` stops. */
  function AmountRunEnd(s: string, i: nat): (e: nat)
    requires i <= |s|
    ensures i <= e <= |s|
    ensures forall k :: i <= k < e ==> IsAmountChar(s[k])
    ensures e < |s| ==> !IsAmountChar(s[e])
    decreases |s| - i
  {
    if i < |s| && IsAmountChar(s[i]) then AmountRunEnd(s, i + 1) else i
  }

  /** `\s?` at `i`. If it takes a space and the next item then fails, backing off cannot help: that item never matches a space. */
  function SkipOptSpace(s: string, i: nat): (j: nat)
    requires i <= |s|
    ensures i <= j <= |s|
  {
    if i < |s| && IsSpace(s[i]) then i + 1 else i
  }

  /** `\d[\d,]*` at `i`: where it ends, if it matches there. */
  function AmountAt(s: string, i: nat): (r: Option<nat>)
    requires i <= |s|
    ensures r.Some? <==> i < |s| && IsDigit(s[i])
    ensures r.Some? ==> i < r.value <= |s| && (r.value == |s| || !IsAmountChar(s[r.value]))
    ensures r.Some? ==> forall k :: i <= k < r.value ==> IsAmountChar(s[k])
  {
    if i < |s| && IsDigit(s[i]) then Some(AmountRunEnd(s, i + 1)) else None
  }

  /** Where a match of the budget pattern starting at `i` ends, if one starts there; the optional range is taken whenever it matches. */
  function MoneyAt(s: string, i: nat): (r: Option<nat>)
    requires i <= |s|
    ensures r.Some? ==> i < |s| && IsCurrency(s[i]) && i + 2 <= r.value <= |s|
    ensures r.Some? ==> IsAmountChar(s[r.value - 1]) && (r.value == |s| || !IsAmountChar(s[r.value]))
    ensures i < |s| && IsCurrency(s[i]) && AmountAt(s, SkipOptSpace(s, i + 1)).Some? ==> r.Some?
  {
    if i < |s| && IsCurrency(s[i]) then
      match AmountAt(s, SkipOptSpace(s, i + 1))
      case None => None
      case Some(k) =>
        var a := SkipOptSpace(s, k);
        if a < |s| && s[a] == '-' then
          match AmountAt(s, SkipOptSpace(s, a + 1))
          case Some(e) => Some(e)
          case None => Some(k)
        else Some(k)
    else None
  }

  /** The leftmost match at or after `i`. */
  function MoneySearchFrom(s: string, i: nat): Option<string>
    requires i <= |s|
    decreases |s| - i
  {
    match MoneyAt(s, i)
    case Some(e) => Some(s[i..e])
    case None => if i == |s| then None else MoneySearchFrom(s, i + 1)
  }

  /** A search result is a match at some position at or after `i`. */
  lemma {:induction false} MoneySearchFromFound(s: string, i: nat)
    requires i <= |s|
    ensures var r := MoneySearchFrom(s, i);
      r.Some? ==> exists j :: i <= j < |s| && MoneyAt(s, j).Some? && r.value == s[j..MoneyAt(s, j).value]
    decreases |s| - i
  {
    if MoneyAt(s, i).Some? {
      MoneySearchHere(s, i);
    } else if i < |s| {
      MoneySearchFromFound(s, i + 1);
      MoneySearchSkip(s, i);
    }
  }

  /** No search result means no position at or after `i` starts a match. */
  lemma {:induction false} MoneySearchFromNone(s: string, i: nat)
    requires i <= |s| && MoneySearchFrom(s, i).None?
    ensures forall j :: i <= j <= |s| ==> MoneyAt(s, j).None?
    decreases |s| - i
  {
    if MoneyAt(s, i).Some? {
      MoneySearchHere(s, i);
    } else if i < |s| {
      MoneySearchSkip(s, i);
      MoneySearchFromNone(s, i + 1);
    }
  }

  function MoneySearch(s: string): (r: Option<string>)
    ensures r.Some? ==> |r.value| >= 2 && IsCurrency(r.value[0]) && IsAmountChar(r.value[|r.value| - 1])
  {
    MoneySearchFromFound(s, 0);
    MoneySearchFrom(s, 0)
  }

  lemma {:induction false} AmountRunEndAt(s: string, i: nat, e: nat)
    requires i <= e <= |s|
    requires forall k :: i <= k < e ==> IsAmountChar(s[k])
    requires e == |s| || !IsAmountChar(s[e])
    ensures AmountRunEnd(s, i) == e
    decreases e - i
  {
    if i < e {
      AmountRunEndAt(s, i + 1, e);
    }
  }

  /** The search returns the match at the first position where one starts. */
  lemma {:induction false} MoneySearchLeftmost(s: string, i: nat, p: nat)
    requires i <= p < |s|
    requires forall j :: i <= j < p ==> MoneyAt(s, j).None?
    requires MoneyAt(s, p).Some?
    ensures MoneySearchFrom(s, i) == Some(s[p..MoneyAt(s, p).value])
    decreases p - i
  {
    if i < p {
      MoneySearchSkip(s, i);
      MoneySearchLeftmost(s, i + 1, p);
    } else {
      MoneySearchHere(s, p);
    }
  }

  /** No match starts at `i`: the search goes on at the next position. */
  lemma MoneySearchSkip(s: string, i: nat)
    requires i < |s| && MoneyAt(s, i).None?
    ensures MoneySearchFrom(s, i) == MoneySearchFrom(s, i + 1)
  {
  }

  /** A match starts at `i`: the search returns it. */
  lemma MoneySearchHere(s: string, i: nat)
    requires i <= |s| && MoneyAt(s, i).Some?
    ensures MoneySearchFrom(s, i) == Some(s[i..MoneyAt(s, i).value])
  {
  }

  /** `\s?-\s?\d` starts at `e`: the optional range of the pattern can match there. */
  predicate RangeAt(s: string, e: nat)
    requires e <= |s|
  {
    var d := SkipOptSpace(s, e);
    d < |s| && s[d] == '-' && (var f := SkipOptSpace(s, d + 1); f < |s| && IsDigit(s[f]))
  }

  /** Whether a range follows depends only on what comes after `e`. */
  lemma RangeAtShift(a: string, b: string)
    ensures RangeAt(a + b, |a|) == RangeAt(b, 0)
  {
    var s := a + b;
    assert forall j :: 0 <= j < |b| ==> s[|a| + j] == b[j];
    var d := SkipOptSpace(b, 0);
    assert SkipOptSpace(s, |a|) == |a| + d;
    if d < |b| {
      assert SkipOptSpace(s, |a| + d + 1) == |a| + SkipOptSpace(b, d + 1);
    }
  }

  /** A match that stops after its first amount: `<sign>\s?<amount>` with no range after it. */
  lemma MoneyAtSingle(s: string, p: nat, q: nat, e: nat)
    requires p < q < e <= |s|
    requires IsCurrency(s[p]) && (q == p + 1 || (q == p + 2 && IsSpace(s[p + 1])))
    requires IsDigit(s[q]) && forall k :: q <= k < e ==> IsAmountChar(s[k])
    requires e == |s| || !IsAmountChar(s[e])
    requires !RangeAt(s, e)
    ensures MoneyAt(s, p) == Some(e)
  {
    assert SkipOptSpace(s, p + 1) == q;
    AmountRunEndAt(s, q + 1, e);
    assert AmountAt(s, q) == Some(e);
  }

  /** A match that takes the range: `<sign>\s?<low>\s?-\s?<high>`, the dash at `d`, the high amount from `f` to `e`. */
  lemma MoneyAtRange(s: string, p: nat, q: nat, k: nat, d: nat, f: nat, e: nat)
    requires p < q < k <= d < f < e <= |s|
    requires IsCurrency(s[p]) && (q == p + 1 || (q == p + 2 && IsSpace(s[p + 1])))
    requires IsDigit(s[q]) && forall j :: q <= j < k ==> IsAmountChar(s[j])
    requires (d == k || (d == k + 1 && IsSpace(s[k]))) && s[d] == '-'
    requires f == d + 1 || (f == d + 2 && IsSpace(s[d + 1]))
    requires IsDigit(s[f]) && forall j :: f <= j < e ==> IsAmountChar(s[j])
    requires e == |s| || !IsAmountChar(s[e])
    ensures MoneyAt(s, p) == Some(e)
  {
    assert SkipOptSpace(s, p + 1) == q;
    AmountRunEndAt(s, q + 1, k);
    assert AmountAt(s, q) == Some(k);
    assert SkipOptSpace(s, k) == d;
    assert SkipOptSpace(s, d + 1) == f;
    AmountRunEndAt(s, f + 1, e);
    assert AmountAt(s, f) == Some(e);
  }

  /** No match starts where there is no currency sign. */
  lemma NoMoneyBefore(s: string, p: nat)
    requires p <= |s|
    requires forall j :: 0 <= j < p ==> !IsCurrency(s[j])
    ensures forall j :: 0 <= j < p ==> MoneyAt(s, j).None?
  {
  }

  /** A match of exactly `m` right after a prefix without currency signs is what the search returns. */
  lemma MoneyFound(pre: string, m: string, post: string)
    requires forall k :: 0 <= k < |pre| ==> !IsCurrency(pre[k])
    requires m != [] && MoneyAt(pre + m + post, |pre|) == Some(|pre| + |m|)
    ensures MoneySearch(pre + m + post) == Some(m)
  {
    var s := pre + m + post;
    assert forall j :: 0 <= j < |pre| ==> s[j] == pre[j];
    NoMoneyBefore(s, |pre|);
    MoneySearchLeftmost(s, 0, |pre|);
    MiddleSlice(pre, m, post);
  }

  /**
   * A currency sign, an optional space and one amount (`m[q..]`), with no currency sign
   * before it and nothing after it that extends the match (a further amount character, or
   * a range `\s?-\s?<digit>`), is what the search finds: `"$50 USD"` gives `"$50"`.
   */
  lemma MoneySingle(pre: string, m: string, q: nat, post: string)
    requires forall k :: 0 <= k < |pre| ==> !IsCurrency(pre[k])
    requires 1 <= q < |m| && IsCurrency(m[0]) && (q == 1 || (q == 2 && IsSpace(m[1])))
    requires IsDigit(m[q]) && forall k :: q <= k < |m| ==> IsAmountChar(m[k])
    requires post == [] || (!IsAmountChar(post[0]) && !RangeAt(post, 0))
    ensures MoneySearch(pre + m + post) == Some(m)
  {
    MoneySingleAt(pre, m, q, post);
    MoneyFound(pre, m, post);
  }

  /** The match of the single amount starts right after `pre` and ends with it. */
  lemma MoneySingleAt(pre: string, m: string, q: nat, post: string)
    requires forall k :: 0 <= k < |pre| ==> !IsCurrency(pre[k])
    requires 1 <= q < |m| && IsCurrency(m[0]) && (q == 1 || (q == 2 && IsSpace(m[1])))
    requires IsDigit(m[q]) && forall k :: q <= k < |m| ==> IsAmountChar(m[k])
    requires post == [] || (!IsAmountChar(post[0]) && !RangeAt(post, 0))
    ensures |m| > 0 && MoneyAt(pre + m + post, |pre|) == Some(|pre| + |m|)
  {
    var s := pre + m + post;
    var p := |pre|;
    var e := p + |m|;
    assert MoneyAt(s, p) == Some(e) by {
      MiddleIndex(pre, m, post);
      forall x | p + q <= x < e
        ensures IsAmountChar(s[x])
      {
        assert s[p + (x - p)] == m[x - p];
      }
      assert s[p + 0] == m[0] && s[p + q] == m[q];
      assert q == 2 ==> s[p + 1] == m[1];
      assert e == |s| || (s[e] == post[0] && !IsAmountChar(s[e]));
      RangeAtShift(pre + m, post);
      MoneyAtSingle(s, p, p + q, e);
    }
  }

  /**
   * A range `<sign>\s?<low>\s?-\s?<high>` is found whole: the low amount is `m[q..k]`,
   * the dash `m[d]` and the high amount `m[f..]`.
   */
  lemma MoneyRange(pre: string, m: string, q: nat, k: nat, d: nat, f: nat, post: string)
    requires forall j :: 0 <= j < |pre| ==> !IsCurrency(pre[j])
    requires 1 <= q < k <= d < f < |m|
    requires IsCurrency(m[0]) && (q == 1 || (q == 2 && IsSpace(m[1])))
    requires IsDigit(m[q]) && forall j :: q <= j < k ==> IsAmountChar(m[j])
    requires (d == k || (d == k + 1 && IsSpace(m[k]))) && m[d] == '-'
    requires f == d + 1 || (f == d + 2 && IsSpace(m[d + 1]))
    requires IsDigit(m[f]) && forall j :: f <= j < |m| ==> IsAmountChar(m[j])
    requires post == [] || !IsAmountChar(post[0])
    ensures MoneySearch(pre + m + post) == Some(m)
  {
    MoneyRangeAt(pre, m, q, k, d, f, post);
    MoneyFound(pre, m, post);
  }

  /** The match of the range starts right after `pre` and ends with it. */
  lemma MoneyRangeAt(pre: string, m: string, q: nat, k: nat, d: nat, f: nat, post: string)
    requires forall j :: 0 <= j < |pre| ==> !IsCurrency(pre[j])
    requires 1 <= q < k <= d < f < |m|
    requires IsCurrency(m[0]) && (q == 1 || (q == 2 && IsSpace(m[1])))
    requires IsDigit(m[q]) && forall j :: q <= j < k ==> IsAmountChar(m[j])
    requires (d == k || (d == k + 1 && IsSpace(m[k]))) && m[d] == '-'
    requires f == d + 1 || (f == d + 2 && IsSpace(m[d + 1]))
    requires IsDigit(m[f]) && forall j :: f <= j < |m| ==> IsAmountChar(m[j])
    requires post == [] || !IsAmountChar(post[0])
    ensures |m| > 0 && MoneyAt(pre + m + post, |pre|) == Some(|pre| + |m|)
  {
    var s := pre + m + post;
    var p := |pre|;
    var e := p + |m|;
    assert MoneyAt(s, p) == Some(e) by {
      MiddleIndex(pre, m, post);
      assert s[p + 0] == m[0] && s[p + q] == m[q] && s[p + d] == m[d] && s[p + f] == m[f];
      assert q == 2 ==> s[p + 1] == m[1];
      assert d == k + 1 ==> s[p + k] == m[k];
      assert f == d + 2 ==> s[p + d + 1] == m[d + 1];
      assert e == |s| || (s[e] == post[0] && !IsAmountChar(s[e]));
      forall x | p + q <= x < p + k
        ensures IsAmountChar(s[x])
      {
        assert s[p + (x - p)] == m[x - p];
      }
      forall x | p + f <= x < e
        ensures IsAmountChar(s[x])
      {
        assert s[p + (x - p)] == m[x - p];
      }
      MoneyAtRange(s, p, p + q, p + k, p + d, p + f, e);
    }
  }

  /** The trimmed `textContent` of the price element (empty when it has none). */
  function PriceText(card: Card): string {
    match FindElement(card, PriceSelector)
    case None => ""
    case Some(e) => Strip(Attribute(e, "textContent").GetOr(""))
  }

  /** The budget: no price element gives `None`; otherwise the first amount in its trimmed text, or that text cleaned. */
  function Budget(card: Card): (r: Option<string>)
    ensures FindElement(card, PriceSelector).None? ==> r.None?
    ensures r.Some? ==> r == MoneySearch(PriceText(card)) || r == CleanText(Some(PriceText(card)))
    ensures FindElement(card, PriceSelector).Some? && MoneySearch(PriceText(card)).Some? ==> r == MoneySearch(PriceText(card))
    ensures r.None? <==> FindElement(card, PriceSelector).None? || (MoneySearch(PriceText(card)).None? && AllSpace(PriceText(card)))
  {
    match FindElement(card, PriceSelector)
    case None => None
    case Some(e) =>
      var raw := PriceText(card);
      match MoneySearch(raw)
      case Some(m) => Some(m)
      case None => CleanText(Some(raw))
  }

  // ---------------------------------------------------------------------------------------
  // the bids count: `int(re.search(r"\d+", raw).group(0))`

  /** Where the run of digits starting at `i` stops. */
  function DigitRunEnd(s: string, i: nat): (e: nat)
    requires i <= |s|
    ensures i <= e <= |s|
    ensures forall k :: i <= k < e ==> IsDigit(s[k])
    ensures e < |s| ==> !IsDigit(s[e])
    decreases |s| - i
  {
    if i < |s| && IsDigit(s[i]) then DigitRunEnd(s, i + 1) else i
  }

  /** The first maximal run of digits at or after `i`. */
  function FirstDigitsFrom(s: string, i: nat): (r: Option<string>)
    requires i <= |s|
    ensures r.None? <==> forall k :: i <= k < |s| ==> !IsDigit(s[k])
    ensures r.Some? ==> exists j :: (
      && i <= j < |s| && IsDigit(s[j])
      && (forall k :: i <= k < j ==> !IsDigit(s[k]))
      && r.value == s[j..DigitRunEnd(s, j)])
    decreases |s| - i
  {
    if i == |s| then None
    else if IsDigit(s[i]) then Some(s[i..DigitRunEnd(s, i)])
    else FirstDigitsFrom(s, i + 1)
  }

  /** The bids count: `None` for absent or empty text or text without digits, else the value of the first digit run. */
  function BidsCount(raw: Option<string>): Option<int> {
    if raw.None? || raw.value == "" then None
    else
      match FirstDigitsFrom(raw.value, 0)
      case Some(ds) => Some(DigitsValue(ds))
      case None => None
  }

  /** A count is read exactly when the text has a digit, and it is never negative. */
  lemma BidsCountDefined(raw: Option<string>)
    ensures BidsCount(raw).None? <==> raw.None? || forall k :: 0 <= k < |raw.value| ==> !IsDigit(raw.value[k])
    ensures BidsCount(raw).Some? ==> BidsCount(raw).value >= 0
  {
  }

  lemma {:induction false} DigitRunEndAt(s: string, i: nat, e: nat)
    requires i <= e <= |s|
    requires forall k :: i <= k < e ==> IsDigit(s[k])
    requires e == |s| || !IsDigit(s[e])
    ensures DigitRunEnd(s, i) == e
    decreases e - i
  {
    if i < e {
      DigitRunEndAt(s, i + 1, e);
    }
  }

  /** The search returns the digit run at the first digit. */
  lemma {:induction false} FirstDigitsLeftmost(s: string, i: nat, p: nat)
    requires i <= p < |s| && IsDigit(s[p])
    requires forall k :: i <= k < p ==> !IsDigit(s[k])
    ensures FirstDigitsFrom(s, i) == Some(s[p..DigitRunEnd(s, p)])
    decreases p - i
  {
    if i < p {
      FirstDigitsLeftmost(s, i + 1, p);
    }
  }

  /** The count written in decimal, after text without digits and before text not starting with one, reads back as itself. */
  lemma BidsCountOfDecimal(pre: string, n: nat, post: string)
    requires forall k :: 0 <= k < |pre| ==> !IsDigit(pre[k])
    requires post == [] || !IsDigit(post[0])
    ensures BidsCount(Some(pre + Decimal(n) + post)) == Some(n)
  {
    var d := Decimal(n);
    var s := pre + d + post;
    var p := |pre|;
    MiddleIndex(pre, d, post);
    assert forall k :: 0 <= k < p ==> s[k] == pre[k];
    forall x | p <= x < p + |d|
      ensures IsDigit(s[x])
    {
      assert s[p + (x - p)] == d[x - p];
    }
    DigitRunEndAt(s, p, p + |d|);
    FirstDigitsLeftmost(s, 0, p);
    MiddleSlice(pre, d, post);
    DigitsValueOfDecimal(n);
  }

  // ---------------------------------------------------------------------------------------
  // one card to one project record

  /** The title link: the primary selector, else the fallback one. */
  function TitleElement(card: Card): Option<Element> {
    var primary := FindElement(card, TitleSelector);
    if primary.Some? then primary else FindElement(card, TitleFallbackSelector)
  }

  /** The description: the primary selector's cleaned text, else the fallback selector's. */
  function Description(card: Card): (r: Option<string>)
    ensures r.Some? ==> r.value != "" && Normalized(r.value) && Stripped(r.value)
    ensures SafeFindElementText(card, DescriptionSelector, None).Some? ==> r == SafeFindElementText(card, DescriptionSelector, None)
    ensures r.None? <==>
      (FindElement(card, DescriptionSelector).None? || AllSpace(FindElement(card, DescriptionSelector).value.text)) &&
      (FindElement(card, DescriptionFallbackSelector).None? || AllSpace(FindElement(card, DescriptionFallbackSelector).value.text))
  {
    var d := SafeFindElementText(card, DescriptionSelector, None);
    if d.None? then SafeFindElementText(card, DescriptionFallbackSelector, None) else d
  }

  /** The tag links: the primary selector's matches, else the fallback selector's when there are none. */
  function SkillElements(card: Card): seq<Element> {
    var es := FindElements(card, TagsSelector);
    if es == [] then FindElements(card, TagsFallbackSelector) else es
  }

  predicate HasText(e: Element) {
    CleanText(Some(e.text)).Some?
  }

  function CleanedText(e: Element): string {
    Normalize(e.text)
  }

  /** The skills list the tag loop builds: each tag's cleaned text, blank tags skipped. */
  function TagTexts(es: seq<Element>): (r: seq<string>)
    ensures |r| <= |es|
  {
    if es == [] then []
    else
      var t := CleanText(Some(es[|es| - 1].text));
      TagTexts(es[..|es| - 1]) + (if t.Some? then [t.value] else [])
  }

  lemma TagTextsSnoc(es: seq<Element>, i: nat)
    requires i < |es|
    ensures TagTexts(es[..i + 1]) ==
      TagTexts(es[..i]) + (var t := CleanText(Some(es[i].text)); if t.Some? then [t.value] else [])
  {
    assert es[..i + 1][..i] == es[..i];
  }

  /** The tag loop keeps exactly the non-blank tags, in order, each normalised. */
  lemma {:induction false} TagTextsAreCleanedTags(es: seq<Element>)
    ensures TagTexts(es) == Map(Filter(es, HasText), CleanedText)
  {
    if es != [] {
      var init := es[..|es| - 1];
      var x := es[|es| - 1];
      assert es == init + [x];
      TagTextsAreCleanedTags(init);
      FilterSnoc(init, x, HasText);
      MapSnoc(Filter(init, HasText), x, CleanedText);
    }
  }

  /** Every skill the tag loop keeps is non-empty, single-spaced and trimmed. */
  lemma TagTextsClean(es: seq<Element>)
    ensures forall i :: 0 <= i < |TagTexts(es)| ==>
      TagTexts(es)[i] != "" && Normalized(TagTexts(es)[i]) && Stripped(TagTexts(es)[i])
  {
    TagTextsAreCleanedTags(es);
    var kept := Filter(es, HasText);
    forall i | 0 <= i < |kept|
      ensures CleanedText(kept[i]) != "" && Normalized(CleanedText(kept[i])) && Stripped(CleanedText(kept[i]))
    {
      assert HasText(kept[i]);
    }
  }

  function TimeLeft(card: Card): Option<string> {
    SafeFindElementText(card, DaysSelector, None)
  }

  function Bids(card: Card): Option<int> {
    BidsCount(SafeFindElementText(card, BidsSelector, None))
  }

  /**
   * `extract_project_data` as a function of the card: `None` when there is no title link,
   * or its text is blank, or it has no `href`; otherwise the record with every field read.
   */
  function Extracted(card: Card, category: string, stamp: string): Option<Project>
  {
    match TitleElement(card)
    case None => None
    case Some(te) =>
      var title := CleanText(Some(te.text));
      var href := Attribute(te, "href");
      if title.None? || href.None? || href.value == "" then None
      else
        Some(Project(
          platform := Some(Platform),
          category := Some(category),
          title := title,
          description := Description(card),
          skills := SkillsItems(TagTexts(SkillElements(card))),
          budget := Budget(card),
          time_left := TimeLeft(card),
          bids_count := Bids(card),
          url := href,
          scraped_at := Some(stamp),
          skills_text := None,
          match_text := None))
  }

  /**
   * What a scraped record holds: the title link's cleaned text and its `href`, the run's
   * category and time, the non-blank tags, and the description, budget, time left and
   * bids as their own readers give them.
   */
  lemma ExtractedShape(card: Card, category: string, stamp: string)
    ensures var r := Extracted(card, category, stamp); r.None? <==>
      TitleElement(card).None? || AllSpace(TitleElement(card).value.text) || Attribute(TitleElement(card).value, "href").GetOr("") == ""
    ensures var r := Extracted(card, category, stamp); r.Some? ==> r.value.title.Some? && r.value.title.value != "" && Normalized(r.value.title.value)
    ensures var r := Extracted(card, category, stamp); r.Some? ==> r.value.title == CleanText(Some(TitleElement(card).value.text))
    ensures var r := Extracted(card, category, stamp); r.Some? ==>
      r.value.description == Description(card) && r.value.budget == Budget(card) &&
      r.value.time_left == TimeLeft(card) && r.value.bids_count == Bids(card)
    ensures var r := Extracted(card, category, stamp); r.Some? ==> r.value.url == Attribute(TitleElement(card).value, "href") && r.value.url.value != ""
    ensures var r := Extracted(card, category, stamp); r.Some? ==> r.value.platform == Some(Platform) && r.value.category == Some(category) && r.value.scraped_at == Some(stamp)
    ensures var r := Extracted(card, category, stamp); r.Some? ==> r.value.skills_text.None? && r.value.match_text.None?
    ensures var r := Extracted(card, category, stamp); r.Some? ==> r.value.skills.SkillsItems? && r.value.skills.items == Map(Filter(SkillElements(card), HasText), CleanedText)
  {
    TagTextsAreCleanedTags(SkillElements(card));
  }

  /** The tag loop of `extract_project_data`: the cleaned text of each tag, blank ones skipped. */
  method CollectSkills(elements: seq<Element>) returns (skills: seq<string>)
    ensures skills == TagTexts(elements)
  {
    skills := [];
    var i := 0;
    while i < |elements|
      invariant 0 <= i <= |elements|
      invariant skills == TagTexts(elements[..i])
    {
      var t := CleanText(Some(elements[i].text));
      if t.Some? {
        skills := skills + [t.value];
      }
      TagTextsSnoc(elements, i);
      i := i + 1;
    }
    assert elements[..i] == elements;
  }

  /** `extract_project_data`, step by step; `stamp` is the scrape time the source reads from the clock. */
  method ExtractProjectData(card: Card, category: string, stamp: string) returns (r: Option<Project>)
    ensures r == Extracted(card, category, stamp)
  {
    var titleElem := FindElement(card, TitleSelector);
    if titleElem.None? {
      titleElem := FindElement(card, TitleFallbackSelector);
      if titleElem.None? {
        return None;
      }
    }
    assert titleElem == TitleElement(card);
    var title := CleanText(Some(titleElem.value.text));
    var href := Attribute(titleElem.value, "href");
    if title.None? || href.None? || href.value == "" {
      return None;
    }

    var description := SafeFindElementText(card, DescriptionSelector, None);
    if description.None? {
      description := SafeFindElementText(card, DescriptionFallbackSelector, None);
    }

    assert description == Description(card);
    var elements := FindElements(card, TagsSelector);
    if elements == [] {
      elements := FindElements(card, TagsFallbackSelector);
    }
    assert elements == SkillElements(card);
    var skills := CollectSkills(elements);

    var budget := Budget(card);
    var timeLeft := SafeFindElementText(card, DaysSelector, None);
    var bidsRaw := SafeFindElementText(card, BidsSelector, None);
    var bids := BidsCount(bidsRaw);

    r := Some(Project(
      platform := Some(Platform),
      category := Some(category),
      title := title,
      description := description,
      skills := SkillsItems(skills),
      budget := budget,
      time_left := timeLeft,
      bids_count := bids,
      url := href,
      scraped_at := Some(stamp),
      skills_text := None,
      match_text := None));
  }

  // ---------------------------------------------------------------------------------------
  // the browser

  /**
   * What the browser shows after loading a page URL: whether the wait for the card
   * layout succeeded, whether the fallback wait for a project link succeeded, and what
   * the two card selectors then find.
   */
  datatype Page = Page(cardsReady: bool, linksReady: bool, cards: seq<Card>, containers: seq<Card>)

  /** `driver.get` raising: the URL could not be loaded. */
  datatype ScrapeError = PageLoadFailed(url: string)

  /** The Chrome driver: the site it browses, the URLs it has loaded in order, and whether it has been quit. */
  class Driver {
    const site: map<string, Page>
    var visited: seq<string>
    var open: bool

    constructor (site: map<string, Page>)
      ensures this.site == site && visited == [] && open
    {
      this.site := site;
      visited := [];
      open := true;
    }

    /** `driver.get`: records the URL and yields its page, or fails for a URL the site does not serve. */
    method Get(url: string) returns (r: Result<Page, ScrapeError>)
      requires open
      modifies this
      ensures open && visited == old(visited) + [url]
      ensures url in site ==> r == Success(site[url])
      ensures url !in site ==> r == Failure(PageLoadFailed(url))
    {
      visited := visited + [url];
      if url in site {
        r := Success(site[url]);
      } else {
        r := Failure(PageLoadFailed(url));
      }
    }

    /** `driver.quit`. */
    method Quit()
      modifies this
      ensures !open && visited == old(visited)
    {
      open := false;
    }
  }

  // ---------------------------------------------------------------------------------------
  // one category, page by page

  /** The URL of page `n` of a category: the category URL itself for page 1, `<url>/<n>` after. */
  function PageUrl(url: string, n: nat): string {
    if n == 1 then url else url + "/" + Decimal(n)
  }

  /** Different page numbers give different URLs, so no page is loaded twice. */
  lemma PageUrlsDistinct(url: string, m: nat, n: nat)
    requires 1 <= m < n
    ensures PageUrl(url, m) != PageUrl(url, n)
  {
    if m > 1 && PageUrl(url, m) == PageUrl(url, n) {
      var a := PageUrl(url, m);
      var b := PageUrl(url, n);
      assert |Decimal(m)| == |Decimal(n)|;
      assert a[|url| + 1..] == Decimal(m);
      assert b[|url| + 1..] == Decimal(n);
      DigitsValueOfDecimal(m);
      DigitsValueOfDecimal(n);
    }
  }

  /** The cards read from a loaded page: none when both waits time out (the page is skipped), else the card layout's or, when that finds nothing, the broader containers. */
  function PageCards(page: Page): seq<Card> {
    if !page.cardsReady && !page.linksReady then []
    else if page.cards != [] then page.cards
    else page.containers
  }

  /** The records extracted from `cards`, in order, skipping cards that yield none. */
  function ExtractAll(cards: seq<Card>, category: string, stamp: string): seq<Project> {
    Collect(cards, card => Extracted(card, category, stamp))
  }

  /** Every record comes from some card, and every card that yields a record contributes it. */
  lemma ExtractAllFromCards(cards: seq<Card>, category: string, stamp: string)
    ensures var r := ExtractAll(cards, category, stamp);
      forall i :: 0 <= i < |r| ==> exists j :: 0 <= j < |cards| && Extracted(cards[j], category, stamp) == Some(r[i])
    ensures var r := ExtractAll(cards, category, stamp);
      forall j :: 0 <= j < |cards| && Extracted(cards[j], category, stamp).Some? ==> Extracted(cards[j], category, stamp).value in r
  {
    CollectFrom(cards, card => Extracted(card, category, stamp));
  }

  lemma ExtractAllStep(cards: seq<Card>, j: nat, category: string, stamp: string)
    requires j < |cards|
    ensures ExtractAll(cards[..j + 1], category, stamp) ==
      ExtractAll(cards[..j], category, stamp) +
      (if Extracted(cards[j], category, stamp).Some? then [Extracted(cards[j], category, stamp).value] else [])
  {
    assert cards[..j + 1] == cards[..j] + [cards[j]];
    CollectSnoc(cards[..j], cards[j], card => Extracted(card, category, stamp));
  }

  /** The card loop of `scrape_category`: extracts every card, keeping the records it yields. */
  method ExtractCards(cards: seq<Card>, category: string, stamp: string) returns (found: seq<Project>)
    ensures found == ExtractAll(cards, category, stamp)
  {
    found := [];
    var j := 0;
    while j < |cards|
      invariant 0 <= j <= |cards|
      invariant found == ExtractAll(cards[..j], category, stamp)
    {
      var p := ExtractProjectData(cards[j], category, stamp);
      if p.Some? {
        found := found + [p.value];
      }
      ExtractAllStep(cards, j, category, stamp);
      j := j + 1;
    }
    assert cards[..j] == cards;
  }

  /** The outcome of a run so far: the records collected (or the load failure that ended it) and the URLs loaded. */
  datatype Run = Run(result: Result<seq<Project>, ScrapeError>, visited: seq<string>)

  /** `range(1, max_pages + 1)` is empty below 1. */
  function PageCount(maxPages: int): nat {
    if maxPages < 1 then 0 else maxPages
  }

  /** `scrape_category` over pages 1 to `n`: each page is loaded in turn; a load failure ends the run. */
  function CategoryRun(site: map<string, Page>, name: string, url: string, n: nat, stamp: string): Run {
    if n == 0 then Run(Success([]), [])
    else
      var prev := CategoryRun(site, name, url, n - 1, stamp);
      if prev.result.Failure? then prev
      else
        var u := PageUrl(url, n);
        if u in site then Run(Success(prev.result.value + ExtractAll(PageCards(site[u]), name, stamp)), prev.visited + [u])
        else Run(Failure(PageLoadFailed(u)), prev.visited + [u])
  }

  /** Once a page fails to load, later pages change nothing: the run has ended. */
  lemma {:induction false} CategoryRunStops(site: map<string, Page>, name: string, url: string, m: nat, n: nat, stamp: string)
    requires m <= n && CategoryRun(site, name, url, m, stamp).result.Failure?
    ensures CategoryRun(site, name, url, n, stamp) == CategoryRun(site, name, url, m, stamp)
    decreases n - m
  {
    if m < n {
      CategoryRunStops(site, name, url, m, n - 1, stamp);
    }
  }

  /** One more page after a run that has not failed: its URL is loaded, and its cards' records are appended when it loads. */
  lemma CategoryRunNext(site: map<string, Page>, name: string, url: string, n: nat, stamp: string)
    requires n >= 1 && CategoryRun(site, name, url, n - 1, stamp).result.Success?
    ensures var prev := CategoryRun(site, name, url, n - 1, stamp);
      var u := PageUrl(url, n);
      CategoryRun(site, name, url, n, stamp) ==
        if u in site then Run(Success(prev.result.value + ExtractAll(PageCards(site[u]), name, stamp)), prev.visited + [u])
        else Run(Failure(PageLoadFailed(u)), prev.visited + [u])
  {
  }

  /**
   * A page that loads but whose two waits both time out is skipped: the run goes on
   * with its URL recorded as loaded and no record added.
   */
  lemma CategoryRunSkipsTimedOut(site: map<string, Page>, name: string, url: string, n: nat, stamp: string)
    requires n >= 1 && CategoryRun(site, name, url, n - 1, stamp).result.Success?
    requires PageUrl(url, n) in site && !site[PageUrl(url, n)].cardsReady && !site[PageUrl(url, n)].linksReady
    ensures CategoryRun(site, name, url, n, stamp).result == CategoryRun(site, name, url, n - 1, stamp).result
    ensures CategoryRun(site, name, url, n, stamp).visited == CategoryRun(site, name, url, n - 1, stamp).visited + [PageUrl(url, n)]
  {
    var prev := CategoryRun(site, name, url, n - 1, stamp);
    CategoryRunNext(site, name, url, n, stamp);
    assert ExtractAll([], name, stamp) == [];
    assert prev.result.value + [] == prev.result.value;
  }

  /** The URLs of pages 1 to `n`, in order: the category URL first, then `<url>/2`, `<url>/3`, ... */
  function PageUrls(url: string, n: nat): (r: seq<string>)
    ensures |r| == n
    ensures n >= 1 ==> r[0] == url
    ensures forall k :: 1 <= k < n ==> r[k] == url + "/" + Decimal(k + 1)
  {
    seq(n, k requires 0 <= k < n => PageUrl(url, k + 1))
  }

  /**
   * A category run loads pages 1, 2, ... in order, each once; it loads all `n` of them
   * when it succeeds, and otherwise stops at the first page the site does not serve,
   * reporting that page's URL.
   */
  lemma CategoryRunVisits(site: map<string, Page>, name: string, url: string, n: nat, stamp: string)
    ensures var run := CategoryRun(site, name, url, n, stamp);
      |run.visited| <= n && run.visited == PageUrls(url, |run.visited|)
    ensures var run := CategoryRun(site, name, url, n, stamp);
      run.result.Success? ==> |run.visited| == n && forall k :: 0 <= k < n ==> run.visited[k] in site
    ensures var run := CategoryRun(site, name, url, n, stamp);
      run.result.Failure? ==> (
        && run.visited != []
        && run.result.error == PageLoadFailed(run.visited[|run.visited| - 1])
        && run.visited[|run.visited| - 1] !in site
        && forall k :: 0 <= k < |run.visited| - 1 ==> run.visited[k] in site)
  {
    CategoryRunPages(site, name, url, n, stamp);
    CategoryRunLoads(site, name, url, n, stamp);
  }

  /** The pages loaded are the first ones, in order; all `n` when the run succeeds. */
  lemma {:induction false} CategoryRunPages(site: map<string, Page>, name: string, url: string, n: nat, stamp: string)
    ensures var run := CategoryRun(site, name, url, n, stamp);
      |run.visited| <= n && run.visited == PageUrls(url, |run.visited|) && (run.result.Success? ==> |run.visited| == n)
  {
    if n > 0 {
      CategoryRunPages(site, name, url, n - 1, stamp);
      CategoryRunStep(site, name, url, n, stamp);
      var prev := CategoryRun(site, name, url, n - 1, stamp);
      if prev.result.Success? {
        var v := CategoryRun(site, name, url, n, stamp).visited;
        PageUrlsSnoc(url, n);
      }
    }
  }

  /** Every page loaded before the last one was served; the run fails exactly at a page the site does not serve. */
  lemma {:induction false} CategoryRunLoads(site: map<string, Page>, name: string, url: string, n: nat, stamp: string)
    ensures var run := CategoryRun(site, name, url, n, stamp);
      run.result.Success? ==> forall k :: 0 <= k < |run.visited| ==> run.visited[k] in site
    ensures var run := CategoryRun(site, name, url, n, stamp);
      run.result.Failure? ==> (
        && run.visited != []
        && run.result.error == PageLoadFailed(run.visited[|run.visited| - 1])
        && run.visited[|run.visited| - 1] !in site
        && forall k :: 0 <= k < |run.visited| - 1 ==> run.visited[k] in site)
  {
    if n > 0 {
      CategoryRunLoads(site, name, url, n - 1, stamp);
      CategoryRunStep(site, name, url, n, stamp);
      var prev := CategoryRun(site, name, url, n - 1, stamp);
      if prev.result.Success? {
        var v := CategoryRun(site, name, url, n, stamp).visited;
        assert forall k :: 0 <= k < |prev.visited| ==> v[k] == prev.visited[k];
      }
    }
  }

  /** One page more: after a failure nothing changes; otherwise the page is loaded, and the run fails exactly when the site does not serve it. */
  lemma CategoryRunStep(site: map<string, Page>, name: string, url: string, n: nat, stamp: string)
    requires n >= 1
    ensures var prev := CategoryRun(site, name, url, n - 1, stamp);
      var run := CategoryRun(site, name, url, n, stamp);
      && (prev.result.Failure? ==> run == prev)
      && (prev.result.Success? ==> run.visited == prev.visited + [PageUrl(url, n)])
      && (prev.result.Success? ==> (run.result.Success? <==> PageUrl(url, n) in site))
      && (prev.result.Success? && run.result.Failure? ==> run.result.error == PageLoadFailed(PageUrl(url, n)))
  {
  }

  /** Page `k + 1`'s URL is at position `k`. */
  lemma PageUrlsAt(url: string, n: nat, k: nat)
    requires k < n
    ensures PageUrls(url, n)[k] == PageUrl(url, k + 1)
  {
  }

  lemma PageUrlsSnoc(url: string, n: nat)
    requires n >= 1
    ensures PageUrls(url, n) == PageUrls(url, n - 1) + [PageUrl(url, n)]
  {
    var a := PageUrls(url, n);
    var b := PageUrls(url, n - 1) + [PageUrl(url, n)];
    forall k | 0 <= k < n
      ensures a[k] == b[k]
    {
      PageUrlsAt(url, n, k);
      if k < n - 1 {
        PageUrlsAt(url, n - 1, k);
      }
    }
  }

  /** No page is loaded twice in one category. */
  lemma CategoryRunVisitsOnce(site: map<string, Page>, name: string, url: string, n: nat, stamp: string)
    ensures var v := CategoryRun(site, name, url, n, stamp).visited;
      forall i, j :: 0 <= i < j < |v| ==> v[i] != v[j]
  {
    CategoryRunPages(site, name, url, n, stamp);
    var v := CategoryRun(site, name, url, n, stamp).visited;
    forall i, j | 0 <= i < j < |v|
      ensures v[i] != v[j]
    {
      PageUrlsAt(url, |v|, i);
      PageUrlsAt(url, |v|, j);
      PageUrlsDistinct(url, i + 1, j + 1);
    }
  }

  /** What every scraped record carries: the platform, its category, the run's time, a clean title and a link. */
  predicate Scraped(p: Project, name: string, stamp: string) {
    && p.platform == Some(Platform)
    && p.category == Some(name)
    && p.scraped_at == Some(stamp)
    && p.title.Some? && p.title.value != "" && Normalized(p.title.value)
    && p.url.Some? && p.url.value != ""
  }

  lemma ExtractAllScraped(cards: seq<Card>, name: string, stamp: string)
    ensures forall i :: 0 <= i < |ExtractAll(cards, name, stamp)| ==> Scraped(ExtractAll(cards, name, stamp)[i], name, stamp)
  {
    ExtractAllFromCards(cards, name, stamp);
    var r := ExtractAll(cards, name, stamp);
    forall i | 0 <= i < |r|
      ensures Scraped(r[i], name, stamp)
    {
      var j :| 0 <= j < |cards| && Extracted(cards[j], name, stamp) == Some(r[i]);
      ExtractedShape(cards[j], name, stamp);
    }
  }

  /** Every record a category run collects is a scraped record of that category. */
  lemma {:induction false} CategoryRunScraped(site: map<string, Page>, name: string, url: string, n: nat, stamp: string)
    ensures var run := CategoryRun(site, name, url, n, stamp);
      run.result.Success? ==> forall i :: 0 <= i < |run.result.value| ==> Scraped(run.result.value[i], name, stamp)
  {
    if n > 0 {
      CategoryRunScraped(site, name, url, n - 1, stamp);
      var prev := CategoryRun(site, name, url, n - 1, stamp);
      var u := PageUrl(url, n);
      if prev.result.Success? && u in site {
        ExtractAllScraped(PageCards(site[u]), name, stamp);
        var xs := prev.result.value;
        var ys := ExtractAll(PageCards(site[u]), name, stamp);
        CategoryRunNext(site, name, url, n, stamp);
        assert CategoryRun(site, name, url, n, stamp).result.value == xs + ys;
        forall i | 0 <= i < |xs + ys|
          ensures Scraped((xs + ys)[i], name, stamp)
        {
          if i >= |xs| {
            assert (xs + ys)[i] == ys[i - |xs|];
          }
        }
      }
    }
  }

  /** `scrape_category`: loads pages 1 to `maxPages`, extracting every card of each loaded page. */
  method ScrapeCategory(driver: Driver, name: string, url: string, maxPages: int, stamp: string)
    returns (r: Result<seq<Project>, ScrapeError>)
    requires driver.open
    modifies driver
    ensures driver.open
    ensures r == CategoryRun(driver.site, name, url, PageCount(maxPages), stamp).result
    ensures driver.visited == old(driver.visited) + CategoryRun(driver.site, name, url, PageCount(maxPages), stamp).visited
  {
    var all: seq<Project> := [];
    var page := 1;
    while page <= maxPages
      invariant 1 <= page <= PageCount(maxPages) + 1
      invariant driver.open
      invariant CategoryRun(driver.site, name, url, page - 1, stamp).result == Success(all)
      invariant driver.visited == old(driver.visited) + CategoryRun(driver.site, name, url, page - 1, stamp).visited
      decreases maxPages - page
    {
      ghost var collected := all;
      var pageUrl := if page == 1 then url else url + "/" + Decimal(page);
      assert pageUrl == PageUrl(url, page);
      var loaded := driver.Get(pageUrl);
      if loaded.Failure? {
        CategoryRunStops(driver.site, name, url, page, PageCount(maxPages), stamp);
        return Failure(loaded.error);
      }
      var shown := loaded.value;
      assert pageUrl in driver.site && shown == driver.site[pageUrl];
      ghost var cardsShown := PageCards(shown);
      if shown.cardsReady || shown.linksReady {
        var cards := shown.cards;
        if cards == [] {
          cards := shown.containers;
        }
        assert cards == cardsShown;
        var found := ExtractCards(cards, name, stamp);
        all := all + found;
      } else {
        assert ExtractAll(cardsShown, name, stamp) == [];
        assert all == collected + ExtractAll(cardsShown, name, stamp);
      }
      assert all == collected + ExtractAll(cardsShown, name, stamp);
      CategoryRunNext(driver.site, name, url, page, stamp);
      assert CategoryRun(driver.site, name, url, page, stamp) ==
        Run(Success(all), CategoryRun(driver.site, name, url, page - 1, stamp).visited + [pageUrl]);
      assert driver.visited == old(driver.visited) + (CategoryRun(driver.site, name, url, page - 1, stamp).visited + [pageUrl]);
      page := page + 1;
    }
    assert page - 1 == PageCount(maxPages);
    return Success(all);
  }


  // ---------------------------------------------------------------------------------------
  // the whole run: every category, then de-duplication by URL

  const JobsPattern: string := "//jobs"
  const JobsReplacement: string := "/jobs"

  /** The category URL: the suffix joined to the base URL, with a doubled slash before `jobs` collapsed. */
  function CategoryUrl(suffix: string): string {
    ReplaceAll(BaseUrl + "/" + suffix, JobsPattern, JobsReplacement)
  }

  /** The only slashes of the base URL are those of `https://`, followed by `w`: no `//jobs` starts inside it. */
  lemma BaseUrlHasNoPattern(t: string)
    ensures forall i :: 0 <= i < |BaseUrl| ==> !StartsWith((BaseUrl + t)[i..], JobsPattern)
  {
    var s := BaseUrl + t;
    assert |BaseUrl| == 26;
    assert forall i :: 0 <= i < |BaseUrl| ==> s[i] == BaseUrl[i];
    assert forall i :: 0 <= i < |BaseUrl| && i != 6 && i != 7 ==> BaseUrl[i] != '/';
    assert BaseUrl[8] == 'w';
    forall i | 0 <= i < |BaseUrl|
      ensures !StartsWith(s[i..], JobsPattern)
    {
      if i == 6 {
        assert s[i..][2] == 'w';
      } else if i == 7 {
        assert s[i..][1] == 'w';
      } else {
        assert s[i..][0] != '/';
      }
    }
  }

  /** A suffix that does not produce `//jobs` is appended to the base URL after one slash, unchanged. */
  lemma CategoryUrlPlain(suffix: string)
    requires !Contains("/" + suffix, JobsPattern)
    ensures CategoryUrl(suffix) == BaseUrl + "/" + suffix
  {
    BaseUrlHasNoPattern("/" + suffix);
    assert BaseUrl + "/" + suffix == BaseUrl + ("/" + suffix);
    ReplaceAllSkips(BaseUrl, "/" + suffix, JobsPattern, JobsReplacement);
    ReplaceAllNone("/" + suffix, JobsPattern, JobsReplacement);
  }

  /** A suffix written with a leading slash, `/jobs/...`, gives the same URL as one written without it. */
  lemma CategoryUrlLeadingSlash(rest: string)
    requires !Contains(rest, JobsPattern)
    ensures CategoryUrl("/jobs" + rest) == BaseUrl + "/jobs" + rest
  {
    var t := "/" + ("/jobs" + rest);
    BaseUrlHasNoPattern(t);
    assert BaseUrl + "/" + ("/jobs" + rest) == BaseUrl + t;
    ReplaceAllSkips(BaseUrl, t, JobsPattern, JobsReplacement);
    LeadingPatternReplaced(rest);
    assert BaseUrl + "/jobs" + rest == BaseUrl + (JobsReplacement + rest);
  }

  /** The doubled slash at the front is the only occurrence of the pattern, and it is replaced. */
  lemma LeadingPatternReplaced(rest: string)
    requires !Contains(rest, JobsPattern)
    ensures ReplaceAll("/" + ("/jobs" + rest), JobsPattern, JobsReplacement) == JobsReplacement + rest
  {
    var t := "/" + ("/jobs" + rest);
    assert t[..|JobsPattern|] == JobsPattern;
    assert t[|JobsPattern|..] == rest;
    ReplaceAllNone(rest, JobsPattern, JobsReplacement);
  }

  /** `scrape_projects` up to de-duplication, over `categories` in order (name and URL suffix): a load failure ends the run. */
  function ScrapeRun(site: map<string, Page>, categories: seq<(string, string)>, pages: int, stamp: string): Run {
    if categories == [] then Run(Success([]), [])
    else
      var prev := ScrapeRun(site, categories[..|categories| - 1], pages, stamp);
      if prev.result.Failure? then prev
      else
        var (name, suffix) := categories[|categories| - 1];
        var run := CategoryRun(site, name, CategoryUrl(suffix), PageCount(pages), stamp);
        Run(if run.result.Failure? then run.result else Success(prev.result.value + run.result.value),
            prev.visited + run.visited)
  }

  /** Once a category fails, the later ones change nothing. */
  lemma {:induction false} ScrapeRunStops(site: map<string, Page>, categories: seq<(string, string)>, k: nat, pages: int, stamp: string)
    requires k <= |categories| && ScrapeRun(site, categories[..k], pages, stamp).result.Failure?
    ensures ScrapeRun(site, categories, pages, stamp) == ScrapeRun(site, categories[..k], pages, stamp)
    decreases |categories| - k
  {
    if k < |categories| {
      var init := categories[..|categories| - 1];
      assert init[..k] == categories[..k];
      ScrapeRunStops(site, init, k, pages, stamp);
    } else {
      assert categories[..k] == categories;
    }
  }

  /** Every record of a successful run is a scraped record of one of the categories. */
  lemma {:induction false} ScrapeRunScraped(site: map<string, Page>, categories: seq<(string, string)>, pages: int, stamp: string)
    ensures var run := ScrapeRun(site, categories, pages, stamp);
      run.result.Success? ==> forall i :: 0 <= i < |run.result.value| ==>
        exists c :: c in categories && Scraped(run.result.value[i], c.0, stamp)
  {
    if categories != [] {
      var init := categories[..|categories| - 1];
      ScrapeRunScraped(site, init, pages, stamp);
      var prev := ScrapeRun(site, init, pages, stamp);
      var last := categories[|categories| - 1];
      var cat := CategoryRun(site, last.0, CategoryUrl(last.1), PageCount(pages), stamp);
      if prev.result.Success? && cat.result.Success? {
        CategoryRunScraped(site, last.0, CategoryUrl(last.1), PageCount(pages), stamp);
        var xs := prev.result.value;
        var ys := cat.result.value;
        assert ScrapeRun(site, categories, pages, stamp).result.value == xs + ys;
        forall i | 0 <= i < |xs + ys|
          ensures exists c :: c in categories && Scraped((xs + ys)[i], c.0, stamp)
        {
          if i < |xs| {
            var d :| d in init && Scraped(xs[i], d.0, stamp);
            assert d in categories;
          } else {
            assert (xs + ys)[i] == ys[i - |xs|];
            assert last in categories && Scraped(ys[i - |xs|], last.0, stamp);
          }
        }
      }
    }
  }

  /** The de-duplication guard `if u and u not in seen`: a record needs a non-empty URL. */
  predicate HasUrl(p: Project) {
    p.url.Some? && p.url.value != ""
  }

  function UrlKey(p: Project): string {
    p.url.GetOr("")
  }

  /** The records with a URL, keeping only the first record of each URL. */
  function UniqueByUrl(all: seq<Project>): seq<Project> {
    DistinctBy(Filter(all, HasUrl), UrlKey, {})
  }

  /**
   * The de-duplication keeps records with a URL only, no two with the same URL, in their
   * original order; every URL that occurs is kept, by the first record that has it.
   */
  lemma UniqueByUrlSpec(all: seq<Project>)
    ensures forall i :: 0 <= i < |UniqueByUrl(all)| ==> HasUrl(UniqueByUrl(all)[i])
    ensures forall i, j :: 0 <= i < j < |UniqueByUrl(all)| ==> UniqueByUrl(all)[i].url != UniqueByUrl(all)[j].url
    ensures IsSubsequence(UniqueByUrl(all), all)
    ensures forall j :: 0 <= j < |all| && HasUrl(all[j]) && (forall i :: 0 <= i < j ==> all[i].url != all[j].url) ==>
      all[j] in UniqueByUrl(all)
  {
    var f := Filter(all, HasUrl);
    var u := UniqueByUrl(all);
    forall i, j | 0 <= i < j < |u|
      ensures u[i].url != u[j].url
    {
      assert UrlKey(u[i]) != UrlKey(u[j]);
    }
    DistinctByIsSubsequence(f, UrlKey, {});
    FilterIsSubsequence(all, HasUrl);
    SubsequenceTrans(u, f, all);
    forall j | 0 <= j < |all| && HasUrl(all[j]) && (forall i :: 0 <= i < j ==> all[i].url != all[j].url)
      ensures all[j] in u
    {
      forall i | 0 <= i < j && HasUrl(all[i])
        ensures UrlKey(all[i]) != UrlKey(all[j])
      {
      }
      DistinctByFilterKeepsFirst(all, HasUrl, UrlKey, {}, j);
    }
  }

  /** Every scraped record has a URL, so on a run's records the URL guard drops nothing and only duplicates go. */
  lemma ScrapeRunUnique(site: map<string, Page>, categories: seq<(string, string)>, pages: int, stamp: string)
    ensures var run := ScrapeRun(site, categories, pages, stamp);
      run.result.Success? ==> UniqueByUrl(run.result.value) == DistinctBy(run.result.value, UrlKey, {})
  {
    var run := ScrapeRun(site, categories, pages, stamp);
    if run.result.Success? {
      ScrapeRunScraped(site, categories, pages, stamp);
      var all := run.result.value;
      forall i | 0 <= i < |all|
        ensures HasUrl(all[i])
      {
        var c :| c in categories && Scraped(all[i], c.0, stamp);
      }
      FilterAll(all, HasUrl);
    }
  }

  /** One more record: it is kept exactly when it has a URL not seen among the records kept so far. */
  lemma DedupStep(all: seq<Project>, i: nat)
    requires i < |all|
    ensures var unique := DistinctBy(Filter(all[..i], HasUrl), UrlKey, {});
      DistinctBy(Filter(all[..i + 1], HasUrl), UrlKey, {}) ==
      unique + (if HasUrl(all[i]) && all[i].url.value !in KeySet(unique, UrlKey) then [all[i]] else [])
  {
    var p := all[i];
    assert all[..i + 1] == all[..i] + [p];
    FilterSnoc(all[..i], p, HasUrl);
    var kept := Filter(all[..i], HasUrl);
    if HasUrl(p) {
      DistinctBySnoc(kept, p, UrlKey, {});
      assert {} + KeySet(DistinctBy(kept, UrlKey, {}), UrlKey) == KeySet(DistinctBy(kept, UrlKey, {}), UrlKey);
    } else {
      assert Filter(all[..i + 1], HasUrl) == kept;
    }
  }

  /** The `seen`-set loop of `scrape_projects`. */
  method DedupByUrl(all: seq<Project>) returns (unique: seq<Project>)
    ensures unique == UniqueByUrl(all)
  {
    var seen: set<string> := {};
    unique := [];
    for i := 0 to |all|
      invariant unique == DistinctBy(Filter(all[..i], HasUrl), UrlKey, {})
      invariant seen == KeySet(unique, UrlKey)
    {
      var p := all[i];
      var u := p.url;
      DedupStep(all, i);
      if u.Some? && u.value != "" && u.value !in seen {
        KeySetSnoc(unique, p, UrlKey);
        seen := seen + {u.value};
        unique := unique + [p];
      }
    }
    assert all[..|all|] == all;
  }

  /**
   * `scrape_projects`: opens the driver, scrapes every category in order, quits the
   * driver whatever happens, and de-duplicates the records by URL. A load failure
   * ends the run with that failure, the driver quit all the same.
   */
  method ScrapeProjects(site: map<string, Page>, categories: seq<(string, string)>, pagesPerCategory: int, stamp: string)
    returns (r: Result<seq<Project>, ScrapeError>, driver: Driver)
    ensures fresh(driver) && driver.site == site && !driver.open
    ensures driver.visited == ScrapeRun(site, categories, pagesPerCategory, stamp).visited
    ensures var run := ScrapeRun(site, categories, pagesPerCategory, stamp);
      r == if run.result.Failure? then Failure(run.result.error) else Success(UniqueByUrl(run.result.value))
  {
    driver := new Driver(site);
    var all: seq<Project> := [];
    var i := 0;
    while i < |categories|
      invariant 0 <= i <= |categories|
      invariant fresh(driver) && driver.site == site && driver.open
      invariant ScrapeRun(site, categories[..i], pagesPerCategory, stamp) == Run(Success(all), driver.visited)
    {
      var (name, suffix) := categories[i];
      var categoryUrl := ReplaceAll(BaseUrl + "/" + suffix, JobsPattern, JobsReplacement);
      ghost var before := driver.visited;
      var got := ScrapeCategory(driver, name, categoryUrl, pagesPerCategory, stamp);
      assert categories[..i + 1][..i] == categories[..i];
      if got.Failure? {
        driver.Quit();
        ScrapeRunStops(site, categories, i + 1, pagesPerCategory, stamp);
        return Failure(got.error), driver;
      }
      all := all + got.value;
      i := i + 1;
    }
    assert categories[..i] == categories;
    driver.Quit();
    var unique := DedupByUrl(all);
    return Success(unique), driver;
  }
}
