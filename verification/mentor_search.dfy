/** The mentor directory filter (client/src/components/mentors/MentorSearch.tsx):
    five drop-down filters and a free-text search applied to the mentor
    list in order, with the state changes of the filter controls. */
module MentorSearch {
  import opened Wrappers
  import opened Text

  /** The fields of a listed mentor the filter reads. A list that the API
      left out is None. The rating is a JavaScript number, kept exact. */
  datatype Listing = Listing(name: string, university: string, company: string,
                             expertise: Option<seq<string>>, languages: Option<seq<string>>, rating: real)

  /** The drop-down values; "" means the filter is not set. */
  datatype Filters = Filters(university: string, company: string, expertise: string, language: string, rating: string)

  datatype SearchState = SearchState(filters: Filters, searchTerm: string, selectedExpertise: string)

  const NoFilters := Filters("", "", "", "", "")

  /** The values the minimum-rating control offers. */
  const RatingOptions: seq<string> := ["", "4", "4.5", "5"]

  // ---------------------------------------------------------------- parseFloat

  /** The longest prefix of ASCII digits. */
  function DigitPrefix(s: string): (p: string)
    ensures p <= s && forall i :: 0 <= i < |p| ==> IsDigit(p[i])
    ensures |p| < |s| ==> !IsDigit(s[|p|])
  {
    if |s| == 0 || !IsDigit(s[0]) then [] else [s[0]] + DigitPrefix(s[1..])
  }

  function Pow10(n: nat): (p: nat)
    ensures p >= 1
  {
    if n == 0 then 1 else 10 * Pow10(n - 1)
  }

  /** parseFloat on a leading `digits[.digits]`; None stands for NaN (no
      digit before or after the point). */
  function ParseFloat(s: string): (r: Option<real>)
    ensures r.None? <==> DigitPrefix(s) == [] && (|s| == 0 || s[0] != '.' || DigitPrefix(s[1..]) == [])
    ensures r.Some? ==> r.value >= 0.0
  {
    var whole := DigitPrefix(s);
    var rest := s[|whole|..];
    assert |whole| == 0 ==> rest == s;
    var frac := FractionDigits(rest);
    if |whole| == 0 && |frac| == 0 then None
    else Some(Reading(whole, frac))
  }

  /** The number `whole.frac` denotes. */
  function Reading(whole: string, frac: string): (v: real)
    requires forall i :: 0 <= i < |whole| ==> IsDigit(whole[i])
    requires forall i :: 0 <= i < |frac| ==> IsDigit(frac[i])
    ensures v >= DecimalValue(whole) as real >= 0.0
  {
    DecimalValue(whole) as real + FractionValue(frac)
  }

  /** The value of digits written after the point. */
  function FractionValue(frac: string): (v: real)
    requires forall i :: 0 <= i < |frac| ==> IsDigit(frac[i])
    ensures v >= 0.0
  {
    DecimalValue(frac) as real / Pow10(|frac|) as real
  }

  /** A run of digits in front passes through the prefix scan. */
  lemma {:induction false} DigitPrefixAppend(w: string, t: string)
    requires forall i :: 0 <= i < |w| ==> IsDigit(w[i])
    ensures DigitPrefix(w + t) == w + DigitPrefix(t)
  {
    if |w| > 0 {
      assert (w + t)[1..] == w[1..] + t;
      DigitPrefixAppend(w[1..], t);
      assert [w[0]] + w[1..] == w;
    } else {
      assert w + t == t;
    }
  }

  /** parseFloat reads back a rendered whole number, whatever non-numeric
      text follows it. */
  lemma ParseFloatWhole(n: nat, tail: string)
    requires |tail| == 0 || (!IsDigit(tail[0]) && tail[0] != '.')
    ensures ParseFloat(NatToString(n) + tail) == Some(n as real)
  {
    var w := NatToString(n);
    var s := w + tail;
    DigitPrefixAppend(w, tail);
    assert DigitPrefix(tail) == [];
    assert DigitPrefix(s) == w by { assert w + [] == w; }
    assert s[|w|..] == tail;
    assert DecimalValue([]) == 0;
  }

  /** parseFloat reads back `whole.fraction`: the whole part plus the
      fraction digits scaled by their count. */
  lemma ParseFloatDecimal(n: nat, f: string, tail: string)
    requires forall i :: 0 <= i < |f| ==> IsDigit(f[i])
    requires |tail| == 0 || !IsDigit(tail[0])
    ensures ParseFloat(NatToString(n) + "." + f + tail) == Some(n as real + FractionValue(f))
  {
    var w := NatToString(n);
    ParseDigitsPointDigits(w, f, tail);
    assert Reading(w, f) == n as real + FractionValue(f) by { assert DecimalValue(w) == n; }
  }

  lemma ParseDigitsPointDigits(w: string, f: string, tail: string)
    requires forall i :: 0 <= i < |w| ==> IsDigit(w[i])
    requires forall i :: 0 <= i < |f| ==> IsDigit(f[i])
    requires |w| > 0 || |f| > 0
    requires |tail| == 0 || !IsDigit(tail[0])
    ensures ParseFloat(w + "." + f + tail) == Some(Reading(w, f))
  {
    var rest := "." + f + tail;
    assert w + "." + f + tail == w + rest;
    WholeThenRest(w, rest);
    PointThenDigits(f, tail);
  }

  /** The prefix scan stops at the first non-digit after the digit run. */
  lemma WholeThenRest(w: string, rest: string)
    requires forall i :: 0 <= i < |w| ==> IsDigit(w[i])
    requires |rest| == 0 || !IsDigit(rest[0])
    ensures DigitPrefix(w + rest) == w && (w + rest)[|w|..] == rest
  {
    DigitPrefixAppend(w, rest);
    assert w + [] == w;
  }

  lemma PointThenDigits(f: string, tail: string)
    requires forall i :: 0 <= i < |f| ==> IsDigit(f[i])
    requires |tail| == 0 || !IsDigit(tail[0])
    ensures FractionDigits("." + f + tail) == f
  {
    assert ("." + f + tail)[1..] == f + tail;
    WholeThenRest(f, tail);
  }

  /** The digits after a leading point, if there is one. */
  function FractionDigits(rest: string): (f: string)
    ensures forall i :: 0 <= i < |f| ==> IsDigit(f[i])
  {
    if |rest| > 0 && rest[0] == '.' then DigitPrefix(rest[1..]) else []
  }

  /** The three offered thresholds parse to 4, 4.5 and 5. */
  lemma RatingOptionsParse()
    ensures ParseFloat(RatingOptions[1]) == Some(4.0)
    ensures ParseFloat(RatingOptions[2]) == Some(4.5)
    ensures ParseFloat(RatingOptions[3]) == Some(5.0)
  {
    assert DigitPrefix("4") == "4";
    assert DigitPrefix("5") == "5";
    assert DigitPrefix("4.5") == "4";
    assert DigitPrefix("5") == "5";
    assert "4.5"[1..] == ".5";
    assert ".5"[1..] == "5";
    assert DecimalValue("4") == 4 && DecimalValue("5") == 5 && DecimalValue("") == 0;
  }

  // ---------------------------------------------------------------- the predicate

  /** `list.includes(x)` on an optional list; a missing list includes nothing. */
  predicate Includes(xs: Option<seq<string>>, x: string) {
    xs.Some? && x in xs.value
  }

  /** `s.toLowerCase().includes(term.toLowerCase())`, ASCII case folding. */
  predicate Mentions(s: string, term: string) {
    Contains(Lower(s), Lower(term))
  }

  predicate SomeMentions(xs: seq<string>, term: string) {
    exists i :: 0 <= i < |xs| && Mentions(xs[i], term)
  }

  /** `rating < parseFloat(threshold)`; a comparison with NaN is false. */
  predicate BelowThreshold(rating: real, threshold: string) {
    var t := ParseFloat(threshold);
    t.Some? && rating < t.value
  }

  /** The `allMentors.filter` callback, clause by clause as written: each
      set filter may reject, then a non-empty search term must be found in
      the name, the university or one of the expertise areas. */
  predicate Passes(m: Listing, f: Filters, term: string) {
    if f.university != "" && m.university != f.university then false
    else if f.company != "" && m.company != f.company then false
    else if f.expertise != "" && !Includes(m.expertise, f.expertise) then false
    else if f.language != "" && !Includes(m.languages, f.language) then false
    else if f.rating != "" && BelowThreshold(m.rating, f.rating) then false
    else if term != "" then
      Mentions(m.name, term) || Mentions(m.university, term)
      || (m.expertise.Some? && SomeMentions(m.expertise.value, term))
    else true
  }

  /** Each filter on its own, as independent conditions. */
  predicate Admits(m: Listing, f: Filters, term: string) {
    && (f.university == "" || m.university == f.university)
    && (f.company == "" || m.company == f.company)
    && (f.expertise == "" || Includes(m.expertise, f.expertise))
    && (f.language == "" || Includes(m.languages, f.language))
    && (f.rating == "" || !BelowThreshold(m.rating, f.rating))
    && (term == "" || Mentions(m.name, term) || Mentions(m.university, term)
        || (m.expertise.Some? && SomeMentions(m.expertise.value, term)))
  }

  /** The early-return callback is the conjunction of the five filters
      and the search clause. */
  lemma PassesIffAdmits(m: Listing, f: Filters, term: string)
    ensures Passes(m, f, term) <==> Admits(m, f, term)
  {
  }

  /** The mentors that pass, each as often as it is listed, in their
      original order. */
  function FilterMentors(all: seq<Listing>, f: Filters, term: string): (r: seq<Listing>)
    ensures forall m :: m in r <==> m in all && Passes(m, f, term)
    ensures forall m :: multiset(r)[m] == if Passes(m, f, term) then multiset(all)[m] else 0
    ensures IsSubsequence(r, all)
    ensures |r| <= |all|
  {
    if |all| == 0 then []
    else
      var rest := FilterMentors(all[1..], f, term);
      assert all == [all[0]] + all[1..];
      if Passes(all[0], f, term) then
        SubsequenceKeepHead(all[0], rest, all[1..]);
        [all[0]] + rest
      else
        SubsequenceCons(all[0], rest, all[1..]);
        rest
  }

  /** With no filter and no search term every mentor is listed. */
  lemma NoFiltersListAll(all: seq<Listing>)
    ensures FilterMentors(all, NoFilters, "") == all
  {
    if |all| > 0 {
      NoFiltersListAll(all[1..]);
      assert all == [all[0]] + all[1..];
    }
  }

  /** f2 keeps every filter f1 sets, and may set more. */
  predicate Narrower(f2: Filters, f1: Filters) {
    && (f1.university == "" || f2.university == f1.university)
    && (f1.company == "" || f2.company == f1.company)
    && (f1.expertise == "" || f2.expertise == f1.expertise)
    && (f1.language == "" || f2.language == f1.language)
    && (f1.rating == "" || f2.rating == f1.rating)
  }

  /** Setting more filters never brings a mentor back: the narrower list
      is an ordered sub-list of the wider one. */
  lemma {:induction false} NarrowerListsFewer(all: seq<Listing>, f1: Filters, f2: Filters, term: string)
    requires Narrower(f2, f1)
    ensures IsSubsequence(FilterMentors(all, f2, term), FilterMentors(all, f1, term))
  {
    if |all| > 0 {
      NarrowerListsFewer(all[1..], f1, f2, term);
      var r1 := FilterMentors(all[1..], f1, term);
      var r2 := FilterMentors(all[1..], f2, term);
      PassesIffAdmits(all[0], f1, term);
      PassesIffAdmits(all[0], f2, term);
      if Passes(all[0], f2, term) {
        SubsequenceKeepHead(all[0], r2, r1);
      } else if Passes(all[0], f1, term) {
        SubsequenceCons(all[0], r2, r1);
      }
    }
  }

  // ---------------------------------------------------------------- controls

  datatype FilterField = UniversityField | CompanyField | ExpertiseField | LanguageField | RatingField

  function FieldValue(f: Filters, field: FilterField): string {
    match field
    case UniversityField => f.university
    case CompanyField => f.company
    case ExpertiseField => f.expertise
    case LanguageField => f.language
    case RatingField => f.rating
  }

  /** handleFilterChange: the named filter takes the value, the others
      keep theirs; the expertise control also records its selection. */
  function HandleFilterChange(s: SearchState, value: string, field: FilterField): (r: SearchState)
    ensures FieldValue(r.filters, field) == value
    ensures forall g :: g != field ==> FieldValue(r.filters, g) == FieldValue(s.filters, g)
    ensures r.searchTerm == s.searchTerm
    ensures r.selectedExpertise == if field == ExpertiseField then value else s.selectedExpertise
  {
    var f := s.filters;
    var f' := match field
      case UniversityField => f.(university := value)
      case CompanyField => f.(company := value)
      case ExpertiseField => f.(expertise := value)
      case LanguageField => f.(language := value)
      case RatingField => f.(rating := value);
    SearchState(f', s.searchTerm, if field == ExpertiseField then value else s.selectedExpertise)
  }

  /** Choosing a value for an unset filter narrows the list. */
  lemma SettingAFilterNarrows(all: seq<Listing>, s: SearchState, value: string, field: FilterField)
    requires FieldValue(s.filters, field) == ""
    ensures var r := HandleFilterChange(s, value, field);
      IsSubsequence(FilterMentors(all, r.filters, r.searchTerm), FilterMentors(all, s.filters, s.searchTerm))
  {
    var r := HandleFilterChange(s, value, field);
    assert forall g :: FieldValue(s.filters, g) == "" || FieldValue(r.filters, g) == FieldValue(s.filters, g);
    assert FieldValue(s.filters, UniversityField) == "" || FieldValue(r.filters, UniversityField) == FieldValue(s.filters, UniversityField);
    assert FieldValue(s.filters, CompanyField) == "" || FieldValue(r.filters, CompanyField) == FieldValue(s.filters, CompanyField);
    assert FieldValue(s.filters, ExpertiseField) == "" || FieldValue(r.filters, ExpertiseField) == FieldValue(s.filters, ExpertiseField);
    assert FieldValue(s.filters, LanguageField) == "" || FieldValue(r.filters, LanguageField) == FieldValue(s.filters, LanguageField);
    assert FieldValue(s.filters, RatingField) == "" || FieldValue(r.filters, RatingField) == FieldValue(s.filters, RatingField);
    NarrowerListsFewer(all, s.filters, r.filters, s.searchTerm);
  }

  /** resetFilters: every filter, the search term and the expertise
      selection are cleared, so every mentor is listed again. */
  function ResetFilters(s: SearchState): (r: SearchState)
    ensures forall g :: FieldValue(r.filters, g) == ""
    ensures r.searchTerm == "" && r.selectedExpertise == ""
    ensures forall all :: FilterMentors(all, r.filters, r.searchTerm) == all
  {
    var r := SearchState(NoFilters, "", "");
    assert forall all :: FilterMentors(all, r.filters, r.searchTerm) == all by {
      forall all { NoFiltersListAll(all); }
    }
    r
  }
}
