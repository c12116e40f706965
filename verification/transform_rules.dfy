/**
 * The two pure cleaning rules of the staging transformer: the Vietnamese salary-text parser
 * `clean_salary` and the relative posted-date resolver `calc_posted_date`.
 */
module TransformRules {
  import opened Wrappers
  import opened Text
  import opened Calendar

  /** Salaries on the source sites are quoted in millions of dong. */
  const Million: nat := 1000000

  const Negotiable := "thỏa thuận"
  const UpTo := "tới"
  const Above := "trên"

  /** The text `clean_salary` matches against: lower-cased, then every ',' and '.' deleted. */
  function Normalize(s: string): string {
    RemoveChar(RemoveChar(Lower(s), ','), '.')
  }

  /** `int(nums[i]) * multi` for the i-th digit run. */
  function Scaled(runs: seq<string>, i: nat): (r: nat)
    requires i < |runs| && AllDigits(runs[i])
    ensures r % Million == 0 && r / Million == ParseNat(runs[i])
  {
    ParseNat(runs[i]) * Million
  }

  /**
   * `clean_salary(text)`, giving `(min, max)`: no text, or text that mentions "thỏa thuận",
   * is (0, 0); otherwise the digit runs of the normalized text decide, with "tới" (up to) taking
   * priority over "trên" (above), and both over a plain "n - m" range.
   */
  function CleanSalary(text: Option<string>): (r: (int, int))
    ensures r.0 >= 0 && r.1 >= 0 && r.0 % Million == 0 && r.1 % Million == 0
    ensures text == None || text == Some("") ==> r == (0, 0)
    ensures text.Some? && Contains(Normalize(text.value), Negotiable) ==> r == (0, 0)
    ensures text.Some? && |DigitRuns(Normalize(text.value))| == 0 ==> r == (0, 0)
    ensures r != (0, 0) ==> text.Some? && |DigitRuns(Normalize(text.value))| >= 1
    ensures r.0 != 0 ==> r.0 == Scaled(DigitRuns(Normalize(text.value)), 0)
  {
    if text == None || text == Some("") then (0, 0)
    else
      var t := Normalize(text.value);
      if Contains(t, Negotiable) then (0, 0)
      else
        var nums := DigitRuns(t);
        if Contains(t, UpTo) && |nums| > 0 then (0, Scaled(nums, 0))
        else if Contains(t, Above) && |nums| > 0 then (Scaled(nums, 0), 0)
        else if |nums| >= 2 then (Scaled(nums, 0), Scaled(nums, 1))
        else (0, 0)
  }

  // ---------------------------------------------------------------------------
  // How CleanSalary reads the usual shapes of salary text: a word, a number, a unit

  predicate NoDigits(s: string) {
    forall i :: 0 <= i < |s| ==> !IsDigit(s[i])
  }

  lemma NormalizeDigits(d: string)
    requires AllDigits(d)
    ensures Normalize(d) == d
  {
    LowerDigits(d);
    RemoveCharAbsent(d, ',');
    RemoveCharAbsent(d, '.');
  }

  /** When lower-casing `s` gives `t` and `t` has no ',' or '.', the rules read `t`. */
  lemma NormalizeTo(s: string, t: string)
    requires |s| == |t|
    requires forall i :: 0 <= i < |s| ==> LowerChar(s[i]) == t[i] && t[i] != ',' && t[i] != '.'
    ensures Normalize(s) == t
  {
    assert Lower(s) == t;
    RemoveCharAbsent(t, ',');
    RemoveCharAbsent(t, '.');
  }

  lemma NormalizeConcat(a: string, b: string)
    ensures Normalize(a + b) == Normalize(a) + Normalize(b)
  {
    LowerConcat(a, b);
    RemoveCharConcat(Lower(a), Lower(b), ',');
    RemoveCharConcat(RemoveChar(Lower(a), ','), RemoveChar(Lower(b), ','), '.');
  }

  /** Normalizing "word number unit" normalizes the two words and keeps the number. */
  lemma NormalizeNumberPhrase(word: string, w: string, d: string, unit: string)
    requires Normalize(word) == w && Normalize(unit) == unit && AllDigits(d)
    ensures Normalize(word + d + unit) == w + d + unit
  {
    NormalizeConcat(word + d, unit);
    NormalizeConcat(word, d);
    NormalizeDigits(d);
  }

  /** The only digit run of "word number unit" is the number. */
  lemma RunsNumberPhrase(w: string, d: string, unit: string)
    requires NoDigits(w) && NoDigits(unit) && |d| > 0 && AllDigits(d)
    ensures DigitRuns(w + d + unit) == [d]
  {
    assert w + d + unit == w + (d + unit);
    DigitRunsSkip(w, d + unit);
    DigitRunsRun(d, unit);
    NoDigitRuns(unit);
  }

  /** A word that can hold no start of `phrase` may be dropped when looking for `phrase`. */
  ghost predicate Transparent(w: string, phrase: string) {
    forall x :: Contains(w + x, phrase) == Contains(x, phrase)
  }

  /** A word is transparent when its first letter disagrees with `phrase` at offset `k` and
      no other letter is the phrase's first letter. */
  lemma WordSkips(w: string, phrase: string, k: nat)
    requires 0 < k < |w| && k < |phrase| && w[k] != phrase[k]
    requires forall i :: 1 <= i < |w| ==> w[i] != phrase[0]
    ensures Transparent(w, phrase)
  {
    forall x ensures Contains(w + x, phrase) == Contains(x, phrase) {
      ContainsMismatch(w, x, phrase, k);
      ContainsSkipNoHead(w[1..], x, phrase);
    }
  }

  lemma WordNoHead(w: string, phrase: string)
    requires |phrase| > 0 && forall i :: 0 <= i < |w| ==> w[i] != phrase[0]
    ensures Transparent(w, phrase)
  {
    forall x ensures Contains(w + x, phrase) == Contains(x, phrase) {
      ContainsSkipNoHead(w, x, phrase);
    }
  }

  /** "word number unit" holds `phrase` only if the unit does. */
  lemma AbsentNumberPhrase(w: string, d: string, unit: string, phrase: string)
    requires |phrase| > 0 && !IsDigit(phrase[0]) && AllDigits(d)
    requires Transparent(w, phrase) && !Contains(unit, phrase)
    ensures !Contains(w + d + unit, phrase)
  {
    assert w + d + unit == w + (d + unit);
    ContainsSkipNoHead(d, unit, phrase);
  }

  /** "word number unit" holds a phrase the word starts with. */
  lemma LeadingPhrase(w: string, d: string, unit: string, phrase: string)
    requires StartsWith(w, phrase)
    ensures Contains(w + d + unit, phrase)
  {
    var rest := w[|phrase|..] + d + unit;
    ContainsInside("", phrase, rest);
    assert "" + phrase + rest == w + d + unit;
  }

  /** The "tới" rule: no "thỏa thuận", a "tới" and a first digit run d give (0, d million). */
  lemma UpToRule(s: string, d: string)
    requires s != "" && !Contains(Normalize(s), Negotiable) && Contains(Normalize(s), UpTo)
    requires |DigitRuns(Normalize(s))| > 0 && DigitRuns(Normalize(s))[0] == d
    ensures CleanSalary(Some(s)) == (0, ParseNat(d) * Million)
  {
  }

  /** The "trên" rule: no "thỏa thuận" or "tới", a "trên" and a first digit run d give (d million, 0). */
  lemma AboveRule(s: string, d: string)
    requires s != "" && !Contains(Normalize(s), Negotiable) && !Contains(Normalize(s), UpTo)
    requires Contains(Normalize(s), Above)
    requires |DigitRuns(Normalize(s))| > 0 && DigitRuns(Normalize(s))[0] == d
    ensures CleanSalary(Some(s)) == (ParseNat(d) * Million, 0)
  {
  }

  /** The range rule: none of the three phrases and digit runs d, e, ... give (d million, e million). */
  lemma RangeRule(s: string, d: string, e: string)
    requires s != "" && !Contains(Normalize(s), Negotiable) && !Contains(Normalize(s), UpTo)
    requires !Contains(Normalize(s), Above)
    requires |DigitRuns(Normalize(s))| >= 2 && DigitRuns(Normalize(s))[0] == d && DigitRuns(Normalize(s))[1] == e
    ensures CleanSalary(Some(s)) == (ParseNat(d) * Million, ParseNat(e) * Million)
  {
  }

  /** An "up to" word, a number n and a unit give (0, n million). */
  lemma {:induction false} UpToForm(word: string, w: string, unit: string, n: nat)
    requires Normalize(word) == w && Normalize(unit) == unit && NoDigits(w) && NoDigits(unit)
    requires StartsWith(w, UpTo) && Transparent(w, Negotiable) && !Contains(unit, Negotiable)
    ensures CleanSalary(Some(word + NatToString(n) + unit)) == (0, n * Million)
  {
    var d := NatToString(n);
    NormalizeNumberPhrase(word, w, d, unit);
    RunsNumberPhrase(w, d, unit);
    AbsentNumberPhrase(w, d, unit, Negotiable);
    LeadingPhrase(w, d, unit, UpTo);
    ParseNatToString(n);
    UpToRule(word + d + unit, d);
  }

  /** An "above" word, a number n and a unit give (n million, 0). */
  lemma {:induction false} AboveForm(word: string, w: string, unit: string, n: nat)
    requires Normalize(word) == w && Normalize(unit) == unit && NoDigits(w) && NoDigits(unit)
    requires StartsWith(w, Above) && Transparent(w, Negotiable) && !Contains(unit, Negotiable)
    requires Transparent(w, UpTo) && !Contains(unit, UpTo)
    ensures CleanSalary(Some(word + NatToString(n) + unit)) == (n * Million, 0)
  {
    var d := NatToString(n);
    NormalizeNumberPhrase(word, w, d, unit);
    RunsNumberPhrase(w, d, unit);
    AbsentNumberPhrase(w, d, unit, Negotiable);
    AbsentNumberPhrase(w, d, unit, UpTo);
    LeadingPhrase(w, d, unit, Above);
    ParseNatToString(n);
    AboveRule(word + d + unit, d);
  }

  /** "d sep e unit" is already normal when its words are. */
  lemma RangeNormal(d: string, sep: string, e: string, unit: string)
    requires Normalize(sep) == sep && Normalize(unit) == unit && AllDigits(d) && AllDigits(e)
    ensures Normalize(d + sep + e + unit) == d + sep + e + unit
  {
    NormalizeConcat(d, sep);
    NormalizeDigits(d);
    NormalizeNumberPhrase(d + sep, d + sep, e, unit);
  }

  /** The digit runs of "d sep e unit" are d, then e. */
  lemma RangeRuns(d: string, sep: string, e: string, unit: string)
    requires NoDigits(sep) && NoDigits(unit)
    requires |sep| > 0 && |d| > 0 && AllDigits(d) && |e| > 0 && AllDigits(e)
    ensures DigitRuns(d + sep + e + unit) == [d, e]
  {
    var rest := sep + e + unit;
    assert d + sep + e + unit == d + rest;
    RunsNumberPhrase(sep, e, unit);
    DigitRunsRun(d, rest);
  }

  /** A phrase absent from the words of "d sep e unit" is absent from the whole. */
  lemma RangeAbsent(d: string, sep: string, e: string, unit: string, phrase: string)
    requires |phrase| > 0 && !IsDigit(phrase[0]) && AllDigits(d) && AllDigits(e)
    requires Transparent(sep, phrase) && !Contains(unit, phrase)
    ensures !Contains(d + sep + e + unit, phrase)
  {
    AbsentNumberPhrase(sep, e, unit, phrase);
    assert d + sep + e + unit == d + (sep + e + unit);
    ContainsSkipNoHead(d, sep + e + unit, phrase);
  }

  /** "n sep m unit" with no key phrase anywhere gives (n million, m million). */
  lemma {:induction false} RangeForm(sep: string, unit: string, n: nat, m: nat)
    requires Normalize(sep) == sep && Normalize(unit) == unit && NoDigits(sep) && NoDigits(unit)
    requires |sep| > 0
    requires Transparent(sep, Negotiable) && Transparent(sep, UpTo) && Transparent(sep, Above)
    requires !Contains(unit, Negotiable) && !Contains(unit, UpTo) && !Contains(unit, Above)
    ensures CleanSalary(Some(NatToString(n) + sep + NatToString(m) + unit)) == (n * Million, m * Million)
  {
    var d, e := NatToString(n), NatToString(m);
    RangeNormal(d, sep, e, unit);
    RangeRuns(d, sep, e, unit);
    RangeAbsent(d, sep, e, unit, Negotiable);
    RangeAbsent(d, sep, e, unit, UpTo);
    RangeAbsent(d, sep, e, unit, Above);
    ParseNatToString(n);
    ParseNatToString(m);
    RangeRule(d + sep + e + unit, d, e);
  }

  // Facts about the literal words, one per lemma so that each stays small.

  lemma NegotiableWord()
    ensures Normalize("Thỏa thuận") == Negotiable
  {
    NormalizeTo("Thỏa thuận", Negotiable);
  }

  lemma MillionNormal()
    ensures Normalize(" triệu") == " triệu" && NoDigits(" triệu")
  {
    NormalizeTo(" triệu", " triệu");
  }

  lemma MillionNoNegotiable()
    ensures !Contains(" triệu", Negotiable)
  {
    NotContainsShort(" triệu", Negotiable);
  }

  lemma MillionNoUpTo()
    ensures !Contains(" triệu", UpTo)
  {
    assert " triệu" == " " + ("triệu" + "");
    assert "triệu"[1..] == "riệu";
    NotContainsShort("", UpTo);
    ContainsSkipNoHead(" ", "triệu" + "", UpTo);
    ContainsMismatch("triệu", "", UpTo, 1);
    ContainsSkipNoHead("riệu", "", UpTo);
  }

  lemma MillionNoAbove()
    ensures !Contains(" triệu", Above)
  {
    assert " triệu" == " " + ("triệu" + "");
    assert "triệu"[1..] == "riệu";
    NotContainsShort("", Above);
    ContainsSkipNoHead(" ", "triệu" + "", Above);
    ContainsMismatch("triệu", "", Above, 2);
    ContainsSkipNoHead("riệu", "", Above);
  }

  /** The unit word " triệu" (million) is already normal and holds none of the key phrases. */
  lemma MillionWord()
    ensures Normalize(" triệu") == " triệu" && NoDigits(" triệu")
    ensures !Contains(" triệu", Negotiable) && !Contains(" triệu", UpTo) && !Contains(" triệu", Above)
  {
    MillionNormal();
    MillionNoNegotiable();
    MillionNoUpTo();
    MillionNoAbove();
  }

  lemma UpToNormal()
    ensures Normalize("Tới ") == "tới " && NoDigits("tới ") && StartsWith("tới ", UpTo)
  {
    NormalizeTo("Tới ", "tới ");
  }

  lemma UpToSkipsNegotiable()
    ensures Transparent("tới ", Negotiable)
  {
    WordSkips("tới ", Negotiable, 1);
  }

  lemma AboveNormal()
    ensures Normalize("Trên ") == "trên " && NoDigits("trên ") && StartsWith("trên ", Above)
  {
    NormalizeTo("Trên ", "trên ");
  }

  lemma AboveSkipsNegotiable()
    ensures Transparent("trên ", Negotiable)
  {
    WordSkips("trên ", Negotiable, 1);
  }

  lemma AboveSkipsUpTo()
    ensures Transparent("trên ", UpTo)
  {
    WordSkips("trên ", UpTo, 1);
  }

  lemma DashNormal()
    ensures Normalize(" - ") == " - " && NoDigits(" - ")
  {
    NormalizeTo(" - ", " - ");
  }

  lemma DashSkips()
    ensures Transparent(" - ", Negotiable) && Transparent(" - ", UpTo) && Transparent(" - ", Above)
  {
    WordNoHead(" - ", Negotiable);
    WordNoHead(" - ", UpTo);
    WordNoHead(" - ", Above);
  }

  /** Text that mentions "Thỏa thuận" anywhere is negotiable, whatever numbers surround it. */
  lemma {:induction false} CleanSalaryNegotiable(a: string, b: string)
    ensures CleanSalary(Some(a + "Thỏa thuận" + b)) == (0, 0)
  {
    NormalizeConcat(a + "Thỏa thuận", b);
    NormalizeConcat(a, "Thỏa thuận");
    NegotiableWord();
    ContainsInside(Normalize(a), Negotiable, Normalize(b));
  }

  /** "Tới n triệu" (up to n million) is (0, n million). */
  lemma CleanSalaryUpTo(n: nat)
    ensures CleanSalary(Some("Tới " + NatToString(n) + " triệu")) == (0, n * Million)
  {
    MillionWord();
    UpToNormal();
    UpToSkipsNegotiable();
    UpToForm("Tới ", "tới ", " triệu", n);
  }

  /** "Trên n triệu" (above n million) is (n million, 0). */
  lemma CleanSalaryAbove(n: nat)
    ensures CleanSalary(Some("Trên " + NatToString(n) + " triệu")) == (n * Million, 0)
  {
    MillionWord();
    AboveNormal();
    AboveSkipsNegotiable();
    AboveSkipsUpTo();
    AboveForm("Trên ", "trên ", " triệu", n);
  }

  /** "n - m triệu" is the range (n million, m million), in the order written. */
  lemma CleanSalaryRange(n: nat, m: nat)
    ensures CleanSalary(Some(NatToString(n) + " - " + NatToString(m) + " triệu"))
         == (n * Million, m * Million)
  {
    MillionWord();
    DashNormal();
    DashSkips();
    RangeForm(" - ", " triệu", n, m);
  }

  // ---------------------------------------------------------------------------
  // calc_posted_date

  const Yesterday := "hôm qua"
  const DaysAgo := "ngày trước"
  const WeeksAgo := "tuần trước"

  /**
   * How many days back the lower-cased text points: "hôm qua" is 1, "N ngày trước" is N and
   * "N tuần trước" is 7·N, checked in that order, with N the first digit run; anything else is
   * 0. The two counted forms fail when the text holds no digits (`re.findall(...)[0]`).
   */
  function Delta(s: string): (r: Result<nat>)
    ensures r.Failure? ==> r.error == "list index out of range" && |DigitRuns(s)| == 0
    ensures !Contains(s, Yesterday) && !Contains(s, DaysAgo) && !Contains(s, WeeksAgo) ==> r == Success(0)
  {
    if Contains(s, Yesterday) then Success(1)
    else if Contains(s, DaysAgo) || Contains(s, WeeksAgo) then
      var nums := DigitRuns(s);
      if |nums| == 0 then Failure("list index out of range")
      else if Contains(s, DaysAgo) then Success(ParseNat(nums[0]))
      else Success(ParseNat(nums[0]) * 7)
    else Success(0)
  }

  /**
   * `calc_posted_date(text, extract_date_str)`. Computing the delta happens outside the `try`:
   * a NULL text (`None.lower()`) or a counted form without digits raises out of the call. The
   * parse and the subtraction happen inside it: a NULL or malformed extraction date, or a
   * result before 0001-01-01, gives `Success(None)`.
   */
  function CalcPostedDate(text: Option<string>, extractDate: Option<string>): (r: Result<Option<Date>>)
    ensures text.None? ==> r == Failure("'NoneType' object has no attribute 'lower'")
    ensures text.Some? ==> (r.Failure? <==> Delta(Lower(text.value)).Failure?)
    ensures r.Success? && r.value.Some? ==>
      text.Some? && Delta(Lower(text.value)).Success? &&
      extractDate.Some? && ParseDate(extractDate.value).Some? && Valid(r.value.value) &&
      Ordinal(ParseDate(extractDate.value).value) - Ordinal(r.value.value) == Delta(Lower(text.value)).value
    ensures (text.Some? && Delta(Lower(text.value)).Success? &&
             extractDate.Some? && ParseDate(extractDate.value).Some?) ==>
      (r == Success(None) <==> Delta(Lower(text.value)).value >= Ordinal(ParseDate(extractDate.value).value))
    ensures r.Success? && (extractDate.None? || ParseDate(extractDate.value).None?) ==> r == Success(None)
  {
    if text.None? then Failure("'NoneType' object has no attribute 'lower'")
    else
      match Delta(Lower(text.value))
      case Failure(e) => Failure(e)
      case Success(delta) =>
        if extractDate.None? then Success(None)
        else match ParseDate(extractDate.value)
          case None => Success(None)
          case Some(base) => Success(MinusDays(base, delta))
  }

  /** The counted rules: past "hôm qua", the first digit run d counts days or weeks. */
  lemma DaysAgoRule(s: string, d: string)
    requires !Contains(s, Yesterday) && Contains(s, DaysAgo)
    requires |DigitRuns(s)| > 0 && DigitRuns(s)[0] == d
    ensures Delta(s) == Success(ParseNat(d))
  {
  }

  lemma WeeksAgoRule(s: string, d: string)
    requires !Contains(s, Yesterday) && !Contains(s, DaysAgo) && Contains(s, WeeksAgo)
    requires |DigitRuns(s)| > 0 && DigitRuns(s)[0] == d
    ensures Delta(s) == Success(ParseNat(d) * 7)
  {
  }

  /** A number followed by a unit: lower-casing keeps it, and the number is the only run. */
  lemma CountedPhrase(unit: string, n: nat)
    requires Lower(unit) == unit && NoDigits(unit)
    ensures Lower(NatToString(n) + unit) == NatToString(n) + unit
    ensures DigitRuns(NatToString(n) + unit) == [NatToString(n)]
    ensures ParseNat(NatToString(n)) == n
  {
    var d := NatToString(n);
    LowerConcat(d, unit);
    LowerDigits(d);
    RunsNumberPhrase("", d, unit);
    assert "" + d + unit == d + unit;
    ParseNatToString(n);
  }

  /** "N unit", where the unit says "ngày trước" but not "hôm qua", is N days back. */
  lemma {:induction false} DaysAgoForm(unit: string, n: nat)
    requires Lower(unit) == unit && NoDigits(unit)
    requires !Contains(unit, Yesterday) && Contains(unit, DaysAgo)
    ensures Delta(Lower(NatToString(n) + unit)) == Success(n)
  {
    var d := NatToString(n);
    CountedPhrase(unit, n);
    ContainsSkipNoHead(d, unit, Yesterday);
    ContainsSkipNoHead(d, unit, DaysAgo);
    DaysAgoRule(d + unit, d);
  }

  /** "N unit", where the unit says "tuần trước" and neither earlier form, is 7·N days back. */
  lemma {:induction false} WeeksAgoForm(unit: string, n: nat)
    requires Lower(unit) == unit && NoDigits(unit)
    requires !Contains(unit, Yesterday) && !Contains(unit, DaysAgo) && Contains(unit, WeeksAgo)
    ensures Delta(Lower(NatToString(n) + unit)) == Success(7 * n)
  {
    var d := NatToString(n);
    CountedPhrase(unit, n);
    ContainsSkipNoHead(d, unit, Yesterday);
    ContainsSkipNoHead(d, unit, DaysAgo);
    ContainsSkipNoHead(d, unit, WeeksAgo);
    WeeksAgoRule(d + unit, d);
  }

  /** Once the delta is known, a well-formed extraction date is moved back by it. */
  lemma PostedForm(text: string, extracted: Date, delta: nat)
    requires Valid(extracted) && Delta(Lower(text)) == Success(delta)
    ensures CalcPostedDate(Some(text), Some(FormatDate(extracted))) == Success(MinusDays(extracted, delta))
  {
    ParseFormatDate(extracted);
  }

  lemma DaysUnitLower()
    ensures Lower(" ngày trước") == " ngày trước" && NoDigits(" ngày trước")
  {
    LowerFixed(" ngày trước");
  }

  lemma DaysUnitNoYesterday()
    ensures !Contains(" ngày trước", Yesterday)
  {
    ContainsSkipNoHead(" ngày trước", "", Yesterday);
    NotContainsShort("", Yesterday);
    assert " ngày trước" + "" == " ngày trước";
  }

  lemma DaysUnitDays()
    ensures Contains(" ngày trước", DaysAgo)
  {
    ContainsInside(" ", DaysAgo, "");
    assert " " + DaysAgo + "" == " ngày trước";
  }

  lemma WeeksUnitLower()
    ensures Lower(" tuần trước") == " tuần trước" && NoDigits(" tuần trước")
  {
    LowerFixed(" tuần trước");
  }

  lemma WeeksUnitNoYesterday()
    ensures !Contains(" tuần trước", Yesterday)
  {
    var unit := " tuần trước";
    ContainsSkipNoHead(unit, "", Yesterday);
    NotContainsShort("", Yesterday);
    assert unit + "" == unit;
  }

  lemma WeeksUnitNoDays()
    ensures !Contains(" tuần trước", DaysAgo)
  {
    assert " tuần trước" == " tuầ" + ("n trước" + "");
    assert "n trước"[1..] == " trước";
    ContainsSkipNoHead(" tuầ", "n trước" + "", DaysAgo);
    ContainsMismatch("n trước", "", DaysAgo, 1);
    ContainsSkipNoHead(" trước", "", DaysAgo);
    NotContainsShort("", DaysAgo);
  }

  lemma WeeksUnitWeeks()
    ensures Contains(" tuần trước", WeeksAgo)
  {
    ContainsInside(" ", WeeksAgo, "");
    assert " " + WeeksAgo + "" == " tuần trước";
  }

  lemma YesterdayWord()
    ensures Lower("Hôm qua") == Yesterday && Contains(Yesterday, Yesterday)
  {
    assert Lower("Hôm qua") == Yesterday;
    ContainsInside("", Yesterday, "");
    assert "" + Yesterday + "" == Yesterday;
  }

  /** "N ngày trước" resolves to N days before the extraction date. */
  lemma PostedDaysAgo(n: nat, extracted: Date)
    requires Valid(extracted)
    ensures CalcPostedDate(Some(NatToString(n) + " ngày trước"), Some(FormatDate(extracted)))
         == Success(MinusDays(extracted, n))
  {
    DaysUnitLower();
    DaysUnitNoYesterday();
    DaysUnitDays();
    DaysAgoForm(" ngày trước", n);
    PostedForm(NatToString(n) + " ngày trước", extracted, n);
  }

  /** "N tuần trước" resolves to 7·N days before the extraction date. */
  lemma PostedWeeksAgo(n: nat, extracted: Date)
    requires Valid(extracted)
    ensures CalcPostedDate(Some(NatToString(n) + " tuần trước"), Some(FormatDate(extracted)))
         == Success(MinusDays(extracted, 7 * n))
  {
    WeeksUnitLower();
    WeeksUnitNoYesterday();
    WeeksUnitNoDays();
    WeeksUnitWeeks();
    WeeksAgoForm(" tuần trước", n);
    PostedForm(NatToString(n) + " tuần trước", extracted, 7 * n);
  }

  /** "Hôm qua" (yesterday) resolves to the day before the extraction date. */
  lemma PostedYesterday(extracted: Date)
    requires Valid(extracted)
    ensures CalcPostedDate(Some("Hôm qua"), Some(FormatDate(extracted))) == Success(MinusDays(extracted, 1))
  {
    YesterdayWord();
    PostedForm("Hôm qua", extracted, 1);
  }

  /** Text that names none of the three forms resolves to the extraction date itself. */
  lemma PostedUnrecognized(text: string, extracted: Date)
    requires Valid(extracted)
    requires !Contains(Lower(text), Yesterday) && !Contains(Lower(text), DaysAgo)
    requires !Contains(Lower(text), WeeksAgo)
    ensures CalcPostedDate(Some(text), Some(FormatDate(extracted))) == Success(Some(extracted))
  {
    PostedForm(text, extracted, 0);
  }
}
