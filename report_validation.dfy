/** Validation of a report request: a date-range report needs two dates in
    "Y-m-d" form with the end not before the start, a monthly report needs a
    "Y-m" period, and a daily report needs nothing more. */
module ReportValidation {
  import opened Common
  import opened Dates

  type Errors = map<string, seq<string>>

  datatype GenerateReportRequest = GenerateReportRequest(
    reportType: string, startDate: string, endDate: string, periode: string)

  const START_REQUIRED := "The start date is required for custom date range report."
  const START_FORMAT := "The start date must be in format Y-m-d."
  const END_REQUIRED := "The end date is required for custom date range report."
  const END_FORMAT := "The end date must be in format Y-m-d."
  const END_BEFORE_START := "The end date must be after or equal to start date."
  const PERIODE_REQUIRED := "The periode (month) is required for monthly report."
  const PERIODE_FORMAT := "The periode must be in format Y-m."

  /** The message a date field gets, if any. */
  function DateFieldError(value: string, required: string, format: string): Option<string>
  {
    if value == "" then Some(required)
    else if !MatchesDayPattern(value) then Some(format)
    else None
  }

  /** Both dates in "Y-m-d" form and the end not before the start. */
  predicate DateRangeValid(p: GenerateReportRequest)
  {
    MatchesDayPattern(p.startDate) && MatchesDayPattern(p.endDate)
    && !Before(ParseYMDOrZero(p.endDate), ParseYMDOrZero(p.startDate))
  }

  /** validateDateRange on the shared errors map: the two field checks, then
      the ordering check only when the map is still empty, with the parse
      errors of that step ignored. */
  method ValidateDateRange(p: GenerateReportRequest, errs: Errors) returns (out: Errors)
    ensures forall k :: k in errs && k != "start_date" && k != "end_date" ==> k in out && out[k] == errs[k]
    ensures out.Keys <= errs.Keys + {"start_date", "end_date"}
    ensures p.startDate == "" ==> "start_date" in out && out["start_date"] == [START_REQUIRED]
    ensures p.startDate != "" && !MatchesDayPattern(p.startDate) ==> "start_date" in out && out["start_date"] == [START_FORMAT]
    ensures p.endDate == "" ==> "end_date" in out && out["end_date"] == [END_REQUIRED]
    ensures p.endDate != "" && !MatchesDayPattern(p.endDate) ==> "end_date" in out && out["end_date"] == [END_FORMAT]
    ensures errs == map[] ==> (out == map[] <==> DateRangeValid(p))
    ensures DateFieldError(p.startDate, START_REQUIRED, START_FORMAT).None? ==>
              ("start_date" in out <==> "start_date" in errs) && ("start_date" in errs ==> out["start_date"] == errs["start_date"])
    ensures var ordered := errs == map[]
                           && DateFieldError(p.startDate, START_REQUIRED, START_FORMAT).None?
                           && DateFieldError(p.endDate, END_REQUIRED, END_FORMAT).None?;
            ordered ==>
              ("start_date" !in out)
              && ("end_date" in out <==> Before(ParseYMDOrZero(p.endDate), ParseYMDOrZero(p.startDate)))
              && ("end_date" in out ==> out["end_date"] == [END_BEFORE_START])
    ensures DateFieldError(p.endDate, END_REQUIRED, END_FORMAT).None? && errs != map[] ==>
              ("end_date" in out <==> "end_date" in errs) && ("end_date" in errs ==> out["end_date"] == errs["end_date"])
  {
    out := errs;
    if p.startDate == "" {
      out := out["start_date" := [START_REQUIRED]];
    } else if !MatchesDayPattern(p.startDate) {
      out := out["start_date" := [START_FORMAT]];
    }
    if p.endDate == "" {
      out := out["end_date" := [END_REQUIRED]];
    } else if !MatchesDayPattern(p.endDate) {
      out := out["end_date" := [END_FORMAT]];
    }
    if |out| == 0 {
      var start := ParseYMDOrZero(p.startDate);
      var end := ParseYMDOrZero(p.endDate);
      if Before(end, start) {
        out := out["end_date" := [END_BEFORE_START]];
      }
    }
  }

  /** validateMonthly on the shared errors map. */
  method ValidateMonthly(p: GenerateReportRequest, errs: Errors) returns (out: Errors)
    ensures forall k :: k in errs && k != "periode" ==> k in out && out[k] == errs[k]
    ensures out.Keys <= errs.Keys + {"periode"}
    ensures p.periode == "" ==> "periode" in out && out["periode"] == [PERIODE_REQUIRED]
    ensures p.periode != "" && !MatchesMonthPattern(p.periode) ==> "periode" in out && out["periode"] == [PERIODE_FORMAT]
    ensures p.periode != "" && MatchesMonthPattern(p.periode) ==> out == errs
  {
    out := errs;
    if p.periode == "" {
      out := out["periode" := [PERIODE_REQUIRED]];
    } else if !MatchesMonthPattern(p.periode) {
      out := out["periode" := [PERIODE_FORMAT]];
    }
  }

  /** What validate accepts: the type-specific checks of the chosen report. */
  predicate ReportValid(p: GenerateReportRequest)
  {
    (p.reportType == "date_range" ==> DateRangeValid(p))
    && (p.reportType == "monthly" ==> MatchesMonthPattern(p.periode))
  }

  /** validate: the rule checker's errors (an input here) when it reports any,
      otherwise the type-specific errors, and nothing exactly when there are none. */
  method Validate(p: GenerateReportRequest, ruleErrors: Option<Errors>) returns (r: Option<Errors>)
    ensures ruleErrors.Some? ==> r == ruleErrors
    ensures ruleErrors.None? ==> (r.None? <==> ReportValid(p))
    ensures ruleErrors.None? && r.Some? ==> |r.value| > 0
    ensures ruleErrors.None? && p.reportType != "date_range" && p.reportType != "monthly" ==> r.None?
  {
    if ruleErrors.Some? {
      return ruleErrors;
    }
    var validationErrs: Errors := map[];
    if p.reportType == "date_range" {
      validationErrs := ValidateDateRange(p, validationErrs);
    }
    if p.reportType == "monthly" {
      validationErrs := ValidateMonthly(p, validationErrs);
    }
    if |validationErrs| > 0 {
      return Some(validationErrs);
    }
    return None;
  }

  /** Equal dates pass the ordering check. */
  lemma SameDayAllowed(d: Date)
    ensures !Before(d, d)
  {
  }

  /** A well-formed date naming a month past 12 does not parse; the ordering
      check then compares Go's zero date (year 1), so such an end date is
      reported as before any real start date, and such a start date as
      before any end date. */
  lemma {:induction false} BadMonthReadsAsZero(s: string, other: Date)
    requires MatchesDayPattern(s) && DigitsValue(s[5..7]) > 12 && other.year > 1
    ensures ParseYMDOrZero(s) == ZeroDate
    ensures Before(ParseYMDOrZero(s), other) && !Before(other, ParseYMDOrZero(s))
  {
  }
}
