/** The +685 script: one row is checked and normalised (missing email first,
    then USPCID, USCLID, email format, mobile, date of birth) and routed to
    the clean or the error file. */
module SmValidation {
  import opened Wrappers
  import opened Text
  import opened Email
  import opened Dates
  import opened Audit
  import opened Rows
  import opened Mobile
  import opened Router

  /** The error, if any, one identifier column earns: the "missing" reason
      when it is required and empty, otherwise the "special characters"
      reason when it is not empty and not alphanumeric. */
  function IdentifierErrors(required: bool, value: string, missing: string, special: string): (r: seq<string>)
    ensures |r| <= 1
    ensures r == [] <==> (value == [] ==> !required) && (value != [] ==> IsAlnum(value))
    ensures required && value == [] ==> r == [missing]
    ensures value != [] && !IsAlnum(value) ==> r == [special]
  {
    if required && value == [] then [missing]
    else if value != [] && !IsAlnum(value) then [special]
    else []
  }

  /** The format check of a present email: one error when the pattern
      rejects it, none for an empty value. */
  function EmailFormatErrors(email: string): (r: seq<string>)
    ensures r == [] <==> email == [] || EmailPattern(email)
    ensures r != [] ==> r == ["invalid email address"]
  {
    if email != [] && !ValidateEmail(email) then ["invalid email address"] else []
  }

  /** The patterns tried for the date of birth, in order. */
  const DobStyles: seq<YearStyle> := [FourDigitYear, TwoDigitYear]

  /** Trying "%d/%m/%Y" and then "%d/%m/%y" finds the four-digit reading when
      there is one and the two-digit reading otherwise. */
  lemma FirstParseOfTwo(dob: string)
    ensures FirstParse(dob, DobStyles) == if ParseDate(dob, FourDigitYear).Some? then ParseDate(dob, FourDigitYear)
                                          else ParseDate(dob, TwoDigitYear)
  {
    var rest := DobStyles[1..];
    assert rest == [TwoDigitYear] && rest[1..] == [];
    assert FirstParse(dob, rest[1..]) == None;
    assert FirstParse(dob, rest) == ParseDate(dob, TwoDigitYear);
  }

  /** The date-of-birth rule: always required; the first pattern that parses
      decides, the value is rewritten as dd/mm/yyyy and a change is logged
      when the text differs; a value no pattern accepts is an error that
      quotes it. */
  function CheckDob(uspcid: string, usclid: string, dob: string): (v: FieldVerdict)
    ensures |v.errors| <= 1 && |v.events| <= 1
    ensures v.errors == [] <==> v.update.Some?
    ensures v.errors == [] <==> dob != [] && (Canonical(dob, FourDigitYear).Some? || Canonical(dob, TwoDigitYear).Some?)
    ensures dob == [] ==> v.errors == ["missing date of birth"]
    ensures dob != [] && v.update.None? ==> v.errors == ["invalid date of birth format: " + dob]
    ensures v.update.Some? ==> v.update == if Canonical(dob, FourDigitYear).Some? then Canonical(dob, FourDigitYear)
                                           else Canonical(dob, TwoDigitYear)
    ensures v.update.Some? ==> Canonical(v.update.value, FourDigitYear) == v.update
    ensures v.update.Some? ==> (v.events == [] <==> v.update.value == dob)
    ensures v.events != [] ==> v.update.Some? && v.events == [DobChanged(uspcid, usclid, dob, v.update.value)]
  {
    if dob == [] then FieldVerdict(None, ["missing date of birth"], [])
    else
      FirstParseOfTwo(dob);
      match FirstParse(dob, DobStyles)
      case None =>
        FieldVerdict(None, ["invalid date of birth format: " + dob], [])
      case Some(d) =>
        var formatted := FormatDate(d);
        FormatThenParse(d);
        FieldVerdict(Some(formatted), [], if formatted != dob then [DobChanged(uspcid, usclid, dob, formatted)] else [])
  }

  /** The date-of-birth block of the loop body: the loop over the two
      patterns, then the rewrite and its log line, or the error. */
  method CleanDob(uspcid: string, usclid: string, dobStr: string)
    returns (update: Option<string>, errors: seq<string>, events: seq<LogEvent>)
    ensures FieldVerdict(update, errors, events) == CheckDob(uspcid, usclid, dobStr)
  {
    update := None;
    errors := [];
    events := [];
    if dobStr == [] {
      errors := ["missing date of birth"];
      return;
    }
    var dob := ParseFirst(dobStr, [FourDigitYear, TwoDigitYear]);
    if dob.Some? {
      var formatted := FormatDate(dob.value);
      if formatted != dobStr {
        events := [DobChanged(uspcid, usclid, dobStr, formatted)];
      }
      update := Some(formatted);
    } else {
      errors := ["invalid date of birth format: " + dobStr];
    }
  }

  /** The values a log line names a row by: the raw USPCID and USCLID cells,
      with a placeholder when the column is absent. */
  function LogUspcid(row: map<string, string>): string {
    Get(row, "USPCID", "[MISSING USPCID]")
  }

  function LogUsclid(row: map<string, string>): string {
    Get(row, "USCLID", "[MISSING USCLID]")
  }

  /** The short-circuit condition: email is required and its stripped value
      is empty. */
  predicate EmailMissing(rules: Rules, row: map<string, string>) {
    rules.emailAdd && Strip(Get(row, "email_add", "")) == []
  }

  /** The reasons the two identifier checks add, USPCID first. */
  function SmIdErrors(rules: Rules, row: map<string, string>): seq<string> {
    IdentifierErrors(rules.uspcid, Strip(Get(row, "USPCID", "")), "missing USPCID", "USPCID contains special characters")
    + IdentifierErrors(rules.usclid, Strip(Get(row, "USCLID", "")), "missing USCLID", "USCLID contains special characters")
  }

  /** The mobile rule on the row's stripped Mobile_no value. */
  function SmMobile(row: map<string, string>): FieldVerdict {
    CheckMobile(SmLocale, LogUspcid(row), LogUsclid(row), Strip(Get(row, "Mobile_no", "")))
  }

  /** The date-of-birth rule on the row's stripped DOB value. */
  function SmDob(row: map<string, string>): FieldVerdict {
    CheckDob(LogUspcid(row), LogUsclid(row), Strip(Get(row, "DOB", "")))
  }

  /** What row i (counted from 1), as a dictionary keyed by the renamed
      header, comes to: with a required email that is empty, the row goes to
      the error file untouched with the one reason "missing email address";
      otherwise the identifier, email, mobile and date-of-birth rules run in
      that order. */
  function Outcome(rules: Rules, row: map<string, string>, i: nat): RowOutcome {
    if EmailMissing(rules, row) then
      RowOutcome(row, ["missing email address"], [MissingEmailMoved(i, Lookup(row, "USPCID"))])
    else
      RowOutcome(Apply(Apply(row, "Mobile_no", SmMobile(row).update), "DOB", SmDob(row).update),
                 SmIdErrors(rules, row) + EmailFormatErrors(Strip(Get(row, "email_add", ""))) + SmMobile(row).errors + SmDob(row).errors,
                 SmMobile(row).events + SmDob(row).events)
  }

  /** The loop body of the script after the row dictionary is built: checks
      the fields in order, overwrites Mobile_no and DOB in place and appends the
      error reasons and log events as it goes. */
  method ValidateRow(rules: Rules, row: map<string, string>, i: nat)
    returns (rowData: map<string, string>, errors: seq<string>, events: seq<LogEvent>)
    ensures RowOutcome(rowData, errors, events) == Outcome(rules, row, i)
  {
    rowData := row;

    var email := Strip(Get(rowData, "email_add", ""));
    if rules.emailAdd && email == [] {
      errors := ["missing email address"];
      events := [MissingEmailMoved(i, Lookup(rowData, "USPCID"))];
      return;
    }

    var logUspcid := Get(rowData, "USPCID", "[MISSING USPCID]");
    var logUsclid := Get(rowData, "USCLID", "[MISSING USCLID]");

    errors := IdentifierErrors(rules.uspcid, Strip(Get(rowData, "USPCID", "")),
                               "missing USPCID", "USPCID contains special characters");
    errors := errors + IdentifierErrors(rules.usclid, Strip(Get(rowData, "USCLID", "")),
                                        "missing USCLID", "USCLID contains special characters");
    errors := errors + EmailFormatErrors(email);

    var mobile, mobileErrors, mobileEvents := CleanMobile(SmLocale, logUspcid, logUsclid, Strip(Get(rowData, "Mobile_no", "")));
    if mobile.Some? {
      rowData := rowData["Mobile_no" := mobile.value];
    }
    errors := errors + mobileErrors;
    events := mobileEvents;

    // Only Mobile_no has been overwritten so far, so DOB still reads as built.
    var dob, dobErrors, dobEvents := CleanDob(logUspcid, logUsclid, Strip(Get(row, "DOB", "")));
    if dob.Some? {
      rowData := rowData["DOB" := dob.value];
    }
    errors := errors + dobErrors;
    events := events + dobEvents;
  }

  /** The outcome of every data row, numbered from 1. */
  function Outcomes(rules: Rules, dicts: seq<map<string, string>>): seq<RowOutcome> {
    seq(|dicts|, k requires 0 <= k < |dicts| => Outcome(rules, dicts[k], k + 1))
  }

  /** Validates the k-th row dictionary, numbered k + 1 in the log. */
  method ValidateAt(rules: Rules, dicts: seq<map<string, string>>, k: nat) returns (o: RowOutcome)
    requires k < |dicts|
    ensures o == Outcomes(rules, dicts)[k]
  {
    var rowData, errors, events := ValidateRow(rules, dicts[k], k + 1);
    o := RowOutcome(rowData, errors, events);
  }

  /** The script's main loop over the row dictionaries, validation half:
      every row's outcome, in order. */
  method ValidateAll(rules: Rules, dicts: seq<map<string, string>>) returns (os: seq<RowOutcome>)
    ensures os == Outcomes(rules, dicts)
  {
    os := [];
    var k := 0;
    while k < |dicts|
      invariant 0 <= k <= |dicts|
      invariant os == Outcomes(rules, dicts)[..k]
    {
      var o := ValidateAt(rules, dicts, k);
      PrefixStep(Outcomes(rules, dicts), k);
      os := os + [o];
      k := k + 1;
    }
  }

  /** The script's main loop: validates every row and routes it to the clean
      or the error file, in order, then writes the finish marker. */
  method Process(header: seq<string>, renamed: seq<string>, rules: Rules, dicts: seq<map<string, string>>)
    returns (out: Outputs)
    ensures fresh(out)
    ensures out.Snapshot() == Publish(header, renamed, Outcomes(rules, dicts))
  {
    var os := ValidateAll(rules, dicts);
    out := WriteAll(header, renamed, os);
  }

  /** The whole script on a header and its data rows: the header is renamed,
      every row becomes a dictionary keyed by the renamed header, and the
      rows are processed in order. */
  method Run(header: seq<string>, rules: Rules, rows: seq<seq<string>>) returns (out: Outputs)
    ensures fresh(out)
    ensures out.Snapshot() == Publish(header, RenameHeader(SmRenames, header),
                                      Outcomes(rules, RowDicts(RenameHeader(SmRenames, header), rows)))
  {
    var renamed := RenameHeader(SmRenames, header);
    out := Process(header, renamed, rules, RowDicts(renamed, rows));
  }

  /** A required email that is empty sends the row, untouched, to the error
      file with the single reason "missing email address", logs only that
      move, and runs no other rule. */
  lemma MissingEmailShortCircuit(rules: Rules, renamed: seq<string>, row: map<string, string>, i: nat)
    requires EmailMissing(rules, row)
    ensures Outcome(rules, row, i) == RowOutcome(row, ["missing email address"], [MissingEmailMoved(i, Lookup(row, "USPCID"))])
    ensures RouteRow(renamed, Outcome(rules, row, i)) == Routing([], [Project(row, renamed) + ["missing email address"]])
  {
  }

  /** The identifier checks: present when required, alphanumeric when
      present. */
  ghost predicate SmIdsPass(rules: Rules, row: map<string, string>) {
    var uspcid := Strip(Get(row, "USPCID", ""));
    var usclid := Strip(Get(row, "USCLID", ""));
    (uspcid == [] ==> !rules.uspcid) && (uspcid != [] ==> IsAlnum(uspcid))
    && (usclid == [] ==> !rules.usclid) && (usclid != [] ==> IsAlnum(usclid))
  }

  /** The mobile check: empty, or "0" once the prefix is off, or seven
      digits once the prefix is off. */
  ghost predicate SmMobilePasses(row: map<string, string>) {
    var mobile := Strip(Get(row, "Mobile_no", ""));
    var number := StripCountryCode(SmLocale, mobile);
    mobile == [] || number == "0" || (IsDigits(number) && |number| == 7)
  }

  /** The date-of-birth check: present, and parsed with a four- or a
      two-digit year. */
  ghost predicate SmDobPasses(row: map<string, string>) {
    var dob := Strip(Get(row, "DOB", ""));
    dob != [] && (Canonical(dob, FourDigitYear).Some? || Canonical(dob, TwoDigitYear).Some?)
  }

  /** Which rows reach the clean file, field by field: a required email is
      present, the identifiers pass, a present email fits the pattern, and
      the mobile and the date of birth pass. */
  ghost predicate SmRowPasses(rules: Rules, row: map<string, string>) {
    var email := Strip(Get(row, "email_add", ""));
    (rules.emailAdd ==> email != [])
    && SmIdsPass(rules, row)
    && (email == [] || EmailPattern(email))
    && SmMobilePasses(row)
    && SmDobPasses(row)
  }

  lemma SmIdErrorsExactly(rules: Rules, row: map<string, string>)
    ensures SmIdErrors(rules, row) == [] <==> SmIdsPass(rules, row)
  {
  }

  lemma SmMobileExactly(row: map<string, string>)
    ensures SmMobile(row).errors == [] <==> SmMobilePasses(row)
  {
    SmMobileErrors(LogUspcid(row), LogUsclid(row), Strip(Get(row, "Mobile_no", "")));
  }

  /** A row goes to the clean file exactly when every field passes. */
  lemma SmCleanExactly(rules: Rules, row: map<string, string>, i: nat)
    ensures Outcome(rules, row, i).errors == [] <==> SmRowPasses(rules, row)
  {
    if !EmailMissing(rules, row) {
      NoReasons(SmIdErrors(rules, row), EmailFormatErrors(Strip(Get(row, "email_add", ""))), SmMobile(row).errors, SmDob(row).errors);
      SmIdErrorsExactly(rules, row);
      SmMobileExactly(row);
    }
  }

  /** Past the email short-circuit, the row leaves as the row with the
      mobile and then the date-of-birth update stored, key by key. */
  lemma SmOutcomeAt(rules: Rules, row: map<string, string>, i: nat, key: string)
    requires !EmailMissing(rules, row)
    ensures var r := Apply(Apply(row, "Mobile_no", SmMobile(row).update), "DOB", SmDob(row).update);
            (key in Outcome(rules, row, i).row <==> key in r) && (key in r ==> Outcome(rules, row, i).row[key] == r[key])
  {
  }

  /** A rule only stores a value it read from a column that is there. */
  lemma SmUpdatesPresent(row: map<string, string>)
    ensures SmMobile(row).update.Some? ==> "Mobile_no" in row
    ensures SmDob(row).update.Some? ==> "DOB" in row
  {
    AbsentIsEmpty(row, "Mobile_no");
    AbsentIsEmpty(row, "DOB");
  }

  /** The rewrites keep the row's columns: no key is added or dropped. */
  lemma SmRowKeysKept(rules: Rules, row: map<string, string>, i: nat, key: string)
    ensures key in Outcome(rules, row, i).row <==> key in row
  {
    if !EmailMissing(rules, row) {
      SmOutcomeAt(rules, row, i, key);
      SmUpdatesPresent(row);
      ApplyAt(row, "Mobile_no", SmMobile(row).update, key);
      ApplyAt(Apply(row, "Mobile_no", SmMobile(row).update), "DOB", SmDob(row).update, key);
    }
  }

  /** Every column other than Mobile_no and DOB keeps its value. */
  lemma SmOtherColumnsKept(rules: Rules, row: map<string, string>, i: nat, key: string)
    requires key in row && key != "Mobile_no" && key != "DOB"
    ensures key in Outcome(rules, row, i).row && Outcome(rules, row, i).row[key] == row[key]
  {
    if !EmailMissing(rules, row) {
      SmOutcomeAt(rules, row, i, key);
      ApplyAt(row, "Mobile_no", SmMobile(row).update, key);
      ApplyAt(Apply(row, "Mobile_no", SmMobile(row).update), "DOB", SmDob(row).update, key);
    }
  }

  /** A clean row leaves with its date of birth in canonical dd/mm/yyyy
      form, one that reads back as itself. */
  lemma SmCleanDobCanonical(rules: Rules, row: map<string, string>, i: nat)
    requires Outcome(rules, row, i).errors == []
    ensures "DOB" in Outcome(rules, row, i).row
    ensures var dob := Outcome(rules, row, i).row["DOB"];
            Canonical(dob, FourDigitYear) == Some(dob)
  {
    assert !EmailMissing(rules, row);
    NoReasons(SmIdErrors(rules, row), EmailFormatErrors(Strip(Get(row, "email_add", ""))), SmMobile(row).errors, SmDob(row).errors);
    SmOutcomeAt(rules, row, i, "DOB");
    ApplyAt(Apply(row, "Mobile_no", SmMobile(row).update), "DOB", SmDob(row).update, "DOB");
  }

  /** A mobile number written "+685 " followed by seven digits starting with
      1 is rewritten to the digits and passes, but the log holds a warning
      for the first digit after the change: a leading 1 is outside the
      expected ranges. */
  lemma SmPrefixedMobile(uspcid: string, usclid: string, number: string)
    requires IsDigits(number) && |number| == 7 && number[0] == '1'
    ensures var mobile := SmLocale.plusPrefix + (" " + number);
            CheckMobile(SmLocale, uspcid, usclid, mobile)
            == FieldVerdict(Some(number), [], [MobileChanged(uspcid, usclid, mobile, number),
                                               OutsideExpectedRanges(uspcid, usclid, number)])
  {
    assert LeadingDigitEvents(SmLocale, uspcid, usclid, number) == [OutsideExpectedRanges(uspcid, usclid, number)] by {
      assert number[0] in "0178" by {
        assert "0178"[1] == '1';
      }
      SmLeadingDigit(uspcid, usclid, number);
    }
    LocalesArePrefixPairs();
    PrefixedNumber(SmLocale, uspcid, usclid, number);
  }

}
