/** The +682 script: one row is checked and normalised (identifiers, email,
    mobile, account number, date of birth, every check always run) and
    routed to the clean or the error file. */
module DataValidation {
  import opened Wrappers
  import opened Text
  import opened Email
  import opened Dates
  import opened Audit
  import opened Rows
  import opened Mobile
  import opened Router

  /** The identifier both "uspcid" and "usclid" hold: each is read from the
      USPCID column and stripped, so the two are always the same value, and
      the log names a row by it twice. */
  function IdValue(row: map<string, string>): string {
    Strip(Get(row, "USPCID", ""))
  }

  /** One "missing" check: the reason when the field is required and empty. */
  function MissingIdError(required: bool, value: string, reason: string): (r: seq<string>)
    ensures r == [] <==> !required || value != []
    ensures r != [] ==> r == [reason]
  {
    if required && value == [] then [reason] else []
  }

  /** The two identifier checks: both test the USPCID value against the
      USCLID rule, so the two reasons come together or not at all, and no
      special-character check is made. */
  function DataIdErrors(rules: Rules, id: string): (r: seq<string>)
    ensures r != [] <==> rules.usclid && id == []
    ensures r != [] ==> |r| == 2 && r[0] == "missing USPCID" && r[1] == "missing USCLID"
  {
    MissingIdError(rules.usclid, id, "missing USPCID")
    + MissingIdError(rules.usclid, id, "missing USCLID")
  }

  /** The email check: a required email that is empty is "missing", a
      present one that the pattern rejects is "invalid", and nothing stops
      the checks that follow. */
  function EmailErrors(required: bool, email: string): (r: seq<string>)
    ensures |r| <= 1
    ensures r == [] <==> (email == [] ==> !required) && (email != [] ==> EmailPattern(email))
    ensures required && email == [] ==> r == ["missing email address"]
    ensures email != [] && !EmailPattern(email) ==> r == ["invalid email address"]
  {
    if required && email == [] then ["missing email address"]
    else if email != [] && !ValidateEmail(email) then ["invalid email address"]
    else []
  }

  /** The account-number rule on the stripped Acc_no value: empty, not all
      digits and longer than ten digits are three distinct errors; a shorter
      number is padded with '0' on the left to ten digits, stored back and
      logged; exactly ten digits are kept as they are. */
  function CheckAccount(uspcid: string, usclid: string, acc: string): (v: FieldVerdict)
    ensures |v.errors| <= 1
    ensures v.errors == [] <==> IsDigits(acc) && |acc| <= 10
    ensures acc == [] ==> v.errors == ["invalid account"]
    ensures acc != [] && !IsDigits(acc) ==> v.errors == ["invalid account number format"]
    ensures IsDigits(acc) && |acc| > 10 ==> v.errors == ["invalid account number length"]
    ensures v.update.Some? <==> IsDigits(acc) && |acc| < 10
    ensures v.update.Some? ==> var padded := v.update.value;
              |padded| == 10 && IsDigits(padded) && padded[10 - |acc|..] == acc
              && (forall k :: 0 <= k < 10 - |acc| ==> padded[k] == '0')
              && DecimalValue(padded) == DecimalValue(acc)
    ensures v.events == if v.update.Some? then [AccountPadded(uspcid, usclid, acc, v.update.value)] else []
  {
    if acc == [] then FieldVerdict(None, ["invalid account"], [])
    else if !IsDigits(acc) then FieldVerdict(None, ["invalid account number format"], [])
    else if |acc| > 10 then FieldVerdict(None, ["invalid account number length"], [])
    else if |acc| < 10 then
      var padded := ZFill(acc, 10);
      ZFillKeepsValue(acc, 10);
      FieldVerdict(Some(padded), [], [AccountPadded(uspcid, usclid, acc, padded)])
    else FieldVerdict(None, [], [])
  }

  /** The account block of the loop body. */
  method CleanAccount(uspcid: string, usclid: string, accNo: string)
    returns (update: Option<string>, errors: seq<string>, events: seq<LogEvent>)
    ensures FieldVerdict(update, errors, events) == CheckAccount(uspcid, usclid, accNo)
  {
    update := None;
    errors := [];
    events := [];
    if accNo == [] {
      errors := ["invalid account"];
    } else if !IsDigits(accNo) {
      errors := ["invalid account number format"];
    } else if |accNo| > 10 {
      errors := ["invalid account number length"];
    } else if |accNo| < 10 {
      var padded := ZFill(accNo, 10);
      update := Some(padded);
      events := [AccountPadded(uspcid, usclid, accNo, padded)];
    }
  }

  /** Padding is idempotent: the padded number passes the rule again
      untouched, with no error and no log line. */
  lemma AccountPaddingIdempotent(uspcid: string, usclid: string, acc: string, padded: string)
    requires CheckAccount(uspcid, usclid, acc).update == Some(padded)
    ensures CheckAccount(uspcid, usclid, padded) == FieldVerdict(None, [], [])
  {
  }

  /** dob_str.replace('-', '/').replace('.', '/'): both other separators
      become '/', and every other character stays. */
  function CorrectSeparators(s: string): (r: string)
    ensures |r| == |s|
    ensures forall k :: 0 <= k < |s| ==> r[k] == if s[k] == '-' || s[k] == '.' then '/' else s[k]
  {
    Replace(Replace(s, '-', '/'), '.', '/')
  }

  /** The date-of-birth rule on the stripped DOB value: an empty value is an
      error only when the rule requires it; "%d/%m/%Y" is tried first and
      its canonical form stored without a log line; otherwise '-' and '.'
      become '/' and a second try stores the canonical form and logs the
      correction; when both fail the error names no value. */
  function CheckDob(required: bool, uspcid: string, usclid: string, dob: string): (v: FieldVerdict)
    ensures |v.errors| <= 1 && |v.events| <= 1
    ensures v.errors != [] ==> v.errors == ["invalid date of birth"]
    ensures v.errors != [] <==> (dob == [] && required)
                                || (dob != [] && Canonical(dob, FourDigitYear).None?
                                    && Canonical(CorrectSeparators(dob), FourDigitYear).None?)
    ensures v.update.Some? <==> dob != [] && (Canonical(dob, FourDigitYear).Some?
                                              || Canonical(CorrectSeparators(dob), FourDigitYear).Some?)
    ensures v.update.Some? ==> Canonical(v.update.value, FourDigitYear) == v.update
    ensures Canonical(dob, FourDigitYear).Some? ==> v == FieldVerdict(Canonical(dob, FourDigitYear), [], [])
    ensures v.events != [] <==> dob != [] && Canonical(dob, FourDigitYear).None?
                                && Canonical(CorrectSeparators(dob), FourDigitYear).Some?
    ensures v.events != [] ==> v.update == Canonical(CorrectSeparators(dob), FourDigitYear)
    ensures v.events != [] ==> v.events == [DobChanged(uspcid, usclid, dob, v.update.value)]
  {
    if dob == [] then
      if required then FieldVerdict(None, ["invalid date of birth"], []) else FieldVerdict(None, [], [])
    else
      match Canonical(dob, FourDigitYear)
      case Some(formatted) =>
        CanonicalIdempotent(dob, FourDigitYear, formatted);
        FieldVerdict(Some(formatted), [], [])
      case None =>
        var corrected := CorrectSeparators(dob);
        match Canonical(corrected, FourDigitYear)
        case Some(formatted) =>
          CanonicalIdempotent(corrected, FourDigitYear, formatted);
          FieldVerdict(Some(formatted), [], [DobChanged(uspcid, usclid, dob, formatted)])
        case None =>
          FieldVerdict(None, ["invalid date of birth"], [])
  }

  /** The date-of-birth block of the loop body, with its nested retry. */
  method CleanDob(required: bool, uspcid: string, usclid: string, dobStr: string)
    returns (update: Option<string>, errors: seq<string>, events: seq<LogEvent>)
    ensures FieldVerdict(update, errors, events) == CheckDob(required, uspcid, usclid, dobStr)
  {
    update := None;
    errors := [];
    events := [];
    if required && dobStr == [] {
      errors := ["invalid date of birth"];
    } else if dobStr != [] {
      var dob := ParseDate(dobStr, FourDigitYear);
      if dob.Some? {
        update := Some(FormatDate(dob.value));
      } else {
        var corrected := CorrectSeparators(dobStr);
        dob := ParseDate(corrected, FourDigitYear);
        if dob.Some? {
          var formatted := FormatDate(dob.value);
          update := Some(formatted);
          events := [DobChanged(uspcid, usclid, dobStr, formatted)];
        } else {
          errors := ["invalid date of birth"];
        }
      }
    }
  }

  /** A date written dd-mm-yyyy fails the first try, is corrected to
      dd/mm/yyyy, stored, and logged as a correction. */
  lemma DashedDateCorrected(required: bool, uspcid: string, usclid: string, d: Date)
    requires ValidDate(d)
    ensures var dashed := Replace(FormatDate(d), '/', '-');
            CheckDob(required, uspcid, usclid, dashed)
            == FieldVerdict(Some(FormatDate(d)), [], [DobChanged(uspcid, usclid, dashed, FormatDate(d))])
  {
    var canonical := FormatDate(d);
    var dashed := Replace(canonical, '/', '-');
    FormatDateChars(d);
    NoSlashNoDate(dashed, FourDigitYear);
    assert CorrectSeparators(dashed) == canonical;
    FormatThenParse(d);
  }

  /** The mobile rule with the +682 constants, logging the row by its
      USPCID value twice. */
  function DataMobile(row: map<string, string>): FieldVerdict {
    CheckMobile(DataLocale, IdValue(row), IdValue(row), Strip(Get(row, "Mobile_no", "")))
  }

  function DataAccount(row: map<string, string>): FieldVerdict {
    CheckAccount(IdValue(row), IdValue(row), Strip(Get(row, "Acc_no", "")))
  }

  function DataDob(rules: Rules, row: map<string, string>): FieldVerdict {
    CheckDob(rules.dob, IdValue(row), IdValue(row), Strip(Get(row, "DOB", "")))
  }

  /** What a row, as a dictionary keyed by the renamed header, comes to:
      every check runs, the reasons are appended in the order identifiers,
      email, mobile, account, date of birth, and Mobile_no, Acc_no and DOB
      are overwritten when their rules give a new value. */
  function Outcome(rules: Rules, row: map<string, string>): RowOutcome {
    RowOutcome(Apply(Apply(Apply(row, "Mobile_no", DataMobile(row).update), "Acc_no", DataAccount(row).update),
                     "DOB", DataDob(rules, row).update),
               DataIdErrors(rules, IdValue(row)) + EmailErrors(rules.emailAdd, Strip(Get(row, "email_add", "")))
               + DataMobile(row).errors + DataAccount(row).errors + DataDob(rules, row).errors,
               DataMobile(row).events + DataAccount(row).events + DataDob(rules, row).events)
  }

  /** The loop body of the script after the row dictionary is built. */
  method ValidateRow(rules: Rules, row: map<string, string>)
    returns (rowData: map<string, string>, errors: seq<string>, events: seq<LogEvent>)
    ensures RowOutcome(rowData, errors, events) == Outcome(rules, row)
  {
    rowData := row;

    var uspcid := Strip(Get(rowData, "USPCID", ""));
    errors := MissingIdError(rules.usclid, uspcid, "missing USPCID");
    var usclid := Strip(Get(rowData, "USPCID", ""));
    errors := errors + MissingIdError(rules.usclid, usclid, "missing USCLID");

    var email := Strip(Get(rowData, "email_add", ""));
    errors := errors + EmailErrors(rules.emailAdd, email);

    var mobile, mobileErrors, mobileEvents := CleanMobile(DataLocale, uspcid, usclid, Strip(Get(rowData, "Mobile_no", "")));
    if mobile.Some? {
      rowData := rowData["Mobile_no" := mobile.value];
    }
    errors := errors + mobileErrors;
    events := mobileEvents;

    // Only Mobile_no has been overwritten so far, so Acc_no and DOB still
    // read as built.
    var acc, accErrors, accEvents := CleanAccount(uspcid, usclid, Strip(Get(row, "Acc_no", "")));
    if acc.Some? {
      rowData := rowData["Acc_no" := acc.value];
    }
    errors := errors + accErrors;
    events := events + accEvents;

    var dob, dobErrors, dobEvents := CleanDob(rules.dob, uspcid, usclid, Strip(Get(row, "DOB", "")));
    if dob.Some? {
      rowData := rowData["DOB" := dob.value];
    }
    errors := errors + dobErrors;
    events := events + dobEvents;
  }

  /** The outcome of every data row. */
  function Outcomes(rules: Rules, dicts: seq<map<string, string>>): seq<RowOutcome> {
    seq(|dicts|, k requires 0 <= k < |dicts| => Outcome(rules, dicts[k]))
  }

  /** Validates the k-th row dictionary. */
  method ValidateAt(rules: Rules, dicts: seq<map<string, string>>, k: nat) returns (o: RowOutcome)
    requires k < |dicts|
    ensures o == Outcomes(rules, dicts)[k]
  {
    var rowData, errors, events := ValidateRow(rules, dicts[k]);
    o := RowOutcome(rowData, errors, events);
  }

  /** The script's main loop over the row dictionaries, validation half:
      every row's outcome, in order. */
  method ValidateAll(rules: Rules, dicts: seq<map<string, string>>) returns (os: seq<RowOutcome>)
    ensures os == Outcomes(rules, dicts)
  {
    os := [];
    var k := 0;
    while k < |dicts|
      invariant 0 <= k <= |dicts|
      invariant os == Outcomes(rules, dicts)[..k]
    {
      var o := ValidateAt(rules, dicts, k);
      PrefixStep(Outcomes(rules, dicts), k);
      os := os + [o];
      k := k + 1;
    }
  }

  /** The script's main loop: validates every row and routes it to the clean
      or the error file, in order, then writes the finish marker. */
  method Process(header: seq<string>, renamed: seq<string>, rules: Rules, dicts: seq<map<string, string>>)
    returns (out: Outputs)
    ensures fresh(out)
    ensures out.Snapshot() == Publish(header, renamed, Outcomes(rules, dicts))
  {
    var os := ValidateAll(rules, dicts);
    out := WriteAll(header, renamed, os);
  }

  /** The whole script on a header and its data rows: the header is renamed
      (Mobile_No to Mobile_no, AC_NO to Acc_no), every row becomes a
      dictionary keyed by the renamed header, and the rows are processed in
      order. */
  method Run(header: seq<string>, rules: Rules, rows: seq<seq<string>>) returns (out: Outputs)
    ensures fresh(out)
    ensures out.Snapshot() == Publish(header, RenameHeader(DataRenames, header),
                                      Outcomes(rules, RowDicts(RenameHeader(DataRenames, header), rows)))
  {
    var renamed := RenameHeader(DataRenames, header);
    out := Process(header, renamed, rules, RowDicts(renamed, rows));
  }

  /** The identifier check reads neither the USCLID column nor the USPCID
      rule: both reasons depend only on the USPCID value and the USCLID
      rule. */
  lemma IdErrorsIgnoreUsclid(rules: Rules, row: map<string, string>, usclid: string, required: bool)
    ensures DataIdErrors(rules.(uspcid := required), IdValue(row["USCLID" := usclid]))
            == DataIdErrors(rules, IdValue(row))
  {
    assert "USPCID" != "USCLID" by {
      assert "USPCID"[3] != "USCLID"[3];
    }
    assert Get(row["USCLID" := usclid], "USPCID", "") == Get(row, "USPCID", "");
  }

  /** A required email that is empty does not stop the row: the reason is
      recorded after the identifier reasons and the mobile, account and
      date-of-birth rules still run, store their values and log. */
  lemma MissingEmailContinues(rules: Rules, row: map<string, string>)
    requires rules.emailAdd && Strip(Get(row, "email_add", "")) == []
    ensures Outcome(rules, row).errors
            == DataIdErrors(rules, IdValue(row)) + ["missing email address"]
               + DataMobile(row).errors + DataAccount(row).errors + DataDob(rules, row).errors
    ensures Outcome(rules, row).events == DataMobile(row).events + DataAccount(row).events + DataDob(rules, row).events
  {
  }

  /** The identifier check: the USPCID value is present or the USCLID rule
      does not require it. */
  ghost predicate DataIdsPass(rules: Rules, row: map<string, string>) {
    !rules.usclid || IdValue(row) != []
  }

  /** The mobile check: empty, or five digits once the prefix is off. */
  ghost predicate DataMobilePasses(row: map<string, string>) {
    var mobile := Strip(Get(row, "Mobile_no", ""));
    var number := StripCountryCode(DataLocale, mobile);
    mobile == [] || (IsDigits(number) && |number| == 5)
  }

  /** The account check: at most ten digits. */
  ghost predicate DataAccountPasses(row: map<string, string>) {
    var acc := Strip(Get(row, "Acc_no", ""));
    IsDigits(acc) && |acc| <= 10
  }

  /** The date-of-birth check: empty and not required, or parsed as
      written or once its separators are corrected. */
  ghost predicate DataDobPasses(rules: Rules, row: map<string, string>) {
    var dob := Strip(Get(row, "DOB", ""));
    if dob == [] then !rules.dob
    else Canonical(dob, FourDigitYear).Some? || Canonical(CorrectSeparators(dob), FourDigitYear).Some?
  }

  /** The email check: present when required, fitting the pattern when
      present. */
  ghost predicate DataEmailPasses(rules: Rules, row: map<string, string>) {
    var email := Strip(Get(row, "email_add", ""));
    (email == [] ==> !rules.emailAdd) && (email != [] ==> EmailPattern(email))
  }

  /** Which rows reach the clean file, field by field. */
  ghost predicate DataRowPasses(rules: Rules, row: map<string, string>) {
    DataIdsPass(rules, row) && DataEmailPasses(rules, row) && DataMobilePasses(row)
    && DataAccountPasses(row) && DataDobPasses(rules, row)
  }

  lemma DataIdsExactly(rules: Rules, row: map<string, string>)
    ensures DataIdErrors(rules, IdValue(row)) == [] <==> DataIdsPass(rules, row)
  {
  }

  lemma DataEmailExactly(rules: Rules, row: map<string, string>)
    ensures EmailErrors(rules.emailAdd, Strip(Get(row, "email_add", ""))) == [] <==> DataEmailPasses(rules, row)
  {
  }

  lemma DataMobileExactly(row: map<string, string>)
    ensures DataMobile(row).errors == [] <==> DataMobilePasses(row)
  {
    DataMobileErrors(IdValue(row), IdValue(row), Strip(Get(row, "Mobile_no", "")));
  }

  lemma DataAccountExactly(row: map<string, string>)
    ensures DataAccount(row).errors == [] <==> DataAccountPasses(row)
  {
  }

  lemma DataDobExactly(rules: Rules, row: map<string, string>)
    ensures DataDob(rules, row).errors == [] <==> DataDobPasses(rules, row)
  {
  }

  /** The reasons of a row are empty exactly when every rule gave none. */
  lemma DataErrorsEmpty(rules: Rules, row: map<string, string>)
    ensures Outcome(rules, row).errors == [] <==>
            DataIdErrors(rules, IdValue(row)) == [] && EmailErrors(rules.emailAdd, Strip(Get(row, "email_add", ""))) == []
            && DataMobile(row).errors == [] && DataAccount(row).errors == [] && DataDob(rules, row).errors == []
  {
    var ids := DataIdErrors(rules, IdValue(row));
    var email := EmailErrors(rules.emailAdd, Strip(Get(row, "email_add", "")));
    var early := ids + email + DataMobile(row).errors + DataAccount(row).errors;
    NoReasons(ids, email, DataMobile(row).errors, DataAccount(row).errors);
    assert |early + DataDob(rules, row).errors| == |early| + |DataDob(rules, row).errors|;
  }

  /** A row goes to the clean file exactly when every field passes. */
  lemma DataCleanExactly(rules: Rules, row: map<string, string>)
    ensures Outcome(rules, row).errors == [] <==> DataRowPasses(rules, row)
  {
    DataErrorsEmpty(rules, row);
    DataIdsExactly(rules, row);
    DataEmailExactly(rules, row);
    DataMobileExactly(row);
    DataAccountExactly(row);
    DataDobExactly(rules, row);
  }

  /** The row leaves with the mobile, the account and then the
      date-of-birth update stored, key by key. */
  lemma DataOutcomeAt(rules: Rules, row: map<string, string>, key: string)
    ensures var r := Apply(Apply(Apply(row, "Mobile_no", DataMobile(row).update), "Acc_no", DataAccount(row).update),
                           "DOB", DataDob(rules, row).update);
            (key in Outcome(rules, row).row <==> key in r) && (key in r ==> Outcome(rules, row).row[key] == r[key])
  {
  }

  /** A rule only stores a value it read from a column that is there. */
  lemma DataUpdatesPresent(rules: Rules, row: map<string, string>)
    ensures DataMobile(row).update.Some? ==> "Mobile_no" in row
    ensures DataAccount(row).update.Some? ==> "Acc_no" in row
    ensures DataDob(rules, row).update.Some? ==> "DOB" in row
  {
    AbsentIsEmpty(row, "Mobile_no");
    AbsentIsEmpty(row, "Acc_no");
    AbsentIsEmpty(row, "DOB");
  }

  /** The rewrites keep the row's columns: no key is added or dropped. */
  lemma DataRowKeysKept(rules: Rules, row: map<string, string>, key: string)
    ensures key in Outcome(rules, row).row <==> key in row
  {
    var m1 := Apply(row, "Mobile_no", DataMobile(row).update);
    var m2 := Apply(m1, "Acc_no", DataAccount(row).update);
    DataOutcomeAt(rules, row, key);
    DataUpdatesPresent(rules, row);
    ApplyAt(row, "Mobile_no", DataMobile(row).update, key);
    ApplyAt(m1, "Acc_no", DataAccount(row).update, key);
    ApplyAt(m2, "DOB", DataDob(rules, row).update, key);
  }

  /** Every column other than Mobile_no, Acc_no and DOB keeps its value. */
  lemma DataOtherColumnsKept(rules: Rules, row: map<string, string>, key: string)
    requires key in row && key != "Mobile_no" && key != "Acc_no" && key != "DOB"
    ensures key in Outcome(rules, row).row && Outcome(rules, row).row[key] == row[key]
  {
    var m1 := Apply(row, "Mobile_no", DataMobile(row).update);
    var m2 := Apply(m1, "Acc_no", DataAccount(row).update);
    DataOutcomeAt(rules, row, key);
    ApplyAt(row, "Mobile_no", DataMobile(row).update, key);
    ApplyAt(m1, "Acc_no", DataAccount(row).update, key);
    ApplyAt(m2, "DOB", DataDob(rules, row).update, key);
  }

  /** The account value a row leaves with: the padded number when the
      rule padded it, the value as read otherwise. */
  lemma DataStoredAccount(rules: Rules, row: map<string, string>)
    requires "Acc_no" in row
    ensures "Acc_no" in Outcome(rules, row).row
    ensures Outcome(rules, row).row["Acc_no"]
            == if DataAccount(row).update.Some? then DataAccount(row).update.value else row["Acc_no"]
  {
    var m1 := Apply(row, "Mobile_no", DataMobile(row).update);
    var m2 := Apply(m1, "Acc_no", DataAccount(row).update);
    DataOutcomeAt(rules, row, "Acc_no");
    ApplyAt(row, "Mobile_no", DataMobile(row).update, "Acc_no");
    ApplyAt(m1, "Acc_no", DataAccount(row).update, "Acc_no");
    ApplyAt(m2, "DOB", DataDob(rules, row).update, "Acc_no");
  }

  /** A clean row leaves with an account number that strips to exactly ten
      digits of the same value as the one read. */
  lemma DataCleanAccount(rules: Rules, row: map<string, string>)
    requires Outcome(rules, row).errors == []
    ensures "Acc_no" in Outcome(rules, row).row
    ensures var acc := Strip(Outcome(rules, row).row["Acc_no"]);
            |acc| == 10 && IsDigits(acc) && DecimalValue(acc) == DecimalValue(Strip(Get(row, "Acc_no", "")))
  {
    var read := Strip(Get(row, "Acc_no", ""));
    var v := DataAccount(row);
    assert v.errors == [] by {
      DataErrorsEmpty(rules, row);
    }
    AbsentIsEmpty(row, "Acc_no");
    DataStoredAccount(rules, row);
    if v.update.Some? {
      DigitsAreTrimmed(v.update.value);
    } else {
      assert |read| == 10;
      StripIdempotent(row["Acc_no"]);
    }
  }

  /** A clean row with a date of birth leaves with it in canonical
      dd/mm/yyyy form, one that reads back as itself. */
  lemma DataCleanDobCanonical(rules: Rules, row: map<string, string>)
    requires Outcome(rules, row).errors == []
    requires Strip(Get(row, "DOB", "")) != []
    ensures "DOB" in Outcome(rules, row).row
    ensures var dob := Outcome(rules, row).row["DOB"];
            Canonical(dob, FourDigitYear) == Some(dob)
  {
    var m2 := Apply(Apply(row, "Mobile_no", DataMobile(row).update), "Acc_no", DataAccount(row).update);
    DataCleanExactly(rules, row);
    DataOutcomeAt(rules, row, "DOB");
    ApplyAt(m2, "DOB", DataDob(rules, row).update, "DOB");
  }
}
