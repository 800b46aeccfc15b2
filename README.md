# Corporate data cleaning: the row validation core in Dafny

Two Python scripts clean an exported CSV of corporate customer records. They
rename a few header columns to the keys of the rules document, then turn each
data row into a dictionary keyed by the renamed header. Each row goes through
field rules in a fixed order:

- the two identifiers, USPCID and USCLID;
- the email address;
- the mobile number;
- the account number (one script only);
- the date of birth.

A rule may rewrite the value in the dictionary, add a reason to the row's
error list, or write a line to the job log. A row with no reasons goes to the
clean file. Any other row goes to the error file, followed by its reasons
joined with ",". Both files start with the original header; the error file
adds an `error_desc` column. The log starts with "Job Started" and ends with
"Job Finished".

- `SM_data_validation_script.py` is the +685 variant:
  - a required email that is empty sends the row to the error file at once;
  - identifiers must be alphanumeric;
  - a local mobile number has seven digits, and "0" passes with a warning;
  - the date of birth is always required and is read as dd/mm/yyyy, or else
    dd/mm/yy.
- `data_validation_script.py` is the +682 variant:
  - both identifier reasons come from the USPCID value and the USCLID rule;
  - a missing email is one reason among the others;
  - a local mobile number has five digits;
  - the account number is padded to ten digits;
  - a date written with '-' or '.' separators is corrected.

The project has these modules:

- `Text`: Python's `str.strip`, `isdigit`, `isalnum`, `startswith`,
  `zfill`, `replace` and `",".join` on ASCII text.
- `Email`: the regular expression of `validate_email`.
- `Dates`: `strptime` with `%d/%m/%Y` and `%d/%m/%y`, and
  `strftime("%d/%m/%Y")`.
- `Audit`: the log events.
- `Rows`: the renamed header, `dict(zip(...))`, `dict.get`, and a field
  rule's verdict.
- `Mobile`: the country-code rule, parameterised by the constants in which
  the two scripts differ.
- `Router`: clean or error file, the error cell, and a class `Outputs` that
  holds the two CSV files and the log as they grow.
- `SmValidation` and `DataValidation`: each script's row rules, the per-row
  loop body as an imperative `ValidateRow` proved equal to a specification
  function `Outcome`, and the whole job (`Run`).

Each field rule is specified outright: its error reasons, the value it
stores, and the events it logs. For each row it is stated which rows reach the
clean file, what is stored in each rewritten column and which columns are
untouched. The main-loop methods are proved to produce exactly the files
that the specification functions describe.

## Model

| member | source | states |
|---|---|---|
| Text.Strip | SM_data_validation_script.py:93 | the result is a contiguous slice of the input with only whitespace cut from both ends, and it neither starts nor ends with whitespace |
| Text.StripIdempotent | SM_data_validation_script.py:111-118 | stripping a stripped value changes nothing |
| Text.DigitsAreTrimmed | data_validation_script.py:123-134 | a string of digits is unchanged by strip |
| Text.Replace | data_validation_script.py:150 | same length, and exactly the matching characters are replaced |
| Text.ZFill | data_validation_script.py:134 | the result is max(width, length) long, ends with the input, and is '0' before it |
| Text.ZFillIdempotent | data_validation_script.py:133-135 | padding an already padded value again changes nothing |
| Text.ZFillKeepsValue | data_validation_script.py:134 | padding keeps the value all digits and keeps its decimal value |
| Text.LeadingZerosKeepValue | data_validation_script.py:134 | leading zeros do not change a digit string's value |
| Text.SplitJoin | SM_data_validation_script.py:187 | splitting the ","-joined reasons at ',' gives them back when no reason holds a ',' |
| Email.MatchDomain | SM_data_validation_script.py:13 | accepts exactly the domains the pattern's `[a-zA-Z0-9-]+\.[a-zA-Z0-9-.]+` part matches |
| Email.ValidateEmail | SM_data_validation_script.py:13-14 | accepts a string exactly when the whole regular expression matches it |
| Email.MatchEmailIsPattern | data_validation_script.py:14-15 | splitting at the first '@' and then at the first '.' decides the pattern |
| Email.AcceptsDottedAddress | SM_data_validation_script.py:13 | an address with '.' and '_' in the local part and a dotted domain tail matches |
| Email.RejectsMissingAt | SM_data_validation_script.py:13 | every string without an '@' is rejected |
| Email.RejectsDomainWithoutDot | SM_data_validation_script.py:13 | every address whose local part holds no '@' and whose domain after the '@' holds no '.' fails the pattern |
| Dates.ParseDate | SM_data_validation_script.py:170 | every parsed date is a real calendar date in years 1..9999 |
| Dates.ParseDateExactly | SM_data_validation_script.py:168-173 | parsing gives date d exactly when the text is a day, a month and a year joined by '/'. The day and month are one or two digits in range, the year has the pattern's width, and their values make the valid date d |
| Dates.FormatDate | SM_data_validation_script.py:176 | the output is ten characters with '/' at positions 2 and 5 |
| Dates.FormatThenParse | data_validation_script.py:145-146 | formatting a valid date and parsing it with %Y gives the date back |
| Dates.FormatDateChars | data_validation_script.py:146 | the formatted date holds only digits and '/' |
| Dates.NoSlashNoDate | data_validation_script.py:145-147 | a text without '/' never parses |
| Dates.CanonicalFixedPoint | SM_data_validation_script.py:176-179 | a parsed text equals its reformatted form exactly when it is ten characters long |
| Dates.CanonicalIdempotent | SM_data_validation_script.py:176-179 | the dd/mm/yyyy text the scripts write back parses with %Y and reformats to itself |
| Dates.TwoDigitYearRange | SM_data_validation_script.py:168 | a %y year lands in 1969..2068 |
| Dates.FirstParseIsEarliest | SM_data_validation_script.py:168-173 | the format loop fails exactly when every format fails; otherwise it returns the first format that succeeds, and all earlier ones failed |
| Dates.ParseFirst | SM_data_validation_script.py:166-173 | the loop over the formats with its `break` returns what the first-success function specifies |
| Dates.ShortDayAndMonthExample | SM_data_validation_script.py:176-178 | "1/2/1990" is rewritten to "01/02/1990" |
| Rows.RenameHeader | data_validation_script.py:60 | the renamed header has as many columns as the original |
| Rows.RenameHeaderElementwise | data_validation_script.py:56-60 | a column in the map is renamed and every other column is kept, position by position |
| Rows.RenameHeaderIdempotent | SM_data_validation_script.py:55-59 | renaming twice with either script's map is the same as renaming once |
| Rows.ZipPrefixKeys | SM_data_validation_script.py:70 | the row dictionary's keys are exactly the header names that have a cell |
| Rows.ZipPrefixLastWins | data_validation_script.py:71 | with a repeated header name, the last cell under that name wins |
| Rows.RowDicts | SM_data_validation_script.py:67-70 | one dictionary per data row |
| Rows.Project | SM_data_validation_script.py:190 | a written row has one cell per header column |
| Rows.ProjectZip | SM_data_validation_script.py:186 | when the header has no repeated names, reading an unchanged dictionary back in header order gives the row's cells, with "" for the cells it is missing |
| Mobile.CheckMobile | SM_data_validation_script.py:111-138 | at most one reason; the value is rewritten exactly when a prefix came off, and the change is then the first log event; an unchanged value logs no change; a well-formed number passes and logs the change (if any) followed by what its first digit earns; a non-empty value that is not a well-formed number (and not the +685 "0") gives exactly the format reason quoting the value and logs only the change, if any; a value that earns a reason logs only INFO lines; the +685 "0" passes and logs the change, if any, then the zero warning; an empty value only logs that there is no number |
| Mobile.CleanMobile | data_validation_script.py:98-120 | the imperative rule gives exactly the verdict of the specification function |
| Mobile.StripCountryCodeRemovesPrefix | SM_data_validation_script.py:115-118 | "+685"/"685" followed by the rest becomes the stripped rest |
| Mobile.StripCountryCodeKeepsUnprefixed | data_validation_script.py:102-105 | a number with neither prefix is kept |
| Mobile.StripCountryCodeNotIdempotent | SM_data_validation_script.py:115-118 | only one prefix comes off: "685685 " + number becomes "685 " + number, and only a second pass gives the number |
| Mobile.PrefixedNumber | data_validation_script.py:102-118 | "+682 " + a well-formed number is rewritten to the number, passes, and logs the change, then what the first digit earns |
| Mobile.SmLeadingDigit | SM_data_validation_script.py:129-136 | a first digit of 2..6 is "not a mobile number", 9 is silent, and 0, 1, 7 and 8 are "outside expected ranges" |
| Mobile.DataLeadingDigit | data_validation_script.py:114-118 | a first digit of 2..4 is "not a mobile number", 5, 7 and 8 are silent, and 0, 1, 6 and 9 are "outside expected ranges" |
| Mobile.SmMobileErrors | SM_data_validation_script.py:113-138 | there is a format reason, quoting the value before the prefix came off, exactly when the value is non-empty, is not "0" and is not seven digits; "0" logs a warning; an empty value only logs |
| Mobile.DataMobileErrors | data_validation_script.py:100-120 | there is a format reason exactly when the value is non-empty and is not five digits; an empty value only logs |
| Mobile.ZeroMobile | SM_data_validation_script.py:125-128 | "0" is a warning for +685 and a format error for +682 |
| Router.RouteRow | SM_data_validation_script.py:184-191 | a row goes to exactly one file: the clean file when it has no reasons, written as its values in header order; otherwise the error file, with one extra cell |
| Router.RouteAll | data_validation_script.py:158-166 | every row goes to exactly one of the two files |
| Router.RouteAllCounts | data_validation_script.py:158-166 | the clean file gets as many rows as there are outcomes without reasons, and the error file gets as many as the rest |
| Router.RouteAllPlacesRows | data_validation_script.py:158-166 | an outcome without reasons is the clean file's row numbered by the clean outcomes before it, written as its values in header order; any other outcome is the error file's row numbered by the outcomes with reasons before it, with the joined reasons appended |
| Router.RouteAllAppend | SM_data_validation_script.py:67-191 | routing a concatenation routes each part, and the results keep the input order |
| Router.AllCleanRoutesAll | SM_data_validation_script.py:188-191 | when no row has a reason, the error file gets nothing and the clean file gets every row, in order |
| Router.ErrorCellLists | SM_data_validation_script.py:187 | the error cell splits back into the reasons when no reason holds a ',' |
| Router.Publish | data_validation_script.py:62-66 | the files start with the header, and with the header plus "error_desc"; they hold two rows more than there are data rows; the log starts with "Job Started" and ends with "Job Finished" |
| Router.Outputs.Write | SM_data_validation_script.py:184-191 | writing a row appends its routing to exactly one file and its events to the log |
| Router.Outputs.Finish | SM_data_validation_script.py:193 | closing the job appends "Job Finished" and leaves the files alone |
| Router.WriteAll | data_validation_script.py:62-168 | writing every outcome in turn yields exactly the published files and log |
| SmValidation.IdentifierErrors | SM_data_validation_script.py:93-104 | at most one reason: "missing" for a required empty value, "special characters" for a value that is not alphanumeric, and nothing otherwise |
| SmValidation.EmailFormatErrors | SM_data_validation_script.py:107-108 | a reason exactly when the email is non-empty and fails the pattern |
| SmValidation.FirstParseOfTwo | SM_data_validation_script.py:168-173 | the four-digit reading wins when there is one, and the two-digit reading is tried only otherwise |
| SmValidation.CheckDob | SM_data_validation_script.py:161-181 | "missing date of birth" for an empty value and "invalid date of birth format: " plus the value when no format parses it; otherwise the stored value is the %Y reading reformatted when there is one and the %y reading otherwise, it is canonical dd/mm/yyyy, and a change event naming the value and the stored text is logged exactly when the text differs |
| SmValidation.CleanDob | SM_data_validation_script.py:161-181 | the imperative format loop gives exactly the verdict of the specification function |
| SmValidation.ValidateRow | SM_data_validation_script.py:75-181 | the loop body gives exactly the dictionary, reasons and events of the row's specified outcome |
| SmValidation.ValidateAt | SM_data_validation_script.py:67-181 | row k's outcome is the specified outcome, numbered from 1 |
| SmValidation.ValidateAll | SM_data_validation_script.py:67-181 | the outcomes of all rows, in order |
| SmValidation.Process | SM_data_validation_script.py:61-193 | the files and the log are exactly those published for the rows' specified outcomes |
| SmValidation.Run | SM_data_validation_script.py:53-193 | the job renames the header, builds the dictionaries and produces the published files |
| SmValidation.MissingEmailShortCircuit | SM_data_validation_script.py:77-82 | a required email that is empty sends the untouched row to the error file with the single reason "missing email address", and the error line names the row number and its USPCID |
| SmValidation.SmIdErrorsExactly | SM_data_validation_script.py:92-104 | the identifiers add no reason exactly when each is present (when required) and alphanumeric (when present) |
| SmValidation.SmMobileExactly | SM_data_validation_script.py:110-138 | the mobile adds no reason exactly when it is empty, or is "0" once the prefix is off, or is seven digits |
| SmValidation.SmCleanExactly | SM_data_validation_script.py:76-191 | a row reaches the clean file exactly when a required email is present, the identifiers, the email format, the mobile and the date of birth all pass |
| SmValidation.SmUpdatesPresent | SM_data_validation_script.py:111-179 | a value is stored only in a column the row has |
| SmValidation.SmRowKeysKept | SM_data_validation_script.py:186-190 | the rules neither add nor drop columns |
| SmValidation.SmOtherColumnsKept | SM_data_validation_script.py:186-190 | every column other than Mobile_no and DOB is written as it was read |
| SmValidation.SmCleanDobCanonical | SM_data_validation_script.py:175-179 | a clean row's DOB is canonical dd/mm/yyyy |
| SmValidation.SmPrefixedMobile | SM_data_validation_script.py:115-136 | "+685 " + seven digits starting with 1 passes, is rewritten, and logs the change and then "outside expected ranges" |
| DataValidation.MissingIdError | data_validation_script.py:82-88 | a reason exactly when the rule requires a value and the value is empty |
| DataValidation.DataIdErrors | data_validation_script.py:81-88 | both identifier reasons, USPCID then USCLID, appear exactly when the USCLID rule is required and the USPCID value is empty; otherwise neither does |
| DataValidation.IdErrorsIgnoreUsclid | data_validation_script.py:81-88 | the identifier reasons depend on neither the USCLID column nor the USPCID rule |
| DataValidation.EmailErrors | data_validation_script.py:91-95 | at most one reason: "missing" for a required empty email, "invalid" for a non-empty email that fails the pattern, and nothing otherwise |
| DataValidation.CheckAccount | data_validation_script.py:123-136 | one reason for each of an empty, a non-digit and a too-long value; otherwise it passes; a value shorter than ten digits is stored zero-padded to ten digits with the same decimal value, and the padding is logged |
| DataValidation.CleanAccount | data_validation_script.py:123-136 | the imperative rule gives exactly the verdict of the specification function |
| DataValidation.AccountPaddingIdempotent | data_validation_script.py:133-136 | a padded account number passes unchanged and logs nothing |
| DataValidation.CorrectSeparators | data_validation_script.py:150 | '-' and '.' become '/', and every other character is kept |
| DataValidation.CheckDob | data_validation_script.py:139-155 | "invalid date of birth" exactly when a required value is empty or neither the value nor its corrected form parses; a value that parses is stored as its reformatted date with no log line; otherwise the corrected text's reformatted date is stored and a correction naming the value and the stored text is logged |
| DataValidation.CleanDob | data_validation_script.py:139-155 | the imperative try/except chain gives exactly the verdict of the specification function |
| DataValidation.DashedDateCorrected | data_validation_script.py:148-153 | a date written dd-mm-yyyy is corrected to dd/mm/yyyy, stored, and logged |
| DataValidation.ValidateRow | data_validation_script.py:76-155 | the loop body gives exactly the dictionary, reasons and events of the row's specified outcome |
| DataValidation.ValidateAt | data_validation_script.py:68-155 | row k's outcome is the specified outcome |
| DataValidation.ValidateAll | data_validation_script.py:68-155 | the outcomes of all rows, in order |
| DataValidation.Process | data_validation_script.py:62-168 | the files and the log are exactly those published for the rows' specified outcomes |
| DataValidation.Run | data_validation_script.py:54-168 | the job renames the header, builds the dictionaries and produces the published files |
| DataValidation.MissingEmailContinues | data_validation_script.py:92-93 | a required empty email adds its reason after the identifier reasons, and the later rules still run and log |
| DataValidation.DataIdsExactly | data_validation_script.py:81-88 | the identifiers add no reason exactly when the USPCID value is present or the USCLID rule is not required |
| DataValidation.DataEmailExactly | data_validation_script.py:91-95 | the email adds no reason exactly when it is present (when required) and matches the pattern (when present) |
| DataValidation.DataMobileExactly | data_validation_script.py:98-120 | the mobile adds no reason exactly when it is empty or is five digits once the prefix is off |
| DataValidation.DataAccountExactly | data_validation_script.py:123-136 | the account adds no reason exactly when its stripped value is one to ten digits |
| DataValidation.DataDobExactly | data_validation_script.py:139-155 | the date of birth adds no reason exactly when it is empty and not required, or it or its corrected form parses |
| DataValidation.DataErrorsEmpty | data_validation_script.py:158 | the row's reasons are empty exactly when each rule's are |
| DataValidation.DataCleanExactly | data_validation_script.py:76-166 | a row reaches the clean file exactly when the identifiers, the email, the mobile, the account and the date of birth all pass |
| DataValidation.DataUpdatesPresent | data_validation_script.py:98-152 | a value is stored only in a column the row has |
| DataValidation.DataRowKeysKept | data_validation_script.py:161-165 | the rules neither add nor drop columns |
| DataValidation.DataOtherColumnsKept | data_validation_script.py:161-165 | every column other than Mobile_no, Acc_no and DOB is written as it was read |
| DataValidation.DataStoredAccount | data_validation_script.py:133-135 | the stored Acc_no is the padded value when padding happened, and the cell as read otherwise |
| DataValidation.DataCleanAccount | data_validation_script.py:123-136 | a clean row's account number, stripped, is ten digits with the value that was read |
| DataValidation.DataCleanDobCanonical | data_validation_script.py:139-153 | a clean row with a date of birth holds it as canonical dd/mm/yyyy |

## Left out

- Files, CSV quoting and JSON reading are not modelled. The model takes the header, the data rows as lists of cells, and the four `required` flags of the rules document as parameters. The `FileNotFoundError` and catch-all handlers around the job are left out.
- A missing `required` key in the rules document raises `KeyError` and aborts the job. The model takes the four flags as given.
- Log lines are abstract events (`Audit.LogEvent`) that carry the values the messages quote. Timestamps, the exact wording and the spacing of the messages are left out.
- Text is ASCII: the model has no Unicode whitespace, digits, letters or case folding for `strip`, `isdigit`, `isalnum` and the regular expression.
- The `IndexError` branch around `dict(zip(...))` cannot be taken, because `zip` stops at the shorter list. The model has no skipped-row path.
- Text.ZFill: models `zfill` for the digit strings it is called on; the '+'/'-' sign handling is left out.
- Dates.FormatDate: pads years below 1000 to four digits. The platform's C `strftime` may not (glibc writes "999"), and such a year then would not read back with `%Y`. The claims about canonical dates hold for the padded form.
- The account-number block of the +685 script is commented out and is not modelled. The unused `error_row` of the +682 script is not modelled.
- The model validates every row first and then writes the outcomes in order. The script interleaves the two steps row by row. The files and the log come out the same, because no rule reads the outputs.
- Match_CIF.py is not part of this model.

Where the scripts' comments and the code disagree, the model follows the code:
- The +682 script reads the USPCID column for both identifiers and uses the USCLID rule for both checks.
- The +685 script treats the date of birth as required whatever the rules document says.
- In the +685 first-digit lists, "800" can never equal a one-character first digit. The second "3" is never reached, because "3" is already in the first list. So 1, 0, 7 and 8 are "outside expected ranges".
- Only one country-code prefix is removed per value, so removal is not idempotent.
- The reasons are joined with "," and no space.
- The rows are written in the renamed header's column order. For a renamed column this reads the dictionary under the new name.
