/** The mobile-number rule both scripts apply, parameterised by the constants
    in which they differ: the country-code prefixes (+685 or +682), the
    number of digits a local number has (7 or 5), the two lists the first
    digit is looked up in, and whether "0" is let through with a warning. */
module Mobile {
  import opened Wrappers
  import opened Text
  import opened Audit
  import opened Rows

  datatype Locale = Locale(
    plusPrefix: string,
    barePrefix: string,
    length: nat,
    nonMobileLeads: seq<string>,
    mobileLeads: seq<string>,
    zeroIsWarning: bool)

  /** The +685 script, lists as written: "800" can never equal the
      one-character first digit, and the second "3" is never reached because
      "3" is already in the first list. */
  const SmLocale := Locale("+685", "685", 7, ["2", "3", "4", "5", "6", "800"], ["9", "3"], true)

  /** The +682 script. */
  const DataLocale := Locale("+682", "682", 5, ["2", "3", "4"], ["5", "7", "8"], false)

  /** Removes the "+" form of the country code, or else the bare form, once,
      and strips what remains; a number with neither prefix is kept. */
  function StripCountryCode(loc: Locale, mobile: string): string {
    if StartsWith(mobile, loc.plusPrefix) then Strip(mobile[|loc.plusPrefix|..])
    else if StartsWith(mobile, loc.barePrefix) then Strip(mobile[|loc.barePrefix|..])
    else mobile
  }

  /** The warning, if any, that the first digit of a well-formed number
      earns. */
  function LeadingDigitEvents(loc: Locale, uspcid: string, usclid: string, number: string): seq<LogEvent>
    requires number != []
  {
    var lead := [number[0]];
    if lead in loc.nonMobileLeads then [NotMobileNumber(uspcid, usclid, number)]
    else if lead !in loc.mobileLeads then [OutsideExpectedRanges(uspcid, usclid, number)]
    else []
  }

  /** The whole rule for the stripped Mobile_no value: rewrite when the
      country code came off, then either the "0" warning, the format error
      that quotes the value as it was before the prefix came off, or the
      first-digit classification; an empty value only logs. */
  function CheckMobile(loc: Locale, uspcid: string, usclid: string, mobile: string): (v: FieldVerdict)
    ensures |v.errors| <= 1
    ensures v.update.Some? <==> mobile != [] && StripCountryCode(loc, mobile) != mobile
    ensures v.update.Some? ==> v.update.value == StripCountryCode(loc, mobile)
                                && |v.events| > 0 && v.events[0] == MobileChanged(uspcid, usclid, mobile, v.update.value)
    ensures v.update.None? ==> forall e :: e in v.events ==> !e.MobileChanged?
    ensures var number := StripCountryCode(loc, mobile);
            mobile != [] && IsDigits(number) && |number| == loc.length && !(loc.zeroIsWarning && number == "0") ==>
              v.errors == []
              && v.events == (if v.update.Some? then [MobileChanged(uspcid, usclid, mobile, number)] else [])
                             + LeadingDigitEvents(loc, uspcid, usclid, number)
    ensures v.errors != [] ==> v.errors == ["invalid mobile number format: " + mobile]
                               && v.events == (if v.update.Some? then [MobileChanged(uspcid, usclid, mobile, v.update.value)] else [])
    ensures var number := StripCountryCode(loc, mobile);
            mobile != [] && loc.zeroIsWarning && number == "0" ==>
              v.errors == []
              && v.events == (if v.update.Some? then [MobileChanged(uspcid, usclid, mobile, number)] else [])
                             + [MobileZero(uspcid, usclid)]
    ensures mobile == [] ==> v == FieldVerdict(None, [], [NoMobileNumber(uspcid, usclid)])
    ensures var number := StripCountryCode(loc, mobile);
            mobile != [] && !(loc.zeroIsWarning && number == "0") && (!IsDigits(number) || |number| != loc.length) ==>
              v.errors == ["invalid mobile number format: " + mobile]
    ensures v.errors != [] ==> forall e :: e in v.events ==> e.Severity() == Info
  {
    if mobile == [] then FieldVerdict(None, [], [NoMobileNumber(uspcid, usclid)])
    else
      var number := StripCountryCode(loc, mobile);
      var update := if number != mobile then Some(number) else None;
      var changed := if number != mobile then [MobileChanged(uspcid, usclid, mobile, number)] else [];
      if loc.zeroIsWarning && number == "0" then
        FieldVerdict(update, [], changed + [MobileZero(uspcid, usclid)])
      else if !IsDigits(number) || |number| != loc.length then
        FieldVerdict(update, ["invalid mobile number format: " + mobile], changed)
      else
        FieldVerdict(update, [], changed + LeadingDigitEvents(loc, uspcid, usclid, number))
  }

  /** CheckMobile split at its first step: the stripped value and what its
      change contributes. */
  lemma MobileVerdict(loc: Locale, uspcid: string, usclid: string, original: string, number: string,
                      update: Option<string>, changed: seq<LogEvent>)
    requires original != [] && number == StripCountryCode(loc, original)
    requires update == (if number != original then Some(number) else None)
    requires changed == (if number != original then [MobileChanged(uspcid, usclid, original, number)] else [])
    ensures CheckMobile(loc, uspcid, usclid, original) ==
      if loc.zeroIsWarning && number == "0" then FieldVerdict(update, [], changed + [MobileZero(uspcid, usclid)])
      else if !IsDigits(number) || |number| != loc.length then
        FieldVerdict(update, ["invalid mobile number format: " + original], changed)
      else FieldVerdict(update, [], changed + LeadingDigitEvents(loc, uspcid, usclid, number))
  {
  }

  /** The mobile block of the loop body, statement by statement: strips the
      prefix once, reports the new value when it changed, then logs the "0"
      warning, appends the format error or classifies the first digit. */
  method CleanMobile(loc: Locale, uspcid: string, usclid: string, original: string)
    returns (update: Option<string>, errors: seq<string>, events: seq<LogEvent>)
    ensures FieldVerdict(update, errors, events) == CheckMobile(loc, uspcid, usclid, original)
  {
    update := None;
    errors := [];
    events := [];
    if original == [] {
      events := [NoMobileNumber(uspcid, usclid)];
      return;
    }
    var mobile := StripCountryCode(loc, original);
    if mobile != original {
      events := events + [MobileChanged(uspcid, usclid, original, mobile)];
      update := Some(mobile);
    }
    ghost var changed := events;
    if loc.zeroIsWarning && mobile == "0" {
      events := events + [MobileZero(uspcid, usclid)];
    } else if !IsDigits(mobile) || |mobile| != loc.length {
      errors := errors + ["invalid mobile number format: " + original];
    } else {
      events := events + LeadingDigitEvents(loc, uspcid, usclid, mobile);
    }
    MobileVerdict(loc, uspcid, usclid, original, mobile, update, changed);
  }

  /** Both locales write the '+' form as '+' followed by the bare form. */
  predicate PrefixPair(loc: Locale) {
    |loc.barePrefix| > 0 && loc.barePrefix[0] != '+' && loc.plusPrefix == "+" + loc.barePrefix
  }

  lemma LocalesArePrefixPairs()
    ensures PrefixPair(SmLocale) && PrefixPair(DataLocale)
    ensures IsDigits(SmLocale.barePrefix) && IsDigits(DataLocale.barePrefix)
  {
  }

  /** Either prefix form in front of a number comes off, and only the
      whitespace around the rest goes with it. */
  lemma StripCountryCodeRemovesPrefix(loc: Locale, rest: string)
    requires PrefixPair(loc)
    ensures StripCountryCode(loc, loc.plusPrefix + rest) == Strip(rest)
    ensures StripCountryCode(loc, loc.barePrefix + rest) == Strip(rest)
  {
    RemovesPlusPrefix(loc.plusPrefix, rest);
    RemovesPlusPrefix(loc.barePrefix, rest);
    var bare := loc.barePrefix + rest;
    assert bare[0] != '+';
    assert !StartsWith(bare, loc.plusPrefix);
  }

  lemma RemovesPlusPrefix(prefix: string, rest: string)
    ensures StartsWith(prefix + rest, prefix) && (prefix + rest)[|prefix|..] == rest
  {
    var s := prefix + rest;
    assert s[..|prefix|] == prefix;
  }

  /** A value that starts with neither form is kept as it is. */
  lemma StripCountryCodeKeepsUnprefixed(loc: Locale, mobile: string)
    requires !StartsWith(mobile, loc.plusPrefix) && !StartsWith(mobile, loc.barePrefix)
    ensures StripCountryCode(loc, mobile) == mobile
  {
  }

  /** Only one prefix comes off, so stripping is not idempotent: the bare
      prefix written twice before a space and a number (with +685,
      "685685 " + number) loses one copy, and a second pass takes the other
      off as well. */
  lemma StripCountryCodeNotIdempotent(loc: Locale, number: string)
    requires PrefixPair(loc) && IsDigits(loc.barePrefix) && IsDigits(number)
    ensures var once := loc.barePrefix + (" " + number);
            StripCountryCode(loc, loc.barePrefix + once) == once
            && StripCountryCode(loc, once) == number
  {
    var spaced := " " + number;
    var once := loc.barePrefix + spaced;
    StripCountryCodeRemovesPrefix(loc, once);
    assert once[0] == loc.barePrefix[0] && once[|once| - 1] == number[|number| - 1];
    StripKeepsTrimmed(once);
    StripCountryCodeRemovesPrefix(loc, spaced);
    StripAfterSpace(number);
  }

  lemma StripAfterSpace(number: string)
    requires IsDigits(number)
    ensures Strip(" " + number) == number
  {
    var s := " " + number;
    assert s[1..] == number;
    DigitsAreTrimmed(number);
  }

  /** A well-formed local number written after the '+' form of the country
      code and a space is rewritten to the number, passes, and logs the
      change followed by what its first digit earns. */
  lemma PrefixedNumber(loc: Locale, uspcid: string, usclid: string, number: string)
    requires PrefixPair(loc) && IsDigits(number) && |number| == loc.length && loc.length > 1
    ensures var mobile := loc.plusPrefix + (" " + number);
            CheckMobile(loc, uspcid, usclid, mobile)
            == FieldVerdict(Some(number), [], [MobileChanged(uspcid, usclid, mobile, number)]
                                              + LeadingDigitEvents(loc, uspcid, usclid, number))
  {
    var mobile := loc.plusPrefix + (" " + number);
    StripCountryCodeRemovesPrefix(loc, " " + number);
    StripAfterSpace(number);
    assert |mobile| > |number|;
    assert number != "0" by {
      assert |number| != |"0"|;
    }
    MobileVerdict(loc, uspcid, usclid, mobile, number, Some(number), [MobileChanged(uspcid, usclid, mobile, number)]);
  }

  /** The first-digit lists of the +685 script, as they behave: 2..6 are
      "not a mobile number", 9 passes silently, and 0, 1, 7 and 8 are
      "outside expected ranges". */
  lemma SmLeadingDigit(uspcid: string, usclid: string, number: string)
    requires IsDigits(number)
    ensures '2' <= number[0] <= '6' ==> LeadingDigitEvents(SmLocale, uspcid, usclid, number) == [NotMobileNumber(uspcid, usclid, number)]
    ensures number[0] == '9' ==> LeadingDigitEvents(SmLocale, uspcid, usclid, number) == []
    ensures number[0] in "0178" ==> LeadingDigitEvents(SmLocale, uspcid, usclid, number) == [OutsideExpectedRanges(uspcid, usclid, number)]
  {
    var lead := [number[0]];
    assert lead != "800";
    LeadMembership(number[0], SmLocale.nonMobileLeads);
    LeadMembership(number[0], SmLocale.mobileLeads);
  }

  /** The first-digit lists of the +682 script: 2, 3 and 4 are "not a mobile
      number", 5, 7 and 8 pass silently, and every other digit is "outside
      expected ranges". */
  lemma DataLeadingDigit(uspcid: string, usclid: string, number: string)
    requires IsDigits(number)
    ensures '2' <= number[0] <= '4' ==> LeadingDigitEvents(DataLocale, uspcid, usclid, number) == [NotMobileNumber(uspcid, usclid, number)]
    ensures number[0] in "578" ==> LeadingDigitEvents(DataLocale, uspcid, usclid, number) == []
    ensures number[0] in "0169" ==> LeadingDigitEvents(DataLocale, uspcid, usclid, number) == [OutsideExpectedRanges(uspcid, usclid, number)]
  {
    LeadMembership(number[0], DataLocale.nonMobileLeads);
    LeadMembership(number[0], DataLocale.mobileLeads);
  }

  /** A one-character string is in a list exactly when one of the list's
      one-character entries is that character. */
  lemma LeadMembership(c: char, list: seq<string>)
    ensures [c] in list <==> exists i :: 0 <= i < |list| && |list[i]| == 1 && list[i][0] == c
  {
    if [c] in list {
      var i :| 0 <= i < |list| && list[i] == [c];
      assert |list[i]| == 1 && list[i][0] == c;
    }
    if exists i :: 0 <= i < |list| && |list[i]| == 1 && list[i][0] == c {
      var i :| 0 <= i < |list| && |list[i]| == 1 && list[i][0] == c;
      assert list[i] == [c];
    }
  }

  /** What the +685 rule adds to the error list: nothing for an empty value
      or for "0" after the prefix came off, otherwise exactly one format error
      quoting the value as it was before the prefix came off, when what
      remains is not seven digits. */
  lemma SmMobileErrors(uspcid: string, usclid: string, mobile: string)
    ensures var v := CheckMobile(SmLocale, uspcid, usclid, mobile);
            var number := StripCountryCode(SmLocale, mobile);
            (v.errors != [] <==> mobile != [] && number != "0" && (!IsDigits(number) || |number| != 7))
            && (v.errors != [] ==> v.errors == ["invalid mobile number format: " + mobile])
            && (mobile != [] && number == "0" ==> MobileZero(uspcid, usclid) in v.events)
            && (mobile == [] ==> v == FieldVerdict(None, [], [NoMobileNumber(uspcid, usclid)]))
  {
  }

  /** The +682 rule has no "0" exception: any non-empty value that is not
      five digits once the prefix is off is one format error. */
  lemma DataMobileErrors(uspcid: string, usclid: string, mobile: string)
    ensures var v := CheckMobile(DataLocale, uspcid, usclid, mobile);
            var number := StripCountryCode(DataLocale, mobile);
            (v.errors != [] <==> mobile != [] && (!IsDigits(number) || |number| != 5))
            && (v.errors != [] ==> v.errors == ["invalid mobile number format: " + mobile])
            && (mobile == [] ==> v == FieldVerdict(None, [], [NoMobileNumber(uspcid, usclid)]))
  {
  }

  /** "0" is a warning for +685 and an error for +682. */
  lemma ZeroMobile(uspcid: string, usclid: string)
    ensures CheckMobile(SmLocale, uspcid, usclid, "0") == FieldVerdict(None, [], [MobileZero(uspcid, usclid)])
    ensures CheckMobile(DataLocale, uspcid, usclid, "0").errors == ["invalid mobile number format: 0"]
  {
    assert !StartsWith("0", "+685") && !StartsWith("0", "685");
    assert !StartsWith("0", "+682") && !StartsWith("0", "682");
    assert StripCountryCode(DataLocale, "0") == "0";
    assert |"0"| != DataLocale.length;
    assert "invalid mobile number format: " + "0" == "invalid mobile number format: 0";
  }
}
