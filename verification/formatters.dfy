/** The display formatters of `src/utils/formatters.js`: person names, phone
    numbers, truncation and capitalisation. */
module Formatters {
  import opened Text
  import opened Seqs

  // ---------------------------------------------------------------- names

  /** The blank test distributes over the `first + " " + last` join. */
  lemma BlankJoin(a: string, b: string)
    ensures Blank(a + " " + b) <==> Blank(a) && Blank(b)
  {
    var s := a + " " + b;
    if Blank(a) && Blank(b) {
      forall k | 0 <= k < |s| ensures IsSpace(s[k]) {
        if k < |a| {
          assert s[k] == a[k];
        } else if k > |a| {
          assert s[k] == b[k - |a| - 1];
        }
      }
    }
    if Blank(s) {
      forall k | 0 <= k < |a| ensures IsSpace(a[k]) {
        assert a[k] == s[k];
      }
      forall k | 0 <= k < |b| ensures IsSpace(b[k]) {
        assert b[k] == s[|a| + 1 + k];
      }
    }
  }

  /** `formatPatientName`: the first and last name joined by one space and
      trimmed. The result has no surrounding whitespace and is empty exactly
      when both parts are blank. */
  function FormatPatientName(firstName: string, lastName: string): (r: string)
    ensures exists i :: TrimmedAt(firstName + " " + lastName, r, i)
    ensures r == [] || (!IsSpace(r[0]) && !IsSpace(r[|r| - 1]))
    ensures r == [] <==> Blank(firstName) && Blank(lastName)
    ensures |r| <= |firstName| + 1 + |lastName|
  {
    TrimEmptyIffBlank(firstName + " " + lastName);
    BlankJoin(firstName, lastName);
    TrimHasNoEdgeSpace(firstName + " " + lastName);
    Trim(firstName + " " + lastName)
  }

  /** Names that are already clean are joined with exactly one space. */
  lemma PatientNameOfCleanParts(firstName: string, lastName: string)
    requires firstName != [] && !IsSpace(firstName[0])
    requires lastName != [] && !IsSpace(lastName[|lastName| - 1])
    ensures FormatPatientName(firstName, lastName) == firstName + " " + lastName
  {
    var s := firstName + " " + lastName;
    assert s[0] == firstName[0];
    assert s[|s| - 1] == lastName[|lastName| - 1];
    TrimOfTrimmed(s);
  }

  /** A clean first name with an empty last name formats as the first name
      alone: the trailing join space is trimmed away. */
  lemma PatientNameWithoutLastName(firstName: string)
    requires firstName != [] && !IsSpace(firstName[0]) && !IsSpace(firstName[|firstName| - 1])
    ensures FormatPatientName(firstName, "") == firstName
  {
    var s := firstName + " " + "";
    assert TrimStart(s) == s;
    assert s[..|s| - 1] == firstName;
    assert TrimEnd(s) == TrimEnd(firstName);
  }

  const DoctorPrefix := "Dr."

  /** `formatDoctorName`: prefixes "Dr. " unless the name already starts
      with "Dr."; the given name always survives as the tail of the result. */
  function FormatDoctorName(name: string): (r: string)
    ensures DoctorPrefix <= r
    ensures r == name || r == "Dr. " + name
    ensures |r| >= |name| && r[|r| - |name|..] == name
    ensures DoctorPrefix <= name <==> r == name
  {
    if DoctorPrefix <= name then name else "Dr. " + name
  }

  /** Formatting a doctor's name twice is the same as formatting it once. */
  lemma FormatDoctorNameIdempotent(name: string)
    ensures FormatDoctorName(FormatDoctorName(name)) == FormatDoctorName(name)
  {
  }

  // --------------------------------------------------------------- phones

  /** The characters `phone.replace(/[^\d+]/g, '')` keeps: ASCII digits
      (`\d`) and the plus sign. */
  predicate IsPhoneChar(c: char) {
    '0' <= c <= '9' || c == '+'
  }

  /** All characters of `s` are kept by the cleaning step. */
  predicate IsClean(s: string) {
    forall i :: 0 <= i < |s| ==> IsPhoneChar(s[i])
  }

  /** The cleaning step of `formatPhoneNumber`: every digit and every `+`
      of the input, in their order, and nothing else. */
  function CleanPhone(phone: string): (r: string)
    ensures IsClean(r)
    ensures SubsequenceOf(r, phone)
    ensures forall i :: 0 <= i < |phone| ==> (phone[i] in r <==> IsPhoneChar(phone[i]))
  {
    FilterIsSubsequence(IsPhoneChar, phone);
    Filter(IsPhoneChar, phone)
  }

  /** Cleaning splits over concatenation ... */
  lemma CleanPhoneConcat(a: string, b: string)
    ensures CleanPhone(a + b) == CleanPhone(a) + CleanPhone(b)
  {
    FilterConcat(IsPhoneChar, a, b);
  }

  /** ... and leaves an already clean string alone, wherever its `+` signs
      stand; the comment in the source speaks of keeping only a leading `+`,
      but the character class keeps them all. Together with the concatenation
      law this pins the cleaning step down completely. */
  lemma CleanPhoneOfClean(s: string)
    requires IsClean(s)
    ensures CleanPhone(s) == s
  {
    FilterKeepsAll(IsPhoneChar, s);
  }

  /** A string with no digit and no `+` cleans to nothing. */
  lemma CleanPhoneOfNoise(s: string)
    requires forall i :: 0 <= i < |s| ==> !IsPhoneChar(s[i])
    ensures CleanPhone(s) == ""
  {
    FilterDropsAll(IsPhoneChar, s);
  }

  /** Cleaning is idempotent. */
  lemma CleanPhoneIdempotent(s: string)
    ensures CleanPhone(CleanPhone(s)) == CleanPhone(s)
  {
    CleanPhoneOfClean(CleanPhone(s));
  }

  /** A North American number: eleven cleaned characters starting with 1. */
  predicate IsNanp(cleaned: string) {
    |cleaned| == 11 && cleaned[0] == '1'
  }

  /** `formatPhoneNumber`. Empty input gives the empty string. A cleaned
      North American number is laid out as `+1 (AAA) BBB-CCCC`; any other
      cleaned string is returned with a `+` in front unless it already has
      one. Every non-empty input gives a result starting with `+`. */
  function FormatPhoneNumber(phone: string): (r: string)
    ensures phone == "" <==> r == ""
    ensures phone != "" ==> r[0] == '+'
    ensures phone != "" && IsNanp(CleanPhone(phone)) ==>
      var c := CleanPhone(phone);
      && |r| == 17
      && r[..4] == "+1 (" && r[4..7] == c[1..4] && r[7..9] == ") "
      && r[9..12] == c[4..7] && r[12] == '-' && r[13..] == c[7..]
    ensures phone != "" && !IsNanp(CleanPhone(phone)) ==>
      var c := CleanPhone(phone);
      r == c || r == "+" + c
  {
    if phone == "" then ""
    else
      var cleaned := CleanPhone(phone);
      if IsNanp(cleaned) then
        "+1 (" + cleaned[1..4] + ") " + cleaned[4..7] + "-" + cleaned[7..]
      else if "+" <= cleaned then
        cleaned
      else
        "+" + cleaned
  }

  /** Formatting only adds punctuation: cleaning the formatted number gives
      back the cleaned input with a single leading `+` (the country code `1`
      of a North American number reappears after it). */
  lemma FormatPhoneNumberKeepsDigits(phone: string)
    requires phone != ""
    ensures var c := CleanPhone(phone);
      CleanPhone(FormatPhoneNumber(phone)) == if "+" <= c then c else "+" + c
  {
    var c := CleanPhone(phone);
    var r := FormatPhoneNumber(phone);
    if IsNanp(c) {
      NanpLayoutKeepsDigits(c);
    } else if "+" <= c {
      CleanPhoneOfClean(c);
    } else {
      CleanPhoneOfClean("+" + c);
    }
  }

  /** Appending clean characters appends them to the cleaned string. */
  lemma CleanPhoneAppendClean(a: string, b: string)
    requires IsClean(b)
    ensures CleanPhone(a + b) == CleanPhone(a) + b
  {
    CleanPhoneConcat(a, b);
    CleanPhoneOfClean(b);
  }

  /** Appending punctuation leaves the cleaned string as it was. */
  lemma CleanPhoneAppendNoise(a: string, b: string)
    requires forall i :: 0 <= i < |b| ==> !IsPhoneChar(b[i])
    ensures CleanPhone(a + b) == CleanPhone(a)
  {
    CleanPhoneConcat(a, b);
    CleanPhoneOfNoise(b);
  }

  /** The punctuation of the `+1 (AAA) BBB-CCCC` layout cleans away. */
  lemma NanpLayoutKeepsDigits(c: string)
    requires IsNanp(c) && IsClean(c)
    ensures CleanPhone("+1 (" + c[1..4] + ") " + c[4..7] + "-" + c[7..]) == "+" + c
  {
    var a, b, d := c[1..4], c[4..7], c[7..];
    assert IsClean(a) && IsClean(b) && IsClean(d);
    NanpGroupsKept(a, b, d);
    assert a + b + d == c[1..];
    assert c == [c[0]] + c[1..];
  }

  /** Between the layout's punctuation, clean groups are kept as they are. */
  lemma NanpGroupsKept(a: string, b: string, d: string)
    requires IsClean(a) && IsClean(b) && IsClean(d)
    ensures CleanPhone("+1 (" + a + ") " + b + "-" + d) == "+1" + (a + b + d)
  {
    NanpPunctuation();
    var close, dash := ") ", "-";
    assert !IsPhoneChar(close[0]) && !IsPhoneChar(close[1]) && !IsPhoneChar(dash[0]);
    CleanPhoneLayout("+1 (", a, close, b, dash, d);
  }

  /** The opening of the layout cleans to its country code. */
  lemma NanpPunctuation()
    ensures CleanPhone("+1 (") == "+1"
  {
    var noise := " (";
    assert !IsPhoneChar(noise[0]) && !IsPhoneChar(noise[1]);
    CleanPhoneAppendNoise("+1", noise);
    assert "+1" + noise == "+1 (";
    var code := "+1";
    assert IsPhoneChar(code[0]) && IsPhoneChar(code[1]);
    CleanPhoneOfClean(code);
  }

  /** Cleaning a layout of clean groups between punctuation keeps exactly
      the groups. */
  lemma CleanPhoneLayout(open: string, a: string, close: string, b: string, dash: string, d: string)
    requires IsClean(a) && IsClean(b) && IsClean(d)
    requires forall i :: 0 <= i < |close| ==> !IsPhoneChar(close[i])
    requires forall i :: 0 <= i < |dash| ==> !IsPhoneChar(dash[i])
    ensures CleanPhone(open + a + close + b + dash + d) == CleanPhone(open) + a + b + d
  {
    CleanPhoneAppendClean(open, a);
    CleanPhoneAppendNoise(open + a, close);
    CleanPhoneAppendClean(open + a + close, b);
    CleanPhoneAppendNoise(open + a + close + b, dash);
    CleanPhoneAppendClean(open + a + close + b + dash, d);
  }

  /** Outside the North American layout the formatter is idempotent: its
      output is already clean and already starts with `+`. */
  lemma FormatPhoneNumberSettles(phone: string)
    requires phone != "" && !IsNanp(CleanPhone(phone))
    ensures FormatPhoneNumber(FormatPhoneNumber(phone)) == FormatPhoneNumber(phone)
  {
    var c := CleanPhone(phone);
    var r := FormatPhoneNumber(phone);
    if "+" <= c {
      CleanPhoneOfClean(c);
    } else {
      CleanPhoneOfClean("+" + c);
    }
  }

  /** Clean input that does not start with `+` (and is not a North American
      number) only gains a leading `+`: a `+` further in is kept where it is,
      so "555+1234" formats as "+555+1234". */
  lemma FormatPhoneNumberOfClean(phone: string)
    requires phone != "" && IsClean(phone) && phone[0] != '+' && !IsNanp(phone)
    ensures FormatPhoneNumber(phone) == "+" + phone
  {
    CleanPhoneOfClean(phone);
  }

  // ------------------------------------------------------------ truncation

  /** The end index `text.slice(0, maxLength)` uses on a string of length
      `len`: a negative bound counts back from the end, never below zero. */
  function SliceEnd(len: nat, maxLength: int): (e: nat)
    ensures e <= len
    ensures 0 <= maxLength <= len ==> e == maxLength
    ensures maxLength > len ==> e == len
    ensures maxLength < 0 ==> e == if len + maxLength < 0 then 0 else len + maxLength
  {
    if maxLength >= 0 then
      if maxLength <= len then maxLength else len
    else if len + maxLength < 0 then 0
    else len + maxLength
  }

  /** `truncateText`: text no longer than `maxLength` (and the empty text)
      comes back unchanged; longer text is cut and marked with "...". */
  function TruncateText(text: string, maxLength: int := 100): (r: string)
    ensures text == "" || |text| <= maxLength ==> r == text
    ensures text != "" && |text| > maxLength ==>
      && |r| >= 3 && r[|r| - 3..] == "..."
      && |r| - 3 < |text| && r[..|r| - 3] == text[..|r| - 3]
    ensures text != "" && |text| > maxLength ==> |r| == SliceEnd(|text|, maxLength) + 3
    ensures 0 <= maxLength < |text| ==> |r| == maxLength + 3
  {
    if text == "" || |text| <= maxLength then text
    else text[..SliceEnd(|text|, maxLength)] + "..."
  }

  /** With a non-negative bound, truncating twice is truncating once: the
      marked result is cut at the same place again. */
  lemma TruncateTextIdempotent(text: string, maxLength: int)
    requires maxLength >= 0
    ensures TruncateText(TruncateText(text, maxLength), maxLength) == TruncateText(text, maxLength)
  {
    var r := TruncateText(text, maxLength);
    if text != "" && |text| > maxLength {
      assert r[..maxLength] == text[..maxLength];
    }
  }

  // -------------------------------------------------------- capitalisation

  /** `capitalizeFirst`: the empty string stays empty; otherwise the first
      character is upper-cased and the rest lower-cased. The letters are
      those of the input up to case. */
  function CapitalizeFirst(s: string): (r: string)
    ensures |r| == |s|
    ensures |s| > 0 ==> !IsAsciiLower(r[0])
    ensures forall i :: 1 <= i < |s| ==> !IsAsciiUpper(r[i])
    ensures ToLower(r) == ToLower(s)
  {
    if s == "" then ""
    else
      var r := [ToUpperChar(s[0])] + ToLower(s[1..]);
      assert ToLower(r)[0] == ToLower(s)[0];
      assert forall i :: 1 <= i < |s| ==> ToLower(r)[i] == ToLower(s)[i];
      r
  }

  /** Capitalising an already capitalised string changes nothing. */
  lemma CapitalizeFirstIdempotent(s: string)
    ensures CapitalizeFirst(CapitalizeFirst(s)) == CapitalizeFirst(s)
  {
  }
}
