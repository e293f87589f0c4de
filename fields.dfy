/** The validated value wrappers of a contact: `Field` and its three kinds
    `Name`, `Phone` and `Birthday`, each built by a validating constructor that
    either yields the field or raises `ValueError`. */
module Fields {
  import opened Wrappers
  import opened Calendar

  /** A field and the value it wraps: the name and phone kinds hold the text
      they were given, a birthday holds the parsed calendar date. */
  datatype Field =
    | NameField(text: string)
    | PhoneField(text: string)
    | BirthdayField(date: Date)

  /** `Field.__eq__`: two fields are equal when their wrapped values are equal,
      whatever their kinds; a text never equals a date. */
  predicate Equals(a: Field, b: Field) {
    match (a, b)
    case (BirthdayField(d), BirthdayField(e)) => d == e
    case (BirthdayField(_), _) => false
    case (_, BirthdayField(_)) => false
    case _ => a.text == b.text
  }

  /** `f.value == s` for a string `s`. */
  predicate HasValue(f: Field, s: string) {
    !f.BirthdayField? && f.text == s
  }

  /** `str(f)`: the text as is, a birthday as `DD.MM.YYYY`. */
  function Render(f: Field): (s: string)
    requires f.BirthdayField? ==> ValidDate(f.date)
  {
    match f
    case BirthdayField(d) => FormatDate(d)
    case _ => f.text
  }

  // ---------------------------------------------------------------------------
  // Name

  /** The characters Python's `str.strip()` removes: those `str.isspace()`
      accepts. */
  predicate IsSpace(c: char) {
    || '\U{9}' <= c <= '\U{D}'
    || '\U{1C}' <= c <= '\U{20}'
    || c == '\U{85}' || c == '\U{A0}' || c == '\U{1680}'
    || '\U{2000}' <= c <= '\U{200A}'
    || c == '\U{2028}' || c == '\U{2029}' || c == '\U{202F}' || c == '\U{205F}' || c == '\U{3000}'
  }

  predicate IsBlank(s: string) {
    forall i | 0 <= i < |s| :: IsSpace(s[i])
  }

  function LeftStrip(s: string): string {
    if |s| > 0 && IsSpace(s[0]) then LeftStrip(s[1..]) else s
  }

  function RightStrip(s: string): string {
    if |s| > 0 && IsSpace(s[|s| - 1]) then RightStrip(s[..|s| - 1]) else s
  }

  /** `s.strip()` */
  function Strip(s: string): string {
    RightStrip(LeftStrip(s))
  }

  lemma {:induction false} LeftStripEmptyIffBlank(s: string)
    ensures LeftStrip(s) == [] <==> IsBlank(s)
    ensures LeftStrip(s) != [] ==> !IsSpace(LeftStrip(s)[0])
  {
    if |s| > 0 && IsSpace(s[0]) {
      LeftStripEmptyIffBlank(s[1..]);
      assert IsBlank(s) <==> IsBlank(s[1..]) by {
        if IsBlank(s[1..]) {
          forall i | 0 <= i < |s| ensures IsSpace(s[i]) {
            if i > 0 { assert s[i] == s[1..][i - 1]; }
          }
        }
        if IsBlank(s) {
          forall i | 0 <= i < |s[1..]| ensures IsSpace(s[1..][i]) {
            assert s[1..][i] == s[i + 1];
          }
        }
      }
    }
  }

  lemma {:induction false} RightStripKeepsNonSpaceHead(s: string)
    requires s != [] && !IsSpace(s[0])
    ensures RightStrip(s) != []
  {
    if IsSpace(s[|s| - 1]) {
      RightStripKeepsNonSpaceHead(s[..|s| - 1]);
    }
  }

  /** `s.strip()` is empty exactly when every character of `s` is whitespace. */
  lemma StripEmptyIffBlank(s: string)
    ensures Strip(s) == [] <==> IsBlank(s)
  {
    LeftStripEmptyIffBlank(s);
    if LeftStrip(s) != [] {
      RightStripKeepsNonSpaceHead(LeftStrip(s));
    }
  }

  /** `Name(value)`: rejects a value that is empty once stripped, and keeps the
      value unstripped otherwise. */
  function Name(s: string): (r: Result<Field, Error>)
    ensures r.Success? <==> !IsBlank(s)
    ensures r.Success? ==> r.value == NameField(s)
    ensures r.Failure? ==> r.error == ValueError("Name field cannot be empty.")
  {
    StripEmptyIffBlank(s);
    if Strip(s) == [] then Failure(ValueError("Name field cannot be empty.")) else Success(NameField(s))
  }

  // ---------------------------------------------------------------------------
  // Phone

  /** `s.isdigit()` over ASCII digits: non-empty and digits only. */
  predicate IsDigits(s: string) {
    |s| > 0 && forall i | 0 <= i < |s| :: IsDigit(s[i])
  }

  /** What `Phone` accepts: ten characters, each a digit. */
  predicate IsPhoneNumber(s: string) {
    IsDigits(s) && |s| == 10
  }

  /** `Phone(value)` */
  function Phone(s: string): (r: Result<Field, Error>)
    ensures r.Success? <==> IsPhoneNumber(s)
    ensures r.Success? ==> r.value == PhoneField(s)
    ensures r.Failure? ==> r.error == ValueError("Phone number must consist of 10 digits.")
  {
    if !IsDigits(s) || |s| != 10 then
      Failure(ValueError("Phone number must consist of 10 digits."))
    else
      Success(PhoneField(s))
  }

  // ---------------------------------------------------------------------------
  // Birthday

  /** `Birthday(value)`: parses `DD.MM.YYYY`; any parse failure becomes one
      `ValueError`. */
  function Birthday(s: string): (r: Result<Field, Error>)
    ensures r.Success? <==> ParseDate(s).Some?
    ensures r.Success? ==> r.value.BirthdayField? && ValidDate(r.value.date) && Render(r.value) == s
    ensures r.Failure? ==> r.error == ValueError("Invalid date format. Use DD.MM.YYYY")
  {
    match ParseDate(s)
    case Some(d) => Success(BirthdayField(d))
    case None => Failure(ValueError("Invalid date format. Use DD.MM.YYYY"))
  }

  /** A birthday rendered by `Birthday.__str__` is accepted back by `Birthday`
      and gives the same field. */
  lemma BirthdayRoundTrip(d: Date)
    requires ValidDate(d)
    ensures Birthday(Render(BirthdayField(d))) == Success(BirthdayField(d))
  {
    ParseFormat(d);
  }

  // ---------------------------------------------------------------------------
  // Equality

  /** `Field.__eq__` is an equivalence relation. */
  lemma EqualsIsEquivalence(a: Field, b: Field, c: Field)
    ensures Equals(a, a)
    ensures Equals(a, b) ==> Equals(b, a)
    ensures Equals(a, b) && Equals(b, c) ==> Equals(a, c)
  {
  }

  /** Equality looks only at the value: a phone equals exactly the text fields
      holding the same digits, of either kind, and never a birthday. */
  lemma EqualsPhone(s: string, f: Field)
    ensures Equals(PhoneField(s), f) <==> HasValue(f, s)
    ensures Equals(PhoneField(s), NameField(s))
  {
  }
}
