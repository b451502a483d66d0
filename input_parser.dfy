/** The validating input parser: required keys, whitespace trimming,
    per-entry validation of work experience and education, defaults for the
    optional fields. Validation failures are `Err(ValidationError)` values
    rather than raised exceptions. */
module InputParser {
  import opened Outcomes
  import opened Text

  /** The two strptime patterns the parser uses. */
  datatype DateFormat = YearMonth | Year {
    function Pattern(): string {
      match this
      case YearMonth => "%Y-%m"
      case Year => "%Y"
    }
  }

  /** What the phone-number library makes of a string: not a phone number at
      all, or a number that is valid or not, with its international format. */
  datatype PhoneParse = Unparseable | Parsed(isValid: bool, international: string)

  /** The external libraries, as given functions: the email validator (the
      normalised address or the library's error text), the phone-number
      parser, and whether strptime accepts a string under a pattern. */
  datatype Validators = Validators(
    normalizeEmail: string -> Result<string, string>,
    parsePhone: string -> PhoneParse,
    dateMatches: (string, DateFormat) -> bool)

  /** The module's ValidationError, one constructor per place that raises it. */
  datatype ValidationError =
    | MissingField(field: string)
    | IncompleteExperience
    | IncompleteEducation
    | InvalidDate(text: string, format: DateFormat)
    | InvalidEmail(detail: string)
    | InvalidPhone
    | MalformedPhone
  {
    /** The exception message. */
    function Message(): string {
      match this
      case MissingField(field) => "Missing required field: " + field
      case IncompleteExperience => "Work experience requires 'company', 'role', and 'start_date'"
      case IncompleteEducation => "Education requires 'institution', 'degree', and 'graduation_year'"
      case InvalidDate(text, format) => "Invalid date format for " + text + ", expected " + format.Pattern()
      case InvalidEmail(detail) => "Invalid email format: " + detail
      case InvalidPhone => "Invalid phone number"
      case MalformedPhone => "Invalid phone number format"
    }
  }

  /** validate_email_address: the validator's normalised address, or its
      error text behind "Invalid email format: ". */
  function ValidateEmail(v: Validators, email: string): (r: Result<string, ValidationError>)
    ensures r.Ok? <==> v.normalizeEmail(email).Ok?
    ensures r.Ok? ==> r.value == v.normalizeEmail(email).value
    ensures r.Err? ==> r.error == InvalidEmail(v.normalizeEmail(email).error)
  {
    match v.normalizeEmail(email)
    case Ok(normalized) => Ok(normalized)
    case Err(detail) => Err(InvalidEmail(detail))
  }

  /** validate_phone_number: a string the library cannot parse is malformed,
      a parsed but invalid number is invalid, a valid one comes back in
      international format. */
  function ValidatePhone(v: Validators, phone: string): (r: Result<string, ValidationError>)
    ensures r.Ok? <==> v.parsePhone(phone).Parsed? && v.parsePhone(phone).isValid
    ensures r.Ok? ==> r.value == v.parsePhone(phone).international
    ensures v.parsePhone(phone).Unparseable? ==> r == Err(MalformedPhone)
    ensures v.parsePhone(phone).Parsed? && !v.parsePhone(phone).isValid ==> r == Err(InvalidPhone)
  {
    match v.parsePhone(phone)
    case Unparseable => Err(MalformedPhone)
    case Parsed(isValid, international) =>
      if !isValid then Err(InvalidPhone) else Ok(international)
  }

  /** validate_date: the input itself, unchanged, when strptime accepts it. */
  function ValidateDate(v: Validators, text: string, format: DateFormat): (r: Result<string, ValidationError>)
    ensures r.Ok? <==> v.dateMatches(text, format)
    ensures r.Ok? ==> r.value == text
    ensures r.Err? ==> r.error == InvalidDate(text, format)
  {
    if v.dateMatches(text, format) then Ok(text) else Err(InvalidDate(text, format))
  }

  /** sanitize_input: Python's str.strip() with no argument. */
  function Sanitize(s: string): string {
    Strip(s, IsSpace)
  }

  /** Sanitising removes whitespace at both ends and nothing else: the result
      is a slice of the input, everything cut is whitespace, the result
      neither starts nor ends with whitespace, and a second pass changes
      nothing. */
  lemma SanitizeSpec(s: string)
    ensures var i := LeadingCount(s, IsSpace);
      && i + |Sanitize(s)| <= |s|
      && Sanitize(s) == s[i..i + |Sanitize(s)|]
      && (forall j | 0 <= j < i :: IsSpace(s[j]))
      && (forall j | i + |Sanitize(s)| <= j < |s| :: IsSpace(s[j]))
    ensures Sanitize(s) != [] ==> !IsSpace(Sanitize(s)[0]) && !IsSpace(Sanitize(s)[|Sanitize(s)| - 1])
    ensures Sanitize(Sanitize(s)) == Sanitize(s)
  {
    StripSpec(s, IsSpace);
    StripIdempotent(s, IsSpace);
  }

  /** An input dictionary of string fields (an experience or education entry). */
  type RawEntry = map<string, string>

  /** A parsed work-experience entry: the four keys company, role,
      start_date and end_date. */
  datatype Experience = Experience(company: string, role: string, startDate: string, endDate: string)

  /** A parsed education entry: the three keys institution, degree and
      graduation_year. */
  datatype Education = Education(institution: string, degree: string, graduationYear: string)

  /** The end date an entry states, "Present" when it has none. */
  function EndDateOf(entry: RawEntry): string {
    if "end_date" in entry then entry["end_date"] else "Present"
  }

  /** One iteration of parse_experience: the three required keys, trimmed
      company and role, a YYYY-MM start date, and an end date that defaults
      to "Present" and is validated only when it is something else. */
  function ParseExperienceEntry(v: Validators, entry: RawEntry): (r: Result<Experience, ValidationError>)
    ensures r == Err(IncompleteExperience) <==> !("company" in entry && "role" in entry && "start_date" in entry)
    ensures r.Ok? <==>
      && "company" in entry && "role" in entry && "start_date" in entry
      && v.dateMatches(entry["start_date"], YearMonth)
      && (EndDateOf(entry) == "Present" || v.dateMatches(EndDateOf(entry), YearMonth))
    ensures r.Ok? ==> r.value == Experience(Sanitize(entry["company"]), Sanitize(entry["role"]),
                                            entry["start_date"], EndDateOf(entry))
    ensures r.Err? && r.error != IncompleteExperience ==>
      r.error == if !v.dateMatches(entry["start_date"], YearMonth) then InvalidDate(entry["start_date"], YearMonth)
                 else InvalidDate(EndDateOf(entry), YearMonth)
  {
    if !("company" in entry && "role" in entry && "start_date" in entry) then
      Err(IncompleteExperience)
    else
      var company := Sanitize(entry["company"]);
      var role := Sanitize(entry["role"]);
      var startDate :- ValidateDate(v, entry["start_date"], YearMonth);
      var endDate := EndDateOf(entry);
      var checkedEnd :- if endDate != "Present" then ValidateDate(v, endDate, YearMonth) else Ok(endDate);
      Ok(Experience(company, role, startDate, checkedEnd))
  }

  /** One iteration of parse_education: the three required keys, trimmed
      institution and degree, and a YYYY graduation year. */
  function ParseEducationEntry(v: Validators, entry: RawEntry): (r: Result<Education, ValidationError>)
    ensures r == Err(IncompleteEducation) <==> !("institution" in entry && "degree" in entry && "graduation_year" in entry)
    ensures r.Ok? <==>
      && "institution" in entry && "degree" in entry && "graduation_year" in entry
      && v.dateMatches(entry["graduation_year"], Year)
    ensures r.Ok? ==> r.value == Education(Sanitize(entry["institution"]), Sanitize(entry["degree"]),
                                           entry["graduation_year"])
    ensures r.Err? && r.error != IncompleteEducation ==> r.error == InvalidDate(entry["graduation_year"], Year)
  {
    if !("institution" in entry && "degree" in entry && "graduation_year" in entry) then
      Err(IncompleteEducation)
    else
      var institution := Sanitize(entry["institution"]);
      var degree := Sanitize(entry["degree"]);
      var graduationYear :- ValidateDate(v, entry["graduation_year"], Year);
      Ok(Education(institution, degree, graduationYear))
  }

  /** "Present" (stated or defaulted) is never handed to the date check: such
      an entry's outcome depends only on its keys and its start date. */
  lemma PresentIsNeverValidated(v: Validators, w: Validators, entry: RawEntry)
    requires EndDateOf(entry) == "Present"
    requires "start_date" in entry ==> v.dateMatches(entry["start_date"], YearMonth) == w.dateMatches(entry["start_date"], YearMonth)
    ensures ParseExperienceEntry(v, entry) == ParseExperienceEntry(w, entry)
  {
  }

  /** Every experience entry parses. */
  predicate ExperienceOk(v: Validators, entries: seq<RawEntry>) {
    forall i | 0 <= i < |entries| :: ParseExperienceEntry(v, entries[i]).Ok?
  }

  /** `e` is the error of the first experience entry that fails. */
  predicate FirstExperienceError(v: Validators, entries: seq<RawEntry>, e: ValidationError) {
    exists i | 0 <= i < |entries| ::
      && ParseExperienceEntry(v, entries[i]) == Err(e)
      && forall j | 0 <= j < i :: ParseExperienceEntry(v, entries[j]).Ok?
  }

  /** parse_experience: entry by entry, stopping at the first failure; on
      success one parsed entry per input entry, in input order. */
  method ParseExperience(v: Validators, entries: seq<RawEntry>) returns (r: Result<seq<Experience>, ValidationError>)
    ensures r.Ok? <==> ExperienceOk(v, entries)
    ensures r.Ok? ==> |r.value| == |entries|
    ensures r.Ok? ==> forall i | 0 <= i < |entries| :: r.value[i] == ParseExperienceEntry(v, entries[i]).value
    ensures r.Err? ==> FirstExperienceError(v, entries, r.error)
  {
    var parsed: seq<Experience> := [];
    for i := 0 to |entries|
      invariant |parsed| == i
      invariant forall j | 0 <= j < i :: ParseExperienceEntry(v, entries[j]).Ok?
      invariant forall j | 0 <= j < i :: parsed[j] == ParseExperienceEntry(v, entries[j]).value
    {
      var entry := ParseExperienceEntry(v, entries[i]);
      if entry.Err? {
        return Err(entry.error);
      }
      parsed := parsed + [entry.value];
    }
    return Ok(parsed);
  }

  /** Every education entry parses. */
  predicate EducationOk(v: Validators, entries: seq<RawEntry>) {
    forall i | 0 <= i < |entries| :: ParseEducationEntry(v, entries[i]).Ok?
  }

  /** `e` is the error of the first education entry that fails. */
  predicate FirstEducationError(v: Validators, entries: seq<RawEntry>, e: ValidationError) {
    exists i | 0 <= i < |entries| ::
      && ParseEducationEntry(v, entries[i]) == Err(e)
      && forall j | 0 <= j < i :: ParseEducationEntry(v, entries[j]).Ok?
  }

  /** parse_education: entry by entry, stopping at the first failure; on
      success one parsed entry per input entry, in input order. */
  method ParseEducation(v: Validators, entries: seq<RawEntry>) returns (r: Result<seq<Education>, ValidationError>)
    ensures r.Ok? <==> EducationOk(v, entries)
    ensures r.Ok? ==> |r.value| == |entries|
    ensures r.Ok? ==> forall i | 0 <= i < |entries| :: r.value[i] == ParseEducationEntry(v, entries[i]).value
    ensures r.Err? ==> FirstEducationError(v, entries, r.error)
  {
    var parsed: seq<Education> := [];
    for i := 0 to |entries|
      invariant |parsed| == i
      invariant forall j | 0 <= j < i :: ParseEducationEntry(v, entries[j]).Ok?
      invariant forall j | 0 <= j < i :: parsed[j] == ParseEducationEntry(v, entries[j]).value
    {
      var entry := ParseEducationEntry(v, entries[i]);
      if entry.Err? {
        return Err(entry.error);
      }
      parsed := parsed + [entry.value];
    }
    return Ok(parsed);
  }

  /** The first failing entry decides the error: there is only one. */
  lemma FirstExperienceErrorUnique(v: Validators, entries: seq<RawEntry>, e1: ValidationError, e2: ValidationError)
    requires FirstExperienceError(v, entries, e1) && FirstExperienceError(v, entries, e2)
    ensures e1 == e2
  {
  }

  /** The resume dictionary handed to the parser: each field present or
      absent. */
  datatype RawResume = RawResume(
    name: Option<string>,
    email: Option<string>,
    phone: Option<string>,
    experience: Option<seq<RawEntry>>,
    education: Option<seq<RawEntry>>,
    skills: Option<seq<string>>,
    careerSummary: Option<string>,
    hobbies: Option<seq<string>>)

  /** The fields checked first, in the order they are checked. */
  const RequiredFields: seq<string> := ["name", "email", "phone", "experience", "education"]

  /** `field in data` for the required field names. */
  predicate HasField(data: RawResume, field: string) {
    if field == "name" then data.name.Some?
    else if field == "email" then data.email.Some?
    else if field == "phone" then data.phone.Some?
    else if field == "experience" then data.experience.Some?
    else if field == "education" then data.education.Some?
    else false
  }

  /** All five required fields are present. */
  predicate HasRequired(data: RawResume) {
    data.name.Some? && data.email.Some? && data.phone.Some? && data.experience.Some? && data.education.Some?
  }

  /** The result dictionary: exactly eight keys. */
  datatype ParsedResume = ParsedResume(
    name: string,
    email: string,
    phone: string,
    experience: seq<Experience>,
    education: seq<Education>,
    skills: seq<string>,
    careerSummary: string,
    hobbies: seq<string>)

  /** `[sanitize_input(x) for x in xs]`. */
  function SanitizeAll(xs: seq<string>): (ys: seq<string>)
    ensures |ys| == |xs|
    ensures forall i | 0 <= i < |xs| :: ys[i] == Sanitize(xs[i])
  {
    seq(|xs|, i requires 0 <= i < |xs| => Sanitize(xs[i]))
  }

  /** The trimmed email and phone, each checked by its validator. */
  function CheckedEmail(v: Validators, data: RawResume): Result<string, ValidationError>
    requires data.email.Some?
  {
    ValidateEmail(v, Sanitize(data.email.value))
  }

  function CheckedPhone(v: Validators, data: RawResume): Result<string, ValidationError>
    requires data.phone.Some?
  {
    ValidatePhone(v, Sanitize(data.phone.value))
  }

  /** parse_resume_input: the required fields in order, then email, phone,
      experience and education in that order, each failure ending the parse
      with its own error; on success the eight fields with their defaults. */
  method ParseResumeInput(v: Validators, data: RawResume) returns (r: Result<ParsedResume, ValidationError>)
    // A missing required field: the first one in check order is reported.
    ensures forall i | 0 <= i < |RequiredFields| ::
      (!HasField(data, RequiredFields[i]) && forall j | 0 <= j < i :: HasField(data, RequiredFields[j]))
        ==> r == Err(MissingField(RequiredFields[i]))
    // The checks after it, in order.
    ensures HasRequired(data) && CheckedEmail(v, data).Err? ==> r == Err(CheckedEmail(v, data).error)
    ensures HasRequired(data) && CheckedEmail(v, data).Ok? && CheckedPhone(v, data).Err? ==>
      r == Err(CheckedPhone(v, data).error)
    ensures HasRequired(data) && CheckedEmail(v, data).Ok? && CheckedPhone(v, data).Ok?
            && !ExperienceOk(v, data.experience.value) ==>
      r.Err? && FirstExperienceError(v, data.experience.value, r.error)
    ensures HasRequired(data) && CheckedEmail(v, data).Ok? && CheckedPhone(v, data).Ok?
            && ExperienceOk(v, data.experience.value) && !EducationOk(v, data.education.value) ==>
      r.Err? && FirstEducationError(v, data.education.value, r.error)
    // Success exactly when every check passes, with these contents.
    ensures r.Ok? <==>
      && HasRequired(data) && CheckedEmail(v, data).Ok? && CheckedPhone(v, data).Ok?
      && ExperienceOk(v, data.experience.value) && EducationOk(v, data.education.value)
    ensures r.Ok? ==>
      && r.value.name == Sanitize(data.name.value)
      && r.value.email == CheckedEmail(v, data).value
      && r.value.phone == CheckedPhone(v, data).value
      && |r.value.experience| == |data.experience.value|
      && (forall i | 0 <= i < |data.experience.value| ::
            r.value.experience[i] == ParseExperienceEntry(v, data.experience.value[i]).value)
      && |r.value.education| == |data.education.value|
      && (forall i | 0 <= i < |data.education.value| ::
            r.value.education[i] == ParseEducationEntry(v, data.education.value[i]).value)
      && r.value.skills == SanitizeAll(data.skills.GetOr([]))
      && r.value.careerSummary == Sanitize(data.careerSummary.GetOr("Not Provided"))
      && r.value.hobbies == SanitizeAll(data.hobbies.GetOr([]))
  {
    for i := 0 to |RequiredFields|
      invariant forall j | 0 <= j < i :: HasField(data, RequiredFields[j])
    {
      if !HasField(data, RequiredFields[i]) {
        return Err(MissingField(RequiredFields[i]));
      }
    }
    assert HasRequired(data) by {
      assert HasField(data, RequiredFields[0]) && HasField(data, RequiredFields[1]) && HasField(data, RequiredFields[2])
          && HasField(data, RequiredFields[3]) && HasField(data, RequiredFields[4]);
    }

    var name := Sanitize(data.name.value);
    var email :- ValidateEmail(v, Sanitize(data.email.value));
    var phone :- ValidatePhone(v, Sanitize(data.phone.value));
    var experience :- ParseExperience(v, data.experience.GetOr([]));
    var education :- ParseEducation(v, data.education.GetOr([]));

    var skills := SanitizeAll(data.skills.GetOr([]));
    var careerSummary := Sanitize(data.careerSummary.GetOr("Not Provided"));
    var hobbies := SanitizeAll(data.hobbies.GetOr([]));
    return Ok(ParsedResume(name, email, phone, experience, education, skills, careerSummary, hobbies));
  }
}
