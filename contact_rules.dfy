/** The contact form's data and its validation rules, as pure functions:
    the six-field record, the e-mail pattern test and the error map that
    validation computes. */
module ContactRules {
  import opened JsText

  /** The six inputs of the form, by their `name` attribute. */
  datatype Field = Name | Email | Phone | Company | Service | Message

  datatype FormData = FormData(
    name: string, email: string, phone: string,
    company: string, service: string, message: string)
  {
    function Get(field: Field): string {
      match field
      case Name => name
      case Email => email
      case Phone => phone
      case Company => company
      case Service => service
      case Message => message
    }

    /** The record with one field replaced: `{ ...prev, [name]: value }`. */
    function With(field: Field, value: string): (d: FormData)
      ensures d.Get(field) == value
      ensures forall g :: g != field ==> d.Get(g) == Get(g)
    {
      match field
      case Name => this.(name := value)
      case Email => this.(email := value)
      case Phone => this.(phone := value)
      case Company => this.(company := value)
      case Service => this.(service := value)
      case Message => this.(message := value)
    }
  }

  /** Two records that agree on every field are equal, so a state given
      field by field is given completely. */
  lemma FieldsDetermineForm(a: FormData, b: FormData)
    requires forall g :: a.Get(g) == b.Get(g)
    ensures a == b
  {
    assert a.Get(Name) == b.Get(Name) && a.Get(Email) == b.Get(Email);
    assert a.Get(Phone) == b.Get(Phone) && a.Get(Company) == b.Get(Company);
    assert a.Get(Service) == b.Get(Service) && a.Get(Message) == b.Get(Message);
  }

  /** The initial form state, and the state after a successful send. */
  const EmptyForm := FormData("", "", "", "", "", "")

  const NameRequired := "Name is required"
  const EmailRequired := "Email is required"
  const EmailInvalid := "Email is invalid"
  const MessageRequired := "Message is required"
  const ServiceRequired := "Please select a service"

  /** Field name to message. A key mapped to "" is how an error is cleared. */
  type Errors = map<Field, string>

  /** `errors[field]` is truthy: an error message is shown under the field. */
  predicate HasError(errors: Errors, field: Field) {
    field in errors && errors[field] != ""
  }

  // ----- The pattern /\S+@\S+\.\S+/ and RegExp.prototype.test -----

  /** s[lo..hi] is a non-empty run of non-white-space characters (\S+). */
  predicate NonSpaceRun(s: string, lo: int, hi: int) {
    0 <= lo < hi <= |s| && forall k | lo <= k < hi :: !IsSpace(s[k])
  }

  /** s[lo..hi] matches the whole pattern, with its '@' at `at` and its
      '.' at `dot`. */
  predicate MatchesAt(s: string, lo: int, at: int, dot: int, hi: int) {
    && 0 <= lo < at < dot < hi <= |s|
    && s[at] == '@' && s[dot] == '.'
    && NonSpaceRun(s, lo, at) && NonSpaceRun(s, at + 1, dot) && NonSpaceRun(s, dot + 1, hi)
  }

  /** The pattern is unanchored, so `test` holds when some substring of s
      matches it. */
  predicate EmailPatternTest(s: string) {
    exists lo, at, dot, hi | 0 <= lo < at < dot < hi <= |s| :: MatchesAt(s, lo, at, dot, hi)
  }

  /** The smallest shape of a match: one non-space character, '@', a
      non-space run, '.', one non-space character. */
  predicate ShapeAt(s: string, at: int, dot: int) {
    && 0 < at && at + 1 < dot && dot + 1 < |s|
    && s[at] == '@' && s[dot] == '.'
    && !IsSpace(s[at - 1]) && !IsSpace(s[dot + 1])
    && NonSpaceRun(s, at + 1, dot)
  }

  /** The outer \S+ runs can always be shortened to one character, so the
      test holds exactly when some '@' has a non-space character before it
      and is followed, through non-space characters only, by a '.' that has
      a non-space character after it. */
  lemma EmailPatternShape(s: string)
    ensures EmailPatternTest(s) <==> exists at, dot :: ShapeAt(s, at, dot)
  {
    if EmailPatternTest(s) {
      var lo, at, dot, hi :| 0 <= lo < at < dot < hi <= |s| && MatchesAt(s, lo, at, dot, hi);
      assert ShapeAt(s, at, dot);
    }
    if exists at, dot :: ShapeAt(s, at, dot) {
      var at, dot :| ShapeAt(s, at, dot);
      assert MatchesAt(s, at - 1, at, dot, dot + 2);
    }
  }

  /** A string that passes the test is not blank. */
  lemma EmailPatternNotBlank(s: string)
    requires EmailPatternTest(s)
    ensures !IsBlank(s)
  {
  }

  // ----- validateForm -----

  /** The error map validation builds from scratch: name, message and
      e-mail must be non-blank after trim, the e-mail must pass the pattern
      test (on the untrimmed value), and the service must not be "" (no
      trim). Phone and company are never checked. */
  function FormErrors(f: FormData): (e: Errors)
    ensures Name in e <==> IsBlank(f.name)
    ensures Email in e <==> IsBlank(f.email) || !EmailPatternTest(f.email)
    ensures Message in e <==> IsBlank(f.message)
    ensures Service in e <==> f.service == ""
    ensures Phone !in e && Company !in e
    ensures Name in e ==> e[Name] == NameRequired
    ensures Email in e ==> e[Email] == (if IsBlank(f.email) then EmailRequired else EmailInvalid)
    ensures Message in e ==> e[Message] == MessageRequired
    ensures Service in e ==> e[Service] == ServiceRequired
  {
    TrimEmptyIff(f.name);
    TrimEmptyIff(f.email);
    TrimEmptyIff(f.message);
    var e0: Errors := map[];
    var e1 := if Trim(f.name) == "" then e0[Name := NameRequired] else e0;
    var e2 :=
      if Trim(f.email) == "" then e1[Email := EmailRequired]
      else if !EmailPatternTest(f.email) then e1[Email := EmailInvalid]
      else e1;
    var e3 := if Trim(f.message) == "" then e2[Message := MessageRequired] else e2;
    if f.service == "" then e3[Service := ServiceRequired] else e3
  }

  /** Validation passes (the map has no keys) exactly when name and message
      are not blank, the e-mail passes the pattern test, and a service is
      chosen. */
  lemma FormValidIff(f: FormData)
    ensures FormErrors(f) == map[] <==>
      !IsBlank(f.name) && EmailPatternTest(f.email) && !IsBlank(f.message) && f.service != ""
  {
  }

  /** Every message validation produces is non-empty, so each key it sets
      is displayed. */
  lemma FormErrorsShown(f: FormData)
    ensures forall g :: g in FormErrors(f) <==> HasError(FormErrors(f), g)
  {
  }

  // ----- Examples: the form's documented outcomes -----

  const SampleForm := FormData("Jane Doe", "jane@example.com", "", "", "Web Development", "Hello")

  /** The sample address passes the pattern test. */
  lemma SampleEmailPasses()
    ensures EmailPatternTest(SampleForm.email)
  {
    var s := SampleForm.email;
    forall k | 5 <= k < 12 ensures !IsSpace(s[k]) {
      assert k == 5 || k == 6 || k == 7 || k == 8 || k == 9 || k == 10 || k == 11;
    }
    assert ShapeAt(s, 4, 12);
    EmailPatternShape(s);
  }

  /** A fully filled form validates. */
  lemma SampleFormValid()
    ensures FormErrors(SampleForm) == map[]
  {
    SampleEmailPasses();
    assert !IsBlank(SampleForm.name) by { assert !IsSpace(SampleForm.name[0]); }
    assert !IsBlank(SampleForm.message) by { assert !IsSpace(SampleForm.message[0]); }
    FormValidIff(SampleForm);
  }

  /** An e-mail without '@' gives exactly the "Email is invalid" error. */
  lemma InvalidEmailOnly()
    ensures FormErrors(SampleForm.(email := "not-an-email")) == map[Email := EmailInvalid]
  {
    var f := SampleForm.(email := "not-an-email");
    var s := f.email;
    assert '@' !in s;
    assert !IsSpace(s[0]);
    assert !IsBlank(f.name) by { assert !IsSpace(f.name[0]); }
    assert !IsBlank(f.message) by { assert !IsSpace(f.message[0]); }
    var e := FormErrors(f);
    assert e.Keys == {Email};
  }

  /** The empty form gets four errors; phone and company none. */
  lemma EmptyFormErrors()
    ensures FormErrors(EmptyForm) ==
      map[Name := NameRequired, Email := EmailRequired,
          Message := MessageRequired, Service := ServiceRequired]
  {
  }
}
