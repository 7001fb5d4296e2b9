/** The consent record and the form schema that both the form's submission
    and the collection endpoint's POST validate against (types/consents.ts).

    The schema is a conjunction of three field rules. The email rule is a
    library check whose internals are not part of this model, so every
    validation function takes it as a parameter `isEmail`. */
module ConsentTypes {

  /** One collected consent. Identity is positional: there is no id field. */
  datatype Consent = Consent(name: string, email: string, consentGivenFor: seq<string>)

  /** One failed field rule, in the order the schema checks them. */
  datatype Issue = NameRequired | NameNotLetters | InvalidEmail | NoConsentSelected

  /** The message the schema attaches to each failed rule. */
  function Message(i: Issue): string {
    match i
    case NameRequired => "Name is required"
    case NameNotLetters => "Name must contain only letters and spaces"
    case InvalidEmail => "Invalid email address"
    case NoConsentSelected => "At least one consent must be selected"
  }

  predicate IsAsciiLetter(c: char) {
    ('A' <= c <= 'Z') || ('a' <= c <= 'z')
  }

  /** The JavaScript regular-expression class `\s`: the ASCII whitespace
      characters, no-break space, the Unicode space separators, the line and
      paragraph separators and the byte-order mark. It holds space, tab and
      line feed, and no letter. */
  function IsJsWhitespace(c: char): (r: bool)
    ensures r ==> !IsAsciiLetter(c)
    ensures c == ' ' || c == '\t' || c == '\n' ==> r
  {
    var u := c as int;
    || u == 0x09 || u == 0x0A || u == 0x0B || u == 0x0C || u == 0x0D || u == 0x20
    || u == 0xA0 || u == 0x1680 || (0x2000 <= u <= 0x200A)
    || u == 0x2028 || u == 0x2029 || u == 0x202F || u == 0x205F
    || u == 0x3000 || u == 0xFEFF
  }

  /** The character class `[A-Za-z\s]`. */
  predicate IsNameChar(c: char) {
    IsAsciiLetter(c) || IsJsWhitespace(c)
  }

  /** `[A-Za-z\s]*`, matched one character at a time. */
  function AllNameChars(s: string): (r: bool)
    ensures r <==> forall i :: 0 <= i < |s| ==> IsNameChar(s[i])
  {
    s == [] || (IsNameChar(s[0]) && AllNameChars(s[1..]))
  }

  /** `/^[A-Za-z\s]+$/`: one or more characters, each a letter or
      whitespace. */
  function MatchesNamePattern(s: string): (r: bool)
    ensures r <==> |s| >= 1 && forall i :: 0 <= i < |s| ==> IsAsciiLetter(s[i]) || IsJsWhitespace(s[i])
  {
    |s| >= 1 && AllNameChars(s)
  }

  /** The name rule: `.min(1)` and then the letters-and-spaces pattern.
      The pattern's `+` already demands one character, so the minimum
      length adds nothing to the pattern; it only adds its own issue. */
  function NameValid(name: string): (r: bool)
    ensures r <==> MatchesNamePattern(name)
  {
    |name| >= 1 && MatchesNamePattern(name)
  }

  /** The consent rule: an array of strings with at least one element.
      Neither uniqueness nor membership in the option list is demanded. */
  predicate ConsentsValid(items: seq<string>) {
    |items| >= 1
  }

  /** The whole schema: a non-empty name of letters and whitespace, an
      email the email check accepts, and at least one consent. */
  function ValidConsent(c: Consent, isEmail: string -> bool): (r: bool)
    ensures r <==> && |c.name| >= 1
                   && (forall i :: 0 <= i < |c.name| ==> IsNameChar(c.name[i]))
                   && isEmail(c.email)
                   && |c.consentGivenFor| >= 1
  {
    NameValid(c.name) && isEmail(c.email) && ConsentsValid(c.consentGivenFor)
  }

  /** Every failed rule, field by field. A string's checks all run, so an
      empty name fails both the minimum length and the pattern. */
  function Issues(c: Consent, isEmail: string -> bool): (r: seq<Issue>)
    ensures NameRequired in r <==> c.name == ""
    ensures NameNotLetters in r <==> !MatchesNamePattern(c.name)
    ensures InvalidEmail in r <==> !isEmail(c.email)
    ensures NoConsentSelected in r <==> c.consentGivenFor == []
    ensures r == [] <==> ValidConsent(c, isEmail)
  {
    (if |c.name| < 1 then [NameRequired] else [])
    + (if !MatchesNamePattern(c.name) then [NameNotLetters] else [])
    + (if !isEmail(c.email) then [InvalidEmail] else [])
    + (if |c.consentGivenFor| < 1 then [NoConsentSelected] else [])
  }

  datatype ParseResult = Parsed(data: Consent) | Rejected(issues: seq<Issue>)

  /** `ConsentFormSchema.safeParse`: the record itself when it satisfies the
      schema, otherwise the non-empty list of issues. */
  function SafeParse(c: Consent, isEmail: string -> bool): (r: ParseResult)
    ensures r.Parsed? <==> ValidConsent(c, isEmail)
    ensures r.Parsed? ==> r.data == c
    ensures r.Rejected? ==> r.issues != [] && r.issues == Issues(c, isEmail)
  {
    var issues := Issues(c, isEmail);
    if issues == [] then Parsed(c) else Rejected(issues)
  }

  /** The four messages differ, so a client can tell the failed rules apart
      from the messages alone. */
  lemma MessagesIdentifyIssues(a: Issue, b: Issue)
    ensures Message(a) == Message(b) ==> a == b
  {
  }

  /** One entry of the details a rejection reports: the field the failed
      rule checks and the rule's message. */
  datatype Detail = Detail(path: string, message: string)

  /** The field each rule checks. */
  function Field(i: Issue): string {
    match i
    case NameRequired => "name"
    case NameNotLetters => "name"
    case InvalidEmail => "email"
    case NoConsentSelected => "consentGivenFor"
  }

  /** The reported details of a list of issues, one entry per issue, in
      order. */
  function Reports(issues: seq<Issue>): (r: seq<Detail>)
    ensures |r| == |issues|
    ensures forall k :: 0 <= k < |r| ==> r[k] == Detail(Field(issues[k]), Message(issues[k]))
  {
    if issues == [] then []
    else [Detail(Field(issues[0]), Message(issues[0]))] + Reports(issues[1..])
  }

  /** The reported details determine the issues: two issue lists with the
      same details are the same list. */
  lemma ReportsIdentifyIssues(a: seq<Issue>, b: seq<Issue>)
    ensures Reports(a) == Reports(b) ==> a == b
  {
    if Reports(a) == Reports(b) {
      forall k | 0 <= k < |a|
        ensures a[k] == b[k]
      {
        assert Reports(a)[k] == Reports(b)[k];
        MessagesIdentifyIssues(a[k], b[k]);
      }
    }
  }

  /** Every non-empty whitespace-only name satisfies the name rule. */
  lemma WhitespaceNameAccepted(name: string)
    requires |name| >= 1
    requires forall i :: 0 <= i < |name| ==> IsJsWhitespace(name[i])
    ensures NameValid(name)
  {
  }

  /** A name with one character that is neither a letter nor whitespace
      (the full stop of "Mr. Peanutbutter", say) is refused by the name
      rule, wherever that character is. */
  lemma PunctuatedNameRefused(name: string, i: int)
    requires 0 <= i < |name|
    requires !IsAsciiLetter(name[i]) && !IsJsWhitespace(name[i])
    ensures !NameValid(name)
  {
  }

  /** "Mr. Peanutbutter" is such a name. */
  lemma PeanutbutterRefused()
    ensures !NameValid("Mr. Peanutbutter")
  {
    PunctuatedNameRefused("Mr. Peanutbutter", 2);
  }
}
