/** The validated contact record of the `Contacts` package (and of the
    `Contacts` playground, which declares the same struct): the checks its
    initialiser makes, in the order it makes them, and the two string formats
    it checks, the phone pattern `\A[0-9]{12}\z` and the email pattern
    `.+@.+\..`, restated as predicates on strings. */
module Contacts {
  import opened Wrappers

  /** A contact identifier. Swift generates a fresh `UUID()`; here the caller
      supplies it. */
  type Uuid = nat

  datatype WorkInfo = WorkInfo(jobTitle: string, company: Option<string>)

  datatype Contact = Contact(id: Uuid, name: string, phone: string,
                             email: Option<string>, work: Option<WorkInfo>)

  datatype ContactError = EmptyName | EmptyPhone | InvalidEmail | InvalidPhone

  // ---------------------------------------------------------------------------
  // The phone format: `\A[0-9]{12}\z`, the whole string is 12 ASCII digits.

  predicate IsDigit(c: char) {
    '0' <= c <= '9'
  }

  predicate IsValidPhone(s: string) {
    |s| == 12 && forall i :: 0 <= i < |s| ==> IsDigit(s[i])
  }

  // ---------------------------------------------------------------------------
  // The email format: an unanchored search for `.+@.+\..`.

  /** The characters the regular-expression dot does not match. */
  predicate IsLineTerminator(c: char) {
    c == '\n' || c == '\U{000B}' || c == '\U{000C}' || c == '\r' ||
    c == '\U{0085}' || c == '\U{2028}' || c == '\U{2029}'
  }

  /** A character the pattern's `.` matches. */
  predicate AnyChar(c: char) {
    !IsLineTerminator(c)
  }

  /** The pattern matches with its `@` at index `at` and its literal `.` at
      index `dot`: one matched character right before the `@` is enough for
      `.+`, at least one lies between `@` and `.`, and one follows the `.`. */
  predicate EmailMatchAt(s: string, at: nat, dot: nat) {
    1 <= at && at + 2 <= dot && dot + 2 <= |s| &&
    s[at] == '@' && s[dot] == '.' &&
    AnyChar(s[at - 1]) &&
    (forall k :: at < k < dot ==> AnyChar(s[k])) &&
    AnyChar(s[dot + 1])
  }

  predicate IsValidEmail(s: string) {
    exists at: nat, dot: nat :: at < dot < |s| && EmailMatchAt(s, at, dot)
  }

  /** The regular expression's own reading of `.+@.+\..` found somewhere in `s`:
      `s` splits as `u + x + "@" + y + "." + z + w` with `x` and `y` non-empty,
      `z` one character, and the dot matching every character of `x`, `y`, `z`. */
  ghost predicate PatternSplit(s: string, u: string, x: string, y: string, z: string, w: string) {
    s == u + x + "@" + y + "." + z + w &&
    |x| >= 1 && |y| >= 1 && |z| == 1 &&
    (forall i :: 0 <= i < |x| ==> AnyChar(x[i])) &&
    (forall i :: 0 <= i < |y| ==> AnyChar(y[i])) &&
    AnyChar(z[0])
  }

  ghost predicate MatchesEmailPattern(s: string) {
    exists u, x, y, z, w :: PatternSplit(s, u, x, y, z, w)
  }

  /** The index form of the email check is exactly the search for the pattern. */
  lemma EmailCheckIsPatternSearch(s: string)
    ensures IsValidEmail(s) <==> MatchesEmailPattern(s)
  {
    if IsValidEmail(s) {
      var at: nat, dot: nat :| at < dot < |s| && EmailMatchAt(s, at, dot);
      MatchGivesSplit(s, at, dot);
    }
    if MatchesEmailPattern(s) {
      var u, x, y, z, w :| PatternSplit(s, u, x, y, z, w);
      SplitGivesMatch(s, u, x, y, z, w);
    }
  }

  /** A match at `at` and `dot` cuts `s` into the pattern's pieces. */
  lemma MatchGivesSplit(s: string, at: nat, dot: nat)
    requires at < dot < |s| && EmailMatchAt(s, at, dot)
    ensures MatchesEmailPattern(s)
  {
    var u, x, y, z, w := s[..at - 1], [s[at - 1]], s[at + 1..dot], [s[dot + 1]], s[dot + 2..];
    assert s == u + x + "@" + y + "." + z + w;
    assert PatternSplit(s, u, x, y, z, w);
  }

  /** The pattern's pieces place a match right after `u + x` and before `z`. */
  lemma SplitGivesMatch(s: string, u: string, x: string, y: string, z: string, w: string)
    requires PatternSplit(s, u, x, y, z, w)
    ensures IsValidEmail(s)
  {
    var at: nat := |u| + |x|;
    var dot: nat := at + 1 + |y|;
    assert s[at - 1] == x[|x| - 1];
    assert s[at] == '@';
    assert s[dot] == '.';
    assert s[dot + 1] == z[0];
    forall k | at < k < dot ensures AnyChar(s[k]) {
      assert s[k] == y[k - at - 1];
    }
    assert EmailMatchAt(s, at, dot);
  }

  /** A valid address has an `@` with something before it and a later `.`
      with something after it. */
  lemma ValidEmailShape(s: string)
    requires IsValidEmail(s)
    ensures '@' in s && '.' in s
    ensures exists i, j :: 0 < i < j < |s| - 1 && s[i] == '@' && s[j] == '.'
  {
    var at: nat, dot: nat :| at < dot < |s| && EmailMatchAt(s, at, dot);
    assert s[at] == '@' && s[dot] == '.';
  }

  /** The closure `{ $0.id == id }` both contact lists search with. */
  function HasId(id: Uuid): Contact -> bool {
    (c: Contact) => c.id == id
  }

  // ---------------------------------------------------------------------------
  // The initialiser.

  /** `Contact.init(name:phone:email:work:)`, which throws on a bad field.
      Checks run in this order: empty name, empty phone, phone format, and
      the email format only when an email is given. */
  function NewContact(id: Uuid, name: string, phone: string, email: Option<string>,
                      work: Option<WorkInfo>): (r: Result<Contact, ContactError>)
    ensures r == Failure(EmptyName) <==> name == []
    ensures r == Failure(EmptyPhone) <==> name != [] && phone == []
    ensures r == Failure(InvalidPhone) <==> name != [] && phone != [] && !IsValidPhone(phone)
    ensures r == Failure(InvalidEmail) <==>
              name != [] && IsValidPhone(phone) && email.Some? && !IsValidEmail(email.value)
    ensures r.Success? <==>
              name != [] && IsValidPhone(phone) && (email.Some? ==> IsValidEmail(email.value))
    ensures r.Success? ==> r.value == Contact(id, name, phone, email, work)
  {
    if name == [] then Failure(EmptyName)
    else if phone == [] then Failure(EmptyPhone)
    else if !IsValidPhone(phone) then Failure(InvalidPhone)
    else if email.Some? && !IsValidEmail(email.value) then Failure(InvalidEmail)
    else Success(Contact(id, name, phone, email, work))
  }

  /** The inputs of the package's initialisation test: five malformed
      addresses and a short phone are refused, the well-formed contact is made. */
  lemma InitializationTestCases(id: Uuid)
    ensures NewContact(id, "name", "380660989878", Some("hello.gmailcom"), None) == Failure(InvalidEmail)
    ensures NewContact(id, "name", "380660989878", Some("hello@gmailcom"), None) == Failure(InvalidEmail)
    ensures NewContact(id, "name", "380660989878", Some("hello@.gmailcom"), None) == Failure(InvalidEmail)
    ensures NewContact(id, "name", "380660989878", Some("@gmail.com"), None) == Failure(InvalidEmail)
    ensures NewContact(id, "name", "380660989878", Some("hello@gmailcom."), None) == Failure(InvalidEmail)
    ensures NewContact(id, "name", "566", Some("hello@gmail.com"), None) == Failure(InvalidPhone)
    ensures NewContact(id, "name", "380660989878", Some("hello@gmail.com"), None).Success?
  {
    RefusedTestEmails();
    assert IsValidPhone("380660989878");
    assert EmailMatchAt("hello@gmail.com", 5, 11);
  }

  /** The five malformed addresses of the initialisation test fail the check. */
  lemma RefusedTestEmails()
    ensures !IsValidEmail("hello.gmailcom") && !IsValidEmail("hello@gmailcom")
    ensures !IsValidEmail("hello@.gmailcom") && !IsValidEmail("@gmail.com")
    ensures !IsValidEmail("hello@gmailcom.")
  {
    MissingSymbolNoMatch("hello.gmailcom");
    MissingSymbolNoMatch("hello@gmailcom");
    NoMatchAt("hello@.gmailcom", 5);
    NoMatchAt("@gmail.com", 0);
    NoMatchAt("hello@gmailcom.", 5);
  }

  /** Without an `@` or without a `.` the email pattern cannot match. */
  lemma MissingSymbolNoMatch(s: string)
    requires '.' !in s || '@' !in s
    ensures !IsValidEmail(s)
  {
    if IsValidEmail(s) {
      ValidEmailShape(s);
    }
  }

  /** When `at` is the only `@` and no match can use it, the email is refused. */
  lemma NoMatchAt(s: string, at: nat)
    requires at < |s| && s[at] == '@'
    requires forall i :: 0 <= i < |s| && s[i] == '@' ==> i == at
    requires forall dot: nat :: dot < |s| ==> !EmailMatchAt(s, at, dot)
    ensures !IsValidEmail(s)
  {
  }
}
