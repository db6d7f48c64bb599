/** Input sanitizers and schema validators of `src/utils/validation.ts`.

    A zod schema is modelled as the ordered list of its checks, field by field in
    declaration order; parsing fails with the message of the first failing check,
    which is the `issues[0].message` that `safeValidate` reports. The library
    predicates the schemas call (zod's e-mail check, validator's `isEmail`,
    `isUUID`, `isISO8601`, `normalizeEmail`) are left uninterpreted: they are the
    fields of a `Lib` value. `validator.escape` is written out character by
    character. Absent fields are the empty string, as the source's `x || ''` makes them. */
module Validation {
  import opened Wrappers
  import opened Strings
  import opened Transactions

  // ---------------------------------------------------------------------------
  // Character classes
  // ---------------------------------------------------------------------------

  predicate IsLower(c: char) { 'a' <= c <= 'z' }
  predicate IsUpper(c: char) { 'A' <= c <= 'Z' }
  predicate IsDigit(c: char) { '0' <= c <= '9' }

  /** `[a-zA-Z0-9_\s]`, the nickname alphabet. */
  predicate NicknameChar(c: char)
  {
    IsLower(c) || IsUpper(c) || IsDigit(c) || c == '_' || IsWhitespace(c)
  }

  /** `[a-zA-Z0-9\s&-]`, the category-name alphabet. */
  predicate CategoryChar(c: char)
  {
    IsLower(c) || IsUpper(c) || IsDigit(c) || IsWhitespace(c) || c == '&' || c == '-'
  }

  /** The characters the regular-expression `.` does not match. */
  predicate IsLineTerminator(c: char)
  {
    c == '\n' || c == '\r' || c == '\U{2028}' || c == '\U{2029}'
  }

  // ---------------------------------------------------------------------------
  // validator.escape
  // ---------------------------------------------------------------------------

  /** The characters `validator.escape` replaces by an HTML entity. */
  predicate Escapable(c: char)
  {
    c == '&' || c == '"' || c == '\'' || c == '<' || c == '>' || c == '/' || c == '\\' || c == '`'
  }

  function EscapeChar(c: char): (r: string)
    ensures Escapable(c) ==> 4 <= |r| && r[0] == '&' && r[|r| - 1] == ';'
    ensures !Escapable(c) ==> r == [c]
  {
    if c == '&' then "&amp;"
    else if c == '"' then "&quot;"
    else if c == '\'' then "&#x27;"
    else if c == '<' then "&lt;"
    else if c == '>' then "&gt;"
    else if c == '/' then "&#x2F;"
    else if c == '\\' then "&#x5C;"
    else if c == '`' then "&#96;"
    else [c]
  }

  /** The characters HTML treats specially: after escaping none is left but `&`,
      which only ever opens an entity. */
  predicate Markup(c: char)
  {
    Escapable(c) && c != '&'
  }

  /** `validator.escape(s)`: each special character becomes its entity. */
  function Escape(s: string): (r: string)
    ensures |r| >= |s|
    ensures forall i :: 0 <= i < |r| ==> !Markup(r[i])
    ensures |s| > 0 ==> |r| > 0 && r[0] == EscapeChar(s[0])[0]
  {
    if |s| == 0 then "" else EscapeChar(s[0]) + Escape(s[1..])
  }

  /** Escaping leaves a string without special characters unchanged. */
  lemma {:induction false} EscapeIdentity(s: string)
    requires forall i :: 0 <= i < |s| ==> !Escapable(s[i])
    ensures Escape(s) == s
  {
    if |s| > 0 {
      EscapeIdentity(s[1..]);
      assert [s[0]] + s[1..] == s;
    }
  }

  /** Escaping lengthens any string that holds a special character. */
  lemma {:induction false} EscapeGrows(s: string)
    requires exists i :: 0 <= i < |s| && Escapable(s[i])
    ensures |Escape(s)| > |s|
  {
    if Escapable(s[0]) {
    } else {
      var i :| 0 <= i < |s| && Escapable(s[i]);
      assert s[1..][i - 1] == s[i];
      EscapeGrows(s[1..]);
    }
  }

  /** Any special character in the input leaves a `;` in the output. */
  lemma {:induction false} EscapeLeavesSemicolon(s: string)
    requires exists i :: 0 <= i < |s| && Escapable(s[i])
    ensures ';' in Escape(s)
  {
    if Escapable(s[0]) {
      var e := EscapeChar(s[0]);
      assert Escape(s)[|e| - 1] == ';';
    } else {
      var i :| 0 <= i < |s| && Escapable(s[i]);
      assert s[1..][i - 1] == s[i];
      EscapeLeavesSemicolon(s[1..]);
      assert Escape(s) == [s[0]] + Escape(s[1..]);
    }
  }

  // ---------------------------------------------------------------------------
  // sanitizeInput
  // ---------------------------------------------------------------------------

  /** `replace(/[^a-zA-Z0-9_\s]/g, '')`: keeps the nickname alphabet, in order. */
  function KeepNicknameChars(s: string): (r: string)
    ensures |r| <= |s|
    ensures forall i :: 0 <= i < |r| ==> NicknameChar(r[i])
  {
    if |s| == 0 then ""
    else (if NicknameChar(s[0]) then [s[0]] else "") + KeepNicknameChars(s[1..])
  }

  /** Filtering keeps every nickname character of the input and drops all others. */
  lemma {:induction false} KeepNicknameCharsIdentity(s: string)
    ensures (forall i :: 0 <= i < |s| ==> NicknameChar(s[i])) <==> KeepNicknameChars(s) == s
  {
    if |s| > 0 {
      KeepNicknameCharsIdentity(s[1..]);
      if !NicknameChar(s[0]) {
        assert |KeepNicknameChars(s)| <= |s[1..]| < |s|;
      } else {
        assert [s[0]] + s[1..] == s;
        if KeepNicknameChars(s) == s {
          assert KeepNicknameChars(s[1..]) == s[1..];
          forall i | 1 <= i < |s| ensures NicknameChar(s[i]) {
            assert s[1..][i - 1] == s[i];
          }
        }
      }
    }
  }

  /** `sanitizeInput.nickname`: trim, then drop every character outside the nickname
      alphabet, then escape (which has nothing left to escape). */
  function SanitizeNickname(s: string): (r: string)
    ensures r == KeepNicknameChars(Trim(s))
    ensures |r| <= |s|
    ensures forall i :: 0 <= i < |r| ==> NicknameChar(r[i])
  {
    var kept := KeepNicknameChars(Trim(s));
    EscapeIdentity(kept);
    TrimSpec(s);
    Escape(kept)
  }

  /** The nickname sanitizer is not idempotent: the trim runs before the filter, so
      stripping a character can expose trailing whitespace that a second pass trims. */
  lemma NicknameSanitizerNotIdempotent()
    ensures SanitizeNickname("a @") == "a "
    ensures SanitizeNickname(SanitizeNickname("a @")) == "a"
  {
    var s := "a @";
    assert !IsWhitespace(s[0]) && !IsWhitespace(s[2]);
    assert TrimStart(s) == s;
    assert TrimEnd(s) == s;
    assert s[1..] == " @" && s[1..][1..] == "@" && "@"[1..] == "";
    assert KeepNicknameChars("@") == "";
    assert KeepNicknameChars(" @") == " ";
    assert KeepNicknameChars(s) == "a ";
    var t := "a ";
    assert TrimStart(t) == t;
    assert t[..1] == "a";
    assert TrimEnd(t) == TrimEnd("a") == "a";
    assert "a"[1..] == "";
    assert KeepNicknameChars("a") == "a";
  }

  lemma {:induction false} KeepNicknameCharsAppend(a: string, b: string)
    ensures KeepNicknameChars(a + b) == KeepNicknameChars(a) + KeepNicknameChars(b)
  {
    if |a| > 0 {
      assert (a + b)[1..] == a[1..] + b;
      KeepNicknameCharsAppend(a[1..], b);
    } else {
      assert a + b == b;
    }
  }

  lemma {:induction false} KeepNicknameCharsNone(s: string)
    requires forall i :: 0 <= i < |s| ==> !NicknameChar(s[i])
    ensures KeepNicknameChars(s) == ""
  {
    if |s| > 0 {
      KeepNicknameCharsNone(s[1..]);
    }
  }

  /** A nickname made of allowed characters followed by characters outside the alphabet,
      padded with whitespace, sanitizes to the allowed part. */
  lemma SanitizeNicknamePadded(w: string, word: string, junk: string)
    requires forall i :: 0 <= i < |w| ==> IsWhitespace(w[i])
    requires |word| > 0 && !IsWhitespace(word[0])
    requires |junk| > 0 && !IsWhitespace(junk[|junk| - 1])
    requires forall i :: 0 <= i < |word| ==> NicknameChar(word[i])
    requires forall i :: 0 <= i < |junk| ==> !NicknameChar(junk[i])
    ensures SanitizeNickname(w + ((word + junk) + w)) == word
  {
    var b := word + junk;
    var t := b + w;
    assert Trim(w + t) == b by {
      assert t[0] == word[0];
      TrimStartPadded(w, t);
      assert b[|b| - 1] == junk[|junk| - 1];
      TrimEndPadded(b, w);
    }
    assert KeepNicknameChars(b) == word by {
      KeepNicknameCharsAppend(word, junk);
      KeepNicknameCharsIdentity(word);
      KeepNicknameCharsNone(junk);
    }
    assert SanitizeNickname(w + t) == KeepNicknameChars(Trim(w + t));
  }

  /** The sanitizer on the repository's own example: `'  user@#$  '` becomes `'user'`. */
  lemma NicknameSanitizerExample()
    ensures SanitizeNickname("  user@#$  ") == "user"
  {
    assert "  user@#$  " == "  " + (("user" + "@#$") + "  ");
    SanitizeNicknamePadded("  ", "user", "@#$");
  }

  /** `sanitizeInput.text`: trim, then escape. */
  function SanitizeText(s: string): (r: string)
    ensures forall i :: 0 <= i < |r| ==> !Markup(r[i])
    ensures (forall i :: 0 <= i < |Trim(s)| ==> !Escapable(Trim(s)[i])) ==> r == Trim(s)
  {
    if forall i :: 0 <= i < |Trim(s)| ==> !Escapable(Trim(s)[i]) then
      EscapeIdentity(Trim(s));
      Escape(Trim(s))
    else
      Escape(Trim(s))
  }

  /** `s.substring(0, n)`. */
  function Truncate(s: string, n: nat): (r: string)
    ensures |r| == (if |s| <= n then |s| else n) && r == s[..|r|]
    ensures |s| <= n ==> r == s
  {
    if |s| <= n then s else s[..n]
  }

  /** `sanitizeInput.description`: trim, cut to 255 characters, then escape. */
  function SanitizeDescription(s: string): (r: string)
    ensures forall i :: 0 <= i < |r| ==> !Markup(r[i])
  {
    Escape(Truncate(Trim(s), 255))
  }

  /** ASCII `toLowerCase` (non-ASCII case mappings are not modelled). */
  function ToLower(s: string): (r: string)
    ensures |r| == |s|
    ensures forall i :: 0 <= i < |r| ==> !IsUpper(r[i])
  {
    if |s| == 0 then ""
    else [if IsUpper(s[0]) then (s[0] as int + 32) as char else s[0]] + ToLower(s[1..])
  }

  /** The library predicates and functions the validators call, left uninterpreted. */
  datatype Lib = Lib(
    zodEmail: string -> bool,                // z.string().email()
    isEmail: string -> bool,                 // validator.isEmail
    isUuid: string -> bool,                  // z.string().uuid()
    isIso8601: string -> bool,               // validator.isISO8601
    normalizeEmail: string -> Option<string>)  // validator.normalizeEmail; None is `false`

  /** `sanitizeInput.email`: trim, lower-case, normalise; a failed or empty
      normalisation gives the empty string. */
  function SanitizeEmail(lib: Lib, s: string): (r: string)
    ensures lib.normalizeEmail(ToLower(Trim(s))).Some? ==> r == lib.normalizeEmail(ToLower(Trim(s))).value
    ensures lib.normalizeEmail(ToLower(Trim(s))).None? ==> r == ""
  {
    match lib.normalizeEmail(ToLower(Trim(s)))
    case Some(e) => e
    case None => ""
  }

  // ---------------------------------------------------------------------------
  // Schemas as ordered checks
  // ---------------------------------------------------------------------------

  /** One check of a schema in front of the checks after it: its message when it
      fails, otherwise the first failure among the rest. */
  function Require(holds: bool, message: string, rest: Option<string>): (r: Option<string>)
    ensures r.None? <==> holds && rest.None?
    ensures r.Some? ==> r.value == (if holds then rest.value else message)
  {
    if holds then rest else Some(message)
  }

  /** The first failure of an object schema: its fields are checked in declaration order. */
  function FirstOf(first: Option<string>, second: Option<string>): (r: Option<string>)
    ensures r.None? <==> first.None? && second.None?
    ensures first.Some? ==> r == first
  {
    if first.Some? then first else second
  }

  /** `(?=.*X)` anchored at the start: some character satisfying the class occurs before
      the first line terminator. */
  predicate OnFirstLine(s: string, cls: char -> bool)
  {
    exists i :: 0 <= i < |s| && cls(s[i]) && forall j :: 0 <= j < i ==> !IsLineTerminator(s[j])
  }

  /** `/^(?=.*[a-z])(?=.*[A-Z])(?=.*\d)/`. */
  predicate PasswordPattern(s: string)
  {
    OnFirstLine(s, IsLower) && OnFirstLine(s, IsUpper) && OnFirstLine(s, IsDigit)
  }

  /** Every character matches `[a-zA-Z0-9_\s]`. */
  predicate NicknameChars(s: string)
  {
    forall i :: 0 <= i < |s| ==> NicknameChar(s[i])
  }

  /** Every character matches `[a-zA-Z0-9\s&-]`. */
  predicate CategoryChars(s: string)
  {
    forall i :: 0 <= i < |s| ==> CategoryChar(s[i])
  }

  /** The e-mail field's checks, in declaration order. */
  function EmailIssue(lib: Lib, e: string): (r: Option<string>)
    ensures r.None? <==> lib.zodEmail(e) && 1 <= |e| <= 255 && lib.isEmail(e)
  {
    Require(lib.zodEmail(e), "Invalid email format",
    Require(|e| >= 1, "Email is required",
    Require(|e| <= 255, "Email too long",
    Require(lib.isEmail(e), "Invalid email format", None))))
  }

  function PasswordIssue(p: string): Option<string>
  {
    Require(|p| >= 8, "Password must be at least 8 characters",
    Require(|p| <= 128, "Password too long",
    Require(PasswordPattern(p), "Password must contain at least one uppercase letter, one lowercase letter, and one number", None)))
  }

  function NicknameIssue(n: string): Option<string>
  {
    Require(|n| >= 1, "Nickname is required",
    Require(|n| <= 50, "Nickname too long",
    Require(|n| >= 1 && NicknameChars(n), "Nickname can only contain letters, numbers, underscores, and spaces", None)))
  }

  /** A sign-up password passes exactly when it has 8 to 128 characters with a lower-case
      letter, an upper-case letter and a digit on its first line; the first failing
      check names the missing requirement. */
  lemma PasswordAccepted(p: string)
    ensures PasswordIssue(p).None? <==>
      8 <= |p| <= 128 && OnFirstLine(p, IsLower) && OnFirstLine(p, IsUpper) && OnFirstLine(p, IsDigit)
    ensures |p| < 8 ==> PasswordIssue(p) == Some("Password must be at least 8 characters")
    ensures |p| > 128 ==> PasswordIssue(p) == Some("Password too long")
  {
  }

  /** A sign-up nickname passes exactly when it has 1 to 50 characters, all from the
      nickname alphabet. */
  lemma NicknameAccepted(n: string)
    ensures NicknameIssue(n).None? <==> 1 <= |n| <= 50 && NicknameChars(n)
    ensures n == "" ==> NicknameIssue(n) == Some("Nickname is required")
  {
  }

  /** A sanitized nickname always meets the alphabet rule, so a raw nickname is
      accepted exactly when 1 to 50 characters survive sanitizing. */
  lemma SanitizedNicknameAccepted(raw: string)
    ensures NicknameIssue(SanitizeNickname(raw)).None? <==> 1 <= |SanitizeNickname(raw)| <= 50
  {
  }

  // ---------------------------------------------------------------------------
  // validateAndSanitize
  // ---------------------------------------------------------------------------

  /** What `schema.parse` throws: a zod error whose first issue carries a message. */
  datatype Thrown = ZodError(firstIssue: Option<string>) | OtherError

  /** A `validateAndSanitize.*` outcome: the parsed data, or what was thrown. */
  type Validated<T> = Result<T, Thrown>

  /** Parses sanitized data: it comes back unchanged when no check fails, and otherwise
      the zod error carries the first failure. */
  function Parse<T>(issue: Option<string>, data: T): (r: Validated<T>)
    ensures r.Ok? <==> issue.None?
    ensures r.Ok? ==> r.value == data
    ensures r.Err? ==> r.error == ZodError(issue)
  {
    match issue
    case None => Ok(data)
    case Some(m) => Err(ZodError(Some(m)))
  }

  datatype SignUpData = SignUpData(email: string, password: string, nickname: string)

  /** `validateAndSanitize.userSignUp`: sanitized e-mail and nickname, password as given. */
  function ValidateSignUp(lib: Lib, email: string, password: string, nickname: string): (r: Validated<SignUpData>)
    ensures r.Ok? <==> && EmailIssue(lib, SanitizeEmail(lib, email)).None?
                       && 8 <= |password| <= 128 && PasswordPattern(password)
                       && 1 <= |SanitizeNickname(nickname)| <= 50
    ensures r.Ok? ==> r.value == SignUpData(SanitizeEmail(lib, email), password, SanitizeNickname(nickname))
    ensures r.Err? && EmailIssue(lib, SanitizeEmail(lib, email)).Some? ==>
      r.error == ZodError(EmailIssue(lib, SanitizeEmail(lib, email)))
  {
    var d := SignUpData(SanitizeEmail(lib, email), password, SanitizeNickname(nickname));
    SignUpIssues(lib, d);
    Parse(FirstOf(EmailIssue(lib, d.email), FirstOf(PasswordIssue(d.password), NicknameIssue(d.nickname))), d)
  }

  lemma SignUpIssues(lib: Lib, d: SignUpData)
    requires NicknameChars(d.nickname)
    ensures FirstOf(EmailIssue(lib, d.email), FirstOf(PasswordIssue(d.password), NicknameIssue(d.nickname))).None? <==>
      && EmailIssue(lib, d.email).None?
      && 8 <= |d.password| <= 128 && PasswordPattern(d.password)
      && 1 <= |d.nickname| <= 50
  {
    PasswordAccepted(d.password);
    NicknameAccepted(d.nickname);
  }

  datatype SignInData = SignInData(email: string, password: string)

  /** `validateAndSanitize.userSignIn`. */
  function ValidateSignIn(lib: Lib, email: string, password: string): (r: Validated<SignInData>)
    ensures r.Ok? <==> lib.zodEmail(SanitizeEmail(lib, email)) && SanitizeEmail(lib, email) != "" && password != ""
    ensures r.Ok? ==> r.value == SignInData(SanitizeEmail(lib, email), password)
  {
    var d := SignInData(SanitizeEmail(lib, email), password);
    Parse(Require(lib.zodEmail(d.email), "Invalid email format",
          Require(|d.email| >= 1, "Email is required",
          Require(|d.password| >= 1, "Password is required", None))), d)
  }

  function ParseKind(s: string): Option<Kind>
  {
    if s == "expense" then Some(Expense) else if s == "income" then Some(Income) else None
  }

  /** The type enum accepts exactly the two spellings `KindName` produces. */
  lemma KindNameRoundTrip(k: Kind, s: string)
    ensures ParseKind(KindName(k)) == Some(k)
    ensures ParseKind(s).Some? ==> KindName(ParseKind(s).value) == s
  {
  }

  function ParseImportance(s: string): Option<Importance>
  {
    if s == "essential" then Some(Essential)
    else if s == "wants" then Some(Wants)
    else if s == "extra" then Some(Extra)
    else None
  }

  /** A transaction as the caller hands it over; amounts are whole numbers. */
  datatype TransactionInput = TransactionInput(
    amount: int, description: string, categoryId: string, date: string, kind: string, importance: string)

  datatype TransactionData = TransactionData(
    amount: int, description: string, categoryId: string, date: string, kind: Kind, importance: Option<Importance>)

  /** The description schema: 1 to 255 characters that do not escape to blank. */
  function DescriptionIssue(d: string): (r: Option<string>)
    ensures r.None? <==> 1 <= |d| <= 255 && |Escape(Trim(d))| > 0
    ensures |d| > 255 ==> r == Some("Description too long")
  {
    Require(|d| >= 1, "Description is required",
    Require(|d| <= 255, "Description too long",
    Require(|Escape(Trim(d))| > 0, "Invalid description", None)))
  }

  /** The transaction schema: the first failing check, field by field. */
  function TransactionIssue(lib: Lib, t: TransactionInput): (r: Option<string>)
    ensures r.None? <==> && 0 < t.amount <= 999999999
                         && DescriptionIssue(SanitizeDescription(t.description)).None?
                         && lib.isUuid(t.categoryId) && |t.categoryId| >= 1
                         && lib.isIso8601(t.date)
                         && ParseKind(t.kind).Some?
                         && (t.importance == "" || ParseImportance(t.importance).Some?)
    ensures 0 < t.amount <= 999999999 && DescriptionIssue(SanitizeDescription(t.description)).Some?
        ==> r == DescriptionIssue(SanitizeDescription(t.description))
  {
    var amount := Require(t.amount > 0, "Amount must be positive",
                  Require(t.amount <= 999999999, "Amount too large", None));
    var description := DescriptionIssue(SanitizeDescription(t.description));
    var category := Require(lib.isUuid(t.categoryId), "Invalid category ID",
                    Require(|t.categoryId| >= 1, "Category is required", None));
    var date := Require(lib.isIso8601(t.date), "Invalid date format", None);
    var kind := Require(ParseKind(t.kind).Some?, "Type must be either expense or income", None);
    var importance := Require(t.importance == "" || ParseImportance(t.importance).Some?,
                              "Importance must be essential, wants, or extra", None);
    FirstOf(amount, FirstOf(description, FirstOf(category, FirstOf(date, FirstOf(kind, importance)))))
  }

  /** `validateAndSanitize.transaction`: the type must be `expense` or `income`, an
      importance, when given, one of `essential`, `wants`, `extra`, and the amount
      within `(0, 999999999]`. */
  function ValidateTransaction(lib: Lib, t: TransactionInput): (r: Validated<TransactionData>)
    ensures r.Ok? <==> TransactionIssue(lib, t).None?
    ensures r.Ok? ==> && ParseKind(t.kind) == Some(r.value.kind)
                      && (t.importance == "" <==> r.value.importance.None?)
                      && (t.importance != "" ==> r.value.importance == ParseImportance(t.importance))
                      && r.value.description == SanitizeDescription(t.description)
                      && 1 <= |r.value.description| <= 255
                      && 0 < r.value.amount <= 999999999
                      && r.value.amount == t.amount && r.value.categoryId == t.categoryId
                      && r.value.date == t.date
    ensures ParseKind(t.kind).None? ==> r.Err?
    ensures t.importance != "" && ParseImportance(t.importance).None? ==> r.Err?
    ensures t.amount <= 0 ==> r == Err(ZodError(Some("Amount must be positive")))
  {
    match TransactionIssue(lib, t)
    case Some(m) => Err(ZodError(Some(m)))
    case None =>
      var imp := if t.importance == "" then None else ParseImportance(t.importance);
      Ok(TransactionData(t.amount, SanitizeDescription(t.description), t.categoryId, t.date,
                         ParseKind(t.kind).value, imp))
  }

  /** A description whose trimmed form has no special character within its first 255
      characters always passes the description checks. */
  lemma PlainDescriptionAccepted(s: string)
    requires |Trim(s)| >= 1
    requires forall i :: 0 <= i < |Truncate(Trim(s), 255)| ==> !Escapable(Truncate(Trim(s), 255)[i])
    ensures DescriptionIssue(SanitizeDescription(s)).None?
  {
    var cut := Truncate(Trim(s), 255);
    EscapeIdentity(cut);
    TrimSpec(s);
    assert cut[0] == Trim(s)[0];
    var d := SanitizeDescription(s);
    assert d == cut;
    TrimSpec(d);
    assert !IsWhitespace(d[0]);
    assert TrimStart(d) == d;
    assert |Trim(d)| > 0;
  }

  /** Escaping runs after the cut, so a description that fills 255 characters and
      holds a special character among them is rejected as too long. */
  lemma ExpandedDescriptionRejected(s: string)
    requires |Trim(s)| >= 255
    requires exists i :: 0 <= i < 255 && Escapable(Trim(s)[i])
    ensures DescriptionIssue(SanitizeDescription(s)) == Some("Description too long")
  {
    var cut := Truncate(Trim(s), 255);
    var i :| 0 <= i < 255 && Escapable(Trim(s)[i]);
    assert cut[i] == Trim(s)[i];
    EscapeGrows(cut);
  }

  datatype CategoryData = CategoryData(name: string, kind: Kind, icon: Option<string>)

  /** The category name schema: 1 to 50 characters from the category alphabet. */
  function CategoryNameIssue(n: string): (r: Option<string>)
    ensures r.None? <==> 1 <= |n| <= 50 && CategoryChars(n)
  {
    Require(|n| >= 1, "Category name is required",
    Require(|n| <= 50, "Category name too long",
    Require(|n| >= 1 && CategoryChars(n), "Category name contains invalid characters", None)))
  }

  /** The category schema, on the sanitized name; an absent icon is not checked. */
  function CategoryIssue(name: string, kind: string, icon: string): (r: Option<string>)
    ensures r.None? <==> && CategoryNameIssue(SanitizeText(name)).None?
                         && ParseKind(kind).Some?
                         && |icon| <= 50
    ensures CategoryNameIssue(SanitizeText(name)).Some? ==> r == CategoryNameIssue(SanitizeText(name))
  {
    FirstOf(CategoryNameIssue(SanitizeText(name)),
    FirstOf(Require(ParseKind(kind).Some?, "Type must be either expense or income", None),
            if icon == "" then None
            else Require(|icon| >= 1, "Icon is required", Require(|icon| <= 50, "Icon name too long", None))))
  }

  /** `validateAndSanitize.category`: the name is trimmed and escaped before the schema sees it. */
  function ValidateCategory(name: string, kind: string, icon: string): (r: Validated<CategoryData>)
    ensures r.Ok? <==> CategoryIssue(name, kind, icon).None?
    ensures r.Ok? ==> && r.value.name == SanitizeText(name)
                      && ParseKind(kind) == Some(r.value.kind)
                      && (r.value.icon.None? <==> icon == "")
                      && (icon != "" ==> r.value.icon == Some(icon) && |icon| <= 50)
  {
    match CategoryIssue(name, kind, icon)
    case Some(m) => Err(ZodError(Some(m)))
    case None =>
      Ok(CategoryData(SanitizeText(name), ParseKind(kind).value, if icon == "" then None else Some(icon)))
  }

  /** The escaped name is in the category alphabet exactly when the raw trimmed name is
      and holds no `&`: an `&` always comes back as `&amp;`, whose `;` is refused. */
  lemma {:induction false} EscapedCategoryChars(s: string)
    ensures CategoryChars(Escape(s)) <==> PlainCategoryChars(s)
  {
    if |s| > 0 {
      var c, t := s[0], s[1..];
      EscapedCategoryChars(t);
      PlainCategoryCharsCons(s);
      var e := EscapeChar(c);
      assert Escape(s) == e + Escape(t);
      CategoryCharsAppend(e, Escape(t));
      if Escapable(c) {
        EscapableNotPlain(c);
        assert !CategoryChars(e) by {
          assert e[|e| - 1] == ';';
        }
      } else {
        assert CategoryChars(e) <==> CategoryChar(c) by {
          assert e == [c];
        }
      }
    }
  }

  lemma CategoryCharsAppend(a: string, b: string)
    ensures CategoryChars(a + b) <==> CategoryChars(a) && CategoryChars(b)
  {
    var y := a + b;
    assert forall i :: 0 <= i < |a| ==> y[i] == a[i];
    assert forall i :: 0 <= i < |b| ==> y[|a| + i] == b[i];
    if CategoryChars(a) && CategoryChars(b) {
      forall i | 0 <= i < |y| ensures CategoryChar(y[i]) {
        if i >= |a| {
          assert y[i] == b[i - |a|];
        }
      }
    }
  }

  /** Only `&` is both special and in the category alphabet. */
  lemma EscapableNotPlain(c: char)
    requires Escapable(c)
    ensures !(CategoryChar(c) && c != '&')
  {
  }

  lemma PlainCategoryCharsCons(s: string)
    requires |s| > 0
    ensures PlainCategoryChars(s) <==> CategoryChar(s[0]) && s[0] != '&' && PlainCategoryChars(s[1..])
  {
    assert forall i :: 0 <= i < |s[1..]| ==> s[1..][i] == s[i + 1];
  }

  /** Every character matches `[a-zA-Z0-9\s-]`: the category alphabet without `&`. */
  predicate PlainCategoryChars(s: string)
  {
    forall i :: 0 <= i < |s| ==> CategoryChar(s[i]) && s[i] != '&'
  }

  lemma PlainCategoryCharSafe(c: char)
    requires CategoryChar(c) && c != '&'
    ensures !Escapable(c)
  {
    if IsWhitespace(c) {
      assert c as int !in {34, 39, 47, 60, 62, 92, 96};
    }
  }

  lemma EscapedCategoryNameAccepted(t: string)
    ensures CategoryNameIssue(Escape(t)).None? <==> 1 <= |t| <= 50 && PlainCategoryChars(t)
  {
    var n := Escape(t);
    EscapedCategoryChars(t);
    if PlainCategoryChars(t) {
      forall i | 0 <= i < |t| ensures !Escapable(t[i]) {
        PlainCategoryCharSafe(t[i]);
      }
      EscapeIdentity(t);
      assert n == t && CategoryChars(n);
    } else {
      assert |t| > 0;
      assert !CategoryChars(n) && |n| >= 1;
      assert CategoryNameIssue(n).Some?;
    }
  }

  /** A category name is accepted exactly when, once trimmed, it has 1 to 50 characters
      from `[a-zA-Z0-9\s-]`; in particular any name with an `&` is refused. */
  lemma CategoryNameAccepted(name: string)
    ensures CategoryNameIssue(SanitizeText(name)).None? <==> 1 <= |Trim(name)| <= 50 && PlainCategoryChars(Trim(name))
    ensures '&' in Trim(name) ==> CategoryNameIssue(SanitizeText(name)).Some?
  {
    EscapedCategoryNameAccepted(Trim(name));
  }

  datatype Period = Daily | Weekly | Monthly | Yearly

  function ParsePeriod(s: string): Option<Period>
  {
    if s == "daily" then Some(Daily)
    else if s == "weekly" then Some(Weekly)
    else if s == "monthly" then Some(Monthly)
    else if s == "yearly" then Some(Yearly)
    else None
  }

  datatype BudgetData = BudgetData(categoryId: string, amount: int, period: Period)

  /** `validateAndSanitize.budgetLimit`: the period must be one of the four names. */
  function ValidateBudget(lib: Lib, categoryId: string, amount: int, period: string): (r: Validated<BudgetData>)
    ensures r.Ok? <==> lib.isUuid(categoryId) && 0 < amount <= 999999999 && ParsePeriod(period).Some?
    ensures r.Ok? ==> r.value == BudgetData(categoryId, amount, ParsePeriod(period).value)
  {
    var issue := Require(lib.isUuid(categoryId), "Invalid category ID",
                 Require(amount > 0, "Budget limit must be positive",
                 Require(amount <= 999999999, "Budget limit too large",
                 Require(ParsePeriod(period).Some?, "Period must be daily, weekly, monthly, or yearly", None))));
    match issue
    case Some(m) => Err(ZodError(Some(m)))
    case None => Ok(BudgetData(categoryId, amount, ParsePeriod(period).value))
  }

  // ---------------------------------------------------------------------------
  // safeValidate
  // ---------------------------------------------------------------------------

  /** What the thunk handed to `safeValidate` did: returned `{success, data}` or threw. */
  datatype Outcome<T> = Returned(success: bool, data: T) | Threw(thrown: Thrown)

  /** A `validateAndSanitize.*` call as a thunk: it only ever returns `success: true`. */
  function AsOutcome<T>(v: Validated<T>): (o: Outcome<T>)
    ensures o.Returned? ==> o.success && v == Ok(o.data)
    ensures o.Threw? ==> v == Err(o.thrown)
  {
    match v
    case Ok(d) => Returned(true, d)
    case Err(e) => Threw(e)
  }

  /** What `safeValidate` returns. */
  datatype Checked<T> = Checked(success: bool, data: Option<T>, error: Option<string>)

  /** The message for a thrown value: the first zod issue's message when there is a
      non-empty one, otherwise `'Validation failed'`. */
  function ErrorMessage(t: Thrown): (m: string)
    ensures m != ""
    ensures t.ZodError? && t.firstIssue.Some? && t.firstIssue.value != "" ==> m == t.firstIssue.value
    ensures !(t.ZodError? && t.firstIssue.Some? && t.firstIssue.value != "") ==> m == "Validation failed"
  {
    match t
    case ZodError(Some(m)) => if m != "" then m else "Validation failed"
    case _ => "Validation failed"
  }

  /** `safeValidate(fn, fallback)`: a returning thunk succeeds with its data, whatever
      `success` flag it reported; a throwing one fails with the fallback and a message. */
  function SafeValidate<T>(o: Outcome<T>, fallback: Option<T>): (r: Checked<T>)
    ensures r.success <==> o.Returned?
    ensures r.success ==> r.data == Some(o.data) && r.error.None?
    ensures !r.success ==> r.data == fallback && r.error == Some(ErrorMessage(o.thrown))
  {
    match o
    case Returned(_, d) => Checked(true, Some(d), None)
    case Threw(t) => Checked(false, fallback, Some(ErrorMessage(t)))
  }

  /** Guarding a validator with `safeValidate` succeeds exactly when no check fails, and
      otherwise reports the first failing check's message. */
  lemma SafeValidateReportsFirstFailure<T>(issue: Option<string>, data: T, fallback: Option<T>)
    requires issue != Some("")
    ensures var r := SafeValidate(AsOutcome(Parse(issue, data)), fallback);
      && (r.success <==> issue.None?)
      && (r.success ==> r.data == Some(data))
      && (!r.success ==> r.error == issue && r.data == fallback)
  {
  }
}
