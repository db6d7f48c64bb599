/** The guarded service calls of `src/services/supabase.ts`: `authService.signUp`,
    `authService.signIn`, `createTransaction` and `createCategory`.

    Each call is a function of the rate-limiter storage, the current time and the
    replies the database would give; it returns the new storage, the reply handed to
    the caller and the database calls it made, in order. Randomness and the key
    derivation are parameters: the 16 random salt bytes arrive as an `Option`
    (`None` when the crypto call throws) and PBKDF2 is an uninterpreted function
    with a 32-byte result (`keySize: 256/32` words). */
module Services {
  import opened Wrappers
  import opened Strings
  import RL = RateLimiter
  import V = Validation

  // ---------------------------------------------------------------------------
  // Hex encoding of bytes
  // ---------------------------------------------------------------------------

  type Byte = b: int | 0 <= b < 256

  /** The result of `CryptoJS.PBKDF2(password, salt, { keySize: 256/32, ... })`. */
  type Digest = d: seq<Byte> | |d| == 32 witness seq(32, i => 0)

  /** What `Crypto.getRandomBytesAsync(16)` yields. */
  type SaltBytes = b: seq<Byte> | |b| == 16 witness seq(16, i => 0)

  /** The key derivation, `(password, salt) -> digest`. */
  type Kdf = (string, string) -> Digest

  predicate IsLowerHex(c: char)
  {
    '0' <= c <= '9' || 'a' <= c <= 'f'
  }

  lemma Nibbles(b: Byte)
    ensures 0 <= b / 16 < 16 && 0 <= b % 16 < 16
    ensures (b / 16) * 16 + b % 16 == b
  {
  }

  lemma HexDigit(d: nat)
    requires d < 16
    ensures IsLowerHex(DigitChar(d))
  {
  }

  /** The two hex digits of a byte, high nibble first. */
  function HexByte(b: Byte): (r: string)
    ensures |r| == 2 && IsLowerHex(r[0]) && IsLowerHex(r[1])
  {
    Nibbles(b);
    HexDigit(b / 16);
    HexDigit(b % 16);
    [DigitChar(b / 16), DigitChar(b % 16)]
  }

  /** `HexByte` is what `byte.toString(16).padStart(2, '0')` writes. */
  lemma HexByteIsPaddedRadix(b: Byte)
    ensures HexByte(b) == PadStart(NatToRadix(b, 16), 2, '0')
  {
    HexByteDigits(b);
  }

  /** `Array.from(bytes, byte => byte.toString(16).padStart(2, '0')).join('')`, and the
      hex rendering of a `WordArray`: two lower-case hex digits per byte. */
  function HexEncode(bytes: seq<Byte>): (r: string)
    ensures |r| == 2 * |bytes|
  {
    if |bytes| == 0 then "" else HexByte(bytes[0]) + HexEncode(bytes[1..])
  }

  /** Hex text holds nothing but lower-case hex digits. */
  lemma {:induction false} HexDigitsOnly(bytes: seq<Byte>)
    ensures forall i :: 0 <= i < |HexEncode(bytes)| ==> IsLowerHex(HexEncode(bytes)[i])
  {
    if |bytes| > 0 {
      var h, t := HexByte(bytes[0]), HexEncode(bytes[1..]);
      HexDigitsOnly(bytes[1..]);
      assert HexEncode(bytes) == h + t;
      forall i | 0 <= i < |h + t| ensures IsLowerHex((h + t)[i]) {
        if i >= 2 {
          assert (h + t)[i] == t[i - 2];
        }
      }
    }
  }

  /** Reads pairs of hex digits back as bytes. */
  function HexDecode(s: string): seq<int>
  {
    if |s| < 2 then [] else [DigitValue(s[0]) * 16 + DigitValue(s[1])] + HexDecode(s[2..])
  }

  /** Decoding reads one byte back from its two digits. */
  lemma DecodeStep(b: Byte, rest: string)
    ensures HexDecode(HexByte(b) + rest) == [b] + HexDecode(rest)
  {
    var s := HexByte(b) + rest;
    var hi, lo := b / 16, b % 16;
    Nibbles(b);
    assert s[0] == DigitChar(hi) && s[1] == DigitChar(lo) && s[2..] == rest;
    DigitRoundTrip(hi);
    DigitRoundTrip(lo);
    assert DigitValue(s[0]) == hi && DigitValue(s[1]) == lo;
  }

  /** Hex encoding loses nothing: decoding gives the bytes back. */
  lemma {:induction false} HexRoundTrip(bytes: seq<Byte>)
    ensures HexDecode(HexEncode(bytes)) == bytes
  {
    if |bytes| > 0 {
      var b, tail := bytes[0], bytes[1..];
      assert bytes == [b] + tail;
      var rest := HexEncode(tail);
      assert HexEncode(bytes) == HexByte(b) + rest;
      DecodeStep(b, rest);
      HexRoundTrip(tail);
    }
  }

  /** Different byte strings render differently. */
  lemma HexInjective(a: seq<Byte>, b: seq<Byte>)
    ensures HexEncode(a) == HexEncode(b) <==> a == b
  {
    HexRoundTrip(a);
    HexRoundTrip(b);
  }

  /** The sign-up salt: 32 lower-case hex digits. */
  lemma SaltFormat(bytes: SaltBytes)
    ensures |HexEncode(bytes)| == 32
    ensures forall i :: 0 <= i < 32 ==> IsLowerHex(HexEncode(bytes)[i])
  {
    HexDigitsOnly(bytes);
  }

  // ---------------------------------------------------------------------------
  // The `hash:salt` record
  // ---------------------------------------------------------------------------

  /** The stored `password_hash`: the derived key in hex, `:`, the salt. */
  function PasswordRecord(kdf: Kdf, password: string, salt: string): string
  {
    HexEncode(kdf(password, salt)) + ":" + salt
  }

  /** `const [hash, salt] = record.split(':')`: the first two parts, `''` when missing. */
  function ParseRecord(record: string): (r: (string, string))
    ensures ':' !in r.0 && ':' !in r.1
  {
    var parts := Split(record, ':');
    (parts[0], if |parts| >= 2 then parts[1] else "")
  }

  /** Parsing a record made at sign-up recovers exactly the hash and the salt. */
  lemma RecordRoundTrip(kdf: Kdf, password: string, salt: SaltBytes)
    ensures ParseRecord(PasswordRecord(kdf, password, HexEncode(salt)))
         == (HexEncode(kdf(password, HexEncode(salt))), HexEncode(salt))
  {
    var h, s := HexEncode(kdf(password, HexEncode(salt))), HexEncode(salt);
    HexDigitsOnly(kdf(password, HexEncode(salt)));
    HexDigitsOnly(salt);
    assert !IsLowerHex(':');
    assert ':' !in h && ':' !in s;
    SplitPair(h, s, ':');
  }

  /** The password check of `signIn`, inside its `try`: the message of the failure, or
      `None` when the password matches. A missing record makes `split` throw, which the
      `catch` turns into `'Authentication failed. Please try again.'`. */
  function PasswordMismatch(kdf: Kdf, password: string, stored: Option<string>): (r: Option<string>)
    ensures stored.None? ==> r == Some("Authentication failed. Please try again.")
    ensures stored.Some? && (ParseRecord(stored.value).0 == "" || ParseRecord(stored.value).1 == "")
        ==> r == Some("Invalid password format in database")
    ensures && stored.Some? && ParseRecord(stored.value).0 != "" && ParseRecord(stored.value).1 != ""
            && HexEncode(kdf(password, ParseRecord(stored.value).1)) != ParseRecord(stored.value).0
        ==> r == Some("Invalid email or password")
    ensures r.None? <==> && stored.Some?
                         && var (hash, salt) := ParseRecord(stored.value);
                            hash != "" && salt != "" && HexEncode(kdf(password, salt)) == hash
  {
    match stored
    case None => Some("Authentication failed. Please try again.")
    case Some(record) =>
      var (hash, salt) := ParseRecord(record);
      if hash == "" || salt == "" then Some("Invalid password format in database")
      else if HexEncode(kdf(password, salt)) != hash then Some("Invalid email or password")
      else None
  }

  /** A record made at sign-up accepts the password it was made from, and any other
      password exactly when the key derivation cannot tell the two apart under that salt. */
  lemma RecordVerifies(kdf: Kdf, password: string, attempt: string, salt: SaltBytes)
    ensures PasswordMismatch(kdf, password, Some(PasswordRecord(kdf, password, HexEncode(salt)))).None?
    ensures PasswordMismatch(kdf, attempt, Some(PasswordRecord(kdf, password, HexEncode(salt)))).None?
        <==> kdf(attempt, HexEncode(salt)) == kdf(password, HexEncode(salt))
    ensures PasswordMismatch(kdf, attempt, Some(PasswordRecord(kdf, password, HexEncode(salt)))).Some?
        ==> PasswordMismatch(kdf, attempt, Some(PasswordRecord(kdf, password, HexEncode(salt)))) == Some("Invalid email or password")
  {
    RecordRoundTrip(kdf, password, salt);
    RecordRoundTrip(kdf, attempt, salt);
    var s := HexEncode(salt);
    HexInjective(kdf(attempt, s), kdf(password, s));
  }

  /** A record without a `:` is reported as malformed, whatever the password. */
  lemma MalformedRecordRejected(kdf: Kdf, password: string, record: string)
    requires ':' !in record
    ensures PasswordMismatch(kdf, password, Some(record)) == Some("Invalid password format in database")
  {
    SplitNoSep(record, ':');
  }

  // ---------------------------------------------------------------------------
  // Replies and database calls
  // ---------------------------------------------------------------------------

  /** An error object: a database error carries a code, a service-made `{ message }` has `''`. */
  datatype Failure = Failure(code: string, message: string)

  /** `{ data, error }` as the service and the database return it. */
  datatype Reply<T> = Reply(data: Option<T>, error: Option<Failure>)

  function Fail<T>(message: string): Reply<T>
  {
    Reply(None, Some(Failure("", message)))
  }

  /** A row of the `users` table and the user `signIn` hands back without `password_hash`. */
  datatype UserRow = UserRow(id: string, email: string, nickname: string, passwordHash: Option<string>)
  datatype User = User(id: string, email: string, nickname: string)

  /** The rows the service inserts. */
  datatype TransactionRow = TransactionRow(data: V.TransactionData, userId: string, categoryId: string)
  datatype CategoryRow = CategoryRow(data: V.CategoryData, userId: string, color: string)

  /** A database call the service makes. */
  datatype Call =
    | FindUser(email: string)
    | InsertUser(email: string, passwordHash: string, nickname: string)
    | InsertTransaction(transaction: TransactionRow)
    | InsertCategory(category: CategoryRow)

  /** What a service call leaves behind. */
  datatype Effect<T> = Effect(limits: RL.Storage, reply: Reply<T>, calls: seq<Call>)

  /** `message || fallback`. */
  function OrDefault(message: Option<string>, fallback: string): string
  {
    if message.Some? && message.value != "" then message.value else fallback
  }

  /** A refusal of the rate limiter carries a message, as `Limit` guarantees. */
  predicate Explained(d: RL.Decision)
  {
    !d.allowed ==> d.error.Some? && d.error.value != ""
  }

  // ---------------------------------------------------------------------------
  // authService.signUp
  // ---------------------------------------------------------------------------

  /** The part of `signUp` after validation: hash the password with a fresh salt, look
      the e-mail up, and insert the user unless it exists or the lookup failed with
      anything but "no rows" (`PGRST116`). */
  function Register(kdf: Kdf, data: V.SignUpData, random: Option<SaltBytes>,
                    found: Reply<string>, inserted: Reply<UserRow>): (r: (Reply<UserRow>, seq<Call>))
    ensures random.None? ==> r == (Fail("Password hashing failed. Please try again."), [])
    ensures random.Some? ==> |r.1| >= 1 && r.1[0] == FindUser(data.email)
    ensures random.Some? && found.data.Some? ==> r == (Fail("User already registered"), [FindUser(data.email)])
    ensures random.Some? && found.data.None? && found.error.Some? && found.error.value.code != "PGRST116" ==>
      r == (Reply(None, found.error), [FindUser(data.email)])
    // the insert happens exactly when the user is new, and stores `hash:salt`
    ensures |r.1| == 2 <==> random.Some? && found.data.None? && (found.error.None? || found.error.value.code == "PGRST116")
    ensures |r.1| <= 2
    ensures |r.1| == 2 ==>
      && r.1[1] == InsertUser(data.email, PasswordRecord(kdf, data.password, HexEncode(random.value)), data.nickname)
      && r.0 == inserted
  {
    match random
    case None => (Fail("Password hashing failed. Please try again."), [])
    case Some(bytes) =>
      var record := PasswordRecord(kdf, data.password, HexEncode(bytes));
      var lookup := [FindUser(data.email)];
      if found.data.Some? then
        (Fail("User already registered"), lookup)
      else if found.error.Some? && found.error.value.code != "PGRST116" then
        (Reply(None, found.error), lookup)
      else
        (inserted, lookup + [InsertUser(data.email, record, data.nickname)])
  }

  /** The guards of `signUp` in order, given the storage after the rate-limit check, its
      decision and the outcome of validation: a refusal or a validation failure reaches
      no database call and replies with its own message; otherwise `Register` runs on
      the sanitized data. */
  function SignUpGuarded(after: RL.Storage, d: RL.Decision, checked: V.Validated<V.SignUpData>, kdf: Kdf,
                         random: Option<SaltBytes>, found: Reply<string>, inserted: Reply<UserRow>): (r: Effect<UserRow>)
    requires Explained(d)
    ensures r.limits == after
    ensures !d.allowed ==> r.calls == [] && r.reply == Fail(d.error.value)
    ensures d.allowed && checked.Err? ==> r.calls == [] && r.reply == Fail(V.ErrorMessage(checked.error))
    ensures d.allowed && checked.Ok? ==> (r.reply, r.calls) == Register(kdf, checked.value, random, found, inserted)
  {
    if !d.allowed then
      Effect(after, Fail(OrDefault(d.error, "Too many requests")), [])
    else
      var v := V.SafeValidate(V.AsOutcome(checked), None);
      if !v.success then
        Effect(after, Fail(OrDefault(v.error, "Invalid input")), [])
      else
        var (reply, calls) := Register(kdf, v.data.value, random, found, inserted);
        Effect(after, reply, calls)
  }

  /** `authService.signUp(email, password, nickname)`. The lookup for an existing user
      replies `found`; the insert replies `inserted`. The rate limiter is consulted
      first on the raw e-mail; a refusal reaches no database call and passes the
      limiter's message on. */
  function SignUp(limits: RL.Storage, now: int, lib: V.Lib, kdf: Kdf,
                  email: string, password: string, nickname: string,
                  random: Option<SaltBytes>, found: Reply<string>, inserted: Reply<UserRow>): (r: Effect<UserRow>)
    ensures r.limits == RL.Limit(limits, RL.Auth, email, now).0
  {
    var (after, d) := RL.Limit(limits, RL.Auth, email, now);
    SignUpGuarded(after, d, V.ValidateSignUp(lib, email, password, nickname), kdf, random, found, inserted)
  }

  /** A refused sign-up reaches no database call and replies with the limiter's message. */
  lemma SignUpRefused(limits: RL.Storage, now: int, lib: V.Lib, kdf: Kdf,
                      email: string, password: string, nickname: string,
                      random: Option<SaltBytes>, found: Reply<string>, inserted: Reply<UserRow>)
    requires !RL.Limit(limits, RL.Auth, email, now).1.allowed
    ensures var r := SignUp(limits, now, lib, kdf, email, password, nickname, random, found, inserted);
      && r.calls == []
      && r.reply == Fail(RL.Limit(limits, RL.Auth, email, now).1.error.value)
  {
  }

  /** What a successful sign-up stores: the sanitized e-mail and nickname, and the
      `hash:salt` record of the password as given. */
  lemma SignUpStores(limits: RL.Storage, now: int, lib: V.Lib, kdf: Kdf,
                     email: string, password: string, nickname: string,
                     salt: SaltBytes, found: Reply<string>, inserted: Reply<UserRow>)
    requires RL.Limit(limits, RL.Auth, email, now).1.allowed
    requires V.ValidateSignUp(lib, email, password, nickname).Ok?
    requires found.data.None? && found.error.None?
    ensures var r := SignUp(limits, now, lib, kdf, email, password, nickname, Some(salt), found, inserted);
      && r.calls == [FindUser(V.SanitizeEmail(lib, email)),
                     InsertUser(V.SanitizeEmail(lib, email), PasswordRecord(kdf, password, HexEncode(salt)),
                                V.SanitizeNickname(nickname))]
      && r.reply == inserted
  {
    var data := V.ValidateSignUp(lib, email, password, nickname).value;
    assert data == V.SignUpData(V.SanitizeEmail(lib, email), password, V.SanitizeNickname(nickname));
    var (reply, calls) := Register(kdf, data, Some(salt), found, inserted);
    assert |calls| == 2;
  }

  // ---------------------------------------------------------------------------
  // authService.signIn
  // ---------------------------------------------------------------------------

  /** The guards of `signIn` in order: the rate-limit decision, validation, the lookup
      of the sanitized e-mail, and the password check against the stored record. */
  function SignInGuarded(after: RL.Storage, d: RL.Decision, checked: V.Validated<V.SignInData>, kdf: Kdf,
                         found: Reply<UserRow>): (r: Effect<User>)
    requires Explained(d)
    ensures r.limits == after
    ensures !d.allowed ==> r.calls == [] && r.reply == Fail(d.error.value)
    ensures d.allowed && checked.Err? ==> r.calls == [] && r.reply == Fail(V.ErrorMessage(checked.error))
    ensures d.allowed && checked.Ok? ==> r.calls == [FindUser(checked.value.email)]
    // success exactly when every guard passes and the stored record matches the password
    ensures r.reply.data.Some? <==>
      && d.allowed && checked.Ok?
      && found.error.None? && found.data.Some?
      && PasswordMismatch(kdf, checked.value.password, found.data.value.passwordHash).None?
    ensures r.reply.data.Some? ==>
      r.reply == Reply(Some(User(found.data.value.id, found.data.value.email, found.data.value.nickname)), None)
    // an unknown e-mail and a wrong password read the same
    ensures r.calls != [] && (found.error.Some? || found.data.None?) ==>
      r.reply == Fail("Invalid email or password")
    ensures r.calls != [] && found.error.None? && found.data.Some? &&
            PasswordMismatch(kdf, checked.value.password, found.data.value.passwordHash).Some? ==>
      r.reply == Fail(PasswordMismatch(kdf, checked.value.password, found.data.value.passwordHash).value)
  {
    if !d.allowed then
      Effect(after, Fail(OrDefault(d.error, "Too many requests")), [])
    else
      var v := V.SafeValidate(V.AsOutcome(checked), None);
      if !v.success then
        Effect(after, Fail(OrDefault(v.error, "Invalid input")), [])
      else
        var data := v.data.value;
        var lookup := [FindUser(data.email)];
        if found.error.Some? || found.data.None? then
          Effect(after, Fail("Invalid email or password"), lookup)
        else
          var row := found.data.value;
          match PasswordMismatch(kdf, data.password, row.passwordHash)
          case Some(m) => Effect(after, Fail(m), lookup)
          case None => Effect(after, Reply(Some(User(row.id, row.email, row.nickname)), None), lookup)
  }

  /** `authService.signIn(email, password)`. The lookup of the user row replies `found`. */
  function SignIn(limits: RL.Storage, now: int, lib: V.Lib, kdf: Kdf,
                  email: string, password: string, found: Reply<UserRow>): (r: Effect<User>)
    ensures r.limits == RL.Limit(limits, RL.Auth, email, now).0
  {
    var (after, d) := RL.Limit(limits, RL.Auth, email, now);
    SignInGuarded(after, d, V.ValidateSignIn(lib, email, password), kdf, found)
  }

  /** A refused sign-in reaches no database call and replies with the limiter's message. */
  lemma SignInRefused(limits: RL.Storage, now: int, lib: V.Lib, kdf: Kdf,
                      email: string, password: string, found: Reply<UserRow>)
    requires !RL.Limit(limits, RL.Auth, email, now).1.allowed
    ensures var r := SignIn(limits, now, lib, kdf, email, password, found);
      && r.calls == []
      && r.reply == Fail(RL.Limit(limits, RL.Auth, email, now).1.error.value)
  {
  }

  /** Sign-in looks up at most the sanitized e-mail, and succeeds exactly when every guard
      passes and the stored record matches the password as typed; on success it hands back
      the row without its hash. */
  lemma SignInSucceedsIff(limits: RL.Storage, now: int, lib: V.Lib, kdf: Kdf,
                          email: string, password: string, found: Reply<UserRow>)
    ensures var r := SignIn(limits, now, lib, kdf, email, password, found);
      && (r.calls == [] || r.calls == [FindUser(V.SanitizeEmail(lib, email))])
      && (r.reply.data.Some? <==>
            && RL.Limit(limits, RL.Auth, email, now).1.allowed
            && V.ValidateSignIn(lib, email, password).Ok?
            && found.error.None? && found.data.Some?
            && PasswordMismatch(kdf, password, found.data.value.passwordHash).None?)
      && (r.reply.data.Some? ==>
            r.reply.data.value == User(found.data.value.id, found.data.value.email, found.data.value.nickname))
  {
    var checked := V.ValidateSignIn(lib, email, password);
    if checked.Ok? {
      assert checked.value == V.SignInData(V.SanitizeEmail(lib, email), password);
    }
  }

  /** A user who signed up can sign in with the same password: when the lookup returns
      the row holding the record sign-up stored, and the guards pass, sign-in succeeds. */
  lemma SignUpThenSignIn(limits: RL.Storage, now: int, lib: V.Lib, kdf: Kdf,
                         email: string, password: string, salt: SaltBytes, row: UserRow)
    requires RL.Limit(limits, RL.Auth, email, now).1.allowed
    requires V.ValidateSignIn(lib, email, password).Ok?
    requires row.passwordHash == Some(PasswordRecord(kdf, password, HexEncode(salt)))
    ensures SignIn(limits, now, lib, kdf, email, password, Reply(Some(row), None)).reply
         == Reply(Some(User(row.id, row.email, row.nickname)), None)
  {
    RecordVerifies(kdf, password, password, salt);
    assert V.ValidateSignIn(lib, email, password).value.password == password;
  }

  // ---------------------------------------------------------------------------
  // createTransaction and createCategory
  // ---------------------------------------------------------------------------

  /** The guards of `createTransaction` in order: the rate-limit decision, validation,
      then the insert of the validated fields with the caller's `user_id` and
      `category_id`. */
  function CreateTransactionGuarded(after: RL.Storage, d: RL.Decision, checked: V.Validated<V.TransactionData>,
                                    userId: string, categoryId: string,
                                    inserted: Reply<TransactionRow>): (r: Effect<TransactionRow>)
    requires Explained(d)
    ensures r.limits == after
    ensures !d.allowed ==> r.calls == [] && r.reply == Fail(d.error.value)
    ensures d.allowed && checked.Err? ==> r.calls == [] && r.reply == Fail(V.ErrorMessage(checked.error))
    ensures r.calls != [] <==> d.allowed && checked.Ok?
    ensures r.calls != [] ==>
      && r.calls == [InsertTransaction(TransactionRow(checked.value, userId, categoryId))]
      && r.reply == inserted
  {
    if !d.allowed then
      Effect(after, Fail(OrDefault(d.error, "Too many requests")), [])
    else
      var v := V.SafeValidate(V.AsOutcome(checked), None);
      if !v.success then
        Effect(after, Fail(OrDefault(v.error, "Invalid transaction data")), [])
      else
        Effect(after, inserted, [InsertTransaction(TransactionRow(v.data.value, userId, categoryId))])
  }

  /** `createTransaction(transaction)`: rate limit on the user (`'unknown'` when absent),
      then validation, then the insert. */
  function CreateTransaction(limits: RL.Storage, now: int, lib: V.Lib, input: V.TransactionInput,
                             userId: string, inserted: Reply<TransactionRow>): (r: Effect<TransactionRow>)
    ensures r.limits == RL.Limit(limits, RL.TransactionCreate, RL.OrUnknown(userId), now).0
  {
    var (after, d) := RL.Limit(limits, RL.TransactionCreate, RL.OrUnknown(userId), now);
    CreateTransactionGuarded(after, d, V.ValidateTransaction(lib, input), userId, input.categoryId, inserted)
  }

  /** A transaction is inserted exactly when the limiter admits the user and the input
      validates, and then the row holds the validated fields, the caller's user and the
      category as given; otherwise the reply is an error. */
  lemma CreateTransactionInserts(limits: RL.Storage, now: int, lib: V.Lib, input: V.TransactionInput,
                                 userId: string, inserted: Reply<TransactionRow>)
    ensures var r := CreateTransaction(limits, now, lib, input, userId, inserted);
      && (r.calls != [] <==>
            RL.Limit(limits, RL.TransactionCreate, RL.OrUnknown(userId), now).1.allowed &&
            V.ValidateTransaction(lib, input).Ok?)
      && (r.calls != [] ==>
            r.calls == [InsertTransaction(TransactionRow(V.ValidateTransaction(lib, input).value, userId, input.categoryId))])
      && (r.calls == [] ==> r.reply.data.None? && r.reply.error.Some?)
  {
  }

  /** The default colour of a new category. */
  const DefaultColor := "#007AFF"

  /** `createCategory(category)`: validation, then the insert of the validated fields with
      the caller's `user_id` and the colour, `'#007AFF'` when none is given. There is no
      rate-limit check: the storage, the `category_create` window included, is left as it is. */
  function CreateCategory(limits: RL.Storage, name: string, kind: string, icon: string, userId: string,
                          color: string, inserted: Reply<CategoryRow>): (r: Effect<CategoryRow>)
    ensures r.limits == limits
    ensures r.calls != [] <==> V.ValidateCategory(name, kind, icon).Ok?
    ensures r.calls == [] ==> r.reply == Fail(V.ErrorMessage(V.ValidateCategory(name, kind, icon).error))
    ensures r.calls != [] ==>
      && |r.calls| == 1 && r.calls[0].InsertCategory?
      && var row := r.calls[0].category;
         && row.userId == userId
         && row.data.name == V.SanitizeText(name)
         && (color == "" ==> row.color == DefaultColor)
         && (color != "" ==> row.color == color)
         && r.reply == inserted
  {
    var v := V.SafeValidate(V.AsOutcome(V.ValidateCategory(name, kind, icon)), None);
    if !v.success then
      Effect(limits, Fail(OrDefault(v.error, "Invalid category data")), [])
    else
      var row := CategoryRow(v.data.value, userId, if color != "" then color else DefaultColor);
      Effect(limits, inserted, [InsertCategory(row)])
  }
}
